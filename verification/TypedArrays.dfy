/** SnapJVMRuntime: arrays of Java's primitive types over byte-addressed memory. An array is eight bytes
    of length, followed by its elements. */
module TypedArrays {
  import opened Bytecode
  import opened NativeBytes

  const LENGTH_BYTES: nat := 8
  const INT_LIMIT: int := 0x8000_0000

  /** calculate_size, by the type codes of newarray; references take eight bytes. */
  function CalculateSize(t: int): (size: nat)
    ensures size in {1, 2, 4, 8}
  {
    if t == 4 || t == 8 then 1           // boolean, byte
    else if t == 9 || t == 5 then 2      // short, char
    else if t == 10 || t == 6 then 4     // int, float
    else 8                               // double, long, references
  }

  /** The size runtime_newarray asks malloc for: an int, converted to size_t. */
  function AskedSize(t: int, length: nat): nat {
    Signed((LENGTH_BYTES + length * CalculateSize(t)) % TWO_TO_THE_32, INT_LIMIT) % TWO_TO_THE_64
  }

  /** A size below 2^63 has room for the array if and only if the size it needs fits the int; then it is
      that size. Other sizes, for which the int is negative, have room for it, but no memory has them. */
  lemma AskedSizeExact(t: int, length: nat)
    ensures var asked, needed := AskedSize(t, length), LENGTH_BYTES + length * CalculateSize(t);
      && (asked < TWO_TO_THE_63 <==> needed % TWO_TO_THE_32 < INT_LIMIT)
      && (asked < TWO_TO_THE_63 ==> (asked >= needed <==> needed < INT_LIMIT))
      && (asked >= TWO_TO_THE_63 ==> (asked >= needed <==> needed < TWO_TO_THE_64))
      && (needed < INT_LIMIT ==> asked == needed)
  {
    hide CalculateSize;
    NeededSize(LENGTH_BYTES + length * CalculateSize(t));
  }

  lemma NeededSize(needed: nat)
    ensures var low := needed % TWO_TO_THE_32; var asked := Signed(low, INT_LIMIT) % TWO_TO_THE_64;
      && asked == (if low < INT_LIMIT then low else TWO_TO_THE_64 - TWO_TO_THE_32 + low)
      && (asked < TWO_TO_THE_63 <==> low < INT_LIMIT)
      && (asked < TWO_TO_THE_63 ==> (asked >= needed <==> needed < INT_LIMIT))
      && (asked >= TWO_TO_THE_63 ==> (asked >= needed <==> needed < TWO_TO_THE_64))
  {
    var low, high := needed % TWO_TO_THE_32, needed / TWO_TO_THE_32;
    assert needed == TWO_TO_THE_32 * high + low;
    if low >= INT_LIMIT {
      assert Signed(low, INT_LIMIT) % TWO_TO_THE_64 == TWO_TO_THE_64 - TWO_TO_THE_32 + low;
    }
  }

  // ---------------------------------------------------------------- memory

  type Memory = map<int, Byte>

  predicate Mapped(mem: Memory, a: int, n: nat) {
    forall x :: a <= x < a + n ==> x in mem
  }

  function Read(mem: Memory, a: int, n: nat): (u: seq<Byte>)
    requires Mapped(mem, a, n)
    ensures |u| == n
  {
    seq(n, i requires 0 <= i < n => mem[a + i])
  }

  function Write(mem: Memory, a: int, u: seq<Byte>): (m: Memory)
    ensures forall x :: x in m <==> x in mem || a <= x < a + |u|
    ensures forall x :: x in m ==> m[x] == if a <= x < a + |u| then u[x - a] else mem[x]
    decreases |u|
  {
    if u == [] then mem else Write(mem[a := u[0]], a + 1, u[1..])
  }

  lemma ReadsDiffer(mem: Memory, mem': Memory, a: int, n: nat)
    requires Mapped(mem, a, n) && forall x :: a <= x < a + n ==> x in mem' && mem'[x] == mem[x]
    ensures Mapped(mem', a, n) && Read(mem', a, n) == Read(mem, a, n)
  {}

  // ---------------------------------------------------------------- arrays

  function Address(r: int, size: nat, i: nat): int { r + LENGTH_BYTES + size * i }

  /** At r lies an array of n elements of this size. */
  predicate IsArray(mem: Memory, le: bool, r: int, size: nat, n: nat) {
    && Mapped(mem, r, LENGTH_BYTES + size * n)
    && Mapped(mem, r, LENGTH_BYTES) && Native(Read(mem, r, LENGTH_BYTES), le) == n
  }

  lemma ElementMapped(mem: Memory, r: int, size: nat, n: nat, i: nat)
    requires Mapped(mem, r, LENGTH_BYTES + size * n) && i < n
    ensures Mapped(mem, Address(r, size, i), size) && Address(r, size, i) + size <= Address(r, size, n)
    ensures Address(r, size, i) >= r + LENGTH_BYTES
  {
    var d := n - 1 - i;
    assert size * n == size * i + size + size * d;
  }

  /** Element i, zero-extended. */
  function Element(mem: Memory, le: bool, r: int, size: nat, n: nat, i: nat): int
    requires IsArray(mem, le, r, size, n) && i < n
  {
    ElementMapped(mem, r, size, n, i);
    Native(Read(mem, Address(r, size, i), size), le)
  }

  function Elements(mem: Memory, le: bool, r: int, size: nat, n: nat): seq<int>
    requires IsArray(mem, le, r, size, n)
  {
    seq(n, i requires 0 <= i < n => Element(mem, le, r, size, n, i))
  }

  /** Memory with the low bytes of v stored as element i. */
  function Stored(mem: Memory, le: bool, r: int, size: nat, i: nat, v: int): Memory {
    Write(mem, Address(r, size, i), Bytes(v, size, le))
  }

  lemma ElementsApart(r: int, size: nat, i: nat, j: nat)
    requires i != j
    ensures Address(r, size, i) + size <= Address(r, size, j) || Address(r, size, j) + size <= Address(r, size, i)
  {
    if i < j {
      var d := j - i - 1;
      assert size * j == size * i + size + size * d;
    } else {
      var d := i - j - 1;
      assert size * i == size * j + size + size * d;
    }
  }

  lemma ReadBack(mem: Memory, le: bool, a: int, size: nat, v: int)
    ensures var m := Write(mem, a, Bytes(v, size, le));
      Mapped(m, a, size) && Native(Read(m, a, size), le) == v % Power256(size)
  {
    var m := Write(mem, a, Bytes(v, size, le));
    assert Read(m, a, size) == Bytes(v, size, le);
    NativeOfBytes(v, size, le);
  }

  lemma WriteElsewhere(mem: Memory, a: int, u: seq<Byte>, b: int, n: nat)
    requires Mapped(mem, b, n) && (a + |u| <= b || b + n <= a)
    ensures Mapped(Write(mem, a, u), b, n) && Read(Write(mem, a, u), b, n) == Read(mem, b, n)
  {
    ReadsDiffer(mem, Write(mem, a, u), b, n);
  }

  /** A store changes the element to the value modulo 2 to the width, and neither the other elements
      nor the length. */
  lemma StoreUpdates(mem: Memory, le: bool, r: int, size: nat, n: nat, i: nat, v: int)
    requires IsArray(mem, le, r, size, n) && i < n
    ensures var m := Stored(mem, le, r, size, i, v);
      && IsArray(m, le, r, size, n) && m.Keys == mem.Keys
      && Elements(m, le, r, size, n) == Elements(mem, le, r, size, n)[i := v % Power256(size)]
  {
    var m, a := Stored(mem, le, r, size, i, v), Address(r, size, i);
    hide Native, Bytes, Power256, Read;
    ElementMapped(mem, r, size, n, i);
    WriteElsewhere(mem, a, Bytes(v, size, le), r, LENGTH_BYTES);
    assert m.Keys == mem.Keys;
    ReadBack(mem, le, a, size, v);
    forall j | 0 <= j < n && j != i ensures Element(m, le, r, size, n, j) == Element(mem, le, r, size, n, j) {
      ElementMapped(mem, r, size, n, j);
      ElementsApart(r, size, i, j);
      WriteElsewhere(mem, a, Bytes(v, size, le), Address(r, size, j), size);
    }
  }

  /** A store does not change an array that lies elsewhere, whatever its type. */
  lemma StoreKeepsOthers(mem: Memory, le: bool, r: int, size: nat, n: nat, i: nat, v: int, r': int, size': nat, n': nat)
    requires IsArray(mem, le, r, size, n) && i < n && IsArray(mem, le, r', size', n')
    requires Address(r, size, n) <= r' || Address(r', size', n') <= r
    ensures var m := Stored(mem, le, r, size, i, v);
      IsArray(m, le, r', size', n') && Elements(m, le, r', size', n') == Elements(mem, le, r', size', n')
  {
    var m, a := Stored(mem, le, r, size, i, v), Address(r, size, i);
    hide Native, Bytes, Read;
    ElementMapped(mem, r, size, n, i);
    WriteElsewhere(mem, a, Bytes(v, size, le), r', LENGTH_BYTES + size' * n');
    WriteElsewhere(mem, a, Bytes(v, size, le), r', LENGTH_BYTES);
    forall j | 0 <= j < n' ensures Element(m, le, r', size', n', j) == Element(mem, le, r', size', n', j) {
      ElementMapped(mem, r', size', n', j);
      WriteElsewhere(mem, a, Bytes(v, size, le), Address(r', size', j), size');
    }
  }

  // ---------------------------------------------------------------- the runtime

  class SnapJVMRuntime {
    const littleEndian: bool
    var mem: Memory

    constructor (littleEndian: bool)
      ensures this.littleEndian == littleEndian && mem == map[]
    {
      this.littleEndian := littleEndian;
      mem := map[];
    }

    /** runtime_newarray, when malloc returns this address: an array of zeros, and no other byte of
        memory changes. */
    method NewArray(t: int, length: nat, address: int)
      requires LENGTH_BYTES + length * CalculateSize(t) < INT_LIMIT
      requires forall x :: address <= x < address + LENGTH_BYTES + length * CalculateSize(t) ==> x !in mem
      modifies this
      ensures IsArray(mem, littleEndian, address, CalculateSize(t), length)
      ensures Elements(mem, littleEndian, address, CalculateSize(t), length) == seq(length, _ => 0)
      ensures forall x :: x in old(mem) ==> x in mem && mem[x] == old(mem)[x]
      ensures forall x :: x in mem ==> x in old(mem) || address <= x < address + LENGTH_BYTES + length * CalculateSize(t)
    {
      hide CalculateSize, Native, Bytes, Write, Power256, Elements, Read;
      var typeSize := CalculateSize(t);
      var size := length * typeSize;
      SmallLength(length, typeSize);
      mem := Write(mem, address, Bytes(length, LENGTH_BYTES, littleEndian));
      ReadBack(old(mem), littleEndian, address, LENGTH_BYTES, length);
      ghost var header := mem;
      var e := address + LENGTH_BYTES;
      var i := 0;
      while i < size
        invariant 0 <= i <= size
        invariant forall x :: x in mem <==> x in header || e <= x < e + i
        invariant forall x :: x in mem ==> mem[x] == if e <= x < e + i then 0 else header[x]
      {
        mem := mem[e + i := 0];
        i := i + 1;
      }
      FreshIsZero(header, mem, littleEndian, address, typeSize, length);
    }

    /** runtime_array_load */
    method ArrayLoad(t: int, index: nat, reference: int, ghost length: nat) returns (value: int)
      requires IsArray(mem, littleEndian, reference, CalculateSize(t), length) && index < length
      ensures value == Elements(mem, littleEndian, reference, CalculateSize(t), length)[index]
    {
      hide Native;
      var typeSize := CalculateSize(t);
      ElementMapped(mem, reference, typeSize, length, index);
      var arrayPointer := reference + LENGTH_BYTES + typeSize * index;
      match typeSize {
        case 1 => value := Native(Read(mem, arrayPointer, 1), littleEndian);
        case 2 => value := Native(Read(mem, arrayPointer, 2), littleEndian);
        case 4 => value := Native(Read(mem, arrayPointer, 4), littleEndian);
        case 8 => value := Native(Read(mem, arrayPointer, 8), littleEndian);
      }
    }

    /** runtime_array_store */
    method ArrayStore(t: int, value: nat, index: nat, reference: int, ghost length: nat)
      requires IsArray(mem, littleEndian, reference, CalculateSize(t), length) && index < length
      modifies this
      ensures mem == Stored(old(mem), littleEndian, reference, CalculateSize(t), index, value)
      ensures IsArray(mem, littleEndian, reference, CalculateSize(t), length)
      ensures Elements(mem, littleEndian, reference, CalculateSize(t), length) ==
              old(Elements(mem, littleEndian, reference, CalculateSize(t), length))[index := value % Power256(CalculateSize(t))]
    {
      hide Native, Write, Bytes;
      var typeSize := CalculateSize(t);
      StoreUpdates(mem, littleEndian, reference, typeSize, length, index, value);
      var arrayPointer := reference + LENGTH_BYTES + typeSize * index;
      match typeSize {
        case 1 => mem := Write(mem, arrayPointer, Bytes(value, 1, littleEndian));
        case 2 => mem := Write(mem, arrayPointer, Bytes(value, 2, littleEndian));
        case 4 => mem := Write(mem, arrayPointer, Bytes(value, 4, littleEndian));
        case 8 => mem := Write(mem, arrayPointer, Bytes(value, 8, littleEndian));
      }
    }
  }

  lemma SmallLength(length: nat, size: nat)
    requires LENGTH_BYTES + length * size < INT_LIMIT && size in {1, 2, 4, 8}
    ensures length % Power256(LENGTH_BYTES) == length
  {
    assert length <= length * size;
    assert Power256(4) == 0x1_0000_0000 by { assert Power256(2) == 0x1_0000; }
    assert Power256(6) == 0x1_0000_0000_0000;
    assert Power256(8) == 0x1_0000_0000_0000_0000;
  }

  /** Memory that is zero behind a length is an array of zeros. */
  lemma FreshIsZero(header: Memory, mem: Memory, le: bool, r: int, size: nat, n: nat)
    requires Mapped(header, r, LENGTH_BYTES) && Native(Read(header, r, LENGTH_BYTES), le) == n
    requires forall x :: x in mem <==> x in header || Address(r, size, 0) <= x < Address(r, size, n)
    requires forall x :: x in mem ==> mem[x] == if Address(r, size, 0) <= x < Address(r, size, n) then 0 else header[x]
    ensures IsArray(mem, le, r, size, n) && Elements(mem, le, r, size, n) == seq(n, _ => 0)
  {
    ReadsDiffer(header, mem, r, LENGTH_BYTES);
    assert IsArray(mem, le, r, size, n);
    forall i | 0 <= i < n ensures Element(mem, le, r, size, n, i) == 0 {
      ElementMapped(mem, r, size, n, i);
      NativeOfZeros(Read(mem, Address(r, size, i), size), le);
    }
  }
}
