/** Arrays by the type codes and widths that section 6.5 of the JVM Specification gives for newarray, in
    bytes of memory and plain numbers. */
module ArrayLaws {
  import opened Bytecode
  import opened NativeBytes
  import opened TypedArrays

  /** The width in bits of an element: by type code for the primitive types, and 64 for references. */
  predicate HasWidth(t: int, width: nat) {
    || (t in {4, 8} && width == 8)        // boolean, byte
    || (t in {5, 9} && width == 16)       // char, short
    || (t in {6, 10} && width == 32)      // float, int
    || (t in {7, 11} && width == 64)      // double, long
    || (!(4 <= t <= 11) && width == 64)   // references
  }

  /** The value modulo 2 to the width. */
  predicate IsLowPart(w: int, v: int, width: nat) {
    && (width == 8 ==> w == v % 0x100)
    && (width == 16 ==> w == v % 0x1_0000)
    && (width == 32 ==> w == v % 0x1_0000_0000)
    && (width == 64 ==> w == v % 0x1_0000_0000_0000_0000)
  }

  lemma WidthIsSize(t: int, width: nat)
    requires HasWidth(t, width)
    ensures CalculateSize(t) == width / 8 && width in {8, 16, 32, 64}
  {}

  lemma Powers()
    ensures Power256(1) == 0x100 && Power256(2) == 0x1_0000 && Power256(4) == 0x1_0000_0000
    ensures Power256(8) == 0x1_0000_0000_0000_0000
  {
    assert Power256(6) == 0x1_0000_0000_0000 by { assert Power256(4) == 0x1_0000_0000; }
  }

  /** A load after a store at the same index gives the low part of the value, as an unsigned number. */
  method StoreThenLoad(runtime: SnapJVMRuntime, t: int, width: nat, value: nat, index: nat, reference: int, ghost length: nat)
    returns (loaded: int)
    requires HasWidth(t, width) && IsArray(runtime.mem, runtime.littleEndian, reference, width / 8, length) && index < length
    modifies runtime
    ensures IsLowPart(loaded, value, width)
    ensures IsArray(runtime.mem, runtime.littleEndian, reference, width / 8, length)
  {
    WidthIsSize(t, width);
    Powers();
    hide CalculateSize, IsArray, Elements, Power256;
    runtime.ArrayStore(t, value, index, reference, length);
    loaded := runtime.ArrayLoad(t, index, reference, length);
  }

  /** And so it does in a new array, whose other elements are zero. */
  method NewStoreLoad(runtime: SnapJVMRuntime, t: int, width: nat, length: nat, address: int, value: nat, index: nat, other: nat)
    returns (loaded: int, untouched: int)
    requires HasWidth(t, width) && 8 + length * (width / 8) < 0x8000_0000 && index < length && other < length && other != index
    requires forall x :: address <= x < address + 8 + length * (width / 8) ==> x !in runtime.mem
    modifies runtime
    ensures IsLowPart(loaded, value, width) && untouched == 0
  {
    WidthIsSize(t, width);
    Powers();
    hide CalculateSize, IsArray, Elements, Power256;
    runtime.NewArray(t, length, address);
    runtime.ArrayStore(t, value, index, address, length);
    loaded := runtime.ArrayLoad(t, index, address, length);
    untouched := runtime.ArrayLoad(t, other, address, length);
  }

  /** The first k bytes from p on as a number, the low byte first or last. */
  function Number(mem: Memory, p: int, k: nat, littleEndian: bool): int
    requires Mapped(mem, p, k)
    decreases k
  {
    if k == 0 then 0
    else if littleEndian then mem[p] as int + 0x100 * Number(mem, p + 1, k - 1, true)
    else 0x100 * Number(mem, p, k - 1, false) + mem[p + k - 1] as int
  }

  lemma {:induction false} NativeIsNumber(mem: Memory, p: int, k: nat, littleEndian: bool)
    requires Mapped(mem, p, k)
    ensures Native(Read(mem, p, k), littleEndian) == Number(mem, p, k, littleEndian)
    decreases k
  {
    if k > 0 {
      var u := Read(mem, p, k);
      if littleEndian {
        assert u[1..] == Read(mem, p + 1, k - 1);
        NativeIsNumber(mem, p + 1, k - 1, true);
      } else {
        assert u[..k - 1] == Read(mem, p, k - 1);
        NativeIsNumber(mem, p, k - 1, false);
      }
    }
  }

  /** The length is the eight bytes at the reference, and element i of an array with this width is the
      width / 8 bytes at the reference plus 8 + (width / 8) * i. */
  lemma ElementsLieAt(mem: Memory, le: bool, reference: int, width: nat, length: nat, i: nat)
    requires width in {8, 16, 32, 64} && IsArray(mem, le, reference, width / 8, length) && i < length
    ensures Mapped(mem, reference, 8) && Number(mem, reference, 8, le) == length
    ensures var p := reference + 8 + width / 8 * i;
      Mapped(mem, p, width / 8) && Elements(mem, le, reference, width / 8, length)[i] == Number(mem, p, width / 8, le)
  {
    ElementMapped(mem, reference, width / 8, length, i);
    NativeIsNumber(mem, reference, 8, le);
    NativeIsNumber(mem, reference + 8 + width / 8 * i, width / 8, le);
    hide Native, Number;
  }

  /** A new array is of this length, with zeros from the reference plus 8 on, and takes that many bytes. */
  method NewArrayLies(runtime: SnapJVMRuntime, t: int, width: nat, length: nat, address: int)
    requires HasWidth(t, width) && 8 + length * (width / 8) < 0x8000_0000
    requires forall x :: address <= x < address + 8 + length * (width / 8) ==> x !in runtime.mem
    modifies runtime
    ensures forall x :: x in runtime.mem <==> x in old(runtime.mem) || address <= x < address + 8 + length * (width / 8)
    ensures IsArray(runtime.mem, runtime.littleEndian, address, width / 8, length)
    ensures forall i :: 0 <= i < length ==> Elements(runtime.mem, runtime.littleEndian, address, width / 8, length)[i] == 0
  {
    WidthIsSize(t, width);
    hide CalculateSize, Elements;
    runtime.NewArray(t, length, address);
  }
}
