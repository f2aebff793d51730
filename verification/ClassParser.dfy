/** ClassParser: a cursor over the bytes of a class file, and the loops that fill the tables. */
module ClassParsers {
  import opened Bytecode
  import opened ClassFormat
  import opened FieldRefs
  import opened NativeBytes

  lemma NativeTwo(u: seq<Byte>, littleEndian: bool)
    requires |u| == 2
    ensures Native(u, littleEndian) == if littleEndian then 256 * (u[1] as int) + u[0] as int else 256 * (u[0] as int) + u[1] as int
  {
    if littleEndian {
      assert u[1..] == [u[1]] && [u[1]][1..] == [];
      assert Native(u[1..], true) == u[1] as int;
    } else {
      assert u[..1] == [u[0]] && [u[0]][..0] == [];
      assert Native(u[..1], false) == u[0] as int;
    }
  }

  /** Four and eight bytes, stored in reverse on a little-endian machine, are the big-endian number. */
  lemma NativeFour(u: seq<Byte>, littleEndian: bool, data: seq<Byte>, p: nat)
    requires |u| == 4 && Has(data, p, 4)
    requires forall i :: 0 <= i < 4 ==> u[i] == data[p + if littleEndian then 3 - i else i]
    ensures Native(u, littleEndian) == U4(data, p)
  {
    assert u == u[..2] + u[2..];
    assert Power256(2) == 256 * 256 * Power256(0);
    NativeJoins(u[..2], u[2..], littleEndian, 0x1_0000);
    NativeTwo(u[..2], littleEndian);
    NativeTwo(u[2..], littleEndian);
  }

  lemma NativeEight(u: seq<Byte>, littleEndian: bool, data: seq<Byte>, p: nat)
    requires |u| == 8 && Has(data, p, 8)
    requires forall i :: 0 <= i < 8 ==> u[i] == data[p + if littleEndian then 7 - i else i]
    ensures Native(u, littleEndian) == U8(data, p) && 0 <= U8(data, p) < TWO_TO_THE_64
  {
    assert u == u[..4] + u[4..];
    assert Power256(4) == 256 * 256 * 256 * 256 * Power256(0);
    NativeJoins(u[..4], u[4..], littleEndian, 0x1_0000_0000);
    if littleEndian {
      NativeFour(u[..4], true, data, p + 4);
      NativeFour(u[4..], true, data, p);
    } else {
      NativeFour(u[..4], false, data, p);
      NativeFour(u[4..], false, data, p + 4);
    }
  }

  /** What is stored of a class. */
  class ClassClass {
    var minorVersion: Short
    var majorVersion: Short
    var constantPoolInfoArray: array<Slot>
    var accessFlags: Short
    var thisClass: Short
    var superClass: Short
    var interfacesArray: array<Short>
    var fieldsArray: array<Member>
    var methodInfoArray: array<Member>
    var staticVars: set<nat>        // the keys of _staticVars and of _instanceVars
    var instanceVars: set<nat>

    constructor ()
      ensures fresh(constantPoolInfoArray) && fresh(interfacesArray) && fresh(fieldsArray) && fresh(methodInfoArray)
      ensures staticVars == {} && instanceVars == {}
    {
      staticVars, instanceVars := {}, {};
      minorVersion, majorVersion, accessFlags, thisClass, superClass := 0, 0, 0, 0, 0;
      constantPoolInfoArray := new Slot[0];
      interfacesArray := new Short[0];
      fieldsArray := new Member[0];
      methodInfoArray := new Member[0];
    }

    function Contents(): ClassFile
      reads this, constantPoolInfoArray, interfacesArray, fieldsArray, methodInfoArray
    {
      ClassFile(minorVersion, majorVersion, constantPoolInfoArray[..], accessFlags, thisClass, superClass,
                interfacesArray[..], fieldsArray[..], methodInfoArray[..])
    }
  }

  /** What parse does: it returns the class or NULL, or leaves the process. */
  datatype Result = Returned(classClass: ClassClass) | Null | Exit

  class ClassParser {
    const data: seq<Byte>        // _classFileBuffer
    const littleEndian: bool     // isLittleEndian()
    var u: nat                   // _u
    var fieldCPIs: seq<nat>

    constructor (data: seq<Byte>, littleEndian: bool)
      ensures this.data == data && this.littleEndian == littleEndian && u == 0 && fieldCPIs == []
    {
      this.data := data;
      this.littleEndian := littleEndian;
      u := 0;
      fieldCPIs := [];
    }

    method ReadU1() returns (val: Byte)
      requires Has(data, u, 1)
      modifies this`u
      ensures val == data[old(u)] && u == old(u) + 1
    {
      val := data[u];
      u := u + 1;
    }

    method ReadU2() returns (val: Short)
      requires Has(data, u, 2)
      modifies this`u
      ensures val == U2(data, old(u)) && u == old(u) + 2
    {
      var b: seq<Byte> := [0, 0];
      if littleEndian {
        b := b[1 := data[u]];
        u := u + 1;
        b := b[0 := data[u]];
        u := u + 1;
      } else {
        b := b[0 := data[u]];
        u := u + 1;
        b := b[1 := data[u]];
        u := u + 1;
      }
      NativeTwo(b, littleEndian);
      val := Native(b, littleEndian);
    }

    method ReadU4() returns (val: Word)
      requires Has(data, u, 4)
      modifies this`u
      ensures val == U4(data, old(u)) && u == old(u) + 4
    {
      var b: seq<Byte> := [0, 0, 0, 0];
      if littleEndian {
        b := b[3 := data[u]];
        u := u + 1;
        b := b[2 := data[u]];
        u := u + 1;
        b := b[1 := data[u]];
        u := u + 1;
        b := b[0 := data[u]];
        u := u + 1;
      } else {
        b := b[0 := data[u]];
        u := u + 1;
        b := b[1 := data[u]];
        u := u + 1;
        b := b[2 := data[u]];
        u := u + 1;
        b := b[3 := data[u]];
        u := u + 1;
      }
      NativeFour(b, littleEndian, data, old(u));
      val := Native(b, littleEndian);
    }

    method ReadU8() returns (val: Long)
      requires Has(data, u, 8)
      modifies this`u
      ensures val == U8(data, old(u)) && u == old(u) + 8
    {
      hide Native, U8;
      var b: seq<Byte> := [0, 0, 0, 0, 0, 0, 0, 0];
      if littleEndian {
        b := b[7 := data[u]];
        u := u + 1;
        b := b[6 := data[u]];
        u := u + 1;
        b := b[5 := data[u]];
        u := u + 1;
        b := b[4 := data[u]];
        u := u + 1;
        b := b[3 := data[u]];
        u := u + 1;
        b := b[2 := data[u]];
        u := u + 1;
        b := b[1 := data[u]];
        u := u + 1;
        b := b[0 := data[u]];
        u := u + 1;
      } else {
        b := b[0 := data[u]];
        u := u + 1;
        b := b[1 := data[u]];
        u := u + 1;
        b := b[2 := data[u]];
        u := u + 1;
        b := b[3 := data[u]];
        u := u + 1;
        b := b[4 := data[u]];
        u := u + 1;
        b := b[5 := data[u]];
        u := u + 1;
        b := b[6 := data[u]];
        u := u + 1;
        b := b[7 := data[u]];
        u := u + 1;
      }
      NativeEight(b, littleEndian, data, old(u));
      val := Native(b, littleEndian);
    }

    /** The loops that read a byte array. */
    method ReadBytes(n: nat) returns (bytes: seq<Byte>)
      requires Has(data, u, n)
      modifies this`u
      ensures bytes == data[old(u)..old(u) + n] && u == old(u) + n
    {
      var a := new Byte[n];
      var j := 0;
      while j < n
        invariant 0 <= j <= n && u == old(u) + j
        invariant a[..j] == data[old(u)..old(u) + j]
      {
        a[j] := ReadU1();
        j := j + 1;
      }
      assert a[..n] == a[..];
      bytes := a[..];
    }

    /** The switch of parseConstantPool behind the tag; None is the default branch. */
    method ReadInfo(tag: Byte, ghost i: int) returns (info: Option<CpInfo>)
      requires u > 0 && Has(data, u - 1, 1) && data[u - 1] == tag && ParseInfo(data, u - 1, i) != OutOfBounds
      modifies this`u
      ensures match ParseInfo(data, old(u) - 1, i)
              case Ok(x, q) => info == Some(x) && u == q
              case r => info == None && r == UnknownTag(i, tag)
    {
      hide U2, U4, U8;
      match tag {
        case 7 =>
          var nameIndex := ReadU2();
          info := Some(Class(nameIndex));
        case 9 =>
          var classIndex := ReadU2();
          var nameAndTypeIndex := ReadU2();
          info := Some(Fieldref(classIndex, nameAndTypeIndex));
        case 10 =>
          var classIndex := ReadU2();
          var nameAndTypeIndex := ReadU2();
          info := Some(Methodref(classIndex, nameAndTypeIndex));
        case 11 =>
          var classIndex := ReadU2();
          var nameAndTypeIndex := ReadU2();
          info := Some(InterfaceMethodref(classIndex, nameAndTypeIndex));
        case 8 =>
          var stringIndex := ReadU2();
          info := Some(String(stringIndex));
        case 3 =>
          var value := ReadU4();
          info := Some(Integer(value));
        case 4 =>
          var value := ReadU4();
          info := Some(Float(value));
        case 5 =>
          var value := ReadU8();
          info := Some(LongValue(value));
        case 6 =>
          var value := ReadU8();
          info := Some(Double(value));
        case 12 =>
          var nameIndex := ReadU2();
          var descriptorIndex := ReadU2();
          info := Some(NameAndType(nameIndex, descriptorIndex));
        case 1 =>
          var length := ReadU2();
          var bytes := ReadBytes(length);
          info := Some(Utf8(bytes));
        case 15 =>
          var referenceKind := ReadU1();
          var referenceIndex := ReadU2();
          info := Some(MethodHandle(referenceKind, referenceIndex));
        case 16 =>
          var descriptorIndex := ReadU2();
          info := Some(MethodType(descriptorIndex));
        case 18 =>
          var bootstrapMethodAttrIndex := ReadU2();
          var nameAndTypeIndex := ReadU2();
          info := Some(InvokeDynamic(bootstrapMethodAttrIndex, nameAndTypeIndex));
        case _ =>
          info := None;
      }
    }

    /** parseConstantPool; ok is false where it leaves the process. */
    method ParseConstantPool(c: ClassClass) returns (ok: bool)
      requires ParsePool(data, u) != OutOfBounds
      modifies this`u, this`fieldCPIs, c`constantPoolInfoArray
      ensures match ParsePool(data, old(u))
              case Ok(s, q) =>
                && ok && u == q && fresh(c.constantPoolInfoArray) && c.constantPoolInfoArray[..] == s
                && fieldCPIs == old(fieldCPIs) + Pushed(s)
              case r => !ok && r.UnknownTag?
    {
      hide ParseInfo, ParseSlots, IsWide, U2, Pushed, IsFieldref;
      ghost var start := u;
      var count := ReadU2();
      var pool := new Slot[count](_ => None);
      c.constantPoolInfoArray := pool;
      var i := 1;
      assert count > 0 ==> pool[..1] == [None];
      SlotsDone(data, u, pool[..0], 0);
      PushedNone(pool[..0]);
      while i < count
        invariant 1 <= i && (i <= count || count == 0)
        invariant c.constantPoolInfoArray == pool && pool.Length == count
        invariant count == 0 ==> u == start + 2 && fieldCPIs == old(fieldCPIs)
        invariant count > 0 ==> fieldCPIs == old(fieldCPIs) + Pushed(pool[..i])
        invariant count > 0 ==> ParseSlots(data, u, pool[..i], count) == ParsePool(data, start)
        decreases count - i
      {
        ghost var filled, p := pool[..i], u;
        SlotsStep(data, p, filled, count);
        var constantTag := ReadU1();
        var indexID := i;
        var info := ReadInfo(constantTag, i);
        if info == None {
          return false;
        }
        if constantTag == 9 {
          fieldCPIs := fieldCPIs + [indexID];
        }
        if constantTag == 5 || constantTag == 6 {
          i := i + 1;
          pool[i] := None;
        }
        pool[indexID] := Some(Entry(indexID, constantTag, info.value));
        i := i + 1;
        PushedSlot(filled, pool[indexID].value);
        assert pool[..i] == filled + if IsWide(info.value) then [pool[indexID], None] else [pool[indexID]];
      }
      assert pool[..count] == pool[..];
      SlotsDone(data, u, pool[..], count);
      ok := true;
    }

    /** parseInterfaces */
    method ParseInterfaceTable(c: ClassClass)
      requires ParseInterfaces(data, u) != OutOfBounds
      modifies this`u, c`interfacesArray
      ensures fresh(c.interfacesArray) && ParseInterfaces(data, old(u)) == Ok(c.interfacesArray[..], u)
    {
      hide U2;
      ghost var start := u + 2;
      var count := ReadU2();
      var a := new Short[count];
      c.interfacesArray := a;
      var i := 0;
      while i < count
        invariant 0 <= i <= count && u == start + 2 * i
        invariant c.interfacesArray == a
        invariant forall j :: 0 <= j < i ==> a[j] == U2(data, start + 2 * j)
      {
        a[i] := ReadU2();
        i := i + 1;
      }
      assert a[..] == ParseInterfaces(data, start - 2).value;
    }

    /** One attribute_info. */
    method ReadAttribute() returns (a: Attribute)
      requires ParseAttribute(data, u) != OutOfBounds
      modifies this`u
      ensures ParseAttribute(data, old(u)) == Ok(a, u)
    {
      hide U2, U4;
      var attributeNameIndex := ReadU2();
      var attributeLength := ReadU4();
      var info := ReadBytes(attributeLength);
      a := Attribute(attributeNameIndex, info);
    }

    /** One field_info or method_info. */
    method ReadMember() returns (m: Member)
      requires ParseMember(data, u) != OutOfBounds
      modifies this`u
      ensures ParseMember(data, old(u)) == Ok(m, u)
    {
      hide U2, ParseAttribute;
      ghost var start := u;
      var accessFlags := ReadU2();
      var nameIndex := ReadU2();
      var descriptorIndex := ReadU2();
      var count := ReadU2();
      var a := new Attribute[count];
      var j := 0;
      while j < count
        invariant 0 <= j <= count
        invariant ParseAttributes(data, start + 8, j) == Ok(a[..j], u)
      {
        ghost var read := a[..j];
        AttributesInBounds(data, start + 8, j + 1, count);
        a[j] := ReadAttribute();
        j := j + 1;
        assert a[..j] == read + [a[j - 1]];
      }
      assert a[..count] == a[..];
      m := Member(accessFlags, nameIndex, descriptorIndex, a[..]);
    }

    /** The accesses that lead from a field reference to the name of its class. */
    method ClassNameOf(pool: array<Slot>, fieldIndex: nat) returns (className: seq<Byte>)
      requires fieldIndex < pool.Length && IsFieldref(pool[fieldIndex]) && Named(pool[..], fieldIndex)
      ensures className == ClassName(pool[..], fieldIndex, littleEndian)
    {
      ghost var s := pool[..];
      NameIs(s, fieldIndex, littleEndian);
      hide ToData, HasData, Named, ClassName, IsFieldref;
      var classIndex := pool[fieldIndex].value.info.fieldClass;
      assert pool[classIndex] == s[classIndex];
      var nameIndex := pool[classIndex].value.info.nameIndex;
      className := ToData(pool[..], nameIndex, littleEndian);
    }

    /** The first loop of parseFields: it removes the references to fields of classes whose names begin
        with "java" from the queue. */
    method KeepFields(pool: array<Slot>)
      requires AreRefs(pool[..], fieldCPIs) && AllNamed(pool[..], fieldCPIs)
      modifies this`fieldCPIs
      ensures fieldCPIs == Kept(pool[..], old(fieldCPIs), littleEndian)
    {
      ghost var s, q := pool[..], fieldCPIs;
      RotateExactly(s, q, littleEndian);
      hide IsJava, Kept, Rotate, AreRefs, AllNamed, ToData, HasData, Named, ClassName, IsFieldref;
      var limit := |fieldCPIs|;
      var i := 0;
      while i < limit
        invariant 0 <= i <= limit && pool[..] == s
        invariant AreRefs(s, fieldCPIs) && Rotate(s, fieldCPIs, limit - i, littleEndian) == Rotate(s, q, limit, littleEndian)
      {
        RotateFront(s, fieldCPIs, limit - i, littleEndian);
        var fieldIndex := fieldCPIs[0];
        fieldCPIs := fieldCPIs[1..];
        var className := ClassNameOf(pool, fieldIndex);
        if !IsJava(className) {
          fieldCPIs := fieldCPIs + [fieldIndex];
        }
        i := i + 1;
      }
      RotateStep(s, fieldCPIs, 0, littleEndian);
    }

    /** parseFields */
    method ParseFields(c: ClassClass)
      requires AreRefs(c.constantPoolInfoArray[..], fieldCPIs) && AllNamed(c.constantPoolInfoArray[..], fieldCPIs)
      requires ParseTable(data, u).Ok?
      requires |ParseTable(data, u).value| <= |Kept(c.constantPoolInfoArray[..], fieldCPIs, littleEndian)|
      requires c.staticVars == {} && c.instanceVars == {}
      modifies this`u, this`fieldCPIs, c`fieldsArray, c`staticVars, c`instanceVars
      ensures fresh(c.fieldsArray) && ParseTable(data, old(u)) == Ok(c.fieldsArray[..], u)
      ensures Assign(c.fieldsArray[..], Kept(c.constantPoolInfoArray[..], old(fieldCPIs), littleEndian), |c.fieldsArray[..]|) ==
              Some(Vars(c.staticVars, c.instanceVars))
    {
      hide U2, ParseMember, ParseMembers, Kept, AreRefs, AllNamed, Assign;
      ghost var start, ms := u + 2, ParseTable(data, u).value;
      KeepFields(c.constantPoolInfoArray);
      ghost var q := fieldCPIs;
      var count := ReadU2();
      MembersStart(data, start, ms, q, count);
      var a := new Member[count];
      c.fieldsArray := a;
      var i := 0;
      while i < count
        invariant 0 <= i <= count && c.fieldsArray == a && a.Length == count && |ms| == count
        invariant ParseMembers(data, start, i) == Ok(ms[..i], u) && a[..i] == ms[..i]
        invariant fieldCPIs == q[i..] && Assign(ms, q, i) == Some(Vars(c.staticVars, c.instanceVars))
      {
        MembersStep(data, start, i, count, u);
        AssignStep(ms, q, i + 1);
        a[i] := ReadMember();
        assert ms[..i + 1] == ms[..i] + [ms[i]];
        if a[i].accessFlags / 8 % 2 == 1 {
          c.staticVars := c.staticVars + {fieldCPIs[0]};
        } else {
          c.instanceVars := c.instanceVars + {fieldCPIs[0]};
        }
        if |fieldCPIs| > 0 {
          fieldCPIs := fieldCPIs[1..];
        }
        i := i + 1;
      }
      assert a[..count] == a[..] && ms[..count] == ms;
    }

    /** parseMethods */
    method ParseMethods() returns (a: array<Member>)
      requires ParseTable(data, u) != OutOfBounds
      modifies this`u
      ensures fresh(a) && ParseTable(data, old(u)) == Ok(a[..], u)
    {
      hide U2, ParseMember;
      ghost var start := u + 2;
      var count := ReadU2();
      a := new Member[count];
      var i := 0;
      while i < count
        invariant 0 <= i <= count && fresh(a) && a.Length == count
        invariant ParseMembers(data, start, i) == Ok(a[..i], u)
      {
        ghost var read := a[..i];
        MembersInBounds(data, start, i + 1, count);
        a[i] := ReadMember();
        i := i + 1;
        assert a[..i] == read + [a[i - 1]];
      }
      assert a[..count] == a[..];
    }

    /** parse behind the constant pool. */
    method ParseRest(c: ClassClass)
      requires ParseTail(data, u).Ok? && c.staticVars == {} && c.instanceVars == {}
      requires AreRefs(c.constantPoolInfoArray[..], fieldCPIs) && AllNamed(c.constantPoolInfoArray[..], fieldCPIs)
      requires |ParseTail(data, u).value.fields| <= |Kept(c.constantPoolInfoArray[..], fieldCPIs, littleEndian)|
      modifies this`u, this`fieldCPIs, c`accessFlags, c`thisClass, c`superClass, c`interfacesArray, c`fieldsArray
      modifies c`methodInfoArray, c`staticVars, c`instanceVars
      ensures fresh(c.interfacesArray) && fresh(c.fieldsArray) && fresh(c.methodInfoArray)
      ensures ParseTail(data, old(u)) ==
              Ok(Tail(c.accessFlags, c.thisClass, c.superClass, c.interfacesArray[..], c.fieldsArray[..],
                      c.methodInfoArray[..]), u)
      ensures Assign(c.fieldsArray[..], Kept(c.constantPoolInfoArray[..], old(fieldCPIs), littleEndian), |c.fieldsArray[..]|) ==
              Some(Vars(c.staticVars, c.instanceVars))
    {
      hide U2, ParseInterfaces, ParseTable, Kept, Assign, AllNamed;
      c.accessFlags := ReadU2();
      c.thisClass := ReadU2();
      c.superClass := ReadU2();
      ParseInterfaceTable(c);
      ParseFields(c);
      c.methodInfoArray := ParseMethods();
    }

    /** parse, once the file is in the buffer, with an empty queue. */
    method Parse() returns (r: Result)
      requires u == 0 && fieldCPIs == [] && ParseClass(data) != OutOfBounds
      requires ParseClass(data).Ok? ==> FieldsDefined(ParseClass(data).value, littleEndian)
      modifies this`u, this`fieldCPIs
      ensures match ParseClass(data)
              case Ok(c, q) =>
                && r.Returned? && fresh(r.classClass) && r.classClass.Contents() == c && u == q
                && FieldVars(c, littleEndian) == Some(Vars(r.classClass.staticVars, r.classClass.instanceVars))
              case UnknownTag(_, _) => r == Exit
              case NoClassFile => r == Null
              case OutOfBounds => false
    {
      hide U2, U4, ParsePool, ParseTail, Kept, Assign, AllNamed, Rotate, Pushed;
      var magic := ReadU4();
      if magic != MAGIC {
        return Null;
      }
      var c := new ClassClass();
      c.minorVersion := ReadU2();
      c.majorVersion := ReadU2();
      var ok := ParseConstantPool(c);
      if !ok {
        return Exit;
      }
      ghost var pool := c.constantPoolInfoArray[..];
      assert fieldCPIs == Pushed(pool);
      ParseRest(c);
      RotateExactly(pool, Pushed(pool), littleEndian);
      r := Returned(c);
    }
  }

  /** One round of the loop of parseConstantPool. */
  lemma SlotsStep(data: seq<Byte>, p: nat, s: seq<Slot>, count: nat)
    requires |s| < count && ParseSlots(data, p, s, count) != OutOfBounds
    ensures Has(data, p, 1) && ParseInfo(data, p, |s|) != OutOfBounds
    ensures match ParseInfo(data, p, |s|)
            case Ok(info, q) =>
              && (IsWide(info) <==> data[p] == 5 || data[p] == 6) && (IsWide(info) ==> |s| + 1 < count)
              && (info.Fieldref? <==> data[p] == 9)
              && var e := Some(Entry(|s|, data[p], info));
              && ParseSlots(data, p, s, count) == ParseSlots(data, q, s + if IsWide(info) then [e, None] else [e], count)
            case _ => ParseSlots(data, p, s, count) == UnknownTag(|s|, data[p])
  {
    hide U2, U4, U8;
  }

  lemma SlotsDone(data: seq<Byte>, p: nat, s: seq<Slot>, count: nat)
    requires |s| >= count
    ensures ParseSlots(data, p, s, count) == Ok(s, p)
  {}

  /** If the whole table is readable, so is every beginning of it. */
  lemma {:induction false} AttributesInBounds(data: seq<Byte>, p: nat, i: nat, n: nat)
    requires i <= n && ParseAttributes(data, p, n).Ok?
    ensures ParseAttributes(data, p, i).Ok?
    decreases n
  {
    if i < n {
      AttributesInBounds(data, p, i, n - 1);
    }
  }

  lemma {:induction false} MembersInBounds(data: seq<Byte>, p: nat, i: nat, n: nat)
    requires i <= n && ParseMembers(data, p, n).Ok?
    ensures ParseMembers(data, p, i).Ok?
    decreases n
  {
    if i < n {
      MembersInBounds(data, p, i, n - 1);
    }
  }

  lemma {:induction false} MembersCount(data: seq<Byte>, p: nat, n: nat)
    ensures ParseMembers(data, p, n).Ok? ==> |ParseMembers(data, p, n).value| == n
    decreases n
  {
    if n > 0 {
      MembersCount(data, p, n - 1);
    }
  }

  /** The members read first are the first of the whole table. */
  lemma {:induction false} MembersPrefix(data: seq<Byte>, p: nat, i: nat, n: nat)
    requires i <= n && ParseMembers(data, p, n).Ok? && ParseMembers(data, p, i).Ok?
    ensures |ParseMembers(data, p, n).value| == n
    ensures ParseMembers(data, p, i).value == ParseMembers(data, p, n).value[..i]
    decreases n
  {
    hide ParseMember;
    MembersCount(data, p, n);
    if i < n {
      MembersCount(data, p, n - 1);
      MembersPrefix(data, p, i, n - 1);
    }
  }

  /** One round over the members. */
  lemma MembersStep(data: seq<Byte>, p: nat, i: nat, n: nat, q: nat)
    requires i < n && ParseMembers(data, p, n).Ok? && ParseMembers(data, p, i).Ok?
    requires ParseMembers(data, p, i).next == q
    ensures |ParseMembers(data, p, n).value| == n
    ensures ParseMember(data, q).Ok?
    ensures var m := ParseMember(data, q);
      && m.value == ParseMembers(data, p, n).value[i]
      && ParseMembers(data, p, i + 1) == Ok(ParseMembers(data, p, i).value + [m.value], m.next)
  {
    hide ParseMember;
    MembersCount(data, p, i);
    MembersInBounds(data, p, i + 1, n);
    MembersPrefix(data, p, i + 1, n);
  }

  lemma MembersStart(data: seq<Byte>, p: nat, ms: seq<Member>, q: seq<nat>, n: nat)
    requires ParseMembers(data, p, n).Ok? && ParseMembers(data, p, n).value == ms
    ensures |ms| == n && ParseMembers(data, p, 0) == Ok(ms[..0], p) && Assign(ms, q, 0) == Some(Vars({}, {}))
  {
    MembersCount(data, p, n);
  }

  lemma AssignStep(ms: seq<Member>, q: seq<nat>, n: nat)
    requires 0 < n <= |ms| && n <= |q| && Assign(ms, q, n - 1).Some?
    ensures var v := Assign(ms, q, n - 1).value;
      Assign(ms, q, n) == Some(if IsStatic(ms[n - 1]) then v.(statics := v.statics + {q[n - 1]})
                               else v.(instances := v.instances + {q[n - 1]}))
  {}
}
