/** The class file format of chapter 4 of the JVM Specification up to the end of the methods table: its
    structures, their encoding as the specification lays it out, and what the reader makes of a
    sequence of bytes. */
module ClassFormat {
  import opened Bytecode

  type Short = x: int | 0 <= x < 0x1_0000
  type Word = x: int | 0 <= x < 0x1_0000_0000
  type Long = x: int | 0 <= x < 0x1_0000_0000_0000_0000

  datatype Option<T> = None | Some(value: T)

  // ---------------------------------------------------------------- the structures

  datatype CpInfo =
    | Class(nameIndex: Short)
    | Fieldref(fieldClass: Short, fieldNameAndType: Short)
    | Methodref(methodClass: Short, methodNameAndType: Short)
    | InterfaceMethodref(interfaceClass: Short, interfaceNameAndType: Short)
    | String(stringIndex: Short)
    | Integer(integer: Word)
    | Float(float: Word)
    | LongValue(long: Long)
    | Double(double: Long)
    | NameAndType(name: Short, descriptor: Short)
    | Utf8(bytes: seq<Byte>)
    | MethodHandle(referenceKind: Byte, referenceIndex: Short)
    | MethodType(descriptorIndex: Short)
    | InvokeDynamic(bootstrapMethod: Short, dynamicNameAndType: Short)

  /** An entry as the reader files it, with its index_id and tag. */
  datatype Entry = Entry(indexId: int, tag: Byte, info: CpInfo)

  type Slot = Option<Entry>

  datatype Attribute = Attribute(attributeName: Short, info: seq<Byte>)

  /** field_info and method_info have the same layout. */
  datatype Member = Member(accessFlags: Short, nameIndex: Short, descriptorIndex: Short, attributes: seq<Attribute>)

  datatype ClassFile = ClassFile(
    minor: Short, major: Short, pool: seq<Slot>,
    access: Short, thisClass: Short, superClass: Short,
    interfaces: seq<Short>, fields: seq<Member>, methods: seq<Member>)

  // ---------------------------------------------------------------- numbers, high byte first

  const MAGIC: Word := 0xCAFE_BABE

  function U8(data: seq<Byte>, p: nat): int
    requires p + 8 <= |data|
  {
    TWO_TO_THE_32 * U4(data, p) + U4(data, p + 4)
  }

  function E2(x: Short): seq<Byte> { [x / 256, x % 256] }
  function E4(x: Word): seq<Byte> { E2(x / 0x1_0000) + E2(x % 0x1_0000) }
  function E8(x: Long): seq<Byte> { E4(x / 0x1_0000_0000) + E4(x % 0x1_0000_0000) }

  // ---------------------------------------------------------------- section 4.4

  function TagOf(i: CpInfo): Byte {
    match i
    case Class(_) => 7
    case Fieldref(_, _) => 9
    case Methodref(_, _) => 10
    case InterfaceMethodref(_, _) => 11
    case String(_) => 8
    case Integer(_) => 3
    case Float(_) => 4
    case LongValue(_) => 5
    case Double(_) => 6
    case NameAndType(_, _) => 12
    case Utf8(_) => 1
    case MethodHandle(_, _) => 15
    case MethodType(_) => 16
    case InvokeDynamic(_, _) => 18
  }

  predicate IsWide(i: CpInfo) { i.LongValue? || i.Double? }

  function EncodeBody(i: CpInfo): seq<Byte>
    requires i.Utf8? ==> |i.bytes| < 0x1_0000
  {
    match i
    case Class(n) => E2(n)
    case Fieldref(c, n) => E2(c) + E2(n)
    case Methodref(c, n) => E2(c) + E2(n)
    case InterfaceMethodref(c, n) => E2(c) + E2(n)
    case String(s) => E2(s)
    case Integer(v) => E4(v)
    case Float(v) => E4(v)
    case LongValue(v) => E8(v)
    case Double(v) => E8(v)
    case NameAndType(n, d) => E2(n) + E2(d)
    case Utf8(b) => E2(|b|) + b
    case MethodHandle(k, r) => [k] + E2(r)
    case MethodType(d) => E2(d)
    case InvokeDynamic(b, n) => E2(b) + E2(n)
  }

  predicate InfoOk(i: CpInfo) { i.Utf8? ==> |i.bytes| < 0x1_0000 }

  /** cp_info */
  function EncodeInfo(i: CpInfo): seq<Byte>
    requires InfoOk(i)
  {
    [TagOf(i)] + EncodeBody(i)
  }

  /** The slots from i on are well-formed: every one holds an entry filed under its own index with its
      own tag, but for the one behind a long or a double, which is empty (section 4.4.5). */
  predicate SlotsOk(s: seq<Slot>, i: nat)
    decreases |s| - i
  {
    if i >= |s| then i == |s|
    else
      && s[i].Some? && s[i].value.indexId == i && s[i].value.tag == TagOf(s[i].value.info) && InfoOk(s[i].value.info)
      && if IsWide(s[i].value.info) then i + 1 < |s| && s[i + 1] == None && SlotsOk(s, i + 2)
         else SlotsOk(s, i + 1)
  }

  function EncodeSlots(s: seq<Slot>, i: nat): seq<Byte>
    requires SlotsOk(s, i)
    decreases |s| - i
  {
    if i >= |s| then []
    else EncodeInfo(s[i].value.info) + EncodeSlots(s, if IsWide(s[i].value.info) then i + 2 else i + 1)
  }

  /** Entry 0 is not used. */
  predicate PoolOk(s: seq<Slot>) {
    |s| < 0x1_0000 && (s == [] || (s[0] == None && SlotsOk(s, 1)))
  }

  function EncodePool(s: seq<Slot>): seq<Byte>
    requires PoolOk(s)
  {
    E2(|s|) + if s == [] then [] else EncodeSlots(s, 1)
  }

  // ---------------------------------------------------------------- sections 4.1 and 4.5 to 4.7

  function EncodeShorts(xs: seq<Short>): seq<Byte> {
    if xs == [] then [] else EncodeShorts(xs[..|xs| - 1]) + E2(xs[|xs| - 1])
  }

  predicate AttributeOk(a: Attribute) { |a.info| < 0x1_0000_0000 }

  function EncodeAttribute(a: Attribute): seq<Byte>
    requires AttributeOk(a)
  {
    E2(a.attributeName) + (E4(|a.info|) + a.info)
  }

  predicate AttributesOk(s: seq<Attribute>) { forall a :: a in s ==> AttributeOk(a) }

  function EncodeAttributes(s: seq<Attribute>): seq<Byte>
    requires AttributesOk(s)
  {
    if s == [] then [] else EncodeAttributes(s[..|s| - 1]) + EncodeAttribute(s[|s| - 1])
  }

  predicate MemberOk(m: Member) { |m.attributes| < 0x1_0000 && AttributesOk(m.attributes) }

  function EncodeMember(m: Member): seq<Byte>
    requires MemberOk(m)
  {
    E2(m.accessFlags) + (E2(m.nameIndex) + (E2(m.descriptorIndex) + (E2(|m.attributes|) + EncodeAttributes(m.attributes))))
  }

  predicate MembersOk(s: seq<Member>) { forall m :: m in s ==> MemberOk(m) }

  function EncodeMembers(s: seq<Member>): seq<Byte>
    requires MembersOk(s)
  {
    if s == [] then [] else EncodeMembers(s[..|s| - 1]) + EncodeMember(s[|s| - 1])
  }

  function EncodeInterfaces(xs: seq<Short>): seq<Byte>
    requires |xs| < 0x1_0000
  {
    E2(|xs|) + EncodeShorts(xs)
  }

  function EncodeTable(s: seq<Member>): seq<Byte>
    requires |s| < 0x1_0000 && MembersOk(s)
  {
    E2(|s|) + EncodeMembers(s)
  }

  predicate ClassOk(c: ClassFile) {
    && PoolOk(c.pool) && |c.interfaces| < 0x1_0000
    && |c.fields| < 0x1_0000 && MembersOk(c.fields) && |c.methods| < 0x1_0000 && MembersOk(c.methods)
  }

  /** ClassFile, without the attributes of the class at its end. */
  function EncodeClass(c: ClassFile): seq<Byte>
    requires ClassOk(c)
  {
    E4(MAGIC) + (E2(c.minor) + (E2(c.major) + (EncodePool(c.pool)
    + (E2(c.access) + (E2(c.thisClass) + (E2(c.superClass)
    + (EncodeInterfaces(c.interfaces) + (EncodeTable(c.fields) + EncodeTable(c.methods)))))))))
  }

  // ---------------------------------------------------------------- what the reader does

  /** The reader ends in front of byte next, or leaves the process at an unknown tag, or finds another
      magic number; or it would read behind the buffer or write behind the constant pool, which it
      does not check. */
  datatype Parsed<T> =
    | Ok(value: T, next: nat)
    | UnknownTag(index: int, tag: Byte)
    | NoClassFile
    | OutOfBounds

  function Failed<T, S>(r: Parsed<T>): Parsed<S>
    requires !r.Ok?
  {
    match r
    case UnknownTag(i, t) => UnknownTag(i, t)
    case NoClassFile => NoClassFile
    case OutOfBounds => OutOfBounds
  }

  predicate Has(data: seq<Byte>, p: nat, n: nat) { p + n <= |data| }

  /** The entry whose tag is at p, for index i. */
  function ParseInfo(data: seq<Byte>, p: nat, i: int): Parsed<CpInfo> {
    if !Has(data, p, 1) then OutOfBounds
    else if data[p] in {7, 8, 16} then
      if !Has(data, p, 3) then OutOfBounds
      else
        var a := U2(data, p + 1);
        Ok(if data[p] == 7 then Class(a) else if data[p] == 8 then String(a) else MethodType(a), p + 3)
    else if data[p] in {9, 10, 11, 12, 18} then
      if !Has(data, p, 5) then OutOfBounds
      else
        var a, b := U2(data, p + 1), U2(data, p + 3);
        Ok(if data[p] == 9 then Fieldref(a, b) else if data[p] == 10 then Methodref(a, b)
           else if data[p] == 11 then InterfaceMethodref(a, b) else if data[p] == 12 then NameAndType(a, b)
           else InvokeDynamic(a, b), p + 5)
    else if data[p] in {3, 4} then
      if !Has(data, p, 5) then OutOfBounds
      else Ok(if data[p] == 3 then Integer(U4(data, p + 1)) else Float(U4(data, p + 1)), p + 5)
    else if data[p] in {5, 6} then
      if !Has(data, p, 9) then OutOfBounds
      else Ok(if data[p] == 5 then LongValue(U8(data, p + 1)) else Double(U8(data, p + 1)), p + 9)
    else if data[p] == 1 then
      if !Has(data, p, 3) || !Has(data, p + 3, U2(data, p + 1)) then OutOfBounds
      else Ok(Utf8(data[p + 3..p + 3 + U2(data, p + 1)]), p + 3 + U2(data, p + 1))
    else if data[p] == 15 then
      if !Has(data, p, 4) then OutOfBounds else Ok(MethodHandle(data[p + 1], U2(data, p + 2)), p + 4)
    else UnknownTag(i, data[p])
  }

  /** The loop of parseConstantPool, which has filled the slots s. */
  function ParseSlots(data: seq<Byte>, p: nat, s: seq<Slot>, count: nat): Parsed<seq<Slot>>
    decreases count - |s|
  {
    if |s| >= count then Ok(s, p)
    else
      match ParseInfo(data, p, |s|)
      case Ok(info, q) =>
        var e := Some(Entry(|s|, data[p], info));
        if !IsWide(info) then ParseSlots(data, q, s + [e], count)
        else if |s| + 1 < count then ParseSlots(data, q, s + [e, None], count)
        else OutOfBounds
      case r => Failed(r)
  }

  function ParsePool(data: seq<Byte>, p: nat): Parsed<seq<Slot>> {
    if !Has(data, p, 2) then OutOfBounds
    else if U2(data, p) == 0 then Ok([], p + 2)
    else ParseSlots(data, p + 2, [None], U2(data, p))
  }

  function ParseShorts(data: seq<Byte>, p: nat, n: nat): Parsed<seq<Short>> {
    if !Has(data, p, 2 * n) then OutOfBounds
    else Ok(seq(n, i requires 0 <= i < n => U2(data, p + 2 * i)), p + 2 * n)
  }

  function ParseAttribute(data: seq<Byte>, p: nat): Parsed<Attribute> {
    if !Has(data, p, 6) || !Has(data, p + 6, U4(data, p + 2)) then OutOfBounds
    else
      var n := U4(data, p + 2);
      Ok(Attribute(U2(data, p), data[p + 6..p + 6 + n]), p + 6 + n)
  }

  function ParseAttributes(data: seq<Byte>, p: nat, n: nat): (r: Parsed<seq<Attribute>>)
    ensures r.Ok? || r == OutOfBounds
  {
    if n == 0 then Ok([], p)
    else
      match ParseAttributes(data, p, n - 1)
      case Ok(s, q) =>
        (match ParseAttribute(data, q)
         case Ok(a, q') => Ok(s + [a], q')
         case _ => OutOfBounds)
      case _ => OutOfBounds
  }

  function ParseMember(data: seq<Byte>, p: nat): (r: Parsed<Member>)
    ensures r.Ok? || r == OutOfBounds
  {
    if !Has(data, p, 8) then OutOfBounds
    else
      match ParseAttributes(data, p + 8, U2(data, p + 6))
      case Ok(s, q) => Ok(Member(U2(data, p), U2(data, p + 2), U2(data, p + 4), s), q)
      case _ => OutOfBounds
  }

  function ParseMembers(data: seq<Byte>, p: nat, n: nat): (r: Parsed<seq<Member>>)
    ensures r.Ok? || r == OutOfBounds
  {
    if n == 0 then Ok([], p)
    else
      match ParseMembers(data, p, n - 1)
      case Ok(s, q) =>
        (match ParseMember(data, q)
         case Ok(m, q') => Ok(s + [m], q')
         case _ => OutOfBounds)
      case _ => OutOfBounds
  }

  /** A table of members, behind its count. */
  function ParseTable(data: seq<Byte>, p: nat): (r: Parsed<seq<Member>>)
    ensures r.Ok? || r == OutOfBounds
  {
    if !Has(data, p, 2) then OutOfBounds else ParseMembers(data, p + 2, U2(data, p))
  }

  function ParseInterfaces(data: seq<Byte>, p: nat): Parsed<seq<Short>> {
    if !Has(data, p, 2) then OutOfBounds else ParseShorts(data, p + 2, U2(data, p))
  }

  /** What follows the constant pool. */
  datatype Tail = Tail(
    access: Short, thisClass: Short, superClass: Short,
    interfaces: seq<Short>, fields: seq<Member>, methods: seq<Member>)

  function ParseTail(data: seq<Byte>, p: nat): (r: Parsed<Tail>)
    ensures r.Ok? || r == OutOfBounds
  {
    if !Has(data, p, 6) then OutOfBounds
    else
      match ParseInterfaces(data, p + 6)
      case Ok(interfaces, q) =>
        (match ParseTable(data, q)
         case Ok(fields, q1) =>
           (match ParseTable(data, q1)
            case Ok(methods, q2) =>
              Ok(Tail(U2(data, p), U2(data, p + 2), U2(data, p + 4), interfaces, fields, methods), q2)
            case _ => OutOfBounds)
         case _ => OutOfBounds)
      case _ => OutOfBounds
  }

  /** parse, from the magic number to the end of the methods. */
  function ParseClass(data: seq<Byte>): Parsed<ClassFile> {
    if !Has(data, 0, 4) then OutOfBounds
    else if U4(data, 0) != MAGIC then NoClassFile
    else if !Has(data, 4, 4) then OutOfBounds
    else
      match ParsePool(data, 8)
      case Ok(pool, p) =>
        (match ParseTail(data, p)
         case Ok(t, q) =>
           Ok(ClassFile(U2(data, 4), U2(data, 6), pool, t.access, t.thisClass, t.superClass,
                        t.interfaces, t.fields, t.methods), q)
         case _ => OutOfBounds)
      case r => Failed(r)
  }
}
