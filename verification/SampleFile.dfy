/** A whole class file, byte by byte, and what the reader makes of it. The class B has a reference to a
    field of a class of Java and two to its own fields, a static one and one that is not. */
module SampleFile {
  import opened Bytecode
  import opened ClassFormat
  import opened ClassRoundTrip
  import opened ClassParsers
  import opened FieldRefs

  // eight slots: Class 2, "java/A", Fieldref 1.10, Class 5, "B", Fieldref 4.11 and Fieldref 4.12
  const LAST_SLOTS: seq<Byte> := [7, 0, 5] + ([1, 0, 1, 66] + ([9, 0, 4, 0, 11] + ([9, 0, 4, 0, 12] + [])))
  const POOL: seq<Byte> :=
    [0, 8] + ([7, 0, 2] + ([1, 0, 6, 106, 97, 118, 97, 47, 65] + ([9, 0, 1, 0, 10] + LAST_SLOTS)))

  const INTERFACES: seq<Byte> := [0, 2, 1, 2, 3, 4]

  // a public static field with an attribute of two bytes, and a private final one
  const FIELDS: seq<Byte> :=
    [0, 2] + ([0, 9, 0, 13, 0, 14, 0, 1, 0, 15, 0, 0, 0, 2, 7, 8] + [0, 18, 0, 16, 0, 17, 0, 0])

  const METHODS: seq<Byte> := [0, 1] + [0, 1, 0, 19, 0, 20, 0, 0]

  // magic number, versions, pool, access flags, this class, super class, interfaces, fields, methods
  const FILE: seq<Byte> :=
    [0xCA, 0xFE, 0xBA, 0xBE] + ([0, 3] + ([0, 52] + (POOL
    + ([0, 33] + ([0, 4] + ([0, 1]
    + (INTERFACES + (FIELDS + METHODS))))))))

  function Filed(i: int, tag: Byte, x: CpInfo): Slot { Some(Entry(i, tag, x)) }

  const SLOTS: seq<Slot> :=
    [None,
     Filed(1, 7, Class(2)),
     Filed(2, 1, Utf8([106, 97, 118, 97, 47, 65])),
     Filed(3, 9, Fieldref(1, 10)),
     Filed(4, 7, Class(5)),
     Filed(5, 1, Utf8([66])),
     Filed(6, 9, Fieldref(4, 11)),
     Filed(7, 9, Fieldref(4, 12))]

  const FIRST_FIELD: Member := Member(9, 13, 14, [Attribute(15, [7, 8])])
  const SECOND_FIELD: Member := Member(18, 16, 17, [])
  const ONE_METHOD: Member := Member(1, 19, 20, [])

  const SAMPLE: ClassFile :=
    ClassFile(3, 52, SLOTS, 33, 4, 1, [258, 772], [FIRST_FIELD, SECOND_FIELD], [ONE_METHOD])

  // ---------------------------------------------------------------- the bytes are the encoding

  /** The slots, one by one. */
  lemma SlotsAre()
    ensures |SLOTS| == 8 && SLOTS[0] == None
    ensures SLOTS[1] == Filed(1, 7, Class(2)) && SLOTS[2] == Filed(2, 1, Utf8([106, 97, 118, 97, 47, 65]))
    ensures SLOTS[3] == Filed(3, 9, Fieldref(1, 10)) && SLOTS[4] == Filed(4, 7, Class(5))
    ensures SLOTS[5] == Filed(5, 1, Utf8([66]))
    ensures SLOTS[6] == Filed(6, 9, Fieldref(4, 11)) && SLOTS[7] == Filed(7, 9, Fieldref(4, 12))
  {}

  lemma SlotEncodes(s: seq<Slot>, i: nat, x: CpInfo, bytes: seq<Byte>, rest: seq<Byte>)
    requires i < |s| && s[i] == Filed(i, TagOf(x), x) && InfoOk(x) && !IsWide(x) && EncodeInfo(x) == bytes
    requires SlotsOk(s, i + 1) && EncodeSlots(s, i + 1) == rest
    ensures SlotsOk(s, i) && EncodeSlots(s, i) == bytes + rest
  {
    hide EncodeInfo;
  }

  lemma InfosEncode()
    ensures EncodeInfo(Class(2)) == [7, 0, 2] && EncodeInfo(Class(5)) == [7, 0, 5]
    ensures EncodeInfo(Utf8([106, 97, 118, 97, 47, 65])) == [1, 0, 6, 106, 97, 118, 97, 47, 65]
    ensures EncodeInfo(Utf8([66])) == [1, 0, 1, 66]
    ensures EncodeInfo(Fieldref(1, 10)) == [9, 0, 1, 0, 10]
    ensures EncodeInfo(Fieldref(4, 11)) == [9, 0, 4, 0, 11] && EncodeInfo(Fieldref(4, 12)) == [9, 0, 4, 0, 12]
  {}

  lemma LastSlotsEncode()
    ensures SlotsOk(SLOTS, 4) && EncodeSlots(SLOTS, 4) == LAST_SLOTS
  {
    SlotsAre();
    InfosEncode();
    var none: seq<Byte> := [];
    assert SlotsOk(SLOTS, 8) && EncodeSlots(SLOTS, 8) == none;
    hide EncodeSlots, EncodeInfo, SlotsOk, SLOTS;
    SlotEncodes(SLOTS, 7, Fieldref(4, 12), [9, 0, 4, 0, 12], none);
    SlotEncodes(SLOTS, 6, Fieldref(4, 11), [9, 0, 4, 0, 11], EncodeSlots(SLOTS, 7));
    SlotEncodes(SLOTS, 5, Utf8([66]), [1, 0, 1, 66], EncodeSlots(SLOTS, 6));
    SlotEncodes(SLOTS, 4, Class(5), [7, 0, 5], EncodeSlots(SLOTS, 5));
  }

  lemma PoolEncodes()
    ensures PoolOk(SLOTS) && EncodePool(SLOTS) == POOL
  {
    SlotsAre();
    InfosEncode();
    LastSlotsEncode();
    hide EncodeSlots, EncodeInfo, SlotsOk, SLOTS, LAST_SLOTS;
    SlotEncodes(SLOTS, 3, Fieldref(1, 10), [9, 0, 1, 0, 10], LAST_SLOTS);
    SlotEncodes(SLOTS, 2, Utf8([106, 97, 118, 97, 47, 65]), [1, 0, 6, 106, 97, 118, 97, 47, 65], EncodeSlots(SLOTS, 3));
    SlotEncodes(SLOTS, 1, Class(2), [7, 0, 2], EncodeSlots(SLOTS, 2));
    assert E2(8) == [0, 8];
  }

  lemma InterfacesEncode()
    ensures EncodeInterfaces([258, 772]) == INTERFACES
  {
    assert [258, 772][..1] == [258] && [258][..0] == [];
    var none: seq<Short> := [];
    assert EncodeShorts(none) == [];
    assert EncodeShorts([258]) == [1, 2];
  }

  lemma FieldsEncode()
    ensures MembersOk([FIRST_FIELD, SECOND_FIELD]) && EncodeTable([FIRST_FIELD, SECOND_FIELD]) == FIELDS
  {
    FirstFieldEncodes();
    SecondFieldEncodes();
    hide EncodeMember, MemberOk, FIRST_FIELD, SECOND_FIELD;
    MembersEncode(FIRST_FIELD, SECOND_FIELD);
    assert E2(2) == [0, 2];
    hide E2, EncodeMembers;
  }

  lemma FirstFieldEncodes()
    ensures MemberOk(FIRST_FIELD)
    ensures EncodeMember(FIRST_FIELD) == [0, 9, 0, 13, 0, 14, 0, 1, 0, 15, 0, 0, 0, 2, 7, 8]
  {
    AttributeEncodes();
    assert E2(9) == [0, 9] && E2(13) == [0, 13] && E2(14) == [0, 14] && E2(1) == [0, 1];
    hide EncodeAttributes, E2;
  }

  lemma SecondFieldEncodes()
    ensures MemberOk(SECOND_FIELD) && EncodeMember(SECOND_FIELD) == [0, 18, 0, 16, 0, 17, 0, 0]
  {
    AttributeEncodes();
    hide EncodeAttributes;
  }

  lemma AttributeEncodes()
    ensures EncodeAttributes([Attribute(15, [7, 8])]) == [0, 15, 0, 0, 0, 2, 7, 8]
    ensures EncodeAttributes([]) == []
  {
    var none: seq<Attribute> := [];
    assert [Attribute(15, [7, 8])][..0] == none && EncodeAttributes(none) == [];
  }

  lemma MembersEncode(a: Member, b: Member)
    requires MemberOk(a) && MemberOk(b)
    ensures EncodeMembers([a]) == EncodeMember(a) && EncodeMembers([a, b]) == EncodeMember(a) + EncodeMember(b)
  {
    var none: seq<Member> := [];
    assert [a, b][..1] == [a] && [a][..0] == none && EncodeMembers(none) == [];
    hide EncodeMember, MemberOk;
    assert EncodeMembers([a]) == EncodeMembers(none) + EncodeMember(a);
  }

  lemma MethodsEncode()
    ensures MembersOk([ONE_METHOD]) && EncodeTable([ONE_METHOD]) == METHODS
  {
    AttributeEncodes();
    hide EncodeAttributes;
    assert EncodeMember(ONE_METHOD) == [0, 1, 0, 19, 0, 20, 0, 0];
    hide EncodeMember;
    MembersEncode(ONE_METHOD, ONE_METHOD);
  }

  lemma NumbersEncode()
    ensures E4(MAGIC) == [0xCA, 0xFE, 0xBA, 0xBE]
    ensures E2(3) == [0, 3] && E2(52) == [0, 52] && E2(33) == [0, 33] && E2(4) == [0, 4] && E2(1) == [0, 1]
  {}

  lemma SampleEncodes()
    ensures ClassOk(SAMPLE) && EncodeClass(SAMPLE) == FILE
  {
    PoolEncodes();
    InterfacesEncode();
    FieldsEncode();
    MethodsEncode();
    NumbersEncode();
    hide FIRST_FIELD, SECOND_FIELD, ONE_METHOD, EncodePool, EncodeInterfaces, EncodeTable, E2, E4, PoolOk, MembersOk;
    hide SLOTS, POOL, INTERFACES, FIELDS, METHODS;
  }

  /** What is read of the file, to its end. */
  lemma SampleIsRead()
    ensures ParseClass(FILE) == Ok(SAMPLE, 92)
  {
    SampleEncodes();
    hide EncodeClass, ParseClass, ClassOk;
    assert At(FILE, 0, FILE) by { assert FILE[0..|FILE|] == FILE; }
    ClassIsItsEncoding(FILE, SAMPLE, |FILE|);
  }

  // ---------------------------------------------------------------- the variables

  lemma PushedNext(s: seq<Slot>, i: nat, q: seq<nat>)
    requires i < |s| && Pushed(s[..i]) == q
    ensures Pushed(s[..i + 1]) == q + if IsFieldref(s[i]) then [i] else []
  {
    assert s[..i + 1] == s[..i] + [s[i]];
    PushedGrows(s[..i], s[i]);
    hide Pushed;
  }

  lemma ThreeReferences()
    ensures Pushed(SLOTS) == [3, 6, 7]
  {
    SlotsAre();
    hide SLOTS, Pushed;
    var s := SLOTS;
    var none: seq<nat> := [];
    PushedNone(s[..0]);
    PushedNext(s, 0, none);
    PushedNext(s, 1, none);
    PushedNext(s, 2, none);
    PushedNext(s, 3, none);
    PushedNext(s, 4, [3]);
    PushedNext(s, 5, [3]);
    PushedNext(s, 6, [3]);
    PushedNext(s, 7, [3, 6]);
    assert s[..8] == s;
  }

  /** The first reference is dropped; the static field takes the second and the other one the third. */
  lemma SampleVariables(le: bool)
    ensures FieldsDefined(SAMPLE, le) && FieldVars(SAMPLE, le) == Some(Vars({6}, {7}))
  {
    var q := [3, 6, 7];
    ThreeReferences();
    assert AllNamed(SLOTS, q);
    KeptIs(le);
    RotateExactly(SLOTS, q, le);
    AssignsTwo();
    hide Pushed, Rotate, Kept, Assign;
  }

  lemma KeptIs(le: bool)
    requires AreRefs(SLOTS, [3, 6, 7]) && AllNamed(SLOTS, [3, 6, 7])
    ensures Kept(SLOTS, [3, 6, 7], le) == [6, 7]
  {
    var s := SLOTS;
    ClassNames(le);
    hide SLOTS, Named, ClassName, IsJava;
    KeptFront(s, [3, 6, 7], le);
    assert [3, 6, 7][1..] == [6, 7] && [6, 7][1..] == [7];
    KeptFront(s, [6, 7], le);
    KeptFront(s, [7], le);
    var none: seq<nat> := [];
    assert [7][1..] == none;
    KeptFront(s, none, le);
  }

  lemma ClassNames(le: bool)
    ensures IsFieldref(SLOTS[3]) && Named(SLOTS, 3) && IsJava(ClassName(SLOTS, 3, le))
    ensures IsFieldref(SLOTS[6]) && Named(SLOTS, 6) && !IsJava(ClassName(SLOTS, 6, le))
    ensures IsFieldref(SLOTS[7]) && Named(SLOTS, 7) && !IsJava(ClassName(SLOTS, 7, le))
  {
    SlotsAre();
    hide SLOTS;
    var s := SLOTS;
    assert ClassName(s, 3, le) == [106, 97, 118, 97, 47, 65];
    assert ClassName(s, 6, le) == [66] && ClassName(s, 7, le) == [66];
  }

  lemma AssignsTwo()
    ensures Assign([FIRST_FIELD, SECOND_FIELD], [6, 7], 2) == Some(Vars({6}, {7}))
  {
    var ms := [FIRST_FIELD, SECOND_FIELD];
    assert Assign(ms, [6, 7], 0) == Some(Vars({}, {})) && IsStatic(FIRST_FIELD) && !IsStatic(SECOND_FIELD);
    AssignStep(ms, [6, 7], 1);
    AssignStep(ms, [6, 7], 2);
    hide Assign, IsStatic;
    var none: set<nat> := {};
    assert none + {6} == {6} && none + {7} == {7};
  }

  /** So the reader returns the class with these variables. */
  method ReadSample(littleEndian: bool) returns (r: Result)
    ensures r.Returned? && r.classClass.Contents() == SAMPLE
    ensures r.classClass.staticVars == {6} && r.classClass.instanceVars == {7}
  {
    SampleIsRead();
    SampleVariables(littleEndian);
    hide ParseClass, FieldVars, FieldsDefined;
    var parser := new ClassParser(FILE, littleEndian);
    r := parser.Parse();
  }
}
