/** The queue fieldCPIs of the class reader: constant pool indices of field references, from which the
    fields of the class take theirs. */
module FieldRefs {
  import opened Bytecode
  import opened ClassFormat
  import opened NativeBytes

  predicate IsFieldref(x: Slot) { x.Some? && x.value.info.Fieldref? }

  /** The indices of the field references among these slots, in order. */
  function Pushed(s: seq<Slot>): (q: seq<nat>)
    ensures forall j :: 0 <= j < |q| ==> q[j] < |s| && IsFieldref(s[q[j]])
  {
    if s == [] then []
    else
      var n := |s| - 1;
      Pushed(s[..n]) + if IsFieldref(s[n]) then [n] else []
  }

  lemma PushedGrows(s: seq<Slot>, x: Slot)
    ensures Pushed(s + [x]) == Pushed(s) + if IsFieldref(x) then [|s|] else []
  {
    assert (s + [x])[..|s|] == s;
  }

  lemma PushedNone(s: seq<Slot>)
    requires s == []
    ensures Pushed(s) == [] && Pushed([None]) == []
  {
    PushedGrows(s, None);
    assert s + [None] == [None];
  }

  /** Slot n is filled, and the next one left empty behind a long or a double. */
  lemma PushedSlot(s: seq<Slot>, e: Entry)
    ensures var q := Pushed(s) + if e.info.Fieldref? then [|s|] else [];
      Pushed(s + [Some(e)]) == q && Pushed(s + [Some(e), None]) == q
  {
    PushedGrows(s, Some(e));
    PushedGrows(s + [Some(e)], None);
    assert s + [Some(e), None] == s + [Some(e)] + [None];
  }

  // ---------------------------------------------------------------- class names

  /** toData of the entry in slot n is not NULL. */
  predicate HasData(s: seq<Slot>, n: nat) {
    && n < |s| && s[n].Some?
    && match s[n].value.info
       case Utf8(_) => true
       case Integer(_) => true
       case Float(_) => true
       case LongValue(_) => true
       case Double(_) => true
       case String(k) => k < |s| && s[k].Some? && s[k].value.info.Utf8?
       case _ => false
  }

  /** What it points at: the bytes of a string, also by way of a String entry, or those of a number as
      the machine keeps it. */
  function ToData(s: seq<Slot>, n: nat, littleEndian: bool): seq<Byte>
    requires HasData(s, n)
  {
    match s[n].value.info
    case Utf8(bytes) => bytes
    case String(k) => s[k].value.info.bytes
    case Integer(v) => Bytes(v, 4, littleEndian)
    case Float(v) => Bytes(v, 4, littleEndian)
    case LongValue(v) => Bytes(v, 8, littleEndian)
    case Double(v) => Bytes(v, 8, littleEndian)
  }

  /** Field reference i names a class entry, and that an entry with data, which should be a string
      (sections 4.4.1 and 4.4.2). The reader follows both indices without checking them. */
  predicate Named(s: seq<Slot>, i: nat)
    requires i < |s| && IsFieldref(s[i])
  {
    && var c := s[i].value.info.fieldClass;
    && c < |s| && s[c].Some? && s[c].value.info.Class?
    && HasData(s, s[c].value.info.nameIndex)
  }

  function ClassName(s: seq<Slot>, i: nat, littleEndian: bool): seq<Byte>
    requires i < |s| && IsFieldref(s[i]) && Named(s, i)
  {
    ToData(s, s[s[i].value.info.fieldClass].value.info.nameIndex, littleEndian)
  }

  const JAVA: seq<Byte> := [106, 97, 118, 97]

  /** The name begins with "java". */
  predicate IsJava(name: seq<Byte>) { JAVA <= name }

  predicate AreRefs(s: seq<Slot>, q: seq<nat>) {
    forall j :: 0 <= j < |q| ==> q[j] < |s| && IsFieldref(s[q[j]])
  }

  predicate AllNamed(s: seq<Slot>, q: seq<nat>)
    requires AreRefs(s, q)
  {
    forall j :: 0 <= j < |q| ==> Named(s, q[j])
  }

  /** The references to fields of classes whose names do not begin with "java", in order. */
  function Kept(s: seq<Slot>, q: seq<nat>, le: bool): (r: seq<nat>)
    requires AreRefs(s, q) && AllNamed(s, q)
    ensures AreRefs(s, r) && AllNamed(s, r) && |r| <= |q|
    ensures forall i :: i in r <==> i in q && !IsJava(ClassName(s, i, le))
  {
    if q == [] then []
    else
      assert forall i :: i in q <==> i == q[0] || i in q[1..];
      (if IsJava(ClassName(s, q[0], le)) then [] else [q[0]]) + Kept(s, q[1..], le)
  }

  // ---------------------------------------------------------------- the two loops of parseFields

  /** n rounds of the loop that takes the front of the queue and puts it back at the end unless its
      class is one of Java's; None if an access goes wrong. */
  function Rotate(s: seq<Slot>, q: seq<nat>, n: nat, le: bool): (r: Option<seq<nat>>)
    requires AreRefs(s, q)
    ensures r.Some? ==> AreRefs(s, r.value)
    decreases n
  {
    if n == 0 then Some(q)
    else if q == [] || !Named(s, q[0]) then None
    else Rotate(s, q[1..] + if IsJava(ClassName(s, q[0], le)) then [] else [q[0]], n - 1, le)
  }

  lemma RotateStep(s: seq<Slot>, q: seq<nat>, n: nat, le: bool)
    requires AreRefs(s, q)
    ensures n == 0 ==> Rotate(s, q, n, le) == Some(q)
    ensures n > 0 && (q == [] || !Named(s, q[0])) ==> Rotate(s, q, n, le) == None
    ensures n > 0 && q != [] && Named(s, q[0]) ==>
      && var q' := q[1..] + if IsJava(ClassName(s, q[0], le)) then [] else [q[0]];
      && AreRefs(s, q') && Rotate(s, q, n, le) == Rotate(s, q', n - 1, le)
  {}

  /** How the reader gets at the name. */
  lemma NameIs(s: seq<Slot>, i: nat, le: bool)
    requires i < |s| && IsFieldref(s[i]) && Named(s, i)
    ensures s[i].Some? && s[i].value.info.Fieldref?
    ensures var c := s[i].value.info.fieldClass;
      && c < |s| && s[c].Some? && s[c].value.info.Class? && HasData(s, s[c].value.info.nameIndex)
      && ClassName(s, i, le) == ToData(s, s[c].value.info.nameIndex, le)
  {}

  /** One round that does not go wrong. */
  lemma RotateFront(s: seq<Slot>, q: seq<nat>, n: nat, le: bool)
    requires AreRefs(s, q) && n > 0 && Rotate(s, q, n, le).Some?
    ensures q != [] && q[0] < |s| && IsFieldref(s[q[0]]) && Named(s, q[0])
    ensures IsJava(ClassName(s, q[0], le)) ==> AreRefs(s, q[1..]) && Rotate(s, q[1..], n - 1, le) == Rotate(s, q, n, le)
    ensures !IsJava(ClassName(s, q[0], le)) ==>
      AreRefs(s, q[1..] + [q[0]]) && Rotate(s, q[1..] + [q[0]], n - 1, le) == Rotate(s, q, n, le)
  {
    hide IsJava, ClassName;
    assert q != [] ==> q[1..] + [] == q[1..];
  }

  lemma KeptFront(s: seq<Slot>, q: seq<nat>, le: bool)
    requires AreRefs(s, q)
    ensures q == [] ==> AllNamed(s, q) && Kept(s, q, le) == []
    ensures q != [] ==> (AllNamed(s, q) <==> Named(s, q[0]) && AllNamed(s, q[1..]))
    ensures q != [] && AllNamed(s, q) ==>
      Kept(s, q, le) == (if IsJava(ClassName(s, q[0], le)) then [] else [q[0]]) + Kept(s, q[1..], le)
  {
    hide Named, ClassName, IsJava, IsFieldref;
  }

  /** One round for every index at the front q, with r behind. */
  lemma {:induction false} RotateFilters(s: seq<Slot>, q: seq<nat>, r: seq<nat>, le: bool)
    requires AreRefs(s, q) && AreRefs(s, r)
    ensures AreRefs(s, q + r)
    ensures Rotate(s, q + r, |q|, le) == if AllNamed(s, q) then Some(r + Kept(s, q, le)) else None
    decreases |q|
  {
    hide Named, ClassName, IsJava, IsFieldref, Kept, Rotate;
    KeptFront(s, q, le);
    if q == [] {
      assert q + r == r && r + [] == r;
      RotateStep(s, r, 0, le);
    } else {
      assert (q + r)[0] == q[0] && (q + r)[1..] == q[1..] + r;
      RotateStep(s, q + r, |q|, le);
      if Named(s, q[0]) {
        var x := if IsJava(ClassName(s, q[0], le)) then [] else [q[0]];
        RotateFilters(s, q[1..], r + x, le);
        assert q[1..] + r + x == q[1..] + (r + x);
        if AllNamed(s, q) {
          assert r + x + Kept(s, q[1..], le) == r + (x + Kept(s, q[1..], le));
        }
      }
    }
  }

  /** The loop keeps exactly the references to fields of other classes than Java's, in order, and its
      accesses are defined if and only if every reference is named. */
  lemma RotateExactly(s: seq<Slot>, q: seq<nat>, le: bool)
    requires AreRefs(s, q)
    ensures Rotate(s, q, |q|, le) == if AllNamed(s, q) then Some(Kept(s, q, le)) else None
  {
    RotateFilters(s, q, [], le);
    assert q + [] == q;
    if AllNamed(s, q) {
      assert [] + Kept(s, q, le) == Kept(s, q, le);
    }
  }

  datatype Vars = Vars(statics: set<nat>, instances: set<nat>)

  /** ACC_STATIC */
  predicate IsStatic(m: Member) { m.accessFlags / 8 % 2 == 1 }

  /** What the first n fields take from the front of the queue; None if it is empty when they do. */
  function Assign(ms: seq<Member>, q: seq<nat>, n: nat): Option<Vars>
    requires n <= |ms|
    decreases n
  {
    if n == 0 then Some(Vars({}, {}))
    else
      match Assign(ms, q, n - 1)
      case None => None
      case Some(v) =>
        if n > |q| then None
        else if IsStatic(ms[n - 1]) then Some(v.(statics := v.statics + {q[n - 1]}))
        else Some(v.(instances := v.instances + {q[n - 1]}))
  }

  /** The accesses to the front of the queue are defined if and only if there are at least as many
      references as fields; then field j has reference j, as a static or an instance variable. */
  lemma {:induction false} AssignExactly(ms: seq<Member>, q: seq<nat>, n: nat)
    requires n <= |ms|
    ensures Assign(ms, q, n).Some? <==> n <= |q|
    ensures n <= |q| ==>
      && (forall i :: i in Assign(ms, q, n).value.statics <==> exists j :: 0 <= j < n && IsStatic(ms[j]) && q[j] == i)
      && (forall i :: i in Assign(ms, q, n).value.instances <==> exists j :: 0 <= j < n && !IsStatic(ms[j]) && q[j] == i)
    decreases n
  {
    hide IsStatic;
    if n > 0 {
      AssignExactly(ms, q, n - 1);
    }
  }

  /** The unchecked accesses of parseFields are defined for this class: every field reference names a
      class by name, and the class has no more fields than references to fields of classes whose
      names do not begin with "java". */
  predicate FieldsDefined(c: ClassFile, le: bool) {
    AllNamed(c.pool, Pushed(c.pool)) && |c.fields| <= |Kept(c.pool, Pushed(c.pool), le)|
  }

  /** What parseFields makes of the queue and the fields; None if an access goes wrong. */
  function FieldVars(c: ClassFile, le: bool): Option<Vars> {
    match Rotate(c.pool, Pushed(c.pool), |Pushed(c.pool)|, le)
    case None => None
    case Some(q) => Assign(c.fields, q, |c.fields|)
  }

  lemma FieldsDefinedExactly(c: ClassFile, le: bool)
    ensures FieldVars(c, le).Some? <==> FieldsDefined(c, le)
  {
    var q := Pushed(c.pool);
    RotateExactly(c.pool, q, le);
    if AllNamed(c.pool, q) {
      AssignExactly(c.fields, Kept(c.pool, q, le), |c.fields|);
    }
  }

  /** In particular they are not for a class with more fields than field references of any kind, as the
      class of a field that no code uses may be. */
  lemma UnusedFieldsAreUndefined(c: ClassFile, le: bool)
    requires |c.fields| > |Pushed(c.pool)|
    ensures FieldVars(c, le) == None
  {
    FieldsDefinedExactly(c, le);
  }

  // ---------------------------------------------------------------- two files

  /** A class file with an empty constant pool, one field and nothing else. */
  const LONE_FIELD: seq<Byte> :=
    [0xCA, 0xFE, 0xBA, 0xBE, 0, 0, 0, 0, 0, 1, 0, 0, 0, 0, 0, 0, 0, 0, 0, 1, 0, 0, 0, 0, 0, 0, 0, 0, 0, 0]

  /** A class file with one field reference, to a class at index 0, and nothing else. */
  const LONE_REFERENCE: seq<Byte> :=
    [0xCA, 0xFE, 0xBA, 0xBE, 0, 0, 0, 0, 0, 2, 9, 0, 0, 0, 0, 0, 0, 0, 0, 0, 0, 0, 0, 0, 0, 0, 0]

  /** The two bytes at p are the number v. */
  predicate Holds2(d: seq<Byte>, p: nat, v: Short) { Has(d, p, 2) && U2(d, p) == v }

  lemma EmptyTable(d: seq<Byte>, p: nat)
    requires Holds2(d, p, 0)
    ensures ParseTable(d, p) == Ok([], p + 2) && ParseInterfaces(d, p) == Ok([], p + 2)
  {
    hide U2;
    assert ParseMembers(d, p + 2, 0) == Ok([], p + 2);
    assert ParseShorts(d, p + 2, 0).value == [];
  }

  lemma OneZeroMember(d: seq<Byte>, p: nat)
    requires Holds2(d, p, 1) && forall i :: 1 <= i <= 4 ==> Holds2(d, p + 2 * i, 0)
    ensures ParseTable(d, p) == Ok([Member(0, 0, 0, [])], p + 10)
  {
    assert Holds2(d, p + 2 * 1, 0) && Holds2(d, p + 2 * 2, 0) && Holds2(d, p + 2 * 3, 0) && Holds2(d, p + 2 * 4, 0);
    hide U2;
    var m := Member(0, 0, 0, []);
    assert ParseAttributes(d, p + 10, 0) == Ok([], p + 10);
    assert ParseMember(d, p + 2) == Ok(m, p + 10);
    hide ParseMember;
    var none: seq<Member> := [];
    assert ParseMembers(d, p + 2, 0) == Ok(none, p + 2);
    assert ParseMembers(d, p + 2, 1) == Ok(none + [m], p + 10);
    assert none + [m] == [m];
  }

  /** Three zero numbers and no interfaces in front of the fields. */
  lemma ZeroTail(d: seq<Byte>, p: nat, fields: seq<Member>, q: nat)
    requires forall i :: 0 <= i <= 3 ==> Holds2(d, p + 2 * i, 0)
    requires ParseTable(d, p + 8) == Ok(fields, q) && Holds2(d, q, 0)
    ensures ParseTail(d, p) == Ok(Tail(0, 0, 0, [], fields, []), q + 2)
  {
    assert Holds2(d, p + 2 * 0, 0) && Holds2(d, p + 2 * 1, 0) && Holds2(d, p + 2 * 2, 0) && Holds2(d, p + 2 * 3, 0);
    EmptyTable(d, p + 6);
    EmptyTable(d, q);
    hide U2, ParseTable, ParseInterfaces;
  }

  lemma ZeroClass(d: seq<Byte>, pool: seq<Slot>, p: nat, fields: seq<Member>, q: nat)
    requires Has(d, 0, 8) && d[..8] == [0xCA, 0xFE, 0xBA, 0xBE, 0, 0, 0, 0]
    requires ParsePool(d, 8) == Ok(pool, p) && ParseTail(d, p) == Ok(Tail(0, 0, 0, [], fields, []), q)
    ensures ParseClass(d) == Ok(ClassFile(0, 0, pool, 0, 0, 0, [], fields, []), q)
  {
    hide ParsePool, ParseTail;
    assert forall i :: 0 <= i < 8 ==> d[i] == d[..8][i];
    assert U4(d, 0) == MAGIC;
  }

  lemma LoneFieldBytes()
    ensures var d := LONE_FIELD;
      && |d| == 30 && d[..8] == [0xCA, 0xFE, 0xBA, 0xBE, 0, 0, 0, 0] && Holds2(d, 8, 1) && Holds2(d, 18, 1)
      && (forall i :: 0 <= i <= 3 ==> Holds2(d, 10 + 2 * i, 0)) && (forall i :: 1 <= i <= 4 ==> Holds2(d, 18 + 2 * i, 0))
      && Holds2(d, 28, 0)
  {}

  /** The file is read to its end, but the field takes a reference from an empty queue. */
  lemma LoneFieldIsUndefined(le: bool)
    ensures var c := ClassFile(0, 0, [None], 0, 0, 0, [], [Member(0, 0, 0, [])], []);
      ParseClass(LONE_FIELD) == Ok(c, |LONE_FIELD|) && FieldVars(c, le) == None
  {
    var d, fields := LONE_FIELD, [Member(0, 0, 0, [])];
    LoneFieldBytes();
    assert ParsePool(d, 8) == Ok([None], 10) by { hide U2; assert ParseSlots(d, 10, [None], 1) == Ok([None], 10); }
    hide ParsePool, Holds2, U2;
    OneZeroMember(d, 18);
    ZeroTail(d, 10, fields, 28);
    ZeroClass(d, [None], 10, fields, 30);
    UnusedFieldsAreUndefined(ClassFile(0, 0, [None], 0, 0, 0, [], fields, []), le);
  }

  /** The file is read to its end, but the reference names no class. */
  lemma LoneReferenceIsUndefined(le: bool)
    ensures var c := ClassFile(0, 0, [None, Some(Entry(1, 9, Fieldref(0, 0)))], 0, 0, 0, [], [], []);
      ParseClass(LONE_REFERENCE) == Ok(c, |LONE_REFERENCE|) && FieldVars(c, le) == None
  {
    var d, pool := LONE_REFERENCE, [None, Some(Entry(1, 9, Fieldref(0, 0)))];
    LoneReferenceBytes();
    ReferencePool();
    hide ParsePool, Holds2, U2;
    EmptyTable(d, 23);
    ZeroTail(d, 15, [], 25);
    ZeroClass(d, pool, 15, [], 27);
    NotNamed(pool);
    hide FieldVars;
    FieldsDefinedExactly(ClassFile(0, 0, pool, 0, 0, 0, [], [], []), le);
  }

  lemma NotNamed(s: seq<Slot>)
    requires s == [None, Some(Entry(1, 9, Fieldref(0, 0)))]
    ensures !AllNamed(s, Pushed(s))
  {
    PushedGrows([None], s[1]);
    assert [None] + [s[1]] == s;
    assert Pushed(s)[|Pushed(s)| - 1] == 1 && !Named(s, 1);
  }

  lemma LoneReferenceBytes()
    ensures var d := LONE_REFERENCE;
      && |d| == 27 && d[..8] == [0xCA, 0xFE, 0xBA, 0xBE, 0, 0, 0, 0] && Holds2(d, 23, 0) && Holds2(d, 25, 0)
      && forall i :: 0 <= i <= 3 ==> Holds2(d, 15 + 2 * i, 0)
  {}

  lemma ReferencePool()
    ensures ParsePool(LONE_REFERENCE, 8) == Ok([None, Some(Entry(1, 9, Fieldref(0, 0)))], 15)
  {
    var d := LONE_REFERENCE;
    assert ParseInfo(d, 10, 1) == Ok(Fieldref(0, 0), 15);
    hide ParseInfo;
    var e := Some(Entry(1, 9, Fieldref(0, 0)));
    assert ParseSlots(d, 15, [None, e], 2) == Ok([None, e], 15);
    assert [None] + [e] == [None, e];
  }
}
