/** The reader of class files in bytes and numbers: which bytes are which entry, what is no class file,
    which tag makes it leave the process, which names are Java's and which fields are static; and one
    whole file with what is read of it. */
module ClassFileLaws {
  import opened Bytecode
  import opened ClassFormat
  import opened ClassRoundTrip
  import opened FieldRefs
  import opened NativeBytes

  /** Numbers of two, four and eight bytes, the high byte first. */
  function Two(d: seq<Byte>, p: nat): nat
    requires p + 2 <= |d|
  {
    0x100 * (d[p] as int) + d[p + 1] as int
  }

  function Four(d: seq<Byte>, p: nat): nat
    requires p + 4 <= |d|
  {
    0x100_0000 * (d[p] as int) + 0x1_0000 * (d[p + 1] as int) + 0x100 * (d[p + 2] as int) + d[p + 3] as int
  }

  lemma NumbersAre(d: seq<Byte>, p: nat)
    ensures p + 2 <= |d| ==> U2(d, p) == Two(d, p)
    ensures p + 4 <= |d| ==> U4(d, p) == Four(d, p)
    ensures p + 8 <= |d| ==> U8(d, p) == 0x1_0000_0000 * Four(d, p) + Four(d, p + 4)
  {}

  // ---------------------------------------------------------------- section 4.4

  /** There are n bytes from p on, the first of which is this tag. */
  predicate Tagged(d: seq<Byte>, p: nat, tag: int, n: nat) { p + n <= |d| && n > 0 && d[p] == tag }

  /** The entries with indices. */
  lemma IndexEntries(d: seq<Byte>, p: nat, i: int)
    ensures Tagged(d, p, 7, 3) ==> ParseInfo(d, p, i) == Ok(Class(Two(d, p + 1)), p + 3)
    ensures Tagged(d, p, 8, 3) ==> ParseInfo(d, p, i) == Ok(String(Two(d, p + 1)), p + 3)
    ensures Tagged(d, p, 16, 3) ==> ParseInfo(d, p, i) == Ok(MethodType(Two(d, p + 1)), p + 3)
    ensures Tagged(d, p, 15, 4) ==> ParseInfo(d, p, i) == Ok(MethodHandle(d[p + 1], Two(d, p + 2)), p + 4)
    ensures Tagged(d, p, 9, 5) ==> ParseInfo(d, p, i) == Ok(Fieldref(Two(d, p + 1), Two(d, p + 3)), p + 5)
    ensures Tagged(d, p, 10, 5) ==> ParseInfo(d, p, i) == Ok(Methodref(Two(d, p + 1), Two(d, p + 3)), p + 5)
    ensures Tagged(d, p, 11, 5) ==> ParseInfo(d, p, i) == Ok(InterfaceMethodref(Two(d, p + 1), Two(d, p + 3)), p + 5)
    ensures Tagged(d, p, 12, 5) ==> ParseInfo(d, p, i) == Ok(NameAndType(Two(d, p + 1), Two(d, p + 3)), p + 5)
    ensures Tagged(d, p, 18, 5) ==> ParseInfo(d, p, i) == Ok(InvokeDynamic(Two(d, p + 1), Two(d, p + 3)), p + 5)
  {
    NumbersAre(d, p + 1);
    NumbersAre(d, p + 2);
    NumbersAre(d, p + 3);
    hide U2, U4, U8, Two, Four;
  }

  /** The entries with values. */
  lemma ValueEntries(d: seq<Byte>, p: nat, i: int)
    ensures Tagged(d, p, 3, 5) ==> ParseInfo(d, p, i) == Ok(Integer(Four(d, p + 1)), p + 5)
    ensures Tagged(d, p, 4, 5) ==> ParseInfo(d, p, i) == Ok(Float(Four(d, p + 1)), p + 5)
    ensures Tagged(d, p, 5, 9) ==>
      ParseInfo(d, p, i) == Ok(LongValue(0x1_0000_0000 * Four(d, p + 1) + Four(d, p + 5)), p + 9)
    ensures Tagged(d, p, 6, 9) ==>
      ParseInfo(d, p, i) == Ok(Double(0x1_0000_0000 * Four(d, p + 1) + Four(d, p + 5)), p + 9)
    ensures Tagged(d, p, 1, 3) && p + 3 + Two(d, p + 1) <= |d| ==>
      ParseInfo(d, p, i) == Ok(Utf8(d[p + 3..p + 3 + Two(d, p + 1)]), p + 3 + Two(d, p + 1))
  {
    NumbersAre(d, p + 1);
    NumbersAre(d, p + 5);
    hide U2, U4, U8;
  }

  /** The tags of section 4.4. */
  const TAGS: set<int> := {1, 3, 4, 5, 6, 7, 8, 9, 10, 11, 12, 15, 16, 18}

  lemma UnknownInfo(d: seq<Byte>, p: nat, i: int, j: int, t: Byte)
    ensures ParseInfo(d, p, i) == UnknownTag(j, t) <==> j == i && p < |d| && d[p] == t && t as int !in TAGS
    ensures ParseInfo(d, p, i) != NoClassFile && (ParseInfo(d, p, i).Ok? ==> p < |d|)
  {}

  // ---------------------------------------------------------------- what is no class file

  predicate HasMagic(d: seq<Byte>) {
    4 <= |d| && d[0] == 0xCA && d[1] == 0xFE && d[2] == 0xBA && d[3] == 0xBE
  }

  lemma {:induction false} SlotsKnown(d: seq<Byte>, p: nat, acc: seq<Slot>, count: nat)
    ensures ParseSlots(d, p, acc, count) != NoClassFile
    decreases count - |acc|
  {
    hide ParseInfo;
    if |acc| < count {
      UnknownInfo(d, p, |acc|, 0, 0);
      match ParseInfo(d, p, |acc|)
      case Ok(info, q) =>
        var e := Some(Entry(|acc|, d[p], info));
        SlotsKnown(d, q, acc + [e], count);
        if |acc| + 1 < count {
          SlotsKnown(d, q, acc + [e, None], count);
        }
      case _ =>
    }
  }

  lemma MagicIs(d: seq<Byte>)
    requires |d| >= 4
    ensures U4(d, 0) == MAGIC <==> HasMagic(d)
  {}

  /** NULL is returned if and only if there are four bytes and they are not CA FE BA BE. */
  lemma NoClassFileExactly(d: seq<Byte>)
    ensures ParseClass(d) == NoClassFile <==> |d| >= 4 && !HasMagic(d)
  {
    if |d| >= 4 {
      MagicIs(d);
    }
    if |d| >= 10 {
      SlotsKnown(d, 10, [None], U2(d, 8));
    }
    hide ParseSlots, ParseTail, U4, U2, HasMagic;
  }

  /** The slots s are read from p on, and a tag of no kind is behind them. */
  ghost predicate StopsAt(d: seq<Byte>, p: nat, s: seq<Slot>, from: nat, t: Byte) {
    && SlotsOk(s, from) && At(d, p, EncodeSlots(s, from))
    && var q := p + |EncodeSlots(s, from)|; q < |d| && d[q] == t && t as int !in TAGS
  }

  lemma {:induction false} StopWasReached(d: seq<Byte>, p: nat, acc: seq<Slot>, count: nat, i: int, t: Byte)
    returns (s: seq<Slot>)
    requires |acc| <= count && ParseSlots(d, p, acc, count) == UnknownTag(i, t)
    ensures |acc| <= |s| == i < count && s[..|acc|] == acc && StopsAt(d, p, s, |acc|, t)
    decreases count - |acc|
  {
    hide At, ParseInfo, EncodeInfo, TagOf;
    var k := |acc|;
    UnknownInfo(d, p, k, i, t);
    var r := ParseInfo(d, p, k);
    if r.Ok? {
      InfoIsItsEncoding(d, p, k, r.value, r.next);
      TagFirst(d, p, r.value);
      var e := Some(Entry(k, d[p], r.value));
      var next := if IsWide(r.value) then acc + [e, None] else acc + [e];
      s := StopWasReached(d, r.next, next, count, i, t);
      assert s[k] == s[..|next|][k] == e && s[..k] == s[..|next|][..k] == acc;
      assert IsWide(r.value) ==> s[k + 1] == s[..|next|][k + 1] == None;
      AtSplit(d, p, EncodeInfo(r.value), EncodeSlots(s, |next|));
    } else {
      s := acc;
      NothingAt(d, p);
    }
  }

  lemma {:induction false} StopIsReached(d: seq<Byte>, p: nat, acc: seq<Slot>, count: nat, s: seq<Slot>, t: Byte)
    requires |acc| <= |s| < count && s[..|acc|] == acc && StopsAt(d, p, s, |acc|, t)
    ensures ParseSlots(d, p, acc, count) == UnknownTag(|s|, t)
    decreases |s| - |acc|
  {
    hide At, ParseInfo, EncodeInfo, TagOf;
    var k := |acc|;
    if k < |s| {
      var info := s[k].value.info;
      var next := if IsWide(info) then acc + [s[k], None] else acc + [s[k]];
      AtSplit(d, p, EncodeInfo(info), EncodeSlots(s, |next|));
      InfoIsItsEncoding(d, p, k, info, p + |EncodeInfo(info)|);
      TagFirst(d, p, info);
      assert s[..|next|] == next;
      StopIsReached(d, p + |EncodeInfo(info)|, next, count, s, t);
    } else {
      assert s == acc;
      UnknownInfo(d, p, k, k, t);
    }
  }

  /** The process is left if and only if the file begins as a class file, and a tag that is none of the
      fourteen comes up behind the encodings of fewer entries than the count says. */
  lemma UnknownTagExactly(d: seq<Byte>, i: int, t: Byte)
    ensures ParseClass(d) == UnknownTag(i, t) <==>
      && HasMagic(d) && |d| >= 10
      && exists s :: |s| == i && 0 < i < Two(d, 8) && s[0] == None && StopsAt(d, 10, s, 1, t)
  {
    if |d| >= 4 {
      MagicIs(d);
    }
    NumbersAre(d, 8);
    hide U2, U4, ParseTail, ParseSlots, StopsAt, HasMagic, Two;
    if |d| >= 10 && HasMagic(d) && U2(d, 8) > 0 {
      if ParseSlots(d, 10, [None], U2(d, 8)) == UnknownTag(i, t) {
        var s := StopWasReached(d, 10, [None], U2(d, 8), i, t);
        assert s[0] == s[..1][0];
      }
      if s :| |s| == i && 0 < i < Two(d, 8) && s[0] == None && StopsAt(d, 10, s, 1, t) {
        assert s[..1] == [None];
        StopIsReached(d, 10, [None], U2(d, 8), s, t);
      }
    }
  }

  // ---------------------------------------------------------------- fields

  /** The filter drops a reference if and only if its class has a name that begins with these letters. */
  lemma KeptExactly(s: seq<Slot>, q: seq<nat>, le: bool, i: nat)
    requires AreRefs(s, q) && AllNamed(s, q)
    ensures i in Kept(s, q, le) <==>
      && i in q
      && var name := ClassName(s, i, le);
      !(|name| >= 4 && name[0] == 'j' as int && name[1] == 'a' as int && name[2] == 'v' as int && name[3] == 'a' as int)
  {
    if i in q {
      var name := ClassName(s, i, le);
      assert |name| >= 4 ==> name[..4] == [name[0], name[1], name[2], name[3]];
    }
  }

  /** A field is static if and only if its flags have the bit 0x0008 (table 4.5-A). */
  lemma StaticExactly(m: Member)
    ensures IsStatic(m) <==> (m.accessFlags as bv16) & 0x0008 != 0
  {}

  /** What the name index of a class may lead to. */
  lemma HasDataExactly(s: seq<Slot>, n: nat)
    requires n < |s| && s[n].Some?
    ensures var x := s[n].value.info;
      HasData(s, n) <==>
        || x.Utf8? || x.Integer? || x.Float? || x.LongValue? || x.Double?
        || (x.String? && x.stringIndex < |s| && s[x.stringIndex].Some? && s[x.stringIndex].value.info.Utf8?)
  {}

  /** What is found there: the bytes of a string, also by way of a String entry. */
  lemma StringData(s: seq<Slot>, n: nat, le: bool)
    requires HasData(s, n)
    ensures var x := s[n].value.info;
      && (x.Utf8? ==> ToData(s, n, le) == x.bytes)
      && (x.String? ==> ToData(s, n, le) == s[x.stringIndex].value.info.bytes)
  {
    hide Bytes;
  }

  /** Or those of a number, in the order of the machine. */
  lemma NumberData(s: seq<Slot>, n: nat, le: bool)
    requires HasData(s, n)
    ensures var x := s[n].value.info;
      && (x.Integer? ==> |ToData(s, n, le)| == 4 && Native(ToData(s, n, le), le) == x.integer)
      && (x.Float? ==> |ToData(s, n, le)| == 4 && Native(ToData(s, n, le), le) == x.float)
      && (x.LongValue? ==> |ToData(s, n, le)| == 8 && Native(ToData(s, n, le), le) == x.long)
      && (x.Double? ==> |ToData(s, n, le)| == 8 && Native(ToData(s, n, le), le) == x.double)
  {
    FourAndEight();
    hide Native, Bytes, Power256;
    match s[n].value.info
    case Integer(v) => NativeOfBytes(v, 4, le);
    case Float(v) => NativeOfBytes(v, 4, le);
    case LongValue(v) => NativeOfBytes(v, 8, le);
    case Double(v) => NativeOfBytes(v, 8, le);
    case _ =>
  }

  lemma FourAndEight()
    ensures Power256(4) == 0x1_0000_0000 && Power256(8) == 0x1_0000_0000_0000_0000
  {
    assert Power256(2) == 0x1_0000;
    assert Power256(6) == 0x1_0000_0000_0000;
  }
}
