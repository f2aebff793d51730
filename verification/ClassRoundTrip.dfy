/** The reader inverts the encoding of the specification: it yields a structure exactly if the bytes
    at the cursor are the encoding of that structure, and then moves the cursor to the end of them. */
module ClassRoundTrip {
  import opened Bytecode
  import opened ClassFormat

  /** The bytes b lie at p. */
  predicate At(data: seq<Byte>, p: nat, b: seq<Byte>) {
    p + |b| <= |data| && data[p..p + |b|] == b
  }

  lemma AtSplit(data: seq<Byte>, p: nat, a: seq<Byte>, b: seq<Byte>)
    ensures At(data, p, a + b) <==> At(data, p, a) && At(data, p + |a|, b)
  {
    if At(data, p, a + b) {
      assert data[p..p + |a|] == data[p..p + |a + b|][..|a|] == a;
      assert data[p + |a|..p + |a| + |b|] == data[p..p + |a + b|][|a|..] == b;
    }
    if At(data, p, a) && At(data, p + |a|, b) {
      assert data[p..p + |a + b|] == data[p..p + |a|] + data[p + |a|..p + |a| + |b|];
    }
  }

  lemma AtByte(data: seq<Byte>, p: nat, x: Byte)
    ensures At(data, p, [x]) <==> Has(data, p, 1) && data[p] == x
  {
    if Has(data, p, 1) {
      assert data[p..p + 1] == [data[p]];
    }
  }

  // ---------------------------------------------------------------- numbers

  lemma AtU2(data: seq<Byte>, p: nat, x: Short)
    ensures At(data, p, E2(x)) <==> Has(data, p, 2) && U2(data, p) == x
  {
    if Has(data, p, 2) {
      assert data[p..p + 2] == [data[p], data[p + 1]];
    }
  }

  lemma AtU4(data: seq<Byte>, p: nat, x: Word)
    ensures At(data, p, E4(x)) <==> Has(data, p, 4) && U4(data, p) == x
  {
    AtSplit(data, p, E2(x / 0x1_0000), E2(x % 0x1_0000));
    AtU2(data, p, x / 0x1_0000);
    AtU2(data, p + 2, x % 0x1_0000);
    if Has(data, p, 4) {
      U2Range(data, p);
      U2Range(data, p + 2);
    }
    hide At, E2, U2;
  }

  lemma AtU8(data: seq<Byte>, p: nat, x: Long)
    ensures At(data, p, E8(x)) <==> Has(data, p, 8) && U8(data, p) == x
  {
    AtSplit(data, p, E4(x / 0x1_0000_0000), E4(x % 0x1_0000_0000));
    AtU4(data, p, x / 0x1_0000_0000);
    AtU4(data, p + 4, x % 0x1_0000_0000);
    if Has(data, p, 8) {
      U4Range(data, p);
      U4Range(data, p + 4);
    }
    hide At, E4, U4;
  }

  lemma U2Range(data: seq<Byte>, p: nat)
    requires Has(data, p, 2)
    ensures 0 <= U2(data, p) < 0x1_0000
  {}

  lemma U4Range(data: seq<Byte>, p: nat)
    requires Has(data, p, 4)
    ensures 0 <= U4(data, p) < 0x1_0000_0000
  {}

  // ---------------------------------------------------------------- the constant pool

  lemma InfoWithShort(data: seq<Byte>, p: nat, t: Byte, a: Short)
    ensures At(data, p, [t] + E2(a)) <==> Has(data, p, 3) && data[p] == t && U2(data, p + 1) == a
  {
    AtSplit(data, p, [t], E2(a));
    AtByte(data, p, t);
    AtU2(data, p + 1, a);
  }

  lemma InfoWithShorts(data: seq<Byte>, p: nat, t: Byte, a: Short, b: Short)
    ensures At(data, p, [t] + (E2(a) + E2(b))) <==>
            Has(data, p, 5) && data[p] == t && U2(data, p + 1) == a && U2(data, p + 3) == b
  {
    AtSplit(data, p, [t], E2(a) + E2(b));
    AtSplit(data, p + 1, E2(a), E2(b));
    AtByte(data, p, t);
    AtU2(data, p + 1, a);
    AtU2(data, p + 3, b);
    hide At, U2;
  }

  lemma InfoWithWord(data: seq<Byte>, p: nat, t: Byte, v: Word)
    ensures At(data, p, [t] + E4(v)) <==> Has(data, p, 5) && data[p] == t && U4(data, p + 1) == v
  {
    AtSplit(data, p, [t], E4(v));
    AtByte(data, p, t);
    AtU4(data, p + 1, v);
    hide At, U4;
  }

  lemma InfoWithLong(data: seq<Byte>, p: nat, t: Byte, v: Long)
    ensures At(data, p, [t] + E8(v)) <==> Has(data, p, 9) && data[p] == t && U8(data, p + 1) == v
  {
    AtSplit(data, p, [t], E8(v));
    AtByte(data, p, t);
    AtU8(data, p + 1, v);
    hide At, U8;
  }

  lemma InfoWithBytes(data: seq<Byte>, p: nat, t: Byte, b: seq<Byte>)
    requires |b| < 0x1_0000
    ensures At(data, p, [t] + (E2(|b|) + b)) <==>
      && Has(data, p, 3) && data[p] == t && U2(data, p + 1) == |b|
      && Has(data, p + 3, |b|) && data[p + 3..p + 3 + |b|] == b
  {
    AtSplit(data, p, [t], E2(|b|) + b);
    AtSplit(data, p + 1, E2(|b|), b);
    AtByte(data, p, t);
    AtU2(data, p + 1, |b|);
  }

  lemma InfoWithKind(data: seq<Byte>, p: nat, t: Byte, k: Byte, r: Short)
    ensures At(data, p, [t] + ([k] + E2(r))) <==>
            Has(data, p, 4) && data[p] == t && data[p + 1] == k && U2(data, p + 2) == r
  {
    AtSplit(data, p, [t], [k] + E2(r));
    AtSplit(data, p + 1, [k], E2(r));
    AtByte(data, p, t);
    AtByte(data, p + 1, k);
    AtU2(data, p + 2, r);
    hide At, U2;
  }

  lemma IndexIsItsEncoding(data: seq<Byte>, p: nat, i: int, x: CpInfo, q: nat)
    requires x.Class? || x.String? || x.MethodType?
    ensures ParseInfo(data, p, i) == Ok(x, q) <==> At(data, p, EncodeInfo(x)) && q == p + |EncodeInfo(x)|
  {
    hide At, U2, U4, U8;
    match x
    case Class(a) => InfoWithShort(data, p, TagOf(x), a);
    case String(a) => InfoWithShort(data, p, TagOf(x), a);
    case MethodType(a) => InfoWithShort(data, p, TagOf(x), a);
  }

  lemma IndicesAreTheirEncoding(data: seq<Byte>, p: nat, i: int, x: CpInfo, q: nat)
    requires x.Fieldref? || x.Methodref? || x.InterfaceMethodref? || x.NameAndType? || x.InvokeDynamic?
    ensures ParseInfo(data, p, i) == Ok(x, q) <==> At(data, p, EncodeInfo(x)) && q == p + |EncodeInfo(x)|
  {
    hide At, U2, U4, U8;
    var t := TagOf(x);
    match x
    case Fieldref(a, b) => InfoWithShorts(data, p, t, a, b);
    case Methodref(a, b) => InfoWithShorts(data, p, t, a, b);
    case InterfaceMethodref(a, b) => InfoWithShorts(data, p, t, a, b);
    case NameAndType(a, b) => InfoWithShorts(data, p, t, a, b);
    case InvokeDynamic(a, b) => InfoWithShorts(data, p, t, a, b);
  }

  lemma NumberIsItsEncoding(data: seq<Byte>, p: nat, i: int, x: CpInfo, q: nat)
    requires x.Integer? || x.Float? || x.LongValue? || x.Double?
    ensures ParseInfo(data, p, i) == Ok(x, q) <==> At(data, p, EncodeInfo(x)) && q == p + |EncodeInfo(x)|
  {
    hide At, U2, U4, U8;
    var t := TagOf(x);
    match x
    case Integer(v) => InfoWithWord(data, p, t, v);
    case Float(v) => InfoWithWord(data, p, t, v);
    case LongValue(v) => InfoWithLong(data, p, t, v);
    case Double(v) => InfoWithLong(data, p, t, v);
  }

  /** The fourteen layouts of section 4.4. */
  lemma InfoIsItsEncoding(data: seq<Byte>, p: nat, i: int, x: CpInfo, q: nat)
    ensures ParseInfo(data, p, i) == Ok(x, q) <==>
            InfoOk(x) && At(data, p, EncodeInfo(x)) && q == p + |EncodeInfo(x)|
  {
    hide At, U2, U4, U8;
    if x.Class? || x.String? || x.MethodType? {
      IndexIsItsEncoding(data, p, i, x, q);
    } else if x.Fieldref? || x.Methodref? || x.InterfaceMethodref? || x.NameAndType? || x.InvokeDynamic? {
      IndicesAreTheirEncoding(data, p, i, x, q);
    } else if x.Integer? || x.Float? || x.LongValue? || x.Double? {
      NumberIsItsEncoding(data, p, i, x, q);
    } else if x.MethodHandle? {
      InfoWithKind(data, p, TagOf(x), x.referenceKind, x.referenceIndex);
    } else {
      if Has(data, p, 3) { U2Range(data, p + 1); }
      if InfoOk(x) { InfoWithBytes(data, p, TagOf(x), x.bytes); }
    }
  }

  lemma NothingAt(data: seq<Byte>, p: nat)
    ensures At(data, p, []) <==> p <= |data|
  {}

  lemma TagFirst(data: seq<Byte>, p: nat, x: CpInfo)
    requires InfoOk(x) && At(data, p, EncodeInfo(x))
    ensures p < |data| && data[p] == TagOf(x)
  {
    AtSplit(data, p, [TagOf(x)], EncodeBody(x));
    AtByte(data, p, TagOf(x));
  }

  /** What the loop has stored when it is through is what it has read. */
  lemma {:induction false} SlotsWereEncoded(data: seq<Byte>, p: nat, acc: seq<Slot>, count: nat, s: seq<Slot>, q: nat)
    requires |acc| <= count && p <= |data| && ParseSlots(data, p, acc, count) == Ok(s, q)
    ensures |s| == count && s[..|acc|] == acc && SlotsOk(s, |acc|)
    ensures At(data, p, EncodeSlots(s, |acc|)) && q == p + |EncodeSlots(s, |acc|)|
    decreases count - |acc|
  {
    hide At, ParseInfo, EncodeInfo, TagOf;
    var i := |acc|;
    NothingAt(data, p);
    if i < count {
      var r := ParseInfo(data, p, i);
      assert r.Ok?;
      InfoIsItsEncoding(data, p, i, r.value, r.next);
      TagFirst(data, p, r.value);
      var e := Some(Entry(i, data[p], r.value));
      var next := if IsWide(r.value) then acc + [e, None] else acc + [e];
      AtEnd(data, p, EncodeInfo(r.value));
      SlotsWereEncoded(data, r.next, next, count, s, q);
      assert s[i] == s[..|next|][i] == e && s[..i] == s[..|next|][..i] == acc;
      assert IsWide(r.value) ==> s[i + 1] == s[..|next|][i + 1] == None;
      AtSplit(data, p, EncodeInfo(r.value), EncodeSlots(s, |next|));
    }
  }

  lemma AtEnd(data: seq<Byte>, p: nat, b: seq<Byte>)
    requires At(data, p, b)
    ensures p + |b| <= |data|
  {}

  /** The loop reads back what was encoded. */
  lemma {:induction false} EncodedSlotsParse(data: seq<Byte>, p: nat, acc: seq<Slot>, count: nat, s: seq<Slot>)
    requires |acc| <= count == |s| && s[..|acc|] == acc && SlotsOk(s, |acc|) && At(data, p, EncodeSlots(s, |acc|))
    ensures ParseSlots(data, p, acc, count) == Ok(s, p + |EncodeSlots(s, |acc|)|)
    decreases count - |acc|
  {
    hide At, ParseInfo, EncodeInfo, TagOf;
    var i := |acc|;
    if i < count {
      var info := s[i].value.info;
      var next := if IsWide(info) then acc + [s[i], None] else acc + [s[i]];
      AtSplit(data, p, EncodeInfo(info), EncodeSlots(s, |next|));
      InfoIsItsEncoding(data, p, i, info, p + |EncodeInfo(info)|);
      TagFirst(data, p, info);
      assert s[..|next|] == next;
      EncodedSlotsParse(data, p + |EncodeInfo(info)|, next, count, s);
    } else {
      assert s == acc;
    }
  }

  /** The constant pool. */
  lemma PoolIsItsEncoding(data: seq<Byte>, p: nat, s: seq<Slot>, q: nat)
    ensures ParsePool(data, p) == Ok(s, q) <==> PoolOk(s) && At(data, p, EncodePool(s)) && q == p + |EncodePool(s)|
  {
    hide At, ParseSlots, EncodeSlots, SlotsOk, U2, E2;
    PoolCount(data, p);
    if ParsePool(data, p) == Ok(s, q) {
      AtU2(data, p, U2(data, p));
      if U2(data, p) == 0 {
        assert E2(0) + [] == E2(0);
      } else {
        SlotsWereEncoded(data, p + 2, [None], U2(data, p), s, q);
        assert s[0] == s[..1][0];
        AtSplit(data, p, E2(|s|), EncodeSlots(s, 1));
      }
    }
    if PoolOk(s) && At(data, p, EncodePool(s)) && q == p + |EncodePool(s)| {
      AtSplit(data, p, E2(|s|), if s == [] then [] else EncodeSlots(s, 1));
      AtU2(data, p, |s|);
      if s != [] {
        assert s[..1] == [None];
        EncodedSlotsParse(data, p + 2, [None], |s|, s);
      }
    }
  }

  lemma PoolCount(data: seq<Byte>, p: nat)
    ensures Has(data, p, 2) ==> 0 <= U2(data, p) < 0x1_0000
    ensures forall x: Short {:trigger E2(x)} :: |E2(x)| == 2
  {}

  /** In a pool every slot from 1 on holds the entry with its own index and tag, or is empty, and it is
      empty exactly if the slot before it holds a long or a double (section 4.4.5). */
  lemma {:induction false} SlotsAreFiled(s: seq<Slot>, from: nat, i: nat)
    requires SlotsOk(s, from) && from <= i < |s|
    ensures s[i].Some? ==> s[i].value.indexId == i && s[i].value.tag == TagOf(s[i].value.info)
    ensures s[i] == None ==> from < i
    ensures from < i ==> (s[i] == None <==> s[i - 1].Some? && IsWide(s[i - 1].value.info))
    decreases |s| - from
  {
    hide TagOf;
    var next := if IsWide(s[from].value.info) then from + 2 else from + 1;
    if i >= next {
      SlotsAreFiled(s, next, i);
    }
  }

  // ---------------------------------------------------------------- interfaces

  lemma ShortsGrow(data: seq<Byte>, p: nat, n: nat)
    requires n > 0 && Has(data, p, 2 * n)
    ensures ParseShorts(data, p, n - 1).Ok?
    ensures ParseShorts(data, p, n).value == ParseShorts(data, p, n - 1).value + [U2(data, p + 2 * (n - 1))]
  {
    hide U2;
  }

  lemma {:induction false} ShortsLength(xs: seq<Short>)
    ensures |EncodeShorts(xs)| == 2 * |xs|
  {
    if xs != [] {
      ShortsLength(xs[..|xs| - 1]);
    }
  }

  lemma {:induction false} ShortsAreTheirEncoding(data: seq<Byte>, p: nat, xs: seq<Short>)
    requires p <= |data|
    ensures ParseShorts(data, p, |xs|) == Ok(xs, p + 2 * |xs|) <==> At(data, p, EncodeShorts(xs))
    decreases |xs|
  {
    hide At, U2, E2;
    var n := |xs|;
    if n == 0 {
      NothingAt(data, p);
      assert ParseShorts(data, p, 0).value == [];
    } else {
      var front, last := xs[..n - 1], xs[n - 1];
      ShortsAreTheirEncoding(data, p, front);
      AtSplit(data, p, EncodeShorts(front), E2(last));
      ShortsLength(front);
      AtU2(data, p + 2 * (n - 1), last);
      assert xs == front + [last];
      if Has(data, p, 2 * n) {
        ShortsGrow(data, p, n);
        assert ParseShorts(data, p, n).value == ParseShorts(data, p, n - 1).value + [U2(data, p + 2 * (n - 1))];
      }
    }
  }

  lemma InterfacesAreTheirEncoding(data: seq<Byte>, p: nat, xs: seq<Short>, q: nat)
    ensures ParseInterfaces(data, p) == Ok(xs, q) <==>
            |xs| < 0x1_0000 && At(data, p, EncodeInterfaces(xs)) && q == p + |EncodeInterfaces(xs)|
  {
    hide At, U2, E2;
    PoolCount(data, p);
    ShortsLength(xs);
    if |xs| < 0x1_0000 {
      AtSplit(data, p, E2(|xs|), EncodeShorts(xs));
      AtU2(data, p, |xs|);
    }
    if Has(data, p, 2) {
      ShortsAreTheirEncoding(data, p + 2, xs);
    }
  }

  // ---------------------------------------------------------------- attributes and members

  lemma AttributeIsItsEncoding(data: seq<Byte>, p: nat, a: Attribute, q: nat)
    ensures ParseAttribute(data, p) == Ok(a, q) <==>
            AttributeOk(a) && At(data, p, EncodeAttribute(a)) && q == p + |EncodeAttribute(a)|
  {
    if Has(data, p, 6) { U4Range(data, p + 2); U2Range(data, p); }
    hide U2, U4;
    if AttributeOk(a) {
      var n := |a.info|;
      AtSplit(data, p, E2(a.attributeName), E4(n) + a.info);
      AtSplit(data, p + 2, E4(n), a.info);
      AtU2(data, p, a.attributeName);
      AtU4(data, p + 2, n);
    }
  }

  lemma {:induction false} AttributesAreTheirEncoding(data: seq<Byte>, p: nat, n: nat, s: seq<Attribute>, q: nat)
    requires p <= |data|
    ensures ParseAttributes(data, p, n) == Ok(s, q) <==>
            |s| == n && AttributesOk(s) && At(data, p, EncodeAttributes(s)) && q == p + |EncodeAttributes(s)|
    decreases n
  {
    hide At, ParseAttribute, EncodeAttribute, AttributeOk;
    if n == 0 {
      NothingAt(data, p);
    } else {
      if ParseAttributes(data, p, n) == Ok(s, q) {
        var r := ParseAttributes(data, p, n - 1);
        AttributesAreTheirEncoding(data, p, n - 1, r.value, r.next);
        AttributeIsItsEncoding(data, r.next, s[n - 1], q);
        assert s[..n - 1] == r.value;
        AtSplit(data, p, EncodeAttributes(r.value), EncodeAttribute(s[n - 1]));
      }
      if |s| == n && AttributesOk(s) && At(data, p, EncodeAttributes(s)) && q == p + |EncodeAttributes(s)| {
        var front, last := s[..n - 1], s[n - 1];
        var m := p + |EncodeAttributes(front)|;
        AtSplit(data, p, EncodeAttributes(front), EncodeAttribute(last));
        AttributesAreTheirEncoding(data, p, n - 1, front, m);
        AttributeIsItsEncoding(data, m, last, q);
        assert front + [last] == s;
      }
    }
  }

  lemma MemberIsItsEncoding(data: seq<Byte>, p: nat, m: Member, q: nat)
    ensures ParseMember(data, p) == Ok(m, q) <==>
            MemberOk(m) && At(data, p, EncodeMember(m)) && q == p + |EncodeMember(m)|
  {
    hide At, U2, E2, ParseAttributes, EncodeAttributes, AttributesOk;
    PoolCount(data, p + 6);
    if Has(data, p, 8) {
      AttributesAreTheirEncoding(data, p + 8, U2(data, p + 6), m.attributes, q);
    }
    if MemberOk(m) {
      var s := EncodeAttributes(m.attributes);
      AtHeader(data, p, m.accessFlags, m.nameIndex, m.descriptorIndex, |m.attributes|, s);
    }
  }

  lemma AtHeader(data: seq<Byte>, p: nat, a: Short, b: Short, c: Short, d: Short, s: seq<Byte>)
    ensures At(data, p, E2(a) + (E2(b) + (E2(c) + (E2(d) + s)))) <==>
      && Has(data, p, 8) && U2(data, p) == a && U2(data, p + 2) == b && U2(data, p + 4) == c && U2(data, p + 6) == d
      && At(data, p + 8, s)
    ensures |E2(a) + (E2(b) + (E2(c) + (E2(d) + s)))| == 8 + |s|
  {
    AtSplit(data, p, E2(a), E2(b) + (E2(c) + (E2(d) + s)));
    AtSplit(data, p + 2, E2(b), E2(c) + (E2(d) + s));
    AtSplit(data, p + 4, E2(c), E2(d) + s);
    AtSplit(data, p + 6, E2(d), s);
    AtU2(data, p, a);
    AtU2(data, p + 2, b);
    AtU2(data, p + 4, c);
    AtU2(data, p + 6, d);
    hide At, U2;
  }

  lemma {:induction false} MembersAreTheirEncoding(data: seq<Byte>, p: nat, n: nat, s: seq<Member>, q: nat)
    requires p <= |data|
    ensures ParseMembers(data, p, n) == Ok(s, q) <==>
            |s| == n && MembersOk(s) && At(data, p, EncodeMembers(s)) && q == p + |EncodeMembers(s)|
    decreases n
  {
    if n == 0 {
      hide At, ParseMember, EncodeMember, MemberOk;
      NothingAt(data, p);
    } else {
      hide *;
      MembersUnfold(data, p, n, s, q);
      if ParseMembers(data, p, n) == Ok(s, q) {
        var r, last := ParseMembers(data, p, n - 1), s[|s| - 1];
        MembersAreTheirEncoding(data, p, n - 1, r.value, r.next);
        MemberIsItsEncoding(data, r.next, last, q);
        EncodingUnfolds(s);
        AtSplit(data, p, EncodeMembers(r.value), EncodeMember(last));
      }
      if |s| == n && MembersOk(s) && At(data, p, EncodeMembers(s)) && q == p + |EncodeMembers(s)| {
        EncodingUnfolds(s);
        var front, last := s[..n - 1], s[n - 1];
        var m := p + |EncodeMembers(front)|;
        AtSplit(data, p, EncodeMembers(front), EncodeMember(last));
        MembersAreTheirEncoding(data, p, n - 1, front, m);
        MemberIsItsEncoding(data, m, last, q);
      }
    }
  }

  lemma MembersUnfold(data: seq<Byte>, p: nat, n: nat, s: seq<Member>, q: nat)
    requires n > 0
    ensures ParseMembers(data, p, n) == Ok(s, q) <==>
            s != [] && var r := ParseMembers(data, p, n - 1);
            r.Ok? && r.value == s[..|s| - 1] && ParseMember(data, r.next) == Ok(s[|s| - 1], q)
  {
    hide ParseMember;
    if s != [] {
      assert s[..|s| - 1] + [s[|s| - 1]] == s;
    }
  }

  lemma EncodingUnfolds(s: seq<Member>)
    requires s != []
    ensures MembersOk(s) <==> MembersOk(s[..|s| - 1]) && MemberOk(s[|s| - 1])
    ensures MembersOk(s) ==> EncodeMembers(s) == EncodeMembers(s[..|s| - 1]) + EncodeMember(s[|s| - 1])
  {
    hide EncodeMember, MemberOk;
    var front, last := s[..|s| - 1], s[|s| - 1];
    assert front + [last] == s;
  }

  lemma TableIsItsEncoding(data: seq<Byte>, p: nat, s: seq<Member>, q: nat)
    ensures ParseTable(data, p) == Ok(s, q) <==>
            |s| < 0x1_0000 && MembersOk(s) && At(data, p, EncodeTable(s)) && q == p + |EncodeTable(s)|
  {
    hide At, U2, E2, ParseMembers, EncodeMembers, MembersOk;
    PoolCount(data, p);
    if |s| < 0x1_0000 && MembersOk(s) {
      AtSplit(data, p, E2(|s|), EncodeMembers(s));
      AtU2(data, p, |s|);
    }
    if Has(data, p, 2) {
      MembersAreTheirEncoding(data, p + 2, U2(data, p), s, q);
    }
  }

  // ---------------------------------------------------------------- the class file

  lemma AtThree(data: seq<Byte>, p: nat, a: Short, b: Short, c: Short, s: seq<Byte>)
    ensures At(data, p, E2(a) + (E2(b) + (E2(c) + s))) <==>
      && Has(data, p, 6) && U2(data, p) == a && U2(data, p + 2) == b && U2(data, p + 4) == c && At(data, p + 6, s)
    ensures |E2(a) + (E2(b) + (E2(c) + s))| == 6 + |s|
  {
    AtSplit(data, p, E2(a), E2(b) + (E2(c) + s));
    AtSplit(data, p + 2, E2(b), E2(c) + s);
    AtSplit(data, p + 4, E2(c), s);
    AtU2(data, p, a);
    AtU2(data, p + 2, b);
    AtU2(data, p + 4, c);
    hide At, U2;
  }

  lemma AtMagic(data: seq<Byte>, minor: Short, major: Short, s: seq<Byte>)
    ensures At(data, 0, E4(MAGIC) + (E2(minor) + (E2(major) + s))) <==>
      && Has(data, 0, 8) && U4(data, 0) == MAGIC && U2(data, 4) == minor && U2(data, 6) == major && At(data, 8, s)
    ensures |E4(MAGIC) + (E2(minor) + (E2(major) + s))| == 8 + |s|
  {
    AtSplit(data, 0, E4(MAGIC), E2(minor) + (E2(major) + s));
    AtSplit(data, 4, E2(minor), E2(major) + s);
    AtSplit(data, 6, E2(major), s);
    AtU4(data, 0, MAGIC);
    AtU2(data, 4, minor);
    AtU2(data, 6, major);
    hide At, U2, U4;
  }

  /** The parts of a class file, and where they lie. */
  predicate AtParts(data: seq<Byte>, c: ClassFile)
    requires ClassOk(c)
  {
    var p := 8 + |EncodePool(c.pool)|;
    var p1 := p + 6 + |EncodeInterfaces(c.interfaces)|;
    var p2 := p1 + |EncodeTable(c.fields)|;
    && Has(data, 0, 8) && U4(data, 0) == MAGIC && U2(data, 4) == c.minor && U2(data, 6) == c.major
    && At(data, 8, EncodePool(c.pool))
    && Has(data, p, 6) && U2(data, p) == c.access && U2(data, p + 2) == c.thisClass && U2(data, p + 4) == c.superClass
    && At(data, p + 6, EncodeInterfaces(c.interfaces)) && At(data, p1, EncodeTable(c.fields)) && At(data, p2, EncodeTable(c.methods))
  }

  lemma ClassHasParts(data: seq<Byte>, c: ClassFile)
    requires ClassOk(c)
    ensures At(data, 0, EncodeClass(c)) <==> AtParts(data, c)
    ensures |EncodeClass(c)| ==
      14 + |EncodePool(c.pool)| + |EncodeInterfaces(c.interfaces)| + |EncodeTable(c.fields)| + |EncodeTable(c.methods)|
  {
    hide At, U2, U4, E2, E4, EncodePool, EncodeInterfaces, EncodeTable;
    PartsAt(data, c.minor, c.major, EncodePool(c.pool), c.access, c.thisClass, c.superClass,
            EncodeInterfaces(c.interfaces), EncodeTable(c.fields), EncodeTable(c.methods));
  }

  lemma PartsAt(data: seq<Byte>, minor: Short, major: Short, pool: seq<Byte>, access: Short, thisClass: Short,
                superClass: Short, i: seq<Byte>, f: seq<Byte>, m: seq<Byte>)
    ensures var p := 8 + |pool|;
      At(data, 0, E4(MAGIC) + (E2(minor) + (E2(major) + (pool
         + (E2(access) + (E2(thisClass) + (E2(superClass) + (i + (f + m))))))))) <==>
      && Has(data, 0, 8) && U4(data, 0) == MAGIC && U2(data, 4) == minor && U2(data, 6) == major
      && At(data, 8, pool)
      && Has(data, p, 6) && U2(data, p) == access && U2(data, p + 2) == thisClass && U2(data, p + 4) == superClass
      && At(data, p + 6, i) && At(data, p + 6 + |i|, f) && At(data, p + 6 + |i| + |f|, m)
    ensures |E4(MAGIC) + (E2(minor) + (E2(major) + (pool
             + (E2(access) + (E2(thisClass) + (E2(superClass) + (i + (f + m))))))))| == 14 + |pool| + |i| + |f| + |m|
  {
    hide At, U2, U4, E2, E4;
    var p := 8 + |pool|;
    var rest := E2(access) + (E2(thisClass) + (E2(superClass) + (i + (f + m))));
    AtMagic(data, minor, major, pool + rest);
    AtSplit(data, 8, pool, rest);
    AtThree(data, p, access, thisClass, superClass, i + (f + m));
    AtSplit(data, p + 6, i, f + m);
    AtSplit(data, p + 6 + |i|, f, m);
  }

  /** What the parts of a parsed class were parsed from. */
  lemma ParsedParts(data: seq<Byte>, c: ClassFile, q: nat) returns (p: nat, q0: nat, q1: nat)
    requires ParseClass(data) == Ok(c, q)
    ensures Has(data, 0, 8) && U4(data, 0) == MAGIC && U2(data, 4) == c.minor && U2(data, 6) == c.major
    ensures ParsePool(data, 8) == Ok(c.pool, p) && Has(data, p, 6)
    ensures U2(data, p) == c.access && U2(data, p + 2) == c.thisClass && U2(data, p + 4) == c.superClass
    ensures ParseInterfaces(data, p + 6) == Ok(c.interfaces, q0)
    ensures ParseTable(data, q0) == Ok(c.fields, q1) && ParseTable(data, q1) == Ok(c.methods, q)
  {
    hide U2, U4, ParsePool, ParseInterfaces, ParseTable;
    p := ParsePool(data, 8).next;
    q0 := ParseInterfaces(data, p + 6).next;
    q1 := ParseTable(data, q0).next;
  }

  lemma ClassWasEncoded(data: seq<Byte>, c: ClassFile, q: nat)
    requires ParseClass(data) == Ok(c, q)
    ensures ClassOk(c) && At(data, 0, EncodeClass(c)) && q == |EncodeClass(c)|
  {
    var p, q0, q1 := ParsedParts(data, c, q);
    hide *;
    PoolIsItsEncoding(data, 8, c.pool, p);
    InterfacesAreTheirEncoding(data, p + 6, c.interfaces, q0);
    TableIsItsEncoding(data, q0, c.fields, q1);
    TableIsItsEncoding(data, q1, c.methods, q);
    PartsMakeClass(data, c, p, q0, q1, q);
    ClassHasParts(data, c);
  }

  lemma PartsMakeClass(data: seq<Byte>, c: ClassFile, p: nat, q0: nat, q1: nat, q: nat)
    requires Has(data, 0, 8) && U4(data, 0) == MAGIC && U2(data, 4) == c.minor && U2(data, 6) == c.major
    requires Has(data, p, 6)
    requires U2(data, p) == c.access && U2(data, p + 2) == c.thisClass && U2(data, p + 4) == c.superClass
    requires PoolOk(c.pool) && At(data, 8, EncodePool(c.pool)) && p == 8 + |EncodePool(c.pool)|
    requires |c.interfaces| < 0x1_0000 && At(data, p + 6, EncodeInterfaces(c.interfaces))
    requires q0 == p + 6 + |EncodeInterfaces(c.interfaces)|
    requires |c.fields| < 0x1_0000 && MembersOk(c.fields) && At(data, q0, EncodeTable(c.fields))
    requires q1 == q0 + |EncodeTable(c.fields)|
    requires |c.methods| < 0x1_0000 && MembersOk(c.methods) && At(data, q1, EncodeTable(c.methods))
    requires q == q1 + |EncodeTable(c.methods)|
    ensures ClassOk(c) && AtParts(data, c)
    ensures q == 14 + |EncodePool(c.pool)| + |EncodeInterfaces(c.interfaces)| + |EncodeTable(c.fields)| + |EncodeTable(c.methods)|
  {
    hide At, U2, U4, PoolOk, MembersOk, EncodePool, EncodeInterfaces, EncodeTable;
  }

  lemma EncodedClassParses(data: seq<Byte>, c: ClassFile)
    requires ClassOk(c) && At(data, 0, EncodeClass(c))
    ensures ParseClass(data) == Ok(c, |EncodeClass(c)|)
  {
    hide At, U2, U4, E2, ParsePool, ParseInterfaces, ParseTable, PoolOk, MembersOk, EncodePool;
    hide EncodeInterfaces, EncodeTable, EncodeClass;
    ClassHasParts(data, c);
    var p := 8 + |EncodePool(c.pool)|;
    var p1 := p + 6 + |EncodeInterfaces(c.interfaces)|;
    var p2 := p1 + |EncodeTable(c.fields)|;
    PoolIsItsEncoding(data, 8, c.pool, p);
    InterfacesAreTheirEncoding(data, p + 6, c.interfaces, p1);
    TableIsItsEncoding(data, p1, c.fields, p2);
    TableIsItsEncoding(data, p2, c.methods, p2 + |EncodeTable(c.methods)|);
  }

  /** The reader yields a class exactly if the file begins with the encoding of that class, and stops
      behind its methods table. */
  lemma ClassIsItsEncoding(data: seq<Byte>, c: ClassFile, q: nat)
    ensures ParseClass(data) == Ok(c, q) <==> ClassOk(c) && At(data, 0, EncodeClass(c)) && q == |EncodeClass(c)|
  {
    hide At, ParseClass, EncodeClass, ClassOk;
    if ParseClass(data) == Ok(c, q) {
      ClassWasEncoded(data, c, q);
    }
    if ClassOk(c) && At(data, 0, EncodeClass(c)) {
      EncodedClassParses(data, c);
    }
  }

  /** No file begins with the encodings of two classes. */
  lemma EncodingIsUnique(data: seq<Byte>, c: ClassFile, d: ClassFile)
    requires ClassOk(c) && ClassOk(d) && At(data, 0, EncodeClass(c)) && At(data, 0, EncodeClass(d))
    ensures c == d
  {
    hide At, ParseClass, EncodeClass, ClassOk;
    EncodedClassParses(data, c);
    EncodedClassParses(data, d);
  }
}
