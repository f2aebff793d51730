/** ByteCode: the format strings of the bytecodes, and compute_flags, the scanner of such strings. */
module Formats {
  import opened Bytecode

  /** The bits of the flags word. */
  datatype Flag =
    | CanTrap | CanRewrite
    | HasC | HasJ | HasK | HasI | HasO
    | HasNbo | HasU2 | HasU4
    | NotVariable | NotSimple

  datatype Scan = Flags(flags: set<Flag>) | AssertFails

  // ---------------------------------------------------------------- what a format means

  /** A field: a run of one letter, as long as the operand has bytes. */
  datatype Field = Field(letter: char, size: nat)

  function RunLength(s: string): (n: nat)
    requires s != ""
    ensures 1 <= n <= |s| && (forall i :: 0 <= i < n ==> s[i] == s[0]) && (n < |s| ==> s[n] != s[0])
  {
    if |s| == 1 || s[1] != s[0] then 1 else 1 + RunLength(s[1..])
  }

  /** The fields of a format behind the opcode; underscores are padding. */
  function Fields(s: string): seq<Field>
    decreases |s|
  {
    if s == "" then []
    else if s[0] == '_' then Fields(s[1..])
    else [Field(s[0], RunLength(s))] + Fields(s[RunLength(s)..])
  }

  function LetterFlag(c: char): (f: Flag)
    requires IsLetter(c)
  {
    if c in {'c', 'C'} then HasC
    else if c in {'j', 'J'} then HasJ
    else if c in {'k', 'K'} then HasK
    else if c in {'i', 'I'} then HasI
    else HasO
  }

  predicate IsLetter(c: char) { c in {'j', 'k', 'i', 'c', 'o', 'J', 'K', 'I', 'C', 'O'} }

  predicate IsNative(c: char) { c in {'J', 'K', 'I', 'C', 'O'} }

  /** A field is one, two or four bytes of a known letter. */
  predicate FieldOk(f: Field) { IsLetter(f.letter) && f.size in {1, 2, 4} }

  predicate SameOrder(f: Field, g: Field) { IsNative(f.letter) == IsNative(g.letter) }

  /** The fields have known letters, legal sizes and one byte order; they are equally wide, but for
      the last, which may be shorter if nothing follows it. */
  predicate WellFormed(fs: seq<Field>, endsInField: bool) {
    && (forall i :: 0 <= i < |fs| ==> FieldOk(fs[i]))
    && (forall i, j :: 0 <= i < |fs| && 0 <= j < |fs| ==> SameOrder(fs[i], fs[j]))
    && (forall i :: 0 <= i < |fs| ==>
          fs[i].size == fs[0].size || (i == |fs| - 1 && fs[i].size < fs[0].size && endsInField))
  }

  /** What is in front of the fields: b is a simple instruction, wb a wide one, and the empty format
      stands for a variable length. */
  function Prefix(format: string): nat {
    if format == "" then 0 else if format[0] == 'b' then 1 else if format[0] == 'w' then 2 else 0
  }

  function PrefixFlags(format: string): set<Flag> {
    if format == "" then {NotSimple}
    else if format[0] == 'b' then {NotVariable}
    else if format[0] == 'w' then {NotVariable, NotSimple}
    else {}
  }

  predicate Accepted(format: string) {
    && (format != "" && format[0] == 'w' ==> |format| >= 2 && format[1] == 'b')
    && WellFormed(Fields(format[Prefix(format)..]), format != "" && format[|format| - 1] != '_')
  }

  /** The flags that the fields contribute. */
  ghost predicate Contributes(fs: seq<Field>, f: Flag) {
    || (exists i :: 0 <= i < |fs| && IsLetter(fs[i].letter) && f == LetterFlag(fs[i].letter))
    || (f == HasNbo && exists i :: 0 <= i < |fs| && IsNative(fs[i].letter))
    || (f == HasU2 && exists i :: 0 <= i < |fs| && fs[i].size == 2)
    || (f == HasU4 && exists i :: 0 <= i < |fs| && fs[i].size == 4)
  }

  // ---------------------------------------------------------------- the scanner

  /** The flags so far, and the flags of one more field. */
  lemma OneMoreField(fs: seq<Field>, g: Field, f: Flag)
    ensures Contributes(fs + [g], f) <==> Contributes(fs, f) || Contributes([g], f)
  {
    var all := fs + [g];
    assert all[|fs|] == g && [g][0] == g;
    forall i | 0 <= i < |fs| ensures all[i] == fs[i] {}
  }

  lemma OneFieldFlags(g: Field, f: Flag)
    requires FieldOk(g)
    ensures Contributes([g], f) <==>
      f == LetterFlag(g.letter) || (f == HasNbo && IsNative(g.letter))
      || (f == HasU2 && g.size == 2) || (f == HasU4 && g.size == 4)
  {
    assert [g][0] == g;
  }

  lemma Padding(s: string)
    requires s != "" && s[0] == '_'
    ensures Fields(s) == Fields(s[1..])
  {}

  lemma FieldsSplit(s: string)
    requires s != "" && s[0] != '_'
    ensures Fields(s) == [Field(s[0], RunLength(s))] + Fields(s[RunLength(s)..])
  {}

  /** The checks on one more field. */
  predicate Fits(done: seq<Field>, g: Field, atEnd: bool) {
    && FieldOk(g)
    && (done != [] ==> SameOrder(done[0], g))
    && (done == [] || g.size == done[|done| - 1].size || (g.size < done[|done| - 1].size && atEnd))
  }

  lemma OneMoreFits(done: seq<Field>, g: Field, atEnd: bool)
    requires WellFormed(done, false)
    ensures WellFormed(done + [g], atEnd) <==> Fits(done, g, atEnd)
  {
    var all := done + [g];
    assert all[|done|] == g;
    forall i | 0 <= i < |done| ensures all[i] == done[i] {}
    if Fits(done, g, atEnd) && done != [] {
      forall i | 0 <= i < |done| ensures SameOrder(done[0], done[i]) {}
    }
  }

  /** Only padding behind the last field. */
  lemma {:induction false} NoFieldsLeft(s: string)
    requires Fields(s) == [] && s != ""
    ensures s[|s| - 1] == '_'
    decreases |s|
  {
    if |s| > 1 {
      NoFieldsLeft(s[1..]);
    }
  }

  /** A format is not accepted if a field of it does not fit. */
  lemma BadField(fields: seq<Field>, done: seq<Field>, g: Field, rest: string, last: char)
    requires fields == done + [g] + Fields(rest) && WellFormed(done, false)
    requires rest != "" ==> last == rest[|rest| - 1]
    requires !Fits(done, g, rest == "")
    ensures !WellFormed(fields, last != '_')
  {
    if WellFormed(fields, last != '_') {
      forall i | 0 <= i < |done| ensures fields[i] == done[i] {}
      assert fields[|done|] == g;
      if rest != "" && Fields(rest) == [] {
        NoFieldsLeft(rest);
      }
      assert done != [] ==> SameOrder(fields[0], fields[|done|]);
      assert Fits(done, g, rest == "");
    }
  }

  /** Advances beyond a run of the same character. */
  method CountRun(format: string, start: nat) returns (size: nat, fp: nat)
    requires start < |format|
    ensures size == RunLength(format[start..]) && fp == start + size
  {
    ghost var rest := format[start..];
    size, fp := 1, start + 1;
    while fp < |format| && format[fp] == format[start]
      invariant 1 <= size <= RunLength(rest) && fp == start + size <= |format|
      decreases |format| - fp
    {
      assert format[fp] == rest[size];
      fp := fp + 1;
      size := size + 1;
    }
    assert fp < |format| ==> rest[size] == format[fp];
  }

  /** The checks and flags of one field, and what is known of the fields before it. */
  method ScanField(fc: char, size: nat, atEnd: bool, flags: set<Flag>, hasNbo: bool, hasJbo: bool, hasSize: nat,
                   ghost done: seq<Field>)
    returns (ok: bool, flags': set<Flag>)
    requires WellFormed(done, false)
    requires hasNbo <==> exists i :: 0 <= i < |done| && IsNative(done[i].letter)
    requires hasJbo <==> exists i :: 0 <= i < |done| && !IsNative(done[i].letter)
    requires hasSize == if done == [] then 0 else done[|done| - 1].size
    ensures ok <==> Fits(done, Field(fc, size), atEnd)
    ensures ok ==> forall f :: f in flags' <==> f in flags || Contributes([Field(fc, size)], f)
  {
    ghost var g := Field(fc, size);
    flags' := flags;
    if !IsLetter(fc) {
      return false, flags';
    }
    flags' := flags' + {LetterFlag(fc)};
    if (hasNbo || IsNative(fc)) && (hasJbo || !IsNative(fc)) {
      assert forall i :: 0 <= i < |done| ==> SameOrder(done[0], done[i]);
      return false, flags';
    }
    if IsNative(fc) {
      flags' := flags' + {HasNbo};
    }
    if size == 2 {
      flags' := flags' + {HasU2};
    } else if size == 4 {
      flags' := flags' + {HasU4};
    } else if size != 1 {
      return false, flags';
    }
    ok := hasSize == 0 || size == hasSize || (size < hasSize && atEnd);
    if ok {
      forall f ensures f in flags' <==> f in flags || Contributes([g], f) {
        OneFieldFlags(g, f);
      }
    }
  }

  /** The loop over the fields, from start on. */
  method ScanFields(format: string, start: nat, moreFlags: set<Flag>, ghost last: char) returns (r: Scan)
    requires start <= |format| && (format != "" ==> last == format[|format| - 1])
    ensures r.Flags? <==> WellFormed(Fields(format[start..]), last != '_')
    ensures r.Flags? ==> forall f :: f in r.flags <==> f in moreFlags || Contributes(Fields(format[start..]), f)
  {
    NothingScanned();
    hide WellFormed, Contributes, Fields, RunLength, IsLetter, IsNative, Fits, SameOrder;
    ghost var fields := Fields(format[start..]);
    ghost var done: seq<Field> := [];
    var flags, fp, hasNbo, hasJbo, hasSize := moreFlags, start, false, false, 0;
    assert done + fields == fields;
    while fp < |format|
      invariant start <= fp <= |format| && done + Fields(format[fp..]) == fields
      invariant WellFormed(done, fp == |format| && last != '_')
      invariant hasNbo <==> exists i :: 0 <= i < |done| && IsNative(done[i].letter)
      invariant hasJbo <==> exists i :: 0 <= i < |done| && !IsNative(done[i].letter)
      invariant hasSize == if done == [] then 0 else done[|done| - 1].size
      invariant forall f :: f in flags <==> f in moreFlags || Contributes(done, f)
    {
      ghost var rest := format[fp..];
      var fc := format[fp];
      if fc == '_' {
        Padding(rest);
        assert rest[1..] == format[fp + 1..];
        fp := fp + 1;
        continue;
      }
      FieldsSplit(rest);
      var size, next := CountRun(format, fp);
      ghost var g := Field(fc, size);
      assert rest[size..] == format[next..];
      FieldIsNext(fields, done, g, Fields(format[next..]));
      var ok, more := ScanField(fc, size, next == |format|, flags, hasNbo, hasJbo, hasSize, done);
      if !ok {
        BadField(fields, done, g, format[next..], last);
        return AssertFails;
      }
      OneMoreFits(done, g, next == |format|);
      forall f ensures f in more <==> f in moreFlags || Contributes(done + [g], f) {
        OneMoreField(done, g, f);
      }
      LastOf(done, g);
      flags, fp, hasSize := more, next, size;
      if IsNative(fc) { hasNbo := true; } else { hasJbo := true; }
      done := done + [g];
    }
    assert format[fp..] == "" && done + [] == done;
    r := Flags(flags);
  }

  /** compute_flags, for a format that is not NULL: it runs into an assertion exactly if the format is
      not well-formed, and otherwise collects exactly the flags of the prefix and the fields. */
  method ComputeFlags(format: string, moreFlags: set<Flag>) returns (r: Scan)
    ensures r.Flags? <==> Accepted(format)
    ensures r.Flags? ==> forall f :: f in r.flags <==>
              f in moreFlags || f in PrefixFlags(format) || Contributes(Fields(format[Prefix(format)..]), f)
  {
    hide WellFormed, Contributes, Fields;
    var flags := moreFlags;
    var fp := 0;
    if format == "" {
      flags := flags + {NotSimple};
    } else if format[0] == 'b' {
      flags := flags + {NotVariable};
      fp := 1;
    } else if format[0] == 'w' {
      flags := flags + {NotVariable, NotSimple};
      if |format| < 2 || format[1] != 'b' {
        return AssertFails;
      }
      fp := 2;
    }
    ghost var last := if format == "" then '_' else format[|format| - 1];
    r := ScanFields(format, fp, flags, last);
  }

  lemma NothingScanned()
    ensures Fields("") == [] && WellFormed([], true) && WellFormed([], false)
    ensures forall f :: !Contributes([], f)
  {}

  lemma LastOf(done: seq<Field>, g: Field)
    ensures (done + [g])[|done + [g]| - 1] == g
    ensures (exists i :: 0 <= i < |done + [g]| && IsNative((done + [g])[i].letter)) <==>
            (exists i :: 0 <= i < |done| && IsNative(done[i].letter)) || IsNative(g.letter)
    ensures (exists i :: 0 <= i < |done + [g]| && !IsNative((done + [g])[i].letter)) <==>
            (exists i :: 0 <= i < |done| && !IsNative(done[i].letter)) || !IsNative(g.letter)
  {
    var all := done + [g];
    assert all[|done|] == g;
    forall i | 0 <= i < |done| ensures all[i] == done[i] {}
  }

  lemma FieldIsNext(fields: seq<Field>, done: seq<Field>, g: Field, rest: seq<Field>)
    requires fields == done + ([g] + rest)
    ensures fields == (done + [g]) + rest
  {}

  // ---------------------------------------------------------------- the table of bytecodes

  /** The format that initialize defines for a bytecode. */
  function FormatOf(op: Byte): (f: string)
    requires op < NUMBER_OF_CODES
  {
    if op in {16, 188} then "bc"
    else if op == 17 then "bcc"
    else if op == 18 then "bk"
    else if op in {19, 20, 187, 189, 192, 193} then "bkk"
    else if 21 <= op <= 25 || 54 <= op <= 58 || op in {169, 224, 237} then "bi"
    else if op == 132 then "bic"
    else if 153 <= op <= 168 || op in {198, 199} then "boo"
    else if op in {170, 171, 196, 202, 228, 229} then ""
    else if 178 <= op <= 184 || 203 <= op <= 219 || op in {227, 231} || 233 <= op <= 235 then "bJJ"
    else if op == 185 then "bJJ__"
    else if op == 186 then "bJJJJ"
    else if op == 197 then "bkkc"
    else if op in {200, 201} then "boooo"
    else if 221 <= op <= 223 then "b_JJ"
    else if op == 225 then "bi_i"
    else if op == 226 then "bi_"
    else if op == 230 then "bj"
    else "b"
  }

  /** The format behind a wide prefix, if there is one. */
  function WideFormatOf(op: Byte): string
    requires op < NUMBER_OF_CODES && HasWide(op)
  {
    if op == 132 then "wbiicc" else "wbii"
  }

  predicate HasWide(op: Byte) { 21 <= op <= 25 || 54 <= op <= 58 || op in {132, 169} }

  /** The length by which the walk over the code advances is that of the format: def keeps it in the
      low four bits of a byte, above which the length of the wide format has room. */
  lemma LengthIsThatOfFormat(op: Byte)
    requires op < NUMBER_OF_CODES
    ensures Length(op) == |FormatOf(op)|
    ensures var packed := 16 * (if HasWide(op) then |WideFormatOf(op)| else 0) + |FormatOf(op)| % 16;
      packed < 256 && packed % 16 == Length(op)
  {}

  lemma {:induction false} RunLengthIs(s: string, c: char, n: nat)
    requires 0 < n <= |s| && (forall i :: 0 <= i < n ==> s[i] == c) && (n < |s| ==> s[n] != c)
    ensures RunLength(s) == n
    decreases n
  {
    if n > 1 {
      RunLengthIs(s[1..], c, n - 1);
    }
  }

  /** One run of a letter. */
  lemma RunOf(s: string, c: char, n: nat, rest: string)
    requires n > 0 && |s| == n + |rest| && c != '_' && (rest == "" || rest[0] != c)
    requires (forall i :: 0 <= i < n ==> s[i] == c) && s[n..] == rest
    ensures Fields(s) == [Field(c, n)] + Fields(rest)
  {
    RunLengthIs(s, c, n);
  }

  lemma OneField(c: char, n: nat, s: string, last: bool)
    requires IsLetter(c) && n in {1, 2, 4} && |s| == n && forall i :: 0 <= i < n ==> s[i] == c
    ensures Fields(s) == [Field(c, n)] && WellFormed(Fields(s), last)
  {
    RunOf(s, c, n, "");
  }

  lemma TwoFields(c: char, n: nat, d: char, m: nat, s: string)
    requires IsLetter(c) && IsLetter(d) && c != d && IsNative(c) == IsNative(d)
    requires n in {1, 2, 4} && m in {1, 2, 4} && m <= n && |s| == n + m
    requires (forall i :: 0 <= i < n ==> s[i] == c) && forall i :: n <= i < n + m ==> s[i] == d
    ensures Fields(s) == [Field(c, n), Field(d, m)] && WellFormed(Fields(s), true)
  {
    hide Fields;
    RunOf(s, c, n, s[n..]);
    OneField(d, m, s[n..], true);
    assert [Field(c, n)] + [Field(d, m)] == [Field(c, n), Field(d, m)];
  }

  lemma AcceptOne(f: string, c: char, n: nat)
    requires |f| == n + 1 && f[0] == 'b' && IsLetter(c) && n in {1, 2, 4} && forall i :: 1 <= i <= n ==> f[i] == c
    ensures Accepted(f)
  {
    OneField(c, n, f[1..], true);
  }

  lemma AcceptTwo(f: string, p: nat, c: char, n: nat, d: char, m: nat)
    requires n in {1, 2, 4} && m in {1, 2, 4} && m <= n
    requires |f| == p + n + m && p == Prefix(f) && (f[0] == 'w' ==> p == 2 && f[1] == 'b')
    requires IsLetter(c) && IsLetter(d) && c != d && IsNative(c) == IsNative(d)
    requires (forall i :: p <= i < p + n ==> f[i] == c) && forall i :: p + n <= i < p + n + m ==> f[i] == d
    ensures Accepted(f)
  {
    TwoFields(c, n, d, m, f[p..]);
  }

  lemma AcceptFields(f: string, c: char, n: nat, twice: bool)
    requires f != "" && f[0] == 'b' && IsLetter(c) && n in {1, 2, 4}
    requires Fields(f[1..]) == if twice then [Field(c, n), Field(c, n)] else [Field(c, n)]
    ensures Accepted(f)
  {}

  /** Padding behind and in front of fields. */
  lemma AcceptPadded()
    ensures Accepted("bi_i") && Accepted("bi_") && Accepted("bJJ__") && Accepted("b_JJ")
  {
    assert "bi_i"[1..] == "i_i" && "i_i"[1..] == "_i" && "_i"[1..] == "i";
    assert "bi_"[1..] == "i_" && "i_"[1..] == "_" && "_"[1..] == "";
    assert "bJJ__"[1..] == "JJ__" && "JJ__"[2..] == "__" && "__"[1..] == "_";
    assert "b_JJ"[1..] == "_JJ" && "_JJ"[1..] == "JJ";
    Padding("_i");
    Padding("_");
    Padding("__");
    Padding("_JJ");
    NothingScanned();
    OneField('i', 1, "i", true);
    OneField('J', 2, "JJ", true);
    hide Fields, Accepted;
    RunOf("i_i", 'i', 1, "_i");
    RunOf("i_", 'i', 1, "_");
    RunOf("JJ__", 'J', 2, "__");
    AcceptFields("bi_i", 'i', 1, true);
    AcceptFields("bi_", 'i', 1, false);
    AcceptFields("bJJ__", 'J', 2, false);
    AcceptFields("b_JJ", 'J', 2, false);
  }

  lemma AcceptShortest()
    ensures Accepted("") && Accepted("b") && Accepted("wbii")
  {
    assert "b"[1..] == "";
    OneField('i', 2, "ii", true);
    assert "wbii"[2..] == "ii";
  }

  /** No format of the table runs compute_flags into an assertion. */
  lemma TableIsAccepted(op: Byte)
    requires op < NUMBER_OF_CODES
    ensures Accepted(FormatOf(op)) && (HasWide(op) ==> Accepted(WideFormatOf(op)))
  {
    hide Accepted;
    AcceptPadded();
    AcceptShortest();
    AcceptOne("bc", 'c', 1);
    AcceptOne("bcc", 'c', 2);
    AcceptOne("bk", 'k', 1);
    AcceptOne("bkk", 'k', 2);
    AcceptOne("bi", 'i', 1);
    AcceptOne("boo", 'o', 2);
    AcceptOne("boooo", 'o', 4);
    AcceptOne("bj", 'j', 1);
    AcceptOne("bJJ", 'J', 2);
    AcceptOne("bJJJJ", 'J', 4);
    AcceptTwo("bic", 1, 'i', 1, 'c', 1);
    AcceptTwo("bkkc", 1, 'k', 2, 'c', 1);
    AcceptTwo("wbiicc", 2, 'i', 2, 'c', 2);
  }
}
