/** The table of bytecodes by opcode number: lengths, and the flags that the format strings give. */
module FormatLaws {
  import opened Bytecode
  import opened Formats

  /** The lengths of section 6.5, of the opcodes of class files; 0 for those of variable length and for
      breakpoint, which has an empty format. */
  lemma LengthsOfOpcodes(op: Byte)
    requires op <= 202
    ensures Length(op) == 0 <==> op as int in {170, 171, 196, 202}
    ensures Length(op) == 2 <==> op as int in {16, 18, 21, 22, 23, 24, 25, 54, 55, 56, 57, 58, 169, 188}
    ensures Length(op) == 3 <==> (op as int in
            {17, 19, 20, 132, 153, 154, 155, 156, 157, 158, 159, 160, 161, 162, 163, 164, 165, 166, 167, 168, 178, 179,
             180, 181, 182, 183, 184, 187, 189, 192, 193, 198, 199})
    ensures Length(op) == 4 <==> op == 197
    ensures Length(op) == 5 <==> op as int in {185, 186, 200, 201}
    ensures Length(op) in {0, 1, 2, 3, 4, 5}
  {}

  /** The flags of a format: those of its prefix and of its fields. */
  ghost predicate Collects(format: string, f: Flag)
    requires Prefix(format) <= |format|
  {
    f in PrefixFlags(format) || Contributes(Fields(format[Prefix(format)..]), f)
  }

  /** What a field of this letter and size gives. */
  predicate FieldFlag(letter: char, size: nat, f: Flag) {
    match f
    case HasC => letter in {'c', 'C'}
    case HasJ => letter in {'j', 'J'}
    case HasK => letter in {'k', 'K'}
    case HasI => letter in {'i', 'I'}
    case HasO => letter in {'o', 'O'}
    case HasNbo => letter in {'J', 'K', 'I', 'C', 'O'}
    case HasU2 => size == 2
    case HasU4 => size == 4
    case _ => false
  }

  lemma NoField(format: string, f: Flag)
    requires format != "" && format[0] == 'b' && Fields(format[1..]) == []
    ensures Collects(format, f) <==> f == NotVariable
  {}

  lemma OneFieldOnly(format: string, letter: char, size: nat, f: Flag)
    requires format != "" && format[0] == 'b' && Fields(format[1..]) == [Field(letter, size)] && FieldOk(Field(letter, size))
    ensures Collects(format, f) <==> f == NotVariable || FieldFlag(letter, size, f)
  {
    OneFieldFlags(Field(letter, size), f);
    hide Contributes, Fields;
  }

  lemma TwoFieldsOnly(format: string, a: Field, b: Field, f: Flag)
    requires format != "" && format[0] == 'b' && Fields(format[1..]) == [a, b] && FieldOk(a) && FieldOk(b)
    ensures Collects(format, f) <==> f == NotVariable || FieldFlag(a.letter, a.size, f) || FieldFlag(b.letter, b.size, f)
  {
    OneFieldFlags(a, f);
    OneFieldFlags(b, f);
    OneMoreField([a], b, f);
    assert [a] + [b] == [a, b];
    hide Contributes, Fields;
  }

  /** A format of one field of a letter. */
  lemma Run(format: string, letter: char, size: nat, f: Flag)
    requires |format| == size + 1 && format[0] == 'b' && IsLetter(letter) && size in {1, 2, 4}
    requires forall i :: 1 <= i <= size ==> format[i] == letter
    ensures Collects(format, f) <==> f == NotVariable || FieldFlag(letter, size, f)
  {
    OneField(letter, size, format[1..], true);
    hide Collects, FieldFlag, Fields;
    OneFieldOnly(format, letter, size, f);
  }

  lemma TwoRuns(format: string, c: char, n: nat, d: char, m: nat, f: Flag)
    requires |format| == 1 + n + m && format[0] == 'b' && n in {1, 2, 4} && m in {1, 2, 4} && m <= n
    requires IsLetter(c) && IsLetter(d) && c != d && IsNative(c) == IsNative(d)
    requires (forall i :: 1 <= i <= n ==> format[i] == c) && forall i :: n < i <= n + m ==> format[i] == d
    ensures Collects(format, f) <==> f == NotVariable || FieldFlag(c, n, f) || FieldFlag(d, m, f)
  {
    TwoFields(c, n, d, m, format[1..]);
    hide Collects, FieldFlag, Fields;
    TwoFieldsOnly(format, Field(c, n), Field(d, m), f);
  }

  /** The formats with padding. */
  lemma PaddedFormats(f: Flag)
    ensures Collects("bi_i", f) <==> f == NotVariable || FieldFlag('i', 1, f)
    ensures Collects("bi_", f) <==> f == NotVariable || FieldFlag('i', 1, f)
    ensures Collects("bJJ__", f) <==> f == NotVariable || FieldFlag('J', 2, f)
    ensures Collects("b_JJ", f) <==> f == NotVariable || FieldFlag('J', 2, f)
  {
    assert "bi_i"[1..] == "i_i" && "i_i"[1..] == "_i" && "_i"[1..] == "i";
    assert "bi_"[1..] == "i_" && "i_"[1..] == "_" && "_"[1..] == "";
    assert "bJJ__"[1..] == "JJ__" && "JJ__"[2..] == "__" && "__"[1..] == "_";
    assert "b_JJ"[1..] == "_JJ" && "_JJ"[1..] == "JJ";
    Padding("_i");
    Padding("_");
    Padding("__");
    Padding("_JJ");
    NothingScanned();
    OneField('i', 1, "i", true);
    OneField('J', 2, "JJ", true);
    hide Fields, Collects, FieldFlag;
    RunOf("i_i", 'i', 1, "_i");
    RunOf("i_", 'i', 1, "_");
    RunOf("JJ__", 'J', 2, "__");
    TwoFieldsOnly("bi_i", Field('i', 1), Field('i', 1), f);
    OneFieldOnly("bi_", 'i', 1, f);
    OneFieldOnly("bJJ__", 'J', 2, f);
    OneFieldOnly("b_JJ", 'J', 2, f);
  }

  // ---------------------------------------------------------------- by opcode

  /** The flags, each with the opcodes that have it. */
  predicate OpcodeFlag(op: int, f: Flag) {
    match f
    case HasC => op in {16, 17, 132, 188, 197}
    case HasI => 21 <= op <= 25 || 54 <= op <= 58 || op in {132, 169, 224, 225, 226, 237}
    case HasK => op in {18, 19, 20, 187, 189, 192, 193, 197}
    case HasO => 153 <= op <= 168 || 198 <= op <= 201
    case HasJ => 178 <= op <= 186 || 203 <= op <= 219 || op in {221, 222, 223, 227, 230, 231, 233, 234, 235}
    case HasNbo => 178 <= op <= 186 || 203 <= op <= 219 || op in {221, 222, 223, 227, 231, 233, 234, 235}
    case HasU2 =>
      || op in {17, 19, 20, 185, 187, 189, 192, 193, 197, 198, 199} || 153 <= op <= 168 || 178 <= op <= 184
      || 203 <= op <= 219 || op in {221, 222, 223, 227, 231, 233, 234, 235}
    case HasU4 => op in {186, 200, 201}
    case NotVariable => op !in {170, 171, 196, 202, 228, 229}
    case NotSimple => op in {170, 171, 196, 202, 228, 229}
    case CanTrap => false
    case CanRewrite => false
  }

  lemma EmptyFormat(f: Flag)
    ensures Collects("", f) <==> f == NotSimple
  {
    NothingScanned();
    assert ""[0..] == "";
  }

  lemma BareFormat(f: Flag)
    ensures Collects("b", f) <==> f == NotVariable
  {
    NothingScanned();
    assert "b"[1..] == "";
    NoField("b", f);
  }

  /** compute_flags collects exactly these from the format of an opcode. */
  lemma FlagsOfOpcodes(op: Byte, f: Flag)
    requires op < NUMBER_OF_CODES
    ensures Collects(FormatOf(op), f) <==> OpcodeFlag(op, f)
  {
    hide Collects;
    EmptyFormat(f);
    BareFormat(f);
    PaddedFormats(f);
    Run("bc", 'c', 1, f);
    Run("bcc", 'c', 2, f);
    Run("bk", 'k', 1, f);
    Run("bkk", 'k', 2, f);
    Run("bi", 'i', 1, f);
    Run("boo", 'o', 2, f);
    Run("boooo", 'o', 4, f);
    Run("bj", 'j', 1, f);
    Run("bJJ", 'J', 2, f);
    Run("bJJJJ", 'J', 4, f);
    TwoRuns("bic", 'i', 1, 'c', 1, f);
    TwoRuns("bkkc", 'k', 2, 'c', 1, f);
  }

  /** The formats behind the prefix wide. */
  lemma WideIndex(f: Flag)
    ensures Prefix("wbii") == 2
    ensures Collects("wbii", f) <==> f in {NotVariable, NotSimple, HasI, HasU2}
  {
    assert "wbii"[2..] == "ii";
    OneField('i', 2, "ii", true);
    OneFieldFlags(Field('i', 2), f);
    hide Contributes, Fields;
  }

  lemma WideIncrement(f: Flag)
    ensures Prefix("wbiicc") == 2
    ensures Collects("wbiicc", f) <==> f in {NotVariable, NotSimple, HasI, HasC, HasU2}
  {
    assert "wbiicc"[2..] == "iicc";
    TwoFields('i', 2, 'c', 2, "iicc");
    OneFieldFlags(Field('i', 2), f);
    OneFieldFlags(Field('c', 2), f);
    OneMoreField([Field('i', 2)], Field('c', 2), f);
    assert [Field('i', 2)] + [Field('c', 2)] == [Field('i', 2), Field('c', 2)];
    hide Contributes, Fields;
  }

  /** The wide formats: those of the loads and stores, ret and iinc. */
  lemma WideFormats(op: Byte, f: Flag)
    ensures HasWide(op) <==> op as int in {21, 22, 23, 24, 25, 54, 55, 56, 57, 58, 132, 169}
    ensures HasWide(op) ==>
      && |WideFormatOf(op)| == (if op == 132 then 6 else 4) && Prefix(WideFormatOf(op)) == 2
      && (Collects(WideFormatOf(op), f) <==> f in {NotVariable, NotSimple, HasI, HasU2} || (f == HasC && op == 132))
  {
    WideIndex(f);
    WideIncrement(f);
    hide Collects, Prefix;
  }

  /** The flags word of an opcode in the table, for the flags that def adds. */
  method FlagsInTable(op: Byte, added: set<Flag>) returns (r: Scan)
    requires op < NUMBER_OF_CODES
    ensures r.Flags? && forall f :: f in r.flags <==> f in added || OpcodeFlag(op, f)
  {
    TableIsAccepted(op);
    r := ComputeFlags(FormatOf(op), added);
    forall f: Flag ensures Collects(FormatOf(op), f) <==> OpcodeFlag(op, f) {
      FlagsOfOpcodes(op, f);
    }
    hide FormatOf, OpcodeFlag, Accepted;
  }
}
