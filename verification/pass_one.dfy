/** The first pass `pass_1st` (main.py lines 220-242): label definitions are
    bound in the symbol table, every other line becomes an entry of the
    operation table, and `ORG` moves the location counter. Nothing else moves
    it: the first pass does not count instruction sizes, so every label is
    bound to the address of the last `ORG` before it.
 */
module FirstPass {
  import opened Failures
  import opened Text
  import opened Syntax
  import opened Operands
  import opened Normaliser
  import opened Machine

  /** The parts of a line that is not a label definition: `ll.split()`, the
      first word upper-cased as mnemonic, the other words glued together,
      upper-cased, cleared of blanks and tabs and split at commas. A line
      without words has no `instruction[0]`. */
  function LineOp(line: Line): (r: Result<Op>)
    ensures r.Fail? <==> forall i :: 0 <= i < |line.text| ==> IsSpace(line.text[i])
    ensures r.Fail? ==> r.failure == IndexError
    ensures r.Ok? ==> r.value.line == line.number && r.value.mnemonic != [] && |r.value.args| >= 1
    ensures r.Ok? ==> NoLower(r.value.mnemonic) && NoSpace(r.value.mnemonic)
    ensures r.Ok? ==> forall k :: 0 <= k < |r.value.args| ==> ',' !in r.value.args[k]
  {
    var words := SplitWords(line.text);
    var t := LStrip(line.text);
    if t == [] then
      Fail(IndexError)
    else
      assert !IsSpace(t[0]) && t[0] == line.text[|line.text| - |t|];
      var first := words[0];
      Ok(Op(line.number, ToUpper(first), SplitOn(Without(Without(ToUpper(Concat(words[1..])), ' '), '\t'), ',')))
  }

  /** Upper-casing does not touch whitespace. */
  lemma ToUpperKeepsSpace(s: string)
    ensures forall i :: 0 <= i < |s| ==> (IsSpace(ToUpper(s)[i]) <==> IsSpace(s[i]))
  {
  }

  lemma {:induction false} WithoutAbsent(s: string, c: char)
    requires c !in s
    ensures Without(s, c) == s
    decreases |s|
  {
    if s != [] {
      WithoutAbsent(s[1..], c);
    }
  }

  lemma {:induction false} NonSpaceHasNoSpace(s: string)
    ensures NoSpace(NonSpace(s))
    decreases |s|
  {
    if s != [] {
      NonSpaceHasNoSpace(s[1..]);
    }
  }

  /** Removing blanks and tabs from an upper-cased string without whitespace
      changes nothing. */
  lemma UpperWithoutBlanks(s: string)
    requires NoSpace(s)
    ensures Without(Without(ToUpper(s), ' '), '\t') == ToUpper(s)
  {
    var u := ToUpper(s);
    ToUpperKeepsSpace(s);
    assert forall i :: 0 <= i < |u| ==> !IsSpace(u[i]);
    assert ' ' !in u;
    assert '\t' !in u;
    WithoutAbsent(u, ' ');
    WithoutAbsent(u, '\t');
  }

  /** The words after the first word of `s`. */
  lemma SplitWordsTail(s: string)
    requires LStrip(s) != []
    ensures var t := LStrip(s); var k := WordLength(t);
      && SplitWords(s)[0] == t[..k]
      && SplitWords(s)[1..] == SplitWords(t[k..])
  {
    var t := LStrip(s);
    var k := WordLength(t);
    assert SplitWords(s) == [t[..k]] + SplitWords(t[k..]);
  }

  /** What an instruction line means: the mnemonic is the first word of the
      line, upper-cased, and the operands joined by commas give back the rest
      of the line, upper-cased, with all whitespace removed. */
  lemma LineOpReadsLine(line: Line)
    requires LineOp(line).Ok?
    ensures var t := LStrip(line.text); var k := WordLength(t); var op := LineOp(line).value;
      && op.mnemonic == ToUpper(t[..k])
      && JoinWith(op.args, ',') == ToUpper(NonSpace(t[k..]))
  {
    var t := LStrip(line.text);
    var k := WordLength(t);
    SplitWordsTail(line.text);
    SplitWordsConcat(t[k..]);
    NonSpaceHasNoSpace(t[k..]);
    UpperWithoutBlanks(NonSpace(t[k..]));
  }

  /** The operands are upper-cased like the mnemonic. */
  lemma OperandsAreUpperCase(line: Line)
    requires LineOp(line).Ok?
    ensures forall k :: 0 <= k < |LineOp(line).value.args| ==> NoLower(LineOp(line).value.args[k])
  {
    var words := SplitWords(line.text);
    var u := ToUpper(Concat(words[1..]));
    WithoutKeepsNoLower(u, ' ');
    WithoutKeepsNoLower(Without(u, ' '), '\t');
    SplitOnKeepsNoLower(Without(Without(u, ' '), '\t'), ',');
  }

  /** `ORG` in either pass: exactly one operand, a hexadecimal or decimal
      literal, which becomes the location counter; anything else is an
      error of the instruction. */
  function Org(s: Assembler, op: Op): (r: Result<Assembler>)
    ensures r.Ok? <==> |op.args| == 1 && Literal(op.args[0]).Some?
    ensures r.Fail? ==> r.failure == InstructionError(op.line)
    ensures r.Ok? ==> r.value.rom == s.rom && r.value.symtab == s.symtab
    ensures r.Ok? ==> r.value.locctr == Literal(op.args[0]).value
  {
    if |op.args| != 1 then Fail(InstructionError(op.line)) else
    match Literal(op.args[0])
    case Some(n) => Ok(s.(locctr := n))
    case None => Fail(InstructionError(op.line))
  }

  /** `ORG nnnH` with the hexadecimal digits of `n`, or `ORG nnn` with its
      decimal digits, moves the location counter to `n` and changes nothing
      else. */
  lemma OrgRoundTrip(s: Assembler, line: nat, n: nat)
    ensures Org(s, Op(line, "ORG", [Numerals.Digits(n, 16) + "H"])) == Ok(s.(locctr := n))
    ensures Org(s, Op(line, "ORG", [Numerals.Digits(n, 10)])) == Ok(s.(locctr := n))
  {
    HexLiteralRoundTrip(n);
    DecLiteralRoundTrip(n);
  }

  /** The operation table built so far and the assembler state. */
  datatype FirstPass = FirstPass(ops: seq<Op>, state: Assembler)

  /** One iteration of the loop of `pass_1st`. A label definition binds the
      label and the rest of its line is ignored; any other line is entered
      in the operation table and, for `ORG`, sets the location counter. */
  function Scan(p: FirstPass, line: Line): (r: Result<FirstPass>)
    ensures r.Ok? ==> r.value.state.rom == p.state.rom
    ensures r.Ok? ==> p.state.symtab.Keys <= r.value.state.symtab.Keys
    ensures r.Ok? ==> forall n :: n in p.state.symtab ==> r.value.state.symtab[n] == p.state.symtab[n]
  {
    match LabelDef(line.text)
    case Some(name) =>
      var s :- MarkLabel(p.state, name);
      Ok(FirstPass(p.ops, s))
    case None =>
      var op :- LineOp(line);
      if op.mnemonic == "ORG" then
        var s :- Org(p.state, op);
        Ok(FirstPass(p.ops + [op], s))
      else
        Ok(FirstPass(p.ops + [op], p.state))
  }

  /** `pass_1st(asm_code)` from the state `init`: the lines in order, the
      first failure ending the pass. The image is never written, and labels
      already bound keep their addresses. */
  function PassOne(lines: seq<Line>, init: Assembler): (r: Result<FirstPass>)
    ensures r.Ok? ==> r.value.state.rom == init.rom
    ensures r.Ok? ==> init.symtab.Keys <= r.value.state.symtab.Keys
    ensures r.Ok? ==> forall n :: n in init.symtab ==> r.value.state.symtab[n] == init.symtab[n]
    decreases |lines|
  {
    if lines == [] then Ok(FirstPass([], init))
    else
      var prev :- PassOne(lines[..|lines| - 1], init);
      Scan(prev, lines[|lines| - 1])
  }

  // ---------------------------------------------------------------------
  // Reference definitions the pass is compared with.

  /** The lines that are not label definitions, in order. */
  function InstructionLines(lines: seq<Line>): seq<Line>
  {
    if lines == [] then []
    else (if LabelDef(lines[0].text).Some? then [] else [lines[0]]) + InstructionLines(lines[1..])
  }

  /** The labels the lines define. */
  function DefinedLabels(lines: seq<Line>): set<string>
  {
    set i | 0 <= i < |lines| && LabelDef(lines[i].text).Some? :: LabelDef(lines[i].text).value
  }

  /** The address an operation moves the location counter to, if it is an
      `ORG` with a well-formed operand. */
  function OrgTarget(op: Op): Option<nat>
  {
    if op.mnemonic == "ORG" && |op.args| == 1 then Literal(op.args[0]) else None
  }

  /** The target of the last `ORG` in `ops`, or `start` when there is none. */
  function LastOrg(ops: seq<Op>, start: nat): nat
  {
    if ops == [] then start
    else
      match OrgTarget(ops[|ops| - 1])
      case Some(n) => n
      case None => LastOrg(ops[..|ops| - 1], start)
  }

  lemma {:induction false} InstructionLinesAppend(a: seq<Line>, x: Line)
    ensures InstructionLines(a + [x]) == InstructionLines(a) + (if LabelDef(x.text).Some? then [] else [x])
    decreases |a|
  {
    if a == [] {
      assert [x][1..] == [];
    } else {
      assert (a + [x])[0] == a[0];
      assert (a + [x])[1..] == a[1..] + [x];
      InstructionLinesAppend(a[1..], x);
    }
  }

  lemma SplitLast<T>(s: seq<T>)
    requires s != []
    ensures s[..|s| - 1] + [s[|s| - 1]] == s
  {
  }

  lemma InstructionLinesLast(lines: seq<Line>)
    requires lines != []
    ensures var x := lines[|lines| - 1];
      InstructionLines(lines) == InstructionLines(lines[..|lines| - 1]) + (if LabelDef(x.text).Some? then [] else [x])
  {
    var init, x := lines[..|lines| - 1], lines[|lines| - 1];
    SplitLast(lines);
    InstructionLinesAppend(init, x);
  }

  // ---------------------------------------------------------------------
  // Properties of the first pass.

  /** One step of the pass: what it adds to the operation table, where it
      leaves the location counter, and which label it binds. */
  lemma ScanEffect(p: FirstPass, x: Line)
    requires Scan(p, x).Ok?
    ensures var r := Scan(p, x).value;
      match LabelDef(x.text)
      case Some(n) =>
        && r.ops == p.ops
        && r.state.locctr == p.state.locctr
        && n !in p.state.symtab
        && r.state.symtab.Keys == p.state.symtab.Keys + {n}
        && r.state.symtab[n] == p.state.locctr
      case None =>
        && LineOp(x).Ok?
        && r.ops == p.ops + [LineOp(x).value]
        && r.state.locctr == (match OrgTarget(LineOp(x).value) case Some(a) => a case None => p.state.locctr)
        && r.state.symtab == p.state.symtab
  {
    match LabelDef(x.text)
    case Some(n) =>
      assert MarkLabel(p.state, n).Ok?;
    case None =>
      var op := LineOp(x).value;
      if op.mnemonic == "ORG" {
        assert Org(p.state, op).Ok?;
      }
  }

  /** The pass on a non-empty list is the pass on all but the last line,
      followed by one step. */
  lemma PassOneLast(lines: seq<Line>, init: Assembler)
    requires lines != [] && PassOne(lines, init).Ok?
    ensures PassOne(lines[..|lines| - 1], init).Ok?
    ensures Scan(PassOne(lines[..|lines| - 1], init).value, lines[|lines| - 1]) == PassOne(lines, init)
  {
  }

  /** The operation table holds one entry per instruction line, in order,
      each the parts LineOp reads from that line. */
  lemma {:induction false} PassOneOps(lines: seq<Line>, init: Assembler)
    requires PassOne(lines, init).Ok?
    ensures var ops := PassOne(lines, init).value.ops; var ins := InstructionLines(lines);
      |ops| == |ins| && forall k :: 0 <= k < |ops| ==> LineOp(ins[k]) == Ok(ops[k])
    decreases |lines|
  {
    if lines != [] {
      var front := lines[..|lines| - 1];
      var x := lines[|lines| - 1];
      PassOneLast(lines, init);
      PassOneOps(front, init);
      var p := PassOne(front, init).value;
      ScanEffect(p, x);
      InstructionLinesLast(lines);
      var ops := PassOne(lines, init).value.ops;
      var ins := InstructionLines(lines);
      if LabelDef(x.text).None? {
        assert ops == p.ops + [LineOp(x).value];
        assert ins == InstructionLines(front) + [x];
        forall k | 0 <= k < |ops|
          ensures LineOp(ins[k]) == Ok(ops[k])
        {
          if k < |p.ops| {
            assert ops[k] == p.ops[k] && ins[k] == InstructionLines(front)[k];
          }
        }
      }
    }
  }

  /** The first pass never advances the location counter past an
      instruction: at the end it is the target of the last `ORG`. */
  lemma {:induction false} PassOneLocation(lines: seq<Line>, init: Assembler)
    requires PassOne(lines, init).Ok?
    ensures PassOne(lines, init).value.state.locctr == LastOrg(PassOne(lines, init).value.ops, init.locctr)
    decreases |lines|
  {
    if lines != [] {
      var front := lines[..|lines| - 1];
      var x := lines[|lines| - 1];
      PassOneLast(lines, init);
      var p := PassOne(front, init).value;
      var r := PassOne(lines, init).value;
      PassOneLocation(front, init);
      ScanEffect(p, x);
      if LabelDef(x.text).None? {
        assert r.ops[..|r.ops| - 1] == p.ops;
      }
    }
  }

  /** A successful pass succeeds on every prefix of its lines, and each
      prefix's symbol table is part of the final one. */
  lemma {:induction false} PassOnePrefix(lines: seq<Line>, init: Assembler, i: nat)
    requires PassOne(lines, init).Ok? && i <= |lines|
    ensures PassOne(lines[..i], init).Ok?
    ensures var p := PassOne(lines[..i], init).value.state.symtab; var r := PassOne(lines, init).value.state.symtab;
      p.Keys <= r.Keys && forall n :: n in p ==> r[n] == p[n]
    decreases |lines| - i
  {
    if i < |lines| {
      var front := lines[..|lines| - 1];
      assert front[..i] == lines[..i];
      PassOnePrefix(front, init, i);
    } else {
      assert lines[..i] == lines;
    }
  }

  /** A label is bound to the location counter at its definition, which is
      the target of the last `ORG` above it; it was not bound before. */
  lemma LabelAddress(lines: seq<Line>, init: Assembler, i: nat)
    requires PassOne(lines, init).Ok? && i < |lines| && LabelDef(lines[i].text).Some?
    ensures PassOne(lines[..i], init).Ok?
    ensures var n := LabelDef(lines[i].text).value; var p := PassOne(lines[..i], init).value;
      var symtab := PassOne(lines, init).value.state.symtab;
      && n !in p.state.symtab
      && n in symtab
      && symtab[n] == LastOrg(p.ops, init.locctr)
  {
    PassOnePrefix(lines, init, i + 1);
    PassOnePrefix(lines, init, i);
    assert lines[..i + 1][..i] == lines[..i];
    PassOneLocation(lines[..i], init);
  }

  /** A label defined twice makes the pass fail. */
  lemma LabelDefinedTwiceFails(lines: seq<Line>, init: Assembler, i: nat, j: nat)
    requires i < j < |lines|
    requires LabelDef(lines[i].text).Some? && LabelDef(lines[i].text) == LabelDef(lines[j].text)
    ensures PassOne(lines, init).Fail?
  {
    if PassOne(lines, init).Ok? {
      var n := LabelDef(lines[i].text).value;
      LabelAddress(lines, init, j);
      var front := lines[..j];
      assert front[i] == lines[i];
      LabelAddress(front, init, i);
    }
  }

  /** Defining a label that `init` already binds makes the pass fail. */
  lemma LabelAlreadyBoundFails(lines: seq<Line>, init: Assembler, i: nat)
    requires i < |lines| && LabelDef(lines[i].text).Some? && LabelDef(lines[i].text).value in init.symtab
    ensures PassOne(lines, init).Fail?
  {
    if PassOne(lines, init).Ok? {
      LabelAddress(lines, init, i);
    }
  }

  /** After the pass the symbol table binds exactly the labels of `init` and
      the labels the lines define. */
  lemma {:induction false} PassOneLabels(lines: seq<Line>, init: Assembler)
    requires PassOne(lines, init).Ok?
    ensures PassOne(lines, init).value.state.symtab.Keys == init.symtab.Keys + DefinedLabels(lines)
    decreases |lines|
  {
    if lines != [] {
      var front := lines[..|lines| - 1];
      var x := lines[|lines| - 1];
      PassOneLast(lines, init);
      PassOneLabels(front, init);
      ScanEffect(PassOne(front, init).value, x);
      DefinedLabelsLast(lines);
    }
  }

  lemma DefinedLabelsLast(lines: seq<Line>)
    requires lines != []
    ensures var x := lines[|lines| - 1];
      DefinedLabels(lines) == DefinedLabels(lines[..|lines| - 1]) + (if LabelDef(x.text).Some? then {LabelDef(x.text).value} else {})
  {
    var front := lines[..|lines| - 1];
    assert forall k :: 0 <= k < |front| ==> lines[k] == front[k];
  }

  /** The lines the normaliser produces all have a first word, so the first
      pass never fails on `instruction[0]`. */
  lemma NormalisedLinesParse(code: string)
    ensures forall j :: 0 <= j < |Normalise(code)| ==> LineOp(Normalise(code)[j]).Ok?
  {
    NormalisedLinesAreClean(code);
  }
}
