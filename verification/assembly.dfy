/** The whole assembler, `parser` (main.py lines 545-550) without its output:
    the source text is normalised, the first pass builds the symbol and
    operation tables from the empty state, and the second pass writes the
    image.
 */
module Assembly {
  import opened Failures
  import opened Text
  import opened Syntax
  import opened Normaliser
  import opened Machine
  import opened FirstPass
  import opened SecondPass

  /** The image and symbol table the assembler ends with, or the failure
      that stopped it. */
  function Assemble(code: string): (r: Result<Assembler>)
    ensures r.Ok? ==> |r.value.rom| == RomSize
  {
    var p :- PassOne(Normalise(code), Initial());
    PassTwo(p.ops, p.state)
  }

  /** After a successful run the symbol table binds exactly the labels the
      source defines. */
  lemma AssembledLabels(code: string)
    requires Assemble(code).Ok?
    ensures Assemble(code).value.symtab.Keys == DefinedLabels(Normalise(code))
  {
    PassOneLabels(Normalise(code), Initial());
  }

  /** A label defined on two source lines stops the assembler. */
  lemma DuplicateLabelStops(code: string, i: nat, j: nat)
    requires var lines := Normalise(code);
      i < j < |lines| && LabelDef(lines[i].text).Some? && LabelDef(lines[i].text) == LabelDef(lines[j].text)
    ensures Assemble(code).Fail?
  {
    LabelDefinedTwiceFails(Normalise(code), Initial(), i, j);
  }

  /** The symbol table the assembler ends with is the one the first pass
      built: the second pass binds nothing. */
  lemma AssembledSymbols(code: string)
    requires Assemble(code).Ok?
    ensures PassOne(Normalise(code), Initial()).Ok?
    ensures Assemble(code).value.symtab == PassOne(Normalise(code), Initial()).value.state.symtab
  {
  }

  /** Every label is bound to the target of the last `ORG` above its
      definition, or to 0 when there is none: no label ever gets the
      address of the instruction after it unless an `ORG` put it there. */
  lemma LabelsAreOrgTargets(code: string, i: nat)
    requires Assemble(code).Ok? && i < |Normalise(code)| && LabelDef(Normalise(code)[i].text).Some?
    ensures var lines := Normalise(code); var n := LabelDef(lines[i].text).value;
      && PassOne(lines[..i], Initial()).Ok?
      && n in Assemble(code).value.symtab
      && Assemble(code).value.symtab[n] == LastOrg(PassOne(lines[..i], Initial()).value.ops, 0)
  {
    var lines := Normalise(code);
    AssembledSymbols(code);
    LabelAddress(lines, Initial(), i);
  }

  /** Operands are upper-cased but label definitions are not: a label with a
      lower-case letter can never be the operand of an instruction, so a
      jump to it fails with `LabelNotFound` unless the upper-case name is
      also defined. */
  lemma LowerCaseLabelsAreUnreachable(code: string, name: string)
    requires exists c :: c in name && IsLower(c)
    requires PassOne(Normalise(code), Initial()).Ok?
    ensures forall op :: op in PassOne(Normalise(code), Initial()).value.ops ==> name !in op.args
  {
    var lines := Normalise(code);
    var ops := PassOne(lines, Initial()).value.ops;
    var ins := InstructionLines(lines);
    PassOneOps(lines, Initial());
    forall k | 0 <= k < |ops|
      ensures name !in ops[k].args
    {
      OperandsAreUpperCase(ins[k]);
    }
  }

  /** A rotate written without an operand reaches the second pass with the
      operand list `[""]`, so it fails as an instruction error and never
      with `IndexError`. */
  lemma BareRotate(s: Assembler, n: nat)
    ensures LineOp(Line(n, "RR")) == Ok(Op(n, "RR", [""]))
    ensures Encode(s, Op(n, "RR", [""])) == Fail(InstructionError(n))
  {
    BareRotateParses(n);
    BareRotateFails(s, n);
  }

  /** A bare `RR` line splits into the mnemonic and one empty operand. */
  lemma BareRotateParses(n: nat)
    ensures LineOp(Line(n, "RR")) == Ok(Op(n, "RR", [""]))
  {
    var t := "RR";
    assert LStrip(t) == t;
    assert WordLength(t) == 2 by {
      assert t[1..] == "R" && "R"[1..] == "";
    }
    assert SplitWords(t) == [t] by {
      assert t[..2] == t && t[2..] == "";
    }
    assert ToUpper(t) == t;
    assert SplitOn("", ',') == [""];
  }

  /** `RR` with the empty operand is not `RR A`. */
  lemma BareRotateFails(s: Assembler, n: nat)
    ensures Encode(s, Op(n, "RR", [""])) == Fail(InstructionError(n))
  {
    var op := Op(n, "RR", [""]);
    assert Encode(s, op) == Rotate(op, 0x03);
  }

  /** `ORG 100H` followed by `NOP` writes 0x01 at 0x100 and nothing else. */
  lemma OrgThenNop()
    ensures var r := PassTwo([Op(1, "ORG", ["100H"]), Op(2, "NOP", [""])], Initial());
      && r.Ok?
      && r.value.locctr == 0x101
      && r.value.rom[0x100] == 0x01
      && forall k :: 0 <= k < RomSize && k != 0x100 ==> r.value.rom[k] == 0
  {
    var org := Op(1, "ORG", ["100H"]);
    var nop := Op(2, "NOP", [""]);
    var ops := [org, nop];
    assert ops[..1] == [org] && [org][..0] == [];
    assert "100H"[..3] == "100";
    assert Hex("100H") == Some("100");
    assert Numerals.Numeral("100", 16) == 0x100 by {
      assert "100"[..2] == "10" && "10"[..1] == "1" && "1"[..0] == "";
    }
    var s0 := Initial().(locctr := 0);
    var s1 := s0.(locctr := 0x100);
    assert Run([org], s0) == Ok(s1);
    assert Encode(s1, nop) == Ok([0x01]);
    var w := WriteRom(s1, [0x01]);
    assert Step(s1, nop) == w;
    assert Run(ops, s0) == w;
  }
}
