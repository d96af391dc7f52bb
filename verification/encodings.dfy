/** What the second pass emits, compared with the opcode map of the MCS-51
    (Intel's "MCS-51 Microcontroller Family User's Manual", instruction set
    table): for each operand the programmer can spell, the bytes the
    encoder writes; and for the jumps, how the target address can be read
    back from the bytes the encoder writes.
 */
module Encodings {
  import opened Failures
  import opened Text
  import opened Numerals
  import opened Registers
  import opened Syntax
  import opened Operands
  import opened Machine
  import opened SecondPass

  /** An operand as the programmer means it. */
  datatype Operand =
    | AtR(i: nat)                    // @Ri
    | Rn(n: nat)                     // Rn
    | Named(name: string)            // a register of the special-function table
    | Address(d: nat, hex: bool)     // a direct address, written `nnH` or `nn`
    | Imm(v: nat, hex: bool)         // an immediate value, written `#nnH` or `#nn`

  /** The registers the MCS-51 has: @R0, @R1, R0-R7 and the named registers. */
  predicate Valid(o: Operand) {
    match o
    case AtR(i) => i <= 1
    case Rn(n) => n <= 7
    case Named(name) => name in Sfrs
    case _ => true
  }

  /** How the operand is written in the source. */
  function Spell(o: Operand): string
    requires o.AtR? ==> o.i < 10
    requires o.Rn? ==> o.n < 10
  {
    match o
    case AtR(i) => "@R" + [DigitChar(i)]
    case Rn(n) => "R" + [DigitChar(n)]
    case Named(name) => name
    case Address(d, hex) => if hex then Digits(d, 16) + "H" else Digits(d, 10)
    case Imm(v, hex) => "#" + (if hex then Digits(v, 16) + "H" else Digits(v, 10))
  }

  /** No register name of the table looks like a register `R<n>`, an
      indirect register, a literal or an immediate. */
  lemma SfrNamesStartWithLetters()
    ensures forall k :: k in Sfrs ==> |k| >= 1 && k[0] != '@' && k[0] != 'R' && k[0] != '#' && !IsDigit(k[0])
  {
  }

  /** The only name of the table ending in `H` is `DPH`, which is not a
      hexadecimal literal. */
  lemma SfrNamesAreNotHex()
    ensures forall k :: k in Sfrs ==> Hex(k).None?
  {
    assert forall k :: k in Sfrs && |k| >= 2 && k[|k| - 1] == 'H' ==> k == "DPH";
    assert Hex("DPH").None? by {
      assert !IsHexDigit("DPH"[1]);
      assert !AllHexDigits("DPH"[..2]);
    }
  }

  /** The opcode map of the MCS-51 for the rows of `INC` (row 0), `DEC` (1),
      `ADD` (2), `ADDC` (3), `ORL` (4) and `ANL` (5): column 4 takes an
      immediate value, column 5 a direct address, columns 6-7 `@R0`-`@R1`
      and columns 8-F `R0`-`R7`. */
  function OpcodeMap(row: nat, o: Operand): seq<int>
    requires o.Named? ==> o.name in Sfrs
  {
    match o
    case Imm(v, _) => [row * 16 + 4, v]
    case Address(d, _) => [row * 16 + 5, d]
    case Named(name) => [row * 16 + 5, Sfrs[name]]
    case AtR(i) => [row * 16 + 6 + i]
    case Rn(n) => [row * 16 + 8 + n]
  }

  lemma SourceAtR(i: nat, base: int, line: nat, immediate: bool)
    requires i < 10
    ensures Source(Spell(AtR(i)), base, line, immediate) == Ok([base + 2 + i])
  {
    var x := Spell(AtR(i));
    assert x[..2] == "@R" && x[2] == DigitChar(i);
  }

  lemma SourceRn(n: nat, base: int, line: nat, immediate: bool)
    requires n < 10
    ensures Source(Spell(Rn(n)), base, line, immediate) == Ok([base + 4 + n])
  {
    var x := Spell(Rn(n));
    assert x[0] == 'R' && x[1] == DigitChar(n);
  }

  lemma SourceNamed(name: string, base: int, line: nat, immediate: bool)
    requires name in Sfrs
    ensures Source(Spell(Named(name)), base, line, immediate) == Ok([base + 1, Sfrs[name]])
  {
    assert |name| >= 1 && name[0] != '@' && name[0] != 'R' by {
      SfrNamesStartWithLetters();
    }
    NotRegister(name);
    assert Direct(name) == Some(Sfrs[name]);
  }

  /** A token that starts with neither `@` nor `R` is not a register. */
  lemma NotRegister(x: string)
    requires |x| >= 1 && x[0] != '@' && x[0] != 'R'
    ensures Register(x, true).None? && Register(x, false).None?
  {
    assert |x| >= 2 ==> x[..2][0] == x[0];
  }

  /** A literal is neither a register nor a register name. */
  lemma HexLiteralIsDirect(d: nat)
    ensures var x := Digits(d, 16) + "H";
      Register(x, true).None? && Register(x, false).None? && Direct(x) == Some(d)
  {
    var g := Digits(d, 16);
    var x := g + "H";
    assert x[0] == g[0] && IsHexDigit(g[0]);
    NotRegister(x);
    HexLiteralRoundTrip(d);
    assert x !in Sfrs by {
      assert Hex(x).Some?;
      SfrNamesAreNotHex();
    }
  }

  lemma DecLiteralIsDirect(d: nat)
    ensures var x := Digits(d, 10);
      Register(x, true).None? && Register(x, false).None? && Direct(x) == Some(d)
  {
    var x := Digits(d, 10);
    assert IsDigit(x[0]);
    NotRegister(x);
    assert x !in Sfrs by {
      SfrNamesStartWithLetters();
    }
    DecLiteralRoundTrip(d);
  }

  lemma LiteralIsDirect(d: nat, hex: bool)
    ensures var x := Spell(Address(d, hex));
      Register(x, true).None? && Register(x, false).None? && Direct(x) == Some(d)
  {
    if hex {
      HexLiteralIsDirect(d);
    } else {
      DecLiteralIsDirect(d);
    }
  }

  lemma SourceAddress(d: nat, hex: bool, base: int, line: nat, immediate: bool)
    ensures Source(Spell(Address(d, hex)), base, line, immediate) == Ok([base + 1, d])
  {
    LiteralIsDirect(d, hex);
  }

  /** A token starting with `#` is neither a register, a register name nor
      a literal. */
  lemma HashIsNotDirect(x: string)
    requires |x| >= 1 && x[0] == '#'
    ensures Register(x, true).None? && Register(x, false).None? && Direct(x).None?
  {
    NotRegister(x);
    assert x !in Sfrs by {
      SfrNamesStartWithLetters();
    }
    assert Hex(x).None? by {
      if |x| >= 2 {
        assert x[..|x| - 1][0] == '#';
      }
    }
    assert Dec(x).None?;
  }

  /** An immediate is neither a register, a register name nor a literal. */
  lemma ImmediateIsNotDirect(v: nat, hex: bool)
    ensures var x := Spell(Imm(v, hex));
      Register(x, true).None? && Register(x, false).None? && Direct(x).None? && Operands.Immediate(x) == Some(v)
  {
    var x := Spell(Imm(v, hex));
    HashIsNotDirect(x);
    if hex {
      ImmHexRoundTrip(v);
    } else {
      ImmDecRoundTrip(v);
    }
  }

  lemma SourceImm(v: nat, hex: bool, base: int, line: nat, immediate: bool)
    ensures Source(Spell(Imm(v, hex)), base, line, immediate) == if immediate then Ok([base, v]) else Fail(InstructionError(line))
  {
    ImmediateIsNotDirect(v, hex);
  }

  /** A spelled operand is recognised for what it is: a register by its
      number, a register name by its address, a literal by its value and an
      immediate by its value (where immediates are allowed). Only the number
      of a register is not checked against the registers the MCS-51 has. */
  lemma SourceReadsOperand(o: Operand, base: int, line: nat, immediate: bool)
    requires o.AtR? ==> o.i < 10
    requires o.Rn? ==> o.n < 10
    requires o.Named? ==> o.name in Sfrs
    ensures Source(Spell(o), base, line, immediate) ==
      match o
      case AtR(i) => Ok([base + 2 + i])
      case Rn(n) => Ok([base + 4 + n])
      case Named(name) => Ok([base + 1, Sfrs[name]])
      case Address(d, _) => Ok([base + 1, d])
      case Imm(v, _) => if immediate then Ok([base, v]) else Fail(InstructionError(line))
  {
    match o
    case AtR(i) => SourceAtR(i, base, line, immediate);
    case Rn(n) => SourceRn(n, base, line, immediate);
    case Named(name) => SourceNamed(name, base, line, immediate);
    case Address(d, hex) => SourceAddress(d, hex, base, line, immediate);
    case Imm(v, hex) => SourceImm(v, hex, base, line, immediate);
  }

  /** Spellings outside the canonical ones: a literal with leading zeros is
      read by value, a register token is read on its first digit whatever
      follows it, and a token no recogniser knows is an instruction error. */
  lemma SourceSpellings()
    ensures Source("0FFH", 0x24, 1, true) == Ok([0x25, 0xFF])
    ensures Source("007", 0x24, 1, true) == Ok([0x25, 7])
    ensures Source("R0X", 0x24, 1, true) == Ok([0x28])
    ensures Source("FOO", 0x24, 1, true) == Fail(InstructionError(1))
  {
    PaddedHex();
    PaddedDec();
    TrailingRegister();
    UnknownOperand();
  }

  lemma PaddedHex()
    ensures Source("0FFH", 0x24, 1, true) == Ok([0x25, 0xFF])
  {
    var x := "0FFH";
    NotRegister(x);
    assert x !in Sfrs;
    assert x[..3] == "0FF" && "0FF"[..2] == "0F" && "0F"[..1] == "0" && "0"[..0] == "";
    assert Hex(x) == Some("0FF");
    assert Numeral("0FF", 16) == 0xFF;
    assert Literal(x) == Some(0xFF);
  }

  lemma PaddedDec()
    ensures Source("007", 0x24, 1, true) == Ok([0x25, 7])
  {
    var x := "007";
    NotRegister(x);
    assert x !in Sfrs;
    assert x[|x| - 1] != 'H';
    assert Hex(x).None?;
    assert x[..2] == "00" && "00"[..1] == "0" && "0"[..0] == "";
    assert Dec(x).Some?;
    assert Numeral(x, 10) == 7;
    assert Literal(x) == Some(7);
  }

  lemma TrailingRegister()
    ensures Source("R0X", 0x24, 1, true) == Ok([0x28])
  {
    var x := "R0X";
    assert x[..2] == "R0";
    assert Register(x, true).None?;
    assert Register(x, false) == Some(Ok(0));
  }

  lemma UnknownOperand()
    ensures Source("FOO", 0x24, 1, true) == Fail(InstructionError(1))
  {
    var x := "FOO";
    NotRegister(x);
    assert x !in Sfrs;
    assert x[|x| - 1] != 'H' && !IsDigit(x[0]);
    assert Hex(x).None? && Dec(x).None?;
    assert x[0] != '#';
    assert ImmHex(x).None? && ImmDec(x).None?;
  }

  // ---------------------------------------------------------------------
  // Register, arithmetic and logical instructions.

  /** The row of the opcode map of an arithmetic or logical instruction. */
  function ArithmeticRow(m: string): nat
  {
    if m == "ADD" then 2 else if m == "ADDC" then 3 else if m == "ORL" then 4 else 5
  }

  /** `ADD`, `ADDC`, `ORL` and `ANL` with `A` and a register, direct or
      immediate operand encode as the opcode map says. */
  lemma AccumulatorForms(s: Assembler, line: nat, m: string, o: Operand)
    requires m in {"ADD", "ADDC", "ORL", "ANL"} && Valid(o)
    ensures Encode(s, Op(line, m, ["A", Spell(o)])) == Ok(OpcodeMap(ArithmeticRow(m), o))
  {
    var base := ArithmeticRow(m) * 16 + 4;
    var op := Op(line, m, ["A", Spell(o)]);
    assert Encode(s, op) == Source(Spell(o), base, line, true) by {
      if m == "ADD" || m == "ADDC" {
        EncodeAccumulator(s, op);
      } else {
        EncodeLogical(s, op);
      }
    }
    assert Source(Spell(o), base, line, true) == Ok(OpcodeMap(ArithmeticRow(m), o)) by {
      SourceReadsOperand(o, base, line, true);
      match o
      case AtR(i) =>
      case Rn(n) =>
      case Named(name) =>
      case Address(d, _) =>
      case Imm(v, _) =>
    }
  }

  lemma EncodeAccumulator(s: Assembler, op: Op)
    requires op.mnemonic in {"ADD", "ADDC"} && |op.args| == 2
    ensures Encode(s, op) == Accumulator(op, ArithmeticRow(op.mnemonic) * 16 + 4)
  {
  }

  lemma EncodeIncDec(s: Assembler, op: Op, inc: bool)
    requires op.mnemonic == if inc then "INC" else "DEC"
    ensures Encode(s, op) == IncDec(op, if inc then 4 else 20, inc)
  {
  }

  /** `INC` and `DEC` with a register or direct operand encode as the opcode
      map says; an immediate operand is an error. */
  lemma IncDecForms(s: Assembler, line: nat, inc: bool, o: Operand)
    requires Valid(o) && o != Named("A")
    ensures Encode(s, Op(line, if inc then "INC" else "DEC", [Spell(o)])) ==
      if o.Imm? then Fail(InstructionError(line)) else Ok(OpcodeMap(if inc then 0 else 1, o))
  {
    var x := Spell(o);
    assert x != "A" && x != "DLOCCTR" by {
      match o
      case Named(name) =>
        assert "DLOCCTR" !in Sfrs;
      case Address(d, hex) =>
        LiteralIsNotA(d, hex);
      case AtR(i) =>
        assert x[0] == '@';
      case Rn(n) =>
        assert x[0] == 'R';
      case Imm(v, vhex) =>
        assert x[0] == '#';
    }
    var base := if inc then 4 else 20;
    var op := Op(line, if inc then "INC" else "DEC", [x]);
    assert Encode(s, op) == Source(x, base, line, false) by {
      EncodeIncDec(s, op, inc);
      assert IncDec(op, base, inc) == Source(x, base, line, false);
    }
    assert Source(x, base, line, false) ==
      (if o.Imm? then Fail(InstructionError(line)) else Ok(OpcodeMap(if inc then 0 else 1, o))) by {
      SourceReadsOperand(o, base, line, false);
      match o
      case AtR(i) =>
      case Rn(n) =>
      case Named(name) =>
      case Address(d, _) =>
      case Imm(v, _) =>
    }
  }

  /** `INC A` and `DEC A` are column 4 of their rows. */
  lemma AccumulatorIncDec(s: Assembler, line: nat)
    ensures Encode(s, Op(line, "INC", ["A"])) == Ok([0x04])
    ensures Encode(s, Op(line, "DEC", ["A"])) == Ok([0x14])
  {
  }

  /** The data-pointer increment is spelled `DLOCCTR`; `INC DPTR` is an
      error of the instruction. */
  lemma DataPointerSpelling(s: Assembler, line: nat)
    ensures Encode(s, Op(line, "INC", ["DLOCCTR"])) == Ok([0xA3])
    ensures Encode(s, Op(line, "INC", ["DPTR"])) == Fail(InstructionError(line))
    ensures Encode(s, Op(line, "DEC", ["DLOCCTR"])) == Fail(InstructionError(line))
  {
    var x := "DPTR";
    assert Register(x, true).None? && Register(x, false).None?;
    assert x !in Sfrs;
    assert Hex(x).None? && Dec(x).None?;
  }

  lemma LiteralIsNotA(d: nat, hex: bool)
    ensures Spell(Address(d, hex)) != "A"
    ensures Spell(Address(d, hex)) != "DLOCCTR"
  {
    var x := Spell(Address(d, hex));
    if hex {
      assert x[|x| - 1] == 'H';
    } else {
      assert IsDigit(x[0]);
    }
  }

  /** `ORL` and `ANL` with a direct destination: `<direct>,A` is column 2 of
      the row and `<direct>,#v` is column 3. */
  lemma LogicalDirectForms(s: Assembler, line: nat, m: string, d: nat, hex: bool, v: nat, vhex: bool)
    requires m in {"ORL", "ANL"}
    ensures Encode(s, Op(line, m, [Spell(Address(d, hex)), "A"])) == Ok([ArithmeticRow(m) * 16 + 2, d])
    ensures Encode(s, Op(line, m, [Spell(Address(d, hex)), Spell(Imm(v, vhex))])) == Ok([ArithmeticRow(m) * 16 + 3, d, v])
  {
    LogicalStore(s, line, m, d, hex);
    LogicalCombine(s, line, m, d, hex, v, vhex);
  }

  lemma LogicalStore(s: Assembler, line: nat, m: string, d: nat, hex: bool)
    requires m in {"ORL", "ANL"}
    ensures Encode(s, Op(line, m, [Spell(Address(d, hex)), "A"])) == Ok([ArithmeticRow(m) * 16 + 2, d])
  {
    var base := ArithmeticRow(m) * 16 + 4;
    var store := Op(line, m, [Spell(Address(d, hex)), "A"]);
    LiteralIsDirect(d, hex);
    LiteralIsNotA(d, hex);
    EncodeLogical(s, store);
    assert Logical(store, base) == Ok([base - 2, d]);
  }

  lemma LogicalCombine(s: Assembler, line: nat, m: string, d: nat, hex: bool, v: nat, vhex: bool)
    requires m in {"ORL", "ANL"}
    ensures Encode(s, Op(line, m, [Spell(Address(d, hex)), Spell(Imm(v, vhex))])) == Ok([ArithmeticRow(m) * 16 + 3, d, v])
  {
    var base := ArithmeticRow(m) * 16 + 4;
    var y := Spell(Imm(v, vhex));
    var combine := Op(line, m, [Spell(Address(d, hex)), y]);
    LiteralIsDirect(d, hex);
    LiteralIsNotA(d, hex);
    ImmediateIsNotDirect(v, vhex);
    assert y != "A" by {
      assert y[0] == '#';
    }
    EncodeLogical(s, combine);
    assert Logical(combine, base) == Ok([base - 1, d, v]);
  }

  lemma EncodeLogical(s: Assembler, op: Op)
    requires op.mnemonic in {"ORL", "ANL"}
    ensures Encode(s, op) == Logical(op, ArithmeticRow(op.mnemonic) * 16 + 4)
  {
  }

  /** The digit of a register is not checked: `@R2`-`@R9` encode as
      `R0`-`R7`, and `R8`, `R9` spill into columns 0 and 1 of the next row
      of the opcode map. */
  lemma RegisterNumberUnchecked(base: int, line: nat, immediate: bool, i: nat)
    requires 2 <= i < 10
    ensures Source(Spell(AtR(i)), base, line, immediate) == Source(Spell(Rn(i - 2)), base, line, immediate)
    ensures i >= 8 ==> Source(Spell(Rn(i)), base, line, immediate) == Ok([base + 12 + (i - 8)])
  {
    SourceAtR(i, base, line, immediate);
    SourceRn(i - 2, base, line, immediate);
    if i >= 8 {
      SourceRn(i, base, line, immediate);
    }
  }

  /** A token that starts with `R` (or `@R`) but has no digit after it is
      read as a register whose number is `int("")`: a `ValueError`, even for
      a word such as `RAM`. */
  lemma RegisterWithoutDigit(x: string, base: int, line: nat, immediate: bool)
    requires |x| >= 1 && x[0] == 'R' && (|x| == 1 || !IsDigit(x[1]))
    ensures Source(x, base, line, immediate) == Fail(ValueError)
    ensures Source("@" + x, base, line, immediate) == Fail(ValueError)
  {
    var y := "@" + x;
    assert y[..2] == "@R" && (|y| == 2 || !IsDigit(y[2]));
  }

  // ---------------------------------------------------------------------
  // Other instructions.

  /** The mnemonics the second pass knows. */
  const Mnemonics: set<string> := {
    "ORG", "NOP", "AJMP", "LJMP", "RR", "INC", "JBC", "ACALL", "LCALL", "RRC", "DEC",
    "JB", "RET", "RL", "ADD", "JNB", "RLC", "ADDC", "JC", "ORL", "JNC", "ANL"
  }

  /** `NOP` writes 0x01 and `RET` writes 0x22, whatever their operands;
      the second `RET` branch of the source, 0x32, is never taken. */
  lemma FixedBytes(s: Assembler, line: nat, args: seq<string>)
    ensures Encode(s, Op(line, "NOP", args)) == Ok([0x01])
    ensures Encode(s, Op(line, "RET", args)) == Ok([0x22])
  {
  }

  /** `RR`, `RRC` and `RL` take the operand `A` only. */
  lemma RotateForms(s: Assembler, line: nat, m: string, args: seq<string>)
    requires m in {"RR", "RRC", "RL"}
    ensures var opcode := if m == "RR" then 0x03 else if m == "RRC" then 0x13 else 0x23;
      Encode(s, Op(line, m, args)) ==
        if args == [] then Fail(IndexError)
        else if args[0] == "A" then Ok([opcode])
        else Fail(InstructionError(line))
  {
  }

  /** `JNB`, `JC` and `JNC` check their operand count and write nothing. */
  lemma BranchesWithoutCode(s: Assembler, line: nat, m: string, args: seq<string>)
    requires m in {"JNB", "JC", "JNC"}
    ensures var count := if m == "JNB" then 2 else 1;
      Step(s, Op(line, m, args)) == if |args| == count then Ok(s) else Fail(InstructionError(line))
  {
  }

  /** An entry whose mnemonic the second pass does not know changes nothing. */
  lemma UnknownMnemonic(s: Assembler, op: Op)
    requires op.mnemonic !in Mnemonics
    ensures Step(s, op) == Ok(s)
  {
  }

  /** `RLC` writes 0x33 and then insists on two operands, so `RLC A` is an
      error of the instruction and only `RLC A,<anything>` is written. */
  lemma RotateCarryForms(s: Assembler, line: nat, x: string)
    requires s.locctr < |s.rom|
    ensures Step(s, Op(line, "RLC", ["A"])) == Fail(InstructionError(line))
    ensures Step(s, Op(line, "RLC", ["A", x])) == WriteRom(s, [0x33])
    ensures Step(s, Op(line, "RLC", ["A", x])).Ok?
  {
  }

  /** Every entry other than `ORG` and `RLC` fails as its encoding fails,
      or else places the encoded bytes at the location counter: it succeeds
      exactly when they fit in the image, then the counter moves past them
      and no other cell and no label changes; when they do not fit it is
      `IndexError`. */
  lemma StepWritesEncoding(s: Assembler, op: Op)
    requires op.mnemonic != "ORG" && op.mnemonic != "RLC"
    ensures Encode(s, op).Fail? ==> Step(s, op) == Fail(Encode(s, op).failure)
    ensures Encode(s, op).Ok? ==> var b := Encode(s, op).value; var r := Step(s, op);
      && (r.Ok? <==> b == [] || s.locctr + |b| <= |s.rom|)
      && (r.Fail? ==> r.failure == IndexError)
      && (r.Ok? ==>
        && r.value.locctr == s.locctr + |b|
        && r.value.symtab == s.symtab
        && |r.value.rom| == |s.rom|
        && (forall k :: 0 <= k < |b| ==> r.value.rom[s.locctr + k] == b[k])
        && SameOutside(s.rom, r.value.rom, s.locctr, s.locctr + |b|))
  {
    var e := Encode(s, op);
    assert Step(s, op) == if e.Ok? then WriteRom(s, e.value) else Fail(e.failure);
  }
}
