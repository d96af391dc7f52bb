/** The second pass `pass_2nd` (main.py lines 245-542): the location counter is
    reset to 0 and every entry of the operation table is encoded into the
    image at the location counter. The `if`/`elif` chain of the source is kept
    in its order; each family of instructions that the source spells out
    several times with different opcodes is one function here, with the
    opcode as a parameter.
 */
module SecondPass {
  import opened Failures
  import opened Text
  import opened Numerals
  import opened Registers
  import opened Syntax
  import opened Operands
  import opened Machine
  import opened FirstPass

  /** `RR`, `RRC`, `RL` (main.py lines 281-284, 342-345, 382-385): the operand
      must be `A`; the operand count is not checked. */
  function Rotate(op: Op, opcode: int): (r: Result<seq<int>>)
    ensures r.Ok? <==> |op.args| >= 1 && op.args[0] == "A"
    ensures r.Ok? ==> r.value == [opcode]
    ensures r.Fail? ==> r.failure == (if op.args == [] then IndexError else InstructionError(op.line))
  {
    var a :- Arg(op, 0);
    if a != "A" then Fail(InstructionError(op.line)) else Ok([opcode])
  }

  /** The operand of an arithmetic or logical instruction after `A,` (or of
      `INC`/`DEC`), tried in the order of the source: `@R<i>` is
      `base + 2 + i`, `R<n>` is `base + 4 + n`, a direct address `d` is
      `base + 1, d`, and, where `immediate` allows it, `#v` is `base, v`. A
      register without its digit is `int("")`, a `ValueError`. */
  function Source(x: string, base: int, line: nat, immediate: bool): (r: Result<seq<int>>)
    ensures r.Ok? ==> 1 <= |r.value| <= 2
    ensures r.Fail? ==> r.failure == InstructionError(line) || r.failure == ValueError
    ensures var at := Register(x, true);
      at.Some? ==> r == (if at.value.Ok? then Ok([base + 2 + at.value.value]) else Fail(ValueError))
    ensures var rn := Register(x, false);
      Register(x, true).None? && rn.Some? ==>
        r == (if rn.value.Ok? then Ok([base + 4 + rn.value.value]) else Fail(ValueError))
    ensures Register(x, true).None? && Register(x, false).None? && Direct(x).Some? ==>
      r == Ok([base + 1, Direct(x).value])
    ensures Register(x, true).None? && Register(x, false).None? && Direct(x).None? ==>
      r == (if immediate && Immediate(x).Some? then Ok([base, Immediate(x).value]) else Fail(InstructionError(line)))
  {
    match Register(x, true)
    case Some(n) =>
      var i :- n;
      Ok([base + 2 + i])
    case None =>
      match Register(x, false)
      case Some(n) =>
        var i :- n;
        Ok([base + 4 + i])
      case None =>
        match Direct(x)
        case Some(d) => Ok([base + 1, d])
        case None =>
          match (if immediate then Immediate(x) else None)
          case Some(v) => Ok([base, v])
          case None => Fail(InstructionError(line))
  }

  /** `INC` and `DEC` (main.py lines 285-302, 346-361): exactly one operand;
      `A` is `base`; `INC` alone also knows the operand `DLOCCTR`, 0xA3;
      otherwise a register or direct operand, never an immediate. */
  function IncDec(op: Op, base: int, dptr: bool): (r: Result<seq<int>>)
    ensures r.Ok? ==> |op.args| == 1 && 1 <= |r.value| <= 2
    ensures |op.args| == 1 && op.args[0] == "A" ==> r == Ok([base])
    ensures |op.args| == 1 && op.args[0] == "DLOCCTR" ==> r == (if dptr then Ok([0xA3]) else Fail(InstructionError(op.line)))
    ensures |op.args| != 1 ==> r == Fail(InstructionError(op.line))
    ensures |op.args| == 1 && op.args[0] != "A" && op.args[0] != "DLOCCTR" ==> r == Source(op.args[0], base, op.line, false)
  {
    if |op.args| != 1 then Fail(InstructionError(op.line)) else
    var a := op.args[0];
    if a == "A" then Ok([base])
    else if dptr && a == "DLOCCTR" then Ok([0xA3])
    else
      assert a == "DLOCCTR" ==> Register(a, true).None? && Register(a, false).None? && a !in Sfrs && Hex(a).None?;
      Source(a, base, op.line, false)
  }

  /** `ADD` and `ADDC` (main.py lines 386-407, 417-437): the first operand must
      be `A`; the second is a register, direct or immediate operand. Only
      `ADD` checks that there are two operands; `ADDC` with one operand fails
      on `args[1]`. */
  function Accumulator(op: Op, base: int): (r: Result<seq<int>>)
    ensures r.Ok? ==> |op.args| >= 2 && op.args[0] == "A" && 1 <= |r.value| <= 2
    ensures |op.args| >= 2 && op.args[0] == "A" ==> r == Source(op.args[1], base, op.line, true)
    ensures |op.args| >= 1 && op.args[0] != "A" ==> r == Fail(InstructionError(op.line))
    ensures op.args == ["A"] ==> r == Fail(IndexError)
  {
    var a :- Arg(op, 0);
    if a != "A" then Fail(InstructionError(op.line))
    else
      var src :- Arg(op, 1);
      Source(src, base, op.line, true)
  }

  /** `ORL` and `ANL` (main.py lines 440-488, 491-539): `A,<src>` as for
      `ADD`; `<direct>,A` is `base - 2, direct`; `<direct>,#v` is
      `base - 1, direct, v`. Operands beyond the second are ignored. */
  function Logical(op: Op, base: int): (r: Result<seq<int>>)
    ensures r.Ok? ==> |op.args| >= 2 && 1 <= |r.value| <= 3
    ensures |op.args| >= 2 && op.args[0] == "A" ==> r == Source(op.args[1], base, op.line, true)
    ensures |op.args| >= 2 && op.args[0] != "A" && op.args[1] == "A" ==>
      r == (if Direct(op.args[0]).Some? then Ok([base - 2, Direct(op.args[0]).value]) else Fail(InstructionError(op.line)))
    ensures |op.args| >= 2 && op.args[0] != "A" && op.args[1] != "A" ==>
      r == (if Direct(op.args[0]).Some? && Immediate(op.args[1]).Some?
            then Ok([base - 1, Direct(op.args[0]).value, Immediate(op.args[1]).value])
            else Fail(InstructionError(op.line)))
    ensures |op.args| == 1 ==> r == Fail(IndexError)
  {
    var a :- Arg(op, 0);
    if a == "A" then
      var src :- Arg(op, 1);
      Source(src, base, op.line, true)
    else
      var b :- Arg(op, 1);
      if b == "A" then
        match Direct(a)
        case Some(d) => Ok([base - 2, d])
        case None => Fail(InstructionError(op.line))
      else
        match Immediate(b)
        case Some(v) =>
          (match Direct(a)
           case Some(d) => Ok([base - 1, d, v])
           case None => Fail(InstructionError(op.line)))
        case None => Fail(InstructionError(op.line))
  }

  /** `AJMP` and `ACALL` (main.py lines 260-269, 321-330): one operand, a word
      naming a bound label. The address is printed with at least 11 binary
      digits; the first byte is the digits from the ninth on, reversed,
      followed by the five bits of `marker`, and the second byte is the first
      eight digits, reversed. */
  function PageJump(s: Assembler, op: Op, marker: string): (r: Result<seq<int>>)
    ensures r.Ok? <==> |op.args| == 1 && IsNormalWord(op.args[0]) && op.args[0] in s.symtab
    ensures r.Fail? ==> r.failure == (if |op.args| == 1 && IsNormalWord(op.args[0]) then LabelNotFound(op.args[0]) else InstructionError(op.line))
    ensures r.Ok? ==> |r.value| == 2
  {
    if |op.args| != 1 then Fail(InstructionError(op.line)) else
    var a := op.args[0];
    if !IsNormalWord(a) then Fail(InstructionError(op.line))
    else
      var bits :- SearchLabel(s, a, 11);
      Ok(PageBytes(bits, marker))
  }

  /** The two bytes of a page jump from the printed address `bits`: digits
      9 onwards reversed above `marker`, then digits 1 to 8 reversed. */
  function PageBytes(bits: string, marker: string): seq<int>
    requires |bits| >= 8
  {
    [FromBin(Reverse(bits[8..]) + marker), FromBin(Reverse(bits[..8]))]
  }

  /** `LJMP` and `LCALL` (main.py lines 270-280, 331-341): one operand naming a
      bound label, printed with at least 16 binary digits; the bytes are
      `opcode`, digits 9 to 16 reversed, and digits 1 to 8 reversed. */
  function LongJump(s: Assembler, op: Op, opcode: int): (r: Result<seq<int>>)
    ensures r.Ok? <==> |op.args| == 1 && IsNormalWord(op.args[0]) && op.args[0] in s.symtab
    ensures r.Fail? ==> r.failure == (if |op.args| == 1 && IsNormalWord(op.args[0]) then LabelNotFound(op.args[0]) else InstructionError(op.line))
    ensures r.Ok? ==> |r.value| == 3 && r.value[0] == opcode
  {
    if |op.args| != 1 then Fail(InstructionError(op.line)) else
    var a := op.args[0];
    if !IsNormalWord(a) then Fail(InstructionError(op.line))
    else
      var bits :- SearchLabel(s, a, 16);
      Ok([opcode, FromBin(Reverse(bits[8..16])), FromBin(Reverse(bits[..8]))])
  }

  /** The bit operand of `JB` and `JBC` (main.py lines 307-314, 366-373): a
      named bit, else `int(v[0], 16)` of a hexadecimal literal, which reads
      the whole token including its `H` suffix and so always raises
      `ValueError`, else a decimal literal. */
  function BitAddress(x: string, line: nat): (r: Result<int>)
    ensures SfrBit(x).Some? ==> r == Ok(SfrBit(x).value)
    ensures SfrBit(x).None? && Hex(x).Some? ==> r == Fail(ValueError)
    ensures SfrBit(x).None? && Hex(x).None? && Dec(x).Some? ==> r.Ok? && Ok(r.value) == ParseInt(x, 10)
    ensures SfrBit(x).None? && Hex(x).None? && Dec(x).None? ==> r == Fail(InstructionError(line))
  {
    match SfrBit(x)
    case Some(v) => Ok(v)
    case None =>
      if Hex(x).Some? then
        HexSuffixIsNotNumeral(x);
        Fail(ValueError)
      else if Dec(x).Some? then
        DecDigitsParse(x);
        Ok(Numeral(x, 10))
      else
        Fail(InstructionError(line))
  }

  /** `JB` and `JBC` (main.py lines 303-320, 362-379): two operands, a bit and
      a word naming a bound label; the bytes are `opcode`, the bit address and
      `twos_comp(label - LOCCTR - 3)`. */
  function BitJump(s: Assembler, op: Op, opcode: int): (r: Result<seq<int>>)
    ensures r.Ok? <==> |op.args| == 2 && BitAddress(op.args[0], op.line).Ok? && IsNormalWord(op.args[1]) && op.args[1] in s.symtab
    ensures r.Ok? ==> r.value == [opcode, BitAddress(op.args[0], op.line).value, TwosComp(s.symtab[op.args[1]] - s.locctr - 3)]
    ensures |op.args| != 2 ==> r == Fail(InstructionError(op.line))
    ensures |op.args| == 2 && BitAddress(op.args[0], op.line).Fail? ==> r == Fail(BitAddress(op.args[0], op.line).failure)
    ensures |op.args| == 2 && BitAddress(op.args[0], op.line).Ok? && !IsNormalWord(op.args[1]) ==>
      r == Fail(InstructionError(op.line))
    ensures |op.args| == 2 && BitAddress(op.args[0], op.line).Ok? && IsNormalWord(op.args[1]) && op.args[1] !in s.symtab ==>
      r == Fail(LabelNotFound(op.args[1]))
  {
    if |op.args| != 2 then Fail(InstructionError(op.line)) else
    var bit :- BitAddress(op.args[0], op.line);
    if !IsNormalWord(op.args[1]) then Fail(InstructionError(op.line))
    else
      var bits :- SearchLabel(s, op.args[1], 11);
      // `int(bits, 2)` reads the label address back.
      assert bits[0] == '0' || bits[0] == '1';
      assert ParseBin(bits) == s.symtab[op.args[1]];
      Ok([opcode, bit, TwosComp(s.symtab[op.args[1]] - s.locctr - 3)])
  }

  /** The bytes of one entry of the operation table other than `ORG` and
      `RLC`, in the order of the source's `elif` chain. A mnemonic the chain
      does not know produces no bytes and no error. */
  function Encode(s: Assembler, op: Op): (r: Result<seq<int>>)
    ensures r.Ok? ==> |r.value| <= 3
  {
    var m := op.mnemonic;
    if m == "NOP" then Ok([0x01])
    else if m == "AJMP" then PageJump(s, op, "00001")
    else if m == "LJMP" then LongJump(s, op, 0x02)
    else if m == "RR" then Rotate(op, 0x03)
    else if m == "INC" then IncDec(op, 0x04, true)
    else if m == "JBC" then BitJump(s, op, 0x10)
    else if m == "ACALL" then PageJump(s, op, "10001")
    else if m == "LCALL" then LongJump(s, op, 0x12)
    else if m == "RRC" then Rotate(op, 0x13)
    else if m == "DEC" then IncDec(op, 0x14, false)
    else if m == "JB" then BitJump(s, op, 0x20)
    else if m == "RET" then Ok([0x22])
    else if m == "RL" then Rotate(op, 0x23)
    else if m == "ADD" then
      :- CheckArgs(op, {2});
      Accumulator(op, 0x24)
    else if m == "JNB" then
      :- CheckArgs(op, {2});
      Ok([])
    else if m == "RET" then Ok([0x32])  // unreachable, as in the source
    else if m == "ADDC" then Accumulator(op, 0x34)
    else if m == "JC" then
      :- CheckArgs(op, {1});
      Ok([])
    else if m == "ORL" then Logical(op, 0x44)
    else if m == "JNC" then
      :- CheckArgs(op, {1});
      Ok([])
    else if m == "ANL" then Logical(op, 0x54)
    else Ok([])
  }

  /** One iteration of the loop of `pass_2nd`. `ORG` moves the location
      counter; `RLC` (main.py lines 412-416) writes its byte before it checks
      that it has two operands; every other entry is encoded and written at
      the location counter. The symbol table is never changed, and an entry
      other than `ORG` writes at most three cells, from the location counter
      on, and advances the counter past them. */
  function Step(s: Assembler, op: Op): (r: Result<Assembler>)
    ensures r.Ok? ==> |r.value.rom| == |s.rom| && r.value.symtab == s.symtab
    ensures r.Ok? && op.mnemonic == "ORG" ==> r.value.rom == s.rom
    ensures r.Ok? && op.mnemonic != "ORG" ==>
      && s.locctr <= r.value.locctr <= s.locctr + 3
      && SameOutside(s.rom, r.value.rom, s.locctr, r.value.locctr)
  {
    if op.mnemonic == "ORG" then Org(s, op)
    else if op.mnemonic == "RLC" then
      var a :- Arg(op, 0);
      if a != "A" then Fail(InstructionError(op.line))
      else
        var t :- WriteRom(s, [0x33]);
        :- CheckArgs(op, {2});
        Ok(t)
    else
      var bytes :- Encode(s, op);
      WriteRom(s, bytes)
  }

  /** The entries of `ops` in order from `s`, the first failure ending the
      run. */
  function Run(ops: seq<Op>, s: Assembler): (r: Result<Assembler>)
    ensures r.Ok? ==> |r.value.rom| == |s.rom| && r.value.symtab == s.symtab
    decreases |ops|
  {
    if ops == [] then Ok(s)
    else
      var p :- Run(ops[..|ops| - 1], s);
      Step(p, ops[|ops| - 1])
  }

  /** `pass_2nd(optab)`: the run from location 0. */
  function PassTwo(ops: seq<Op>, s: Assembler): (r: Result<Assembler>)
    ensures r.Ok? ==> |r.value.rom| == |s.rom| && r.value.symtab == s.symtab
  {
    Run(ops, s.(locctr := 0))
  }

  // ---------------------------------------------------------------------
  // Properties of the run.

  /** Running two lists of entries one after the other is running their
      concatenation. */
  lemma {:induction false} RunAppend(a: seq<Op>, b: seq<Op>, s: Assembler)
    ensures Run(a + b, s) == (match Run(a, s) case Ok(t) => Run(b, t) case Fail(f) => Fail(f))
    decreases |b|
  {
    if b == [] {
      assert a + b == a;
    } else {
      var b' := b[..|b| - 1];
      assert (a + b)[..|a + b| - 1] == a + b';
      assert (a + b)[|a + b| - 1] == b[|b| - 1];
      RunAppend(a, b', s);
    }
  }

  lemma SameOutsideTrans(a: seq<int>, b: seq<int>, c: seq<int>, lo: int, mid: int, hi: int)
    requires |a| == |b| == |c| && lo <= mid <= hi
    requires SameOutside(a, b, lo, mid) && SameOutside(b, c, mid, hi)
    ensures SameOutside(a, c, lo, hi)
  {
  }

  /** Without `ORG` the image is written front to back: the run only writes
      the cells between the location counter it starts from and the one it
      ends with, which is never smaller. */
  lemma {:induction false} RunWritesForward(ops: seq<Op>, s: Assembler)
    requires forall k :: 0 <= k < |ops| ==> ops[k].mnemonic != "ORG"
    requires Run(ops, s).Ok?
    ensures s.locctr <= Run(ops, s).value.locctr <= s.locctr + 3 * |ops|
    ensures SameOutside(s.rom, Run(ops, s).value.rom, s.locctr, Run(ops, s).value.locctr)
    decreases |ops|
  {
    if ops != [] {
      var front := ops[..|ops| - 1];
      var p := Run(front, s).value;
      var r := Run(ops, s).value;
      RunWritesForward(front, s);
      assert r == Step(p, ops[|ops| - 1]).value;
      SameOutsideTrans(s.rom, p.rom, r.rom, s.locctr, p.locctr, r.locctr);
    }
  }
}
