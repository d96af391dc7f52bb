/** The assembler's state and its primitives: the globals `ROM`, `LOCCTR`
    and `SYMTAB` (main.py lines 5-7) as one immutable record, and
    `search_label`, `mark_label`, `write_rom`, `check_args` and `twos_comp`
    (main.py lines 174-197 and 216-217).
 */
module Machine {
  import opened Failures
  import opened Numerals

  /** Size of the memory image, `2**16`. */
  const RomSize: nat := 0x1_0000

  /** The image holds Python integers: a cell is usually a byte, but nothing
      stops a large literal or a negative offset from being stored. */
  datatype Assembler = Assembler(rom: seq<int>, locctr: nat, symtab: map<string, nat>)

  /** The state before the first pass: an all-zero image, counter 0, no labels. */
  function Initial(): (s: Assembler)
    ensures |s.rom| == RomSize && s.locctr == 0 && s.symtab == map[]
    ensures forall k :: 0 <= k < |s.rom| ==> s.rom[k] == 0
  {
    Assembler(seq(RomSize, _ => 0), 0, map[])
  }

  /** One entry of the operation table built by the first pass: the source
      line number, the upper-cased mnemonic and the operand list. */
  datatype Op = Op(line: nat, mnemonic: string, args: seq<string>)

  /** `args[i]`, with Python's `IndexError` past the end. */
  function Arg(op: Op, i: nat): (r: Result<string>)
    ensures r.Ok? <==> i < |op.args|
    ensures r.Ok? ==> r.value == op.args[i]
    ensures r.Fail? ==> r.failure == IndexError
  {
    if i < |op.args| then Ok(op.args[i]) else Fail(IndexError)
  }

  /** `check_args(ins, args, num, f_line)`: the instruction fails unless its
      operand count is one of `counts`. */
  function CheckArgs(op: Op, counts: set<nat>): (r: Outcome)
    ensures r.Pass? <==> |op.args| in counts
    ensures r.Stop? ==> r.failure == InstructionError(op.line)
  {
    if |op.args| in counts then Pass else Stop(InstructionError(op.line))
  }

  /** The image cells outside `[lo, hi)` are the same in `a` and `b`. */
  predicate SameOutside(a: seq<int>, b: seq<int>, lo: int, hi: int)
    requires |a| == |b|
  {
    forall k :: 0 <= k < |a| && !(lo <= k < hi) ==> a[k] == b[k]
  }

  /** `write_rom(opcodes)`: stores the opcodes one after the other from
      `LOCCTR` on, advancing `LOCCTR` past them. A store past the end of the
      image raises `IndexError`. */
  function WriteRom(s: Assembler, opcodes: seq<int>): (r: Result<Assembler>)
    ensures r.Ok? <==> opcodes == [] || s.locctr + |opcodes| <= |s.rom|
    ensures r.Fail? ==> r.failure == IndexError
    ensures r.Ok? ==>
      && |r.value.rom| == |s.rom|
      && r.value.locctr == s.locctr + |opcodes|
      && r.value.symtab == s.symtab
      && (forall k :: 0 <= k < |opcodes| ==> r.value.rom[s.locctr + k] == opcodes[k])
      && SameOutside(s.rom, r.value.rom, s.locctr, s.locctr + |opcodes|)
    decreases |opcodes|
  {
    if opcodes == [] then Ok(s)
    else if s.locctr >= |s.rom| then Fail(IndexError)
    else
      var next := s.(rom := s.rom[s.locctr := opcodes[0]], locctr := s.locctr + 1);
      var r := WriteRom(next, opcodes[1..]);
      assert forall k :: 1 <= k < |opcodes| ==> opcodes[k] == opcodes[1..][k - 1];
      r
  }

  /** `mark_label(label)`: binds a new label to `LOCCTR`; a label that is
      already bound is an error. Nothing else changes. */
  function MarkLabel(s: Assembler, name: string): (r: Result<Assembler>)
    ensures r.Fail? <==> name in s.symtab
    ensures r.Fail? ==> r.failure == LabelInUse(name)
    ensures r.Ok? ==>
      && r.value.rom == s.rom
      && r.value.locctr == s.locctr
      && r.value.symtab.Keys == s.symtab.Keys + {name}
      && r.value.symtab[name] == s.locctr
      && (forall n :: n in s.symtab ==> r.value.symtab[n] == s.symtab[n])
  {
    if name in s.symtab then Fail(LabelInUse(name))
    else Ok(s.(symtab := s.symtab[name := s.locctr]))
  }

  /** `search_label(label, bit)`: the address of a bound label, printed in
      binary with at least `width` digits; an unbound label is an error. */
  function SearchLabel(s: Assembler, name: string, width: nat): (r: Result<string>)
    ensures r.Fail? <==> name !in s.symtab
    ensures r.Fail? ==> r.failure == LabelNotFound(name)
    ensures r.Ok? ==> |r.value| >= width && IsBinary(r.value) && FromBin(r.value) == s.symtab[name]
  {
    if name in s.symtab then
      FormatBinRoundTrip(s.symtab[name], width);
      Ok(FormatBin(s.symtab[name], width))
    else
      Fail(LabelNotFound(name))
  }

  /** `k ^ (2^w - 1)` on the low `w` bits of `k`: each bit flipped, from the
      lowest up. */
  function FlipBits(k: nat, w: nat): nat
  {
    if w == 0 then 0 else (1 - k % 2) + 2 * FlipBits(k / 2, w - 1)
  }

  /** `n ^ 0xff` on Python's unbounded integers: the low eight bits are
      flipped, the rest (including the sign) is kept. */
  function FlipLowByte(n: int): int
  {
    n - n % 256 + FlipBits(n % 256, 8)
  }

  /** `twos_comp(val)`, that is `int("{:08b}".format((-val ^ 0xff) + 1), 2)`.
      It agrees with `val` modulo 256, and for -255 <= val <= -1 it is the
      byte `val + 256`; for other values it is not a byte at all (256 for 0,
      `val - 256` for 1..255). */
  function TwosComp(v: int): (r: int)
    ensures r == 256 - v - 2 * ((-v) % 256)
    ensures r == v + 256 * (1 + 2 * ((-v) / 256))
    ensures -255 <= v <= -1 ==> r == v + 256
  {
    var x := FlipLowByte(-v) + 1;
    FlipLowByteValue(-v);
    FormatBinRoundTrip(x, 8);
    var r := ParseBin(FormatBin(x, 8));
    TwosCompArith(v, r);
    r
  }

  lemma TwosCompArith(v: int, r: int)
    requires r == 256 - v - 2 * ((-v) % 256)
    ensures r == v + 256 * (1 + 2 * ((-v) / 256))
    ensures -255 <= v <= -1 ==> r == v + 256
  {
    var q, m := (-v) / 256, (-v) % 256;
    assert -v == 256 * q + m;
    if -255 <= v <= -1 {
      DivModUnique(-v, 256, 0, -v);
    }
  }

  lemma FlipLowByteValue(n: int)
    ensures FlipLowByte(n) == n - 2 * (n % 256) + 255
  {
    var k := n % 256;
    FlipBitsValue(k, 8);
    assert Pow2(8) == 256;
    DivModUnique(k, 256, 0, k);
  }

  /** Flipping the low `w` bits of `k` gives `2^w - 1` minus those bits. */
  lemma {:induction false} FlipBitsValue(k: nat, w: nat)
    ensures FlipBits(k, w) == Pow2(w) - 1 - k % Pow2(w)
    decreases w
  {
    if w > 0 {
      var p := Pow2(w - 1);
      FlipBitsValue(k / 2, w - 1);
      DivModDouble(k, p);
      assert k % (2 * p) == 2 * ((k / 2) % p) + k % 2;
    }
  }
}
