/** The jump encoders of the second pass, read arithmetically. The MCS-51
    encodes `AJMP addr11` as `a10 a9 a8 0 0 0 0 1, a7..a0` and `LJMP addr16`
    as `02, a15..a8, a7..a0`; the encoders here print the label address in
    binary and reverse slices of the digits, so the bytes they write carry
    the address bits in another order. The lemmas below say exactly which
    bytes are written, and that the target can be read back from them.
 */
module Jumps {
  import opened Failures
  import opened Text
  import opened Numerals
  import opened Registers
  import opened Syntax
  import opened Operands
  import opened Machine
  import opened SecondPass

  lemma Powers()
    ensures Pow2(3) == 8 && Pow2(5) == 32 && Pow2(8) == 256
    ensures Pow2(11) == 2048 && Pow2(16) == 65536
  {
    assert Pow2(5) == 32;
    assert Pow2(8) == 256;
    assert Pow2(11) == 2048;
    assert Pow2(16) == 65536;
  }

  /** An address below 2048, printed with 11 digits: the first eight digits
      are the address divided by 8, the last three its low three bits. */
  lemma Digits11(t: nat)
    requires t < 2048
    ensures |FormatBin(t, 11)| == 11
    ensures FormatBin(t, 11)[..8] == BitsMsb(t / 8, 8)
    ensures FormatBin(t, 11)[8..] == BitsMsb(t, 3)
  {
    Powers();
    FormatBinExact(t, 11);
    BitsMsbSplit(t, 8, 3);
  }

  /** An address below 65536, printed with 16 digits: the first eight digits
      are the high byte, the last eight the low byte. */
  lemma Digits16(t: nat)
    requires t < 65536
    ensures |FormatBin(t, 16)| == 16
    ensures FormatBin(t, 16)[..8] == BitsMsb(t / 256, 8)
    ensures FormatBin(t, 16)[8..16] == BitsMsb(t, 8)
  {
    Powers();
    FormatBinExact(t, 16);
    BitsMsbSplit(t, 8, 8);
  }

  lemma MarkerValues()
    ensures FromBin("00001") == 1 && FromBin("10001") == 17
  {
    assert "00001"[..4] == "0000" && "0000"[..3] == "000" && "000"[..2] == "00" && "00"[..1] == "0" && "0"[..0] == "";
    assert "10001"[..4] == "1000" && "1000"[..3] == "100" && "100"[..2] == "10" && "10"[..1] == "1" && "1"[..0] == "";
  }

  /** `AJMP` and `ACALL` to a label below 2048: the first byte is the low
      three address bits reversed, above the five bits `00001` (`AJMP`) or
      `10001` (`ACALL`); the second byte is the address divided by 8, its
      eight bits reversed. */
  lemma PageJumpEncoding(s: Assembler, line: nat, call: bool, name: string)
    requires IsNormalWord(name) && name in s.symtab && s.symtab[name] < 2048
    ensures var t := s.symtab[name];
      Encode(s, Op(line, if call then "ACALL" else "AJMP", [name])) ==
        Ok([ReverseBits(t, 3) * 32 + (if call then 17 else 1), ReverseBits(t / 8, 8)])
  {
    var t := s.symtab[name];
    var op := Op(line, if call then "ACALL" else "AJMP", [name]);
    var marker := if call then "10001" else "00001";
    PageBytesValue(t, marker);
    EncodePageJump(s, op, call);
    assert SearchLabel(s, name, 11) == Ok(FormatBin(t, 11));
    MarkerValues();
  }

  /** The two bytes a page jump to `t` writes, read arithmetically. */
  lemma PageBytesValue(t: nat, marker: string)
    requires t < 2048 && |marker| == 5
    ensures |FormatBin(t, 11)| == 11
    ensures PageBytes(FormatBin(t, 11), marker) == [ReverseBits(t, 3) * 32 + FromBin(marker), ReverseBits(t / 8, 8)]
  {
    var bits := FormatBin(t, 11);
    Digits11(t);
    var low := Reverse(bits[8..]);
    assert FromBin(low + marker) == ReverseBits(t, 3) * 32 + FromBin(marker) by {
      FromBinAppend(low, marker);
      FromBinReversed(t, 3);
      assert Pow2(5) == 32;
    }
    assert FromBin(Reverse(bits[..8])) == ReverseBits(t / 8, 8) by {
      FromBinReversed(t / 8, 8);
    }
  }

  lemma EncodePageJump(s: Assembler, op: Op, call: bool)
    requires op.mnemonic == if call then "ACALL" else "AJMP"
    ensures Encode(s, op) == PageJump(s, op, if call then "10001" else "00001")
  {
  }

  /** The bytes of `AJMP`/`ACALL` to a label below 2048 are bytes, the low
      five bits of the first say which of the two it is, and the label
      address is the reversed second byte times 8 plus the reversed top
      three bits of the first byte. */
  lemma PageJumpReadBack(s: Assembler, line: nat, call: bool, name: string)
    requires IsNormalWord(name) && name in s.symtab && s.symtab[name] < 2048
    ensures var r := Encode(s, Op(line, if call then "ACALL" else "AJMP", [name]));
      && r.Ok? && |r.value| == 2
      && 0 <= r.value[0] < 256 && 0 <= r.value[1] < 256
      && r.value[0] % 32 == (if call then 17 else 1)
      && s.symtab[name] == ReverseBits(r.value[1], 8) * 8 + ReverseBits(r.value[0] / 32, 3)
  {
    var t, m := s.symtab[name], if call then 17 else 1;
    assert Encode(s, Op(line, if call then "ACALL" else "AJMP", [name])) == Ok([ReverseBits(t, 3) * 32 + m, ReverseBits(t / 8, 8)]) by {
      PageJumpEncoding(s, line, call, name);
    }
    PageReadBack(t, m);
  }

  lemma PageReadBack(t: nat, m: nat)
    requires t < 2048 && m < 32
    ensures var b0 := ReverseBits(t, 3) * 32 + m; var b1 := ReverseBits(t / 8, 8);
      && 0 <= b0 < 256 && 0 <= b1 < 256
      && b0 % 32 == m
      && t == ReverseBits(b1, 8) * 8 + ReverseBits(b0 / 32, 3)
  {
    Powers();
    var low := ReverseBits(t, 3);
    ReverseBitsBound(t, 3);
    ReverseBitsBound(t / 8, 8);
    DivModUnique(low * 32 + m, 32, low, m);
    ReverseBitsTwice(t, 3);
    ReverseBitsTwice(t / 8, 8);
    DivModUnique(t / 8, 256, 0, t / 8);
  }

  /** `LJMP` and `LCALL` to a label below 65536: the opcode, then the low
      byte with its bits reversed, then the high byte with its bits
      reversed. */
  lemma LongJumpEncoding(s: Assembler, line: nat, call: bool, name: string)
    requires IsNormalWord(name) && name in s.symtab && s.symtab[name] < 65536
    ensures var t := s.symtab[name];
      Encode(s, Op(line, if call then "LCALL" else "LJMP", [name])) ==
        Ok([if call then 0x12 else 0x02, ReverseBits(t, 8), ReverseBits(t / 256, 8)])
  {
    var t := s.symtab[name];
    Digits16(t);
    FromBinReversed(t, 8);
    FromBinReversed(t / 256, 8);
  }

  /** The label address of `LJMP`/`LCALL` is the reversed third byte times
      256 plus the reversed second byte. */
  lemma LongJumpReadBack(s: Assembler, line: nat, call: bool, name: string)
    requires IsNormalWord(name) && name in s.symtab && s.symtab[name] < 65536
    ensures var r := Encode(s, Op(line, if call then "LCALL" else "LJMP", [name]));
      && r.Ok? && |r.value| == 3
      && r.value[0] == (if call then 0x12 else 0x02)
      && 0 <= r.value[1] < 256 && 0 <= r.value[2] < 256
      && s.symtab[name] == ReverseBits(r.value[2], 8) * 256 + ReverseBits(r.value[1], 8)
  {
    LongJumpEncoding(s, line, call, name);
    LongReadBack(s.symtab[name]);
  }

  lemma LongReadBack(t: nat)
    requires t < 65536
    ensures var b1 := ReverseBits(t, 8); var b2 := ReverseBits(t / 256, 8);
      && 0 <= b1 < 256 && 0 <= b2 < 256
      && t == ReverseBits(b2, 8) * 256 + ReverseBits(b1, 8)
  {
    Powers();
    ReverseBitsBound(t, 8);
    ReverseBitsBound(t / 256, 8);
    ReverseBitsTwice(t, 8);
    ReverseBitsTwice(t / 256, 8);
    DivModUnique(t / 256, 256, 0, t / 256);
  }

  // ---------------------------------------------------------------------
  // Relative jumps.

  lemma ModShift(x: int, k: int)
    ensures (x + 256 * k) % 256 == x % 256
  {
    DivModUnique(x + 256 * k, 256, x / 256 + k, x % 256);
  }

  /** The offset `twos_comp(target - (loc + 3))` of a jump at `loc`: it always
      reaches the target modulo 256; for a target 1 to 255 bytes behind the
      end of the jump it is a byte that adds up to the target once 256 is
      taken off (how the MCS-51 reads it is OffsetAsSignedByte); for a
      target at or up to 255 bytes after the end of the jump it is not a
      byte at all. */
  lemma RelativeOffset(loc: int, t: int)
    ensures var o := TwosComp(t - loc - 3);
      && (loc + 3 + o) % 256 == t % 256
      && (loc + 3 - 255 <= t <= loc + 2 ==> 0 < o < 256 && loc + 3 + o - 256 == t)
      && (t == loc + 3 ==> o == 256)
      && (loc + 3 < t <= loc + 3 + 255 ==> o == t - loc - 3 - 256 && o < 0)
  {
    var v := t - loc - 3;
    OffsetWraps(loc, t);
    if v == 0 {
      ZeroOffset();
    } else if 0 < v <= 255 {
      ForwardOffset(v);
    }
  }

  /** How the MCS-51 reads an offset byte: as a signed value from -128 to
      127. */
  function SignedByte(b: int): int
    requires 0 <= b < 256
  {
    if b < 128 then b else b - 256
  }

  /** The offset read as the MCS-51 reads it: a target 1 to 128 bytes behind
      the end of the jump is reached; one 129 to 255 bytes behind gives a
      byte the processor reads as a forward jump; one further behind gives
      a value above 255, which is not a byte. */
  lemma OffsetAsSignedByte(loc: int, t: int)
    ensures var o := TwosComp(t - loc - 3);
      && (loc + 3 - 128 <= t <= loc + 2 ==> 128 <= o < 256 && loc + 3 + SignedByte(o) == t)
      && (loc + 3 - 255 <= t < loc + 3 - 128 ==> 0 < o < 128 && SignedByte(o) > 0)
      && (t < loc + 3 - 255 ==> o > 255)
  {
    var v := t - loc - 3;
    if v < -255 {
      FarBackOffset(v);
    }
  }

  /** A backward distance of more than 255 bytes gives an offset above 255. */
  lemma FarBackOffset(v: int)
    requires v < -255
    ensures TwosComp(v) > 255
  {
    var q, m := (-v) / 256, (-v) % 256;
    assert -v == 256 * q + m && 0 <= m < 256;
    assert q >= 1;
    assert TwosComp(v) == 256 + 256 * q - m;
  }

  lemma OffsetWraps(loc: int, t: int)
    ensures (loc + 3 + TwosComp(t - loc - 3)) % 256 == t % 256
  {
    var v := t - loc - 3;
    var q := (-v) / 256;
    var k := 1 + 2 * q;
    var o := TwosComp(v);
    assert o == v + 256 * k;
    assert loc + 3 + o == t + 256 * k;
    ModShift(t, k);
  }

  lemma ZeroOffset()
    ensures TwosComp(0) == 256
  {
    assert (-0) % 256 == 0;
  }

  /** A forward distance of 1 to 255 bytes comes out 256 too small. */
  lemma ForwardOffset(v: int)
    requires 0 < v <= 255
    ensures TwosComp(v) == v - 256
  {
    DivModUnique(-v, 256, -1, 256 - v);
    var m := (-v) % 256;
    assert m == 256 - v;
    assert TwosComp(v) == 256 - v - 2 * m;
  }

  /** `JB` and `JBC` with a bit the assembler accepts and a bound label write
      the opcode, the bit address and an offset that reaches the label
      modulo 256 from the end of the instruction. */
  lemma BitJumpReachesLabel(s: Assembler, line: nat, m: string, bit: string, name: string)
    requires m in {"JB", "JBC"}
    requires BitAddress(bit, line).Ok? && IsNormalWord(name) && name in s.symtab
    ensures var r := Encode(s, Op(line, m, [bit, name]));
      && r.Ok? && |r.value| == 3
      && r.value[0] == (if m == "JB" then 0x20 else 0x10)
      && r.value[1] == BitAddress(bit, line).value
      && (s.locctr + 3 + r.value[2]) % 256 == s.symtab[name] % 256
  {
    var op := Op(line, m, [bit, name]);
    var opcode := if m == "JB" then 0x20 else 0x10;
    assert Encode(s, op) == BitJump(s, op, opcode) by {
      EncodeBitJump(s, op);
    }
    BitJumpBytes(s, op, opcode);
  }

  lemma BitJumpBytes(s: Assembler, op: Op, opcode: int)
    requires |op.args| == 2 && BitAddress(op.args[0], op.line).Ok? && IsNormalWord(op.args[1]) && op.args[1] in s.symtab
    ensures var r := BitJump(s, op, opcode);
      && r.Ok? && |r.value| == 3
      && r.value[0] == opcode
      && r.value[1] == BitAddress(op.args[0], op.line).value
      && (s.locctr + 3 + r.value[2]) % 256 == s.symtab[op.args[1]] % 256
  {
    OffsetWraps(s.locctr, s.symtab[op.args[1]]);
  }

  lemma EncodeBitJump(s: Assembler, op: Op)
    requires op.mnemonic in {"JB", "JBC"}
    ensures Encode(s, op) == BitJump(s, op, if op.mnemonic == "JB" then 0x20 else 0x10)
  {
    if op.mnemonic == "JBC" {
      assert Encode(s, op) == BitJump(s, op, 0x10);
    } else {
      assert Encode(s, op) == BitJump(s, op, 0x20);
    }
  }

  /** A bit written as a hexadecimal literal makes `JB`/`JBC` fail with
      `ValueError`, because the source converts the whole token, `H`
      included; a decimal bit address is taken as it is. */
  lemma BitAddressLiterals(n: nat, line: nat)
    ensures BitAddress(Digits(n, 16) + "H", line) == Fail(ValueError)
    ensures BitAddress(Digits(n, 10), line) == Ok(n)
  {
    HexBitAddress(n, line);
    DecBitAddress(n, line);
  }

  /** A token whose last-but-one character is not `.` names no bit. */
  lemma NotBitName(x: string)
    requires |x| < 2 || x[|x| - 2] != '.'
    ensures SfrBit(x).None?
  {
  }

  lemma HexBitAddress(n: nat, line: nat)
    ensures BitAddress(Digits(n, 16) + "H", line) == Fail(ValueError)
  {
    var g := Digits(n, 16);
    var x := g + "H";
    assert x[..|x| - 1] == g;
    assert x[|x| - 2] == g[|g| - 1];
    NotBitName(x);
    assert Hex(x).Some?;
  }

  lemma DecBitAddress(n: nat, line: nat)
    ensures BitAddress(Digits(n, 10), line) == Ok(n)
  {
    var y := Digits(n, 10);
    assert IsDigit(y[|y| - 1]);
    assert Hex(y).None?;
    if |y| >= 2 {
      assert IsDigit(y[|y| - 2]);
    }
    NotBitName(y);
    NumeralDigits(n, 10);
  }
}
