/** The operand values the passes compute from the recognisers of `syntax_match`
    (main.py lines 129-150) and Python's `int()`: a numeric literal, a direct
    address, an immediate value and a register number.
 */
module Operands {
  import opened Failures
  import opened Text
  import opened Numerals
  import opened Registers
  import opened Syntax

  /** Upper-case hexadecimal digits always make a numeral of radix 16. */
  lemma HexDigitsParse(g: string)
    requires g != [] && AllHexDigits(g)
    ensures ParseInt(g, 16) == Ok(Numeral(g, 16))
  {
    assert forall i :: 0 <= i < |g| ==> DigitValue(g[i]) < 16;
  }

  /** Decimal digits always make a numeral of radix 10. */
  lemma DecDigitsParse(g: string)
    requires g != [] && AllDigits(g)
    ensures ParseInt(g, 10) == Ok(Numeral(g, 10))
  {
    assert forall i :: 0 <= i < |g| ==> DigitValue(g[i]) < 10;
  }

  /** A numeric literal: `int(v[1], 16)` for `sym.hex`, else `int(v[1])` for
      `sym.dec`. The `int()` calls cannot fail on what the patterns accept. */
  function Literal(x: string): (r: Option<nat>)
    ensures r.Some? <==> Hex(x).Some? || Dec(x).Some?
    ensures Hex(x).Some? ==> Ok(r.value) == ParseInt(Hex(x).value, 16)
    ensures Hex(x).None? && Dec(x).Some? ==> Ok(r.value) == ParseInt(x, 10)
  {
    match Hex(x)
    case Some(g) => HexDigitsParse(g); Some(Numeral(g, 16))
    case None =>
      match Dec(x)
      case Some(g) => DecDigitsParse(g); Some(Numeral(g, 10))
      case None => None
  }

  /** A direct address, tried in the order of the source: `sym.sfr`, then a
      hexadecimal, then a decimal literal. */
  function Direct(x: string): (r: Option<int>)
    ensures r.Some? <==> x in Sfrs || Literal(x).Some?
    ensures x in Sfrs ==> r == Some(Sfrs[x])
    ensures x !in Sfrs && Literal(x).Some? ==> r == Some(Literal(x).value as int)
  {
    match Sfr(x)
    case Some(v) => Some(v)
    case None =>
      match Literal(x)
      case Some(n) => Some(n)
      case None => None
  }

  /** An immediate operand: `sym.imm_hex`, then `sym.imm_dec`. */
  function Immediate(x: string): (r: Option<nat>)
    ensures r.Some? <==> ImmHex(x).Some? || ImmDec(x).Some?
    ensures ImmHex(x).Some? ==> Ok(r.value) == ParseInt(ImmHex(x).value, 16)
    ensures ImmHex(x).None? && ImmDec(x).Some? ==> Ok(r.value) == ParseInt(x[1..], 10)
  {
    match ImmHex(x)
    case Some(g) => HexDigitsParse(g); Some(Numeral(g, 16))
    case None =>
      match ImmDec(x)
      case Some(g) =>
        assert g == x[1..];
        DecDigitsParse(g); Some(Numeral(g, 10))
      case None => None
  }

  /** `int(v[1])` of the optional digit after `R` or `@R`: the digit's value,
      or `ValueError` when no digit follows. */
  function RegisterNumber(d: string): (r: Result<nat>)
    requires |d| <= 1 && (d != [] ==> IsDigit(d[0]))
    ensures r.Ok? <==> d != []
    ensures r.Fail? ==> r.failure == ValueError
    ensures r.Ok? ==> r.value < 10 && r.value == d[0] as int - '0' as int
  {
    if d == [] then
      Fail(ValueError)
    else
      assert d == [d[0]];
      ParseOneDigit(d[0]);
      ParseInt(d, 10)
  }

  /** A register token `R<d>` or `@R<d>`: the register number, `ValueError`
      when the digit is missing; `None` when the token is not a register. */
  function Register(x: string, indirect: bool): (r: Option<Result<nat>>)
    ensures r.Some? <==> (if indirect then |x| >= 2 && x[..2] == "@R" else |x| >= 1 && x[0] == 'R')
    ensures r.Some? ==> var k := if indirect then 2 else 1;
      (r.value.Ok? <==> k < |x| && IsDigit(x[k])) &&
      (r.value.Ok? ==> r.value.value == x[k] as int - '0' as int) &&
      (r.value.Fail? ==> r.value.failure == ValueError)
  {
    var m := if indirect then IndirectReg(x) else GeneralReg(x);
    match m
    case Some(d) => Some(RegisterNumber(d))
    case None => None
  }

  // ---------------------------------------------------------------------
  // Round trips: what the assembler reads back from a literal it could have
  // printed.

  /** `nnnH` with the upper-case hexadecimal digits of `n` reads as `n`. */
  lemma HexLiteralRoundTrip(n: nat)
    ensures Literal(Digits(n, 16) + "H") == Some(n)
  {
    var g := Digits(n, 16);
    var x := g + "H";
    assert x[..|x| - 1] == g;
    NumeralDigits(n, 16);
  }

  /** The decimal digits of `n` read as `n`. */
  lemma DecLiteralRoundTrip(n: nat)
    ensures Literal(Digits(n, 10)) == Some(n)
  {
    var g := Digits(n, 10);
    assert g[|g| - 1] != 'H';
    NumeralDigits(n, 10);
  }

  /** `#nnnH` reads as `n`. */
  lemma ImmHexRoundTrip(n: nat)
    ensures Immediate("#" + Digits(n, 16) + "H") == Some(n)
  {
    var g := Digits(n, 16);
    HexLiteralRoundTrip(n);
    assert ImmHex("#" + g + "H") == Some(g);
    NumeralDigits(n, 16);
  }

  /** `#nnn` reads as `n`. */
  lemma ImmDecRoundTrip(n: nat)
    ensures Immediate("#" + Digits(n, 10)) == Some(n)
  {
    var g := Digits(n, 10);
    var x := "#" + g;
    assert x[1..] == g;
    assert x[|x| - 1] == g[|g| - 1] != 'H';
    NumeralDigits(n, 10);
  }
}
