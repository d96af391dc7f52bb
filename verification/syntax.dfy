/** The operand recognisers of `syntax_match` (main.py lines 129-150), written
    as string predicates over ASCII instead of regular expressions. Each
    recogniser either rejects a token or yields the text of the group the
    source reads (`v[1]`, or the whole match `v[0]` where the source uses
    that); turning that text into a number is left to the caller, as in the
    source, because `int()` can still fail on it.
 */
module Syntax {
  import opened Failures
  import opened Text

  /** Length of the leading run of word characters of `s`. */
  function WordRun(s: string): (k: nat)
    ensures k <= |s|
    ensures AllWordChars(s[..k])
    ensures k < |s| ==> !IsWordChar(s[k])
  {
    if s == [] || !IsWordChar(s[0]) then 0
    else
      var k := 1 + WordRun(s[1..]);
      assert s[..k] == [s[0]] + s[1..][..k - 1];
      k
  }

  predicate AllHexDigits(s: string) {
    forall i :: 0 <= i < |s| ==> IsHexDigit(s[i])
  }

  predicate AllDigits(s: string) {
    forall i :: 0 <= i < |s| ==> IsDigit(s[i])
  }

  /** `sym.label`, the pattern `^(\w*?):`. A line defines a label when it
      starts with a run of word characters (possibly empty) directly followed
      by `:`; the label is that run. Whatever follows the `:` is not looked at. */
  function LabelDef(line: string): (r: Option<string>)
    ensures r.Some? ==> |r.value| < |line| && AllWordChars(r.value) && line[..|r.value| + 1] == r.value + ":"
    ensures r.None? ==> forall k :: 0 <= k < |line| && line[k] == ':' ==> !AllWordChars(line[..k])
  {
    var k := WordRun(line);
    if k < |line| && line[k] == ':' then
      assert line[..k + 1] == line[..k] + ":";
      Some(line[..k])
    else
      None
  }

  /** `sym.normal_word`, the pattern `^(\w*?)$`: the whole token is word
      characters (the empty token included). The source reads the whole
      match, which is the token itself. */
  predicate IsNormalWord(x: string) {
    AllWordChars(x)
  }

  /** `sym.hex`, the pattern `^([0-9A-F]+?)H$`: upper-case hexadecimal digits
      followed by `H`; yields the digits. */
  function Hex(x: string): (r: Option<string>)
    ensures r.Some? ==> r.value != [] && AllHexDigits(r.value) && x == r.value + "H"
    ensures forall g :: g != [] && AllHexDigits(g) && x == g + "H" ==> r == Some(g)
  {
    if |x| >= 2 && x[|x| - 1] == 'H' && AllHexDigits(x[..|x| - 1]) then
      assert x == x[..|x| - 1] + "H";
      Some(x[..|x| - 1])
    else
      assert forall g :: x == g + "H" ==> g == x[..|x| - 1];
      None
  }

  /** `sym.dec`, the pattern `^([0-9]+?)$`: a non-empty run of decimal digits;
      yields the token. */
  function Dec(x: string): (r: Option<string>)
    ensures r.Some? <==> x != [] && AllDigits(x)
    ensures r.Some? ==> r.value == x
  {
    if x != [] && AllDigits(x) then Some(x) else None
  }

  /** `sym.imm_hex`, the pattern `^#([0-9A-F]+?)H$`: `#`, hexadecimal digits,
      `H`; yields the digits. */
  function ImmHex(x: string): (r: Option<string>)
    ensures r.Some? ==> r.value != [] && AllHexDigits(r.value) && x == "#" + r.value + "H"
    ensures forall g :: g != [] && AllHexDigits(g) && x == "#" + g + "H" ==> r == Some(g)
  {
    if |x| >= 1 && x[0] == '#' then
      var h := Hex(x[1..]);
      assert x == "#" + x[1..];
      assert forall g :: x == "#" + g + "H" ==> x[1..] == g + "H";
      h
    else
      None
  }

  /** `sym.imm_dec`, the pattern `^#([0-9]+?)$`: `#` and decimal digits;
      yields the digits. */
  function ImmDec(x: string): (r: Option<string>)
    ensures r.Some? <==> |x| >= 2 && x[0] == '#' && AllDigits(x[1..])
    ensures r.Some? ==> x == "#" + r.value
  {
    if |x| >= 2 && x[0] == '#' && AllDigits(x[1..]) then
      assert x == "#" + x[1..];
      Some(x[1..])
    else
      None
  }

  /** The group `(\d?)` after a prefix of length `k`: the digit at `k`, or
      the empty string when there is none. */
  function OptionalDigit(x: string, k: nat): string
  {
    if k < |x| && IsDigit(x[k]) then [x[k]] else []
  }

  /** `sym.internal_R_ram`, the pattern `^@R(\d?)`: the token starts with `@R`;
      yields the digit after it, or the empty string when none follows. The
      rest of the token is not looked at. */
  function IndirectReg(x: string): Option<string>
  {
    if |x| >= 2 && x[0] == '@' && x[1] == 'R' then Some(OptionalDigit(x, 2)) else None
  }

  /** `sym.general_reg`, the pattern `^R(\d?)`: the token starts with `R`;
      yields the digit after it, or the empty string. */
  function GeneralReg(x: string): Option<string>
  {
    if |x| >= 1 && x[0] == 'R' then Some(OptionalDigit(x, 1)) else None
  }
}
