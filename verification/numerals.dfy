/** Integers as the assembler reads and writes them: Python's `int(s, radix)`,
    the zero-padded binary format `"{:0Nb}"`, and the arithmetic reading of
    the bit strings the jump encoders build from it.
 */
module Numerals {
  import opened Failures
  import opened Text

  function Max(a: nat, b: nat): nat {
    if a >= b then a else b
  }

  function Pow2(n: nat): (r: nat)
    ensures r >= 1
  {
    if n == 0 then 1 else 2 * Pow2(n - 1)
  }

  function BitChar(x: nat): char {
    if x % 2 == 0 then '0' else '1'
  }

  predicate IsBinary(s: string) {
    forall i :: 0 <= i < |s| ==> s[i] == '0' || s[i] == '1'
  }

  /** The low `n` bits of `x` as binary digits, most significant first. */
  function BitsMsb(x: nat, n: nat): (r: string)
    ensures |r| == n
    ensures IsBinary(r)
  {
    if n == 0 then [] else BitsMsb(x / 2, n - 1) + [BitChar(x)]
  }

  /** How many binary digits Python prints for `x` (one for zero). */
  function BinaryLength(x: nat): (k: nat)
    ensures k >= 1
  {
    if x < 2 then 1 else 1 + BinaryLength(x / 2)
  }

  /** `("{:0" + str(width) + "b}").format(x)`: the binary digits of `x`,
      zero-padded on the left to `width` characters; a negative `x` gets a
      leading `-` that counts towards the width. */
  function FormatBin(x: int, width: nat): (r: string)
    ensures x >= 0 ==> |r| == Max(width, BinaryLength(x)) && IsBinary(r)
  {
    if x >= 0 then BitsMsb(x, Max(width, BinaryLength(x)))
    else "-" + BitsMsb(-x, Max(if width > 0 then width - 1 else 0, BinaryLength(-x)))
  }

  function BitValue(c: char): nat {
    if c == '1' then 1 else 0
  }

  /** `int(s, 2)` on a non-empty string of binary digits. */
  function FromBin(s: string): nat
  {
    if s == [] then 0 else 2 * FromBin(s[..|s| - 1]) + BitValue(s[|s| - 1])
  }

  /** `int(s, 2)` on what FormatBin prints: an optional `-`, then binary digits. */
  function ParseBin(s: string): int
  {
    if |s| > 0 && s[0] == '-' then -(FromBin(s[1..]) as int) else FromBin(s)
  }

  /** The value of `c` as a digit of a radix up to 36; 36 when it is none. */
  function DigitValue(c: char): nat
  {
    if '0' <= c <= '9' then c as int - '0' as int
    else if 'A' <= c <= 'Z' then c as int - 'A' as int + 10
    else if 'a' <= c <= 'z' then c as int - 'a' as int + 10
    else 36
  }

  predicate IsNumeral(s: string, radix: nat) {
    |s| > 0 && forall i :: 0 <= i < |s| ==> DigitValue(s[i]) < radix
  }

  function Numeral(s: string, radix: nat): nat
  {
    if s == [] then 0 else Numeral(s[..|s| - 1], radix) * radix + DigitValue(s[|s| - 1])
  }

  /** `int(s, radix)` on the strings the assembler passes to it (no sign,
      blanks, underscores or base prefix): `ValueError` unless `s` is a
      non-empty string of digits of `radix`. */
  function ParseInt(s: string, radix: nat): (r: Result<nat>)
  {
    if IsNumeral(s, radix) then Ok(Numeral(s, radix)) else Fail(ValueError)
  }

  /** `x >> b`: the bits of `x` above position `b`. */
  function High(x: nat, b: nat): nat
  {
    var p := Pow2(b);
    DivIsNat(x, p);
    x / p
  }

  /** The `n`-bit value whose bits are the low `n` bits of `x` in reverse order. */
  function ReverseBits(x: nat, n: nat): nat
  {
    if n == 0 then 0 else (x % 2) * Pow2(n - 1) + ReverseBits(x / 2, n - 1)
  }

  /** The digit of value `d` as Python prints it in upper case. */
  function DigitChar(d: nat): (c: char)
    requires d < 16
    ensures IsHexDigit(c) && DigitValue(c) == d
    ensures d < 10 ==> IsDigit(c)
  {
    if d < 10 then ('0' as int + d) as char else ('A' as int + d - 10) as char
  }

  /** The digits of `n` in `radix`, most significant first, without leading
      zeros: what `"{:X}"` (radix 16) or `str` (radix 10) prints. */
  function Digits(n: nat, radix: nat): (r: string)
    requires 2 <= radix <= 16
    ensures r != []
    ensures forall i :: 0 <= i < |r| ==> IsHexDigit(r[i]) && DigitValue(r[i]) < radix
    ensures radix <= 10 ==> forall i :: 0 <= i < |r| ==> IsDigit(r[i])
    decreases n
  {
    if n < radix then [DigitChar(n)]
    else
      DivModSmaller(n, radix);
      var p := Digits(n / radix, radix);
      var c := DigitChar(n % radix);
      AppendDigit(p, c, radix);
      p + [c]
  }

  lemma DivModSmaller(n: nat, m: nat)
    requires 2 <= m <= n
    ensures n / m < n && n % m < m
  {
  }

  lemma AppendDigit(p: string, c: char, radix: nat)
    requires forall i :: 0 <= i < |p| ==> IsHexDigit(p[i]) && DigitValue(p[i]) < radix
    requires radix <= 10 ==> forall i :: 0 <= i < |p| ==> IsDigit(p[i])
    requires IsHexDigit(c) && DigitValue(c) < radix && (radix <= 10 ==> IsDigit(c))
    ensures forall i :: 0 <= i < |p + [c]| ==> IsHexDigit((p + [c])[i]) && DigitValue((p + [c])[i]) < radix
    ensures radix <= 10 ==> forall i :: 0 <= i < |p + [c]| ==> IsDigit((p + [c])[i])
  {
    assert forall i :: 0 <= i < |p| ==> (p + [c])[i] == p[i];
  }

  // ---------------------------------------------------------------------
  // Arithmetic facts

  lemma DivModUnique(x: int, m: int, q: int, r: int)
    requires m > 0 && 0 <= r < m && x == m * q + r
    ensures x / m == q && x % m == r
  {
    var q', r' := x / m, x % m;
    assert m * (q' - q) == r - r';
    SmallMultiple(m, q' - q, r - r');
  }

  /** The only multiple of `m` strictly between `-m` and `m` is zero. */
  lemma SmallMultiple(m: int, d: int, e: int)
    requires m > 0 && m * d == e && -m < e < m
    ensures d == 0
  {
    if d > 0 {
      MulLeq(m, 1, d);
    } else if d < 0 {
      MulLeq(m, d, -1);
    }
  }

  lemma DivIsNat(x: nat, p: nat)
    requires p > 0
    ensures x / p >= 0
  {
    var q := x / p;
    assert x == p * q + x % p;
    if q < 0 {
      MulLeq(p, q, -1);
    }
  }

  lemma MulLeq(m: int, a: int, b: int)
    requires m > 0 && a <= b
    ensures m * a <= m * b
  {
  }

  /** Dividing by `2p` is halving, then dividing by `p`. */
  lemma DivModDouble(x: nat, p: nat)
    requires p > 0
    ensures x / (2 * p) == (x / 2) / p
    ensures x % (2 * p) == 2 * ((x / 2) % p) + x % 2
  {
    var q, r, b := (x / 2) / p, (x / 2) % p, x % 2;
    assert x / 2 == p * q + r;
    assert x == (2 * p) * q + (2 * r + b);
    DivModUnique(x, 2 * p, q, 2 * r + b);
  }

  lemma {:induction false} Pow2Monotone(a: nat, b: nat)
    requires a <= b
    ensures Pow2(a) <= Pow2(b)
    decreases b
  {
    if a < b {
      Pow2Monotone(a, b - 1);
    }
  }

  lemma {:induction false} BinaryLengthBound(x: nat)
    ensures x < Pow2(BinaryLength(x))
    decreases x
  {
    if x >= 2 {
      BinaryLengthBound(x / 2);
    }
  }

  lemma {:induction false} BinaryLengthAtMost(x: nat, w: nat)
    requires w >= 1 && x < Pow2(w)
    ensures BinaryLength(x) <= w
    decreases x
  {
    if x >= 2 {
      assert w >= 2;
      BinaryLengthAtMost(x / 2, w - 1);
    }
  }

  // ---------------------------------------------------------------------
  // Bit strings

  /** The value of a concatenation of bit strings. */
  lemma {:induction false} FromBinAppend(a: string, b: string)
    ensures FromBin(a + b) == FromBin(a) * Pow2(|b|) + FromBin(b)
    decreases |b|
  {
    if b == [] {
      assert a + b == a;
    } else {
      var b', c := b[..|b| - 1], b[|b| - 1];
      assert (a + b)[..|a + b| - 1] == a + b';
      assert (a + b)[|a + b| - 1] == c;
      FromBinAppend(a, b');
      assert FromBin(a + b) == 2 * FromBin(a + b') + BitValue(c);
      assert FromBin(b) == 2 * FromBin(b') + BitValue(c);
      assert Pow2(|b|) == 2 * Pow2(|b'|);
      ScaleShift(FromBin(a), Pow2(|b'|), FromBin(b'), BitValue(c));
    }
  }

  lemma ScaleShift(x: int, p: int, y: int, c: int)
    ensures 2 * (x * p + y) + c == x * (2 * p) + (2 * y + c)
  {
  }

  /** Reading back the low `n` bits of `x` gives `x` modulo `2^n`. */
  lemma {:induction false} FromBinBitsMsb(x: nat, n: nat)
    ensures FromBin(BitsMsb(x, n)) == x % Pow2(n)
    decreases n
  {
    if n > 0 {
      var s := BitsMsb(x, n);
      assert s[..|s| - 1] == BitsMsb(x / 2, n - 1);
      FromBinBitsMsb(x / 2, n - 1);
      DivModDouble(x, Pow2(n - 1));
    }
  }

  /** Printing a bit string's value in as many digits gives the string back. */
  lemma {:induction false} BitsMsbFromBin(u: string)
    requires IsBinary(u)
    ensures BitsMsb(FromBin(u), |u|) == u
    decreases |u|
  {
    if u != [] {
      var p := u[..|u| - 1];
      BitsMsbFromBin(p);
      var v := FromBin(u);
      assert v / 2 == FromBin(p);
      assert u == p + [u[|u| - 1]];
    }
  }

  /** The low `a + b` bits of `x` are its bits above position `b` followed by its low `b` bits. */
  lemma {:induction false} BitsMsbSplit(x: nat, a: nat, b: nat)
    ensures BitsMsb(x, a + b) == BitsMsb(High(x, b), a) + BitsMsb(x, b)
    decreases b
  {
    if b > 0 {
      var h := x / 2;
      BitsMsbSplit(h, a, b - 1);
      HighStep(x, b);
      var low := BitsMsb(h, b - 1);
      assert BitsMsb(x, a + b) == BitsMsb(h, a + (b - 1)) + [BitChar(x)];
      assert BitsMsb(x, b) == low + [BitChar(x)];
    }
  }

  lemma HighStep(x: nat, b: nat)
    requires b > 0
    ensures High(x, b) == High(x / 2, b - 1)
  {
    DivModDouble(x, Pow2(b - 1));
  }

  /** `int(format(x, "0Nb"), 2) == x`, negative `x` included. */
  lemma FormatBinRoundTrip(x: int, width: nat)
    ensures ParseBin(FormatBin(x, width)) == x
  {
    var s := FormatBin(x, width);
    var n := if x >= 0 then x else -x;
    var m := Max(if x >= 0 || width == 0 then width else width - 1, BinaryLength(n));
    BinaryLengthBound(n);
    Pow2Monotone(BinaryLength(n), m);
    FromBinBitsMsb(n, m);
    DivModUnique(n, Pow2(m), 0, n);
    if x >= 0 {
      assert s == BitsMsb(n, m);
      assert s[0] == '0' || s[0] == '1';
    } else {
      assert s[1..] == BitsMsb(n, m);
    }
  }

  /** A value below `2^w` prints in exactly `w` binary digits. */
  lemma FormatBinExact(x: nat, w: nat)
    requires w >= 1 && x < Pow2(w)
    ensures FormatBin(x, w) == BitsMsb(x, w)
  {
    BinaryLengthAtMost(x, w);
  }

  /** Reversing the printed low `n` bits of `x` and reading them back gives ReverseBits. */
  lemma {:induction false} FromBinReversed(x: nat, n: nat)
    ensures FromBin(Reverse(BitsMsb(x, n))) == ReverseBits(x, n)
    decreases n
  {
    if n > 0 {
      var u := BitsMsb(x / 2, n - 1);
      var c := BitChar(x);
      assert BitsMsb(x, n) == u + [c];
      assert (u + [c])[..|u + [c]| - 1] == u;
      assert Reverse(u + [c]) == [c] + Reverse(u);
      FromBinAppend([c], Reverse(u));
      assert FromBin([c]) == 2 * FromBin([]) + BitValue(c);
      assert BitValue(c) == x % 2;
      assert |Reverse(u)| == n - 1;
      FromBinReversed(x / 2, n - 1);
      assert FromBin([c] + Reverse(u)) == (x % 2) * Pow2(n - 1) + ReverseBits(x / 2, n - 1);
    }
  }

  lemma {:induction false} ReverseBitsBound(x: nat, n: nat)
    ensures ReverseBits(x, n) < Pow2(n)
    decreases n
  {
    if n > 0 {
      ReverseBitsBound(x / 2, n - 1);
      assert (x % 2) * Pow2(n - 1) <= Pow2(n - 1);
    }
  }

  /** Reversing the low `n` bits twice keeps exactly the low `n` bits. */
  lemma ReverseBitsTwice(x: nat, n: nat)
    ensures ReverseBits(ReverseBits(x, n), n) == x % Pow2(n)
  {
    var u := BitsMsb(x, n);
    var y := ReverseBits(x, n);
    FromBinReversed(x, n);
    assert y == FromBin(Reverse(u));
    BitsMsbFromBin(Reverse(u));
    assert BitsMsb(y, n) == Reverse(u);
    FromBinReversed(y, n);
    ReverseReverse(u);
    FromBinBitsMsb(x, n);
  }

  /** `int(s, 16)` rejects every string that ends in the hexadecimal suffix `H`. */
  lemma HexSuffixIsNotNumeral(s: string)
    requires |s| > 0 && s[|s| - 1] == 'H'
    ensures ParseInt(s, 16) == Fail(ValueError)
  {
    assert DigitValue(s[|s| - 1]) == 17;
  }

  /** `int(d)` of one decimal digit is that digit's value. */
  lemma ParseOneDigit(c: char)
    requires IsDigit(c)
    ensures ParseInt([c], 10) == Ok(c as int - '0' as int)
  {
    assert [c][..0] == [];
    assert IsNumeral([c], 10);
    assert Numeral([c], 10) == Numeral([], 10) * 10 + DigitValue(c);
  }

  /** Reading back the printed digits of `n` gives `n`. */
  lemma {:induction false} NumeralDigits(n: nat, radix: nat)
    requires 2 <= radix <= 16
    ensures ParseInt(Digits(n, radix), radix) == Ok(n)
    decreases n
  {
    var r := Digits(n, radix);
    assert IsNumeral(r, radix);
    if n < radix {
      assert r[..0] == [];
      assert Numeral(r, radix) == Numeral([], radix) * radix + n;
    } else {
      var p := Digits(n / radix, radix);
      DivStep(n, radix);
      NumeralDigits(n / radix, radix);
      assert r == p + [DigitChar(n % radix)];
      assert r[..|r| - 1] == p;
      assert Numeral(r, radix) == Numeral(p, radix) * radix + n % radix;
    }
  }

  lemma DivStep(n: nat, radix: nat)
    requires 2 <= radix <= n
    ensures n / radix < n
    ensures n == (n / radix) * radix + n % radix
  {
    var q := n / radix;
    assert n == q * radix + n % radix;
    if q > 0 {
      MulLeq(q, 2, radix);
      assert q * 2 <= q * radix <= n;
    }
  }
}
