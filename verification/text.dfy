/** The string operations of Python that the assembler relies on, restricted
    to ASCII: character classes, `upper`, `lstrip`, `split`, `split(sep)`,
    `"".join`, `replace(c, "")`, slicing with a step of -1, and the comment
    removal done with a regular expression.
 */
module Text {

  /** Python's `str.isspace` on ASCII: tab, line feed, vertical tab, form feed,
      carriage return, the four information separators (0x1C-0x1F) and space. */
  predicate IsSpace(c: char) {
    c == ' ' || 9 <= c as int <= 13 || 28 <= c as int <= 31
  }

  /** The regular-expression class `\w` on ASCII. */
  predicate IsWordChar(c: char) {
    'A' <= c <= 'Z' || 'a' <= c <= 'z' || '0' <= c <= '9' || c == '_'
  }

  /** The class `[0-9]` (and `\d` on ASCII). */
  predicate IsDigit(c: char) {
    '0' <= c <= '9'
  }

  /** The class `[0-9A-F]`: upper-case hexadecimal digits only. */
  predicate IsHexDigit(c: char) {
    '0' <= c <= '9' || 'A' <= c <= 'F'
  }

  predicate IsLower(c: char) {
    'a' <= c <= 'z'
  }

  predicate AllWordChars(s: string) {
    forall i :: 0 <= i < |s| ==> IsWordChar(s[i])
  }

  predicate NoSpace(s: string) {
    forall i :: 0 <= i < |s| ==> !IsSpace(s[i])
  }

  predicate NoLower(s: string) {
    forall i :: 0 <= i < |s| ==> !IsLower(s[i])
  }

  function Upper(c: char): char {
    if IsLower(c) then (c as int - 32) as char else c
  }

  /** `s.upper()` on ASCII: no lower-case letter is left, and every other
      character is kept in place. */
  function ToUpper(s: string): (r: string)
    ensures |r| == |s| && NoLower(r)
    ensures forall i :: 0 <= i < |s| && !IsLower(s[i]) ==> r[i] == s[i]
    ensures forall i :: 0 <= i < |s| && IsLower(s[i]) ==> r[i] as int == s[i] as int - 32
  {
    seq(|s|, i requires 0 <= i < |s| => Upper(s[i]))
  }

  /** `s.lstrip()`: the leading whitespace is dropped, nothing else. */
  function LStrip(s: string): (r: string)
    ensures |r| <= |s| && r == s[|s| - |r|..]
    ensures forall i :: 0 <= i < |s| - |r| ==> IsSpace(s[i])
    ensures r == [] || !IsSpace(r[0])
  {
    if |s| > 0 && IsSpace(s[0]) then LStrip(s[1..]) else s
  }

  /** `re.sub(';(.*)', "", s)` on a string without line feeds: everything from
      the first `;` on is removed. */
  function CutComment(s: string): (r: string)
    ensures r <= s
    ensures ';' !in r
    ensures |r| < |s| ==> s[|r|] == ';'
  {
    if s == [] || s[0] == ';' then [] else [s[0]] + CutComment(s[1..])
  }

  /** Index of the first occurrence of `c` in `s`, or `|s|` when there is none. */
  function IndexOf(s: string, c: char): (k: nat)
    ensures k <= |s|
    ensures c !in s[..k]
    ensures k < |s| ==> s[k] == c
  {
    if s == [] then 0
    else if s[0] == c then 0
    else
      var k := 1 + IndexOf(s[1..], c);
      assert s[..k] == [s[0]] + s[1..][..k - 1];
      k
  }

  /** `sep.join(pieces)`. */
  function JoinWith(pieces: seq<string>, sep: char): string
  {
    if |pieces| == 0 then []
    else if |pieces| == 1 then pieces[0]
    else pieces[0] + [sep] + JoinWith(pieces[1..], sep)
  }

  /** `s.split(sep)` with a one-character separator: the pieces between the
      occurrences of `sep`, empty ones included, so that joining them with
      `sep` gives `s` back. */
  function SplitOn(s: string, sep: char): (r: seq<string>)
    ensures |r| >= 1
    ensures forall i :: 0 <= i < |r| ==> sep !in r[i]
    ensures JoinWith(r, sep) == s
    decreases |s|
  {
    var k := IndexOf(s, sep);
    if k == |s| then
      assert s[..k] == s;
      [s]
    else
      var rest := SplitOn(s[k + 1..], sep);
      var r := [s[..k]] + rest;
      assert r[1..] == rest;
      assert s == s[..k] + [sep] + s[k + 1..];
      r
  }

  /** Length of the leading run of non-whitespace characters of `s`. */
  function WordLength(s: string): (k: nat)
    ensures k <= |s|
    ensures NoSpace(s[..k])
    ensures k < |s| ==> IsSpace(s[k])
  {
    if s == [] || IsSpace(s[0]) then 0
    else
      var k := 1 + WordLength(s[1..]);
      assert s[..k] == [s[0]] + s[1..][..k - 1];
      k
  }

  /** `s.split()`: the maximal runs of non-whitespace characters, in order. */
  function SplitWords(s: string): (r: seq<string>)
    ensures forall i :: 0 <= i < |r| ==> r[i] != [] && NoSpace(r[i])
    decreases |s|
  {
    var t := LStrip(s);
    if t == [] then []
    else
      var k := WordLength(t);
      [t[..k]] + SplitWords(t[k..])
  }

  /** `"".join(words)`. */
  function Concat(words: seq<string>): string
  {
    if words == [] then [] else words[0] + Concat(words[1..])
  }

  /** `s.replace(c, "")` for a one-character `c`. */
  function Without(s: string, c: char): (r: string)
    ensures c !in r
    ensures |r| <= |s|
  {
    if s == [] then []
    else if s[0] == c then Without(s[1..], c)
    else [s[0]] + Without(s[1..], c)
  }

  /** The characters of `s` that are not whitespace, in order. */
  function NonSpace(s: string): string
  {
    if s == [] then []
    else if IsSpace(s[0]) then NonSpace(s[1..])
    else [s[0]] + NonSpace(s[1..])
  }

  /** `s[::-1]`. */
  function Reverse(s: string): (r: string)
    ensures |r| == |s|
    ensures forall i :: 0 <= i < |s| ==> r[i] == s[|s| - 1 - i]
  {
    if s == [] then [] else [s[|s| - 1]] + Reverse(s[..|s| - 1])
  }

  lemma {:induction false} NonSpaceAppend(a: string, b: string)
    ensures NonSpace(a + b) == NonSpace(a) + NonSpace(b)
    decreases |a|
  {
    if a == [] {
      assert a + b == b;
    } else {
      assert (a + b)[1..] == a[1..] + b;
      NonSpaceAppend(a[1..], b);
    }
  }

  lemma {:induction false} NonSpaceOfSpaces(s: string)
    requires forall i :: 0 <= i < |s| ==> IsSpace(s[i])
    ensures NonSpace(s) == []
    decreases |s|
  {
    if s != [] {
      NonSpaceOfSpaces(s[1..]);
    }
  }

  lemma {:induction false} NonSpaceOfWord(s: string)
    requires NoSpace(s)
    ensures NonSpace(s) == s
    decreases |s|
  {
    if s != [] {
      NonSpaceOfWord(s[1..]);
    }
  }

  /** Gluing the words of `s.split()` back together gives `s` with its
      whitespace removed: no non-whitespace character is lost or reordered. */
  lemma {:induction false} SplitWordsConcat(s: string)
    ensures Concat(SplitWords(s)) == NonSpace(s)
    decreases |s|
  {
    var t := LStrip(s);
    assert NonSpace(s) == NonSpace(t) by {
      var p := s[..|s| - |t|];
      assert s == p + t;
      NonSpaceOfSpaces(p);
      NonSpaceAppend(p, t);
    }
    if t != [] {
      var k := WordLength(t);
      var w, rest := t[..k], t[k..];
      assert |rest| < |s| by {
        assert k >= 1;
      }
      assert NonSpace(t) == w + NonSpace(rest) by {
        assert t == w + rest;
        NonSpaceAppend(w, rest);
        NonSpaceOfWord(w);
      }
      assert Concat(SplitWords(s)) == w + Concat(SplitWords(rest)) by {
        var r := SplitWords(s);
        assert r == [w] + SplitWords(rest);
        assert r[1..] == SplitWords(rest);
      }
      SplitWordsConcat(rest);
    }
  }

  /** Reversing twice gives the string back. */
  lemma ReverseReverse(s: string)
    ensures Reverse(Reverse(s)) == s
  {
    var r := Reverse(Reverse(s));
    assert forall i :: 0 <= i < |s| ==> r[i] == s[i];
  }

  /** Removing a character keeps a string free of lower-case letters. */
  lemma {:induction false} WithoutKeepsNoLower(s: string, c: char)
    requires NoLower(s)
    ensures NoLower(Without(s, c))
    decreases |s|
  {
    if s != [] {
      WithoutKeepsNoLower(s[1..], c);
    }
  }

  /** The pieces of a string without lower-case letters have none either. */
  lemma {:induction false} SplitOnKeepsNoLower(s: string, sep: char)
    requires NoLower(s)
    ensures forall i :: 0 <= i < |SplitOn(s, sep)| ==> NoLower(SplitOn(s, sep)[i])
    decreases |s|
  {
    var k := IndexOf(s, sep);
    if k < |s| {
      SplitOnKeepsNoLower(s[k + 1..], sep);
      var r := SplitOn(s, sep);
      assert r == [s[..k]] + SplitOn(s[k + 1..], sep);
    }
  }
}
