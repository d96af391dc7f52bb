/** The line normaliser `remove_space_comment` (main.py lines 204-213). */
module Normaliser {
  import opened Text

  /** A normalised source line: its 1-based number in the source and its text. */
  datatype Line = Line(number: nat, text: string)

  /** One raw line as the normaliser leaves it: leading whitespace stripped,
      then everything from the first `;` on removed. */
  function Clean(raw: string): string
  {
    CutComment(LStrip(raw))
  }

  /** A cleaned line is empty, or starts with a non-whitespace character and
      holds no `;`. */
  lemma CleanLineShape(raw: string)
    ensures var t := Clean(raw); t == [] || (!IsSpace(t[0]) && ';' !in t)
  {
    var s := LStrip(raw);
    var t := CutComment(s);
    if t != [] {
      assert t <= s;
      assert t[0] == s[0];
    }
  }

  /** The texts from `first` on, numbered from `first`, with the empty ones
      dropped. */
  function NumberNonEmpty(texts: seq<string>, first: nat): (r: seq<Line>)
    ensures forall j :: 0 <= j < |r| ==>
      first <= r[j].number < first + |texts| && r[j].text == texts[r[j].number - first] && r[j].text != []
    ensures forall j, k :: 0 <= j < k < |r| ==> r[j].number < r[k].number
    decreases |texts|
  {
    if texts == [] then []
    else
      var rest := NumberNonEmpty(texts[1..], first + 1);
      if texts[0] == [] then rest else [Line(first, texts[0])] + rest
  }

  /** NumberNonEmpty keeps every non-empty text, under its number. */
  lemma {:induction false} NumberNonEmptyKeeps(texts: seq<string>, first: nat, i: nat)
    requires i < |texts| && texts[i] != []
    ensures Line(first + i, texts[i]) in NumberNonEmpty(texts, first)
    decreases i
  {
    var r := NumberNonEmpty(texts, first);
    if i == 0 {
      assert r[0] == Line(first, texts[0]);
    } else {
      var rest := NumberNonEmpty(texts[1..], first + 1);
      NumberNonEmptyKeeps(texts[1..], first + 1, i - 1);
      assert texts[1..][i - 1] == texts[i];
      assert r == rest || r == [Line(first, texts[0])] + rest;
    }
  }

  /** The cleaned text of each raw line. */
  function CleanAll(raws: seq<string>): (r: seq<string>)
    ensures |r| == |raws|
    ensures forall i :: 0 <= i < |raws| ==> r[i] == Clean(raws[i])
  {
    seq(|raws|, i requires 0 <= i < |raws| => Clean(raws[i]))
  }

  /** `remove_space_comment(code)`: the source split at line feeds, numbered
      from 1, each line cleaned, empty results dropped. Every line that
      comes out is non-empty and numbered within the source. */
  function Normalise(code: string): (r: seq<Line>)
    ensures forall j :: 0 <= j < |r| ==> 1 <= r[j].number <= |SplitOn(code, '\n')| && r[j].text != []
  {
    NumberNonEmpty(CleanAll(SplitOn(code, '\n')), 1)
  }

  /** Every normalised line is non-empty, starts with a non-whitespace
      character and holds no `;`; the line numbers are 1-based and strictly
      increasing. */
  lemma NormalisedLinesAreClean(code: string)
    ensures var r := Normalise(code);
      && (forall j :: 0 <= j < |r| ==> r[j].number >= 1 && r[j].text != [] && !IsSpace(r[j].text[0]) && ';' !in r[j].text)
      && (forall j, k :: 0 <= j < k < |r| ==> r[j].number < r[k].number)
  {
    var raws := SplitOn(code, '\n');
    var texts := CleanAll(raws);
    var r := Normalise(code);
    forall j | 0 <= j < |r|
      ensures !IsSpace(r[j].text[0]) && ';' !in r[j].text
    {
      var m := r[j].number - 1;
      assert r[j].text == texts[m] == Clean(raws[m]);
      CleanLineShape(raws[m]);
    }
  }

  /** NumberNonEmpty keeps text `i` exactly when it is non-empty. */
  lemma NumberNonEmptyAt(texts: seq<string>, first: nat, i: nat)
    requires i < |texts|
    ensures texts[i] != [] <==> Line(first + i, texts[i]) in NumberNonEmpty(texts, first)
  {
    if texts[i] != [] {
      NumberNonEmptyKeeps(texts, first, i);
    }
  }

  /** Raw line `i` (counted from 0) comes out, cleaned and numbered `i + 1`,
      exactly when it does not clean to the empty string. */
  lemma NormaliseKeepsLine(code: string, i: nat)
    requires i < |SplitOn(code, '\n')|
    ensures var raw := SplitOn(code, '\n')[i];
      Clean(raw) != [] <==> Line(i + 1, Clean(raw)) in Normalise(code)
  {
    var raw := SplitOn(code, '\n')[i];
    var texts := CleanAll(SplitOn(code, '\n'));
    assert Clean(raw) != [] <==> Line(i + 1, Clean(raw)) in NumberNonEmpty(texts, 1) by {
      assert texts[i] == Clean(raw);
      NumberNonEmptyAt(texts, 1, i);
    }
    assert Normalise(code) == NumberNonEmpty(texts, 1);
  }

  /** Normalised line `j` is the cleaned raw line its number names. */
  lemma NormaliseLineAt(code: string, j: nat)
    requires j < |Normalise(code)|
    ensures var raws := SplitOn(code, '\n'); var line := Normalise(code)[j];
      1 <= line.number <= |raws| && line.text == Clean(raws[line.number - 1])
  {
    var raws := SplitOn(code, '\n');
    var texts := CleanAll(raws);
    var line := NumberNonEmpty(texts, 1)[j];
    assert line.text == texts[line.number - 1];
  }

  /** Every normalised line is the cleaned raw line its number names. */
  lemma NormaliseInventsNothing(code: string)
    ensures var raws := SplitOn(code, '\n'); var r := Normalise(code);
      forall j :: 0 <= j < |r| ==> r[j].number <= |raws| && r[j].text == Clean(raws[r[j].number - 1])
  {
    forall j | 0 <= j < |Normalise(code)|
      ensures Normalise(code)[j].number <= |SplitOn(code, '\n')|
      ensures Normalise(code)[j].text == Clean(SplitOn(code, '\n')[Normalise(code)[j].number - 1])
    {
      NormaliseLineAt(code, j);
    }
  }

  /** No line is lost and none is invented: raw line `i` (counted from 1)
      appears, cleaned, exactly when it does not clean to the empty string,
      and every output line is the cleaned raw line its number names. */
  lemma NormaliseKeepsEveryLine(code: string)
    ensures var raws := SplitOn(code, '\n'); var r := Normalise(code);
      && (forall i :: 0 <= i < |raws| ==> (Clean(raws[i]) != [] <==> Line(i + 1, Clean(raws[i])) in r))
      && (forall j :: 0 <= j < |r| ==> r[j].number <= |raws| && r[j].text == Clean(raws[r[j].number - 1]))
  {
    forall i | 0 <= i < |SplitOn(code, '\n')|
      ensures Clean(SplitOn(code, '\n')[i]) != [] <==> Line(i + 1, Clean(SplitOn(code, '\n')[i])) in Normalise(code)
    {
      NormaliseKeepsLine(code, i);
    }
    NormaliseInventsNothing(code);
  }
}
