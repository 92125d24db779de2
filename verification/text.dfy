/** The handful of Python `str` operations the parsers are written in,
    modelled on `seq<char>` with Python's own character classes: `strip`,
    `lstrip`, `startswith`, `in`, `split(sep, 1)`, `split()`,
    `splitlines()`, `join`, `lower()` and `str(int)`. */
module Text {
  import opened Common

  /** `c.isspace()` in Python: the ASCII blanks, the four information
      separators and the Unicode space characters. */
  predicate IsSpace(c: char) {
    c == ' ' || ('\t' <= c <= '\r') || ('\U{1C}' <= c <= '\U{1F}')
    || c == '\U{85}' || c == '\U{A0}' || c == '\U{1680}'
    || ('\U{2000}' <= c <= '\U{200A}') || c == '\U{2028}' || c == '\U{2029}'
    || c == '\U{202F}' || c == '\U{205F}' || c == '\U{3000}'
  }

  /** The characters at which `str.splitlines()` ends a line. */
  predicate IsLineBreak(c: char) {
    c == '\n' || c == '\r' || c == '\U{0B}' || c == '\U{0C}'
    || ('\U{1C}' <= c <= '\U{1E}') || c == '\U{85}' || c == '\U{2028}' || c == '\U{2029}'
  }

  lemma LineBreakIsSpace(c: char)
    requires IsLineBreak(c)
    ensures IsSpace(c)
  {
  }

  /** `not s.strip()` */
  predicate IsBlank(s: string) {
    forall i :: 0 <= i < |s| ==> IsSpace(s[i])
  }

  predicate NoLineBreak(s: string) {
    forall i :: 0 <= i < |s| ==> !IsLineBreak(s[i])
  }

  /** `s.lstrip()`. Its properties are stated by `LStripFacts` rather
      than as postconditions, which keeps the solver from unfolding them at
      every string the model mentions. */
  function LStrip(s: string): string {
    if s != [] && IsSpace(s[0]) then LStrip(s[1..]) else s
  }

  /** `s.lstrip()` removes the leading whitespace and nothing else. */
  lemma {:induction false} LStripFacts(s: string)
    ensures |LStrip(s)| <= |s| && LStrip(s) == s[|s| - |LStrip(s)|..]
    ensures forall i :: 0 <= i < |s| - |LStrip(s)| ==> IsSpace(s[i])
    ensures LStrip(s) == [] || !IsSpace(LStrip(s)[0])
  {
    if s != [] && IsSpace(s[0]) {
      var t := s[1..];
      LStripFacts(t);
      var r := LStrip(t);
      assert LStrip(s) == r;
      assert s[|s| - |r|..] == t[|t| - |r|..];
      forall i | 0 <= i < |s| - |r|
        ensures IsSpace(s[i])
      {
        if i > 0 {
          assert s[i] == t[i - 1];
        }
      }
    }
  }

  /** `s.rstrip()` */
  function RStrip(s: string): string {
    if s != [] && IsSpace(s[|s| - 1]) then RStrip(s[..|s| - 1]) else s
  }

  /** `s.rstrip()` removes the trailing whitespace and nothing else. */
  lemma {:induction false} RStripFacts(s: string)
    ensures |RStrip(s)| <= |s| && RStrip(s) == s[..|RStrip(s)|]
    ensures forall i :: |RStrip(s)| <= i < |s| ==> IsSpace(s[i])
    ensures RStrip(s) == [] || !IsSpace(RStrip(s)[|RStrip(s)| - 1])
  {
    if s != [] && IsSpace(s[|s| - 1]) {
      var t := s[..|s| - 1];
      RStripFacts(t);
      var r := RStrip(t);
      assert RStrip(s) == r;
      assert s[..|r|] == t[..|r|];
      forall i | |r| <= i < |s|
        ensures IsSpace(s[i])
      {
        if i < |t| {
          assert s[i] == t[i];
        }
      }
    }
  }

  /** `len(s) - len(s.lstrip())`: the width of the leading whitespace. */
  function Indent(s: string): nat {
    LStripFacts(s);
    |s| - |LStrip(s)|
  }

  lemma IndentFacts(s: string)
    ensures Indent(s) <= |s|
    ensures forall i :: 0 <= i < Indent(s) ==> IsSpace(s[i])
    ensures Indent(s) == |s| || !IsSpace(s[Indent(s)])
    ensures LStrip(s) == s[Indent(s)..]
  {
    LStripFacts(s);
    var k := Indent(s);
    assert k == |s| - |LStrip(s)|;
    assert k < |s| ==> s[k] == LStrip(s)[0];
  }

  /** `s.strip()` */
  function Strip(s: string): string {
    RStrip(LStrip(s))
  }

  /** `s.strip()` is the slice of `s` between its leading and its trailing
      whitespace; it is empty exactly when `s` is blank, and otherwise
      starts and ends with a non-whitespace character. */
  lemma StripFacts(s: string)
    ensures Indent(s) + |Strip(s)| <= |s| && Strip(s) == s[Indent(s)..Indent(s) + |Strip(s)|]
    ensures forall i :: Indent(s) + |Strip(s)| <= i < |s| ==> IsSpace(s[i])
    ensures Strip(s) == [] <==> IsBlank(s)
    ensures Strip(s) == [] || (!IsSpace(Strip(s)[0]) && !IsSpace(Strip(s)[|Strip(s)| - 1]))
  {
    var l := LStrip(s);
    var r := Strip(s);
    var k := Indent(s);
    IndentFacts(s);
    RStripFacts(l);
    assert r == s[k..k + |r|];
    forall i | k + |r| <= i < |s|
      ensures IsSpace(s[i])
    {
      assert s[i] == l[i - k];
    }
    if r != [] {
      assert r[0] == l[0];
    }
  }

  lemma StripOfStripped(s: string)
    ensures Strip(Strip(s)) == Strip(s)
  {
    var r := Strip(s);
    StripFacts(s);
    StripFacts(r);
    IndentFacts(r);
    if r != [] {
      assert Indent(r) == 0;
      assert RStrip(r) == r by { RStripFacts(r); }
    } else {
      assert LStrip(r) == r;
    }
  }

  /** Stripping removes whitespace only, so a character that is not
      whitespace occurs in the stripped text exactly when it occurs in the
      original. */
  lemma StripKeepsChar(s: string, c: char)
    requires !IsSpace(c)
    ensures c in Strip(s) <==> c in s
  {
    var r := Strip(s);
    var k := Indent(s);
    StripFacts(s);
    IndentFacts(s);
    if c in s {
      var j :| 0 <= j < |s| && s[j] == c;
      assert !IsSpace(s[j]);
      assert k <= j < k + |r|;
      assert r[j - k] == c;
    }
    if c in r {
      var j :| 0 <= j < |r| && r[j] == c;
      assert s[k + j] == c;
    }
  }

  /** `[c] in s` is `c in s`. */
  lemma ContainsChar(s: string, c: char)
    ensures Contains(s, [c]) <==> c in s
  {
    if c in s {
      var j :| 0 <= j < |s| && s[j] == c;
      assert OccursAt(s, [c], j);
    }
    if Contains(s, [c]) {
      var j := Find(s, [c]).value;
      assert s[j..j + 1] == [c];
      assert s[j] == c;
    }
  }

  /** `s.startswith(p)` */
  predicate StartsWith(s: string, p: string) {
    |p| <= |s| && s[..|p|] == p
  }

  /** `s.endswith(p)` */
  predicate EndsWith(s: string, p: string) {
    |p| <= |s| && s[|s| - |p|..] == p
  }

  predicate OccursAt(s: string, p: string, i: nat) {
    i + |p| <= |s| && s[i..i + |p|] == p
  }

  /** `s.find(p)` from position `from` on, as an option. */
  function FindFrom(s: string, p: string, from: nat): (r: Option<nat>)
    requires from <= |s|
    ensures r.Some? ==> from <= r.value && OccursAt(s, p, r.value)
    ensures r.Some? ==> forall j :: from <= j < r.value ==> !OccursAt(s, p, j)
    ensures r.None? ==> forall j :: from <= j <= |s| ==> !OccursAt(s, p, j)
    decreases |s| - from
  {
    if OccursAt(s, p, from) then Some(from)
    else if from == |s| then None
    else FindFrom(s, p, from + 1)
  }

  /** `s.find(p)`, with `None` for -1. */
  function Find(s: string, p: string): (r: Option<nat>)
    ensures r.Some? ==> OccursAt(s, p, r.value)
    ensures r.Some? ==> forall j :: 0 <= j < r.value ==> !OccursAt(s, p, j)
    ensures r.None? <==> forall j :: 0 <= j <= |s| ==> !OccursAt(s, p, j)
  {
    FindFrom(s, p, 0)
  }

  /** `p in s` */
  predicate Contains(s: string, p: string) {
    Find(s, p).Some?
  }

  /** `s.split(sep, 1)`: `Some((before, after))` when `sep` occurs (the two
      parts around its first occurrence), `None` when the split yields the
      single part `[s]`. */
  function SplitOnce(s: string, sep: string): (r: Option<(string, string)>)
    requires |sep| > 0
    ensures r.None? <==> !Contains(s, sep)
    ensures r.Some? ==> s == r.value.0 + sep + r.value.1
    ensures r.Some? ==> !Contains(r.value.0, sep)
    ensures r.Some? ==> Find(s, sep).Some? && r.value.0 == s[..Find(s, sep).value]
  {
    match Find(s, sep)
    case None => None
    case Some(i) =>
      var before := s[..i];
      assert !Contains(before, sep) by {
        forall j | 0 <= j <= |before|
          ensures !OccursAt(before, sep, j)
        {
          if OccursAt(before, sep, j) {
            assert s[j..j + |sep|] == before[j..j + |sep|];
            assert OccursAt(s, sep, j);
          }
        }
      }
      Some((before, s[i + |sep|..]))
  }

  /** `sep.join(parts)` */
  function Join(parts: seq<string>, sep: string): string {
    if parts == [] then ""
    else if |parts| == 1 then parts[0]
    else parts[0] + sep + Join(parts[1..], sep)
  }

  /** A character in no part and not in the separator is not in the join. */
  lemma {:induction false} JoinAvoids(parts: seq<string>, sep: string, c: char)
    requires forall i :: 0 <= i < |parts| ==> c !in parts[i]
    requires c !in sep
    ensures c !in Join(parts, sep)
    decreases |parts|
  {
    if |parts| > 1 {
      JoinAvoids(parts[1..], sep, c);
    }
  }

  /** Appending one part to a join adds the separator and the part. */
  lemma {:induction false} JoinSnoc(ps: seq<string>, x: string, sep: string)
    requires ps != []
    ensures Join(ps + [x], sep) == Join(ps, sep) + sep + x
    decreases |ps|
  {
    if |ps| == 1 {
      assert ps + [x] == [ps[0], x];
      assert [ps[0], x][1..] == [x];
    } else {
      assert (ps + [x])[1..] == ps[1..] + [x];
      JoinSnoc(ps[1..], x, sep);
    }
  }

  /** Position of the first line break, or `|s|`. */
  function FirstBreak(s: string): (k: nat)
    ensures k <= |s|
    ensures k < |s| ==> IsLineBreak(s[k])
    ensures forall j :: 0 <= j < k ==> !IsLineBreak(s[j])
  {
    if s == [] || IsLineBreak(s[0]) then 0 else 1 + FirstBreak(s[1..])
  }

  /** `s.splitlines()`: lines end at any line break (`\r\n` counts as one)
      and a final line break does not open an empty last line. */
  function SplitLines(s: string): (lines: seq<string>)
    ensures forall i :: 0 <= i < |lines| ==> NoLineBreak(lines[i])
    ensures s != [] <==> lines != []
    decreases |s|
  {
    if s == [] then []
    else
      var k := FirstBreak(s);
      if k == |s| then [s]
      else
        var w := if s[k] == '\r' && k + 1 < |s| && s[k + 1] == '\n' then 2 else 1;
        [s[..k]] + SplitLines(s[k + w..])
  }

  /** Joining break-free lines with `\n` and splitting the text again gives
      the lines back, provided the last line is not empty (a trailing empty
      line is where `splitlines` and `'\n'.join` disagree). */
  lemma {:induction false} SplitLinesOfJoin(lines: seq<string>)
    requires forall i :: 0 <= i < |lines| ==> NoLineBreak(lines[i])
    requires lines != [] ==> Last(lines) != ""
    ensures SplitLines(Join(lines, "\n")) == lines
  {
    if |lines| == 1 {
      assert FirstBreak(lines[0]) == |lines[0]|;
    } else if |lines| > 1 {
      SplitLinesCons(lines[0], Join(lines[1..], "\n"));
      SplitLinesOfJoin(lines[1..]);
      assert lines == [lines[0]] + lines[1..];
    }
  }

  /** A break-free line followed by `\n` splits off as the first line. */
  lemma SplitLinesCons(l: string, rest: string)
    requires NoLineBreak(l)
    ensures SplitLines(l + "\n" + rest) == [l] + SplitLines(rest)
  {
    var s := l + "\n" + rest;
    assert s[|l|] == '\n';
    assert forall j :: 0 <= j < |l| ==> s[j] == l[j];
    assert FirstBreak(s) == |l|;
    assert s[..|l|] == l;
    assert s[|l| + 1..] == rest;
  }

  /** `s.split(c)` for one separator character: every piece, empty ones
      included. */
  function SplitOn(s: string, c: char): (parts: seq<string>)
    ensures |parts| > 0
    ensures forall i :: 0 <= i < |parts| ==> c !in parts[i]
  {
    match Find(s, [c])
    case None =>
      assert c !in s by {
        if c in s {
          var j :| 0 <= j < |s| && s[j] == c;
          assert OccursAt(s, [c], j);
        }
      }
      [s]
    case Some(i) =>
      assert c !in s[..i] by {
        if c in s[..i] {
          var j :| 0 <= j < i && s[j] == c;
          assert OccursAt(s, [c], j);
        }
      }
      [s[..i]] + SplitOn(s[i + 1..], c)
  }

  /** The pieces of a blank text are blank. */
  lemma {:induction false} SplitOnBlank(s: string, c: char)
    requires IsBlank(s)
    ensures forall i :: 0 <= i < |SplitOn(s, c)| ==> IsBlank(SplitOn(s, c)[i])
    decreases |s|
  {
    match Find(s, [c])
    case None =>
    case Some(i) =>
      var rest := s[i + 1..];
      assert IsBlank(rest) by {
        assert forall j :: 0 <= j < |rest| ==> rest[j] == s[i + 1 + j];
      }
      SplitOnBlank(rest, c);
  }

  /** `sep.join(s.split(sep)) == s` */
  lemma {:induction false} JoinSplitOn(s: string, c: char)
    ensures Join(SplitOn(s, c), [c]) == s
  {
    match Find(s, [c])
    case None =>
    case Some(i) =>
      JoinSplitOn(s[i + 1..], c);
      assert s[i..i + 1] == [c];
      assert s == s[..i] + [c] + s[i + 1..];
  }

  /** `s.split(sep)` for a separator of any non-zero length. */
  function SplitOnText(s: string, sep: string): (parts: seq<string>)
    requires |sep| > 0
    ensures |parts| > 0
    decreases |s|
  {
    match SplitOnce(s, sep)
    case None => [s]
    case Some((before, after)) => [before] + SplitOnText(after, sep)
  }

  /** `s.split()`: the maximal runs of non-whitespace characters. */
  function Words(s: string): (ws: seq<string>)
    ensures forall i :: 0 <= i < |ws| ==> IsWord(ws[i])
    decreases |s|
  {
    var t := LStrip(s);
    LStripFacts(s);
    if t == [] then []
    else
      assert !IsSpace(t[0]);
      var n := WordLength(t);
      assert n > 0;
      var w := t[..n];
      assert IsWord(w);
      [w] + Words(t[n..])
  }

  /** A non-empty run of non-whitespace characters. */
  predicate IsWord(w: string) {
    w != [] && forall j :: 0 <= j < |w| ==> !IsSpace(w[j])
  }

  /** Length of the leading run of non-whitespace characters. */
  function WordLength(s: string): (n: nat)
    ensures n <= |s|
    ensures forall j :: 0 <= j < n ==> !IsSpace(s[j])
    ensures n < |s| ==> IsSpace(s[n])
  {
    if s == [] || IsSpace(s[0]) then 0 else 1 + WordLength(s[1..])
  }

  /** Whitespace in front of a string is invisible to `split()`. */
  lemma WordsAfterSpace(c: char, s: string)
    requires IsSpace(c)
    ensures Words([c] + s) == Words(s)
  {
    assert ([c] + s)[1..] == s;
    assert LStrip([c] + s) == LStrip(s);
  }

  lemma WordLengthOfWord(w: string, rest: string)
    requires IsWord(w)
    requires rest == [] || IsSpace(rest[0])
    ensures WordLength(w + rest) == |w|
  {
    var s := w + rest;
    assert forall j :: 0 <= j < |w| ==> s[j] == w[j];
    if |w| < |s| {
      assert s[|w|] == rest[0];
    }
  }

  /** `' '.join(words)` for non-empty words without whitespace: the text
      starts and ends with a word character, and every whitespace in it is
      a single `' '` between two word characters. */
  predicate SingleSpaced(s: string) {
    forall i :: 0 <= i < |s| && IsSpace(s[i]) ==>
      s[i] == ' ' && 0 < i < |s| - 1 && !IsSpace(s[i - 1]) && !IsSpace(s[i + 1])
  }

  predicate AllWords(ws: seq<string>) {
    forall i :: 0 <= i < |ws| ==> IsWord(ws[i])
  }

  lemma {:induction false} JoinWordsSpacing(ws: seq<string>)
    requires AllWords(ws)
    ensures SingleSpaced(Join(ws, " "))
    ensures ws != [] ==> Join(ws, " ") != [] && !IsSpace(Join(ws, " ")[0])
    ensures ws != [] ==> !IsSpace(Join(ws, " ")[|Join(ws, " ")| - 1])
    decreases |ws|
  {
    if |ws| == 1 {
      assert IsWord(ws[0]);
    } else if |ws| > 1 {
      var w := ws[0];
      var rest := Join(ws[1..], " ");
      var s := Join(ws, " ");
      assert IsWord(w);
      JoinWordsSpacing(ws[1..]);
      assert s == w + " " + rest;
      forall i | 0 <= i < |s| && IsSpace(s[i])
        ensures s[i] == ' ' && 0 < i < |s| - 1 && !IsSpace(s[i - 1]) && !IsSpace(s[i + 1])
      {
        if i == |w| {
          assert s[i - 1] == w[|w| - 1];
          assert s[i + 1] == rest[0];
        } else if i > |w| {
          assert s[i] == rest[i - |w| - 1];
          assert s[i + 1] == rest[i - |w|] || i == |s| - 1;
          if i - |w| - 1 > 0 {
            assert s[i - 1] == rest[i - |w| - 2];
          }
        }
      }
      assert s[|s| - 1] == rest[|rest| - 1];
    }
  }

  /** `split()` undoes `' '.join` on non-empty words without whitespace. */
  lemma {:induction false} WordsOfJoin(ws: seq<string>)
    requires AllWords(ws)
    ensures Words(Join(ws, " ")) == ws
    decreases |ws|
  {
    if ws == [] {
    } else {
      var w := ws[0];
      assert IsWord(w);
      var s := Join(ws, " ");
      var rest := if |ws| == 1 then "" else " " + Join(ws[1..], " ");
      assert s == w + rest;
      WordsCons(w, rest);
      if |ws| > 1 {
        WordsAfterSpace(' ', Join(ws[1..], " "));
        WordsOfJoin(ws[1..]);
      }
      assert ws == [w] + ws[1..];
    }
  }

  /** A word followed by nothing or by whitespace is the first word. */
  lemma WordsCons(w: string, rest: string)
    requires IsWord(w)
    requires rest == [] || IsSpace(rest[0])
    ensures Words(w + rest) == [w] + Words(rest)
  {
    var s := w + rest;
    assert LStrip(s) == s;
    WordLengthOfWord(w, rest);
    assert s[..|w|] == w;
    assert s[|w|..] == rest;
  }

  /** Every word of `s.split()` is a piece of `s`, so a character `s` does
      not have is in none of them. */
  lemma {:induction false} WordsAvoid(s: string, c: char)
    requires c !in s
    ensures forall i :: 0 <= i < |Words(s)| ==> c !in Words(s)[i]
    decreases |s|
  {
    var t := LStrip(s);
    LStripFacts(s);
    assert forall j :: 0 <= j < |t| ==> t[j] == s[|s| - |t| + j];
    if t != [] {
      var n := WordLength(t);
      assert !IsSpace(t[0]);
      assert c !in t[..n];
      assert c !in t[n..];
      WordsAvoid(t[n..], c);
      assert Words(s) == [t[..n]] + Words(t[n..]);
    }
  }

  /** Leading whitespace is invisible to `strip()`. */
  lemma {:induction false} StripAfterBlank(ws: string, s: string)
    requires IsBlank(ws)
    ensures Strip(ws + s) == Strip(s)
    ensures LStrip(ws + s) == LStrip(s)
    decreases |ws|
  {
    if ws == [] {
      assert ws + s == s;
    } else {
      assert (ws + s)[0] == ws[0];
      assert (ws + s)[1..] == ws[1..] + s;
      StripAfterBlank(ws[1..], s);
    }
  }

  function LowerChar(c: char): char {
    if 'A' <= c <= 'Z' then (c as int + 32) as char else c
  }

  function UpperChar(c: char): char {
    if 'a' <= c <= 'z' then (c as int - 32) as char else c
  }

  /** `s.lower()` on ASCII letters. */
  function Lower(s: string): (r: string)
    ensures |r| == |s|
    ensures forall i :: 0 <= i < |s| ==> r[i] == LowerChar(s[i])
  {
    seq(|s|, i requires 0 <= i < |s| => LowerChar(s[i]))
  }

  function DigitChar(d: nat): char
    requires d < 10
  {
    ('0' as int + d) as char
  }

  function NatToString(n: nat): (r: string)
    ensures |r| > 0
    ensures forall i :: 0 <= i < |r| ==> '0' <= r[i] <= '9'
  {
    if n < 10 then [DigitChar(n)] else NatToString(n / 10) + [DigitChar(n % 10)]
  }

  /** `str(i)` for an integer. */
  function IntToString(i: int): (r: string)
    ensures |r| > 0
  {
    if i < 0 then "-" + NatToString(-i) else NatToString(i)
  }
}
