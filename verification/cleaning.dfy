/** `DocstringParser._clean_docstring` (utils/parser.py:75-98): drop one
    blank first line and one blank last line, then remove the smallest
    indentation of the non-blank lines from every line.

    This resembles the trim step of PEP 257 ("Handling Docstring
    Indentation") but is not the same: only one blank line is dropped at
    each end, and the first line takes part in the minimum. */
module Cleaning {
  import opened Common
  import opened Text

  /** The two `lines.pop` steps (utils/parser.py:88-91): the result is a
      contiguous block of the lines; what is dropped is at most one line at
      each end, and only a blank one. */
  function TrimBlankEnds(lines: seq<string>): (r: seq<string>)
    ensures |lines| - 2 <= |r| <= |lines|
    ensures r == lines[..|r|] || (lines != [] && IsBlank(lines[0]) && |r| < |lines| && r == lines[1..1 + |r|])
    ensures lines != [] && !IsBlank(lines[0]) ==> r != [] && r[0] == lines[0]
    ensures lines != [] && !IsBlank(Last(lines)) ==> r != [] && Last(r) == Last(lines)
    ensures |r| == |lines| <==> lines == [] || (!IsBlank(lines[0]) && !IsBlank(Last(lines)))
  {
    var a := if lines != [] && IsBlank(lines[0]) then lines[1..] else lines;
    if a != [] && IsBlank(Last(a)) then a[..|a| - 1] else a
  }

  predicate SomeNonBlank(lines: seq<string>) {
    exists i :: 0 <= i < |lines| && !IsBlank(lines[i])
  }

  /** `min(indents) if indents else 0` over the non-blank lines
      (utils/parser.py:94-95). */
  function MinIndent(lines: seq<string>): (m: nat)
    ensures forall i :: 0 <= i < |lines| && !IsBlank(lines[i]) ==> m <= Indent(lines[i])
    ensures SomeNonBlank(lines) ==> exists i :: 0 <= i < |lines| && !IsBlank(lines[i]) && Indent(lines[i]) == m
    ensures !SomeNonBlank(lines) ==> m == 0
  {
    if lines == [] then 0
    else
      var rest := MinIndent(lines[1..]);
      assert forall i :: 1 <= i < |lines| ==> lines[i] == lines[1..][i - 1];
      if IsBlank(lines[0]) then
        assert SomeNonBlank(lines[1..]) ==> SomeNonBlank(lines) by {
          if SomeNonBlank(lines[1..]) {
            var i :| 0 <= i < |lines[1..]| && !IsBlank(lines[1..][i]);
            assert !IsBlank(lines[i + 1]);
          }
        }
        assert SomeNonBlank(lines) ==> SomeNonBlank(lines[1..]) by {
          if SomeNonBlank(lines) {
            var i :| 0 <= i < |lines| && !IsBlank(lines[i]);
            assert i != 0;
            assert !IsBlank(lines[1..][i - 1]);
          }
        }
        rest
      else if !SomeNonBlank(lines[1..]) then
        Indent(lines[0])
      else
        if Indent(lines[0]) <= rest then Indent(lines[0]) else rest
  }

  /** `line[min_indent:] if line else ''` */
  function DropIndent(line: string, m: nat): (r: string)
    ensures |r| <= |line| && r == line[|line| - |r|..]
    ensures |line| - |r| <= m
    ensures m <= |line| ==> r == line[m..]
  {
    if line == "" then "" else if m <= |line| then line[m..] else ""
  }

  function Dedent(lines: seq<string>, m: nat): (r: seq<string>)
    ensures |r| == |lines|
    ensures forall i :: 0 <= i < |lines| ==> r[i] == DropIndent(lines[i], m)
  {
    seq(|lines|, i requires 0 <= i < |lines| => DropIndent(lines[i], m))
  }

  /** The cleaned lines, before they are joined with `\n`. */
  function CleanLines(lines: seq<string>): (r: seq<string>)
  {
    var t := TrimBlankEnds(lines);
    Dedent(t, MinIndent(t))
  }

  /** `_clean_docstring(docstring)` */
  function Clean(docstring: string): string {
    Join(CleanLines(SplitLines(docstring)), "\n")
  }

  /** One line of the dedent: a line at least `m` deep loses exactly its
      first `m` characters, which are whitespace, and stays blank or
      non-blank as it was. */
  lemma DropIndentLine(l: string, m: nat)
    requires !IsBlank(l) ==> m <= Indent(l)
    ensures IsSpaceRun(l[..|l| - |DropIndent(l, m)|])
    ensures IsBlank(DropIndent(l, m)) <==> IsBlank(l)
  {
    var r := DropIndent(l, m);
    var cut := |l| - |r|;
    IndentFacts(l);
    if !IsBlank(l) {
      assert cut == m;
      var k := Indent(l);
      assert !IsSpace(l[k]);
      assert r[k - m] == l[k];
    } else {
      assert forall j :: 0 <= j < |r| ==> r[j] == l[cut + j];
    }
  }

  /** What the dedent does to one line `l` that became `d`: it removes
      leading whitespace only, exactly `m` characters from a non-blank
      line, and a blank line stays blank and a non-blank one non-blank. */
  predicate DedentedLine(l: string, d: string, m: nat) {
    && |d| <= |l|
    && IsSpaceRun(l[..|l| - |d|])
    && (!IsBlank(l) ==> m <= |l| && d == l[m..])
    && (IsBlank(d) <==> IsBlank(l))
  }

  /** What cleaning removes from each kept line is leading whitespace only:
      exactly the minimum indentation from a non-blank line, and from a
      blank line at most that much; blank and non-blank lines stay what
      they were. */
  lemma {:induction false} DedentRemovesOnlyIndent(lines: seq<string>)
    ensures var m := MinIndent(lines);
            forall i :: 0 <= i < |lines| ==> DedentedLine(lines[i], Dedent(lines, m)[i], m)
  {
    var m := MinIndent(lines);
    var r := Dedent(lines, m);
    forall i | 0 <= i < |lines|
      ensures DedentedLine(lines[i], r[i], m)
    {
      DedentOneLine(lines[i], m);
    }
  }

  lemma DedentOneLine(l: string, m: nat)
    requires !IsBlank(l) ==> m <= Indent(l)
    ensures DedentedLine(l, DropIndent(l, m), m)
  {
    DropIndentLine(l, m);
  }

  /** After the dedent some non-blank line starts in column zero: the
      least-indented line. */
  lemma {:induction false} DedentReachesColumnZero(lines: seq<string>) returns (i: nat)
    requires SomeNonBlank(lines)
    ensures i < |lines|
    ensures !IsBlank(Dedent(lines, MinIndent(lines))[i])
    ensures Indent(Dedent(lines, MinIndent(lines))[i]) == 0
  {
    var m := MinIndent(lines);
    i :| 0 <= i < |lines| && !IsBlank(lines[i]) && Indent(lines[i]) == m;
    var l := lines[i];
    var d := DropIndent(l, m);
    DropIndentLine(l, m);
    assert d == l[m..];
    assert !IsSpace(d[0]) by { IndentFacts(l); assert d[0] == l[m]; }
    IndentFacts(d);
    assert Indent(d) == 0;
  }

  predicate IsSpaceRun(s: string) {
    forall j :: 0 <= j < |s| ==> IsSpace(s[j])
  }

  /** Dedenting is idempotent: once the common indentation is gone, the
      minimum indentation is zero and a second pass changes nothing. */
  lemma {:induction false} DedentIdempotent(lines: seq<string>)
    ensures var r := Dedent(lines, MinIndent(lines));
            Dedent(r, MinIndent(r)) == r
  {
    var r := Dedent(lines, MinIndent(lines));
    DedentRemovesOnlyIndent(lines);
    if SomeNonBlank(lines) {
      var i := DedentReachesColumnZero(lines);
      assert MinIndent(r) == 0;
    } else {
      assert !SomeNonBlank(r);
    }
    assert MinIndent(r) == 0;
    assert forall i :: 0 <= i < |r| ==> DropIndent(r[i], 0) == r[i];
  }

  /** A docstring whose first and last lines are not blank and whose
      least-indented line already starts in column zero comes out of
      cleaning unchanged (line by line). */
  lemma CleanLinesOfClean(lines: seq<string>)
    requires lines != [] ==> !IsBlank(lines[0]) && !IsBlank(Last(lines))
    requires MinIndent(lines) == 0
    ensures CleanLines(lines) == lines
  {
    assert TrimBlankEnds(lines) == lines;
    var d := Dedent(lines, 0);
    forall i | 0 <= i < |lines|
      ensures d[i] == lines[i]
    {
      assert d[i] == DropIndent(lines[i], 0);
    }
    assert d == lines;
  }

  lemma SplitLinesTwoBlanks()
    ensures SplitLines("\n\nabc") == ["", "", "abc"]
  {
    assert FirstBreak("\n\nabc") == 0;
    assert "\n\nabc"[1..] == "\nabc";
    SplitLinesOneBlank();
  }

  lemma SplitLinesOneBlank()
    ensures SplitLines("\nabc") == ["", "abc"]
  {
    assert FirstBreak("\nabc") == 0;
    assert "\nabc"[1..] == "abc";
    assert FirstBreak("abc") == 3;
  }

  lemma CleanLinesAbc(lines: seq<string>)
    requires lines == ["", "abc"] || lines == ["", "", "abc"]
    ensures CleanLines(lines) == lines[1..]
  {
    var t := TrimBlankEnds(lines);
    assert !IsBlank("abc") by { assert !IsSpace("abc"[0]); }
    assert t == lines[1..];
    IndentFacts("abc");
    assert !IsSpace("abc"[0]);
    assert Indent("abc") == 0;
    assert MinIndent(t) == 0;
    assert Dedent(t, 0) == t;
  }

  lemma CleanTwoBlanks()
    ensures Clean("\n\nabc") == "\nabc"
  {
    SplitLinesTwoBlanks();
    CleanLinesAbc(["", "", "abc"]);
    assert Join(["", "abc"], "\n") == "\nabc";
  }

  lemma CleanOneBlank()
    ensures Clean("\nabc") == "abc"
  {
    SplitLinesOneBlank();
    CleanLinesAbc(["", "abc"]);
  }

  /** Cleaning is not idempotent in general: two blank leading lines lose
      only one of them per pass. */
  lemma CleanTwiceDiffers()
    ensures Clean("\n\nabc") != Clean(Clean("\n\nabc"))
  {
    CleanTwoBlanks();
    CleanOneBlank();
    assert "\nabc" != "abc" by { assert |"\nabc"| != |"abc"|; }
  }
}
