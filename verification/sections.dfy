/** `DocstringParser._split_sections` and its three per-style splitters
    (utils/parser.py:100-247).

    The three splitters run the same loop: a line either opens a section or
    is a body line, and body lines go to the current section when there is
    one (a non-empty name) and to the description otherwise. A section is
    stored, under its name, when the next header arrives or the text ends;
    a repeated name overwrites the earlier content but keeps its place in
    the dictionary. They differ only in how a line is classified, which is
    what `GoogleKinds`, `NumpyKinds` and `RestKinds` capture. */
module Sections {
  import opened Common
  import opened Text
  import opened DocTypes

  /** How the loop treats one line: it opens a section with this name and
      these first content lines, or it is a body line. */
  datatype LineKind = Header(name: string, opening: seq<string>) | Body(line: string)

  /** The loop variables `description_lines`, `sections`,
      `current_section` and `current_content`; `current_section = None`
      is the empty name, which Python treats the same way. */
  datatype Splitter = Splitter(description: seq<string>, sections: Dict<string>, current: string, content: seq<string>)

  const Start := Splitter([], [], "", [])

  /** `if current_section: sections[current_section] = '\n'.join(current_content)` */
  function Save(st: Splitter): Dict<string> {
    if st.current != "" then Put(st.sections, st.current, Join(st.content, "\n")) else st.sections
  }

  function Step(st: Splitter, k: LineKind): Splitter {
    match k
    case Header(name, opening) => Splitter(st.description, Save(st), name, opening)
    case Body(line) =>
      if st.current != "" then st.(content := st.content + [line])
      else st.(description := st.description + [line])
  }

  function Run(st: Splitter, ks: seq<LineKind>): Splitter
    decreases |ks|
  {
    if ks == [] then st else Run(Step(st, ks[0]), ks[1..])
  }

  /** The description text and the sections dictionary. */
  function Split(ks: seq<LineKind>): (string, Dict<string>) {
    var st := Run(Start, ks);
    (Join(st.description, "\n"), Save(st))
  }

  /** The names of all section headers that take effect (a header with an
      empty name stores nothing). */
  function HeaderNames(ks: seq<LineKind>): set<string> {
    set i | 0 <= i < |ks| && ks[i].Header? && ks[i].name != "" :: ks[i].name
  }

  /** The body lines before the first header. */
  function Preamble(ks: seq<LineKind>): (p: seq<string>)
    ensures |p| <= |ks|
    ensures |p| < |ks| ==> ks[|p|].Header?
    ensures forall i :: 0 <= i < |p| ==> ks[i] == Body(p[i])
  {
    if ks == [] || ks[0].Header? then [] else [ks[0].line] + Preamble(ks[1..])
  }

  predicate AllHeadersNamed(ks: seq<LineKind>) {
    forall i :: 0 <= i < |ks| && ks[i].Header? ==> ks[i].name != ""
  }

  // ---------------------------------------------------------------------
  // The loop, taken apart

  lemma {:induction false} RunAppend(st: Splitter, a: seq<LineKind>, b: seq<LineKind>)
    ensures Run(st, a + b) == Run(Run(st, a), b)
    decreases |a|
  {
    if a == [] {
      assert a + b == b;
    } else {
      assert (a + b)[0] == a[0];
      assert (a + b)[1..] == a[1..] + b;
      assert Run(st, a + b) == Run(Step(st, a[0]), a[1..] + b);
      RunAppend(Step(st, a[0]), a[1..], b);
    }
  }

  /** Inside a section, body lines up to the next header all join its
      content. */
  lemma {:induction false} RunPreambleInSection(st: Splitter, ks: seq<LineKind>)
    requires st.current != ""
    ensures Run(st, ks) == Run(st.(content := st.content + Preamble(ks)), ks[|Preamble(ks)|..])
    decreases |ks|
  {
    if ks != [] && ks[0].Body? {
      var l := ks[0].line;
      var st' := st.(content := st.content + [l]);
      assert Run(st, ks) == Run(st', ks[1..]);
      var q := Preamble(ks[1..]);
      RunPreambleInSection(st', ks[1..]);
      assert Preamble(ks) == [l] + q;
      assert ks[1..][|q|..] == ks[|q| + 1..];
      AppendAssoc(st.content, [l], q);
    } else {
      assert st.content + [] == st.content;
    }
  }

  /** Outside any section, body lines up to the next header all join the
      description. */
  lemma {:induction false} RunPreambleOutside(st: Splitter, ks: seq<LineKind>)
    requires st.current == ""
    ensures Run(st, ks) == Run(st.(description := st.description + Preamble(ks)), ks[|Preamble(ks)|..])
    decreases |ks|
  {
    if ks != [] && ks[0].Body? {
      var l := ks[0].line;
      var st' := st.(description := st.description + [l]);
      assert Run(st, ks) == Run(st', ks[1..]);
      var q := Preamble(ks[1..]);
      RunPreambleOutside(st', ks[1..]);
      assert Preamble(ks) == [l] + q;
      assert ks[1..][|q|..] == ks[|q| + 1..];
      AppendAssoc(st.description, [l], q);
    } else {
      assert st.description + [] == st.description;
    }
  }

  /** Without a header of name `n`, and not currently inside section `n`,
      the loop never touches the stored content of `n`. */
  lemma {:induction false} RunKeepsOther(st: Splitter, ks: seq<LineKind>, n: string)
    requires st.current != n
    requires forall i :: 0 <= i < |ks| && ks[i].Header? ==> ks[i].name != n
    ensures Get(Save(Run(st, ks)), n) == Get(st.sections, n)
    decreases |ks|
  {
    if ks == [] {
      if st.current != "" {
        PutGet(st.sections, st.current, Join(st.content, "\n"), n);
      }
    } else {
      var st' := Step(st, ks[0]);
      if ks[0].Header? && st.current != "" {
        PutGet(st.sections, st.current, Join(st.content, "\n"), n);
      }
      RunKeepsOther(st', ks[1..], n);
    }
  }

  lemma HeaderNamesCons(ks: seq<LineKind>)
    requires ks != []
    ensures HeaderNames(ks) == (if ks[0].Header? && ks[0].name != "" then {ks[0].name} else {}) + HeaderNames(ks[1..])
  {
    var head := if ks[0].Header? && ks[0].name != "" then {ks[0].name} else {};
    forall x | x in HeaderNames(ks)
      ensures x in head + HeaderNames(ks[1..])
    {
      var i :| 0 <= i < |ks| && ks[i].Header? && ks[i].name != "" && ks[i].name == x;
      if i > 0 {
        assert ks[1..][i - 1] == ks[i];
      }
    }
    forall x | x in HeaderNames(ks[1..])
      ensures x in HeaderNames(ks)
    {
      var i :| 0 <= i < |ks[1..]| && ks[1..][i].Header? && ks[1..][i].name != "" && ks[1..][i].name == x;
      assert ks[i + 1] == ks[1..][i];
    }
  }

  lemma {:induction false} RunKeys(st: Splitter, ks: seq<LineKind>)
    ensures KeySet(Save(Run(st, ks))) == KeySet(Save(st)) + HeaderNames(ks)
    ensures UniqueKeys(st.sections) ==> UniqueKeys(Save(Run(st, ks)))
    decreases |ks|
  {
    if st.current != "" {
      PutKeySet(st.sections, st.current, Join(st.content, "\n"));
      if UniqueKeys(st.sections) {
        PutUnique(st.sections, st.current, Join(st.content, "\n"));
      }
    }
    if ks != [] {
      var st' := Step(st, ks[0]);
      HeaderNamesCons(ks);
      RunKeys(st', ks[1..]);
      match ks[0]
      case Header(name, opening) =>
        if name != "" {
          PutKeySet(st'.sections, name, Join(opening, "\n"));
        }
      case Body(line) =>
        if st.current != "" {
          PutKeySet(st.sections, st.current, Join(st'.content, "\n"));
        }
    }
  }

  // ---------------------------------------------------------------------
  // What the splitter produces

  /** The dictionary holds exactly one entry per distinct non-empty header
      name, and no other. */
  lemma SplitKeys(ks: seq<LineKind>)
    ensures KeySet(Split(ks).1) == HeaderNames(ks)
    ensures UniqueKeys(Split(ks).1)
  {
    RunKeys(Start, ks);
  }

  /** The body lines read while no named section is open: those before the
      first header, and those after a header with an empty name up to the
      next header. `inSection` says whether a named section is open. */
  function OutsideLines(ks: seq<LineKind>, inSection: bool): seq<string>
    decreases |ks|
  {
    if ks == [] then []
    else match ks[0]
      case Header(name, _) => OutsideLines(ks[1..], name != "")
      case Body(line) => (if inSection then [] else [line]) + OutsideLines(ks[1..], inSection)
  }

  lemma {:induction false} RunDescription(st: Splitter, ks: seq<LineKind>)
    ensures Run(st, ks).description == st.description + OutsideLines(ks, st.current != "")
    decreases |ks|
  {
    if ks == [] {
      assert st.description + [] == st.description;
    } else {
      var st' := Step(st, ks[0]);
      RunDescription(st', ks[1..]);
      match ks[0]
      case Header(name, _) =>
      case Body(line) =>
        if st.current == "" {
          AppendAssoc(st.description, [line], OutsideLines(ks[1..], false));
        }
    }
  }

  /** The description is the body lines read while no named section is
      open, joined with newlines: a header with an empty name (a Google
      line `:`) sends the lines after it back to the description. */
  lemma SplitDescription(ks: seq<LineKind>)
    ensures Split(ks).0 == Join(OutsideLines(ks, false), "\n")
  {
    RunDescription(Start, ks);
    assert Start.description + OutsideLines(ks, false) == OutsideLines(ks, false);
  }

  /** When every header carries a name, the description is exactly the body
      lines before the first header, and nothing after it. */
  lemma {:induction false} SplitDescriptionNamed(ks: seq<LineKind>)
    requires AllHeadersNamed(ks)
    ensures Split(ks).0 == Join(Preamble(ks), "\n")
  {
    var p := Preamble(ks);
    RunPreambleOutside(Start, ks);
    assert Start.description + p == p;
    var st := Start.(description := p);
    var rest := ks[|p|..];
    assert Run(Start, ks) == Run(st, rest);
    if rest != [] {
      assert Run(st, rest) == Run(Step(st, rest[0]), rest[1..]);
      assert rest[0] == ks[|p|];
      assert AllHeadersNamed(rest[1..]) by {
        forall i | 0 <= i < |rest[1..]| && rest[1..][i].Header?
          ensures rest[1..][i].name != ""
        {
          assert rest[1..][i] == ks[|p| + 1 + i];
        }
      }
      DescriptionFixed(Step(st, rest[0]), rest[1..]);
    }
  }

  lemma {:induction false} DescriptionFixed(st: Splitter, ks: seq<LineKind>)
    requires st.current != ""
    requires AllHeadersNamed(ks)
    ensures Run(st, ks).description == st.description
    decreases |ks|
  {
    if ks != [] {
      assert AllHeadersNamed(ks[1..]) by {
        forall i | 0 <= i < |ks[1..]| && ks[1..][i].Header?
          ensures ks[1..][i].name != ""
        {
          assert ks[1..][i] == ks[i + 1];
        }
      }
      DescriptionFixed(Step(st, ks[0]), ks[1..]);
    }
  }

  /** A text without headers is all description and yields no section. */
  lemma {:induction false} SplitWithoutHeaders(ks: seq<LineKind>)
    requires forall i :: 0 <= i < |ks| ==> ks[i].Body?
    ensures Split(ks).1 == []
    ensures Split(ks).0 == Join(Preamble(ks), "\n")
    ensures |Preamble(ks)| == |ks|
  {
    RunPreambleOutside(Start, ks);
    assert |Preamble(ks)| == |ks|;
    assert ks[|ks|..] == [];
    assert Start.description + Preamble(ks) == Preamble(ks);
  }

  /** The content stored under a name is that of the LAST header with that
      name: its opening lines followed by the body lines up to the next
      header. */
  lemma {:induction false} SplitSectionContent(ks: seq<LineKind>, h: nat)
    requires h < |ks| && ks[h].Header? && ks[h].name != ""
    requires forall j :: h < j < |ks| && ks[j].Header? ==> ks[j].name != ks[h].name
    ensures Get(Split(ks).1, ks[h].name) == Some(Join(ks[h].opening + Preamble(ks[h + 1..]), "\n"))
  {
    var n := ks[h].name;
    var tail := ks[h + 1..];
    var p := Preamble(tail);
    var rest := tail[|p|..];
    var st3 := SectionOpens(ks, h);
    forall j | 0 <= j < |rest| && rest[j].Header?
      ensures rest[j].name != n
    {
      assert rest[j] == ks[h + 1 + |p| + j];
    }
    SectionCloses(st3, rest, n);
  }

  /** The loop up to the body lines that follow header `h`: the section
      is open with its opening lines and those body lines. */
  lemma SectionOpens(ks: seq<LineKind>, h: nat) returns (st3: Splitter)
    requires h < |ks| && ks[h].Header? && ks[h].name != ""
    ensures st3.current == ks[h].name
    ensures st3.content == ks[h].opening + Preamble(ks[h + 1..])
    ensures Run(Start, ks) == Run(st3, ks[h + 1..][|Preamble(ks[h + 1..])|..])
  {
    var tail := ks[h + 1..];
    assert ks == ks[..h] + ([ks[h]] + tail);
    RunAppend(Start, ks[..h], [ks[h]] + tail);
    var st1 := Run(Start, ks[..h]);
    assert Run(st1, [ks[h]] + tail) == Run(Step(st1, ks[h]), tail) by {
      assert ([ks[h]] + tail)[0] == ks[h];
      assert ([ks[h]] + tail)[1..] == tail;
    }
    var st2 := Step(st1, ks[h]);
    assert st2.current == ks[h].name && st2.content == ks[h].opening;
    RunPreambleInSection(st2, tail);
    st3 := st2.(content := st2.content + Preamble(tail));
  }

  /** From an open section `n` at a header (or the end), with no later
      header of that name, the section's content is what gets stored. */
  lemma SectionCloses(st: Splitter, rest: seq<LineKind>, n: string)
    requires st.current == n && n != ""
    requires rest != [] ==> rest[0].Header?
    requires forall j :: 0 <= j < |rest| && rest[j].Header? ==> rest[j].name != n
    ensures Get(Save(Run(st, rest)), n) == Some(Join(st.content, "\n"))
  {
    var stored := Join(st.content, "\n");
    PutGet(st.sections, n, stored, n);
    assert Get(Save(st), n) == Some(stored);
    if rest != [] {
      var st4 := Splitter(st.description, Save(st), rest[0].name, rest[0].opening);
      assert Run(st, rest) == Run(st4, rest[1..]);
      assert st4.current != n;
      forall i | 0 <= i < |rest[1..]| && rest[1..][i].Header?
        ensures rest[1..][i].name != n
      {
        assert rest[1..][i] == rest[i + 1];
      }
      RunKeepsOther(st4, rest[1..], n);
    }
  }

  // ---------------------------------------------------------------------
  // The three classifiers

  /** Google: a non-blank line whose stripped text ends with `:` and which
      does not start with four spaces opens the section named by that text
      without the colon (utils/parser.py:137-146). */
  predicate IsGoogleHeader(line: string) {
    var s := Strip(line);
    s != "" && EndsWith(s, ":") && !StartsWith(line, "    ")
  }

  function GoogleKind(line: string): (k: LineKind)
    ensures k.Header? <==> IsGoogleHeader(line)
    ensures k.Header? ==> k.opening == [] && Strip(line) == k.name + ":"
    ensures k.Body? ==> k.line == line
  {
    if IsGoogleHeader(line) then
      var s := Strip(line);
      assert s == s[..|s| - 1] + ":";
      Header(s[..|s| - 1], [])
    else Body(line)
  }

  function GoogleKinds(lines: seq<string>): (ks: seq<LineKind>)
    ensures |ks| == |lines|
    ensures forall i :: 0 <= i < |lines| ==> ks[i] == GoogleKind(lines[i])
  {
    seq(|lines|, i requires 0 <= i < |lines| => GoogleKind(lines[i]))
  }

  /** `set(line.strip()) in ({'-'}, {'='})`: a non-empty run of dashes or of
      equals signs. */
  predicate IsUnderline(line: string) {
    var s := Strip(line);
    s != "" && ((forall j :: 0 <= j < |s| ==> s[j] == '-') || (forall j :: 0 <= j < |s| ==> s[j] == '='))
  }

  /** NumPy: a non-blank line that is not the last one and is followed by an
      underline opens the section named by its stripped text. The
      underline itself is NOT skipped: the `i += 1` at utils/parser.py:192
      changes the loop variable of a `for` loop, so the next iteration
      sees the underline as an ordinary line (utils/parser.py:177-196). */
  function NumpyKinds(lines: seq<string>): (ks: seq<LineKind>)
    ensures |ks| == |lines|
    ensures forall i :: 0 <= i < |lines| ==> ks[i] == NumpyKind(lines, i)
  {
    seq(|lines|, i requires 0 <= i < |lines| => NumpyKind(lines, i))
  }

  function NumpyKind(lines: seq<string>, i: nat): (k: LineKind)
    requires i < |lines|
    ensures k.Header? <==> i < |lines| - 1 && Strip(lines[i]) != "" && IsUnderline(lines[i + 1])
    ensures k.Header? ==> k == Header(Strip(lines[i]), [])
    ensures k.Body? ==> k.line == lines[i]
  {
    if i < |lines| - 1 && Strip(lines[i]) != "" && IsUnderline(lines[i + 1])
    then Header(Strip(lines[i]), []) else Body(lines[i])
  }

  /** reStructuredText: a line whose stripped text starts with `:` and has
      another `:` later opens the section named by the stripped text
      between the first two colons; the stripped rest of the line is its
      first content line (utils/parser.py:226-237). */
  predicate IsRestField(line: string) {
    var s := Strip(line);
    StartsWith(s, ":") && Contains(s[1..], ":")
  }

  function RestKind(line: string): (k: LineKind)
    ensures k.Header? <==> IsRestField(line)
    ensures k.Header? ==> |k.opening| == 1 && Strip(k.name) == k.name
    ensures k.Body? ==> k.line == line
  {
    if IsRestField(line) then
      var s := Strip(line);
      // `stripped.split(':', 2)` is `['', field, after]` here: `s` starts
      // with the colon, so splitting `s[1..]` once gives the other two.
      match SplitOnce(s[1..], ":")
      case Some((field, after)) =>
        StripOfStripped(field);
        Header(Strip(field), [Strip(after)])
      case None => Header("", [])
    else Body(line)
  }

  function RestKinds(lines: seq<string>): (ks: seq<LineKind>)
    ensures |ks| == |lines|
    ensures forall i :: 0 <= i < |lines| ==> ks[i] == RestKind(lines[i])
  {
    seq(|lines|, i requires 0 <= i < |lines| => RestKind(lines[i]))
  }

  /** `_split_sections(docstring)`: an unrecognised style leaves the whole
      text as the description. */
  function SplitSections(style: Style, text: string): (r: (string, Dict<string>))
    ensures style == Unrecognized ==> r == (text, [])
  {
    var lines := SplitLines(text);
    match style
    case Google => Split(GoogleKinds(lines))
    case Numpy => Split(NumpyKinds(lines))
    case Rest => Split(RestKinds(lines))
    case Unrecognized => (text, [])
  }

  /** In the NumPy style the underline below a section title is kept: it is
      the first content line of that section (when it is the last section of
      that name, and the underline does not itself title a section). */
  lemma NumpyUnderlineIsContent(lines: seq<string>, h: nat)
    requires h + 1 < |lines|
    requires NumpyKinds(lines)[h].Header? && NumpyKinds(lines)[h + 1].Body?
    requires forall j :: h < j < |lines| && NumpyKinds(lines)[j].Header? ==> NumpyKinds(lines)[j].name != NumpyKinds(lines)[h].name
    ensures IsUnderline(lines[h + 1])
    ensures var c := Get(Split(NumpyKinds(lines)).1, Strip(lines[h]));
            c.Some? && StartsWith(c.value, lines[h + 1])
  {
    var ks := NumpyKinds(lines);
    assert ks[h] == NumpyKind(lines, h);
    assert ks[h + 1] == NumpyKind(lines, h + 1);
    SplitSectionContent(ks, h);
    var p := Preamble(ks[h + 1..]);
    assert ks[h + 1..][0] == ks[h + 1];
    assert p != [] && p[0] == lines[h + 1];
    JoinStartsWithFirst(p, "\n");
  }

  lemma JoinStartsWithFirst(parts: seq<string>, sep: string)
    requires parts != []
    ensures StartsWith(Join(parts, sep), parts[0])
  {
    if |parts| > 1 {
      assert Join(parts, sep) == parts[0] + (sep + Join(parts[1..], sep));
    }
  }
}
