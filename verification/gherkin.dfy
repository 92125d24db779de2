/** The docstring digest of the Gherkin generator
    (utils/gherkin_generator.py:150-241): `_parse_docstring`, a single
    pass over the lines of a docstring that files each line under the
    section whose header came last, and `_generate_feature_name`. */
module Gherkin {
  import opened Common
  import opened Text

  /** The values `current_section` takes. */
  datatype Part = Description | Parameters | Returns | Examples | Raises

  /** A `{"name": ..., "description": ...}` parameter entry. */
  datatype GParam = GParam(name: string, description: string)

  /** The dictionary `_parse_docstring` returns. */
  datatype Digest = Digest(
    description: string,
    parameters: seq<GParam>,
    returnText: string,
    examples: seq<string>,
    raises: seq<string>)

  const EmptyDigest := Digest("", [], "", [], [])

  // =====================================================================
  // The loop

  /** The section a line opens, if it is a header: its stripped,
      lower-cased text starts with one of the section prefixes; the rest
      of the line does not matter. */
  function HeaderOf(line: string): Option<Part> {
    HeaderOfKey(Lower(Strip(line)))
  }

  /** The header test on the lower-cased, stripped line. */
  function HeaderOfKey(key: string): Option<Part> {
    if StartsWith(key, "args:") || StartsWith(key, "arguments:") || StartsWith(key, "parameters:") then Some(Parameters)
    else if StartsWith(key, "returns:") || StartsWith(key, "return:") then Some(Returns)
    else if StartsWith(key, "examples:") || StartsWith(key, "example:") then Some(Examples)
    else if StartsWith(key, "raises:") || StartsWith(key, "raise:") then Some(Raises)
    else None
  }

  /** What a line of a parameter section does once stripped: a line with
      a colon opens an entry named by the stripped text before the first
      colon and described by the stripped text after it; any other line
      continues the description of the last entry. */
  datatype ParamLine = Opener(entry: GParam) | Continuation(text: string)

  /** A line as the loop sees it: a section header, or stripped text. */
  datatype Line = Header(part: Part) | Text(stripped: string, param: ParamLine)

  /** The parameter test of the loop on a stripped line. */
  function ParamRead(s: string): ParamLine {
    if Contains(s, ":") && !StartsWith(s, " ") then
      var parts := SplitOnce(s, ":").value;
      Opener(GParam(Strip(parts.0), Strip(parts.1)))
    else Continuation(s)
  }

  function Read(line: string): Line {
    match HeaderOf(line)
    case Some(p) => Header(p)
    case None => var s := Strip(line); Text(s, ParamRead(s))
  }

  function Reads(lines: seq<string>): (ls: seq<Line>)
    ensures |ls| == |lines|
  {
    if lines == [] then [] else [Read(lines[0])] + Reads(lines[1..])
  }

  /** The loop's variables: `current_section` and the lists of `result`,
      with the description still a list of lines. `current_param` is
      always the entry last appended to the parameter list (the loop
      appends the very dictionary it keeps), and a two-key dictionary is
      truthy, so it is there exactly when the list is non-empty. */
  datatype Scan = Scan(
    part: Part,
    description: seq<string>,
    parameters: seq<GParam>,
    returnText: string,
    examples: seq<string>,
    raises: seq<string>)

  const Start := Scan(Description, [], [], "", [], [])

  /** The last entry, with `text` added to its description. */
  function Extend(ps: seq<GParam>, text: string): seq<GParam>
    requires ps != []
  {
    ps[..|ps| - 1] + [Last(ps).(description := Last(ps).description + text)]
  }

  /** A parameter line's effect on the entries. */
  function ParamStep(ps: seq<GParam>, pl: ParamLine): seq<GParam> {
    match pl
    case Opener(e) => ps + [e]
    case Continuation(s) => if ps != [] && s != "" then Extend(ps, " " + s) else ps
  }

  /** One iteration of the loop. */
  function Apply(sc: Scan, l: Line): Scan {
    match l
    case Header(p) => sc.(part := p)
    case Text(s, pl) =>
      match sc.part
      case Description => if s != "" then sc.(description := sc.description + [s]) else sc
      case Parameters => sc.(parameters := ParamStep(sc.parameters, pl))
      case Returns =>
        if s != "" then sc.(returnText := if sc.returnText != "" then sc.returnText + " " + s else s) else sc
      case Examples => if s != "" then sc.(examples := sc.examples + [s]) else sc
      case Raises => if s != "" then sc.(raises := sc.raises + [s]) else sc
  }

  /** The loop over the lines. */
  function Run(sc: Scan, ls: seq<Line>): Scan
    decreases |ls|
  {
    if ls == [] then sc else Run(Apply(sc, ls[0]), ls[1..])
  }

  /** `_parse_docstring(docstring)`; `None` stands for a missing docstring. */
  function ParseDocstring(doc: Option<string>): (d: Digest)
    ensures doc.None? ==> d == EmptyDigest
  {
    if doc.None? || doc.value == "" then EmptyDigest
    else
      var sc := Run(Start, Reads(SplitOn(doc.value, '\n')));
      Digest(Join(sc.description, " "), sc.parameters, sc.returnText, sc.examples, sc.raises)
  }

  // =====================================================================
  // Reading a line

  /** A stripped line never starts with a space, so the loop's
      `not stripped.startswith(' ')` test never fails: a parameter line
      opens an entry exactly when it has a colon. */
  lemma ParamReadOfStripped(line: string)
    ensures ParamRead(Strip(line)).Opener? <==> Contains(Strip(line), ":")
    ensures ParamRead(Strip(line)).Opener? ==>
      ParamRead(Strip(line)).entry.name == Strip(SplitOnce(Strip(line), ":").value.0)
  {
    var s := Strip(line);
    StripFacts(line);
    assert !StartsWith(s, " ") by {
      if s != [] {
        assert s[..1][0] == s[0];
      }
    }
  }

  /** Indentation does not change how a line is read: a header is a
      header at any indent, and text is stripped. */
  lemma ReadIgnoresIndent(ws: string, line: string)
    requires IsBlank(ws)
    ensures Read(ws + line) == Read(line)
  {
    StripAfterBlank(ws, line);
    assert HeaderOf(ws + line) == HeaderOf(line);
  }

  /** A blank line is text with nothing in it. */
  lemma ReadBlank(line: string)
    requires IsBlank(line)
    ensures Read(line) == Text("", Continuation(""))
  {
    StripFacts(line);
    assert Lower("") == "";
  }

  // =====================================================================
  // The same digest, section by section

  /** The text of the lines that are not headers, filed under the section
      in force: the one opened by the last header above them, or `p` when
      there is none. */
  datatype Routed = Routed(
    description: seq<string>,
    parameters: seq<ParamLine>,
    returnLines: seq<string>,
    examples: seq<string>,
    raises: seq<string>)

  function File(p: Part, s: string, pl: ParamLine, r: Routed): Routed {
    match p
    case Description => r.(description := [s] + r.description)
    case Parameters => r.(parameters := [pl] + r.parameters)
    case Returns => r.(returnLines := [s] + r.returnLines)
    case Examples => r.(examples := [s] + r.examples)
    case Raises => r.(raises := [s] + r.raises)
  }

  function Route(p: Part, ls: seq<Line>): Routed
    decreases |ls|
  {
    if ls == [] then Routed([], [], [], [], [])
    else match ls[0]
      case Header(q) => Route(q, ls[1..])
      case Text(s, pl) => File(p, s, pl, Route(p, ls[1..]))
  }

  /** The non-empty texts. */
  function NonBlank(ss: seq<string>): seq<string> {
    if ss == [] then [] else (if ss[0] != "" then [ss[0]] else []) + NonBlank(ss[1..])
  }

  /** The index of the first entry opener, or the number of lines. */
  function Lead(pls: seq<ParamLine>): (k: nat)
    ensures k <= |pls|
  {
    if pls == [] || pls[0].Opener? then 0 else 1 + Lead(pls[1..])
  }

  lemma {:induction false} LeadIsFirstOpener(pls: seq<ParamLine>)
    ensures forall j :: 0 <= j < Lead(pls) ==> pls[j].Continuation?
    ensures Lead(pls) < |pls| ==> pls[Lead(pls)].Opener?
    decreases |pls|
  {
    if pls != [] && pls[0].Continuation? {
      LeadIsFirstOpener(pls[1..]);
    }
  }

  /** What continuation lines add to a description: a space and the line,
      for each non-blank one. */
  function More(pls: seq<ParamLine>): string {
    if pls == [] then ""
    else
      var here := match pls[0] case Continuation(s) => if s != "" then " " + s else "" case Opener(_) => "";
      here + More(pls[1..])
  }

  /** The entries of a parameter section, entry by entry: each opener
      starts an entry, and the lines after it up to the next opener
      continue its description. Lines before the first opener belong to
      no entry. */
  function Entries(pls: seq<ParamLine>): seq<GParam>
    decreases |pls|
  {
    if pls == [] then []
    else match pls[0]
      case Continuation(_) => Entries(pls[1..])
      case Opener(e) =>
        var j := 1 + Lead(pls[1..]);
        [e.(description := e.description + More(pls[1..j]))] + Entries(pls[j..])
  }

  /** The stripped text of the lines above the first header. */
  function BeforeHeaders(ls: seq<Line>): seq<string> {
    if ls == [] || ls[0].Header? then [] else [ls[0].stripped] + BeforeHeaders(ls[1..])
  }

  // ---------------------------------------------------------------------
  // Parameters, entry by entry

  /** The entries after continuation lines: the last one's description
      grows by `More(pls)`. */
  function ExtendBy(ps: seq<GParam>, pls: seq<ParamLine>): seq<GParam> {
    if ps == [] then ps else Extend(ps, More(pls))
  }

  function ParamRun(ps: seq<GParam>, pls: seq<ParamLine>): seq<GParam>
    decreases |pls|
  {
    if pls == [] then ps else ParamRun(ParamStep(ps, pls[0]), pls[1..])
  }

  lemma ExtendByNothing(ps: seq<GParam>)
    ensures ExtendBy(ps, []) == ps
  {
    if ps != [] {
      var l := Last(ps);
      assert l.(description := l.description + "") == l;
      assert ps[..|ps| - 1] + [l] == ps;
    }
  }

  lemma ExtendByOne(ps: seq<GParam>, s: string)
    ensures ParamStep(ps, Continuation(s)) == ExtendBy(ps, [Continuation(s)])
  {
    assert More([Continuation(s)]) == (if s != "" then " " + s else "") by {
      assert [Continuation(s)][1..] == [];
    }
    if ps != [] && s == "" {
      ExtendByNothing(ps);
    }
  }

  lemma ExtendByCons(ps: seq<GParam>, pl: ParamLine, pls: seq<ParamLine>)
    requires pl.Continuation?
    ensures ExtendBy(ExtendBy(ps, [pl]), pls) == ExtendBy(ps, [pl] + pls)
  {
    assert ([pl] + pls)[1..] == pls;
    assert [pl][1..] == [];
    assert More([pl] + pls) == More([pl]) + More(pls);
    if ps != [] {
      var l := Last(ps);
      var e := ExtendBy(ps, [pl]);
      assert e[..|e| - 1] == ps[..|ps| - 1];
      assert Last(e) == l.(description := l.description + More([pl]));
      assert l.description + More([pl]) + More(pls) == l.description + More([pl] + pls);
    }
  }

  lemma ExtendByAppend(ps: seq<GParam>, e: GParam, pls: seq<ParamLine>)
    ensures ExtendBy(ps + [e], pls) == ps + [e.(description := e.description + More(pls))]
  {
    assert (ps + [e])[..|ps|] == ps;
  }

  lemma EntriesAtOpener(pls: seq<ParamLine>)
    requires pls != [] && pls[0].Opener?
    ensures var k := Lead(pls[1..]); var o := pls[0].entry;
      Entries(pls) == [o.(description := o.description + More(pls[1..][..k]))] + Entries(pls[1..][k..])
  {
    var k := Lead(pls[1..]);
    assert pls[1..][..k] == pls[1..1 + k];
    assert pls[1..][k..] == pls[1 + k..];
  }

  /** The step of `ParamRunEntries` at an opener. */
  lemma OpensCase(ps: seq<GParam>, pls: seq<ParamLine>)
    requires pls != [] && pls[0].Opener?
    ensures var rest := pls[1..];
      ExtendBy(ps + [pls[0].entry], rest[..Lead(rest)]) + Entries(rest[Lead(rest)..]) == ps + Entries(pls)
  {
    var rest := pls[1..];
    var k := Lead(rest);
    var o := pls[0].entry;
    var o' := o.(description := o.description + More(rest[..k]));
    EntriesAtOpener(pls);
    ExtendByAppend(ps, o, rest[..k]);
    Regroup(ps, o', Entries(rest[k..]), ExtendBy(ps + [o], rest[..k]), Entries(pls));
  }

  lemma Regroup<T>(a: seq<T>, x: T, b: seq<T>, l: seq<T>, r: seq<T>)
    requires l == a + [x] && r == [x] + b
    ensures l + b == a + r
  {
  }

  /** The step of `ParamRunEntries` at a continuation. */
  lemma ContinuesCase(ps: seq<GParam>, pls: seq<ParamLine>)
    requires pls != [] && pls[0].Continuation?
    ensures var rest := pls[1..];
      ExtendBy(ExtendBy(ps, [pls[0]]), rest[..Lead(rest)]) + Entries(rest[Lead(rest)..])
      == ExtendBy(ps, pls[..Lead(pls)]) + Entries(pls[Lead(pls)..])
  {
    var rest := pls[1..];
    LeadCons(pls);
    ExtendByCons(ps, pls[0], rest[..Lead(rest)]);
  }

  /** Behind a continuation line, the lead is one line longer. */
  lemma LeadCons(pls: seq<ParamLine>)
    requires pls != [] && pls[0].Continuation?
    ensures var rest := pls[1..];
      && pls[..Lead(pls)] == [pls[0]] + rest[..Lead(rest)]
      && pls[Lead(pls)..] == rest[Lead(rest)..]
  {
    var rest := pls[1..];
    var k := Lead(rest);
    assert Lead(pls) == 1 + k;
    assert pls[..1 + k] == [pls[0]] + rest[..k];
    assert pls[1 + k..] == rest[k..];
  }

  /** The loop's way of building entries (append at an opener, otherwise
      extend the last one) gives, from any start, the start extended by
      the lines before the first opener, then the entries. */
  lemma {:induction false} ParamRunEntries(ps: seq<GParam>, pls: seq<ParamLine>)
    ensures ParamRun(ps, pls) == ExtendBy(ps, pls[..Lead(pls)]) + Entries(pls[Lead(pls)..])
    decreases |pls|
  {
    if pls == [] {
      ExtendByNothing(ps);
    } else {
      var pl := pls[0];
      ParamRunEntries(ParamStep(ps, pl), pls[1..]);
      match pl
      case Opener(e) =>
        OpensCase(ps, pls);
        assert Lead(pls) == 0;
        assert pls[..0] == [] && pls[0..] == pls;
        ExtendByNothing(ps);
      case Continuation(s) =>
        ExtendByOne(ps, s);
        ContinuesCase(ps, pls);
    }
  }

  lemma {:induction false} EntriesAfterLead(pls: seq<ParamLine>)
    ensures Entries(pls[Lead(pls)..]) == Entries(pls)
    decreases |pls|
  {
    if pls != [] && pls[0].Continuation? {
      EntriesAfterLead(pls[1..]);
      assert pls[1..][Lead(pls[1..])..] == pls[Lead(pls)..];
    }
  }

  /** The parameter loop, started on an empty list, builds exactly the
      entries of its lines. */
  lemma ParamRunIsEntries(pls: seq<ParamLine>)
    ensures ParamRun([], pls) == Entries(pls)
  {
    ParamRunEntries([], pls);
    EntriesAfterLead(pls);
  }

  // ---------------------------------------------------------------------
  // Routing

  lemma NonBlankCons(s: string, ss: seq<string>)
    ensures NonBlank([s] + ss) == (if s != "" then [s] else []) + NonBlank(ss)
  {
    assert ([s] + ss)[1..] == ss;
  }

  /** Appending a line when it is not blank, then the rest's non-blank
      lines, is appending the non-blank lines of both. */
  lemma KeepNonBlank(acc: seq<string>, s: string, rest: seq<string>)
    ensures (if s != "" then acc + [s] else acc) + NonBlank(rest) == acc + NonBlank([s] + rest)
  {
    NonBlankCons(s, rest);
    if s != "" {
      AppendAssoc(acc, [s], NonBlank(rest));
    } else {
      assert [] + NonBlank(rest) == NonBlank(rest);
    }
  }

  lemma RunCons(sc: Scan, ls: seq<Line>)
    requires ls != []
    ensures Run(sc, ls) == Run(Apply(sc, ls[0]), ls[1..])
  {
  }

  lemma {:induction false} RunDescription(sc: Scan, ls: seq<Line>)
    ensures Run(sc, ls).description == sc.description + NonBlank(Route(sc.part, ls).description)
    decreases |ls|
  {
    if ls != [] {
      RunCons(sc, ls);
      RunDescription(Apply(sc, ls[0]), ls[1..]);
      if ls[0].Text? && sc.part == Description {
        KeepNonBlank(sc.description, ls[0].stripped, Route(sc.part, ls[1..]).description);
      }
    }
  }

  lemma {:induction false} RunParameters(sc: Scan, ls: seq<Line>)
    ensures Run(sc, ls).parameters == ParamRun(sc.parameters, Route(sc.part, ls).parameters)
    decreases |ls|
  {
    if ls != [] {
      RunCons(sc, ls);
      RunParameters(Apply(sc, ls[0]), ls[1..]);
      if ls[0].Text? && sc.part == Parameters {
        var r := Route(sc.part, ls[1..]).parameters;
        assert ([ls[0].param] + r)[1..] == r;
      }
    }
  }

  predicate NoneEmpty(parts: seq<string>) {
    forall i :: 0 <= i < |parts| ==> parts[i] != ""
  }

  /** `Join` of non-empty parts is empty only when there are none. */
  lemma JoinNonEmpty(parts: seq<string>, sep: string)
    requires parts != [] && parts[0] != ""
    ensures Join(parts, sep) != ""
  {
    if |parts| > 1 {
      assert Join(parts, sep)[0] == parts[0][0];
    }
  }

  /** Extending a joined text the way the return loop does is joining one
      more part. */
  lemma JoinExtend(done: seq<string>, s: string)
    requires NoneEmpty(done) && s != ""
    ensures Join(done + [s], " ") == (if Join(done, " ") != "" then Join(done, " ") + " " + s else s)
  {
    if done != [] {
      JoinNonEmpty(done, " ");
      JoinSnoc(done, s, " ");
    } else {
      assert done + [s] == [s];
    }
  }

  /** One return line extends the joined text by its non-blank part. */
  lemma ReturnsStep(sc: Scan, l: Line, done: seq<string>)
    requires l.Text? && sc.part == Returns
    requires NoneEmpty(done) && sc.returnText == Join(done, " ")
    ensures Apply(sc, l).part == Returns
    ensures NoneEmpty(done + NonBlank([l.stripped]))
    ensures Apply(sc, l).returnText == Join(done + NonBlank([l.stripped]), " ")
  {
    var s := l.stripped;
    assert [s][1..] == [];
    if s != "" {
      assert NonBlank([s]) == [s];
      JoinExtend(done, s);
    } else {
      assert NonBlank([s]) == [];
      assert done + [] == done;
    }
  }

  /** The return text, kept as a string the loop extends with a space and
      the next line, is the return lines joined by spaces. */
  lemma {:induction false} RunReturns(sc: Scan, ls: seq<Line>, done: seq<string>)
    requires NoneEmpty(done) && sc.returnText == Join(done, " ")
    ensures Run(sc, ls).returnText == Join(done + NonBlank(Route(sc.part, ls).returnLines), " ")
    decreases |ls|
  {
    if ls == [] {
      assert done + [] == done;
    } else {
      RunCons(sc, ls);
      var l := ls[0];
      if l.Text? && sc.part == Returns {
        var r := Route(sc.part, ls[1..]).returnLines;
        ReturnsStep(sc, l, done);
        RunReturns(Apply(sc, l), ls[1..], done + NonBlank([l.stripped]));
        NonBlankCons(l.stripped, r);
        assert NonBlank([l.stripped]) == (if l.stripped != "" then [l.stripped] else []) by {
          assert [l.stripped][1..] == [];
        }
        AppendAssoc(done, NonBlank([l.stripped]), NonBlank(r));
      } else {
        RunReturns(Apply(sc, l), ls[1..], done);
      }
    }
  }

  lemma {:induction false} RunExamples(sc: Scan, ls: seq<Line>)
    ensures Run(sc, ls).examples == sc.examples + NonBlank(Route(sc.part, ls).examples)
    decreases |ls|
  {
    if ls != [] {
      RunCons(sc, ls);
      RunExamples(Apply(sc, ls[0]), ls[1..]);
      if ls[0].Text? && sc.part == Examples {
        KeepNonBlank(sc.examples, ls[0].stripped, Route(sc.part, ls[1..]).examples);
      }
    }
  }

  lemma {:induction false} RunRaises(sc: Scan, ls: seq<Line>)
    ensures Run(sc, ls).raises == sc.raises + NonBlank(Route(sc.part, ls).raises)
    decreases |ls|
  {
    if ls != [] {
      RunCons(sc, ls);
      RunRaises(Apply(sc, ls[0]), ls[1..]);
      if ls[0].Text? && sc.part == Raises {
        KeepNonBlank(sc.raises, ls[0].stripped, Route(sc.part, ls[1..]).raises);
      }
    }
  }

  /** The digest of a non-empty docstring, section by section: the
      description is the non-blank stripped description lines joined by
      spaces, the parameters are the entries of the parameter lines, the
      return text is the non-blank stripped return lines joined by spaces,
      and examples and raises hold one entry per non-blank line. */
  lemma DigestBySections(doc: string)
    requires doc != ""
    ensures var r := Route(Description, Reads(SplitOn(doc, '\n')));
      ParseDocstring(Some(doc)) == Digest(
        Join(NonBlank(r.description), " "),
        Entries(r.parameters),
        Join(NonBlank(r.returnLines), " "),
        NonBlank(r.examples),
        NonBlank(r.raises))
  {
    var ls := Reads(SplitOn(doc, '\n'));
    var r := Route(Description, ls);
    RunDescription(Start, ls);
    RunParameters(Start, ls);
    ParamRunIsEntries(r.parameters);
    RunReturns(Start, ls, []);
    assert [] + NonBlank(r.returnLines) == NonBlank(r.returnLines);
    RunExamples(Start, ls);
    RunRaises(Start, ls);
    assert [] + NonBlank(r.description) == NonBlank(r.description);
    assert [] + NonBlank(r.examples) == NonBlank(r.examples);
    assert [] + NonBlank(r.raises) == NonBlank(r.raises);
  }

  /** Headers open the four named sections, never the description. */
  predicate NamedHeaders(ls: seq<Line>) {
    forall i :: 0 <= i < |ls| ==> ls[i] != Header(Description)
  }

  lemma {:induction false} ReadsNamedHeaders(lines: seq<string>)
    ensures NamedHeaders(Reads(lines))
    decreases |lines|
  {
    if lines != [] {
      ReadsNamedHeaders(lines[1..]);
    }
  }

  lemma {:induction false} NoDescriptionAfter(p: Part, ls: seq<Line>)
    requires p != Description && NamedHeaders(ls)
    ensures Route(p, ls).description == []
    decreases |ls|
  {
    if ls != [] {
      match ls[0]
      case Header(q) =>
        assert ls[0] != Header(Description);
        NoDescriptionAfter(q, ls[1..]);
      case Text(_, _) =>
        NoDescriptionAfter(p, ls[1..]);
    }
  }

  /** The description is made of the lines above the first header. */
  lemma {:induction false} DescriptionBeforeHeaders(ls: seq<Line>)
    requires NamedHeaders(ls)
    ensures Route(Description, ls).description == BeforeHeaders(ls)
    decreases |ls|
  {
    if ls != [] {
      match ls[0]
      case Header(q) =>
        assert ls[0] != Header(Description);
        NoDescriptionAfter(q, ls[1..]);
      case Text(_, _) =>
        DescriptionBeforeHeaders(ls[1..]);
    }
  }

  /** The description of a docstring is the non-blank stripped lines
      above its first header, joined by single spaces. */
  lemma DescriptionOfDocstring(doc: string)
    requires doc != ""
    ensures ParseDocstring(Some(doc)).description == Join(NonBlank(BeforeHeaders(Reads(SplitOn(doc, '\n')))), " ")
  {
    DigestBySections(doc);
    ReadsNamedHeaders(SplitOn(doc, '\n'));
    DescriptionBeforeHeaders(Reads(SplitOn(doc, '\n')));
  }

  lemma {:induction false} RunBlank(sc: Scan, lines: seq<string>)
    requires forall i :: 0 <= i < |lines| ==> IsBlank(lines[i])
    ensures Run(sc, Reads(lines)) == sc
    decreases |lines|
  {
    if lines != [] {
      ReadBlank(lines[0]);
      assert Apply(sc, Read(lines[0])) == sc;
      RunBlank(sc, lines[1..]);
    }
  }

  /** A docstring of whitespace only has the same digest as an empty one:
      the early return of the source is a shortcut, not a special case. */
  lemma BlankDocstring(doc: string)
    requires IsBlank(doc)
    ensures ParseDocstring(Some(doc)) == EmptyDigest
  {
    if doc != "" {
      SplitOnBlank(doc, '\n');
      RunBlank(Start, SplitOn(doc, '\n'));
    }
  }

  // =====================================================================
  // Feature names (utils/gherkin_generator.py:229-241)

  /** `s.replace('_', ' ')` */
  function Unscore(s: string): string {
    seq(|s|, i requires 0 <= i < |s| => if s[i] == '_' then ' ' else s[i])
  }

  /** `w.capitalize()` on ASCII letters: the first character upper case,
      the others lower case. */
  function Capitalize(w: string): string {
    if w == [] then [] else [UpperChar(w[0])] + Lower(w[1..])
  }

  function CapitalizeAll(ws: seq<string>): (cs: seq<string>)
    ensures |cs| == |ws|
  {
    seq(|ws|, i requires 0 <= i < |ws| => Capitalize(ws[i]))
  }

  /** `_generate_feature_name(callable_name)` */
  function FeatureName(name: string): string {
    Join(CapitalizeAll(Words(Unscore(name))), " ")
  }

  /** Capitalising keeps a word a word, adds no underscore, and is
      idempotent. */
  lemma CapitalizeWord(w: string)
    requires IsWord(w)
    ensures IsWord(Capitalize(w))
    ensures '_' !in w ==> '_' !in Capitalize(w)
    ensures Capitalize(Capitalize(w)) == Capitalize(w)
  {
    var c := Capitalize(w);
    assert |c| == |w|;
    forall j | 0 <= j < |w|
      ensures !IsSpace(c[j]) && (w[j] != '_' ==> c[j] != '_')
    {
      if j > 0 {
        assert c[j] == LowerChar(w[j]);
      }
    }
    CapitalizeTwice(w);
  }

  lemma CapitalizeTwice(w: string)
    ensures Capitalize(Capitalize(w)) == Capitalize(w)
  {
    if w != [] {
      var c := Capitalize(w);
      assert c[1..] == Lower(w[1..]);
      assert Lower(c[1..]) == c[1..];
    }
  }

  lemma CapitalizeAllWords(ws: seq<string>)
    requires AllWords(ws)
    ensures AllWords(CapitalizeAll(ws))
    ensures (forall i :: 0 <= i < |ws| ==> '_' !in ws[i]) ==>
      forall i :: 0 <= i < |ws| ==> '_' !in CapitalizeAll(ws)[i]
    ensures CapitalizeAll(CapitalizeAll(ws)) == CapitalizeAll(ws)
  {
    forall i | 0 <= i < |ws|
      ensures IsWord(CapitalizeAll(ws)[i])
      ensures '_' !in ws[i] ==> '_' !in CapitalizeAll(ws)[i]
      ensures CapitalizeAll(CapitalizeAll(ws))[i] == CapitalizeAll(ws)[i]
    {
      assert IsWord(ws[i]);
      CapitalizeWord(ws[i]);
    }
  }

  lemma UnscoreHasNoUnderscore(s: string)
    ensures '_' !in Unscore(s)
    ensures '_' !in s ==> Unscore(s) == s
  {
    var u := Unscore(s);
    assert forall j :: 0 <= j < |u| ==> u[j] != '_';
  }

  /** A feature name is single words split at underscores and whitespace,
      each capitalised, joined by single spaces: it has no underscore, no
      whitespace other than single spaces between words, and splitting it
      gives the capitalised words back. */
  lemma FeatureNameShape(name: string)
    ensures '_' !in FeatureName(name)
    ensures SingleSpaced(FeatureName(name))
    ensures Words(FeatureName(name)) == CapitalizeAll(Words(Unscore(name)))
  {
    var ws := Words(Unscore(name));
    var cs := CapitalizeAll(ws);
    var r := FeatureName(name);
    UnscoreHasNoUnderscore(name);
    WordsAvoid(Unscore(name), '_');
    CapitalizeAllWords(ws);
    JoinWordsSpacing(cs);
    WordsOfJoin(cs);
    JoinAvoids(cs, " ", '_');
  }

  /** Naming a feature name again changes nothing. */
  lemma FeatureNameIdempotent(name: string)
    ensures FeatureName(FeatureName(name)) == FeatureName(name)
  {
    var ws := Words(Unscore(name));
    var r := FeatureName(name);
    FeatureNameShape(name);
    UnscoreHasNoUnderscore(r);
    CapitalizeAllWords(ws);
  }

  /** `sample_function` is named `Sample Function`. */
  lemma SampleFeatureName()
    ensures FeatureName("sample_function") == "Sample Function"
  {
    var ws := ["sample", "function"];
    SampleUnscored();
    SampleWords();
    WordsOfJoin(ws);
    assert Words(Unscore("sample_function")) == ws;
    SampleCapitalized();
    SampleJoined();
  }

  lemma SampleJoined()
    ensures Join(["Sample", "Function"], " ") == "Sample Function"
  {
    assert ["Sample", "Function"][1..] == ["Function"];
  }

  lemma SampleUnscored()
    ensures Unscore("sample_function") == Join(["sample", "function"], " ")
  {
    var u := Unscore("sample_function");
    assert Join(["sample", "function"], " ") == "sample function";
    assert u[6] == ' ';
    assert forall j :: 0 <= j < |u| && j != 6 ==> u[j] == "sample_function"[j];
  }

  lemma SampleWords()
    ensures AllWords(["sample", "function"])
  {
    var ws := ["sample", "function"];
    assert IsWord(ws[0]) && IsWord(ws[1]);
  }

  lemma SampleCapitalized()
    ensures CapitalizeAll(["sample", "function"]) == ["Sample", "Function"]
  {
    CapitalizeLowerWord("sample");
    CapitalizeLowerWord("function");
    assert ["sample", "function"][0] == "sample";
    assert ["sample", "function"][1] == "function";
    assert "sample"[1..] == "ample" && "function"[1..] == "unction";
    assert Capitalize("sample") == "Sample";
    assert Capitalize("function") == "Function";
  }

  /** A word in lower case is capitalised by raising its first letter. */
  lemma CapitalizeLowerWord(w: string)
    requires w != []
    requires forall i :: 0 <= i < |w| ==> 'a' <= w[i] <= 'z'
    ensures Capitalize(w) == [(w[0] as int - 32) as char] + w[1..]
  {
    assert Lower(w[1..]) == w[1..];
  }
}
