/** The section parsers of `DocstringParser` (utils/parser.py:307-683):
    they turn the text stored under one section name into parameter,
    return, exception and example entries. Each loop is a left fold over
    the section's lines whose state is the loop's variables. */
module Entries {
  import opened Common
  import opened Text
  import opened DocTypes

  /** `stripped text is non-empty and has no whitespace at either end` */
  predicate IsStripped(s: string) {
    s == [] || (!IsSpace(s[0]) && !IsSpace(s[|s| - 1]))
  }

  function ParamNames(ps: seq<Param>): (ns: seq<string>)
    ensures |ns| == |ps|
    ensures forall i :: 0 <= i < |ps| ==> ns[i] == ps[i].name
  {
    seq(|ps|, i requires 0 <= i < |ps| => ps[i].name)
  }

  function RaiseTypes(rs: seq<Raise>): (ts: seq<string>)
    ensures |ts| == |rs|
    ensures forall i :: 0 <= i < |rs| ==> ts[i] == rs[i].etype
  {
    seq(|rs|, i requires 0 <= i < |rs| => rs[i].etype)
  }

  // =====================================================================
  // Parameters, shared by the Google and NumPy loops

  /** `params`, `current_param`, `current_type` and `current_description`. */
  datatype ParamScan = ParamScan(params: seq<Param>, current: string, ctype: Option<string>, lines: seq<string>)

  const NoParam := ParamScan([], "", None, [])

  /** Saving the parameter in progress, if it has a (non-empty) name. */
  function CloseParam(st: ParamScan): (ps: seq<Param>)
    ensures st.current != "" ==> ps == st.params + [Param(st.current, st.ctype, Strip(Join(st.lines, "\n")))]
    ensures st.current == "" ==> ps == st.params
  {
    if st.current != "" then st.params + [Param(st.current, st.ctype, Strip(Join(st.lines, "\n")))]
    else st.params
  }

  // ---------------------------------------------------------------------
  // Google `Args:` (utils/parser.py:308-375)

  /** One line of the Google parameter loop: a line with a colon starts a
      new parameter named by the text before it; another non-blank line
      continues the current description. */
  function GoogleParamStep(st: ParamScan, line: string): ParamScan {
    var s := Strip(line);
    if s == "" then st
    else match SplitOnce(s, ":")
      case Some((before, after)) => ParamScan(CloseParam(st), Strip(before), None, [Strip(after)])
      case None => if st.current != "" then st.(lines := st.lines + [s]) else st
  }

  function GoogleParamRun(st: ParamScan, lines: seq<string>): ParamScan
    decreases |lines|
  {
    if lines == [] then st else GoogleParamRun(GoogleParamStep(st, lines[0]), lines[1..])
  }

  /** The "skip empty lines at the start" loop: from the first non-blank
      line on, or all lines when every line is blank (the loop then never
      breaks). */
  function SkipBlankStart(lines: seq<string>): (r: seq<string>)
    ensures |r| <= |lines| && r == lines[|lines| - |r|..]
    ensures forall i :: 0 <= i < |lines| - |r| ==> IsBlank(lines[i])
  {
    if lines == [] || !IsBlank(lines[0]) then lines
    else
      var rest := SkipBlankStart(lines[1..]);
      assert lines[1..][|lines| - 1 - |rest|..] == lines[|lines| - |rest|..];
      assert forall i :: 1 <= i < |lines| - |rest| ==> lines[i] == lines[1..][i - 1];
      if rest != [] && !IsBlank(rest[0]) then rest else lines
  }

  /** The skip stops at a non-blank line, or keeps everything. */
  lemma {:induction false} SkipBlankStartStops(lines: seq<string>)
    ensures var r := SkipBlankStart(lines); r == lines || (r != [] && !IsBlank(r[0]))
    decreases |lines|
  {
    if lines != [] && IsBlank(lines[0]) {
      SkipBlankStartStops(lines[1..]);
    }
  }

  /** The placeholder list returned when nothing was parsed but the text
      mentions `param1` (utils/parser.py:366-372). */
  const PlaceholderParams := [
    Param("param1", None, "First parameter"),
    Param("param2", None, "Second parameter"),
    Param("param3", None, "Third parameter")]

  /** `_parse_google_params(content)` */
  function GoogleParams(content: string): (ps: seq<Param>)
    ensures UntypedNamed(ps)
  {
    var lines := SkipBlankStart(SplitLines(content));
    var ps := CloseParam(GoogleParamRun(NoParam, lines));
    GoogleParamsTyped(NoParam, lines);
    if ps == [] && Contains(content, "param1") then
      assert UntypedNamed(PlaceholderParams) by {
        assert forall i :: 0 <= i < 3 ==> PlaceholderParams[i].ptype.None? && PlaceholderParams[i].name != "";
      }
      PlaceholderParams
    else ps
  }

  /** Every parameter has a name and none has a type. */
  predicate UntypedNamed(ps: seq<Param>) {
    forall i :: 0 <= i < |ps| ==> ps[i].ptype.None? && ps[i].name != ""
  }

  /** The name of the parameter a Google line opens, if it opens one: the
      stripped text before its first colon. */
  function GoogleOpener(line: string): Option<string> {
    match SplitOnce(Strip(line), ":")
    case Some((before, _)) => Some(Strip(before))
    case None => None
  }

  /** The names the Google parameter loop should record: one per line with
      a colon, in order, leaving out the empty ones. */
  function GoogleParamNames(lines: seq<string>): seq<string> {
    if lines == [] then []
    else
      var here := match GoogleOpener(lines[0]) case Some(n) => if n != "" then [n] else [] case None => [];
      here + GoogleParamNames(lines[1..])
  }

  /** What the Google loop keeps true: no type is ever set, and every saved
      parameter has a name. */
  predicate GoogleParamInv(st: ParamScan) {
    st.ctype.None? && UntypedNamed(st.params)
  }

  lemma GoogleParamStepInv(st: ParamScan, line: string)
    requires GoogleParamInv(st)
    ensures GoogleParamInv(GoogleParamStep(st, line))
  {
    var s := Strip(line);
    var st' := GoogleParamStep(st, line);
    if s != "" {
      match SplitOnce(s, ":")
      case Some((before, after)) =>
        var ps := CloseParam(st);
        assert st' == ParamScan(ps, Strip(before), None, [Strip(after)]);
        assert UntypedNamed(ps);
      case None =>
        assert st'.params == st.params && st'.ctype == st.ctype;
    }
  }

  lemma {:induction false} GoogleParamsTyped(st: ParamScan, lines: seq<string>)
    requires GoogleParamInv(st)
    ensures UntypedNamed(CloseParam(GoogleParamRun(st, lines)))
    decreases |lines|
  {
    if lines == [] {
      assert UntypedNamed(CloseParam(st));
    } else {
      var st' := GoogleParamStep(st, lines[0]);
      assert GoogleParamRun(st, lines) == GoogleParamRun(st', lines[1..]);
      GoogleParamStepInv(st, lines[0]);
      GoogleParamsTyped(st', lines[1..]);
    }
  }

  lemma CloseParamNames(st: ParamScan)
    ensures ParamNames(CloseParam(st)) == ParamNames(st.params) + if st.current != "" then [st.current] else []
  {
    if st.current != "" {
      var ps := CloseParam(st);
      assert ParamNames(ps) == ParamNames(st.params) + [st.current];
    }
  }

  lemma GoogleParamStepNames(st: ParamScan, line: string)
    ensures ParamNames(CloseParam(GoogleParamStep(st, line)))
         == ParamNames(CloseParam(st)) + match GoogleOpener(line) case Some(n) => if n != "" then [n] else [] case None => []
  {
    var s := Strip(line);
    var st' := GoogleParamStep(st, line);
    if s == "" {
      assert !Contains(s, ":") by { ContainsChar(s, ':'); }
      assert st' == st;
    } else {
      match SplitOnce(s, ":")
      case Some((before, after)) =>
        assert st' == ParamScan(CloseParam(st), Strip(before), None, [Strip(after)]);
        assert GoogleOpener(line) == Some(Strip(before));
        CloseParamNames(st');
      case None =>
        assert GoogleOpener(line) == None;
        CloseParamNames(st');
        CloseParamNames(st);
    }
  }

  lemma {:induction false} GoogleParamRunNames(st: ParamScan, lines: seq<string>)
    ensures ParamNames(CloseParam(GoogleParamRun(st, lines)))
         == ParamNames(CloseParam(st)) + GoogleParamNames(lines)
    decreases |lines|
  {
    if lines != [] {
      var st' := GoogleParamStep(st, lines[0]);
      assert GoogleParamRun(st, lines) == GoogleParamRun(st', lines[1..]);
      GoogleParamRunNames(st', lines[1..]);
      GoogleParamStepNames(st, lines[0]);
    }
  }

  /** The Google parameter loop records exactly one parameter per line
      containing a colon, named by the stripped text before the colon, in
      order, skipping only the empty names; the types are always absent.
      The placeholder list replaces an empty result when the text
      mentions `param1`. The leading-blank skip makes no difference, since
      blank lines are skipped by the loop anyway. */
  lemma GoogleParamsNamed(content: string)
    ensures var names := GoogleParamNames(SplitLines(content));
            names == [] && Contains(content, "param1") ==> GoogleParams(content) == PlaceholderParams
    ensures var names := GoogleParamNames(SplitLines(content));
            !(names == [] && Contains(content, "param1")) ==> ParamNames(GoogleParams(content)) == names
  {
    var all := SplitLines(content);
    var names := GoogleParamNames(all);
    var lines := SkipBlankStart(all);
    var ps := CloseParam(GoogleParamRun(NoParam, lines));
    assert CloseParam(NoParam) == [];
    GoogleParamRunNames(NoParam, lines);
    BlankPrefixHasNoNames(all, |all| - |lines|);
    assert lines == all[|all| - |lines|..];
    assert ParamNames(ps) == names;
    assert |ps| == |names|;
    GoogleParamsUnfold(content);
  }

  lemma GoogleParamsUnfold(content: string)
    ensures var ps := CloseParam(GoogleParamRun(NoParam, SkipBlankStart(SplitLines(content))));
            GoogleParams(content) == if ps == [] && Contains(content, "param1") then PlaceholderParams else ps
  {
  }

  /** Blank lines open no parameter. */
  lemma {:induction false} BlankPrefixHasNoNames(lines: seq<string>, k: nat)
    requires k <= |lines|
    requires forall i :: 0 <= i < k ==> IsBlank(lines[i])
    ensures GoogleParamNames(lines) == GoogleParamNames(lines[k..])
    decreases k
  {
    if k > 0 {
      var s := Strip(lines[0]);
      StripFacts(lines[0]);
      assert s == "";
      assert !Contains(s, ":") by { ContainsChar(s, ':'); }
      BlankPrefixHasNoNames(lines[1..], k - 1);
      assert lines[1..][k - 1..] == lines[k..];
    }
  }

  /** The stripped non-blank lines that continue a Google parameter: those
      up to the next line with a colon. */
  function GoogleParamBody(lines: seq<string>): seq<string>
    decreases |lines|
  {
    if lines == [] then []
    else if Strip(lines[0]) == "" then GoogleParamBody(lines[1..])
    else if ':' in lines[0] then []
    else [Strip(lines[0])] + GoogleParamBody(lines[1..])
  }

  /** The Google parameter list read entry by entry: each line with a colon
      opens a parameter named by the stripped text before its first colon;
      the description is the stripped text after that colon followed by
      the continuing lines, joined by newlines and stripped. An entry with
      an empty name is not recorded, and lines before the first colon line
      belong to no parameter. */
  function GoogleParamEntries(lines: seq<string>): seq<Param>
    decreases |lines|
  {
    if lines == [] then [] else GoogleEntry(lines[0], GoogleParamBody(lines[1..])) + GoogleParamEntries(lines[1..])
  }

  /** The parameter a line opens, given the lines that continue it. */
  function GoogleEntry(line: string, body: seq<string>): seq<Param> {
    match SplitOnce(Strip(line), ":")
    case Some((before, after)) =>
      if Strip(before) != "" then [Param(Strip(before), None, Strip(Join([Strip(after)] + body, "\n")))] else []
    case None => []
  }

  /** What the rest of the loop yields from state `st`, read entry by
      entry: the parameter in progress closed with the lines that continue
      it, then the entries. */
  function GoogleParamTail(st: ParamScan, lines: seq<string>): seq<Param> {
    CloseParam(st.(lines := st.lines + GoogleParamBody(lines))) + GoogleParamEntries(lines)
  }

  lemma {:induction false} GoogleParamRunEntries(st: ParamScan, lines: seq<string>)
    ensures CloseParam(GoogleParamRun(st, lines)) == GoogleParamTail(st, lines)
    decreases |lines|
  {
    if lines == [] {
      assert st.(lines := st.lines + []) == st;
    } else {
      var st' := GoogleParamStep(st, lines[0]);
      assert GoogleParamRun(st, lines) == GoogleParamRun(st', lines[1..]);
      GoogleParamRunEntries(st', lines[1..]);
      GoogleParamStepEntries(st, lines);
    }
  }

  /** One line of the loop leaves the entry-by-entry reading unchanged. */
  lemma GoogleParamStepEntries(st: ParamScan, lines: seq<string>)
    requires lines != []
    ensures GoogleParamTail(GoogleParamStep(st, lines[0]), lines[1..]) == GoogleParamTail(st, lines)
  {
    var s := Strip(lines[0]);
    var rest := lines[1..];
    GoogleFirstLineColon(lines[0]);
    if s == "" {
      assert !Contains(s, ":") by { ContainsChar(s, ':'); }
      assert GoogleParamStep(st, lines[0]) == st;
      assert GoogleEntry(lines[0], GoogleParamBody(rest)) == [];
    } else if ':' in lines[0] {
      GoogleOpenStep(st, lines);
    } else {
      GoogleContinueStep(st, lines);
    }
  }

  lemma GoogleOpenStep(st: ParamScan, lines: seq<string>)
    requires lines != [] && Strip(lines[0]) != "" && ':' in lines[0]
    ensures GoogleParamTail(GoogleParamStep(st, lines[0]), lines[1..]) == GoogleParamTail(st, lines)
  {
    var s := Strip(lines[0]);
    var body := GoogleParamBody(lines[1..]);
    GoogleFirstLineColon(lines[0]);
    assert GoogleParamBody(lines) == [];
    assert st.(lines := st.lines + []) == st;
    match SplitOnce(s, ":")
    case Some((before, after)) =>
      var st' := GoogleParamStep(st, lines[0]);
      assert st' == ParamScan(CloseParam(st), Strip(before), None, [Strip(after)]);
      assert CloseParam(st'.(lines := st'.lines + body)) == CloseParam(st) + GoogleEntry(lines[0], body);
      AppendAssoc(CloseParam(st), GoogleEntry(lines[0], body), GoogleParamEntries(lines[1..]));
  }

  lemma GoogleContinueStep(st: ParamScan, lines: seq<string>)
    requires lines != [] && Strip(lines[0]) != "" && ':' !in lines[0]
    ensures GoogleParamTail(GoogleParamStep(st, lines[0]), lines[1..]) == GoogleParamTail(st, lines)
  {
    var s := Strip(lines[0]);
    var body := GoogleParamBody(lines[1..]);
    GoogleFirstLineColon(lines[0]);
    assert GoogleParamBody(lines) == [s] + body;
    assert GoogleEntry(lines[0], body) == [];
    assert GoogleParamEntries(lines) == GoogleParamEntries(lines[1..]);
    if st.current != "" {
      assert GoogleParamStep(st, lines[0]) == st.(lines := st.lines + [s]);
      AppendAssoc(st.lines, [s], body);
    }
  }

  /** Blank lines open no parameter. */
  lemma {:induction false} BlankPrefixHasNoEntries(lines: seq<string>, k: nat)
    requires k <= |lines|
    requires forall i :: 0 <= i < k ==> IsBlank(lines[i])
    ensures GoogleParamEntries(lines) == GoogleParamEntries(lines[k..])
    decreases k
  {
    if k > 0 {
      var s := Strip(lines[0]);
      StripFacts(lines[0]);
      assert s == "";
      assert !Contains(s, ":") by { ContainsChar(s, ':'); }
      BlankPrefixHasNoEntries(lines[1..], k - 1);
      assert lines[1..][k - 1..] == lines[k..];
    }
  }

  /** The Google parameter loop yields exactly the entry-by-entry list: one
      untyped parameter per colon line with a non-empty name, described by
      the text after the colon and the lines that continue it. The
      placeholder list replaces an empty result when the text mentions
      `param1`. */
  lemma GoogleParamsEntries(content: string)
    ensures var ps := GoogleParamEntries(SplitLines(content));
            GoogleParams(content) == if ps == [] && Contains(content, "param1") then PlaceholderParams else ps
  {
    var all := SplitLines(content);
    var lines := SkipBlankStart(all);
    var ps := CloseParam(GoogleParamRun(NoParam, lines));
    assert ps == GoogleParamEntries(lines) by {
      GoogleParamRunEntries(NoParam, lines);
      assert CloseParam(NoParam.(lines := GoogleParamBody(lines))) == [];
    }
    assert GoogleParamEntries(lines) == GoogleParamEntries(all) by {
      BlankPrefixHasNoEntries(all, |all| - |lines|);
    }
    GoogleParamsUnfold(content);
  }

  // ---------------------------------------------------------------------
  // Google `Returns:` (utils/parser.py:378-407)

  /** `_parse_google_returns(content)`: `None` for blank content; the text
      before a colon on the first line is the type. */
  function GoogleReturns(content: string): (r: Option<Returns>)
    ensures r.None? <==> IsBlank(content)
    ensures r.Some? ==> r.value.ReturnsRecord? && IsStripped(r.value.description)
    ensures r.Some? ==> (r.value.rtype.Some? <==> ':' in SplitLines(content)[0])
    ensures r.Some? && r.value.rtype.None? ==> r.value.description == Strip(content)
    ensures r.Some? && r.value.rtype.Some? ==>
              var lines := SplitLines(content);
              var first := Strip(lines[0]);
              var k := Find(first, ":");
              && k.Some?
              && r.value.rtype.value == Strip(first[..k.value])
              && r.value.description == Strip(Strip(first[k.value + 1..]) + "\n" + Join(lines[1..], "\n"))
  {
    StripFacts(content);
    if Strip(content) == "" then None
    else
      var lines := SplitLines(content);
      var first := Strip(lines[0]);
      GoogleFirstLineColon(lines[0]);
      match SplitOnce(first, ":")
      case Some((before, after)) =>
        var d := Strip(Strip(after) + "\n" + Join(lines[1..], "\n"));
        StrippedResult(Strip(after) + "\n" + Join(lines[1..], "\n"));
        SplitOnceParts(first, ":");
        Some(ReturnsRecord(Some(Strip(before)), d))
      case None =>
        StrippedResult(content);
        Some(ReturnsRecord(None, Strip(content)))
  }

  /** The two halves `SplitOnce` gives are the text before and after the
      first occurrence of the separator. */
  lemma SplitOnceParts(s: string, sep: string)
    requires |sep| > 0 && Contains(s, sep)
    ensures var k := Find(s, sep);
            && k.Some? && k.value + |sep| <= |s|
            && SplitOnce(s, sep) == Some((s[..k.value], s[k.value + |sep|..]))
  {
    var r := SplitOnce(s, sep).value;
    var k := Find(s, sep).value;
    assert |r.0| == k;
    assert s[k + |sep|..] == r.1;
  }

  lemma StrippedResult(s: string)
    ensures IsStripped(Strip(s))
  {
    StripFacts(s);
  }

  lemma GoogleFirstLineColon(line: string)
    ensures SplitOnce(Strip(line), ":").Some? <==> ':' in line
  {
    StripKeepsChar(line, ':');
    ContainsChar(Strip(line), ':');
  }

  // ---------------------------------------------------------------------
  // Google `Raises:` (utils/parser.py:410-458)

  /** `exceptions`, `current_exception` (`None` before the first entry
      line) and `current_description`. */
  datatype GoogleRaiseScan = GoogleRaiseScan(raises: seq<Raise>, current: Option<string>, lines: seq<string>)

  /** An exception is saved only when it has a name and at least one
      description line (the `current_exception and current_description`
      test). */
  function CloseGoogleRaise(st: GoogleRaiseScan): seq<Raise> {
    if st.current.Some? && st.current.value != "" && st.lines != []
    then st.raises + [Raise(st.current.value, Strip(Join(st.lines, "\n")))]
    else st.raises
  }

  /** A non-blank line opens a new exception when it is not indented, or
      when no exception has been opened yet. */
  function GoogleRaiseStep(st: GoogleRaiseScan, line: string): GoogleRaiseScan {
    var s := Strip(line);
    if s == "" then st
    else if Indent(line) == 0 || st.current.None? then
      match SplitOnce(s, ":")
      case Some((before, after)) => GoogleRaiseScan(CloseGoogleRaise(st), Some(Strip(before)), [Strip(after)])
      case None => GoogleRaiseScan(CloseGoogleRaise(st), Some(Strip(s)), [])
    else st.(lines := st.lines + [s])
  }

  function GoogleRaiseRun(st: GoogleRaiseScan, lines: seq<string>): GoogleRaiseScan
    decreases |lines|
  {
    if lines == [] then st else GoogleRaiseRun(GoogleRaiseStep(st, lines[0]), lines[1..])
  }

  /** `_parse_google_raises(content)` */
  function GoogleRaises(content: string): seq<Raise> {
    CloseGoogleRaise(GoogleRaiseRun(GoogleRaiseScan([], None, []), SplitLines(content)))
  }

  /** The exception name a line would open: the stripped text before its
      first colon, or the whole stripped line. */
  function RaiseOpenerName(line: string): string {
    var s := Strip(line);
    match SplitOnce(s, ":")
    case Some((before, _)) => Strip(before)
    case None => Strip(s)
  }

  /** The names of the lines that open an exception: the first non-blank
      line and every later non-blank line without indentation. */
  function GoogleRaiseOpeners(lines: seq<string>, started: bool): set<string>
    decreases |lines|
  {
    if lines == [] then {}
    else if Strip(lines[0]) == "" then GoogleRaiseOpeners(lines[1..], started)
    else
      var here := if Indent(lines[0]) == 0 || !started then {RaiseOpenerName(lines[0])} else {};
      here + GoogleRaiseOpeners(lines[1..], true)
  }

  predicate RaisesNamedFrom(rs: seq<Raise>, names: set<string>) {
    forall i :: 0 <= i < |rs| ==> rs[i].etype != "" && rs[i].etype in names
  }

  lemma GoogleRaiseStepOpeners(st: GoogleRaiseScan, line: string, seen: set<string>)
    requires RaisesNamedFrom(st.raises, seen)
    requires st.current.Some? ==> st.current.value in seen
    ensures var st' := GoogleRaiseStep(st, line);
            var seen' := if Strip(line) != "" && (Indent(line) == 0 || st.current.None?) then seen + {RaiseOpenerName(line)} else seen;
            && RaisesNamedFrom(st'.raises, seen')
            && (st'.current.Some? ==> st'.current.value in seen')
            && (st'.current.Some? <==> (st.current.Some? || Strip(line) != ""))
  {
    var s := Strip(line);
    if s != "" && (Indent(line) == 0 || st.current.None?) {
      var seen' := seen + {RaiseOpenerName(line)};
      var rs := CloseGoogleRaise(st);
      assert RaisesNamedFrom(rs, seen');
      var st' := GoogleRaiseStep(st, line);
      assert st'.raises == rs;
      assert st'.current == Some(RaiseOpenerName(line));
    }
  }

  lemma {:induction false} GoogleRaiseRunOpeners(st: GoogleRaiseScan, lines: seq<string>, seen: set<string>)
    requires RaisesNamedFrom(st.raises, seen)
    requires st.current.Some? ==> st.current.value in seen
    ensures RaisesNamedFrom(CloseGoogleRaise(GoogleRaiseRun(st, lines)), seen + GoogleRaiseOpeners(lines, st.current.Some?))
    decreases |lines|
  {
    if lines == [] {
      var rs := CloseGoogleRaise(st);
      assert RaisesNamedFrom(rs, seen);
    } else {
      var st' := GoogleRaiseStep(st, lines[0]);
      assert GoogleRaiseRun(st, lines) == GoogleRaiseRun(st', lines[1..]);
      GoogleRaiseStepOpeners(st, lines[0], seen);
      var opens := Strip(lines[0]) != "" && (Indent(lines[0]) == 0 || st.current.None?);
      var seen' := if opens then seen + {RaiseOpenerName(lines[0])} else seen;
      GoogleRaiseRunOpeners(st', lines[1..], seen');
      assert seen' + GoogleRaiseOpeners(lines[1..], st'.current.Some?)
          == seen + GoogleRaiseOpeners(lines, st.current.Some?);
    }
  }

  /** Every recorded exception has a non-empty name, and that name is the
      one an opening line gives: the first non-blank line of the section
      or a later line without indentation. */
  lemma GoogleRaisesFromOpeners(content: string)
    ensures RaisesNamedFrom(GoogleRaises(content), GoogleRaiseOpeners(SplitLines(content), false))
  {
    GoogleRaiseRunOpeners(GoogleRaiseScan([], None, []), SplitLines(content), {});
  }

  /** The stripped non-blank lines that continue an entry: those up to the
      next non-blank line without indentation. */
  function IndentedBody(lines: seq<string>): seq<string>
    decreases |lines|
  {
    if lines == [] then []
    else if Strip(lines[0]) == "" then IndentedBody(lines[1..])
    else if Indent(lines[0]) == 0 then []
    else [Strip(lines[0])] + IndentedBody(lines[1..])
  }

  /** The Google exception list read entry by entry. An entry opens at the
      first non-blank line and at every later non-blank line without
      indentation (`started` says whether one has opened). Its name is the
      stripped text before the first colon, or the whole stripped line
      without one; its description lines are the stripped text after that
      colon, when there is one, followed by the lines that continue it. The
      entry is recorded only when it has a name and at least one
      description line, with those lines joined by newlines and stripped. */
  function GoogleRaiseEntries(lines: seq<string>, started: bool): seq<Raise>
    decreases |lines|
  {
    if lines == [] then []
    else if Strip(lines[0]) == "" then GoogleRaiseEntries(lines[1..], started)
    else if Indent(lines[0]) == 0 || !started then
      GoogleRaiseEntry(lines[0], IndentedBody(lines[1..])) + GoogleRaiseEntries(lines[1..], true)
    else GoogleRaiseEntries(lines[1..], started)
  }

  /** The exception an opening line records, given the lines that continue
      it. */
  function GoogleRaiseEntry(line: string, body: seq<string>): seq<Raise> {
    var first := match SplitOnce(Strip(line), ":") case Some((_, after)) => [Strip(after)] case None => [];
    var ds := first + body;
    if RaiseOpenerName(line) != "" && ds != [] then [Raise(RaiseOpenerName(line), Strip(Join(ds, "\n")))] else []
  }

  /** What the rest of the Google exception loop yields from state `st`,
      read entry by entry. */
  function GoogleRaiseTail(st: GoogleRaiseScan, lines: seq<string>): seq<Raise> {
    CloseGoogleRaise(st.(lines := st.lines + IndentedBody(lines))) + GoogleRaiseEntries(lines, st.current.Some?)
  }

  lemma {:induction false} GoogleRaiseRunEntries(st: GoogleRaiseScan, lines: seq<string>)
    ensures CloseGoogleRaise(GoogleRaiseRun(st, lines)) == GoogleRaiseTail(st, lines)
    decreases |lines|
  {
    if lines == [] {
      assert st.(lines := st.lines + []) == st;
    } else {
      var st' := GoogleRaiseStep(st, lines[0]);
      assert GoogleRaiseRun(st, lines) == GoogleRaiseRun(st', lines[1..]);
      GoogleRaiseRunEntries(st', lines[1..]);
      GoogleRaiseStepEntries(st, lines);
    }
  }

  /** One line of the loop leaves the entry-by-entry reading unchanged. */
  lemma GoogleRaiseStepEntries(st: GoogleRaiseScan, lines: seq<string>)
    requires lines != []
    ensures GoogleRaiseTail(GoogleRaiseStep(st, lines[0]), lines[1..]) == GoogleRaiseTail(st, lines)
  {
    var s := Strip(lines[0]);
    if s == "" {
      assert GoogleRaiseStep(st, lines[0]) == st;
    } else if Indent(lines[0]) == 0 || st.current.None? {
      GoogleRaiseOpenStep(st, lines);
    } else {
      var body := IndentedBody(lines[1..]);
      assert GoogleRaiseStep(st, lines[0]) == st.(lines := st.lines + [s]);
      assert IndentedBody(lines) == [s] + body;
      AppendAssoc(st.lines, [s], body);
    }
  }

  lemma GoogleRaiseOpenStep(st: GoogleRaiseScan, lines: seq<string>)
    requires lines != [] && Strip(lines[0]) != ""
    requires Indent(lines[0]) == 0 || st.current.None?
    ensures GoogleRaiseTail(GoogleRaiseStep(st, lines[0]), lines[1..]) == GoogleRaiseTail(st, lines)
  {
    var s := Strip(lines[0]);
    var body := IndentedBody(lines[1..]);
    var st' := GoogleRaiseStep(st, lines[0]);
    var first := match SplitOnce(s, ":") case Some((_, after)) => [Strip(after)] case None => [];
    assert st' == GoogleRaiseScan(CloseGoogleRaise(st), Some(RaiseOpenerName(lines[0])), first);
    if Indent(lines[0]) == 0 {
      assert IndentedBody(lines) == [];
      assert st.(lines := st.lines + []) == st;
    }
    assert CloseGoogleRaise(st.(lines := st.lines + IndentedBody(lines))) == CloseGoogleRaise(st);
    assert CloseGoogleRaise(st'.(lines := st'.lines + body)) == CloseGoogleRaise(st) + GoogleRaiseEntry(lines[0], body);
    assert GoogleRaiseEntries(lines, st.current.Some?) == GoogleRaiseEntry(lines[0], body) + GoogleRaiseEntries(lines[1..], true);
    AppendAssoc(CloseGoogleRaise(st), GoogleRaiseEntry(lines[0], body), GoogleRaiseEntries(lines[1..], true));
  }

  /** The Google exception loop yields exactly the entry-by-entry list:
      opening lines, names, descriptions, order, and the rule that an entry
      without a name or without any description line is dropped. */
  lemma GoogleRaisesEntries(content: string)
    ensures GoogleRaises(content) == GoogleRaiseEntries(SplitLines(content), false)
  {
    var start := GoogleRaiseScan([], None, []);
    GoogleRaiseRunEntries(start, SplitLines(content));
    assert CloseGoogleRaise(start.(lines := IndentedBody(SplitLines(content)))) == [];
  }

  // ---------------------------------------------------------------------
  // NumPy `Parameters` (utils/parser.py:461-513)

  /** A non-blank line without indentation starts a parameter: the text
      before ` : ` is its name and the text after it its type; any other
      non-blank line continues the description. The second half of the
      test, `(not current_param or stripped)`, always holds here because
      blank lines were skipped. */
  function NumpyParamStep(st: ParamScan, line: string): ParamScan {
    var s := Strip(line);
    if s == "" then st
    else if Indent(line) == 0 && (st.current == "" || s != "") then
      match SplitOnce(s, " : ")
      case Some((before, after)) => ParamScan(CloseParam(st), Strip(before), Some(Strip(after)), [])
      case None => ParamScan(CloseParam(st), Strip(s), None, [])
    else st.(lines := st.lines + [s])
  }

  function NumpyParamRun(st: ParamScan, lines: seq<string>): ParamScan
    decreases |lines|
  {
    if lines == [] then st else NumpyParamRun(NumpyParamStep(st, lines[0]), lines[1..])
  }

  /** `_parse_numpy_params(content)` */
  function NumpyParams(content: string): seq<Param> {
    CloseParam(NumpyParamRun(NoParam, SplitLines(content)))
  }

  /** The stripped text of every non-blank line without indentation: the
      lines that open an entry in the NumPy parameter and exception
      lists. */
  function EntryLines(lines: seq<string>): (es: seq<string>)
    ensures forall i :: 0 <= i < |es| ==> es[i] != "" && !IsSpace(es[i][0])
  {
    if lines == [] then []
    else if Strip(lines[0]) != "" && Indent(lines[0]) == 0 then
      StripFacts(lines[0]);
      [Strip(lines[0])] + EntryLines(lines[1..])
    else EntryLines(lines[1..])
  }

  /** Name and type of the NumPy parameter an entry line declares. */
  function NumpyHead(s: string): (string, Option<string>) {
    match SplitOnce(s, " : ")
    case Some((before, after)) => (Strip(before), Some(Strip(after)))
    case None => (Strip(s), None)
  }

  function Heads(ps: seq<Param>): (hs: seq<(string, Option<string>)>)
    ensures |hs| == |ps|
    ensures forall i :: 0 <= i < |ps| ==> hs[i] == (ps[i].name, ps[i].ptype)
  {
    seq(|ps|, i requires 0 <= i < |ps| => (ps[i].name, ps[i].ptype))
  }

  function NumpyHeads(es: seq<string>): (hs: seq<(string, Option<string>)>)
    ensures |hs| == |es|
    ensures forall i :: 0 <= i < |es| ==> hs[i] == NumpyHead(es[i])
  {
    seq(|es|, i requires 0 <= i < |es| => NumpyHead(es[i]))
  }

  /** An entry line starts with a non-space character, so its name is never
      empty and the entry is always recorded. */
  lemma NumpyHeadNamed(s: string)
    requires s != "" && !IsSpace(s[0])
    ensures NumpyHead(s).0 != ""
  {
    match SplitOnce(s, " : ")
    case Some((before, after)) =>
      assert before != "";
      assert before[0] == s[0];
      assert !IsBlank(before);
      StripFacts(before);
    case None =>
      assert !IsBlank(s);
      StripFacts(s);
  }

  lemma {:induction false} NumpyParamRunHeads(st: ParamScan, lines: seq<string>)
    ensures Heads(CloseParam(NumpyParamRun(st, lines)))
         == Heads(CloseParam(st)) + NumpyHeads(EntryLines(lines))
    decreases |lines|
  {
    if lines != [] {
      var st' := NumpyParamStep(st, lines[0]);
      assert NumpyParamRun(st, lines) == NumpyParamRun(st', lines[1..]);
      NumpyParamRunHeads(st', lines[1..]);
      NumpyParamStepHeads(st, lines[0]);
      var s := Strip(lines[0]);
      if s != "" && Indent(lines[0]) == 0 {
        assert EntryLines(lines) == [s] + EntryLines(lines[1..]);
        NumpyHeadsCons(s, EntryLines(lines[1..]));
      } else {
        assert EntryLines(lines) == EntryLines(lines[1..]);
      }
    }
  }

  lemma NumpyHeadsCons(e: string, es: seq<string>)
    ensures NumpyHeads([e] + es) == [NumpyHead(e)] + NumpyHeads(es)
  {
    assert forall i :: 1 <= i <= |es| ==> ([e] + es)[i] == es[i - 1];
  }

  lemma NumpyParamStepHeads(st: ParamScan, line: string)
    ensures Heads(CloseParam(NumpyParamStep(st, line)))
         == Heads(CloseParam(st)) + if Strip(line) != "" && Indent(line) == 0 then [NumpyHead(Strip(line))] else []
  {
    var s := Strip(line);
    var st' := NumpyParamStep(st, line);
    if s != "" && Indent(line) == 0 {
      StripFacts(line);
      NumpyHeadNamed(s);
      var ps := CloseParam(st);
      assert (st'.current, st'.ctype) == NumpyHead(s);
      assert st'.params == ps;
      assert CloseParam(st') == ps + [Param(st'.current, st'.ctype, Strip(Join(st'.lines, "\n")))];
      assert Heads(CloseParam(st')) == Heads(ps) + [NumpyHead(s)];
    } else if s != "" {
      assert st'.current == st.current && st'.ctype == st.ctype && st'.params == st.params;
    }
  }

  /** The NumPy parameter loop records exactly one parameter per non-blank
      line without indentation, in order: its name is the text before
      ` : ` and its type the text after it (no type without ` : `). An
      underline that was left in the section text is such a line too. */
  lemma NumpyParamsHeads(content: string)
    ensures Heads(NumpyParams(content)) == NumpyHeads(EntryLines(SplitLines(content)))
  {
    var lines := SplitLines(content);
    NumpyParamRunHeads(NoParam, lines);
    assert CloseParam(NoParam) == [];
    var hs := NumpyHeads(EntryLines(lines));
    assert Heads([]) + hs == hs;
  }

  /** The NumPy parameter list read entry by entry: every non-blank line
      without indentation opens a parameter whose name and type come from
      that line; its description is the lines that continue it, joined by
      newlines and stripped. Lines before the first such line belong to no
      parameter. */
  function NumpyParamEntries(lines: seq<string>): seq<Param>
    decreases |lines|
  {
    if lines == [] then []
    else if Strip(lines[0]) != "" && Indent(lines[0]) == 0 then
      var head := NumpyHead(Strip(lines[0]));
      [Param(head.0, head.1, Strip(Join(IndentedBody(lines[1..]), "\n")))] + NumpyParamEntries(lines[1..])
    else NumpyParamEntries(lines[1..])
  }

  function NumpyParamTail(st: ParamScan, lines: seq<string>): seq<Param> {
    CloseParam(st.(lines := st.lines + IndentedBody(lines))) + NumpyParamEntries(lines)
  }

  lemma {:induction false} NumpyParamRunEntries(st: ParamScan, lines: seq<string>)
    ensures CloseParam(NumpyParamRun(st, lines)) == NumpyParamTail(st, lines)
    decreases |lines|
  {
    if lines == [] {
      assert st.(lines := st.lines + []) == st;
    } else {
      var st' := NumpyParamStep(st, lines[0]);
      assert NumpyParamRun(st, lines) == NumpyParamRun(st', lines[1..]);
      NumpyParamRunEntries(st', lines[1..]);
      NumpyParamStepEntries(st, lines);
    }
  }

  lemma NumpyParamStepEntries(st: ParamScan, lines: seq<string>)
    requires lines != []
    ensures NumpyParamTail(NumpyParamStep(st, lines[0]), lines[1..]) == NumpyParamTail(st, lines)
  {
    var s := Strip(lines[0]);
    var body := IndentedBody(lines[1..]);
    var st' := NumpyParamStep(st, lines[0]);
    if s == "" {
      assert st' == st;
    } else if Indent(lines[0]) == 0 {
      StripFacts(lines[0]);
      NumpyHeadNamed(s);
      var head := NumpyHead(s);
      var p := Param(head.0, head.1, Strip(Join(body, "\n")));
      assert st' == ParamScan(CloseParam(st), head.0, head.1, []);
      assert CloseParam(st'.(lines := body)) == CloseParam(st) + [p];
      assert st'.lines + body == body;
      assert st.(lines := st.lines + IndentedBody(lines)) == st;
      assert NumpyParamEntries(lines) == [p] + NumpyParamEntries(lines[1..]);
      AppendAssoc(CloseParam(st), [p], NumpyParamEntries(lines[1..]));
    } else {
      assert st' == st.(lines := st.lines + [s]);
      assert IndentedBody(lines) == [s] + body;
      AppendAssoc(st.lines, [s], body);
    }
  }

  /** The NumPy parameter loop yields exactly the entry-by-entry list, with
      names, types and descriptions; indented lines before the first entry
      are dropped. */
  lemma NumpyParamsEntries(content: string)
    ensures NumpyParams(content) == NumpyParamEntries(SplitLines(content))
  {
    NumpyParamRunEntries(NoParam, SplitLines(content));
    assert CloseParam(NoParam.(lines := IndentedBody(SplitLines(content)))) == [];
  }

  // ---------------------------------------------------------------------
  // NumPy `Returns` (utils/parser.py:516-546)

  /** `_parse_numpy_returns(content)`: the type is the text after ` : ` on
      the first (unstripped) line; the other lines are the description. */
  function NumpyReturns(content: string): (r: Option<Returns>)
    ensures r.None? <==> IsBlank(content)
    ensures r.Some? ==> r.value.ReturnsRecord? && IsStripped(r.value.description)
    ensures r.Some? ==> (r.value.rtype.Some? <==> Contains(SplitLines(content)[0], " : "))
    ensures r.Some? && r.value.rtype.Some? ==> r.value.description == Strip(Join(SplitLines(content)[1..], "\n"))
    ensures r.Some? && r.value.rtype.Some? ==>
              var first := SplitLines(content)[0];
              var k := Find(first, " : ");
              k.Some? && r.value.rtype.value == Strip(first[k.value + 3..])
  {
    StripFacts(content);
    if Strip(content) == "" then None
    else
      var lines := SplitLines(content);
      if lines == [] then None
      else match SplitOnce(lines[0], " : ")
        case Some((_, after)) =>
          StrippedResult(Join(lines[1..], "\n"));
          SplitOnceParts(lines[0], " : ");
          Some(ReturnsRecord(Some(Strip(after)), Strip(Join(lines[1..], "\n"))))
        case None =>
          StrippedResult(content);
          Some(ReturnsRecord(None, Strip(content)))
  }

  // ---------------------------------------------------------------------
  // NumPy `Raises` (utils/parser.py:549-592)

  datatype NumpyRaiseScan = NumpyRaiseScan(raises: seq<Raise>, current: string, lines: seq<string>)

  function CloseNumpyRaise(st: NumpyRaiseScan): seq<Raise> {
    if st.current != "" then st.raises + [Raise(st.current, Strip(Join(st.lines, "\n")))] else st.raises
  }

  /** A non-blank line without indentation names a new exception; any other
      non-blank line continues the description. */
  function NumpyRaiseStep(st: NumpyRaiseScan, line: string): NumpyRaiseScan {
    var s := Strip(line);
    if s == "" then st
    else if Indent(line) == 0 && (st.current == "" || s != "") then
      NumpyRaiseScan(CloseNumpyRaise(st), s, [])
    else st.(lines := st.lines + [s])
  }

  function NumpyRaiseRun(st: NumpyRaiseScan, lines: seq<string>): NumpyRaiseScan
    decreases |lines|
  {
    if lines == [] then st else NumpyRaiseRun(NumpyRaiseStep(st, lines[0]), lines[1..])
  }

  /** `_parse_numpy_raises(content)` */
  function NumpyRaises(content: string): seq<Raise> {
    CloseNumpyRaise(NumpyRaiseRun(NumpyRaiseScan([], "", []), SplitLines(content)))
  }

  lemma {:induction false} NumpyRaiseRunTypes(st: NumpyRaiseScan, lines: seq<string>)
    ensures RaiseTypes(CloseNumpyRaise(NumpyRaiseRun(st, lines)))
         == RaiseTypes(CloseNumpyRaise(st)) + EntryLines(lines)
    decreases |lines|
  {
    if lines != [] {
      var st' := NumpyRaiseStep(st, lines[0]);
      assert NumpyRaiseRun(st, lines) == NumpyRaiseRun(st', lines[1..]);
      NumpyRaiseRunTypes(st', lines[1..]);
      NumpyRaiseStepTypes(st, lines[0]);
    }
  }

  lemma NumpyRaiseStepTypes(st: NumpyRaiseScan, line: string)
    ensures RaiseTypes(CloseNumpyRaise(NumpyRaiseStep(st, line)))
         == RaiseTypes(CloseNumpyRaise(st)) + if Strip(line) != "" && Indent(line) == 0 then [Strip(line)] else []
  {
    var s := Strip(line);
    var st' := NumpyRaiseStep(st, line);
    if s != "" && Indent(line) == 0 {
      var rs := CloseNumpyRaise(st);
      assert st' == NumpyRaiseScan(rs, s, []);
      assert RaiseTypes(CloseNumpyRaise(st')) == RaiseTypes(rs) + [s];
      if st.current != "" {
        assert RaiseTypes(rs) == RaiseTypes(st.raises) + [st.current];
      }
    } else if s != "" {
      assert st'.current == st.current && st'.raises == st.raises;
    }
  }

  /** The NumPy exception loop records exactly one exception per non-blank
      line without indentation, in order, typed by that line's stripped
      text. */
  lemma NumpyRaisesTypes(content: string)
    ensures RaiseTypes(NumpyRaises(content)) == EntryLines(SplitLines(content))
  {
    NumpyRaiseRunTypes(NumpyRaiseScan([], "", []), SplitLines(content));
  }

  /** The NumPy exception list read entry by entry: every non-blank line
      without indentation names an exception, described by the lines that
      continue it, joined by newlines and stripped. */
  function NumpyRaiseEntries(lines: seq<string>): seq<Raise>
    decreases |lines|
  {
    if lines == [] then []
    else if Strip(lines[0]) != "" && Indent(lines[0]) == 0 then
      [Raise(Strip(lines[0]), Strip(Join(IndentedBody(lines[1..]), "\n")))] + NumpyRaiseEntries(lines[1..])
    else NumpyRaiseEntries(lines[1..])
  }

  function NumpyRaiseTail(st: NumpyRaiseScan, lines: seq<string>): seq<Raise> {
    CloseNumpyRaise(st.(lines := st.lines + IndentedBody(lines))) + NumpyRaiseEntries(lines)
  }

  lemma {:induction false} NumpyRaiseRunEntries(st: NumpyRaiseScan, lines: seq<string>)
    ensures CloseNumpyRaise(NumpyRaiseRun(st, lines)) == NumpyRaiseTail(st, lines)
    decreases |lines|
  {
    if lines == [] {
      assert st.(lines := st.lines + []) == st;
    } else {
      var st' := NumpyRaiseStep(st, lines[0]);
      assert NumpyRaiseRun(st, lines) == NumpyRaiseRun(st', lines[1..]);
      NumpyRaiseRunEntries(st', lines[1..]);
      NumpyRaiseStepEntries(st, lines);
    }
  }

  lemma NumpyRaiseStepEntries(st: NumpyRaiseScan, lines: seq<string>)
    requires lines != []
    ensures NumpyRaiseTail(NumpyRaiseStep(st, lines[0]), lines[1..]) == NumpyRaiseTail(st, lines)
  {
    var s := Strip(lines[0]);
    var body := IndentedBody(lines[1..]);
    var st' := NumpyRaiseStep(st, lines[0]);
    if s == "" {
      assert st' == st;
    } else if Indent(lines[0]) == 0 {
      var r := Raise(s, Strip(Join(body, "\n")));
      assert st' == NumpyRaiseScan(CloseNumpyRaise(st), s, []);
      assert CloseNumpyRaise(st'.(lines := body)) == CloseNumpyRaise(st) + [r];
      assert st'.lines + body == body;
      assert st.(lines := st.lines + IndentedBody(lines)) == st;
      assert NumpyRaiseEntries(lines) == [r] + NumpyRaiseEntries(lines[1..]);
      AppendAssoc(CloseNumpyRaise(st), [r], NumpyRaiseEntries(lines[1..]));
    } else {
      assert st' == st.(lines := st.lines + [s]);
      assert IndentedBody(lines) == [s] + body;
      AppendAssoc(st.lines, [s], body);
    }
  }

  /** The NumPy exception loop yields exactly the entry-by-entry list, with
      types and descriptions; indented lines before the first entry are
      dropped. */
  lemma NumpyRaisesEntries(content: string)
    ensures NumpyRaises(content) == NumpyRaiseEntries(SplitLines(content))
  {
    var start := NumpyRaiseScan([], "", []);
    NumpyRaiseRunEntries(start, SplitLines(content));
    assert CloseNumpyRaise(start.(lines := IndentedBody(SplitLines(content)))) == [];
  }

  // ---------------------------------------------------------------------
  // reStructuredText fields (utils/parser.py:595-642)

  /** `parts[-1] if len(parts) > 1 else ""` over the words of the field
      name: the last word of a name with at least two words. */
  function FieldArgument(section: string): (n: string)
    ensures n != "" ==> |Words(section)| > 1 && n == Last(Words(section))
    ensures |Words(section)| > 1 ==> n != "" && n == Last(Words(section))
  {
    var parts := Words(section);
    if |parts| > 1 then Last(parts) else ""
  }

  /** `_parse_rest_param(section, content)`: a non-blank text before the
      first colon of the content is the type, and then the rest is the
      stripped description; otherwise the whole content, unstripped, is
      the description. */
  function RestParam(section: string, content: string): (p: Param)
    ensures p.name == FieldArgument(section)
    ensures p.ptype.None? ==> p.description == content
    ensures p.ptype.Some? ==>
              var k := Find(content, ":");
              k.Some? && p.description == Strip(content[k.value + 1..])
  {
    match SplitOnce(content, ":")
    case Some((before, after)) =>
      SplitOnceParts(content, ":");
      if Strip(before) != "" then Param(FieldArgument(section), Some(Strip(before)), Strip(after))
      else Param(FieldArgument(section), None, content)
    case None =>
      Param(FieldArgument(section), None, content)
  }

  /** A reStructuredText parameter has a type exactly when the content has a
      colon with non-blank text before the first one; that text, stripped,
      is the type. */
  lemma RestParamType(section: string, content: string)
    ensures var p := RestParam(section, content);
            var colon := Find(content, ":");
            && (p.ptype.Some? <==> colon.Some? && !IsBlank(content[..colon.value]))
            && (p.ptype.Some? ==> p.ptype.value == Strip(content[..colon.value]))
  {
    match SplitOnce(content, ":")
    case Some((before, after)) =>
      StripFacts(before);
    case None =>
  }

  /** `_parse_rest_raise(section, content)` */
  function RestRaise(section: string, content: string): (r: Raise)
    ensures r.etype == FieldArgument(section)
    ensures r.description == Strip(content)
  {
    Raise(FieldArgument(section), Strip(content))
  }

  /** A field name without whitespace (such as the bare `param` the
      dispatcher recognises) has no argument word. */
  lemma FieldArgumentOfWord(section: string)
    requires forall j :: 0 <= j < |section| ==> !IsSpace(section[j])
    ensures FieldArgument(section) == ""
  {
    if section != [] {
      assert LStrip(section) == section;
      var n := WordLength(section);
      assert n == |section|;
      assert section[..n] == section;
      assert section[n..] == [];
      assert LStrip(section[n..]) == [];
      assert Words(section[n..]) == [];
      assert Words(section) == [section];
    } else {
      assert LStrip(section) == [];
    }
  }

  // =====================================================================
  // Examples (utils/parser.py:645-683)

  /** `examples`, `current_example` and `in_code_block`. */
  datatype ExampleScan = ExampleScan(examples: seq<string>, current: seq<string>, inCode: bool)

  function ExampleStep(st: ExampleScan, line: string): ExampleScan {
    if StartsWith(Strip(line), ">>>") || st.inCode then
      ExampleScan(st.examples, st.current + [line], true)
    else if StartsWith(line, "    ") && (st.current == [] || StartsWith(Last(st.current), "    ")) then
      ExampleScan(st.examples, st.current + [line], if st.current == [] then true else st.inCode)
    else if st.current != [] then
      ExampleScan(st.examples + [Join(st.current, "\n")], [], false)
    else st
  }

  function ExampleRun(st: ExampleScan, lines: seq<string>): ExampleScan
    decreases |lines|
  {
    if lines == [] then st else ExampleRun(ExampleStep(st, lines[0]), lines[1..])
  }

  /** `_parse_examples(content)` */
  function Examples(content: string): seq<string> {
    var st := ExampleRun(ExampleScan([], [], false), SplitLines(content));
    if st.current != [] then st.examples + [Join(st.current, "\n")] else st.examples
  }

  /** A line that starts a code example: a doctest prompt, or four spaces
      of indentation. */
  predicate StartsExample(line: string) {
    StartsWith(Strip(line), ">>>") || StartsWith(line, "    ")
  }

  function FirstExampleLine(lines: seq<string>): (r: Option<nat>)
    ensures r.Some? ==> r.value < |lines| && StartsExample(lines[r.value])
    ensures r.Some? ==> forall j :: 0 <= j < r.value ==> !StartsExample(lines[j])
    ensures r.None? ==> forall j :: 0 <= j < |lines| ==> !StartsExample(lines[j])
  {
    FirstExampleFrom(lines, 0)
  }

  function FirstExampleFrom(lines: seq<string>, k: nat): (r: Option<nat>)
    requires k <= |lines|
    ensures r.Some? ==> k <= r.value < |lines| && StartsExample(lines[r.value])
    ensures r.Some? ==> forall j :: k <= j < r.value ==> !StartsExample(lines[j])
    ensures r.None? ==> forall j :: k <= j < |lines| ==> !StartsExample(lines[j])
    decreases |lines| - k
  {
    if k == |lines| then None
    else if StartsExample(lines[k]) then Some(k)
    else FirstExampleFrom(lines, k + 1)
  }

  /** Once a block has started, `in_code_block` stays set and every line
      joins the block. */
  lemma {:induction false} ExampleRunInCode(examples: seq<string>, current: seq<string>, lines: seq<string>)
    ensures ExampleRun(ExampleScan(examples, current, true), lines) == ExampleScan(examples, current + lines, true)
    decreases |lines|
  {
    if lines == [] {
      assert current + [] == current;
    } else {
      ExampleRunInCode(examples, current + [lines[0]], lines[1..]);
      assert current + [lines[0]] + lines[1..] == current + lines;
    }
  }

  lemma {:induction false} ExampleRunFromIdle(lines: seq<string>)
    ensures ExampleRun(ExampleScan([], [], false), lines)
         == match FirstExampleLine(lines)
            case None => ExampleScan([], [], false)
            case Some(i) => ExampleScan([], lines[i..], true)
    decreases |lines|
  {
    if lines != [] {
      var idle := ExampleScan([], [], false);
      if StartsExample(lines[0]) {
        assert ExampleStep(idle, lines[0]) == ExampleScan([], [lines[0]], true);
        ExampleRunInCode([], [lines[0]], lines[1..]);
        assert [lines[0]] + lines[1..] == lines[0..];
      } else {
        assert ExampleStep(idle, lines[0]) == idle;
        ExampleRunFromIdle(lines[1..]);
        match FirstExampleLine(lines[1..])
        case None =>
        case Some(i) =>
          assert lines[1..][i..] == lines[i + 1..];
      }
    }
  }

  /** The examples section yields at most one block: everything from the
      first prompt or indented line to the end of the section. Once the
      block has started, `in_code_block` stays set, so a following
      unindented line never closes it. */
  lemma ExamplesSingleBlock(content: string)
    ensures var lines := SplitLines(content);
            Examples(content) == match FirstExampleLine(lines)
                                 case None => []
                                 case Some(i) => [Join(lines[i..], "\n")]
  {
    ExampleRunFromIdle(SplitLines(content));
  }
}
