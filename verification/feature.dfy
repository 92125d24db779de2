/** The feature file that `GherkinGenerator` writes for one callable, and
    the metadata it reports about it (utils/gherkin_generator.py:243-403).

    A generated line is a sequence of pieces: text of the template itself,
    and text taken from the callable or its docstring. The content is the
    rendered lines joined with newlines. */
module Feature {
  import opened Common
  import opened Text
  import opened Gherkin

  // =====================================================================
  // Counting occurrences

  /** `s.count(p)`: non-overlapping occurrences of `p`, found left to
      right. */
  function Count(s: string, p: string): nat
    requires p != []
    decreases |s|
  {
    if |s| < |p| then 0
    else if s[..|p|] == p then 1 + Count(s[|p|..], p)
    else Count(s[1..], p)
  }

  /** `p` occurs in `s` at index `i`. */
  predicate OccursIn(s: string, p: string, i: nat) {
    i + |p| <= |s| && s[i..i + |p|] == p
  }

  /** No occurrence of `p` in `u + v` begins in `u` and ends in `v`. */
  predicate NoStraddle(u: string, v: string, p: string) {
    forall i: nat :: i < |u| < i + |p| ==> !OccursIn(u + v, p, i)
  }

  /** Counting splits at a point no occurrence straddles. */
  lemma {:induction false} CountSplit(u: string, v: string, p: string)
    requires p != []
    requires NoStraddle(u, v, p)
    ensures Count(u + v, p) == Count(u, p) + Count(v, p)
    decreases |u|
  {
    var s := u + v;
    if u == [] {
      assert s == v;
    } else if |s| < |p| {
    } else if s[..|p|] == p {
      assert |p| <= |u| by {
        assert OccursIn(s, p, 0);
      }
      var u' := u[|p|..];
      assert s[|p|..] == u' + v;
      assert u[..|p|] == p;
      forall i: nat | i < |u'| < i + |p|
        ensures !OccursIn(u' + v, p, i)
      {
        OccursShift(s, |p|, p, i);
      }
      CountSplit(u', v, p);
    } else {
      var u' := u[1..];
      assert s[1..] == u' + v;
      if |u| >= |p| {
        assert u[..|p|] == s[..|p|];
      }
      forall i: nat | i < |u'| < i + |p|
        ensures !OccursIn(u' + v, p, i)
      {
        OccursShift(s, 1, p, i);
      }
      CountSplit(u', v, p);
    }
  }

  /** An occurrence in a suffix is an occurrence in the whole text. */
  lemma OccursShift(s: string, k: nat, p: string, i: nat)
    requires k <= |s|
    ensures OccursIn(s[k..], p, i) ==> OccursIn(s, p, i + k)
  {
    if OccursIn(s[k..], p, i) {
      assert s[k..][i..i + |p|] == s[i + k..i + k + |p|];
    }
  }

  /** A pattern with a character the text lacks does not occur in it. */
  lemma {:induction false} CountMissing(s: string, p: string, c: char)
    requires p != [] && c in p && c !in s
    ensures Count(s, p) == 0
    decreases |s|
  {
    if |s| >= |p| {
      if s[..|p|] == p {
        assert false;
      }
      assert forall x :: x in s[1..] ==> x in s;
      CountMissing(s[1..], p, c);
    }
  }

  /** A pattern occurs at the head of a text followed by anything. */
  lemma CountOpening(p: string, v: string)
    requires p != []
    ensures Count(p + v, p) == 1 + Count(v, p)
  {
    assert (p + v)[..|p|] == p;
    assert (p + v)[|p|..] == v;
  }

  /** An occurrence straddling the end of `u` would match the last two
      characters of `u` inside `p`; if `p` has no such place, none does. */
  predicate EndSafe(u: string, p: string) {
    |u| >= 2 &&
    forall j :: 0 <= j < |p| - 1 && p[j] == u[|u| - 1] ==> 1 <= j && p[j - 1] != u[|u| - 2]
  }

  /** The same at the start of `v`. */
  predicate StartSafe(v: string, p: string) {
    |v| >= 2 &&
    forall j :: 1 <= j < |p| && p[j] == v[0] ==> j + 1 < |p| && p[j + 1] != v[1]
  }

  lemma EndSafeNoStraddle(u: string, v: string, p: string)
    requires EndSafe(u, p)
    ensures NoStraddle(u, v, p)
  {
    forall i: nat | i < |u| < i + |p|
      ensures !OccursIn(u + v, p, i)
    {
      var j := |u| - 1 - i;
      if i + |p| <= |u| + |v| {
        var w := (u + v)[i..i + |p|];
        assert 0 <= j < |p| - 1;
        assert w[j] == u[|u| - 1];
        if p[j] == u[|u| - 1] {
          assert 1 <= j && p[j - 1] != u[|u| - 2];
          assert w[j - 1] == u[|u| - 2];
        }
        assert w != p;
      }
    }
  }

  lemma StartSafeNoStraddle(u: string, v: string, p: string)
    requires StartSafe(v, p)
    ensures NoStraddle(u, v, p)
  {
    forall i: nat | i < |u| < i + |p|
      ensures !OccursIn(u + v, p, i)
    {
      var j := |u| - i;
      if i + |p| <= |u| + |v| {
        var w := (u + v)[i..i + |p|];
        assert 1 <= j < |p|;
        assert w[j] == v[0];
        if p[j] == v[0] {
          assert j + 1 < |p| && p[j + 1] != v[1];
          assert w[j + 1] == v[1];
        }
        assert w != p;
      }
    }
  }

  /** A character absent from `p` stops every occurrence at it. */
  lemma BarrierNoStraddle(u: string, c: char, v: string, p: string)
    requires c !in p
    ensures NoStraddle(u, [c] + v, p)
    ensures NoStraddle(u + [c], v, p)
  {
    forall i: nat | i < |u| < i + |p|
      ensures !OccursIn(u + ([c] + v), p, i)
    {
      if i + |p| <= |u| + |[c] + v| {
        assert (u + ([c] + v))[i..i + |p|][|u| - i] == c;
      }
    }
    forall i: nat | i < |u + [c]| < i + |p|
      ensures !OccursIn(u + [c] + v, p, i)
    {
      if i + |p| <= |u + [c]| + |v| {
        assert (u + [c] + v)[i..i + |p|][|u| - i] == c;
      }
    }
  }

  // =====================================================================
  // Scenario headers

  /** The two Gherkin keywords that open a scenario. */
  const Keyword := "Scenario:"
  const OutlineKeyword := "Scenario Outline:"

  /** What the generator counts: `count('Scenario:') +
      count('Scenario Outline:')`. */
  function Hits(s: string): nat {
    Count(s, Keyword) + Count(s, OutlineKeyword)
  }

  /** `s` has no character `c`, stated index by index. */
  predicate Lacks(s: string, c: char) {
    forall i :: 0 <= i < |s| ==> s[i] != c
  }

  /** Text with no `S` or no `:`. */
  predicate Calm(s: string) {
    Lacks(s, 'S') || Lacks(s, ':')
  }

  /** Both patterns start with `S` and end with `:`, so calm text holds no
      hit. */
  lemma HitsQuiet(s: string)
    requires Calm(s)
    ensures Hits(s) == 0
  {
    if Lacks(s, 'S') {
      assert Keyword[0] == 'S' && OutlineKeyword[0] == 'S';
      CountMissing(s, Keyword, 'S');
      CountMissing(s, OutlineKeyword, 'S');
    } else {
      assert Keyword[8] == ':' && OutlineKeyword[16] == ':';
      CountMissing(s, Keyword, ':');
      CountMissing(s, OutlineKeyword, ':');
    }
  }

  lemma HitsSplit(u: string, v: string)
    requires NoStraddle(u, v, Keyword) && NoStraddle(u, v, OutlineKeyword)
    ensures Hits(u + v) == Hits(u) + Hits(v)
  {
    CountSplit(u, v, Keyword);
    CountSplit(u, v, OutlineKeyword);
  }

  /** Text without an `S` after a head no occurrence can straddle adds
      no hit. */
  lemma QuietTail(u: string, rest: string)
    requires EndSafe(u, Keyword) && EndSafe(u, OutlineKeyword) && Lacks(rest, 'S')
    ensures Hits(u + rest) == Hits(u)
  {
    EndSafeNoStraddle(u, rest, Keyword);
    EndSafeNoStraddle(u, rest, OutlineKeyword);
    HitsSplit(u, rest);
    HitsQuiet(rest);
  }

  lemma PlainHeader(rest: string)
    requires Lacks(rest, 'S')
    ensures Hits("  " + Keyword + rest) == 1
  {
    var u := "  " + Keyword;
    assert "  " + Keyword + rest == u + rest;
    PlainHeaderHead();
    PlainHeaderEndsSafe();
    QuietTail(u, rest);
  }

  lemma PlainHeaderEndsSafe()
    ensures EndSafe("  " + Keyword, Keyword) && EndSafe("  " + Keyword, OutlineKeyword)
  {
  }

  lemma PlainHeaderHead()
    ensures Count("  " + Keyword, Keyword) == 1
    ensures Count("  " + Keyword, OutlineKeyword) == 0
  {
    EndSafeNoStraddle("  ", Keyword, Keyword);
    CountSplit("  ", Keyword, Keyword);
    CountOpening(Keyword, []);
    assert Keyword + [] == Keyword;
    assert OutlineKeyword[9] == 'O' && 'O' !in "  " + Keyword;
    CountMissing("  " + Keyword, OutlineKeyword, 'O');
  }

  lemma OutlineHeader(rest: string)
    requires Lacks(rest, 'S')
    ensures Hits("  " + OutlineKeyword + rest) == 1
  {
    var u := "  " + OutlineKeyword;
    assert "  " + OutlineKeyword + rest == u + rest;
    OutlineHeaderHead();
    OutlineHeaderEndsSafe();
    QuietTail(u, rest);
  }

  lemma OutlineHeaderEndsSafe()
    ensures EndSafe("  " + OutlineKeyword, Keyword) && EndSafe("  " + OutlineKeyword, OutlineKeyword)
  {
  }

  lemma OutlineHeaderHead()
    ensures Count("  " + OutlineKeyword, OutlineKeyword) == 1
    ensures Count("  " + OutlineKeyword, Keyword) == 0
  {
    EndSafeNoStraddle("  ", OutlineKeyword, OutlineKeyword);
    CountSplit("  ", OutlineKeyword, OutlineKeyword);
    CountOpening(OutlineKeyword, []);
    assert OutlineKeyword + [] == OutlineKeyword;
    OutlineHasNoPlain();
  }

  lemma OutlineHasNoPlain()
    ensures Count("  " + OutlineKeyword, Keyword) == 0
  {
    var u := "  Scenario";
    var v := "Outline:";
    assert "  " + OutlineKeyword == u + [' '] + v;
    BarrierNoStraddle(u, ' ', v, Keyword);
    CountSplit(u + [' '], v, Keyword);
    assert Keyword[8] == ':' && Keyword[0] == 'S';
    CountMissing(u + [' '], Keyword, ':');
    CountMissing(v, Keyword, 'S');
  }

  // =====================================================================
  // Generated lines

  /** Text of the template, or text taken from the callable or its
      docstring. */
  datatype Piece = Fixed(text: string) | Given(text: string)

  function Render(ps: seq<Piece>): string {
    if ps == [] then "" else ps[0].text + Render(ps[1..])
  }

  function RenderAll(ls: seq<seq<Piece>>): (rs: seq<string>)
    ensures |rs| == |ls|
  {
    seq(|ls|, i requires 0 <= i < |ls| => Render(ls[i]))
  }

  /** The hits inside the pieces of one kind of a line. */
  function Tally(ps: seq<Piece>, given: bool): nat {
    if ps == [] then 0
    else (if ps[0].Given? == given then Hits(ps[0].text) else 0) + Tally(ps[1..], given)
  }

  function TallyAll(ls: seq<seq<Piece>>, given: bool): nat {
    if ls == [] then 0 else Tally(ls[0], given) + TallyAll(ls[1..], given)
  }

  predicate Guards(u: string) {
    EndSafe(u, Keyword) && EndSafe(u, OutlineKeyword)
  }

  predicate Leads(v: string) {
    StartSafe(v, Keyword) && StartSafe(v, OutlineKeyword)
  }

  /** Beside every boundary between two pieces of the line there is
      template text no occurrence can reach across. */
  predicate Sealed(ps: seq<Piece>) {
    forall i :: 0 <= i < |ps| - 1 ==>
      (ps[i].Fixed? && Guards(ps[i].text)) || (ps[i + 1].Fixed? && Leads(ps[i + 1].text))
  }

  predicate AllSealed(ls: seq<seq<Piece>>) {
    forall i :: 0 <= i < |ls| ==> Sealed(ls[i])
  }

  /** A template text ending in a space after anything but `o`, or in a
      quote, guards its end; one starting with a space before anything but
      `O`, or with a quote, guards its start. */
  predicate ClosedEnd(u: string) {
    |u| >= 2 && (u[|u| - 1] == '\'' || (u[|u| - 1] == ' ' && u[|u| - 2] != 'o'))
  }

  predicate ClosedStart(v: string) {
    |v| >= 2 && (v[0] == '\'' || (v[0] == ' ' && v[1] != 'O'))
  }

  lemma ClosedEndGuards(u: string)
    requires ClosedEnd(u)
    ensures Guards(u)
  {
  }

  lemma ClosedStartLeads(v: string)
    requires ClosedStart(v)
    ensures Leads(v)
  {
  }

  /** Counting a sealed line counts each piece on its own. */
  lemma {:induction false} LineHits(ps: seq<Piece>)
    requires Sealed(ps)
    ensures Hits(Render(ps)) == Tally(ps, false) + Tally(ps, true)
    decreases |ps|
  {
    if ps == [] {
      assert |Render(ps)| < |Keyword|;
    } else {
      var u := ps[0].text;
      var r := Render(ps[1..]);
      if |ps| == 1 {
        assert r == [];
        assert u + r == u;
      } else {
        if ps[0].Fixed? && Guards(u) {
          EndSafeNoStraddle(u, r, Keyword);
          EndSafeNoStraddle(u, r, OutlineKeyword);
        } else {
          var v := ps[1].text;
          assert r == v + Render(ps[2..]);
          assert r[0] == v[0] && r[1] == v[1];
          assert Leads(r);
          StartSafeNoStraddle(u, r, Keyword);
          StartSafeNoStraddle(u, r, OutlineKeyword);
        }
        HitsSplit(u, r);
      }
      assert Sealed(ps[1..]) by {
        forall i | 0 <= i < |ps[1..]| - 1
          ensures (ps[1..][i].Fixed? && Guards(ps[1..][i].text))
               || (ps[1..][i + 1].Fixed? && Leads(ps[1..][i + 1].text))
        {
          assert ps[1..][i] == ps[i + 1] && ps[1..][i + 1] == ps[i + 2];
        }
      }
      LineHits(ps[1..]);
    }
  }

  /** Counting newline-joined lines counts each line on its own. */
  lemma {:induction false} ContentHits(ls: seq<seq<Piece>>)
    requires AllSealed(ls)
    ensures Hits(Join(RenderAll(ls), "\n")) == TallyAll(ls, false) + TallyAll(ls, true)
    decreases |ls|
  {
    var rs := RenderAll(ls);
    if ls == [] {
      assert |Join(rs, "\n")| < |Keyword|;
    } else {
      LineHits(ls[0]);
      assert AllSealed(ls[1..]) by {
        forall i | 0 <= i < |ls[1..]| ensures Sealed(ls[1..][i]) {
          assert ls[1..][i] == ls[i + 1];
        }
      }
      ContentHits(ls[1..]);
      assert RenderAll(ls[1..]) == rs[1..];
      if |ls| > 1 {
        var u := rs[0];
        var v := Join(rs[1..], "\n");
        assert Join(rs, "\n") == u + ['\n'] + v;
        assert '\n' !in Keyword && '\n' !in OutlineKeyword;
        BarrierNoStraddle(u, '\n', v, Keyword);
        BarrierNoStraddle(u, '\n', v, OutlineKeyword);
        BarrierNoStraddle(u, '\n', [], Keyword);
        BarrierNoStraddle(u, '\n', [], OutlineKeyword);
        HitsSplit(u + ['\n'], v);
        assert u + ['\n'] == u + (['\n'] + []);
        HitsSplit(u, ['\n']);
        assert Hits(['\n']) == 0 by {
          assert |['\n']| < |Keyword|;
        }
      }
    }
  }

  /** Template text with no `S` or no `:` holds no hit. */
  predicate Quiet(ps: seq<Piece>) {
    forall i :: 0 <= i < |ps| && ps[i].Fixed? ==> Calm(ps[i].text)
  }

  predicate AllQuiet(ls: seq<seq<Piece>>) {
    forall i :: 0 <= i < |ls| ==> Quiet(ls[i])
  }

  lemma {:induction false} QuietTally(ps: seq<Piece>)
    requires Quiet(ps)
    ensures Tally(ps, false) == 0
    decreases |ps|
  {
    if ps != [] {
      if ps[0].Fixed? {
        HitsQuiet(ps[0].text);
      }
      assert Quiet(ps[1..]) by {
        forall i | 0 <= i < |ps[1..]| && ps[1..][i].Fixed?
          ensures Calm(ps[1..][i].text)
        {
          assert ps[1..][i] == ps[i + 1];
        }
      }
      QuietTally(ps[1..]);
    }
  }

  lemma {:induction false} QuietTallyAll(ls: seq<seq<Piece>>)
    requires AllQuiet(ls)
    ensures TallyAll(ls, false) == 0
    decreases |ls|
  {
    if ls != [] {
      QuietTally(ls[0]);
      assert AllQuiet(ls[1..]) by {
        forall i | 0 <= i < |ls[1..]| ensures Quiet(ls[1..][i]) {
          assert ls[1..][i] == ls[i + 1];
        }
      }
      QuietTallyAll(ls[1..]);
    }
  }

  lemma {:induction false} TallyAllAppend(a: seq<seq<Piece>>, b: seq<seq<Piece>>, given: bool)
    ensures TallyAll(a + b, given) == TallyAll(a, given) + TallyAll(b, given)
    decreases |a|
  {
    if a == [] {
      assert a + b == b;
    } else {
      assert (a + b)[1..] == a[1..] + b;
      TallyAllAppend(a[1..], b, given);
    }
  }

  /** A header line: one hit in its template text. */
  lemma HeaderLine(head: string, rest: string, name: string, tail: seq<Piece>)
    requires Lacks(rest, 'S') && (head == "  " + Keyword + rest || head == "  " + OutlineKeyword + rest)
    requires Quiet(tail)
    ensures Tally([Fixed(head), Given(name)] + tail, false) == 1
  {
    if head == "  " + Keyword + rest {
      PlainHeader(rest);
    } else {
      OutlineHeader(rest);
    }
    var ps := [Fixed(head), Given(name)] + tail;
    assert ps[1..][1..] == tail;
    QuietTally(tail);
  }

  lemma AllQuietAppend(a: seq<seq<Piece>>, b: seq<seq<Piece>>)
    requires AllQuiet(a) && AllQuiet(b)
    ensures AllQuiet(a + b)
  {
    assert forall i :: 0 <= i < |a + b| ==> (a + b)[i] == if i < |a| then a[i] else b[i - |a|];
  }

  lemma AllSealedAppend(a: seq<seq<Piece>>, b: seq<seq<Piece>>)
    requires AllSealed(a) && AllSealed(b)
    ensures AllSealed(a + b)
  {
    assert forall i :: 0 <= i < |a + b| ==> (a + b)[i] == if i < |a| then a[i] else b[i - |a|];
  }

  /** A piece's hits are part of its line's tally, and a line's of the
      whole. */
  lemma {:induction false} TallyCovers(ps: seq<Piece>, i: nat)
    requires i < |ps|
    ensures Tally(ps, ps[i].Given?) >= Hits(ps[i].text)
    decreases i
  {
    if i > 0 {
      TallyCovers(ps[1..], i - 1);
    }
  }

  lemma {:induction false} TallyAllCovers(ls: seq<seq<Piece>>, i: nat, given: bool)
    requires i < |ls|
    ensures TallyAll(ls, given) >= Tally(ls[i], given)
    decreases i
  {
    if i > 0 {
      TallyAllCovers(ls[1..], i - 1, given);
    }
  }

  /** A scenario: a header line with one hit in its template text, then
      steps whose template text is calm. */
  lemma ScenarioTally(header: seq<Piece>, steps: seq<seq<Piece>>)
    requires Tally(header, false) == 1 && AllQuiet(steps)
    ensures TallyAll([header] + steps, false) == 1
  {
    assert ([header] + steps)[0] == header;
    assert ([header] + steps)[1..] == steps;
    QuietTallyAll(steps);
  }

  // ---------------------------------------------------------------------
  // The template (utils/gherkin_generator.py:262-349)
  //
  // A long fixed line is written as two literals joined by `+`. The
  // concatenation is the line the generator writes; the verifier reasons
  // about the keyword-freedom of two short literals far more cheaply than
  // about one long one.

  /** `s[:n]`: the longest prefix of `s` with at most `n` characters. */
  function Clip(s: string, n: nat): (r: string)
    ensures |r| == if |s| <= n then |s| else n
    ensures r == s[..|r|]
  {
    if |s| <= n then s else s[..n]
  }

  function Head(featureName: string, name: string): seq<seq<Piece>> {
    [ [Fixed("Feature: "), Given(featureName)],
      [Fixed("  As a user of the "), Given(name), Fixed(" function")],
      [Fixed("  I want to use it according " + "to its public contract")],
      [Fixed("  So that I can achieve " + "the documented behavior")],
      [Fixed("")] ]
  }

  /** `description.split('. ')`, each piece stripped, blank ones dropped. */
  function Sentences(description: string): seq<string> {
    Kept(SplitOnText(description, ". "))
  }

  function Kept(ps: seq<string>): (ks: seq<string>)
    ensures forall i :: 0 <= i < |ks| ==> ks[i] != ""
  {
    if ps == [] then []
    else (if Strip(ps[0]) != "" then [Strip(ps[0])] else []) + Kept(ps[1..])
  }

  /** The docstring's description, or `Functionality of <name>`. */
  function Described(name: string, description: string): string {
    if description == "" then "Functionality of " + name else description
  }

  function Comments(description: string): seq<seq<Piece>> {
    var ss := Sentences(description);
    seq(|ss|, i requires 0 <= i < |ss| => [Fixed("  # "), Given(ss[i])]) + [[Fixed("")]]
  }

  function Background(name: string, signature: string): seq<seq<Piece>> {
    [ [Fixed("  Background:")],
      [Fixed("    Given the callable '"), Given(name), Fixed("' with signature "), Given(signature)],
      [Fixed("    And the callable is accessible " + "through the public API")],
      [Fixed("")] ]
  }

  function ParameterSteps(ps: seq<GParam>): seq<seq<Piece>> {
    if ps == [] then [[Fixed("    Given no parameters " + "are required")]]
    else
      [[Fixed("    Given the following " + "parameters are provided:")]]
      + seq(|ps|, i requires 0 <= i < |ps| =>
          [Fixed("      | "), Given(ps[i].name), Fixed(" | "), Given(ps[i].description), Fixed(" |")])
  }

  function ReturnStep(returnText: string): seq<Piece> {
    if returnText != "" then [Fixed("    Then the function " + "should return "), Given(returnText)]
    else [Fixed("    Then the function " + "should execute successfully")]
  }

  function CallSteps(name: string, returnText: string): seq<seq<Piece>> {
    [ [Fixed("    When I call "), Given(name), Fixed(" with the provided " + "parameters")],
      ReturnStep(returnText),
      [Fixed("    And all behavior should " + "conform to the public contract")],
      [Fixed("")] ]
  }

  function MainScenario(name: string, d: Digest): seq<seq<Piece>> {
    [[Fixed("  " + Keyword + " Execute "), Given(name), Fixed(" with valid inputs")]]
    + ParameterSteps(d.parameters)
    + CallSteps(name, d.returnText)
  }

  function ErrorSteps(name: string, raises: seq<string>): seq<seq<Piece>> {
    [ [Fixed("    Given invalid or edge " + "case inputs are provided")],
      [Fixed("    When I call "), Given(name), Fixed(" with invalid parameters")],
      [Fixed("    Then appropriate exceptions " + "should be raised:")] ]
    + seq(|raises|, i requires 0 <= i < |raises| => [Fixed("      # "), Given(raises[i])])
    + [ [Fixed("    And the error messages " + "should be descriptive")],
        [Fixed("")] ]
  }

  function ErrorScenario(name: string, raises: seq<string>): seq<seq<Piece>> {
    if raises == [] then []
    else [[Fixed("  " + Keyword + " Handle error conditions in "), Given(name)]] + ErrorSteps(name, raises)
  }

  function ExampleSteps(name: string, d: Digest): seq<seq<Piece>> {
    var es := d.examples;
    (if d.parameters != [] then [[Fixed("    Given the following " + "example inputs: <inputs>")]] else [])
    + [ [Fixed("    When I execute "), Given(name)],
        [Fixed("    Then I should get the " + "expected result: <output>")],
        [Fixed("")],
        [Fixed("    Examples:")],
        [Fixed("      | inputs | output |")] ]
    + seq(|es|, i requires 0 <= i < |es| => [Fixed("      | "), Given(Clip(es[i], 40)), Fixed(" | expected |")])
    + [[Fixed("")]]
  }

  function ExampleScenario(name: string, d: Digest): seq<seq<Piece>> {
    if d.examples == [] then []
    else [[Fixed("  " + OutlineKeyword + " Test "), Given(name), Fixed(" with example inputs")]] + ExampleSteps(name, d)
  }

  function VerifySteps(name: string): seq<seq<Piece>> {
    [ [Fixed("    Given the "), Given(name), Fixed(" callable is part " + "of the public API")],
      [Fixed("    When I inspect its interface")],
      [Fixed("    Then all documented features " + "should be accessible")],
      [Fixed("    And the behavior should " + "match the documentation")],
      [Fixed("    And no internal implementation " + "details should be exposed")] ]
  }

  function VerifyScenario(name: string): seq<seq<Piece>> {
    [[Fixed("  " + Keyword + " Verify "), Given(name), Fixed(" public contract")]] + VerifySteps(name)
  }

  /** `_generate_gherkin_content`, line by line. */
  function Lines(featureName: string, name: string, signature: string, d: Digest): seq<seq<Piece>> {
    Head(featureName, name)
    + Comments(Described(name, d.description))
    + Background(name, signature)
    + MainScenario(name, d)
    + ErrorScenario(name, d.raises)
    + ExampleScenario(name, d)
    + VerifyScenario(name)
  }

  function Content(featureName: string, name: string, signature: string, d: Digest): string {
    Join(RenderAll(Lines(featureName, name, signature, d)), "\n")
  }

  // ---------------------------------------------------------------------
  // Each line shape and each block of the template

  lemma FixedLine(a: string)
    requires Calm(a)
    ensures Sealed([Fixed(a)]) && Quiet([Fixed(a)])
  {
  }

  lemma TailSealed(a: string, x: string)
    requires ClosedEnd(a)
    ensures Sealed([Fixed(a), Given(x)])
  {
    ClosedEndGuards(a);
  }

  lemma TailLine(a: string, x: string)
    requires Calm(a) && ClosedEnd(a)
    ensures Sealed([Fixed(a), Given(x)]) && Quiet([Fixed(a), Given(x)])
  {
    TailSealed(a, x);
  }

  lemma MidSealed(a: string, x: string, b: string)
    requires ClosedEnd(a) && ClosedStart(b)
    ensures Sealed([Fixed(a), Given(x), Fixed(b)])
  {
    ClosedEndGuards(a);
    ClosedStartLeads(b);
  }

  lemma MidLine(a: string, x: string, b: string)
    requires Calm(a) && ClosedEnd(a) && Calm(b) && ClosedStart(b)
    ensures Sealed([Fixed(a), Given(x), Fixed(b)]) && Quiet([Fixed(a), Given(x), Fixed(b)])
  {
    MidSealed(a, x, b);
  }

  lemma PairLine(a: string, x: string, b: string, y: string)
    requires Calm(a) && ClosedEnd(a) && Calm(b) && ClosedStart(b) && ClosedEnd(b)
    ensures Sealed([Fixed(a), Given(x), Fixed(b), Given(y)])
    ensures Quiet([Fixed(a), Given(x), Fixed(b), Given(y)])
  {
    ClosedEndGuards(a);
    ClosedStartLeads(b);
    ClosedEndGuards(b);
  }

  lemma RowLine(a: string, x: string, b: string, y: string, c: string)
    requires Calm(a) && ClosedEnd(a) && Calm(b) && ClosedStart(b) && ClosedEnd(b)
    requires Calm(c) && ClosedStart(c)
    ensures Sealed([Fixed(a), Given(x), Fixed(b), Given(y), Fixed(c)])
    ensures Quiet([Fixed(a), Given(x), Fixed(b), Given(y), Fixed(c)])
  {
    ClosedEndGuards(a);
    ClosedStartLeads(b);
    ClosedEndGuards(b);
    ClosedStartLeads(c);
  }

  lemma ClosedEndAppend(a: string, u: string)
    requires ClosedEnd(u)
    ensures ClosedEnd(a + u)
  {
    assert (a + u)[|a + u| - 1] == u[|u| - 1] && (a + u)[|a + u| - 2] == u[|u| - 2];
  }

  /** The four scenario headers: sealed, one hit each. */
  lemma ExecuteHeader(name: string)
    ensures Sealed([Fixed("  " + Keyword + " Execute "), Given(name), Fixed(" with valid inputs")])
    ensures Tally([Fixed("  " + Keyword + " Execute "), Given(name), Fixed(" with valid inputs")], false) == 1
  {
    var head := "  " + Keyword + " Execute ";
    FixedLine(" with valid inputs");
    HeaderLine(head, " Execute ", name, [Fixed(" with valid inputs")]);
    assert [Fixed(head), Given(name), Fixed(" with valid inputs")]
        == [Fixed(head), Given(name)] + [Fixed(" with valid inputs")];
    ClosedEndAppend("  " + Keyword, " Execute ");
    MidSealed(head, name, " with valid inputs");
  }

  lemma ErrorHeader(name: string)
    ensures Sealed([Fixed("  " + Keyword + " Handle error conditions in "), Given(name)])
    ensures Tally([Fixed("  " + Keyword + " Handle error conditions in "), Given(name)], false) == 1
  {
    var head := "  " + Keyword + " Handle error conditions in ";
    HeaderLine(head, " Handle error conditions in ", name, []);
    assert [Fixed(head), Given(name)] == [Fixed(head), Given(name)] + [];
    ClosedEndAppend("  " + Keyword, " Handle error conditions in ");
    TailSealed(head, name);
  }

  lemma ExampleHeader(name: string)
    ensures Sealed([Fixed("  " + OutlineKeyword + " Test "), Given(name), Fixed(" with example inputs")])
    ensures Tally([Fixed("  " + OutlineKeyword + " Test "), Given(name), Fixed(" with example inputs")], false) == 1
  {
    var head := "  " + OutlineKeyword + " Test ";
    FixedLine(" with example inputs");
    HeaderLine(head, " Test ", name, [Fixed(" with example inputs")]);
    assert [Fixed(head), Given(name), Fixed(" with example inputs")]
        == [Fixed(head), Given(name)] + [Fixed(" with example inputs")];
    ClosedEndAppend("  " + OutlineKeyword, " Test ");
    MidSealed(head, name, " with example inputs");
  }

  lemma VerifyHeader(name: string)
    ensures Sealed([Fixed("  " + Keyword + " Verify "), Given(name), Fixed(" public contract")])
    ensures Tally([Fixed("  " + Keyword + " Verify "), Given(name), Fixed(" public contract")], false) == 1
  {
    var head := "  " + Keyword + " Verify ";
    FixedLine(" public contract");
    HeaderLine(head, " Verify ", name, [Fixed(" public contract")]);
    assert [Fixed(head), Given(name), Fixed(" public contract")]
        == [Fixed(head), Given(name)] + [Fixed(" public contract")];
    ClosedEndAppend("  " + Keyword, " Verify ");
    MidSealed(head, name, " public contract");
  }

  lemma HeadFacts(featureName: string, name: string)
    ensures AllSealed(Head(featureName, name)) && AllQuiet(Head(featureName, name))
  {
    HeadLines(featureName, name);
  }

  lemma HeadLines(featureName: string, name: string)
    ensures Sealed([Fixed("Feature: "), Given(featureName)]) && Quiet([Fixed("Feature: "), Given(featureName)])
    ensures Sealed([Fixed("  As a user of the "), Given(name), Fixed(" function")])
         && Quiet([Fixed("  As a user of the "), Given(name), Fixed(" function")])
    ensures Sealed([Fixed("  I want to use it according " + "to its public contract")])
         && Quiet([Fixed("  I want to use it according " + "to its public contract")])
    ensures Sealed([Fixed("  So that I can achieve " + "the documented behavior")])
         && Quiet([Fixed("  So that I can achieve " + "the documented behavior")])
    ensures Sealed([Fixed("")]) && Quiet([Fixed("")])
  {
    TailLine("Feature: ", featureName);
    MidLine("  As a user of the ", name, " function");
    WantLine();
    SoThatLine();
    FixedLine("");
  }

  lemma WantLine()
    ensures Sealed([Fixed("  I want to use it according " + "to its public contract")])
         && Quiet([Fixed("  I want to use it according " + "to its public contract")])
  {
    FixedLine("  I want to use it according " + "to its public contract");
  }

  lemma SoThatLine()
    ensures Sealed([Fixed("  So that I can achieve " + "the documented behavior")])
         && Quiet([Fixed("  So that I can achieve " + "the documented behavior")])
  {
    assert Lacks("  So that I can achieve " + "the documented behavior", ':');
    FixedLine("  So that I can achieve " + "the documented behavior");
  }

  lemma CommentsFacts(description: string)
    ensures AllSealed(Comments(description)) && AllQuiet(Comments(description))
  {
    ClosedEndGuards("  # ");
  }

  lemma BackgroundFacts(name: string, signature: string)
    ensures AllSealed(Background(name, signature)) && AllQuiet(Background(name, signature))
    ensures TallyAll(Background(name, signature), true) >= Hits(signature)
  {
    FixedLine("  Background:");
    PairLine("    Given the callable '", name, "' with signature ", signature);
    AccessibleApiLine();
    FixedLine("");
    var b := Background(name, signature);
    TallyCovers(b[1], 3);
    TallyAllCovers(b, 1, true);
  }

  lemma AccessibleApiLine()
    ensures Sealed([Fixed("    And the callable is accessible " + "through the public API")])
         && Quiet([Fixed("    And the callable is accessible " + "through the public API")])
  {
    FixedLine("    And the callable is accessible " + "through the public API");
  }

  lemma ParameterStepsFacts(ps: seq<GParam>)
    ensures AllSealed(ParameterSteps(ps)) && AllQuiet(ParameterSteps(ps))
  {
    if ps == [] {
      FixedLine("    Given no parameters " + "are required");
    } else {
      var rows := seq(|ps|, i requires 0 <= i < |ps| =>
        [Fixed("      | "), Given(ps[i].name), Fixed(" | "), Given(ps[i].description), Fixed(" |")]);
      var first := "    Given the following " + "parameters are provided:";
      FixedLine(first);
      forall i | 0 <= i < |rows| ensures Sealed(rows[i]) && Quiet(rows[i]) {
        RowLine("      | ", ps[i].name, " | ", ps[i].description, " |");
      }
      AllSealedAppend([[Fixed(first)]], rows);
      AllQuietAppend([[Fixed(first)]], rows);
    }
  }

  lemma ReturnStepFacts(returnText: string)
    ensures Sealed(ReturnStep(returnText)) && Quiet(ReturnStep(returnText))
  {
    if returnText != "" {
      TailLine("    Then the function " + "should return ", returnText);
    } else {
      FixedLine("    Then the function " + "should execute successfully");
    }
  }

  lemma CallStepsFacts(name: string, returnText: string)
    ensures AllSealed(CallSteps(name, returnText)) && AllQuiet(CallSteps(name, returnText))
  {
    CallStepsLines(name);
    ReturnStepFacts(returnText);
  }

  lemma CallStepsLines(name: string)
    ensures Sealed([Fixed("    When I call "), Given(name), Fixed(" with the provided " + "parameters")])
         && Quiet([Fixed("    When I call "), Given(name), Fixed(" with the provided " + "parameters")])
    ensures Sealed([Fixed("    And all behavior should " + "conform to the public contract")])
         && Quiet([Fixed("    And all behavior should " + "conform to the public contract")])
    ensures Sealed([Fixed("")]) && Quiet([Fixed("")])
  {
    MidLine("    When I call ", name, " with the provided " + "parameters");
    FixedLine("    And all behavior should " + "conform to the public contract");
    FixedLine("");
  }

  /** The main scenario's template text holds exactly its header. */
  lemma MainFacts(name: string, d: Digest)
    ensures AllSealed(MainScenario(name, d)) && TallyAll(MainScenario(name, d), false) == 1
  {
    var header := [Fixed("  " + Keyword + " Execute "), Given(name), Fixed(" with valid inputs")];
    var p := ParameterSteps(d.parameters);
    var c := CallSteps(name, d.returnText);
    ExecuteHeader(name);
    ParameterStepsFacts(d.parameters);
    CallStepsFacts(name, d.returnText);
    AllSealedAppend(p, c);
    AllQuietAppend(p, c);
    ScenarioTally(header, p + c);
    assert MainScenario(name, d) == [header] + (p + c);
    AllSealedAppend([header], p + c);
  }

  lemma ErrorStepsFacts(name: string, raises: seq<string>)
    ensures AllSealed(ErrorSteps(name, raises)) && AllQuiet(ErrorSteps(name, raises))
  {
    var opening := ErrorSteps(name, raises)[..3];
    var rows := seq(|raises|, i requires 0 <= i < |raises| => [Fixed("      # "), Given(raises[i])]);
    var closing := [ [Fixed("    And the error messages " + "should be descriptive")], [Fixed("")] ];
    ErrorOpening(name);
    ErrorClosing();
    forall i | 0 <= i < |rows| ensures Sealed(rows[i]) && Quiet(rows[i]) {
      TailLine("      # ", raises[i]);
    }
    assert ErrorSteps(name, raises) == opening + rows + closing;
    AllSealedAppend(opening, rows);
    AllQuietAppend(opening, rows);
    AllSealedAppend(opening + rows, closing);
    AllQuietAppend(opening + rows, closing);
  }

  lemma ErrorOpening(name: string)
    ensures AllSealed(ErrorSteps(name, [])[..3]) && AllQuiet(ErrorSteps(name, [])[..3])
    ensures forall raises: seq<string> :: ErrorSteps(name, raises)[..3] == ErrorSteps(name, [])[..3]
  {
    EdgeCaseLine();
    MidLine("    When I call ", name, " with invalid parameters");
    RaisedLine();
  }

  lemma EdgeCaseLine()
    ensures Sealed([Fixed("    Given invalid or edge " + "case inputs are provided")])
         && Quiet([Fixed("    Given invalid or edge " + "case inputs are provided")])
  {
    FixedLine("    Given invalid or edge " + "case inputs are provided");
  }

  lemma RaisedLine()
    ensures Sealed([Fixed("    Then appropriate exceptions " + "should be raised:")])
         && Quiet([Fixed("    Then appropriate exceptions " + "should be raised:")])
  {
    assert Lacks("    Then appropriate exceptions " + "should be raised:", 'S');
    FixedLine("    Then appropriate exceptions " + "should be raised:");
  }

  lemma ErrorClosing()
    ensures AllSealed([ [Fixed("    And the error messages " + "should be descriptive")], [Fixed("")] ])
    ensures AllQuiet([ [Fixed("    And the error messages " + "should be descriptive")], [Fixed("")] ])
  {
    FixedLine("    And the error messages " + "should be descriptive");
    FixedLine("");
  }

  /** The error scenario, when there is one, holds exactly its header. */
  lemma ErrorFacts(name: string, raises: seq<string>)
    ensures AllSealed(ErrorScenario(name, raises))
    ensures TallyAll(ErrorScenario(name, raises), false) == if raises == [] then 0 else 1
  {
    if raises != [] {
      var header := [Fixed("  " + Keyword + " Handle error conditions in "), Given(name)];
      ErrorHeader(name);
      ErrorStepsFacts(name, raises);
      ScenarioTally(header, ErrorSteps(name, raises));
      AllSealedAppend([header], ErrorSteps(name, raises));
    }
  }

  lemma ExampleStepsFacts(name: string, d: Digest)
    ensures AllSealed(ExampleSteps(name, d)) && AllQuiet(ExampleSteps(name, d))
  {
    var es := d.examples;
    var inputs: seq<seq<Piece>> :=
      if d.parameters != [] then [[Fixed("    Given the following " + "example inputs: <inputs>")]] else [];
    var middle := [ [Fixed("    When I execute "), Given(name)],
        [Fixed("    Then I should get the " + "expected result: <output>")],
        [Fixed("")],
        [Fixed("    Examples:")],
        [Fixed("      | inputs | output |")] ];
    var rows := seq(|es|, i requires 0 <= i < |es| => [Fixed("      | "), Given(Clip(es[i], 40)), Fixed(" | expected |")]);
    ExampleInputs();
    ExampleMiddle(name);
    forall i | 0 <= i < |rows| ensures Sealed(rows[i]) && Quiet(rows[i]) {
      MidLine("      | ", Clip(es[i], 40), " | expected |");
    }
    FixedLine("");
    assert ExampleSteps(name, d) == inputs + middle + rows + [[Fixed("")]];
    AllSealedAppend(inputs, middle);
    AllQuietAppend(inputs, middle);
    AllSealedAppend(inputs + middle, rows);
    AllQuietAppend(inputs + middle, rows);
    AllSealedAppend(inputs + middle + rows, [[Fixed("")]]);
    AllQuietAppend(inputs + middle + rows, [[Fixed("")]]);
  }

  lemma ExampleInputs()
    ensures Sealed([Fixed("    Given the following " + "example inputs: <inputs>")])
    ensures Quiet([Fixed("    Given the following " + "example inputs: <inputs>")])
  {
    FixedLine("    Given the following " + "example inputs: <inputs>");
  }

  lemma ExampleMiddle(name: string)
    ensures AllSealed([ [Fixed("    When I execute "), Given(name)],
        [Fixed("    Then I should get the " + "expected result: <output>")],
        [Fixed("")],
        [Fixed("    Examples:")],
        [Fixed("      | inputs | output |")] ])
    ensures AllQuiet([ [Fixed("    When I execute "), Given(name)],
        [Fixed("    Then I should get the " + "expected result: <output>")],
        [Fixed("")],
        [Fixed("    Examples:")],
        [Fixed("      | inputs | output |")] ])
  {
    TailLine("    When I execute ", name);
    FixedLine("    Then I should get the " + "expected result: <output>");
    FixedLine("");
    FixedLine("    Examples:");
    FixedLine("      | inputs | output |");
  }

  /** The example scenario, when there is one, holds exactly its header. */
  lemma ExampleFacts(name: string, d: Digest)
    ensures AllSealed(ExampleScenario(name, d))
    ensures TallyAll(ExampleScenario(name, d), false) == if d.examples == [] then 0 else 1
  {
    if d.examples != [] {
      var header := [Fixed("  " + OutlineKeyword + " Test "), Given(name), Fixed(" with example inputs")];
      ExampleHeader(name);
      ExampleStepsFacts(name, d);
      ScenarioTally(header, ExampleSteps(name, d));
      AllSealedAppend([header], ExampleSteps(name, d));
    }
  }

  lemma VerifyStepsFacts(name: string)
    ensures AllSealed(VerifySteps(name)) && AllQuiet(VerifySteps(name))
  {
    VerifyStepsFirst(name);
    VerifyStepsLast();
  }

  lemma VerifyStepsFirst(name: string)
    ensures Sealed([Fixed("    Given the "), Given(name), Fixed(" callable is part " + "of the public API")])
         && Quiet([Fixed("    Given the "), Given(name), Fixed(" callable is part " + "of the public API")])
    ensures Sealed([Fixed("    When I inspect its interface")])
         && Quiet([Fixed("    When I inspect its interface")])
  {
    MidLine("    Given the ", name, " callable is part " + "of the public API");
    FixedLine("    When I inspect its interface");
  }

  lemma VerifyStepsLast()
    ensures Sealed([Fixed("    Then all documented features " + "should be accessible")])
         && Quiet([Fixed("    Then all documented features " + "should be accessible")])
    ensures Sealed([Fixed("    And the behavior should " + "match the documentation")])
         && Quiet([Fixed("    And the behavior should " + "match the documentation")])
    ensures Sealed([Fixed("    And no internal implementation " + "details should be exposed")])
         && Quiet([Fixed("    And no internal implementation " + "details should be exposed")])
  {
    AccessibleLine();
    MatchLine();
    ExposedLine();
  }

  lemma AccessibleLine()
    ensures Sealed([Fixed("    Then all documented features " + "should be accessible")])
         && Quiet([Fixed("    Then all documented features " + "should be accessible")])
  {
    FixedLine("    Then all documented features " + "should be accessible");
  }

  lemma MatchLine()
    ensures Sealed([Fixed("    And the behavior should " + "match the documentation")])
         && Quiet([Fixed("    And the behavior should " + "match the documentation")])
  {
    FixedLine("    And the behavior should " + "match the documentation");
  }

  lemma ExposedLine()
    ensures Sealed([Fixed("    And no internal implementation " + "details should be exposed")])
         && Quiet([Fixed("    And no internal implementation " + "details should be exposed")])
  {
    FixedLine("    And no internal implementation " + "details should be exposed");
  }

  lemma VerifyFacts(name: string)
    ensures AllSealed(VerifyScenario(name)) && TallyAll(VerifyScenario(name), false) == 1
  {
    var header := [Fixed("  " + Keyword + " Verify "), Given(name), Fixed(" public contract")];
    VerifyHeader(name);
    VerifyStepsFacts(name);
    ScenarioTally(header, VerifySteps(name));
    AllSealedAppend([header], VerifySteps(name));
  }

  // ---------------------------------------------------------------------
  // The whole template

  /** The scenarios the template writes: the main and the contract one
      always, an error one when the docstring lists raises, an outline when
      it lists examples. */
  function Scenarios(d: Digest): nat {
    2 + (if d.raises != [] then 1 else 0) + (if d.examples != [] then 1 else 0)
  }

  /** The template's own text holds exactly one header per scenario, and
      no hit straddles a piece boundary. */
  lemma TemplateScenarios(featureName: string, name: string, signature: string, d: Digest)
    ensures AllSealed(Lines(featureName, name, signature, d))
    ensures TallyAll(Lines(featureName, name, signature, d), false) == Scenarios(d)
  {
    var h := Head(featureName, name);
    var c := Comments(Described(name, d.description));
    var b := Background(name, signature);
    var m := MainScenario(name, d);
    var e := ErrorScenario(name, d.raises);
    var x := ExampleScenario(name, d);
    var v := VerifyScenario(name);
    HeadFacts(featureName, name);
    CommentsFacts(Described(name, d.description));
    BackgroundFacts(name, signature);
    MainFacts(name, d);
    ErrorFacts(name, d.raises);
    ExampleFacts(name, d);
    VerifyFacts(name);
    AllQuietAppend(h, c);
    AllQuietAppend(h + c, b);
    QuietTallyAll(h + c + b);
    AllSealedAppend(h, c);
    AllSealedAppend(h + c, b);
    AllSealedAppend(h + c + b, m);
    AllSealedAppend(h + c + b + m, e);
    AllSealedAppend(h + c + b + m + e, x);
    AllSealedAppend(h + c + b + m + e + x, v);
    TallyAllAppend(h + c + b, m, false);
    TallyAllAppend(h + c + b + m, e, false);
    TallyAllAppend(h + c + b + m + e, x, false);
    TallyAllAppend(h + c + b + m + e + x, v, false);
  }

  /** What `num_scenarios` counts: the scenarios, plus every hit inside
      text taken from the callable or its docstring. */
  lemma ScenarioCountAsWritten(featureName: string, name: string, signature: string, d: Digest)
    ensures Hits(Content(featureName, name, signature, d))
         == Scenarios(d) + TallyAll(Lines(featureName, name, signature, d), true)
  {
    TemplateScenarios(featureName, name, signature, d);
    ContentHits(Lines(featureName, name, signature, d));
  }

  lemma {:induction false} CountPositive(s: string, p: string, i: nat)
    requires p != [] && OccursIn(s, p, i)
    ensures Count(s, p) >= 1
    decreases i
  {
    if i > 0 && s[..|p|] != p {
      assert s[1..][i - 1..i - 1 + |p|] == s[i..i + |p|];
      CountPositive(s[1..], p, i - 1);
    }
  }

  /** A signature holding `Scenario:` (a default value such as
      `x='Scenario:'` is written into it unescaped) makes the count
      exceed the scenarios written. */
  lemma SignatureInflatesCount(featureName: string, name: string, signature: string, d: Digest, i: nat)
    requires OccursIn(signature, Keyword, i)
    ensures Hits(Content(featureName, name, signature, d)) > Scenarios(d)
  {
    var h := Head(featureName, name);
    var c := Comments(Described(name, d.description));
    var b := Background(name, signature);
    var m := MainScenario(name, d);
    var e := ErrorScenario(name, d.raises);
    var x := ExampleScenario(name, d);
    var v := VerifyScenario(name);
    ScenarioCountAsWritten(featureName, name, signature, d);
    CountPositive(signature, Keyword, i);
    BackgroundFacts(name, signature);
    TallyAllAppend(h + c, b, true);
    TallyAllAppend(h + c + b, m, true);
    TallyAllAppend(h + c + b + m, e, true);
    TallyAllAppend(h + c + b + m + e, x, true);
    TallyAllAppend(h + c + b + m + e + x, v, true);
  }

  // ---------------------------------------------------------------------
  // When the count is exact

  /** Every piece taken from the callable or its docstring is free of
      hits. */
  predicate Inert(ps: seq<Piece>) {
    forall i :: 0 <= i < |ps| && ps[i].Given? ==> Hits(ps[i].text) == 0
  }

  predicate AllInert(ls: seq<seq<Piece>>) {
    forall i :: 0 <= i < |ls| ==> Inert(ls[i])
  }

  lemma {:induction false} InertTally(ps: seq<Piece>)
    requires Inert(ps)
    ensures Tally(ps, true) == 0
    decreases |ps|
  {
    if ps != [] {
      assert Inert(ps[1..]) by {
        forall i | 0 <= i < |ps[1..]| && ps[1..][i].Given?
          ensures Hits(ps[1..][i].text) == 0
        {
          assert ps[1..][i] == ps[i + 1];
        }
      }
      InertTally(ps[1..]);
    }
  }

  lemma {:induction false} InertTallyAll(ls: seq<seq<Piece>>)
    requires AllInert(ls)
    ensures TallyAll(ls, true) == 0
    decreases |ls|
  {
    if ls != [] {
      InertTally(ls[0]);
      assert AllInert(ls[1..]) by {
        forall i | 0 <= i < |ls[1..]| ensures Inert(ls[1..][i]) {
          assert ls[1..][i] == ls[i + 1];
        }
      }
      InertTallyAll(ls[1..]);
    }
  }

  lemma AllInertAppend(a: seq<seq<Piece>>, b: seq<seq<Piece>>)
    requires AllInert(a) && AllInert(b)
    ensures AllInert(a + b)
  {
    assert forall i :: 0 <= i < |a + b| ==> (a + b)[i] == if i < |a| then a[i] else b[i - |a|];
  }

  /** The count is the number of scenarios exactly when no text taken from
      the callable or its docstring holds a hit. */
  lemma CountExactIffInert(featureName: string, name: string, signature: string, d: Digest)
    ensures Hits(Content(featureName, name, signature, d)) == Scenarios(d)
        <==> AllInert(Lines(featureName, name, signature, d))
  {
    ScenarioCountAsWritten(featureName, name, signature, d);
    TallyZeroIffInert(Lines(featureName, name, signature, d));
  }

  /** The hits counted in given-step lines vanish exactly when every such
      line is inert. */
  lemma TallyZeroIffInert(ls: seq<seq<Piece>>)
    ensures TallyAll(ls, true) == 0 <==> AllInert(ls)
  {
    if AllInert(ls) {
      InertTallyAll(ls);
    } else {
      var i :| 0 <= i < |ls| && !Inert(ls[i]);
      var j :| 0 <= j < |ls[i]| && ls[i][j].Given? && Hits(ls[i][j].text) != 0;
      TallyCovers(ls[i], j);
      TallyAllCovers(ls, i, true);
    }
  }

  /** Every text the template takes from the callable or its docstring,
      taken as it is written into the content, is free of hits. */
  predicate PlainInputs(featureName: string, name: string, signature: string, d: Digest) {
    Hits(featureName) == 0 && Hits(name) == 0 && Hits(signature) == 0 && Hits(d.returnText) == 0
    && (forall i :: 0 <= i < |d.parameters| ==> Hits(d.parameters[i].name) == 0)
    && (forall i :: 0 <= i < |d.parameters| ==> Hits(d.parameters[i].description) == 0)
    && (forall i :: 0 <= i < |d.raises| ==> Hits(d.raises[i]) == 0)
    && (forall i :: 0 <= i < |d.examples| ==> Hits(Clip(d.examples[i], 40)) == 0)
    && SentencesPlain(Described(name, d.description))
  }

  predicate SentencesPlain(description: string) {
    var ss := Sentences(description);
    forall i :: 0 <= i < |ss| ==> Hits(ss[i]) == 0
  }

  lemma HeadInert(featureName: string, name: string)
    requires Hits(featureName) == 0 && Hits(name) == 0
    ensures AllInert(Head(featureName, name))
  {
  }

  lemma CommentsInert(description: string)
    requires SentencesPlain(description)
    ensures AllInert(Comments(description))
  {
  }

  lemma BackgroundInert(name: string, signature: string)
    requires Hits(name) == 0 && Hits(signature) == 0
    ensures AllInert(Background(name, signature))
  {
  }

  lemma MainInert(name: string, d: Digest)
    requires Hits(name) == 0 && Hits(d.returnText) == 0
    requires forall i :: 0 <= i < |d.parameters| ==> Hits(d.parameters[i].name) == 0
    requires forall i :: 0 <= i < |d.parameters| ==> Hits(d.parameters[i].description) == 0
    ensures AllInert(MainScenario(name, d))
  {
    var header := [Fixed("  " + Keyword + " Execute "), Given(name), Fixed(" with valid inputs")];
    var p := ParameterSteps(d.parameters);
    var c := CallSteps(name, d.returnText);
    assert AllInert(p);
    assert AllInert(c);
    assert AllInert([header]);
    AllInertAppend([header], p);
    AllInertAppend([header] + p, c);
  }

  lemma ErrorInert(name: string, raises: seq<string>)
    requires Hits(name) == 0
    requires forall i :: 0 <= i < |raises| ==> Hits(raises[i]) == 0
    ensures AllInert(ErrorScenario(name, raises))
  {
    if raises != [] {
      var opening := [ [Fixed("  " + Keyword + " Handle error conditions in "), Given(name)] ]
        + ErrorSteps(name, raises)[..3];
      var rows := seq(|raises|, i requires 0 <= i < |raises| => [Fixed("      # "), Given(raises[i])]);
      var closing := [ [Fixed("    And the error messages " + "should be descriptive")], [Fixed("")] ];
      assert ErrorScenario(name, raises) == opening + rows + closing;
      assert AllInert(opening);
      AllInertAppend(opening, rows);
      AllInertAppend(opening + rows, closing);
    }
  }

  lemma ExampleInert(name: string, d: Digest)
    requires Hits(name) == 0
    requires forall i :: 0 <= i < |d.examples| ==> Hits(Clip(d.examples[i], 40)) == 0
    ensures AllInert(ExampleScenario(name, d))
  {
    if d.examples != [] {
      var es := d.examples;
      var n := |ExampleScenario(name, d)| - |es| - 1;
      var opening := ExampleScenario(name, d)[..n];
      var rows := seq(|es|, i requires 0 <= i < |es| => [Fixed("      | "), Given(Clip(es[i], 40)), Fixed(" | expected |")]);
      assert ExampleScenario(name, d) == opening + rows + [[Fixed("")]];
      assert AllInert(opening);
      AllInertAppend(opening, rows);
      AllInertAppend(opening + rows, [[Fixed("")]]);
    }
  }

  lemma VerifyInert(name: string)
    requires Hits(name) == 0
    ensures AllInert(VerifyScenario(name))
  {
  }

  /** When no text taken from the callable or its docstring holds a hit,
      the count is the number of scenarios. */
  lemma CountWhenPlain(featureName: string, name: string, signature: string, d: Digest)
    requires PlainInputs(featureName, name, signature, d)
    ensures Hits(Content(featureName, name, signature, d)) == Scenarios(d)
  {
    var h := Head(featureName, name);
    var c := Comments(Described(name, d.description));
    var b := Background(name, signature);
    var m := MainScenario(name, d);
    var e := ErrorScenario(name, d.raises);
    var x := ExampleScenario(name, d);
    var v := VerifyScenario(name);
    HeadInert(featureName, name);
    CommentsInert(Described(name, d.description));
    BackgroundInert(name, signature);
    MainInert(name, d);
    ErrorInert(name, d.raises);
    ExampleInert(name, d);
    VerifyInert(name);
    AllInertAppend(h, c);
    AllInertAppend(h + c, b);
    AllInertAppend(h + c + b, m);
    AllInertAppend(h + c + b + m, e);
    AllInertAppend(h + c + b + m + e, x);
    AllInertAppend(h + c + b + m + e + x, v);
    CountExactIffInert(featureName, name, signature, d);
  }

  /** The smallest such signature: one default value `'Scenario:'`. */
  lemma DefaultValueInflatesCount(featureName: string, name: string, d: Digest)
    ensures Hits(Content(featureName, name, "(x='" + Keyword + "')", d)) > Scenarios(d)
  {
    var signature := "(x='" + Keyword + "')";
    assert signature[4..4 + |Keyword|] == Keyword;
    SignatureInflatesCount(featureName, name, signature, d, 4);
  }

  // =====================================================================
  // Metadata (utils/gherkin_generator.py:353-403)

  /** The metadata dictionary, without its hash and timestamp. */
  datatype Metadata = Metadata(
    featureName: string,
    featureFilePath: string,
    callableName: string,
    callableSignature: string,
    numScenarios: nat,
    hasExamples: bool,
    hasParameters: bool,
    hasReturn: bool,
    contentLength: nat,
    description: string)

  /** Where the feature file goes when no path is given. */
  function DefaultPath(name: string): (p: string)
    ensures StartsWith(p, "features/") && EndsWith(p, ".feature")
    ensures |p| == |"features/"| + |name| + |".feature"|
    ensures p[|"features/"|..|p| - |".feature"|] == name
  {
    "features/" + name + ".feature"
  }

  /** `_generate_metadata`. The scenario count is what counting the two
      keywords over the content gives, as the code does it. */
  function MetadataOf(featureName: string, name: string, signature: string, content: string,
                      d: Digest, outputPath: Option<string>): (m: Metadata)
    ensures m.numScenarios == Count(content, Keyword) + Count(content, OutlineKeyword)
    ensures m.hasExamples <==> |d.examples| > 0
    ensures m.hasParameters <==> |d.parameters| > 0
    ensures m.hasReturn <==> d.returnText != ""
    ensures m.contentLength == |content|
    ensures |m.description| <= 100 && StartsWith(d.description, m.description)
    ensures |d.description| <= 100 ==> m.description == d.description
    ensures |d.description| > 100 ==> m.description == d.description[..100]
    ensures outputPath.Some? ==> m.featureFilePath == outputPath.value
    ensures outputPath.None? ==> m.featureFilePath == DefaultPath(name)
  {
    Metadata(featureName,
      if outputPath.Some? then outputPath.value else DefaultPath(name),
      name, signature, Hits(content),
      d.examples != [], d.parameters != [], d.returnText != "",
      |content|, Clip(d.description, 100))
  }

  /** `make_gherkins` for a callable already named and given a signature;
      `docstring` is the one passed in or found on the callable. The
      reported count is the scenarios written plus every keyword inside
      the text taken from the callable or its docstring, so it is never
      below the scenarios written and equals them exactly when that text
      holds no keyword. */
  function MakeGherkins(name: string, signature: string, docstring: Option<string>,
                        outputPath: Option<string>): (r: (string, Metadata))
    ensures r.1.featureName == FeatureName(name)
    ensures r.0 == Content(r.1.featureName, name, signature, ParseDocstring(docstring))
    ensures r.1 == MetadataOf(r.1.featureName, name, signature, r.0, ParseDocstring(docstring), outputPath)
    ensures r.1.contentLength == |r.0|
    ensures r.1.callableName == name && r.1.callableSignature == signature
    ensures r.1.numScenarios == Hits(r.0)
    ensures var ls := Lines(r.1.featureName, name, signature, ParseDocstring(docstring));
            r.1.numScenarios == TallyAll(ls, false) + TallyAll(ls, true)
    ensures r.1.numScenarios >= Scenarios(ParseDocstring(docstring))
    ensures r.1.numScenarios == Scenarios(ParseDocstring(docstring))
        <==> AllInert(Lines(r.1.featureName, name, signature, ParseDocstring(docstring)))
    ensures docstring.None? ==> r.1.numScenarios >= 2 && !r.1.hasParameters && !r.1.hasExamples && !r.1.hasReturn
  {
    var d := ParseDocstring(docstring);
    var featureName := FeatureName(name);
    var content := Content(featureName, name, signature, d);
    TemplateScenarios(featureName, name, signature, d);
    ScenarioCountAsWritten(featureName, name, signature, d);
    CountExactIffInert(featureName, name, signature, d);
    (content, MetadataOf(featureName, name, signature, content, d, outputPath))
  }

  /** With keyword-free inputs, the count as written is the number of
      scenarios the template writes. */
  lemma MakeGherkinsCount(name: string, signature: string, docstring: Option<string>,
                          outputPath: Option<string>)
    requires PlainInputs(FeatureName(name), name, signature, ParseDocstring(docstring))
    ensures MakeGherkins(name, signature, docstring, outputPath).1.numScenarios
         == Scenarios(ParseDocstring(docstring))
  {
    CountWhenPlain(FeatureName(name), name, signature, ParseDocstring(docstring));
  }
}
