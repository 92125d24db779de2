/** `DocstringParser.parse` and the three section dispatchers
    (utils/parser.py:26-72 and 249-305).

    A docstring is cleaned, split into a description and a dictionary of
    named sections, and the sections are then applied one by one, in the
    dictionary's order, to a result that starts out empty. Which parser a
    section goes to is decided by its lower-cased name and the style. */
module Docstrings {
  import opened Common
  import opened Text
  import opened DocTypes
  import opened Cleaning
  import opened Sections
  import opened Entries

  /** Which part of the result a section fills. */
  datatype Role = ParamsRole | ReturnsRole | RaisesRole | ExamplesRole | NoRole

  /** The name tuples of `_parse_google_sections`,
      `_parse_numpy_sections` and `_parse_rest_sections`. */
  function RoleOf(style: Style, name: string): (r: Role)
    ensures style == Unrecognized ==> r == NoRole
    ensures r != NoRole ==> Lower(name) in RoleNames(style, r)
  {
    var n := Lower(name);
    if style == Unrecognized then NoRole
    else if n in RoleNames(style, ParamsRole) then ParamsRole
    else if n in RoleNames(style, ReturnsRole) then ReturnsRole
    else if n in RoleNames(style, RaisesRole) then RaisesRole
    else if n in RoleNames(style, ExamplesRole) then ExamplesRole
    else NoRole
  }

  function RoleNames(style: Style, r: Role): seq<string> {
    match r
    case ParamsRole =>
      (match style
       case Google => ["args", "arguments", "parameters"]
       case Numpy => ["parameters", "parameter"]
       case Rest => ["param", "parameter", "arg", "argument"]
       case Unrecognized => [])
    case ReturnsRole => if style == Unrecognized then [] else ["returns", "return"]
    case RaisesRole =>
      (match style
       case Rest => ["raises", "raise", "except", "exception"]
       case Unrecognized => []
       case _ => ["raises", "exceptions"])
    case ExamplesRole => if style == Unrecognized then [] else ["examples", "example"]
    case NoRole => []
  }

  /** The parameter list a Google or NumPy parameter section produces. */
  function ParamsOf(style: Style, content: string): seq<Param> {
    if style == Google then GoogleParams(content) else NumpyParams(content)
  }

  /** The `returns` entry a section produces; reStructuredText keeps the
      stripped text, even when it is empty. */
  function ReturnsOf(style: Style, content: string): Option<Returns> {
    match style
    case Google => GoogleReturns(content)
    case Numpy => NumpyReturns(content)
    case _ => Some(ReturnsText(Strip(content)))
  }

  function RaisesOf(style: Style, content: string): seq<Raise> {
    if style == Google then GoogleRaises(content) else NumpyRaises(content)
  }

  /** One iteration of a dispatcher loop. Google and NumPy sections replace
      the field they fill; reStructuredText parameter and exception fields
      append one entry each. */
  function ApplySection(style: Style, m: DocModel, name: string, content: string): DocModel {
    match RoleOf(style, name)
    case ParamsRole =>
      if style == Rest then m.(params := m.params + [RestParam(name, content)])
      else m.(params := ParamsOf(style, content))
    case ReturnsRole => m.(ret := ReturnsOf(style, content))
    case RaisesRole =>
      if style == Rest then m.(raises := m.raises + [RestRaise(name, content)])
      else m.(raises := RaisesOf(style, content))
    case ExamplesRole => m.(examples := Examples(content))
    case NoRole => m
  }

  /** `for section, content in sections.items(): ...` */
  function ApplyAll(style: Style, m: DocModel, sections: Dict<string>): DocModel
    decreases |sections|
  {
    if sections == [] then m
    else ApplyAll(style, ApplySection(style, m, sections[0].0, sections[0].1), sections[1..])
  }

  /** `DocstringParser(style).parse(docstring)`; `None` and `""` are the
      falsy docstrings. */
  function Parse(doc: Option<string>, style: Style): (m: DocModel)
    ensures doc.None? || doc == Some("") ==> m == Blank("")
    ensures IsStripped(m.description)
    ensures style == Unrecognized && doc.Some? && doc.value != "" ==> m == Blank(Strip(Clean(doc.value)))
  {
    if doc.None? || doc.value == "" then
      StrippedResult("");
      Blank("")
    else
      var (desc, sections) := SplitSections(style, Clean(doc.value));
      StrippedResult(desc);
      ApplyAllKeepsDescription(style, Blank(Strip(desc)), sections);
      if style == Unrecognized then
        ApplyAllUnrecognized(Blank(Strip(desc)), sections);
        ApplyAll(style, Blank(Strip(desc)), sections)
      else ApplyAll(style, Blank(Strip(desc)), sections)
  }

  // ---------------------------------------------------------------------
  // Properties of the dispatch

  /** No section touches the description. */
  lemma {:induction false} ApplyAllKeepsDescription(style: Style, m: DocModel, sections: Dict<string>)
    ensures ApplyAll(style, m, sections).description == m.description
    decreases |sections|
  {
    if sections != [] {
      ApplyAllKeepsDescription(style, ApplySection(style, m, sections[0].0, sections[0].1), sections[1..]);
    }
  }

  /** An unrecognised style parses no section at all. */
  lemma {:induction false} ApplyAllUnrecognized(m: DocModel, sections: Dict<string>)
    ensures ApplyAll(Unrecognized, m, sections) == m
    decreases |sections|
  {
    if sections != [] {
      ApplyAllUnrecognized(m, sections[1..]);
    }
  }

  /** The loop over `sections + [(name, content)]` is the loop over
      `sections` followed by one more iteration. */
  lemma {:induction false} ApplyAllSnoc(style: Style, m: DocModel, sections: Dict<string>, name: string, content: string)
    ensures ApplyAll(style, m, sections + [(name, content)])
         == ApplySection(style, ApplyAll(style, m, sections), name, content)
    decreases |sections|
  {
    if sections == [] {
      assert ApplyAll(style, m, [(name, content)]) == ApplyAll(style, ApplySection(style, m, name, content), []);
    } else {
      var m' := ApplySection(style, m, sections[0].0, sections[0].1);
      assert (sections + [(name, content)])[1..] == sections[1..] + [(name, content)];
      ApplyAllSnoc(style, m', sections[1..], name, content);
    }
  }

  /** The content of the last section that has role `r`, looking from the
      end of the dictionary. */
  function LastWith(style: Style, r: Role, sections: Dict<string>): Option<string>
    decreases |sections|
  {
    if sections == [] then None
    else if RoleOf(style, Last(sections).0) == r then Some(Last(sections).1)
    else LastWith(style, r, sections[..|sections| - 1])
  }

  // The last matching section wins: the return entry and the examples are
  // those of the last section that fills them, in every style, and so are
  // the parameters and exceptions in the Google and NumPy styles. A field
  // that no section fills keeps its starting value.

  /** The return entry comes from the last return section. */
  lemma {:induction false} LastReturnsWins(style: Style, m: DocModel, sections: Dict<string>)
    ensures ApplyAll(style, m, sections).ret
         == match LastWith(style, ReturnsRole, sections)
            case None => m.ret
            case Some(c) => ReturnsOf(style, c)
    decreases |sections|
  {
    if sections != [] {
      var init := sections[..|sections| - 1];
      var (name, content) := Last(sections);
      assert sections == init + [(name, content)];
      ApplyAllSnoc(style, m, init, name, content);
      LastReturnsWins(style, m, init);
    }
  }

  /** The examples come from the last examples section. */
  lemma {:induction false} LastExamplesWins(style: Style, m: DocModel, sections: Dict<string>)
    ensures ApplyAll(style, m, sections).examples
         == match LastWith(style, ExamplesRole, sections)
            case None => m.examples
            case Some(c) => Examples(c)
    decreases |sections|
  {
    if sections != [] {
      var init := sections[..|sections| - 1];
      var (name, content) := Last(sections);
      assert sections == init + [(name, content)];
      ApplyAllSnoc(style, m, init, name, content);
      LastExamplesWins(style, m, init);
    }
  }

  /** Google and NumPy parameters come from the last parameter section. */
  lemma {:induction false} LastParamsWins(style: Style, m: DocModel, sections: Dict<string>)
    requires style != Rest
    ensures ApplyAll(style, m, sections).params
         == match LastWith(style, ParamsRole, sections)
            case None => m.params
            case Some(c) => ParamsOf(style, c)
    decreases |sections|
  {
    if sections != [] {
      var init := sections[..|sections| - 1];
      var (name, content) := Last(sections);
      assert sections == init + [(name, content)];
      ApplyAllSnoc(style, m, init, name, content);
      LastParamsWins(style, m, init);
    }
  }

  /** Google and NumPy exceptions come from the last exception section. */
  lemma {:induction false} LastRaisesWins(style: Style, m: DocModel, sections: Dict<string>)
    requires style != Rest
    ensures ApplyAll(style, m, sections).raises
         == match LastWith(style, RaisesRole, sections)
            case None => m.raises
            case Some(c) => RaisesOf(style, c)
    decreases |sections|
  {
    if sections != [] {
      var init := sections[..|sections| - 1];
      var (name, content) := Last(sections);
      assert sections == init + [(name, content)];
      ApplyAllSnoc(style, m, init, name, content);
      LastRaisesWins(style, m, init);
    }
  }

  /** The reStructuredText parameter fields, in order. */
  function RestParamsOf(sections: Dict<string>): seq<Param>
    decreases |sections|
  {
    if sections == [] then []
    else
      (if RoleOf(Rest, sections[0].0) == ParamsRole then [RestParam(sections[0].0, sections[0].1)] else [])
      + RestParamsOf(sections[1..])
  }

  /** The reStructuredText exception fields, in order. */
  function RestRaisesOf(sections: Dict<string>): seq<Raise>
    decreases |sections|
  {
    if sections == [] then []
    else
      (if RoleOf(Rest, sections[0].0) == RaisesRole then [RestRaise(sections[0].0, sections[0].1)] else [])
      + RestRaisesOf(sections[1..])
  }

  /** One reStructuredText field appends at most one parameter and at
      most one exception. */
  lemma RestSectionStep(m: DocModel, name: string, content: string)
    ensures ApplySection(Rest, m, name, content).params
         == m.params + if RoleOf(Rest, name) == ParamsRole then [RestParam(name, content)] else []
    ensures ApplySection(Rest, m, name, content).raises
         == m.raises + if RoleOf(Rest, name) == RaisesRole then [RestRaise(name, content)] else []
  {
  }

  /** reStructuredText parameter and exception fields accumulate: the
      result holds one entry per matching field, in dictionary order. */
  lemma {:induction false} RestFieldsAccumulate(m: DocModel, sections: Dict<string>)
    ensures ApplyAll(Rest, m, sections).params == m.params + RestParamsOf(sections)
    ensures ApplyAll(Rest, m, sections).raises == m.raises + RestRaisesOf(sections)
    decreases |sections|
  {
    if sections != [] {
      var (name, content) := sections[0];
      var m' := ApplySection(Rest, m, name, content);
      assert ApplyAll(Rest, m, sections) == ApplyAll(Rest, m', sections[1..]);
      RestFieldsAccumulate(m', sections[1..]);
      RestSectionStep(m, name, content);
      var p := if RoleOf(Rest, name) == ParamsRole then [RestParam(name, content)] else [];
      var r := if RoleOf(Rest, name) == RaisesRole then [RestRaise(name, content)] else [];
      assert RestParamsOf(sections) == p + RestParamsOf(sections[1..]);
      assert RestRaisesOf(sections) == r + RestRaisesOf(sections[1..]);
      assert m.params + p + RestParamsOf(sections[1..]) == m.params + (p + RestParamsOf(sections[1..]));
      assert m.raises + r + RestRaisesOf(sections[1..]) == m.raises + (r + RestRaisesOf(sections[1..]));
    }
  }

  /** Lower-casing keeps whitespace where it was. */
  lemma LowerKeepsSpaces(s: string)
    ensures forall j :: 0 <= j < |s| ==> (IsSpace(Lower(s)[j]) <==> IsSpace(s[j]))
  {
  }

  /** A section name the reStructuredText dispatcher accepts is a single
      word, so the field argument (`parts[-1] if len(parts) > 1`) is always
      empty: `:param x: text` opens a section named `param x`, which no
      name tuple contains, and a bare `:param: text` has no name. */
  lemma RestRoleNameIsWord(name: string, r: Role)
    requires r != NoRole && RoleOf(Rest, name) == r
    ensures FieldArgument(name) == ""
  {
    LowerKeepsSpaces(name);
    var n := Lower(name);
    assert forall j :: 0 <= j < |n| ==> !IsSpace(n[j]);
    FieldArgumentOfWord(name);
  }

  lemma {:induction false} RestParamsUnnamed(sections: Dict<string>)
    ensures forall i :: 0 <= i < |RestParamsOf(sections)| ==> RestParamsOf(sections)[i].name == ""
    ensures forall i :: 0 <= i < |RestRaisesOf(sections)| ==> RestRaisesOf(sections)[i].etype == ""
    decreases |sections|
  {
    if sections != [] {
      RestParamsUnnamed(sections[1..]);
      var r := RoleOf(Rest, sections[0].0);
      if r != NoRole {
        RestRoleNameIsWord(sections[0].0, r);
      }
    }
  }

  /** Every parameter and exception a reStructuredText docstring yields
      has an empty name. */
  lemma ParseRestUnnamed(doc: Option<string>)
    ensures var m := Parse(doc, Rest);
            && (forall i :: 0 <= i < |m.params| ==> m.params[i].name == "")
            && (forall i :: 0 <= i < |m.raises| ==> m.raises[i].etype == "")
  {
    if doc.Some? && doc.value != "" {
      var (desc, sections) := SplitSections(Rest, Clean(doc.value));
      var m0 := Blank(Strip(desc));
      assert Parse(doc, Rest) == ApplyAll(Rest, m0, sections);
      RestFieldsAccumulate(m0, sections);
      assert m0.params == [] && m0.raises == [];
      assert Parse(doc, Rest).params == RestParamsOf(sections);
      assert Parse(doc, Rest).raises == RestRaisesOf(sections);
      RestParamsUnnamed(sections);
    }
  }
}
