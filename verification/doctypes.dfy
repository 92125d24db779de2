/** The record `DocstringParser.parse` returns (utils/parser.py:26-72):
    a description plus lists of parameters, exceptions and examples and an
    optional return entry. */
module DocTypes {
  import opened Common

  /** The `style` a `DocstringParser` is built with; any other string is
      `Unrecognized`, for which no section is parsed. */
  datatype Style = Google | Numpy | Rest | Unrecognized

  function StyleOf(name: string): (s: Style)
    ensures s == Google <==> name == "google"
    ensures s == Numpy <==> name == "numpy"
    ensures s == Rest <==> name == "rest"
  {
    if name == "google" then Google
    else if name == "numpy" then Numpy
    else if name == "rest" then Rest
    else Unrecognized
  }

  /** `{"name", "type", "description"}`; Google entries always carry
      `type: None`. */
  datatype Param = Param(name: string, ptype: Option<string>, description: string)

  /** `{"type", "description"}` of a raised exception. */
  datatype Raise = Raise(etype: string, description: string)

  /** The `returns` entry: a `{"type", "description"}` record for the
      Google and NumPy styles, and the bare stripped text for
      reStructuredText. */
  datatype Returns =
    | ReturnsRecord(rtype: Option<string>, description: string)
    | ReturnsText(text: string)

  datatype DocModel = DocModel(
    description: string,
    params: seq<Param>,
    ret: Option<Returns>,
    raises: seq<Raise>,
    examples: seq<string>)

  /** The result for a missing or empty docstring, and the starting point
      that sections are applied to. */
  function Blank(description: string): DocModel {
    DocModel(description, [], None, [], [])
  }
}
