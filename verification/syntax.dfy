/** The part of Python's abstract syntax tree that `CodeParser` looks at,
    and its five renderers `_get_name`, `_get_attribute`,
    `_get_annotation`, `_get_default_value` and `_get_decorator_name`
    (utils/parser.py:891-1007).

    `ast.unparse`, which two renderers fall back to, is a call into the
    standard library; it is a parameter `unparse` here. */
module Syntax {
  import opened Common
  import opened Text

  /** The value of an `ast.Constant`. `Other` stands for any other
      constant (a float, bytes, `...`), given by its `str()` text. */
  datatype Const =
    | NoneConst
    | StrConst(s: string)
    | IntConst(i: int)
    | BoolConst(b: bool)
    | OtherConst(text: string)

  /** Expression nodes. `Other` is any node kind not listed; `value` is
      its `value` field when it has one that is itself a node (as
      `ast.Starred` does). */
  datatype Expr =
    | Name(id: string)
    | Attribute(obj: Expr, attr: string)
    | Subscript(base: Expr, slice: Expr)
    | Call(func: Expr, args: seq<Expr>)
    | Constant(c: Const)
    | List(elts: seq<Expr>)
    | Tuple(elts: seq<Expr>)
    | Dict(keys: seq<Expr>, values: seq<Expr>)
    | Other(value: Option<Expr>)

  /** `str(value)` of a constant. */
  function ConstText(c: Const): string {
    match c
    case NoneConst => "None"
    case StrConst(s) => s
    case IntConst(i) => IntToString(i)
    case BoolConst(b) => if b then "True" else "False"
    case OtherConst(t) => t
  }

  /** `_get_attribute`: a dotted path of names, `...` for anything else. */
  function AttributeText(e: Expr): string {
    match e
    case Name(id) => id
    case Attribute(obj, attr) => AttributeText(obj) + "." + attr
    case _ => "..."
  }

  /** `_get_name` */
  function NameText(e: Expr): string {
    match e
    case Name(id) => id
    case Attribute(obj, attr) => NameText(obj) + "." + attr
    case Subscript(base, _) => NameText(base) + "[...]"
    case Call(func, _) => NameText(func) + "(...)"
    case _ => "..."
  }

  /** `_get_annotation`: the subscripted object goes through
      `_get_attribute`, a tuple is parenthesised (so `Dict[str, int]`
      comes out as `Dict[(str, int)]`), a constant is its `str()`. */
  function AnnotationText(e: Expr, unparse: Expr -> string): string
    decreases e
  {
    match e
    case Name(id) => id
    case Attribute(_, _) => AttributeText(e)
    case Subscript(base, slice) => AttributeText(base) + "[" + AnnotationText(slice, unparse) + "]"
    case Constant(c) => ConstText(c)
    case Tuple(elts) =>
      "(" + Join(seq(|elts|, i requires 0 <= i < |elts| => AnnotationText(elts[i], unparse)), ", ") + ")"
    case Other(Some(v)) => AnnotationText(v, unparse)
    case _ => unparse(e)
  }

  /** `_get_default_value`: strings are put between single quotes without
      escaping, a dictionary is `{...}`, and a one-element tuple has no
      trailing comma. */
  function DefaultText(e: Expr, unparse: Expr -> string): string
    decreases e
  {
    match e
    case Constant(c) =>
      (match c
       case NoneConst => "None"
       case StrConst(s) => "'" + s + "'"
       case _ => ConstText(c))
    case List(elts) =>
      "[" + Join(seq(|elts|, i requires 0 <= i < |elts| => DefaultText(elts[i], unparse)), ", ") + "]"
    case Tuple(elts) =>
      "(" + Join(seq(|elts|, i requires 0 <= i < |elts| => DefaultText(elts[i], unparse)), ", ") + ")"
    case Dict(_, _) => "{...}"
    case Name(_) => NameText(e)
    case Attribute(_, _) => NameText(e)
    case _ => unparse(e)
  }

  /** `_get_decorator_name`: a call is named by what it calls. */
  function DecoratorText(e: Expr): string {
    match e
    case Name(id) => id
    case Attribute(obj, attr) => NameText(obj) + "." + attr
    case Call(func, _) => NameText(func)
    case _ => "..."
  }

  // ---------------------------------------------------------------------
  // Dotted paths

  /** A chain of attribute accesses on a name: `a`, `a.b`, `a.b.c`. */
  predicate IsDotted(e: Expr) {
    match e
    case Name(_) => true
    case Attribute(obj, _) => IsDotted(obj)
    case _ => false
  }

  /** The names along a dotted path, outermost first. */
  function DottedParts(e: Expr): (ps: seq<string>)
    requires IsDotted(e)
    ensures |ps| >= 1
  {
    match e
    case Name(id) => [id]
    case Attribute(obj, attr) => DottedParts(obj) + [attr]
  }

  /** On a dotted path every renderer agrees: they all write the names
      joined with `.`. */
  lemma {:induction false} DottedRenderersAgree(e: Expr, unparse: Expr -> string)
    requires IsDotted(e)
    ensures AttributeText(e) == Join(DottedParts(e), ".")
    ensures NameText(e) == Join(DottedParts(e), ".")
    ensures AnnotationText(e, unparse) == Join(DottedParts(e), ".")
    ensures DefaultText(e, unparse) == Join(DottedParts(e), ".")
    ensures DecoratorText(e) == Join(DottedParts(e), ".")
  {
    match e
    case Name(id) =>
    case Attribute(obj, attr) =>
      DottedRenderersAgree(obj, unparse);
      JoinSnoc(DottedParts(obj), attr, ".");
  }

  /** A decorator call such as `@app.route("/")` is named by the called
      path, which is `_get_name` of the call without its `(...)`. */
  lemma DecoratorOfCall(func: Expr, args: seq<Expr>)
    ensures DecoratorText(Call(func, args)) + "(...)" == NameText(Call(func, args))
  {
  }

  function Quoted(s: string): Expr {
    Constant(StrConst(s))
  }

  /** Default values are rendered without escaping, so two different
      tuples can produce the same text: `("a", "b")` and `("a', 'b",)`. */
  lemma DefaultTextNotInjective(unparse: Expr -> string)
    ensures Tuple([Quoted("a"), Quoted("b")]) != Tuple([Quoted("a', 'b")])
    ensures DefaultText(Tuple([Quoted("a"), Quoted("b")]), unparse)
         == DefaultText(Tuple([Quoted("a', 'b")]), unparse)
  {
    var two := [Quoted("a"), Quoted("b")];
    var one := [Quoted("a', 'b")];
    assert two != one by { assert |two| != |one|; }
    var r2 := seq(|two|, i requires 0 <= i < |two| => DefaultText(two[i], unparse));
    var r1 := seq(|one|, i requires 0 <= i < |one| => DefaultText(one[i], unparse));
    assert DefaultText(Quoted("a"), unparse) == "'a'";
    assert DefaultText(Quoted("b"), unparse) == "'b'";
    assert DefaultText(Quoted("a', 'b"), unparse) == "'a', 'b'";
    assert r2 == ["'a'", "'b'"];
    assert r1 == ["'a', 'b'"];
    assert Join(r2, ", ") == "'a'" + ", " + "'b'";
  }

  /** `Dict[str, int]` is written `Dict[(str, int)]`. */
  lemma DictAnnotation(unparse: Expr -> string)
    ensures AnnotationText(Subscript(Name("Dict"), Tuple([Name("str"), Name("int")])), unparse)
         == "Dict[(str, int)]"
  {
    var elts := [Name("str"), Name("int")];
    var rs := seq(|elts|, i requires 0 <= i < |elts| => AnnotationText(elts[i], unparse));
    assert rs == ["str", "int"];
    assert Join(rs, ", ") == "str, int";
  }
}
