/** `CodeParser._parse_function`, `_parse_class` and
    `_get_function_params` (utils/parser.py:757-889): the records built for
    one function, one method and one class. */
module Extractor {
  import opened Common
  import opened Text
  import opened DocTypes
  import opened Docstrings
  import opened Syntax

  /** One `ast.arg`. */
  datatype Arg = Arg(arg: string, annotation: Option<Expr>)

  /** `ast.arguments`. `defaults` belongs to the positional-only and the
      ordinary parameters together, right-aligned; keyword-only parameters
      are never read. */
  datatype Arguments = Arguments(
    posonly: seq<Arg>,
    args: seq<Arg>,
    vararg: Option<Arg>,
    kwonly: seq<Arg>,
    kwarg: Option<Arg>,
    defaults: seq<Expr>)

  /** What the Python grammar guarantees of every `ast.arguments`. */
  predicate ValidArguments(a: Arguments) {
    |a.defaults| <= |a.posonly| + |a.args|
  }

  /** A `def` or `async def` statement; `docstring` is what
      `ast.get_docstring` returns for it. */
  datatype FunctionNode = FunctionNode(
    name: string,
    docstring: Option<string>,
    arguments: Arguments,
    returnType: Option<Expr>,
    decorators: seq<Expr>,
    lineno: int)

  datatype ClassNode = ClassNode(
    name: string,
    docstring: Option<string>,
    bases: seq<Expr>,
    body: seq<Stmt>,
    lineno: int)

  /** Statements of a module or class body; only these three kinds are
      told apart. */
  datatype Stmt =
    | FunctionDef(f: FunctionNode)
    | AsyncFunctionDef(af: FunctionNode)
    | ClassDef(c: ClassNode)
    | OtherStmt

  /** `{"name", "has_default", "default", "annotation"}` */
  datatype ParamRecord = ParamRecord(name: string, hasDefault: bool, default: Option<string>, annotation: Option<string>)

  /** The three keys only methods get: `is_special`, `is_staticmethod`,
      `is_classmethod`. */
  datatype MethodFlags = MethodFlags(isSpecial: bool, isStatic: bool, isClassmethod: bool)

  /** The record of a function or method. `overrides` and `inheritedFrom`
      are the keys inheritance resolution adds (`inherited_from` comes with
      `is_inherited = True`). */
  datatype FunctionRecord = FunctionRecord(
    name: string,
    docstring: DocModel,
    isAsync: bool,
    params: seq<ParamRecord>,
    returnAnnotation: Option<string>,
    decorators: seq<string>,
    isMethod: bool,
    isProperty: bool,
    lineno: int,
    flags: Option<MethodFlags>,
    overrides: Option<string>,
    inheritedFrom: Option<string>)

  // ---------------------------------------------------------------------
  // Parameters (utils/parser.py:837-889)

  function AnnotationOf(a: Option<Expr>, unparse: Expr -> string): Option<string> {
    if a.Some? then Some(AnnotationText(a.value, unparse)) else None
  }

  function ArgRecord(a: Arg, unparse: Expr -> string): ParamRecord {
    ParamRecord(a.arg, false, None, AnnotationOf(a.annotation, unparse))
  }

  function WithDefault(p: ParamRecord, d: string): ParamRecord {
    p.(hasDefault := true, default := Some(d))
  }

  /** The defaults loop with the guard the loop evidently means: a default
      whose position `defaults_offset + i` falls before the first ordinary
      parameter belongs to a positional-only parameter and is skipped. */
  function SetDefaults(ps: seq<ParamRecord>, offset: int, ds: seq<string>, i: nat): (r: seq<ParamRecord>)
    requires i <= |ds|
    ensures |r| == |ps|
    decreases |ds| - i
  {
    if i == |ds| then ps
    else
      var k := offset + i;
      if 0 <= k < |ps| then SetDefaults(ps[k := WithDefault(ps[k], ds[i])], offset, ds, i + 1)
      else SetDefaults(ps, offset, ds, i + 1)
  }

  /** The defaults loop as written: `params[arg_index]` with Python's
      negative indexing, `None` for the `IndexError` of an index below
      `-len(params)`. */
  function SetDefaultsAsWritten(ps: seq<ParamRecord>, offset: int, ds: seq<string>, i: nat): Option<seq<ParamRecord>>
    requires i <= |ds|
    decreases |ds| - i
  {
    if i == |ds| then Some(ps)
    else
      var k := offset + i;
      if k < |ps| then
        if 0 <= k then SetDefaultsAsWritten(ps[k := WithDefault(ps[k], ds[i])], offset, ds, i + 1)
        else if -|ps| <= k then SetDefaultsAsWritten(ps[|ps| + k := WithDefault(ps[|ps| + k], ds[i])], offset, ds, i + 1)
        else None
      else SetDefaultsAsWritten(ps, offset, ds, i + 1)
  }

  function StarRecord(prefix: string, a: Option<Arg>, unparse: Expr -> string): seq<ParamRecord> {
    if a.Some? then [ParamRecord(prefix + a.value.arg, false, None, AnnotationOf(a.value.annotation, unparse))] else []
  }

  function Rendered(es: seq<Expr>, unparse: Expr -> string): (rs: seq<string>)
    ensures |rs| == |es|
    ensures forall i :: 0 <= i < |es| ==> rs[i] == DefaultText(es[i], unparse)
  {
    seq(|es|, i requires 0 <= i < |es| => DefaultText(es[i], unparse))
  }

  /** `_get_function_params(node)`, with the skipped positional-only
      defaults. Defaults are right-aligned on the ordinary parameters;
      `*args` and `**kwargs` follow, without defaults. */
  function FunctionParams(a: Arguments, unparse: Expr -> string): (r: seq<ParamRecord>)
    requires ValidArguments(a)
    ensures |r| == |a.args| + |StarRecord("*", a.vararg, unparse)| + |StarRecord("**", a.kwarg, unparse)|
    ensures forall k :: 0 <= k < |a.args| ==>
              && r[k].name == a.args[k].arg
              && r[k].annotation == AnnotationOf(a.args[k].annotation, unparse)
              && (r[k].hasDefault <==> |a.args| - |a.defaults| <= k)
              && r[k].default == (if |a.args| - |a.defaults| <= k
                                  then Some(DefaultText(a.defaults[k - |a.args| + |a.defaults|], unparse))
                                  else None)
    ensures r[|a.args|..] == StarRecord("*", a.vararg, unparse) + StarRecord("**", a.kwarg, unparse)
  {
    var base := seq(|a.args|, i requires 0 <= i < |a.args| => ArgRecord(a.args[i], unparse));
    var offset := |a.args| - |a.defaults|;
    var ds := Rendered(a.defaults, unparse);
    SetDefaultsSpec(base, offset, ds, 0);
    SetDefaults(base, offset, ds, 0) + StarRecord("*", a.vararg, unparse) + StarRecord("**", a.kwarg, unparse)
  }

  /** `_get_function_params(node)` as written. */
  function FunctionParamsAsWritten(a: Arguments, unparse: Expr -> string): Option<seq<ParamRecord>>
    requires ValidArguments(a)
  {
    var base := seq(|a.args|, i requires 0 <= i < |a.args| => ArgRecord(a.args[i], unparse));
    var ds := Rendered(a.defaults, unparse);
    match SetDefaultsAsWritten(base, |a.args| - |a.defaults|, ds, 0)
    case None => None
    case Some(ps) => Some(ps + StarRecord("*", a.vararg, unparse) + StarRecord("**", a.kwarg, unparse))
  }

  /** From step `i` on, the loop gives the `k`-th parameter the default at
      `k - offset` when that is one of the steps still to come. */
  lemma {:induction false} SetDefaultsSpec(ps: seq<ParamRecord>, offset: int, ds: seq<string>, i: nat)
    requires i <= |ds|
    ensures forall k :: 0 <= k < |ps| ==>
              SetDefaults(ps, offset, ds, i)[k]
              == if offset + i <= k < offset + |ds| then WithDefault(ps[k], ds[k - offset]) else ps[k]
    decreases |ds| - i
  {
    if i < |ds| {
      var k := offset + i;
      if 0 <= k < |ps| {
        var ps' := ps[k := WithDefault(ps[k], ds[i])];
        SetDefaultsSpec(ps', offset, ds, i + 1);
      } else {
        SetDefaultsSpec(ps, offset, ds, i + 1);
      }
    }
  }

  /** The loop as written fails exactly when a remaining index is below
      `-len(params)`; the first remaining one is the lowest. */
  lemma {:induction false} AsWrittenFailsWhen(ps: seq<ParamRecord>, offset: int, ds: seq<string>, i: nat)
    requires i <= |ds|
    ensures SetDefaultsAsWritten(ps, offset, ds, i).None? <==> i < |ds| && offset + i < -|ps|
    decreases |ds| - i
  {
    if i < |ds| {
      var k := offset + i;
      if k < |ps| {
        if 0 <= k {
          AsWrittenFailsWhen(ps[k := WithDefault(ps[k], ds[i])], offset, ds, i + 1);
        } else if -|ps| <= k {
          AsWrittenFailsWhen(ps[|ps| + k := WithDefault(ps[|ps| + k], ds[i])], offset, ds, i + 1);
        }
      } else {
        AsWrittenFailsWhen(ps, offset, ds, i + 1);
      }
    }
  }

  /** When the loop as written does not fail, it ends where the corrected
      loop ends: a write through a negative index lands on a parameter
      that a later step overwrites. Positions before `offset + i` already
      agree. */
  lemma {:induction false} AsWrittenAgrees(a: seq<ParamRecord>, c: seq<ParamRecord>, offset: int, ds: seq<string>, i: nat)
    requires i <= |ds| && |a| == |c| && offset + |ds| == |c|
    requires forall k :: 0 <= k < |c| && k < offset + i ==> a[k] == c[k]
    requires forall k :: 0 <= k < |c| ==> a[k].name == c[k].name && a[k].annotation == c[k].annotation
    requires i == |ds| || -|c| <= offset + i
    ensures SetDefaultsAsWritten(a, offset, ds, i) == Some(SetDefaults(c, offset, ds, i))
    decreases |ds| - i
  {
    if i == |ds| {
      assert a == c;
    } else {
      var k := offset + i;
      assert k < |c|;
      if 0 <= k {
        AsWrittenAgrees(a[k := WithDefault(a[k], ds[i])], c[k := WithDefault(c[k], ds[i])], offset, ds, i + 1);
      } else {
        AsWrittenAgrees(a[|a| + k := WithDefault(a[|a| + k], ds[i])], c, offset, ds, i + 1);
      }
    }
  }

  /** `_get_function_params` as written raises `IndexError` exactly when
      there are more than twice as many defaults as ordinary parameters
      (possible only with positional-only parameters), and otherwise
      returns the same list as the corrected loop. */
  lemma ParamsAsWrittenOrCrash(a: Arguments, unparse: Expr -> string)
    requires ValidArguments(a)
    ensures FunctionParamsAsWritten(a, unparse).None? <==> |a.defaults| > 2 * |a.args|
    ensures |a.defaults| <= 2 * |a.args| ==> FunctionParamsAsWritten(a, unparse) == Some(FunctionParams(a, unparse))
  {
    var base := seq(|a.args|, i requires 0 <= i < |a.args| => ArgRecord(a.args[i], unparse));
    var ds := Rendered(a.defaults, unparse);
    var offset := |a.args| - |a.defaults|;
    AsWrittenFailsWhen(base, offset, ds, 0);
    if |a.defaults| <= 2 * |a.args| {
      AsWrittenAgrees(base, base, offset, ds, 0);
    }
  }

  /** `def f(x=0, /)`: one positional-only parameter with a default and no
      ordinary parameter. */
  lemma PositionalOnlyDefaultCrashes(unparse: Expr -> string)
    ensures var a := Arguments([Arg("x", None)], [], None, [], None, [Constant(IntConst(0))]);
            ValidArguments(a) && FunctionParamsAsWritten(a, unparse).None?
  {
    var a := Arguments([Arg("x", None)], [], None, [], None, [Constant(IntConst(0))]);
    ParamsAsWrittenOrCrash(a, unparse);
  }

  // ---------------------------------------------------------------------
  // Functions, methods and classes (utils/parser.py:757-835)

  /** `any(d.id == id for d in decorators if isinstance(d, ast.Name))` */
  function HasNameDecorator(decorators: seq<Expr>, id: string): (r: bool)
    ensures r <==> Name(id) in decorators
  {
    if decorators == [] then false
    else (decorators[0].Name? && decorators[0].id == id) || HasNameDecorator(decorators[1..], id)
  }

  /** `name.startswith('__') and name.endswith('__')`, which `__init__`
      satisfies too. */
  predicate IsSpecialName(name: string) {
    StartsWith(name, "__") && EndsWith(name, "__")
  }

  function DecoratorTexts(ds: seq<Expr>): (rs: seq<string>)
    ensures |rs| == |ds|
    ensures forall i :: 0 <= i < |ds| ==> rs[i] == DecoratorText(ds[i])
  {
    seq(|ds|, i requires 0 <= i < |ds| => DecoratorText(ds[i]))
  }

  /** `_parse_function(node, parser)`. Only `ast.FunctionDef` nodes are
      passed in, so `is_async` is always false. */
  function ParseFunction(node: FunctionNode, style: Style, unparse: Expr -> string): (r: FunctionRecord)
    requires ValidArguments(node.arguments)
    ensures r.name == node.name && !r.isAsync && !r.isMethod && r.flags.None?
    ensures r.isProperty <==> Name("property") in node.decorators
    ensures r.docstring == Parse(node.docstring, style)
    ensures r.overrides.None? && r.inheritedFrom.None?
  {
    FunctionRecord(
      node.name,
      Parse(node.docstring, style),
      false,
      FunctionParams(node.arguments, unparse),
      AnnotationOf(node.returnType, unparse),
      DecoratorTexts(node.decorators),
      false,
      HasNameDecorator(node.decorators, "property"),
      node.lineno,
      None,
      None,
      None)
  }

  /** The method branch of `_parse_class`: the static, class and property
      flags need a bare-name decorator, so `@abc.abstractproperty` or
      `@property()` set none. */
  function ParseMethod(node: FunctionNode, style: Style, unparse: Expr -> string): (r: FunctionRecord)
    requires ValidArguments(node.arguments)
    ensures r.name == node.name && r.isMethod && !r.isAsync
    ensures r.flags.Some?
    ensures r.flags.value.isSpecial <==> IsSpecialName(node.name)
    ensures r.flags.value.isStatic <==> Name("staticmethod") in node.decorators
    ensures r.flags.value.isClassmethod <==> Name("classmethod") in node.decorators
    ensures r.isProperty <==> Name("property") in node.decorators
    ensures r.overrides.None? && r.inheritedFrom.None?
  {
    ParseFunction(node, style, unparse).(
      isMethod := true,
      flags := Some(MethodFlags(
        IsSpecialName(node.name),
        HasNameDecorator(node.decorators, "staticmethod"),
        HasNameDecorator(node.decorators, "classmethod"))))
  }

  /** Every argument list in a statement list is one the grammar allows. */
  predicate ValidBody(body: seq<Stmt>) {
    forall i :: 0 <= i < |body| && body[i].FunctionDef? ==> ValidArguments(body[i].f.arguments)
  }

  /** The methods of a class body: its plain `def` statements, in order;
      `async def` and nested classes are passed over. */
  function Methods(body: seq<Stmt>, style: Style, unparse: Expr -> string): (ms: seq<FunctionRecord>)
    requires ValidBody(body)
    ensures |ms| == |Defs(body)|
    ensures forall i :: 0 <= i < |ms| ==> ms[i] == ParseMethod(Defs(body)[i], style, unparse)
  {
    if body == [] then []
    else
      ValidBodyTail(body);
      var rest := Methods(body[1..], style, unparse);
      if body[0].FunctionDef? then
        assert Defs(body) == [body[0].f] + Defs(body[1..]);
        [ParseMethod(body[0].f, style, unparse)] + rest
      else
        assert Defs(body) == Defs(body[1..]);
        rest
  }

  /** The `def` statements of a statement list. */
  function Defs(body: seq<Stmt>): (fs: seq<FunctionNode>)
    requires ValidBody(body)
    ensures forall i :: 0 <= i < |fs| ==> ValidArguments(fs[i].arguments)
  {
    if body == [] then []
    else
      ValidBodyTail(body);
      if body[0].FunctionDef? then [body[0].f] + Defs(body[1..]) else Defs(body[1..])
  }

  lemma ValidBodyTail(body: seq<Stmt>)
    requires ValidBody(body) && body != []
    ensures ValidBody(body[1..])
  {
    forall i | 0 <= i < |body[1..]| && body[1..][i].FunctionDef?
      ensures ValidArguments(body[1..][i].f.arguments)
    {
      assert body[1..][i] == body[i + 1];
    }
  }
}
