/** `CodeParser.__init__`, `parse` and `_parse_class`
    (utils/parser.py:686-835): one source file's module docstring, its
    top-level functions and its classes, with the class registry kept
    across files.

    Reading the file and `ast.parse` are outside the model: a file is
    given as its syntax tree, `None` standing for a `SyntaxError`. */
module CodeParser {
  import opened Common
  import opened Text
  import opened DocTypes
  import opened Docstrings
  import opened Syntax
  import opened Extractor
  import opened Inheritance

  /** A module's syntax tree; `docstring` is what `ast.get_docstring`
      returns for it. */
  datatype ModuleNode = ModuleNode(docstring: Option<string>, body: seq<Stmt>)

  /** The parser object: the class dictionaries it has built, and its
      `parsed_classes` registry. */
  datatype ParserState = ParserState(heap: Heap, registry: Registry)

  /** The result dictionary: `classes` holds heap indices, because the
      class dictionaries in it are the ones the registry shares. */
  datatype ModuleResult = ModuleResult(moduleDocstring: Option<DocModel>, functions: seq<FunctionRecord>, classes: seq<nat>)

  /** `CodeParser()` */
  function Init(): (st: ParserState)
    ensures StateOk(st)
    ensures st.heap == [] && st.registry == []
  {
    ParserState([], [])
  }

  /** What holds of the parser between calls: the registry points into
      the heap, and every class dictionary keeps the resolution invariant. */
  predicate StateOk(st: ParserState) {
    ValidRegistry(st.heap, st.registry) && HeapOk(st.heap, st.registry)
  }

  /** Every argument list of the module, at top level and in class
      bodies, is one the grammar allows. */
  predicate ValidModule(body: seq<Stmt>) {
    && ValidBody(body)
    && forall i :: 0 <= i < |body| && body[i].ClassDef? ==> ValidBody(body[i].c.body)
  }

  // ---------------------------------------------------------------------
  // Classes (utils/parser.py:790-835)

  /** `_parse_class(node, parser, resolve_inheritance=False)`: the bases
      are rendered by `_get_name`, the methods are the body's `def`
      statements, and nothing is resolved yet. */
  function ParseClass(node: ClassNode, style: Style, unparse: Expr -> string): (r: ClassRecord)
    requires ValidBody(node.body)
    ensures r.name == node.name && r.lineno == node.lineno
    ensures r.docstring == Parse(node.docstring, style)
    ensures |r.bases| == |node.bases|
    ensures forall i :: 0 <= i < |node.bases| && IsDotted(node.bases[i]) ==> r.bases[i] == Join(DottedParts(node.bases[i]), ".")
    ensures |r.methods| == |Defs(node.body)|
    ensures forall i :: 0 <= i < |r.methods| ==> r.methods[i].isMethod && r.methods[i].name == Defs(node.body)[i].name
    ensures r.res.None? && r.mro.None?
  {
    var bases := seq(|node.bases|, i requires 0 <= i < |node.bases| => NameText(node.bases[i]));
    forall i | 0 <= i < |node.bases| && IsDotted(node.bases[i])
      ensures bases[i] == Join(DottedParts(node.bases[i]), ".")
    {
      DottedRenderersAgree(node.bases[i], unparse);
    }
    ClassRecord(node.name, Parse(node.docstring, style), bases, Methods(node.body, style, unparse), node.lineno, None, None)
  }

  /** The class statements of a module body, in order. */
  function ClassDefs(body: seq<Stmt>): (cs: seq<ClassNode>)
    requires ValidModule(body)
    ensures forall i :: 0 <= i < |cs| ==> ValidBody(cs[i].body)
    ensures forall c :: c in cs <==> ClassDef(c) in body
    decreases |body|
  {
    if body == [] then []
    else
      var rest := body[1..];
      assert ValidModule(rest) by {
        forall i | 0 <= i < |rest|
          ensures rest[i] == body[i + 1]
        {
        }
      }
      assert forall s :: s in body <==> s == body[0] || s in rest;
      if body[0].ClassDef? then [body[0].c] + ClassDefs(rest) else ClassDefs(rest)
  }

  /** The first pass, one class: store its dictionary and register its
      name, replacing any class of that name seen before. */
  function RegisterOne(st: ParserState, c: ClassRecord): (r: ParserState)
    requires ValidRegistry(st.heap, st.registry)
    ensures ValidRegistry(r.heap, r.registry)
    ensures r.heap == st.heap + [c]
    ensures Get(r.registry, c.name) == Some(|st.heap|)
    ensures forall k :: k != c.name ==> Get(r.registry, k) == Get(st.registry, k)
  {
    var n := |st.heap|;
    var reg := Put(st.registry, c.name, n);
    PutValid(st.heap, st.registry, c);
    PutGet(st.registry, c.name, n, c.name);
    forall k | k != c.name
      ensures Get(reg, k) == Get(st.registry, k)
    {
      PutGet(st.registry, c.name, n, k);
    }
    ParserState(st.heap + [c], reg)
  }

  /** Registering a new dictionary under its name keeps every registered
      index inside the grown heap. */
  lemma PutValid(h: Heap, reg: Registry, c: ClassRecord)
    requires ValidRegistry(h, reg)
    ensures ValidRegistry(h + [c], Put(reg, c.name, |h|))
  {
    var r := Put(reg, c.name, |h|);
    PutEntries(reg, c.name, |h|);
    forall j | 0 <= j < |r|
      ensures r[j].1 < |h| + 1
    {
      assert r[j] == (c.name, |h|) || (j < |reg| && r[j] == reg[j]);
    }
  }

  /** The first pass over the class dictionaries of a module. */
  function Register(st: ParserState, cs: seq<ClassRecord>): (r: ParserState)
    requires ValidRegistry(st.heap, st.registry)
    ensures ValidRegistry(r.heap, r.registry)
    decreases |cs|
  {
    if cs == [] then st
    else Register(RegisterOne(st, cs[0]), cs[1..])
  }

  /** `_parse_class(node, parser, resolve_inheritance=False)` for each
      class statement. */
  function ParseClasses(cs: seq<ClassNode>, style: Style, unparse: Expr -> string): (rs: seq<ClassRecord>)
    requires forall i :: 0 <= i < |cs| ==> ValidBody(cs[i].body)
    ensures |rs| == |cs|
    ensures forall i :: 0 <= i < |cs| ==> rs[i] == ParseClass(cs[i], style, unparse)
  {
    seq(|cs|, i requires 0 <= i < |cs| => ParseClass(cs[i], style, unparse))
  }

  /** The second pass: `_resolve_inheritance` on each class of the
      module, in order, on the shared dictionaries. */
  function ResolveAll(h: Heap, reg: Registry, ids: seq<nat>): (r: Heap)
    requires ValidRegistry(h, reg)
    requires forall i :: 0 <= i < |ids| ==> ids[i] < |h|
    ensures Keeps(h, r)
    decreases |ids|
  {
    if ids == [] then h
    else
      var h1 := Resolve(h, reg, ids[0]);
      ResolveAll(h1, reg, ids[1..])
  }

  /** The top-level `def` statements, parsed; `async def` at top level is
      passed over. */
  function Functions(body: seq<Stmt>, style: Style, unparse: Expr -> string): (fs: seq<FunctionRecord>)
    requires ValidBody(body)
    ensures |fs| == |Defs(body)|
    ensures forall i :: 0 <= i < |fs| ==> fs[i] == ParseFunction(Defs(body)[i], style, unparse)
  {
    var ds := Defs(body);
    seq(|ds|, i requires 0 <= i < |ds| => ParseFunction(ds[i], style, unparse))
  }

  /** `parse(path, style, resolve_inheritance)` on a file whose syntax tree
      is `tree`. */
  function ParseModule(st: ParserState, tree: Option<ModuleNode>, style: Style, resolve: bool, unparse: Expr -> string)
    : (out: (ParserState, ModuleResult))
    requires ValidRegistry(st.heap, st.registry)
    requires tree.Some? ==> ValidModule(tree.value.body)
    ensures tree.None? ==> out == (st, ModuleResult(None, [], []))
    ensures tree.Some? ==>
              && |out.0.heap| == |st.heap| + |ClassDefs(tree.value.body)|
              && |out.1.classes| == |ClassDefs(tree.value.body)|
              && (forall j :: 0 <= j < |out.1.classes| ==> out.1.classes[j] == |st.heap| + j)
              && |out.1.functions| == |Defs(tree.value.body)|
    ensures tree.Some? ==>
              (out.1.moduleDocstring.Some? <==> tree.value.docstring.Some? && tree.value.docstring.value != "")
    ensures out.1.moduleDocstring.Some? ==> out.1.moduleDocstring == Some(Parse(tree.value.docstring, style))
  {
    match tree
    case None => (st, ModuleResult(None, [], []))
    case Some(m) => ParseTree(st, m, style, resolve, unparse)
  }

  /** `parse` once the file has a syntax tree: the two passes over its
      class statements, then its functions. */
  function ParseTree(st: ParserState, m: ModuleNode, style: Style, resolve: bool, unparse: Expr -> string)
    : (out: (ParserState, ModuleResult))
    requires ValidRegistry(st.heap, st.registry) && ValidModule(m.body)
    ensures |out.0.heap| == |st.heap| + |ClassDefs(m.body)|
    ensures out.1.classes == FreshIds(|st.heap|, |ClassDefs(m.body)|)
    ensures |out.1.functions| == |Defs(m.body)|
    ensures out.1.moduleDocstring == ModuleDocstring(m.docstring, style)
  {
    var st1 := FirstPass(st, m.body, style, unparse);
    var ids := FreshIds(|st.heap|, |ClassDefs(m.body)|);
    var heap := if resolve then ResolveAll(st1.heap, st1.registry, ids) else st1.heap;
    (ParserState(heap, st1.registry), ModuleResult(ModuleDocstring(m.docstring, style), Functions(m.body, style, unparse), ids))
  }

  /** The module docstring, parsed when there is a non-empty one. */
  function ModuleDocstring(doc: Option<string>, style: Style): (r: Option<DocModel>)
    ensures r.Some? <==> doc.Some? && doc.value != ""
    ensures r.Some? ==> r.value == Parse(doc, style)
  {
    if doc.Some? && doc.value != "" then Some(Parse(doc, style)) else None
  }

  /** The first pass over a module: its class dictionaries stored in
      order and registered by name. */
  function FirstPass(st: ParserState, body: seq<Stmt>, style: Style, unparse: Expr -> string): (st1: ParserState)
    requires ValidRegistry(st.heap, st.registry) && ValidModule(body)
    ensures ValidRegistry(st1.heap, st1.registry)
    ensures st1.heap == st.heap + ParseClasses(ClassDefs(body), style, unparse)
  {
    var cs := ParseClasses(ClassDefs(body), style, unparse);
    RegisterShape(st, cs);
    Register(st, cs)
  }

  /** The indices the next `k` dictionaries get on a heap of `n`. */
  function FreshIds(n: nat, k: nat): (ids: seq<nat>)
    ensures |ids| == k && forall j :: 0 <= j < k ==> ids[j] == n + j
  {
    seq(k, j => n + j)
  }

  // ---------------------------------------------------------------------
  // What a parse leaves behind

  /** The first pass appends the class dictionaries, in order, and leaves
      the dictionaries already built alone. */
  lemma {:induction false} RegisterShape(st: ParserState, cs: seq<ClassRecord>)
    requires ValidRegistry(st.heap, st.registry)
    ensures Register(st, cs).heap == st.heap + cs
    decreases |cs|
  {
    if cs != [] {
      var st1 := RegisterOne(st, cs[0]);
      RegisterShape(st1, cs[1..]);
      assert Register(st, cs) == Register(st1, cs[1..]);
      assert st1.heap == st.heap + [cs[0]];
      assert cs == [cs[0]] + cs[1..];
      SnocAppend(st.heap, cs);
    }
  }

  /** The index of the last class called `k` in `cs`, if any. */
  function LastNamed(cs: seq<ClassRecord>, k: string): (r: Option<nat>)
    ensures r.Some? ==> r.value < |cs| && cs[r.value].name == k && forall j :: r.value < j < |cs| ==> cs[j].name != k
    ensures r.None? ==> forall j :: 0 <= j < |cs| ==> cs[j].name != k
    decreases |cs|
  {
    if cs == [] then None
    else match LastNamed(cs[1..], k)
      case Some(i) => Some(i + 1)
      case None => if cs[0].name == k then Some(0) else None
  }

  /** After the first pass, a name maps to the last class of the module
      that bears it, and a name the module does not define keeps what an
      earlier file registered. */
  lemma {:induction false} RegisterGet(st: ParserState, cs: seq<ClassRecord>, k: string)
    requires ValidRegistry(st.heap, st.registry)
    ensures var g := Get(Register(st, cs).registry, k);
            && (LastNamed(cs, k).Some? ==> g.Some? && g.value == |st.heap| + LastNamed(cs, k).value)
            && (LastNamed(cs, k).None? ==> g == Get(st.registry, k))
    decreases |cs|
  {
    if cs != [] {
      var st1 := RegisterOne(st, cs[0]);
      var g1 := Get(st1.registry, k);
      assert g1 == if cs[0].name == k then Some(|st.heap|) else Get(st.registry, k);
      RegisterGet(st1, cs[1..], k);
      assert Register(st, cs) == Register(st1, cs[1..]);
      LastNamedCons(cs, k);
    }
  }

  /** `LastNamed` on a non-empty list, one step unfolded. */
  lemma LastNamedCons(cs: seq<ClassRecord>, k: string)
    requires cs != []
    ensures LastNamed(cs[1..], k).Some? ==> LastNamed(cs, k) == Some(LastNamed(cs[1..], k).value + 1)
    ensures LastNamed(cs[1..], k).None? ==> LastNamed(cs, k) == if cs[0].name == k then Some(0) else None
  {
  }

  lemma SnocAppend<T>(a: seq<T>, b: seq<T>)
    requires b != []
    ensures (a + [b[0]]) + b[1..] == a + b
  {
    assert b == [b[0]] + b[1..];
  }

  /** A name registered before the first pass is still registered after. */
  lemma RegisterKeeps(st: ParserState, cs: seq<ClassRecord>, x: string)
    requires ValidRegistry(st.heap, st.registry)
    ensures HasKey(st.registry, x) ==> HasKey(Register(st, cs).registry, x)
  {
    RegisterGet(st, cs, x);
  }

  /** Adding unresolved dictionaries and registry names keeps every
      dictionary's invariant. */
  lemma HeapOkExtend(h: Heap, reg: Registry, cs: seq<ClassRecord>, reg': Registry)
    requires HeapOk(h, reg)
    requires forall i :: 0 <= i < |cs| ==> cs[i].res.None?
    requires forall x :: HasKey(reg, x) ==> HasKey(reg', x)
    ensures HeapOk(h + cs, reg')
  {
    forall i | 0 <= i < |h + cs|
      ensures ClassOk((h + cs)[i], reg')
    {
      if i < |h| {
        assert (h + cs)[i] == h[i];
        assert ClassOk(h[i], reg);
      } else {
        assert (h + cs)[i] == cs[i - |h|];
      }
    }
  }

  /** The second pass keeps the invariant, begins resolution on every
      class of the module that has a base other than `object`, changes
      only `overrides` and resolution keys of any dictionary, and leaves a
      dictionary alone unless it is one of the module's classes or was
      still unresolved. */
  lemma {:induction false} ResolveAllOk(h: Heap, reg: Registry, ids: seq<nat>)
    requires ValidRegistry(h, reg) && HeapOk(h, reg)
    requires forall i :: 0 <= i < |ids| ==> ids[i] < |h|
    ensures var r := ResolveAll(h, reg, ids);
            && HeapOk(r, reg)
            && (forall i :: 0 <= i < |h| ==> Reshaped(h[i], r[i]))
            && (forall i :: 0 <= i < |h| && i !in ids && i !in Pending(h) ==> r[i] == h[i])
            && (forall j :: 0 <= j < |ids| && !Trivial(h[ids[j]].bases) ==> r[ids[j]].res.Some?)
    decreases |ids|
  {
    if ids != [] {
      var h1 := Resolve(h, reg, ids[0]);
      ResolveOk(h, reg, ids[0]);
      assert ValidRegistry(h1, reg);
      ResolveAllOk(h1, reg, ids[1..]);
      var r := ResolveAll(h1, reg, ids[1..]);
      assert ResolveAll(h, reg, ids) == r;
      forall i | 0 <= i < |h|
        ensures Reshaped(h[i], r[i])
      {
        ReshapedTrans(h[i], h1[i], r[i]);
      }
      forall i | 0 <= i < |h| && i !in ids && i !in Pending(h)
        ensures r[i] == h[i]
      {
        assert i != ids[0] && i !in ids[1..];
        assert i !in Pending(h1);
      }
      forall j | 0 <= j < |ids| && !Trivial(h[ids[j]].bases)
        ensures r[ids[j]].res.Some?
      {
        if j > 0 {
          assert ids[1..][j - 1] == ids[j];
        }
      }
    }
  }

  /** One `parse` call on a syntax tree, in terms of its two passes. */
  lemma ParseModuleSteps(st: ParserState, m: ModuleNode, style: Style, resolve: bool, unparse: Expr -> string)
    returns (cs: seq<ClassRecord>, st1: ParserState, ids: seq<nat>)
    requires StateOk(st) && ValidModule(m.body)
    ensures cs == ParseClasses(ClassDefs(m.body), style, unparse)
    ensures ValidRegistry(st1.heap, st1.registry) && HeapOk(st1.heap, st1.registry)
    ensures st1.heap == st.heap + cs
    ensures forall x :: HasKey(st.registry, x) ==> HasKey(st1.registry, x)
    ensures |ids| == |cs| && forall j :: 0 <= j < |ids| ==> ids[j] == |st.heap| + j
    ensures var out := ParseModule(st, Some(m), style, resolve, unparse);
            && out.0.registry == st1.registry
            && out.0.heap == (if resolve then ResolveAll(st1.heap, st1.registry, ids) else st1.heap)
            && out.1.classes == ids
  {
    cs := ParseClasses(ClassDefs(m.body), style, unparse);
    st1 := Register(st, cs);
    RegisterShape(st, cs);
    forall x | HasKey(st.registry, x)
      ensures HasKey(st1.registry, x)
    {
      RegisterKeeps(st, cs, x);
    }
    HeapOkExtend(st.heap, st.registry, cs, st1.registry);
    ids := FreshIds(|st.heap|, |cs|);
  }

  /** A `parse` call keeps the parser's invariant, and every name
      registered before stays registered. */
  lemma ParseModuleOk(st: ParserState, tree: Option<ModuleNode>, style: Style, resolve: bool, unparse: Expr -> string)
    requires StateOk(st)
    requires tree.Some? ==> ValidModule(tree.value.body)
    ensures var out := ParseModule(st, tree, style, resolve, unparse);
            && StateOk(out.0)
            && (forall x :: HasKey(st.registry, x) ==> HasKey(out.0.registry, x))
  {
    if tree.Some? {
      var cs, st1, ids := ParseModuleSteps(st, tree.value, style, resolve, unparse);
      if resolve {
        ResolveAllOk(st1.heap, st1.registry, ids);
      }
    }
  }

  /** A `parse` call changes the dictionaries built by earlier calls at
      most in `overrides` and resolution keys, and only those that were
      still unresolved. */
  lemma ParseModuleFrame(st: ParserState, tree: Option<ModuleNode>, style: Style, resolve: bool, unparse: Expr -> string)
    requires StateOk(st)
    requires tree.Some? ==> ValidModule(tree.value.body)
    ensures var out := ParseModule(st, tree, style, resolve, unparse);
            && |out.0.heap| >= |st.heap|
            && (forall i :: 0 <= i < |st.heap| ==> Reshaped(st.heap[i], out.0.heap[i]))
            && (forall i :: 0 <= i < |st.heap| && i !in Pending(st.heap) ==> out.0.heap[i] == st.heap[i])
  {
    if tree.Some? {
      var cs, st1, ids := ParseModuleSteps(st, tree.value, style, resolve, unparse);
      if resolve {
        ResolveNewFrame(st.heap, cs, st1.registry, ids);
      } else {
        assert forall i :: 0 <= i < |st.heap| ==> st1.heap[i] == st.heap[i];
      }
    }
  }

  /** Resolving only classes appended after `h0` leaves the dictionaries
      of `h0` as they were, up to `overrides` and resolution keys of the
      pending ones. */
  lemma ResolveNewFrame(h0: Heap, cs: seq<ClassRecord>, reg: Registry, ids: seq<nat>)
    requires ValidRegistry(h0 + cs, reg) && HeapOk(h0 + cs, reg)
    requires forall j :: 0 <= j < |ids| ==> |h0| <= ids[j] < |h0| + |cs|
    ensures var r := ResolveAll(h0 + cs, reg, ids);
            && |r| >= |h0|
            && (forall i :: 0 <= i < |h0| ==> Reshaped(h0[i], r[i]))
            && (forall i :: 0 <= i < |h0| && i !in Pending(h0) ==> r[i] == h0[i])
  {
    var h := h0 + cs;
    ResolveAllOk(h, reg, ids);
    forall i | 0 <= i < |h0|
      ensures h[i] == h0[i]
    {
    }
    forall i | 0 <= i < |h0| && i !in Pending(h0)
      ensures i !in ids && i !in Pending(h)
    {
      assert h[i] == h0[i];
    }
  }

  /** Without resolution, a `parse` call changes none of the dictionaries
      built before and appends the module's classes as parsed. */
  lemma ParseModuleUnresolved(st: ParserState, m: ModuleNode, style: Style, unparse: Expr -> string)
    requires StateOk(st) && ValidModule(m.body)
    ensures ParseModule(st, Some(m), style, false, unparse).0.heap
         == st.heap + ParseClasses(ClassDefs(m.body), style, unparse)
  {
    var cs, st1, ids := ParseModuleSteps(st, m, style, false, unparse);
  }

  /** With resolution on, every class of the module whose bases are more
      than `object` has begun resolution once `parse` returns. */
  lemma ParseModuleResolves(st: ParserState, m: ModuleNode, style: Style, unparse: Expr -> string)
    requires StateOk(st) && ValidModule(m.body)
    ensures var out := ParseModule(st, Some(m), style, true, unparse);
            forall j :: 0 <= j < |out.1.classes| ==>
              out.1.classes[j] < |out.0.heap|
              && (!Trivial(out.0.heap[out.1.classes[j]].bases) ==> out.0.heap[out.1.classes[j]].res.Some?)
  {
    var cs, st1, ids := ParseModuleSteps(st, m, style, true, unparse);
    ResolveAllOk(st1.heap, st1.registry, ids);
  }
}
