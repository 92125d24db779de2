/** `CodeParser._resolve_inheritance` and `_calculate_mro`
    (utils/parser.py:1009-1128).

    The class dictionaries the parser builds are shared: the registry
    `parsed_classes` and the result lists hold the same objects, and
    resolving one class may first resolve its bases in place. Here the
    objects live in a heap (a sequence of records, a class's identity being
    its index) and the registry maps a class name to an index. Resolution
    takes a heap and returns the updated heap. */
module Inheritance {
  import opened Common
  import opened Text
  import opened DocTypes
  import opened Extractor

  /** The keys `inheritance_chain` and `inherited_methods`, which are
      always added together. */
  datatype Resolution = Resolution(chain: seq<string>, inherited: Dict<seq<FunctionRecord>>)

  /** A class dictionary. `res` is absent until resolution starts on the
      class; `mro` is `method_resolution_order`. */
  datatype ClassRecord = ClassRecord(
    name: string,
    docstring: DocModel,
    bases: seq<string>,
    methods: seq<FunctionRecord>,
    lineno: int,
    res: Option<Resolution>,
    mro: Option<seq<string>>)

  type Heap = seq<ClassRecord>

  /** `parsed_classes`: class name to heap index. */
  type Registry = Dict<nat>

  predicate ValidRegistry(h: Heap, reg: Registry) {
    forall i :: 0 <= i < |reg| ==> reg[i].1 < |h|
  }

  /** `not bases or bases == ["object"]`: such a class is left alone. */
  predicate Trivial(bases: seq<string>) {
    bases == [] || bases == ["object"]
  }

  /** The classes resolution can still start on. */
  function Pending(h: Heap): set<nat> {
    set i: nat | i < |h| && h[i].res.None? && !Trivial(h[i].bases)
  }

  // ---------------------------------------------------------------------
  // One base class (utils/parser.py:1031-1098)

  function Names(ms: seq<FunctionRecord>): set<string> {
    set i | 0 <= i < |ms| :: ms[i].name
  }

  /** `method["is_special"] and method["name"] not in ["__str__", "__repr__"]` */
  predicate Skipped(m: FunctionRecord) {
    m.flags.Some? && m.flags.value.isSpecial && m.name != "__str__" && m.name != "__repr__"
  }

  /** `method.copy()` with `is_inherited = True, inherited_from = from` */
  function Copy(m: FunctionRecord, from: string): FunctionRecord {
    m.(inheritedFrom := Some(from))
  }

  function Listed(d: Dict<seq<FunctionRecord>>, k: string): seq<FunctionRecord> {
    match Get(d, k)
    case Some(l) => l
    case None => []
  }

  /** `d[k].append(m)` */
  function AppendTo(d: Dict<seq<FunctionRecord>>, k: string, m: FunctionRecord): Dict<seq<FunctionRecord>> {
    Put(d, k, Listed(d, k) + [m])
  }

  /** `i` is the last method called `name`: the one `defined_methods`
      maps the name to. */
  predicate IsLastNamed(ms: seq<FunctionRecord>, i: int, name: string) {
    0 <= i < |ms| && ms[i].name == name && forall j :: i < j < |ms| ==> ms[j].name != name
  }

  /** `defined_methods[name]["overrides"] = tag` */
  function SetOverride(ms: seq<FunctionRecord>, name: string, tag: string): (r: seq<FunctionRecord>)
    ensures |r| == |ms|
    ensures forall i :: 0 <= i < |ms| ==> r[i] == if IsLastNamed(ms, i, name) then ms[i].(overrides := Some(tag)) else ms[i]
    decreases |ms|
  {
    if ms == [] then []
    else if Last(ms).name == name then ms[..|ms| - 1] + [Last(ms).(overrides := Some(tag))]
    else
      var init := ms[..|ms| - 1];
      var r := SetOverride(init, name, tag) + [Last(ms)];
      assert forall i :: 0 <= i < |init| ==> (IsLastNamed(ms, i, name) <==> IsLastNamed(init, i, name));
      r
  }

  /** Only the `overrides` keys of a method list change. */
  predicate SameMethods(ms: seq<FunctionRecord>, ms': seq<FunctionRecord>) {
    |ms'| == |ms| && forall i :: 0 <= i < |ms| ==> ms'[i] == ms[i].(overrides := ms'[i].overrides)
  }

  /** `ancestors` appended to `chain`, each unless it is already there. */
  function ExtendChain(chain: seq<string>, ancestors: seq<string>): seq<string>
    decreases |ancestors|
  {
    if ancestors == [] then chain
    else ExtendChain(if ancestors[0] in chain then chain else chain + [ancestors[0]], ancestors[1..])
  }

  /** What resolution may change in a class dictionary: its own methods'
      `overrides`, its resolution keys and its resolution order. */
  predicate Reshaped(c: ClassRecord, c': ClassRecord) {
    && c'.name == c.name && c'.docstring == c.docstring && c'.bases == c.bases && c'.lineno == c.lineno
    && SameMethods(c.methods, c'.methods)
  }

  function Inherited(c: ClassRecord): Dict<seq<FunctionRecord>>
    requires c.res.Some?
  {
    c.res.value.inherited
  }

  function WithInherited(c: ClassRecord, d: Dict<seq<FunctionRecord>>): ClassRecord
    requires c.res.Some?
  {
    c.(res := Some(c.res.value.(inherited := d)))
  }

  /** One iteration of the loop over the base's own methods
      (utils/parser.py:1053-1067). */
  function InheritOwnOne(c: ClassRecord, bn: string, m: FunctionRecord): (r: ClassRecord)
    requires c.res.Some?
    ensures r.res.Some? && Reshaped(c, r) && r.mro == c.mro
  {
    if Skipped(m) then c
    else if m.name in Names(c.methods) then
      SetOverrideSame(c.methods, m.name, bn + "." + m.name);
      c.(methods := SetOverride(c.methods, m.name, bn + "." + m.name))
    else WithInherited(c, AppendTo(Inherited(c), bn, Copy(m, bn)))
  }

  lemma SetOverrideSame(ms: seq<FunctionRecord>, name: string, tag: string)
    ensures SameMethods(ms, SetOverride(ms, name, tag))
  {
    var r := SetOverride(ms, name, tag);
    forall i | 0 <= i < |ms|
      ensures r[i] == ms[i].(overrides := r[i].overrides)
    {
    }
  }

  function InheritOwn(c: ClassRecord, bn: string, ms: seq<FunctionRecord>): (r: ClassRecord)
    requires c.res.Some?
    ensures r.res.Some? && Reshaped(c, r) && r.mro == c.mro
    decreases |ms|
  {
    if ms == [] then c else InheritOwn(InheritOwnOne(c, bn, ms[0]), bn, ms[1..])
  }

  /** The "closer ancestor" check: some list keyed by a declared base
      already holds a method of this name (utils/parser.py:1080-1089). */
  predicate AnyBaseHas(bases: seq<string>, d: Dict<seq<FunctionRecord>>, name: string) {
    exists j, t :: 0 <= j < |bases| && 0 <= t < |Listed(d, bases[j])| && Listed(d, bases[j])[t].name == name
  }

  /** One iteration of the loop over an ancestor's methods
      (utils/parser.py:1074-1098). */
  function InheritAncestorOne(c: ClassRecord, anc: string, m: FunctionRecord): (r: ClassRecord)
    requires c.res.Some?
    ensures r.res.Some? && Reshaped(c, r) && r.mro == c.mro
  {
    if m.name in Names(c.methods) || AnyBaseHas(c.bases, Inherited(c), m.name) then c
    else WithInherited(c, AppendTo(Inherited(c), anc, Copy(m, anc)))
  }

  function InheritList(c: ClassRecord, anc: string, ms: seq<FunctionRecord>): (r: ClassRecord)
    requires c.res.Some?
    ensures r.res.Some? && Reshaped(c, r) && r.mro == c.mro
    decreases |ms|
  {
    if ms == [] then c else InheritList(InheritAncestorOne(c, anc, ms[0]), anc, ms[1..])
  }

  /** The loop over the base's `inherited_methods` items, each list read
      as it was when the loop reached it. */
  function InheritAncestors(c: ClassRecord, items: Dict<seq<FunctionRecord>>): (r: ClassRecord)
    requires c.res.Some?
    ensures r.res.Some? && Reshaped(c, r) && r.mro == c.mro
    decreases |items|
  {
    if items == [] then c
    else
      var (anc, ms) := items[0];
      var c' := WithInherited(c, PutIfAbsent(Inherited(c), anc, []));
      InheritAncestors(InheritList(c', anc, ms), items[1..])
  }

  /** Everything the bases loop does with one base `bn` whose dictionary is
      `b`, after appending `bn` to the chain and resolving the base:
      extend the chain with the base's chain, open the list for `bn`, take
      the base's own methods, then the methods it inherited. When the base
      is the class itself, `b` is the class as it was at this point, so the
      ancestor lists are read before this step appends to them. */
  function Absorb(c: ClassRecord, bn: string, b: ClassRecord): (r: ClassRecord)
    requires c.res.Some?
    ensures r.res.Some? && Reshaped(c, r) && r.mro == c.mro
  {
    var c3 := if b.res.Some? then c.(res := Some(c.res.value.(chain := ExtendChain(c.res.value.chain, b.res.value.chain)))) else c;
    var c4 := WithInherited(c3, PutIfAbsent(Inherited(c3), bn, []));
    var c5 := InheritOwn(c4, bn, b.methods);
    if b.res.Some? then InheritAncestors(c5, b.res.value.inherited) else c5
  }

  // ---------------------------------------------------------------------
  // The recursion (utils/parser.py:1009-1102) and the order (1104-1128)

  /** `_calculate_mro`: the class, its bases as declared, then the chain
      entries not listed yet. */
  function Mro(name: string, bases: seq<string>, chain: seq<string>): seq<string> {
    ExtendChain([name] + bases, chain)
  }

  /** What every step of resolution keeps: the heap's size, every class's
      bases, and the classes on which resolution has begun. */
  predicate Keeps(h: Heap, r: Heap) {
    && |r| == |h|
    && (forall i :: 0 <= i < |h| ==> r[i].bases == h[i].bases)
    && (forall i :: 0 <= i < |h| && h[i].res.Some? ==> r[i].res.Some?)
  }

  /** `_resolve_inheritance(heap[id])` */
  function Resolve(h: Heap, reg: Registry, id: nat): (r: Heap)
    requires ValidRegistry(h, reg) && id < |h|
    ensures Keeps(h, r)
    ensures Trivial(h[id].bases) ==> r == h
    ensures !Trivial(h[id].bases) ==> r[id].res.Some?
    ensures Pending(r) <= Pending(h) - {id}
    decreases Pending(h) - {id}, 1, 0
  {
    var c := h[id];
    if Trivial(c.bases) then h
    else
      var h1 := h[id := c.(res := Some(Resolution([], [])))];
      PendingUpdate(h, id, h1[id]);
      var h2 := ResolveBases(h1, reg, id, 0);
      var c2 := h2[id];
      var r := if |c2.bases| > 1 then h2[id := c2.(mro := Some(Mro(c2.name, c2.bases, c2.res.value.chain)))] else h2;
      PendingShrinks(h1, r);
      r
  }

  /** The bases loop from the `k`-th base on. A base missing from the
      registry is passed over. */
  function ResolveBases(h: Heap, reg: Registry, id: nat, k: nat): (r: Heap)
    requires ValidRegistry(h, reg) && id < |h| && h[id].res.Some? && k <= |h[id].bases|
    ensures Keeps(h, r)
    ensures Pending(r) <= Pending(h)
    decreases Pending(h), 0, |h[id].bases| - k
  {
    if k == |h[id].bases| then h
    else
      var h3 := BaseStep(h, reg, id, k);
      ResolveBases(h3, reg, id, k + 1)
  }

  /** One iteration of the bases loop, for the `k`-th base: append it to
      the chain, resolve it if resolution has not begun on it, and absorb
      it. */
  function BaseStep(h: Heap, reg: Registry, id: nat, k: nat): (r: Heap)
    requires ValidRegistry(h, reg) && id < |h| && h[id].res.Some? && k < |h[id].bases|
    ensures Keeps(h, r)
    ensures Pending(r) <= Pending(h)
    decreases Pending(h), 0, |h[id].bases| - k - 1
  {
    var bn := h[id].bases[k];
    match Get(reg, bn)
    case None => h
    case Some(bid) =>
      assert bid < |h|;
      var c := h[id];
      var h1 := h[id := c.(res := Some(c.res.value.(chain := c.res.value.chain + [bn])))];
      PendingUpdate(h, id, h1[id]);
      var h2 := if h1[bid].res.None? && !Trivial(h1[bid].bases) then Resolve(h1, reg, bid) else h1;
      var h3 := h2[id := Absorb(h2[id], bn, h2[bid])];
      PendingShrinks(h2, h3);
      h3
  }

  /** Replacing a record by one with the same bases that has begun
      resolution takes it out of the pending set and changes nothing
      else there. */
  lemma PendingUpdate(h: Heap, id: nat, c: ClassRecord)
    requires id < |h| && c.bases == h[id].bases && c.res.Some?
    ensures Pending(h[id := c]) == Pending(h) - {id}
  {
  }

  lemma PendingShrinks(h: Heap, r: Heap)
    requires |r| == |h|
    requires forall i :: 0 <= i < |h| ==> r[i].bases == h[i].bases
    requires forall i :: 0 <= i < |h| && h[i].res.Some? ==> r[i].res.Some?
    ensures Pending(r) <= Pending(h)
  {
  }

  // ---------------------------------------------------------------------
  // What the inherited lists hold

  /** Every list in `d` holds copies tagged with their own key, none of
      them named like a method in `names`, and none a skipped special
      method (utils/parser.py:1055-1067 and 1076-1098). */
  predicate EntriesOk(d: Dict<seq<FunctionRecord>>, names: set<string>) {
    forall j, t :: 0 <= j < |d| && 0 <= t < |d[j].1| ==>
      && d[j].1[t].name !in names
      && d[j].1[t].inheritedFrom == Some(d[j].0)
      && !Skipped(d[j].1[t])
  }

  /** The invariant of a class dictionary: once resolution has begun on
      it, its inherited lists are as above, and its chain and its list
      keys are registry names. */
  predicate ClassOk(c: ClassRecord, reg: Registry) {
    c.res.Some? ==>
      && EntriesOk(Inherited(c), Names(c.methods))
      && (forall x :: x in c.res.value.chain ==> HasKey(reg, x))
      && (forall j :: 0 <= j < |Inherited(c)| ==> HasKey(reg, Inherited(c)[j].0))
  }

  predicate HeapOk(h: Heap, reg: Registry) {
    forall i :: 0 <= i < |h| ==> ClassOk(h[i], reg)
  }

  lemma ListedOk(d: Dict<seq<FunctionRecord>>, names: set<string>, k: string)
    requires EntriesOk(d, names)
    ensures forall t :: 0 <= t < |Listed(d, k)| ==>
              Listed(d, k)[t].name !in names && Listed(d, k)[t].inheritedFrom == Some(k) && !Skipped(Listed(d, k)[t])
  {
    match Get(d, k)
    case None =>
    case Some(l) =>
      var i :| 0 <= i < |d| && d[i] == (k, l);
  }

  lemma AppendOk(d: Dict<seq<FunctionRecord>>, names: set<string>, k: string, m: FunctionRecord)
    requires EntriesOk(d, names) && m.name !in names && !Skipped(m)
    ensures EntriesOk(AppendTo(d, k, Copy(m, k)), names)
  {
    ListedOk(d, names, k);
    PutEntries(d, k, Listed(d, k) + [Copy(m, k)]);
  }

  lemma AppendKeys(d: Dict<seq<FunctionRecord>>, reg: Registry, k: string, l: seq<FunctionRecord>)
    requires forall j :: 0 <= j < |d| ==> HasKey(reg, d[j].0)
    requires HasKey(reg, k)
    ensures forall j :: 0 <= j < |Put(d, k, l)| ==> HasKey(reg, Put(d, k, l)[j].0)
  {
    PutEntries(d, k, l);
  }

  lemma SameMethodsNames(ms: seq<FunctionRecord>, ms': seq<FunctionRecord>)
    requires SameMethods(ms, ms')
    ensures Names(ms') == Names(ms)
  {
    assert forall i :: 0 <= i < |ms| ==> ms'[i].name == ms[i].name;
  }

  lemma InheritOwnOneOk(c: ClassRecord, reg: Registry, bn: string, m: FunctionRecord)
    requires c.res.Some? && ClassOk(c, reg) && HasKey(reg, bn)
    ensures ClassOk(InheritOwnOne(c, bn, m), reg)
  {
    var r := InheritOwnOne(c, bn, m);
    SameMethodsNames(c.methods, r.methods);
    if !Skipped(m) && m.name !in Names(c.methods) {
      AppendOk(Inherited(c), Names(c.methods), bn, m);
      AppendKeys(Inherited(c), reg, bn, Listed(Inherited(c), bn) + [Copy(m, bn)]);
    }
  }

  lemma {:induction false} InheritOwnOk(c: ClassRecord, reg: Registry, bn: string, ms: seq<FunctionRecord>)
    requires c.res.Some? && ClassOk(c, reg) && HasKey(reg, bn)
    ensures ClassOk(InheritOwn(c, bn, ms), reg)
    decreases |ms|
  {
    if ms != [] {
      InheritOwnOneOk(c, reg, bn, ms[0]);
      InheritOwnOk(InheritOwnOne(c, bn, ms[0]), reg, bn, ms[1..]);
    }
  }

  lemma InheritAncestorOneOk(c: ClassRecord, reg: Registry, anc: string, m: FunctionRecord)
    requires c.res.Some? && ClassOk(c, reg) && HasKey(reg, anc) && !Skipped(m)
    ensures ClassOk(InheritAncestorOne(c, anc, m), reg)
  {
    if !(m.name in Names(c.methods) || AnyBaseHas(c.bases, Inherited(c), m.name)) {
      AppendOk(Inherited(c), Names(c.methods), anc, m);
      AppendKeys(Inherited(c), reg, anc, Listed(Inherited(c), anc) + [Copy(m, anc)]);
    }
  }

  lemma {:induction false} InheritListOk(c: ClassRecord, reg: Registry, anc: string, ms: seq<FunctionRecord>)
    requires c.res.Some? && ClassOk(c, reg) && HasKey(reg, anc)
    requires forall t :: 0 <= t < |ms| ==> !Skipped(ms[t])
    ensures ClassOk(InheritList(c, anc, ms), reg)
    decreases |ms|
  {
    if ms != [] {
      InheritAncestorOneOk(c, reg, anc, ms[0]);
      InheritListOk(InheritAncestorOne(c, anc, ms[0]), reg, anc, ms[1..]);
    }
  }

  lemma {:induction false} InheritAncestorsOk(c: ClassRecord, reg: Registry, items: Dict<seq<FunctionRecord>>, names: set<string>)
    requires c.res.Some? && ClassOk(c, reg)
    requires EntriesOk(items, names)
    requires forall j :: 0 <= j < |items| ==> HasKey(reg, items[j].0)
    ensures ClassOk(InheritAncestors(c, items), reg)
    decreases |items|
  {
    if items != [] {
      var (anc, ms) := items[0];
      var c' := WithInherited(c, PutIfAbsent(Inherited(c), anc, []));
      assert ClassOk(c', reg);
      InheritListOk(c', reg, anc, ms);
      InheritAncestorsOk(InheritList(c', anc, ms), reg, items[1..], names);
    }
  }

  /** The base's chain is a subset of what the chain extension produces,
      and the extension adds nothing else. */
  lemma {:induction false} ExtendChainMembers(chain: seq<string>, ancestors: seq<string>)
    ensures forall x :: x in ExtendChain(chain, ancestors) <==> x in chain || x in ancestors
    decreases |ancestors|
  {
    if ancestors != [] {
      var next := if ancestors[0] in chain then chain else chain + [ancestors[0]];
      ExtendChainMembers(next, ancestors[1..]);
      assert forall x :: x in ancestors <==> x == ancestors[0] || x in ancestors[1..];
    }
  }

  lemma AbsorbOk(c: ClassRecord, reg: Registry, bn: string, b: ClassRecord)
    requires c.res.Some? && ClassOk(c, reg) && ClassOk(b, reg) && HasKey(reg, bn)
    ensures ClassOk(Absorb(c, bn, b), reg)
  {
    var c3 := if b.res.Some? then c.(res := Some(c.res.value.(chain := ExtendChain(c.res.value.chain, b.res.value.chain)))) else c;
    if b.res.Some? {
      ExtendChainMembers(c.res.value.chain, b.res.value.chain);
    }
    assert ClassOk(c3, reg);
    var c4 := WithInherited(c3, PutIfAbsent(Inherited(c3), bn, []));
    assert ClassOk(c4, reg);
    InheritOwnOk(c4, reg, bn, b.methods);
    var c5 := InheritOwn(c4, bn, b.methods);
    if b.res.Some? {
      InheritAncestorsOk(c5, reg, b.res.value.inherited, Names(b.methods));
    }
  }

  // ---------------------------------------------------------------------
  // Resolution as a whole

  /** Resolution keeps the invariant of every class dictionary, changes
      nothing of a class but its methods' `overrides` and its resolution
      keys, and touches only the class itself and classes it begins
      resolution on. */
  lemma {:induction false} ResolveOk(h: Heap, reg: Registry, id: nat)
    requires ValidRegistry(h, reg) && id < |h| && HeapOk(h, reg)
    ensures var r := Resolve(h, reg, id);
            && HeapOk(r, reg)
            && (forall i :: 0 <= i < |h| ==> Reshaped(h[i], r[i]))
            && (forall i :: 0 <= i < |h| && i != id && i !in Pending(h) ==> r[i] == h[i])
    decreases Pending(h) - {id}, 1, 0
  {
    var c := h[id];
    if !Trivial(c.bases) {
      var h1 := h[id := c.(res := Some(Resolution([], [])))];
      PendingUpdate(h, id, h1[id]);
      ResolveBasesOk(h1, reg, id, 0);
      var h2 := ResolveBases(h1, reg, id, 0);
      var c2 := h2[id];
      var r := if |c2.bases| > 1 then h2[id := c2.(mro := Some(Mro(c2.name, c2.bases, c2.res.value.chain)))] else h2;
      assert Resolve(h, reg, id) == r;
      ResolvedOkTrans(h, h1, h2, reg, id);
      if |c2.bases| > 1 {
        MroSetOk(h, h2, reg, id, Some(Mro(c2.name, c2.bases, c2.res.value.chain)));
      }
    }
  }

  /** Recording the resolution order keeps the invariant and changes only
      the class's own resolution keys. */
  lemma MroSetOk(h: Heap, h2: Heap, reg: Registry, id: nat, mro: Option<seq<string>>)
    requires id < |h| && |h2| == |h| && HeapOk(h2, reg)
    requires forall i :: 0 <= i < |h| ==> Reshaped(h[i], h2[i])
    ensures var r := h2[id := h2[id].(mro := mro)];
            && HeapOk(r, reg)
            && (forall i :: 0 <= i < |h| ==> Reshaped(h[i], r[i]))
            && (forall i :: 0 <= i < |h| && i != id ==> r[i] == h2[i])
  {
    var r := h2[id := h2[id].(mro := mro)];
    assert ClassOk(r[id], reg) by {
      assert ClassOk(h2[id], reg);
    }
    ReshapedTrans(h[id], h2[id], r[id]);
  }

  lemma {:induction false} ResolveBasesOk(h: Heap, reg: Registry, id: nat, k: nat)
    requires ValidRegistry(h, reg) && id < |h| && h[id].res.Some? && k <= |h[id].bases| && HeapOk(h, reg)
    ensures var r := ResolveBases(h, reg, id, k);
            && HeapOk(r, reg)
            && (forall i :: 0 <= i < |h| ==> Reshaped(h[i], r[i]))
            && (forall i :: 0 <= i < |h| && i != id && i !in Pending(h) ==> r[i] == h[i])
            && r[id].mro == h[id].mro
    decreases Pending(h), 0, |h[id].bases| - k + 3
  {
    if k < |h[id].bases| {
      BaseStepOk(h, reg, id, k);
      var h3 := BaseStep(h, reg, id, k);
      ResolveBasesOk(h3, reg, id, k + 1);
      var r := ResolveBases(h3, reg, id, k + 1);
      assert ResolveBases(h, reg, id, k) == r;
      ResolvedOkTrans(h, h3, r, reg, id);
    }
  }

  /** Two stretches of resolution on behalf of `id` make one. */
  lemma ResolvedOkTrans(h: Heap, h3: Heap, r: Heap, reg: Registry, id: nat)
    requires id < |h| && |h3| == |h| && |r| == |h| && Pending(h3) <= Pending(h)
    requires && (forall i :: 0 <= i < |h| ==> Reshaped(h[i], h3[i]))
             && (forall i :: 0 <= i < |h| && i != id && i !in Pending(h) ==> h3[i] == h[i])
             && h3[id].mro == h[id].mro
    requires && (forall i :: 0 <= i < |h3| ==> Reshaped(h3[i], r[i]))
             && (forall i :: 0 <= i < |h3| && i != id && i !in Pending(h3) ==> r[i] == h3[i])
             && r[id].mro == h3[id].mro
    ensures && (forall i :: 0 <= i < |h| ==> Reshaped(h[i], r[i]))
            && (forall i :: 0 <= i < |h| && i != id && i !in Pending(h) ==> r[i] == h[i])
            && r[id].mro == h[id].mro
  {
    forall i | 0 <= i < |h|
      ensures Reshaped(h[i], r[i])
    {
      ReshapedTrans(h[i], h3[i], r[i]);
    }
  }

  lemma {:induction false} BaseStepOk(h: Heap, reg: Registry, id: nat, k: nat)
    requires ValidRegistry(h, reg) && id < |h| && h[id].res.Some? && k < |h[id].bases| && HeapOk(h, reg)
    ensures var r := BaseStep(h, reg, id, k);
            && HeapOk(r, reg)
            && (forall i :: 0 <= i < |h| ==> Reshaped(h[i], r[i]))
            && (forall i :: 0 <= i < |h| && i != id && i !in Pending(h) ==> r[i] == h[i])
            && r[id].mro == h[id].mro
    decreases Pending(h), 0, |h[id].bases| - k + 2
  {
    var bn := h[id].bases[k];
    match Get(reg, bn)
    case None =>
    case Some(bid) =>
      assert bid < |h|;
      var c := h[id];
      var h1 := h[id := c.(res := Some(c.res.value.(chain := c.res.value.chain + [bn])))];
      var h2 := if h1[bid].res.None? && !Trivial(h1[bid].bases) then Resolve(h1, reg, bid) else h1;
      BaseStepSomeOk(h, reg, id, bn, bid);
      assert h2[id := Absorb(h2[id], bn, h2[bid])] == BaseStep(h, reg, id, k);
  }

  /** A step on a registered base, with the record the step builds spelt
      out. */
  lemma {:induction false} BaseStepSomeOk(h: Heap, reg: Registry, id: nat, bn: string, bid: nat)
    requires ValidRegistry(h, reg) && id < |h| && h[id].res.Some? && HeapOk(h, reg)
    requires Get(reg, bn) == Some(bid)
    ensures bid < |h|
    ensures var c := h[id];
            var h1 := h[id := c.(res := Some(c.res.value.(chain := c.res.value.chain + [bn])))];
            var h2 := if h1[bid].res.None? && !Trivial(h1[bid].bases) then Resolve(h1, reg, bid) else h1;
            var r := h2[id := Absorb(h2[id], bn, h2[bid])];
            && HeapOk(r, reg)
            && (forall i :: 0 <= i < |h| ==> Reshaped(h[i], r[i]))
            && (forall i :: 0 <= i < |h| && i != id && i !in Pending(h) ==> r[i] == h[i])
            && r[id].mro == h[id].mro
    decreases Pending(h), 0, 1
  {
    assert bid < |h|;
    assert HasKey(reg, bn);
    var c := h[id];
    var h1 := h[id := c.(res := Some(c.res.value.(chain := c.res.value.chain + [bn])))];
    PendingUpdate(h, id, h1[id]);
    ChainAppendOk(h, reg, id, bn);
    var h2 := if h1[bid].res.None? && !Trivial(h1[bid].bases) then Resolve(h1, reg, bid) else h1;
    ResolveStepOk(h1, reg, id, bid);
    forall i | 0 <= i < |h|
      ensures Reshaped(h[i], h2[i])
    {
      ReshapedTrans(h[i], h1[i], h2[i]);
    }
    AbsorbStepOk(h, h2, reg, id, bid, bn);
  }

  /** Appending a registered base to the chain keeps the invariant. */
  lemma ChainAppendOk(h: Heap, reg: Registry, id: nat, bn: string)
    requires id < |h| && h[id].res.Some? && HeapOk(h, reg) && HasKey(reg, bn)
    ensures var c := h[id];
            var h1 := h[id := c.(res := Some(c.res.value.(chain := c.res.value.chain + [bn])))];
            && HeapOk(h1, reg)
            && (forall i :: 0 <= i < |h| ==> Reshaped(h[i], h1[i]))
  {
    var c := h[id];
    var c1 := c.(res := Some(c.res.value.(chain := c.res.value.chain + [bn])));
    assert ClassOk(c1, reg);
    assert forall i :: 0 <= i < |h| ==> SameMethods(h[i].methods, h[i].methods);
  }

  /** The resolving half of a step: the base is resolved if resolution
      has not begun on it, which leaves the class itself alone. */
  lemma {:induction false} ResolveStepOk(h1: Heap, reg: Registry, id: nat, bid: nat)
    requires ValidRegistry(h1, reg) && id < |h1| && bid < |h1| && h1[id].res.Some? && HeapOk(h1, reg)
    ensures var h2 := if h1[bid].res.None? && !Trivial(h1[bid].bases) then Resolve(h1, reg, bid) else h1;
            && HeapOk(h2, reg)
            && (forall i :: 0 <= i < |h1| ==> Reshaped(h1[i], h2[i]))
            && (forall i :: 0 <= i < |h1| && i != bid && i !in Pending(h1) ==> h2[i] == h1[i])
            && h2[id] == h1[id]
    decreases Pending(h1), 0, 0
  {
    if h1[bid].res.None? && !Trivial(h1[bid].bases) {
      ResolveOk(h1, reg, bid);
      assert id != bid && id !in Pending(h1);
    } else {
      assert forall i :: 0 <= i < |h1| ==> SameMethods(h1[i].methods, h1[i].methods);
    }
  }

  /** The absorbing half of a step keeps the invariant and the shape. */
  lemma AbsorbStepOk(h: Heap, h2: Heap, reg: Registry, id: nat, bid: nat, bn: string)
    requires |h2| == |h| && id < |h| && bid < |h| && h2[id].res.Some? && HeapOk(h2, reg) && HasKey(reg, bn)
    requires forall i :: 0 <= i < |h| ==> Reshaped(h[i], h2[i])
    ensures var h3 := h2[id := Absorb(h2[id], bn, h2[bid])];
            && HeapOk(h3, reg)
            && (forall i :: 0 <= i < |h| ==> Reshaped(h[i], h3[i]))
            && h3[id].mro == h2[id].mro
  {
    var a := Absorb(h2[id], bn, h2[bid]);
    AbsorbOk(h2[id], reg, bn, h2[bid]);
    var h3 := h2[id := a];
    ReshapedTrans(h[id], h2[id], a);
    assert forall i :: 0 <= i < |h| && i != id ==> h3[i] == h2[i];
  }

  lemma ReshapedTrans(a: ClassRecord, b: ClassRecord, c: ClassRecord)
    requires Reshaped(a, b) && Reshaped(b, c)
    ensures Reshaped(a, c)
  {
  }

  // ---------------------------------------------------------------------
  // Chain extension and the resolution order

  /** The chain keeps its entries in place; what it gains are base-chain
      entries it did not hold, each once. */
  lemma {:induction false} ExtendChainShape(chain: seq<string>, ancestors: seq<string>)
    ensures var r := ExtendChain(chain, ancestors);
            && |chain| <= |r|
            && r[..|chain|] == chain
            && (forall i :: |chain| <= i < |r| ==> r[i] !in chain)
            && (forall i, j :: |chain| <= i < j < |r| ==> r[i] != r[j])
    decreases |ancestors|
  {
    if ancestors != [] {
      var next := if ancestors[0] in chain then chain else chain + [ancestors[0]];
      ExtendChainShape(next, ancestors[1..]);
      var r := ExtendChain(chain, ancestors);
      assert r == ExtendChain(next, ancestors[1..]);
      assert r[..|next|] == next;
      assert r[..|chain|] == next[..|chain|];
      forall i | |chain| <= i < |r|
        ensures r[i] !in chain
      {
        if i >= |next| {
          assert r[i] !in next;
          assert forall x :: x in chain ==> x in next;
        } else {
          assert r[i] == ancestors[0];
        }
      }
    }
  }

  /** `_calculate_mro`: the class, then its declared bases verbatim, then
      each chain entry not listed yet, once; nothing else. */
  lemma MroFacts(name: string, bases: seq<string>, chain: seq<string>)
    ensures var m := Mro(name, bases, chain);
            && |m| >= 1 + |bases|
            && m[..1 + |bases|] == [name] + bases
            && (forall x :: x in m <==> x == name || x in bases || x in chain)
            && (forall i :: 1 + |bases| <= i < |m| ==> m[i] != name && m[i] !in bases)
            && (forall i, j :: 1 + |bases| <= i < j < |m| ==> m[i] != m[j])
  {
    ExtendChainShape([name] + bases, chain);
    ExtendChainMembers([name] + bases, chain);
    assert forall x :: x in [name] + bases <==> x == name || x in bases;
  }

  /** `method_resolution_order` is set only for a class with more than
      one declared base, and then from the chain the class ends up with. */
  lemma ResolveMro(h: Heap, reg: Registry, id: nat)
    requires ValidRegistry(h, reg) && id < |h| && HeapOk(h, reg)
    ensures var r := Resolve(h, reg, id);
            && (!Trivial(h[id].bases) && |h[id].bases| > 1 ==>
                  r[id].mro == Some(Mro(h[id].name, h[id].bases, r[id].res.value.chain)))
            && (|h[id].bases| <= 1 ==> r[id].mro == h[id].mro)
  {
    var c := h[id];
    if !Trivial(c.bases) {
      var h1 := h[id := c.(res := Some(Resolution([], [])))];
      PendingUpdate(h, id, h1[id]);
      ResolveBasesOk(h1, reg, id, 0);
    }
  }

  // ---------------------------------------------------------------------
  // Overrides and the lists a base's methods are filed under

  /** A method of the base that is not a skipped special method. */
  predicate Offers(ms: seq<FunctionRecord>, name: string) {
    exists k :: 0 <= k < |ms| && !Skipped(ms[k]) && ms[k].name == name
  }

  lemma SameMethodsLastNamed(ms: seq<FunctionRecord>, ms': seq<FunctionRecord>, i: int, name: string)
    requires SameMethods(ms, ms')
    ensures IsLastNamed(ms', i, name) <==> IsLastNamed(ms, i, name)
  {
    assert forall j :: 0 <= j < |ms| ==> ms'[j].name == ms[j].name;
  }

  /** The loop over a base's own methods tags the class's method of each
      name the base offers with `base.name`; the tag lands on the last
      method of that name (the one `defined_methods` holds), and no other
      method's `overrides` changes. */
  lemma {:induction false} InheritOwnTags(c: ClassRecord, bn: string, ms: seq<FunctionRecord>, i: int)
    requires c.res.Some? && 0 <= i < |c.methods|
    ensures var r := InheritOwn(c, bn, ms);
            var n := c.methods[i].name;
            && (IsLastNamed(c.methods, i, n) && Offers(ms, n) ==> r.methods[i].overrides == Some(bn + "." + n))
            && (!IsLastNamed(c.methods, i, n) || !Offers(ms, n) ==> r.methods[i].overrides == c.methods[i].overrides)
    decreases |ms|
  {
    if ms != [] {
      var n := c.methods[i].name;
      var c1 := InheritOwnOne(c, bn, ms[0]);
      assert c1.methods[i].name == n;
      SameMethodsLastNamed(c.methods, c1.methods, i, n);
      InheritOwnTags(c1, bn, ms[1..], i);
      assert InheritOwn(c, bn, ms) == InheritOwn(c1, bn, ms[1..]);
      assert Offers(ms, n) <==> (!Skipped(ms[0]) && ms[0].name == n) || Offers(ms[1..], n) by {
        if Offers(ms, n) {
          var k :| 0 <= k < |ms| && !Skipped(ms[k]) && ms[k].name == n;
          if k > 0 { assert ms[1..][k - 1] == ms[k]; }
        }
        if Offers(ms[1..], n) {
          var k :| 0 <= k < |ms[1..]| && !Skipped(ms[1..][k]) && ms[1..][k].name == n;
          assert ms[k + 1] == ms[1..][k];
        }
      }
      if !Skipped(ms[0]) && ms[0].name == n {
        assert n in Names(c.methods);
      } else if !Skipped(ms[0]) && ms[0].name in Names(c.methods) {
        assert !IsLastNamed(c.methods, i, ms[0].name);
      }
    }
  }

  /** Lists only grow: whatever a list held, it still holds. */
  ghost predicate Grows(d: Dict<seq<FunctionRecord>>, d': Dict<seq<FunctionRecord>>) {
    forall k, x :: x in Listed(d, k) ==> x in Listed(d', k)
  }

  lemma PutListedGrows(d: Dict<seq<FunctionRecord>>, k: string, l: seq<FunctionRecord>)
    requires forall x :: x in Listed(d, k) ==> x in l
    ensures Grows(d, Put(d, k, l))
    ensures Listed(Put(d, k, l), k) == l
  {
    forall k', x | x in Listed(d, k')
      ensures x in Listed(Put(d, k, l), k')
    {
      PutGet(d, k, l, k');
    }
    PutGet(d, k, l, k);
  }

  lemma AppendGrows(d: Dict<seq<FunctionRecord>>, k: string, m: FunctionRecord)
    ensures Grows(d, AppendTo(d, k, m))
    ensures m in Listed(AppendTo(d, k, m), k)
  {
    PutListedGrows(d, k, Listed(d, k) + [m]);
  }

  lemma PutIfAbsentGrows(d: Dict<seq<FunctionRecord>>, k: string)
    ensures Grows(d, PutIfAbsent(d, k, []))
  {
    if !HasKey(d, k) {
      PutListedGrows(d, k, []);
      assert Put(d, k, []) == d + [(k, [])];
    }
  }

  lemma {:induction false} InheritOwnGrows(c: ClassRecord, bn: string, ms: seq<FunctionRecord>)
    requires c.res.Some?
    ensures Grows(Inherited(c), Inherited(InheritOwn(c, bn, ms)))
    decreases |ms|
  {
    if ms != [] {
      var c1 := InheritOwnOne(c, bn, ms[0]);
      if !Skipped(ms[0]) && ms[0].name !in Names(c.methods) {
        AppendGrows(Inherited(c), bn, Copy(ms[0], bn));
      }
      InheritOwnGrows(c1, bn, ms[1..]);
    }
  }

  lemma {:induction false} InheritListGrows(c: ClassRecord, anc: string, ms: seq<FunctionRecord>)
    requires c.res.Some?
    ensures Grows(Inherited(c), Inherited(InheritList(c, anc, ms)))
    decreases |ms|
  {
    if ms != [] {
      var c1 := InheritAncestorOne(c, anc, ms[0]);
      if !(ms[0].name in Names(c.methods) || AnyBaseHas(c.bases, Inherited(c), ms[0].name)) {
        AppendGrows(Inherited(c), anc, Copy(ms[0], anc));
      }
      InheritListGrows(c1, anc, ms[1..]);
    }
  }

  lemma {:induction false} InheritAncestorsGrows(c: ClassRecord, items: Dict<seq<FunctionRecord>>)
    requires c.res.Some?
    ensures Grows(Inherited(c), Inherited(InheritAncestors(c, items)))
    decreases |items|
  {
    if items != [] {
      var (anc, ms) := items[0];
      var c' := WithInherited(c, PutIfAbsent(Inherited(c), anc, []));
      PutIfAbsentGrows(Inherited(c), anc);
      InheritListGrows(c', anc, ms);
      InheritAncestorsGrows(InheritList(c', anc, ms), items[1..]);
    }
  }

  /** Every method the base offers that the class does not define ends up,
      copied and tagged with the base's name, in the list for that base. */
  lemma {:induction false} InheritOwnFiles(c: ClassRecord, bn: string, ms: seq<FunctionRecord>)
    requires c.res.Some?
    ensures forall k :: 0 <= k < |ms| && !Skipped(ms[k]) && ms[k].name !in Names(c.methods) ==>
              Copy(ms[k], bn) in Listed(Inherited(InheritOwn(c, bn, ms)), bn)
    decreases |ms|
  {
    if ms != [] {
      var c1 := InheritOwnOne(c, bn, ms[0]);
      SameMethodsNames(c.methods, c1.methods);
      InheritOwnFiles(c1, bn, ms[1..]);
      InheritOwnGrows(c1, bn, ms[1..]);
      if !Skipped(ms[0]) && ms[0].name !in Names(c.methods) {
        AppendGrows(Inherited(c), bn, Copy(ms[0], bn));
      }
      forall k | 0 < k < |ms| && !Skipped(ms[k]) && ms[k].name !in Names(c.methods)
        ensures Copy(ms[k], bn) in Listed(Inherited(InheritOwn(c, bn, ms)), bn)
      {
        assert ms[1..][k - 1] == ms[k];
      }
    }
  }

  /** Each own method of the base that the class does not define ends up,
      copied and tagged with the base's name, in the list for that base. */
  lemma AbsorbFiles(c: ClassRecord, bn: string, b: ClassRecord)
    requires c.res.Some?
    ensures forall k :: 0 <= k < |b.methods| && !Skipped(b.methods[k]) && b.methods[k].name !in Names(c.methods) ==>
              Copy(b.methods[k], bn) in Listed(Inherited(Absorb(c, bn, b)), bn)
  {
    var c3 := if b.res.Some? then c.(res := Some(c.res.value.(chain := ExtendChain(c.res.value.chain, b.res.value.chain)))) else c;
    var c4 := WithInherited(c3, PutIfAbsent(Inherited(c3), bn, []));
    assert c4.methods == c.methods;
    InheritOwnFiles(c4, bn, b.methods);
    if b.res.Some? {
      InheritAncestorsGrows(InheritOwn(c4, bn, b.methods), b.res.value.inherited);
    }
  }

  /** The class's last method of each name the base offers is tagged as
      overriding `base.name`. */
  lemma AbsorbTags(c: ClassRecord, bn: string, b: ClassRecord, i: int)
    requires c.res.Some? && 0 <= i < |c.methods|
    requires IsLastNamed(c.methods, i, c.methods[i].name) && Offers(b.methods, c.methods[i].name)
    ensures Absorb(c, bn, b).methods[i].overrides == Some(bn + "." + c.methods[i].name)
  {
    var c3 := if b.res.Some? then c.(res := Some(c.res.value.(chain := ExtendChain(c.res.value.chain, b.res.value.chain)))) else c;
    var c4 := WithInherited(c3, PutIfAbsent(Inherited(c3), bn, []));
    assert c4.methods == c.methods;
    InheritOwnTags(c4, bn, b.methods, i);
    if b.res.Some? {
      InheritAncestorsKeepsMethods(InheritOwn(c4, bn, b.methods), b.res.value.inherited);
    }
  }

  lemma {:induction false} InheritListKeepsMethods(c: ClassRecord, anc: string, ms: seq<FunctionRecord>)
    requires c.res.Some?
    ensures InheritList(c, anc, ms).methods == c.methods
    decreases |ms|
  {
    if ms != [] {
      InheritListKeepsMethods(InheritAncestorOne(c, anc, ms[0]), anc, ms[1..]);
    }
  }

  lemma {:induction false} InheritAncestorsKeepsMethods(c: ClassRecord, items: Dict<seq<FunctionRecord>>)
    requires c.res.Some?
    ensures InheritAncestors(c, items).methods == c.methods
    decreases |items|
  {
    if items != [] {
      var (anc, ms) := items[0];
      var c' := WithInherited(c, PutIfAbsent(Inherited(c), anc, []));
      InheritListKeepsMethods(c', anc, ms);
      InheritAncestorsKeepsMethods(InheritList(c', anc, ms), items[1..]);
    }
  }

  // ---------------------------------------------------------------------
  // A class that lists itself as a base (utils/parser.py:1070-1098)

  /** The loop `for method in ancestor_methods` over a list the loop body
      may append to: it runs until its position reaches the list's current
      length. `fuel` bounds the number of iterations; `None` means the
      bound ran out. */
  function LiveList(c: ClassRecord, anc: string, t: nat, fuel: nat): Option<ClassRecord>
    requires c.res.Some?
    decreases fuel
  {
    if fuel == 0 then None
    else if t >= |Listed(Inherited(c), anc)| then Some(c)
    else LiveList(InheritAncestorOne(c, anc, Listed(Inherited(c), anc)[t]), anc, t + 1, fuel - 1)
  }

  /** The loop over `inherited_methods.items()` when that dictionary is the
      class's own, from the `j`-th key on. */
  function LiveItems(c: ClassRecord, j: nat, fuel: nat): Option<ClassRecord>
    requires c.res.Some?
    decreases fuel
  {
    if fuel == 0 then None
    else if j >= |Inherited(c)| then Some(c)
    else match LiveList(c, Inherited(c)[j].0, 0, fuel - 1)
      case None => None
      case Some(c') => if c'.res.Some? then LiveItems(c', j + 1, fuel - 1) else None
  }

  /** The body of the bases loop as written, for a base that is the class
      itself (a later `class A(B, A)` replaces the earlier `A` in the
      registry): the base's chain, methods and inherited lists are the
      class's own, read while they are being extended. */
  function AbsorbSelfAsWritten(c: ClassRecord, bn: string, fuel: nat): Option<ClassRecord>
    requires c.res.Some?
  {
    var c3 := c.(res := Some(c.res.value.(chain := ExtendChain(c.res.value.chain, c.res.value.chain))));
    var c4 := WithInherited(c3, PutIfAbsent(Inherited(c3), bn, []));
    var c5 := InheritOwn(c4, bn, c4.methods);
    LiveItems(c5, 0, fuel)
  }

  /** `def m` in a class `C` that `B` inherits from. */
  const InheritedM: FunctionRecord :=
    FunctionRecord("m", Blank(""), false, [], None, [], true, false, 2,
                   Some(MethodFlags(false, false, false)), None, Some("C"))

  /** `class A(B, A)` just after its first base `B` and the name `A` were
      handled: the chain is `B, C, A` and `m` is listed under `C`. */
  const SelfBased: ClassRecord :=
    ClassRecord("A", Blank(""), ["B", "A"], [], 4,
                Some(Resolution(["B", "C", "A"], [("B", []), ("C", [InheritedM])])), None)

  /** The class is spinning on the list under `C`: it has no methods of
      its own, its declared bases `B` and `A` have empty lists, and the
      loop stands at the last of the `t + 1` entries under `C`, a method
      called `m`. */
  predicate Spinning(c: ClassRecord, l: seq<FunctionRecord>, t: nat) {
    && c.res.Some? && c.bases == ["B", "A"] && c.methods == []
    && Listed(Inherited(c), "B") == [] && Listed(Inherited(c), "A") == [] && Listed(Inherited(c), "C") == l
    && |l| == t + 1 && l[t].name == "m"
  }

  /** While the class is spinning, every iteration appends another copy of
      `m` to the list the loop is walking. */
  lemma {:induction false} LiveListSpins(c: ClassRecord, l: seq<FunctionRecord>, t: nat, fuel: nat)
    requires Spinning(c, l, t)
    ensures LiveList(c, "C", t, fuel) == None
    decreases fuel
  {
    if fuel > 0 {
      var f: nat := fuel - 1;
      var c1 := SpinStep(c, l, t, f);
      LiveListSpins(c1, l + [Copy(l[t], "C")], t + 1, f);
    }
  }

  /** One iteration of the spinning loop. */
  lemma SpinStep(c: ClassRecord, l: seq<FunctionRecord>, t: nat, f: nat) returns (c1: ClassRecord)
    requires Spinning(c, l, t)
    ensures Spinning(c1, l + [Copy(l[t], "C")], t + 1)
    ensures LiveList(c1, "C", t + 1, f) == None ==> LiveList(c, "C", t, f + 1) == None
  {
    var d := Inherited(c);
    NoBaseHas(c.bases, d, "m");
    var m := Copy(l[t], "C");
    assert Names(c.methods) == {};
    c1 := InheritAncestorOne(c, "C", l[t]);
    var l' := l + [m];
    assert c1 == WithInherited(c, Put(d, "C", l'));
    PutGet(d, "C", l', "A");
    PutGet(d, "C", l', "B");
    PutGet(d, "C", l', "C");
  }

  lemma NoBaseHas(bases: seq<string>, d: Dict<seq<FunctionRecord>>, name: string)
    requires forall j :: 0 <= j < |bases| ==> Listed(d, bases[j]) == []
    ensures !AnyBaseHas(bases, d, name)
  {
  }

  /** Looking up the three lists of the class above. */
  lemma ThreeLists(l: seq<FunctionRecord>)
    ensures var d: Dict<seq<FunctionRecord>> := [("B", []), ("C", l), ("A", [])];
            Listed(d, "B") == [] && Listed(d, "C") == l && Listed(d, "A") == []
  {
    var d: Dict<seq<FunctionRecord>> := [("B", []), ("C", l), ("A", [])];
    FindKeyAt(d, "B", 0);
    FindKeyAt(d, "C", 1);
    FindKeyAt(d, "A", 2);
  }

  lemma ThreePut(l: seq<FunctionRecord>, l': seq<FunctionRecord>)
    ensures var d: Dict<seq<FunctionRecord>> := [("B", []), ("C", l), ("A", [])];
            Put(d, "C", l') == [("B", []), ("C", l'), ("A", [])]
  {
    var d: Dict<seq<FunctionRecord>> := [("B", []), ("C", l), ("A", [])];
    FindKeyAt(d, "C", 1);
  }

  /** `SelfBased` once the list for `A` is opened. */
  const SelfOpened: ClassRecord :=
    ClassRecord("A", Blank(""), ["B", "A"], [], 4,
                Some(Resolution(["B", "C", "A"], [("B", []), ("C", [InheritedM]), ("A", [])])), None)

  lemma {:induction false} ExtendChainSelf(chain: seq<string>, ancestors: seq<string>)
    requires forall x :: x in ancestors ==> x in chain
    ensures ExtendChain(chain, ancestors) == chain
    decreases |ancestors|
  {
    if ancestors != [] {
      assert ancestors[0] in chain;
      ExtendChainSelf(chain, ancestors[1..]);
    }
  }

  /** Both readings start the same way: the chain gains nothing, and the
      list for `A` is opened. */
  lemma SelfOpens()
    ensures var c := SelfBased;
            var c3 := c.(res := Some(c.res.value.(chain := ExtendChain(c.res.value.chain, c.res.value.chain))));
            && WithInherited(c3, PutIfAbsent(Inherited(c3), "A", [])) == SelfOpened
            && InheritOwn(SelfOpened, "A", []) == SelfOpened
  {
    var c := SelfBased;
    ExtendChainSelf(c.res.value.chain, c.res.value.chain);
    var c3 := c.(res := Some(c.res.value.(chain := ExtendChain(c.res.value.chain, c.res.value.chain))));
    assert c3 == c;
    var d := Inherited(c);
    assert d == [("B", []), ("C", [InheritedM])];
    assert d[0].0 != "A" && d[1].0 != "A";
    assert !HasKey(d, "A");
    var e: Dict<seq<FunctionRecord>> := d + [("A", [])];
    assert PutIfAbsent(d, "A", []) == e;
    assert e == [("B", []), ("C", [InheritedM]), ("A", [])];
    assert WithInherited(c, e) == SelfOpened;
  }

  lemma SelfItemsSpin(c: ClassRecord, m: FunctionRecord, fuel: nat)
    requires c.res.Some? && c.bases == ["B", "A"] && c.methods == [] && m.name == "m"
    requires Inherited(c) == [("B", []), ("C", [m]), ("A", [])]
    ensures LiveItems(c, 0, fuel) == None
  {
    if fuel > 0 {
      ThreeLists([m]);
      var f: nat := fuel - 1;
      assert Inherited(c)[0].0 == "B";
      if f > 0 {
        assert LiveList(c, "B", 0, f) == Some(c);
        SelfListSpins(c, m, f - 1);
        LiveItemsStops(c, 1, "C", f);
      }
    }
  }

  /** The list under `C` is where the loop spins. */
  lemma SelfListSpins(c: ClassRecord, m: FunctionRecord, fuel: nat)
    requires c.res.Some? && c.bases == ["B", "A"] && c.methods == [] && m.name == "m"
    requires Inherited(c) == [("B", []), ("C", [m]), ("A", [])]
    ensures LiveList(c, "C", 0, fuel) == None
  {
    ThreeLists([m]);
    assert Spinning(c, [m], 0);
    LiveListSpins(c, [m], 0, fuel);
  }

  /** The items loop stops as soon as the list loop of its key does. */
  lemma LiveItemsStops(c: ClassRecord, j: nat, key: string, fuel: nat)
    requires c.res.Some? && fuel > 0 && j < |Inherited(c)| && Inherited(c)[j].0 == key
    requires LiveList(c, key, 0, fuel - 1) == None
    ensures LiveItems(c, j, fuel) == None
  {
  }

  /** As written, absorbing `A` into itself never finishes: whatever the
      iteration bound, it runs out. */
  lemma AbsorbSelfNeverFinishes(fuel: nat)
    ensures AbsorbSelfAsWritten(SelfBased, "A", fuel) == None
  {
    SelfOpens();
    SelfItemsSpin(SelfOpened, InheritedM, fuel);
  }

  /** The snapshot loop over the lists `B` (empty) and `C` (one `m`). */
  lemma SnapshotStep(c: ClassRecord, m: FunctionRecord)
    requires c.res.Some? && c.bases == ["B", "A"] && c.methods == []
    requires m.name == "m" && m.inheritedFrom == Some("C")
    requires Inherited(c) == [("B", []), ("C", [m]), ("A", [])]
    ensures Inherited(InheritAncestors(c, [("B", []), ("C", [m])])) == [("B", []), ("C", [m, m]), ("A", [])]
    ensures InheritAncestors(c, [("B", []), ("C", [m])]).res.value.chain == c.res.value.chain
  {
    SnapshotSkipsB(c, m);
    SnapshotCopiesC(c, m);
  }

  /** The empty list `B` leaves the class as it is. */
  lemma SnapshotSkipsB(c: ClassRecord, m: FunctionRecord)
    requires c.res.Some? && Inherited(c) == [("B", []), ("C", [m]), ("A", [])]
    ensures InheritAncestors(c, [("B", []), ("C", [m])]) == InheritAncestors(c, [("C", [m])])
  {
    var d := Inherited(c);
    var items: Dict<seq<FunctionRecord>> := [("B", []), ("C", [m])];
    assert HasKey(d, "B") by { assert d[0].0 == "B"; }
    assert WithInherited(c, PutIfAbsent(d, "B", [])) == c;
    assert InheritList(c, "B", []) == c;
    assert items[1..] == [("C", [m])];
  }

  /** The one `m` listed under `C` is appended to that same list. */
  lemma SnapshotCopiesC(c: ClassRecord, m: FunctionRecord)
    requires c.res.Some? && c.bases == ["B", "A"] && c.methods == []
    requires m.name == "m" && m.inheritedFrom == Some("C")
    requires Inherited(c) == [("B", []), ("C", [m]), ("A", [])]
    ensures Inherited(InheritAncestors(c, [("C", [m])])) == [("B", []), ("C", [m, m]), ("A", [])]
    ensures InheritAncestors(c, [("C", [m])]).res.value.chain == c.res.value.chain
  {
    var d := Inherited(c);
    var items: Dict<seq<FunctionRecord>> := [("C", [m])];
    assert HasKey(d, "C") by { assert d[1].0 == "C"; }
    assert WithInherited(c, PutIfAbsent(d, "C", [])) == c;
    var c1 := CopyCOnce(c, m);
    assert InheritList(c, "C", [m]) == InheritList(c1, "C", []);
    assert items[1..] == [];
    assert InheritAncestors(c, items) == InheritAncestors(c1, []);
  }

  /** `m` is inherited by none of the class's own methods or bases, so it
      is appended to the list under `C`. */
  lemma CopyCOnce(c: ClassRecord, m: FunctionRecord) returns (c1: ClassRecord)
    requires c.res.Some? && c.bases == ["B", "A"] && c.methods == []
    requires m.name == "m" && m.inheritedFrom == Some("C")
    requires Inherited(c) == [("B", []), ("C", [m]), ("A", [])]
    ensures c1 == InheritAncestorOne(c, "C", m)
    ensures c1 == WithInherited(c, [("B", []), ("C", [m, m]), ("A", [])])
  {
    var d := Inherited(c);
    BasesBAEmpty([m], m.name);
    assert Names(c.methods) == {};
    assert Copy(m, "C") == m;
    AppendToC(m);
    c1 := InheritAncestorOne(c, "C", m);
  }

  /** Neither `B` nor `A` lists a method. */
  lemma BasesBAEmpty(l: seq<FunctionRecord>, name: string)
    ensures !AnyBaseHas(["B", "A"], [("B", []), ("C", l), ("A", [])], name)
  {
    ThreeLists(l);
    var bases := ["B", "A"];
    assert bases[0] == "B" && bases[1] == "A";
    NoBaseHas(bases, [("B", []), ("C", l), ("A", [])], name);
  }

  lemma AppendToC(m: FunctionRecord)
    ensures AppendTo([("B", []), ("C", [m]), ("A", [])], "C", m) == [("B", []), ("C", [m, m]), ("A", [])]
  {
    ThreeLists([m]);
    ThreePut([m], [m, m]);
    assert [m] + [m] == [m, m];
  }

  /** Reading the lists as they were when the base was reached, the same
      step finishes, and `m` is listed under `C` twice. */
  lemma AbsorbSelfFinishes()
    ensures Inherited(Absorb(SelfBased, "A", SelfBased))
         == [("B", []), ("C", [InheritedM, InheritedM]), ("A", [])]
    ensures Absorb(SelfBased, "A", SelfBased).res.value.chain == ["B", "C", "A"]
  {
    SelfOpens();
    assert Absorb(SelfBased, "A", SelfBased) == InheritAncestors(SelfOpened, [("B", []), ("C", [InheritedM])]);
    SnapshotStep(SelfOpened, InheritedM);
  }

  // ---------------------------------------------------------------------
  // The chain records every registered base as it is reached

  /** `inheritance_chain.append(base_name)` is unconditional: the chain
      gains the base even when an earlier base already brought it in, so
      the chain of `D(B, A)` with `B(A)` lists `A` twice. */
  lemma BaseStepChain(h: Heap, reg: Registry, id: nat, k: nat)
    requires ValidRegistry(h, reg) && id < |h| && h[id].res.Some? && k < |h[id].bases| && HeapOk(h, reg)
    requires HasKey(reg, h[id].bases[k])
    ensures var ch := h[id].res.value.chain;
            var r := BaseStep(h, reg, id, k)[id].res.value.chain;
            && |r| > |ch|
            && r[..|ch| + 1] == ch + [h[id].bases[k]]
  {
    var c1, b := BaseStepAbsorbs(h, reg, id, k);
    AbsorbKeepsChainHead(c1, h[id].bases[k], b, h[id].res.value.chain);
  }

  /** Absorbing a base keeps the chain it finds as a prefix. */
  lemma AbsorbKeepsChainHead(c1: ClassRecord, bn: string, b: ClassRecord, ch: seq<string>)
    requires c1.res.Some? && c1.res.value.chain == ch + [bn]
    ensures var r := Absorb(c1, bn, b).res.value.chain;
            |r| > |ch| && r[..|ch| + 1] == ch + [bn]
  {
    AbsorbChain(c1, bn, b);
    if b.res.Some? {
      ExtendChainShape(ch + [bn], b.res.value.chain);
    }
    assert (ch + [bn])[..|ch| + 1] == ch + [bn];
  }

  /** A step on a registered base absorbs some dictionary into the class
      after appending the base to its chain. */
  lemma BaseStepAbsorbs(h: Heap, reg: Registry, id: nat, k: nat) returns (c1: ClassRecord, b: ClassRecord)
    requires ValidRegistry(h, reg) && id < |h| && h[id].res.Some? && k < |h[id].bases| && HeapOk(h, reg)
    requires HasKey(reg, h[id].bases[k])
    ensures c1.res.Some? && c1.res.value.chain == h[id].res.value.chain + [h[id].bases[k]]
    ensures c1.methods == h[id].methods && Inherited(c1) == Inherited(h[id])
    ensures forall n :: Offers(b.methods, n) <==> Offering(h, reg, h[id].bases[k], n)
    ensures BaseStep(h, reg, id, k)[id] == Absorb(c1, h[id].bases[k], b)
  {
    var bn := h[id].bases[k];
    var c := h[id];
    c1 := c.(res := Some(c.res.value.(chain := c.res.value.chain + [bn])));
    match Get(reg, bn)
    case Some(bid) =>
      assert bid < |h|;
      var h1 := h[id := c1];
      PendingUpdate(h, id, h1[id]);
      assert HeapOk(h1, reg);
      var resolves := h1[bid].res.None? && !Trivial(h1[bid].bases);
      var h2 := if resolves then Resolve(h1, reg, bid) else h1;
      assert h2[id] == h1[id] by {
        if resolves {
          ResolveOk(h1, reg, bid);
          assert id != bid && id !in Pending(h1);
        }
      }
      b := h2[bid];
      assert BaseStep(h, reg, id, k) == h2[id := Absorb(h2[id], bn, b)];
      assert SameMethods(h[bid].methods, b.methods) by {
        if resolves {
          ResolveOk(h1, reg, bid);
        } else {
          assert forall i :: 0 <= i < |h[bid].methods| ==> h[bid].methods[i] == h[bid].methods[i].(overrides := h[bid].methods[i].overrides);
        }
      }
      forall n
        ensures Offers(b.methods, n) <==> Offering(h, reg, bn, n)
      {
        SameMethodsOffers(h[bid].methods, b.methods, n);
      }
  }

  /** A base listed twice in the chain: the second declared base, already
      in the chain through the first. */
  lemma BaseStepRepeats(h: Heap, reg: Registry, id: nat, k: nat)
    requires ValidRegistry(h, reg) && id < |h| && h[id].res.Some? && k < |h[id].bases| && HeapOk(h, reg)
    requires HasKey(reg, h[id].bases[k]) && h[id].bases[k] in h[id].res.value.chain
    ensures var r := BaseStep(h, reg, id, k)[id].res.value.chain;
            exists i, j :: 0 <= i < j < |r| && r[i] == r[j] == h[id].bases[k]
  {
    BaseStepChain(h, reg, id, k);
    var ch := h[id].res.value.chain;
    var r := BaseStep(h, reg, id, k)[id].res.value.chain;
    var i :| 0 <= i < |ch| && ch[i] == h[id].bases[k];
    assert r[i] == (ch + [h[id].bases[k]])[i];
    assert r[|ch|] == (ch + [h[id].bases[k]])[|ch|];
  }

  lemma {:induction false} InheritOwnKeepsChain(c: ClassRecord, bn: string, ms: seq<FunctionRecord>)
    requires c.res.Some?
    ensures InheritOwn(c, bn, ms).res.value.chain == c.res.value.chain
    decreases |ms|
  {
    if ms != [] {
      InheritOwnKeepsChain(InheritOwnOne(c, bn, ms[0]), bn, ms[1..]);
    }
  }

  lemma {:induction false} InheritListKeepsChain(c: ClassRecord, anc: string, ms: seq<FunctionRecord>)
    requires c.res.Some?
    ensures InheritList(c, anc, ms).res.value.chain == c.res.value.chain
    decreases |ms|
  {
    if ms != [] {
      InheritListKeepsChain(InheritAncestorOne(c, anc, ms[0]), anc, ms[1..]);
    }
  }

  lemma {:induction false} InheritAncestorsKeepsChain(c: ClassRecord, items: Dict<seq<FunctionRecord>>)
    requires c.res.Some?
    ensures InheritAncestors(c, items).res.value.chain == c.res.value.chain
    decreases |items|
  {
    if items != [] {
      var (anc, ms) := items[0];
      var c' := WithInherited(c, PutIfAbsent(Inherited(c), anc, []));
      InheritListKeepsChain(c', anc, ms);
      InheritAncestorsKeepsChain(InheritList(c', anc, ms), items[1..]);
    }
  }

  /** Absorbing a base changes the chain only by extending it with the
      base's chain. */
  lemma AbsorbChain(c: ClassRecord, bn: string, b: ClassRecord)
    requires c.res.Some?
    ensures Absorb(c, bn, b).res.value.chain
         == if b.res.Some? then ExtendChain(c.res.value.chain, b.res.value.chain) else c.res.value.chain
  {
    var c3 := if b.res.Some? then c.(res := Some(c.res.value.(chain := ExtendChain(c.res.value.chain, b.res.value.chain)))) else c;
    var c4 := WithInherited(c3, PutIfAbsent(Inherited(c3), bn, []));
    InheritOwnKeepsChain(c4, bn, b.methods);
    if b.res.Some? {
      InheritAncestorsKeepsChain(InheritOwn(c4, bn, b.methods), b.res.value.inherited);
    }
  }

  // ---------------------------------------------------------------------
  // Overrides and inherited lists over the whole bases loop

  /** `bn` is a registered class one of whose own methods, not a skipped
      special method, is called `name`. */
  predicate Offering(h: Heap, reg: Registry, bn: string, name: string) {
    match Get(reg, bn)
    case Some(bid) => bid < |h| && Offers(h[bid].methods, name)
    case None => false
  }

  lemma SameMethodsOffers(ms: seq<FunctionRecord>, ms': seq<FunctionRecord>, name: string)
    requires SameMethods(ms, ms')
    ensures Offers(ms', name) <==> Offers(ms, name)
  {
    if Offers(ms, name) {
      var k :| 0 <= k < |ms| && !Skipped(ms[k]) && ms[k].name == name;
      assert ms'[k].name == ms[k].name && ms'[k].flags == ms[k].flags;
    }
    if Offers(ms', name) {
      var k :| 0 <= k < |ms'| && !Skipped(ms'[k]) && ms'[k].name == name;
      assert ms'[k].name == ms[k].name && ms'[k].flags == ms[k].flags;
    }
  }

  /** Resolution changes no class's own methods but their tags, so which
      bases offer a name stays the same. */
  lemma OfferingReshaped(h: Heap, h': Heap, reg: Registry, bn: string, name: string)
    requires |h'| == |h| && forall i :: 0 <= i < |h| ==> Reshaped(h[i], h'[i])
    ensures Offering(h', reg, bn, name) <==> Offering(h, reg, bn, name)
  {
    match Get(reg, bn)
    case Some(bid) =>
      if bid < |h| {
        SameMethodsOffers(h[bid].methods, h'[bid].methods, name);
      }
    case None =>
  }

  /** Absorbing a base tags the class's last method of each name the base
      offers, and leaves every other tag alone. */
  lemma AbsorbOverrides(c: ClassRecord, bn: string, b: ClassRecord, i: int)
    requires c.res.Some? && 0 <= i < |c.methods|
    ensures var n := c.methods[i].name;
            Absorb(c, bn, b).methods[i].overrides
              == if IsLastNamed(c.methods, i, n) && Offers(b.methods, n) then Some(bn + "." + n) else c.methods[i].overrides
  {
    var c3 := if b.res.Some? then c.(res := Some(c.res.value.(chain := ExtendChain(c.res.value.chain, b.res.value.chain)))) else c;
    var c4 := WithInherited(c3, PutIfAbsent(Inherited(c3), bn, []));
    assert c4.methods == c.methods;
    InheritOwnTags(c4, bn, b.methods, i);
    if b.res.Some? {
      InheritAncestorsKeepsMethods(InheritOwn(c4, bn, b.methods), b.res.value.inherited);
    }
  }

  lemma BaseStepOverrides(h: Heap, reg: Registry, id: nat, k: nat, i: int)
    requires ValidRegistry(h, reg) && id < |h| && h[id].res.Some? && k < |h[id].bases| && HeapOk(h, reg)
    requires 0 <= i < |h[id].methods|
    ensures var ms := BaseStep(h, reg, id, k)[id].methods;
            var n := h[id].methods[i].name;
            && |ms| == |h[id].methods|
            && ms[i].overrides == if IsLastNamed(h[id].methods, i, n) && Offering(h, reg, h[id].bases[k], n)
                                  then Some(h[id].bases[k] + "." + n) else h[id].methods[i].overrides
  {
    if HasKey(reg, h[id].bases[k]) {
      var c1, b := BaseStepAbsorbs(h, reg, id, k);
      AbsorbOverrides(c1, h[id].bases[k], b, i);
    } else {
      assert BaseStep(h, reg, id, k) == h;
    }
  }

  /** Whether each base offers `name`, in declared order. */
  function Offerings(h: Heap, reg: Registry, bases: seq<string>, name: string): (os: seq<bool>)
    ensures |os| == |bases|
    ensures forall j :: 0 <= j < |bases| ==> os[j] == Offering(h, reg, bases[j], name)
  {
    seq(|bases|, j requires 0 <= j < |bases| => Offering(h, reg, bases[j], name))
  }

  lemma OfferingsReshaped(h: Heap, h': Heap, reg: Registry, bases: seq<string>, name: string)
    requires |h'| == |h| && forall i :: 0 <= i < |h| ==> Reshaped(h[i], h'[i])
    ensures Offerings(h', reg, bases, name) == Offerings(h, reg, bases, name)
  {
    forall j | 0 <= j < |bases|
      ensures Offering(h', reg, bases[j], name) <==> Offering(h, reg, bases[j], name)
    {
      OfferingReshaped(h, h', reg, bases[j], name);
    }
  }

  /** The tag after the bases from the `k`-th on, starting from `t`: each
      base that offers the name sets it anew. */
  function TagAfter(offers: seq<bool>, bases: seq<string>, k: nat, name: string, t: Option<string>): Option<string>
    requires |offers| == |bases| && k <= |bases|
    decreases |bases| - k
  {
    if k == |bases| then t
    else TagAfter(offers, bases, k + 1, name, if offers[k] then Some(bases[k] + "." + name) else t)
  }

  /** The last offering base decides the tag; with none, it stays. */
  lemma {:induction false} TagAfterLast(offers: seq<bool>, bases: seq<string>, k: nat, name: string, t: Option<string>)
    requires |offers| == |bases| && k <= |bases|
    ensures forall j :: k <= j < |bases| && offers[j] && (forall j' :: j < j' < |bases| ==> !offers[j'])
              ==> TagAfter(offers, bases, k, name, t) == Some(bases[j] + "." + name)
    ensures (forall j :: k <= j < |bases| ==> !offers[j]) ==> TagAfter(offers, bases, k, name, t) == t
    decreases |bases| - k
  {
    if k < |bases| {
      var t' := if offers[k] then Some(bases[k] + "." + name) else t;
      TagAfterLast(offers, bases, k + 1, name, t');
    }
  }

  /** Over the bases from the `k`-th on, each registered base whose own
      methods offer the name sets the tag of the class's last method of
      that name anew. */
  lemma {:induction false} ResolveBasesOverrides(h: Heap, reg: Registry, id: nat, k: nat, i: int)
    requires ValidRegistry(h, reg) && id < |h| && h[id].res.Some? && k <= |h[id].bases| && HeapOk(h, reg)
    requires 0 <= i < |h[id].methods|
    ensures var ms := ResolveBases(h, reg, id, k)[id].methods;
            var n := h[id].methods[i].name;
            var t := h[id].methods[i].overrides;
            && |ms| == |h[id].methods|
            && ms[i].overrides == if IsLastNamed(h[id].methods, i, n)
                                  then TagAfter(Offerings(h, reg, h[id].bases, n), h[id].bases, k, n, t) else t
    decreases |h[id].bases| - k
  {
    if k < |h[id].bases| {
      var n := h[id].methods[i].name;
      BaseStepOk(h, reg, id, k);
      var h3 := BaseStep(h, reg, id, k);
      BaseStepOverrides(h, reg, id, k, i);
      ResolveBasesOverrides(h3, reg, id, k + 1, i);
      assert ResolveBases(h, reg, id, k) == ResolveBases(h3, reg, id, k + 1);
      SameMethodsLastNamed(h[id].methods, h3[id].methods, i, n);
      assert h3[id].methods[i].name == n && h3[id].bases == h[id].bases;
      OfferingsReshaped(h, h3, reg, h[id].bases, n);
    } else {
      assert forall x :: 0 <= x < |h[id].methods| ==> h[id].methods[x] == h[id].methods[x].(overrides := h[id].methods[x].overrides);
    }
  }

  /** Resolving a class runs the tag of each method through every base. */
  lemma ResolveTag(h: Heap, reg: Registry, id: nat, i: int)
    requires ValidRegistry(h, reg) && id < |h| && HeapOk(h, reg)
    requires 0 <= i < |h[id].methods|
    ensures var ms := Resolve(h, reg, id)[id].methods;
            var n := h[id].methods[i].name;
            var t := h[id].methods[i].overrides;
            && |ms| == |h[id].methods|
            && ms[i].overrides == if !Trivial(h[id].bases) && IsLastNamed(h[id].methods, i, n)
                                  then TagAfter(Offerings(h, reg, h[id].bases, n), h[id].bases, 0, n, t) else t
  {
    var c := h[id];
    var n := c.methods[i].name;
    ResolveOk(h, reg, id);
    if !Trivial(c.bases) {
      var h1 := h[id := c.(res := Some(Resolution([], [])))];
      PendingUpdate(h, id, h1[id]);
      assert HeapOk(h1, reg);
      ResolveBasesOverrides(h1, reg, id, 0, i);
      assert forall x :: 0 <= x < |h| ==> SameMethods(h[x].methods, h1[x].methods);
      OfferingsReshaped(h, h1, reg, c.bases, n);
    }
  }

  /** The `overrides` tag a class's method ends up with: when it is the
      last method of its name (the one `defined_methods` holds) and some
      registered base declares a method of that name, the tag names the
      last such base in the declared order, each later base overwriting
      the tag an earlier one set; otherwise the tag is left alone. */
  lemma ResolveOverrides(h: Heap, reg: Registry, id: nat, i: int)
    requires ValidRegistry(h, reg) && id < |h| && HeapOk(h, reg)
    requires 0 <= i < |h[id].methods|
    ensures var ms := Resolve(h, reg, id)[id].methods;
            var n := h[id].methods[i].name;
            var bases := h[id].bases;
            && |ms| == |h[id].methods|
            && (forall j :: 0 <= j < |bases| && !Trivial(bases) && IsLastNamed(h[id].methods, i, n) && Offering(h, reg, bases[j], n)
                  && (forall j' :: j < j' < |bases| ==> !Offering(h, reg, bases[j'], n))
                  ==> ms[i].overrides == Some(bases[j] + "." + n))
            && (!IsLastNamed(h[id].methods, i, n) ==> ms[i].overrides == h[id].methods[i].overrides)
            && ((forall j :: 0 <= j < |bases| ==> !Offering(h, reg, bases[j], n)) ==> ms[i].overrides == h[id].methods[i].overrides)
  {
    var c := h[id];
    var n := c.methods[i].name;
    ResolveTag(h, reg, id, i);
    TagAfterLast(Offerings(h, reg, c.bases, n), c.bases, 0, n, c.methods[i].overrides);
  }

  lemma GrowsTrans(a: Dict<seq<FunctionRecord>>, b: Dict<seq<FunctionRecord>>, c: Dict<seq<FunctionRecord>>)
    requires Grows(a, b) && Grows(b, c)
    ensures Grows(a, c)
  {
  }

  /** A name listed under a key stays listed as lists grow. */
  lemma GrowsNames(d: Dict<seq<FunctionRecord>>, d': Dict<seq<FunctionRecord>>, k: string, n: string)
    requires Grows(d, d') && n in Names(Listed(d, k))
    ensures n in Names(Listed(d', k))
  {
    var t :| 0 <= t < |Listed(d, k)| && Listed(d, k)[t].name == n;
    assert Listed(d, k)[t] in Listed(d', k);
    var t' :| 0 <= t' < |Listed(d', k)| && Listed(d', k)[t'] == Listed(d, k)[t];
  }

  lemma AbsorbGrows(c: ClassRecord, bn: string, b: ClassRecord)
    requires c.res.Some?
    ensures Grows(Inherited(c), Inherited(Absorb(c, bn, b)))
  {
    var c3 := if b.res.Some? then c.(res := Some(c.res.value.(chain := ExtendChain(c.res.value.chain, b.res.value.chain)))) else c;
    var c4 := WithInherited(c3, PutIfAbsent(Inherited(c3), bn, []));
    PutIfAbsentGrows(Inherited(c3), bn);
    InheritOwnGrows(c4, bn, b.methods);
    GrowsTrans(Inherited(c), Inherited(c4), Inherited(InheritOwn(c4, bn, b.methods)));
    if b.res.Some? {
      var c5 := InheritOwn(c4, bn, b.methods);
      InheritAncestorsGrows(c5, b.res.value.inherited);
      GrowsTrans(Inherited(c), Inherited(c5), Inherited(InheritAncestors(c5, b.res.value.inherited)));
    }
  }

  /** One base: its offered names the class does not define are listed
      under it, and no list loses anything. */
  lemma BaseStepFiles(h: Heap, reg: Registry, id: nat, k: nat, n: string)
    requires ValidRegistry(h, reg) && id < |h| && h[id].res.Some? && k < |h[id].bases| && HeapOk(h, reg)
    ensures Grows(Inherited(h[id]), Inherited(BaseStep(h, reg, id, k)[id]))
    ensures Offering(h, reg, h[id].bases[k], n) && n !in Names(h[id].methods)
            ==> n in Names(Listed(Inherited(BaseStep(h, reg, id, k)[id]), h[id].bases[k]))
  {
    var bn := h[id].bases[k];
    if HasKey(reg, bn) {
      var c1, b := BaseStepAbsorbs(h, reg, id, k);
      AbsorbGrows(c1, bn, b);
      if Offering(h, reg, bn, n) && n !in Names(h[id].methods) {
        AbsorbFiles(c1, bn, b);
        var t :| 0 <= t < |b.methods| && !Skipped(b.methods[t]) && b.methods[t].name == n;
        var l := Listed(Inherited(Absorb(c1, bn, b)), bn);
        assert Copy(b.methods[t], bn) in l;
        var u :| 0 <= u < |l| && l[u] == Copy(b.methods[t], bn);
        assert l[u].name == n;
      }
    } else {
      assert BaseStep(h, reg, id, k) == h;
    }
  }

  lemma {:induction false} ResolveBasesFiles(h: Heap, reg: Registry, id: nat, k: nat, n: string)
    requires ValidRegistry(h, reg) && id < |h| && h[id].res.Some? && k <= |h[id].bases| && HeapOk(h, reg)
    ensures var r := ResolveBases(h, reg, id, k);
            Grows(Inherited(h[id]), Inherited(r[id]))
    ensures var r := ResolveBases(h, reg, id, k);
            var bases := h[id].bases;
            forall j :: k <= j < |bases| && Offering(h, reg, bases[j], n) && n !in Names(h[id].methods)
              ==> n in Names(Listed(Inherited(r[id]), bases[j]))
    decreases |h[id].bases| - k
  {
    if k < |h[id].bases| {
      var bases := h[id].bases;
      BaseStepOk(h, reg, id, k);
      var h3 := BaseStep(h, reg, id, k);
      var r := ResolveBases(h3, reg, id, k + 1);
      assert ResolveBases(h, reg, id, k) == r;
      BaseStepFiles(h, reg, id, k, n);
      ResolveBasesFiles(h3, reg, id, k + 1, n);
      GrowsTrans(Inherited(h[id]), Inherited(h3[id]), Inherited(r[id]));
      SameMethodsNames(h[id].methods, h3[id].methods);
      assert h3[id].bases == bases;
      forall j | k <= j < |bases| && Offering(h, reg, bases[j], n) && n !in Names(h[id].methods)
        ensures n in Names(Listed(Inherited(r[id]), bases[j]))
      {
        OfferingReshaped(h, h3, reg, bases[j], n);
        if j == k {
          GrowsNames(Inherited(h3[id]), Inherited(r[id]), bases[k], n);
        }
      }
    }
  }

  /** Every registered base that declares a method the class does not
      define has that name listed under it once resolution is done, so a
      name declared by two bases is listed under both. */
  lemma ResolveFiles(h: Heap, reg: Registry, id: nat, n: string)
    requires ValidRegistry(h, reg) && id < |h| && HeapOk(h, reg)
    ensures var r := Resolve(h, reg, id);
            var bases := h[id].bases;
            forall j :: 0 <= j < |bases| && !Trivial(bases) && Offering(h, reg, bases[j], n) && n !in Names(h[id].methods)
              ==> n in Names(Listed(Inherited(r[id]), bases[j]))
  {
    var c := h[id];
    if !Trivial(c.bases) {
      var h1 := h[id := c.(res := Some(Resolution([], [])))];
      PendingUpdate(h, id, h1[id]);
      assert HeapOk(h1, reg);
      ResolveBasesFiles(h1, reg, id, 0, n);
      assert forall x :: 0 <= x < |h| ==> SameMethods(h[x].methods, h1[x].methods);
      forall bn: string
        ensures Offering(h1, reg, bn, n) <==> Offering(h, reg, bn, n)
      {
        OfferingReshaped(h, h1, reg, bn, n);
      }
    }
  }
}
