/** Small shared vocabulary: an optional value and an insertion-ordered
    dictionary, the two Python containers every component of the
    documentation generator leans on. */
module Common {

  datatype Option<+T> = None | Some(value: T)

  /** A Python `dict` with string keys and its insertion order: a sequence
      of key/value pairs. Assigning to a key that is already present
      replaces the value in place and keeps the key's original position. */
  type Dict<V> = seq<(string, V)>

  function Keys<V>(d: Dict<V>): (ks: seq<string>)
    ensures |ks| == |d|
    ensures forall i :: 0 <= i < |d| ==> ks[i] == d[i].0
  {
    seq(|d|, i requires 0 <= i < |d| => d[i].0)
  }

  predicate UniqueKeys<V>(d: Dict<V>) {
    forall i, j :: 0 <= i < j < |d| ==> d[i].0 != d[j].0
  }

  predicate HasKey<V>(d: Dict<V>, k: string) {
    exists i :: 0 <= i < |d| && d[i].0 == k
  }

  /** Position of the first entry stored under `k`. */
  function FindKey<V>(d: Dict<V>, k: string): (r: Option<nat>)
    ensures r.Some? ==> r.value < |d| && d[r.value].0 == k
    ensures r.Some? ==> forall j :: 0 <= j < r.value ==> d[j].0 != k
    ensures r.None? <==> !HasKey(d, k)
  {
    if d == [] then None
    else if d[0].0 == k then Some(0)
    else match FindKey(d[1..], k)
      case None =>
        assert forall j :: 1 <= j < |d| ==> d[1..][j - 1].0 == d[j].0;
        None
      case Some(i) => Some(i + 1)
  }

  /** The first entry under `k` is at `i`. */
  lemma FindKeyAt<V>(d: Dict<V>, k: string, i: nat)
    requires i < |d| && d[i].0 == k
    requires forall j :: 0 <= j < i ==> d[j].0 != k
    ensures FindKey(d, k) == Some(i)
  {
    var r := FindKey(d, k);
    assert r.Some?;
  }

  /** `d.get(k)` */
  function Get<V>(d: Dict<V>, k: string): (r: Option<V>)
    ensures r.None? <==> !HasKey(d, k)
    ensures r.Some? ==> exists i :: 0 <= i < |d| && d[i] == (k, r.value)
  {
    match FindKey(d, k)
    case None => None
    case Some(i) => Some(d[i].1)
  }

  /** `d[k] = v` */
  function Put<V>(d: Dict<V>, k: string, v: V): (r: Dict<V>)
    ensures HasKey(r, k)
    ensures HasKey(d, k) ==> Keys(r) == Keys(d)
    ensures !HasKey(d, k) ==> r == d + [(k, v)]
  {
    match FindKey(d, k)
    case None =>
      assert (d + [(k, v)])[|d|].0 == k;
      d + [(k, v)]
    case Some(i) =>
      assert d[i := (k, v)][i].0 == k;
      d[i := (k, v)]
  }

  /** After `d[k] = v`, looking `k` up yields `v`, and every other key
      keeps its value. */
  lemma PutGet<V>(d: Dict<V>, k: string, v: V, k': string)
    ensures Get(Put(d, k, v), k') == if k' == k then Some(v) else Get(d, k')
  {
    match FindKey(d, k)
    case None =>
      assert Put(d, k, v) == d + [(k, v)];
      if k' == k {
        FindKeyAt(d + [(k, v)], k, |d|);
      } else {
        FindKeyAppend(d, k, v, k');
      }
    case Some(i) =>
      assert Put(d, k, v) == d[i := (k, v)];
      FindKeyReplace(d, k, v, k', i);
  }

  /** Appending an entry under `k` leaves the lookup of any other key as
      it was. */
  lemma FindKeyAppend<V>(d: Dict<V>, k: string, v: V, k': string)
    requires k' != k
    ensures FindKey(d + [(k, v)], k') == FindKey(d, k')
  {
    var r := d + [(k, v)];
    match FindKey(d, k')
    case None =>
      forall j | 0 <= j < |r|
        ensures r[j].0 != k'
      {
        if j < |d| { assert r[j] == d[j]; }
      }
    case Some(j) =>
      assert r[j] == d[j];
      FindKeyAt(r, k', j);
  }

  /** Overwriting the first entry under `k` keeps every key's first
      position. */
  lemma FindKeyReplace<V>(d: Dict<V>, k: string, v: V, k': string, i: nat)
    requires FindKey(d, k) == Some(i)
    ensures FindKey(d[i := (k, v)], k') == FindKey(d, k')
    ensures k' == k ==> FindKey(d[i := (k, v)], k') == Some(i)
  {
    var r := d[i := (k, v)];
    assert forall j :: 0 <= j < |d| ==> r[j].0 == d[j].0;
    match FindKey(d, k')
    case None =>
      assert !HasKey(r, k');
    case Some(j) =>
      FindKeyAt(r, k', j);
  }

  /** Every entry after `d[k] = v` is the new pair or an entry of `d`. */
  lemma PutEntries<V>(d: Dict<V>, k: string, v: V)
    ensures |Put(d, k, v)| >= |d|
    ensures forall j :: 0 <= j < |Put(d, k, v)| ==> Put(d, k, v)[j] == (k, v) || (j < |d| && Put(d, k, v)[j] == d[j])
  {
  }

  /** `d[k] = v` never introduces a duplicate key. */
  lemma PutUnique<V>(d: Dict<V>, k: string, v: V)
    requires UniqueKeys(d)
    ensures UniqueKeys(Put(d, k, v))
  {
  }

  /** `set(d.keys())` */
  function KeySet<V>(d: Dict<V>): set<string> {
    set k | k in Keys(d)
  }

  lemma KeySetHas<V>(d: Dict<V>, k: string)
    ensures k in KeySet(d) <==> HasKey(d, k)
  {
    if HasKey(d, k) {
      var i :| 0 <= i < |d| && d[i].0 == k;
      assert Keys(d)[i] == k;
    }
  }

  /** `d[k] = v` adds `k` to the key set and nothing else. */
  lemma {:induction false} PutKeySet<V>(d: Dict<V>, k: string, v: V)
    ensures KeySet(Put(d, k, v)) == KeySet(d) + {k}
  {
    KeySetHas(d, k);
    if !HasKey(d, k) {
      assert Keys(d + [(k, v)]) == Keys(d) + [k];
    }
  }

  /** `if k not in d: d[k] = default` */
  function PutIfAbsent<V>(d: Dict<V>, k: string, v: V): (r: Dict<V>)
    ensures HasKey(r, k)
    ensures HasKey(d, k) ==> r == d
    ensures !HasKey(d, k) ==> r == d + [(k, v)]
  {
    if HasKey(d, k) then d
    else
      assert (d + [(k, v)])[|d|].0 == k;
      d + [(k, v)]
  }

  function Last<T>(s: seq<T>): T
    requires |s| > 0
  {
    s[|s| - 1]
  }

  /** Concatenation is associative; stated once, as a step the solver
      otherwise rebuilds element by element. */
  lemma AppendAssoc<T>(a: seq<T>, b: seq<T>, c: seq<T>)
    ensures a + (b + c) == (a + b) + c
  {
  }
}
