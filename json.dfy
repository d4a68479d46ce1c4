/** The YAML/JSON document tree that a safe YAML loader produces, with the
    operations of an insertion-ordered Python dict on its mappings, and
    navigation along paths of mapping keys. */
module Json {

  datatype Option<+T> = None | Some(value: T)

  /** A loaded YAML value. Scalars are opaque leaves (floats are not modelled);
      a mapping keeps its keys in insertion order, as a Python dict does. */
  datatype Json =
    | Null
    | Bool(b: bool)
    | Int(i: int)
    | Str(s: string)
    | Arr(items: seq<Json>)
    | Obj(fields: seq<Field>)

  /** One key/value entry of a mapping. */
  datatype Field = Field(key: string, val: Json)

  /** The keys of a mapping in order, as `list(d.keys())`. */
  function Keys(fs: seq<Field>): (ks: seq<string>)
    ensures |ks| == |fs|
    ensures forall i :: 0 <= i < |fs| ==> ks[i] == fs[i].key
  {
    seq(|fs|, i requires 0 <= i < |fs| => fs[i].key)
  }

  /** No key occurs twice: no entry's key is among the keys before it. */
  predicate DistinctKeys(fs: seq<Field>) {
    forall i :: 0 <= i < |fs| ==> fs[i].key !in Keys(fs[..i])
  }

  /** Every mapping reachable in the tree, through mappings and lists, has
      pairwise distinct keys: the representation invariant of a Python dict. */
  predicate WellFormed(j: Json) {
    match j
    case Obj(fs) => DistinctKeys(fs) && forall i :: 0 <= i < |fs| ==> WellFormed(fs[i].val)
    case Arr(items) => forall i :: 0 <= i < |items| ==> WellFormed(items[i])
    case _ => true
  }

  /** The keys of `ks` that satisfy `keep`, in their original order. */
  function Filter(ks: seq<string>, keep: string -> bool): (r: seq<string>)
    ensures forall k :: k in r <==> k in ks && keep(k)
    ensures |r| <= |ks|
  {
    if ks == [] then []
    else Filter(ks[..|ks| - 1], keep) + (if keep(ks[|ks| - 1]) then [ks[|ks| - 1]] else [])
  }

  /** Filtering a sequence with one more element at its end. */
  lemma FilterSnoc(ks: seq<string>, k: string, keep: string -> bool)
    ensures Filter(ks + [k], keep) == Filter(ks, keep) + (if keep(k) then [k] else [])
  {
    assert (ks + [k])[..|ks|] == ks;
  }

  /** The position of the first entry with key `k`, or `|fs|` when there is none. */
  function IndexOf(fs: seq<Field>, k: string): (i: nat)
    ensures i <= |fs|
    ensures i < |fs| ==> fs[i].key == k
    ensures forall j :: 0 <= j < i ==> fs[j].key != k
  {
    if fs == [] then 0
    else if fs[0].key == k then 0
    else 1 + IndexOf(fs[1..], k)
  }

  /** `d[k]` when `k in d`. */
  function Lookup(fs: seq<Field>, k: string): (r: Option<Json>)
    ensures r.Some? <==> k in Keys(fs)
  {
    var i := IndexOf(fs, k);
    if i < |fs| then Some(fs[i].val)
    else
      assert forall j :: 0 <= j < |fs| ==> Keys(fs)[j] != k;
      None
  }

  /** `del d[k]` on a present key. The function is total: on a missing key,
      where Python raises `KeyError`, it returns the mapping as it is. The
      pruners only delete snapshot keys that are still present, so they never
      take that case. */
  function Delete(fs: seq<Field>, k: string): (r: seq<Field>)
    ensures k in Keys(fs) ==> |r| == |fs| - 1
    ensures k !in Keys(fs) ==> r == fs
  {
    var i := IndexOf(fs, k);
    if i < |fs| then fs[..i] + fs[i + 1..] else fs
  }

  /** `d[k] = v`: an existing key keeps its position, a new key goes last. */
  function Assign(fs: seq<Field>, k: string, v: Json): (r: seq<Field>)
    ensures k in Keys(r)
    ensures Keys(fs) <= Keys(r)
  {
    var i := IndexOf(fs, k);
    if i < |fs| then
      var r := fs[i := Field(k, v)];
      assert Keys(r) == Keys(fs);
      r
    else
      var r := fs + [Field(k, v)];
      assert Keys(r)[|fs|] == k;
      r
  }

  /** `j[k]` for a mapping `j` that has the key `k`; nothing otherwise. */
  function Get(j: Json, k: string): (r: Option<Json>)
    ensures r.Some? ==> j.Obj? && k in Keys(j.fields)
  {
    if j.Obj? then Lookup(j.fields, k) else None
  }

  /** `j[p0][p1]...`, descending through mappings only; nothing when some key
      is missing or some step is not a mapping. */
  function At(j: Json, path: seq<string>): (r: Option<Json>)
    ensures r.Some? && path != [] ==> j.Obj? && path[0] in Keys(j.fields)
    decreases |path|
  {
    if path == [] then Some(j)
    else match Get(j, path[0])
      case None => None
      case Some(c) => At(c, path[1..])
  }

  /** `j[p0]...[pn] = v` at a path that exists. The function is total: at a
      path that does not exist, where Python raises `KeyError` on a missing
      inner key or creates a missing last key, it returns `j` as it is. The
      dispatch reads each path before it writes there, so it never takes that
      case. */
  function PutAt(j: Json, path: seq<string>, v: Json): (r: Json)
    ensures At(j, path).None? ==> r == j
    decreases |path|
  {
    if path == [] then v
    else match Get(j, path[0])
      case None => j
      case Some(c) =>
        AssignExisting(j.fields, path[0], c);
        Obj(Assign(j.fields, path[0], PutAt(c, path[1..], v)))
  }

  /** Two paths that part ways: neither is a prefix of the other. */
  predicate Diverges(p: seq<string>, q: seq<string>) {
    exists i :: 0 <= i < |p| && i < |q| && p[i] != q[i] && p[..i] == q[..i]
  }

  // ---------------------------------------------------------------------
  // Dict operations at a known position

  /** The first entry with key `k` is the one at position `i`. */
  lemma IndexOfIs(fs: seq<Field>, k: string, i: nat)
    requires i <= |fs| && (i < |fs| ==> fs[i].key == k)
    requires forall j :: 0 <= j < i ==> fs[j].key != k
    ensures IndexOf(fs, k) == i
  {
  }

  /** A mapping whose tail starts at entry `i`, with that entry split off. */
  lemma SuffixSplit(p: seq<Field>, fs: seq<Field>, i: nat)
    requires i < |fs|
    ensures p + fs[i..] == p + [fs[i]] + fs[i + 1..]
  {
    assert fs[i..] == [fs[i]] + fs[i + 1..];
  }

  /** The entry of a key that is not among the earlier keys is the one found. */
  lemma EntryIndex(p: seq<Field>, f: Field, s: seq<Field>)
    requires f.key !in Keys(p)
    ensures IndexOf(p + [f] + s, f.key) == |p|
    ensures Lookup(p + [f] + s, f.key) == Some(f.val)
  {
    var fs := p + [f] + s;
    assert fs[|p|] == f;
    assert forall j :: 0 <= j < |p| ==> fs[j] == p[j] && Keys(p)[j] == p[j].key;
    IndexOfIs(fs, f.key, |p|);
  }

  /** Deleting a key that is not among the earlier keys removes exactly its entry. */
  lemma EntryDelete(p: seq<Field>, f: Field, s: seq<Field>)
    requires f.key !in Keys(p)
    ensures Delete(p + [f] + s, f.key) == p + s
  {
    var fs := p + [f] + s;
    EntryIndex(p, f, s);
    assert fs[..|p|] == p;
    assert fs[|p| + 1..] == s;
  }

  /** Assigning a key that is not among the earlier keys replaces exactly its
      entry's value. */
  lemma EntryAssign(p: seq<Field>, f: Field, s: seq<Field>, v: Json)
    requires f.key !in Keys(p)
    ensures Assign(p + [f] + s, f.key, v) == p + [Field(f.key, v)] + s
  {
    EntryIndex(p, f, s);
  }

  lemma LookupAssign(fs: seq<Field>, k: string, v: Json, k': string)
    ensures Lookup(Assign(fs, k, v), k') == if k' == k then Some(v) else Lookup(fs, k')
  {
    var i := IndexOf(fs, k);
    var r := Assign(fs, k, v);
    var j := IndexOf(fs, k');
    if i < |fs| {
      assert forall m :: 0 <= m < |fs| ==> r[m].key == fs[m].key;
      IndexOfIs(r, k', j);
    } else if k' == k {
      IndexOfIs(r, k', |fs|);
    } else if j < |fs| {
      IndexOfIs(r, k', j);
    } else {
      IndexOfIs(r, k', |r|);
    }
  }

  lemma LookupConcat(a: seq<Field>, b: seq<Field>, k: string)
    ensures Lookup(a + b, k) == if k in Keys(a) then Lookup(a, k) else Lookup(b, k)
  {
    var fs := a + b;
    var i := IndexOf(a, k);
    if i < |a| {
      assert forall m :: 0 <= m <= i ==> fs[m] == a[m];
      IndexOfIs(fs, k, i);
    } else {
      var j := IndexOf(b, k);
      assert forall m :: 0 <= m < |a| ==> fs[m] == a[m];
      assert forall m :: |a| <= m < |fs| ==> fs[m] == b[m - |a|];
      IndexOfIs(fs, k, |a| + j);
    }
  }

  /** Looking a key up in a mapping with one more entry at its end. */
  lemma LookupSnoc(a: seq<Field>, f: Field, k: string)
    ensures Lookup(a + [f], k) ==
      if k in Keys(a) then Lookup(a, k) else if k == f.key then Some(f.val) else None
  {
    LookupConcat(a, [f], k);
    assert Keys([f]) == [f.key];
  }

  /** Looking a key up in a non-empty mapping, entry by entry from the back. */
  lemma LookupLast(fs: seq<Field>, k: string)
    requires fs != []
    ensures Lookup(fs, k) ==
      if k in Keys(fs[..|fs| - 1]) then Lookup(fs[..|fs| - 1], k)
      else if k == fs[|fs| - 1].key then Some(fs[|fs| - 1].val) else None
  {
    assert fs == fs[..|fs| - 1] + [fs[|fs| - 1]];
    LookupSnoc(fs[..|fs| - 1], fs[|fs| - 1], k);
  }

  /** In a mapping with distinct keys, the keys before an entry all differ from its key. */
  lemma DistinctBefore(fs: seq<Field>, m: nat)
    requires DistinctKeys(fs) && m < |fs|
    ensures forall j :: 0 <= j < m ==> fs[j].key != fs[m].key
  {
    assert forall j :: 0 <= j < m ==> Keys(fs[..m])[j] == fs[j].key;
  }

  /** In a mapping with distinct keys, each key finds its own entry. */
  lemma LookupDistinct(fs: seq<Field>, m: nat)
    requires DistinctKeys(fs) && m < |fs|
    ensures Lookup(fs, fs[m].key) == Some(fs[m].val)
  {
    DistinctBefore(fs, m);
    IndexOfIs(fs, fs[m].key, m);
  }

  /** A prefix of a mapping with distinct keys has distinct keys. */
  lemma DistinctPrefix(fs: seq<Field>, n: nat)
    requires DistinctKeys(fs) && n <= |fs|
    ensures DistinctKeys(fs[..n])
  {
    forall i | 0 <= i < n ensures fs[..n][i].key !in Keys(fs[..n][..i]) {
      assert fs[..n][..i] == fs[..i];
    }
  }

  /** The keys of two mappings laid end to end. */
  lemma KeysConcat(a: seq<Field>, b: seq<Field>)
    ensures Keys(a + b) == Keys(a) + Keys(b)
  {
    assert forall m :: 0 <= m < |b| ==> (a + b)[|a| + m] == b[m];
  }

  /** The keys of a mapping with one more entry at its end. */
  lemma KeysSnoc(a: seq<Field>, f: Field)
    ensures Keys(a + [f]) == Keys(a) + [f.key]
  {
    KeysConcat(a, [f]);
  }

  /** Replacing one element of a well-formed list by a well-formed value
      keeps the list well formed. */
  lemma UpdateWellFormed(items: seq<Json>, i: nat, v: Json)
    requires i < |items| && WellFormed(Arr(items)) && WellFormed(v)
    ensures WellFormed(Arr(items[i := v]))
  {
    assert forall m :: 0 <= m < |items| ==> items[i := v][m] == v || items[i := v][m] == items[m];
  }

  /** The keys of a non-empty mapping: those of all but its last entry, then the last. */
  lemma KeysLast(fs: seq<Field>)
    requires fs != []
    ensures Keys(fs) == Keys(fs[..|fs| - 1]) + [fs[|fs| - 1].key]
  {
    assert fs == fs[..|fs| - 1] + [fs[|fs| - 1]];
    KeysSnoc(fs[..|fs| - 1], fs[|fs| - 1]);
  }

  lemma DistinctAppend(a: seq<Field>, f: Field)
    requires DistinctKeys(a) && f.key !in Keys(a)
    ensures DistinctKeys(a + [f])
  {
    var r := a + [f];
    forall i | 0 <= i < |r| ensures r[i].key !in Keys(r[..i]) {
      if i < |a| {
        assert r[..i] == a[..i] && r[i] == a[i];
      } else {
        assert r[..i] == a;
      }
    }
  }

  lemma AssignExisting(fs: seq<Field>, k: string, v: Json)
    requires Lookup(fs, k) == Some(v)
    ensures Assign(fs, k, v) == fs
  {
    var i := IndexOf(fs, k);
    assert fs[i] == Field(k, v);
  }

  lemma AssignTwice(fs: seq<Field>, k: string, v: Json, w: Json)
    requires k in Keys(fs)
    ensures Assign(Assign(fs, k, v), k, w) == Assign(fs, k, w)
  {
    var i := IndexOf(fs, k);
    var r := Assign(fs, k, v);
    assert forall m :: 0 <= m < |fs| ==> r[m].key == fs[m].key;
    IndexOfIs(r, k, i);
  }

  lemma AssignDistinct(fs: seq<Field>, k: string, v: Json)
    requires DistinctKeys(fs) && k in Keys(fs)
    ensures DistinctKeys(Assign(fs, k, v))
  {
    var i := IndexOf(fs, k);
    var r := Assign(fs, k, v);
    forall m | 0 <= m < |r| ensures r[m].key !in Keys(r[..m]) {
      assert Keys(r[..m]) == Keys(fs[..m]) by {
        assert forall j :: 0 <= j < m ==> r[..m][j].key == fs[..m][j].key;
      }
    }
  }

  lemma AssignWellFormed(fs: seq<Field>, k: string, v: Json)
    requires WellFormed(Obj(fs)) && k in Keys(fs) && WellFormed(v)
    ensures WellFormed(Obj(Assign(fs, k, v)))
  {
    AssignDistinct(fs, k, v);
  }

  lemma LookupWellFormed(fs: seq<Field>, k: string)
    requires WellFormed(Obj(fs)) && k in Keys(fs)
    ensures WellFormed(Lookup(fs, k).value)
  {
    assert fs[IndexOf(fs, k)].val == Lookup(fs, k).value;
  }

  // ---------------------------------------------------------------------
  // Paths

  lemma {:induction false} AtWellFormed(j: Json, p: seq<string>)
    requires WellFormed(j) && At(j, p).Some?
    ensures WellFormed(At(j, p).value)
    decreases |p|
  {
    if p != [] {
      var c := Get(j, p[0]).value;
      LookupWellFormed(j.fields, p[0]);
      AtWellFormed(c, p[1..]);
    }
  }

  /** Writing at a path that exists keeps every mapping's keys distinct. */
  lemma {:induction false} PutAtWellFormed(j: Json, p: seq<string>, v: Json)
    requires WellFormed(j) && WellFormed(v)
    ensures WellFormed(PutAt(j, p, v))
    decreases |p|
  {
    if p != [] {
      match Get(j, p[0])
      case None =>
      case Some(c) =>
        LookupWellFormed(j.fields, p[0]);
        PutAtWellFormed(c, p[1..], v);
        AssignWellFormed(j.fields, p[0], PutAt(c, p[1..], v));
    }
  }

  /** Descending along `p + q` is descending along `p`, then along `q`. */
  lemma {:induction false} AtConcat(j: Json, p: seq<string>, q: seq<string>)
    ensures At(j, p + q) == if At(j, p).Some? then At(At(j, p).value, q) else None
    decreases |p|
  {
    if p == [] {
      assert p + q == q;
    } else {
      var pq := p + q;
      assert pq[0] == p[0] && pq[1..] == p[1..] + q;
      match Get(j, p[0])
      case None =>
      case Some(c) => AtConcat(c, p[1..], q);
    }
  }

  /** Writing `v` at an existing path puts `v` there. */
  lemma {:induction false} AtPutAtSelf(j: Json, p: seq<string>, v: Json)
    requires At(j, p).Some?
    ensures At(PutAt(j, p, v), p) == Some(v)
    decreases |p|
  {
    if p != [] {
      var k, rest := p[0], p[1..];
      var c := Get(j, k).value;
      var c' := PutAt(c, rest, v);
      assert Get(PutAt(j, p, v), k) == Some(c') by {
        LookupAssign(j.fields, k, c', k);
      }
      AtPutAtSelf(c, rest, v);
    }
  }

  /** After writing `v` at an existing path, what lies below that path is `v`'s. */
  lemma AtPutAt(j: Json, p: seq<string>, v: Json, q: seq<string>)
    requires At(j, p).Some?
    ensures At(PutAt(j, p, v), p + q) == At(v, q)
  {
    AtPutAtSelf(j, p, v);
    AtConcat(PutAt(j, p, v), p, q);
  }

  /** Writing at a path changes nothing at any path that parts from it. */
  lemma {:induction false} AtPutAtElsewhere(j: Json, p: seq<string>, v: Json, q: seq<string>)
    requires Diverges(p, q)
    ensures At(PutAt(j, p, v), q) == At(j, q)
    decreases |p|
  {
    match Get(j, p[0])
    case None =>
    case Some(c) =>
      var c' := PutAt(c, p[1..], v);
      LookupAssign(j.fields, p[0], c', q[0]);
      if p[0] == q[0] {
        DivergesTail(p, q);
        AtPutAtElsewhere(c, p[1..], v, q[1..]);
      }
  }

  /** Paths that part ways after a common first key still part ways without it. */
  lemma DivergesTail(p: seq<string>, q: seq<string>)
    requires Diverges(p, q) && p[0] == q[0]
    ensures Diverges(p[1..], q[1..])
  {
    var i :| 0 <= i < |p| && i < |q| && p[i] != q[i] && p[..i] == q[..i];
    assert i > 0;
    assert p[1..][i - 1] == p[i] && q[1..][i - 1] == q[i];
    assert p[1..][..i - 1] == p[..i][1..] == q[..i][1..] == q[1..][..i - 1];
  }

  /** Writing back the value already present changes nothing. */
  lemma {:induction false} PutAtSame(j: Json, p: seq<string>)
    requires At(j, p).Some?
    ensures PutAt(j, p, At(j, p).value) == j
    decreases |p|
  {
    if p != [] {
      var c := Get(j, p[0]).value;
      PutAtSame(c, p[1..]);
      AssignExisting(j.fields, p[0], c);
    }
  }

  /** A second write at the same path supersedes the first. */
  lemma {:induction false} PutAtTwice(j: Json, p: seq<string>, v: Json, w: Json)
    requires At(j, p).Some?
    ensures At(PutAt(j, p, v), p).Some?
    ensures PutAt(PutAt(j, p, v), p, w) == PutAt(j, p, w)
    decreases |p|
  {
    AtPutAt(j, p, v, []);
    assert p + [] == p;
    if p != [] {
      var c := Get(j, p[0]).value;
      var c' := PutAt(c, p[1..], v);
      LookupAssign(j.fields, p[0], c', p[0]);
      PutAtTwice(c, p[1..], v, w);
      AssignTwice(j.fields, p[0], c', PutAt(c', p[1..], w));
    }
  }
}
