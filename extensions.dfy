/** Pruning of Kubernetes vendor extensions (`x-kubernetes-*` keys) from a
    resolved schema, keeping the extensions a CRD author may use. */
module Extensions {
  import opened Json

  /** The reserved vendor prefix. */
  const Prefix: string := "x-kubernetes-"

  /** Extensions introduced by Kubernetes 1.15 that survive pruning. */
  const AllowList: seq<string> := [
    "x-kubernetes-embedded-resource",
    "x-kubernetes-int-or-string",
    "x-kubernetes-preserve-unknown-fields",
    "x-kubernetes-list-map-keys",
    "x-kubernetes-list-type",
    "x-kubernetes-map-type",
    "x-kubernetes-validator"
  ]

  /** A key the pruner deletes: it has the vendor prefix and is not allow-listed. */
  predicate IsRemovable(k: string) {
    Prefix <= k && k !in AllowList
  }

  /** The complement of `IsRemovable`, named so that it can be handed to
      `Json.Filter` as the keep-test on a mapping's keys. */
  predicate IsKept(k: string) {
    !IsRemovable(k)
  }

  /** Every allow-listed name carries the vendor prefix, so each one is an
      exemption from the prefix rule, and none of them is removed. */
  lemma AllowListExempt(k: string)
    requires k in AllowList
    ensures Prefix <= k && !IsRemovable(k)
  {
  }

  /** The tree after extension pruning. Only mappings are descended: a list,
      and everything inside it, is left exactly as it is. */
  function ExtensionsRemoved(j: Json): (r: Json)
    ensures r.Obj? <==> j.Obj?
    ensures !j.Obj? ==> r == j
  {
    match j
    case Obj(fs) => Obj(KeptFields(fs))
    case _ => j
  }

  /** The entries of a mapping that survive, with their values pruned. */
  function KeptFields(fs: seq<Field>): (r: seq<Field>)
  {
    if fs == [] then []
    else
      var f := fs[|fs| - 1];
      KeptFields(fs[..|fs| - 1])
        + (if IsRemovable(f.key) then [] else [Field(f.key, ExtensionsRemoved(f.val))])
  }

  /** No removable key is reachable from the root through nested mappings. */
  predicate NoRemovableKeys(j: Json) {
    match j
    case Obj(fs) => forall i :: 0 <= i < |fs| ==> IsKept(fs[i].key) && NoRemovableKeys(fs[i].val)
    case _ => true
  }

  /** A path of mapping keys that passes through a removable key. */
  predicate HasRemovable(p: seq<string>) {
    exists i :: 0 <= i < |p| && IsRemovable(p[i])
  }

  /** The pruner itself: a loop over a snapshot of the keys that deletes a
      removable key and otherwise prunes the key's value. */
  method RemoveExtensions(j: Json) returns (r: Json)
    requires WellFormed(j)
    ensures r == ExtensionsRemoved(j)
    decreases j
  {
    match j {
      case Obj(fields) =>
        assert DistinctKeys(fields);
        var snapshot := Keys(fields);
        var schema := fields;
        for i := 0 to |snapshot|
          invariant schema == KeptFields(fields[..i]) + fields[i..]
        {
          var k := snapshot[i];
          KeptKeysBefore(fields, i);
          KeptFieldsStep(fields, i);
          if IsRemovable(k) {
            schema := Delete(schema, k);
          } else {
            var v := Lookup(schema, k).value;
            assert fields[i] in fields;
            var pruned := RemoveExtensions(v);
            schema := Assign(schema, k, pruned);
          }
        }
        assert fields[..|fields|] == fields;
        r := Obj(schema);
      case _ =>
        r := j;
    }
  }

  /** One turn of the pruner's loop: with the first `i` entries processed and
      the rest untouched, processing key `i` extends the processed part. */
  lemma KeptFieldsStep(fields: seq<Field>, i: nat)
    requires i < |fields| && fields[i].key !in Keys(KeptFields(fields[..i]))
    ensures Lookup(KeptFields(fields[..i]) + fields[i..], fields[i].key) == Some(fields[i].val)
    ensures IsRemovable(fields[i].key) ==>
      Delete(KeptFields(fields[..i]) + fields[i..], fields[i].key)
        == KeptFields(fields[..i + 1]) + fields[i + 1..]
    ensures IsKept(fields[i].key) ==>
      Assign(KeptFields(fields[..i]) + fields[i..], fields[i].key, ExtensionsRemoved(fields[i].val))
        == KeptFields(fields[..i + 1]) + fields[i + 1..]
  {
    var done := KeptFields(fields[..i]);
    SuffixSplit(done, fields, i);
    EntryIndex(done, fields[i], fields[i + 1..]);
    EntryDelete(done, fields[i], fields[i + 1..]);
    EntryAssign(done, fields[i], fields[i + 1..], ExtensionsRemoved(fields[i].val));
    KeptFieldsNext(fields, i);
  }

  /** The processed part after turn `i`: that before it, plus entry `i`
      pruned if its key is kept. */
  lemma KeptFieldsNext(fields: seq<Field>, i: nat)
    requires i < |fields|
    ensures IsKept(fields[i].key) ==>
      KeptFields(fields[..i + 1]) == KeptFields(fields[..i]) + [Field(fields[i].key, ExtensionsRemoved(fields[i].val))]
    ensures IsRemovable(fields[i].key) ==> KeptFields(fields[..i + 1]) == KeptFields(fields[..i])
  {
    var next := fields[..i + 1];
    assert next[..|next| - 1] == fields[..i] && next[|next| - 1] == fields[i];
  }

  /** The entries processed so far do not hold the key about to be processed. */
  lemma KeptKeysBefore(fields: seq<Field>, i: nat)
    requires DistinctKeys(fields) && i < |fields|
    ensures fields[i].key !in Keys(KeptFields(fields[..i]))
  {
    KeptFieldsKeys(fields[..i]);
  }

  // ---------------------------------------------------------------------
  // Properties of the pruned tree

  /** The surviving keys of a mapping are exactly its kept keys, in their
      original relative order. */
  lemma {:induction false} KeptFieldsKeys(fs: seq<Field>)
    ensures Keys(KeptFields(fs)) == Filter(Keys(fs), IsKept)
  {
    if fs != [] {
      var init, f := fs[..|fs| - 1], fs[|fs| - 1];
      KeptFieldsKeys(init);
      KeysLast(fs);
      FilterSnoc(Keys(init), f.key, IsKept);
      if IsKept(f.key) {
        KeysSnoc(KeptFields(init), Field(f.key, ExtensionsRemoved(f.val)));
      }
    }
  }

  /** Every surviving entry is a kept entry of the original, value pruned. */
  lemma {:induction false} KeptFieldsShape(fs: seq<Field>, i: nat)
    requires i < |KeptFields(fs)|
    ensures exists m :: 0 <= m < |fs| && IsKept(fs[m].key) && KeptFields(fs)[i] == Field(fs[m].key, ExtensionsRemoved(fs[m].val))
  {
    var init := fs[..|fs| - 1];
    if i < |KeptFields(init)| {
      KeptFieldsShape(init, i);
      var m :| 0 <= m < |init| && IsKept(init[m].key)
        && KeptFields(init)[i] == Field(init[m].key, ExtensionsRemoved(init[m].val));
      assert init[m] == fs[m];
    } else {
      assert KeptFields(fs)[i] == Field(fs[|fs| - 1].key, ExtensionsRemoved(fs[|fs| - 1].val));
    }
  }

  /** Looking a key up after pruning: a removable key is gone, any other key
      has its original value, pruned. */
  lemma {:induction false} LookupKept(fs: seq<Field>, k: string)
    ensures IsRemovable(k) ==> Lookup(KeptFields(fs), k).None?
    ensures IsKept(k) ==> Lookup(KeptFields(fs), k).Some? == Lookup(fs, k).Some?
    ensures IsKept(k) && Lookup(fs, k).Some? ==>
      Lookup(KeptFields(fs), k) == Some(ExtensionsRemoved(Lookup(fs, k).value))
  {
    if fs != [] {
      var init, f := fs[..|fs| - 1], fs[|fs| - 1];
      LookupKept(init, k);
      LookupLast(fs, k);
      var done := KeptFields(init);
      assert k in Keys(done) <==> k in Keys(init) && IsKept(k) by {
        KeptFieldsKeys(init);
      }
      if IsKept(f.key) {
        var g := Field(f.key, ExtensionsRemoved(f.val));
        assert KeptFields(fs) == done + [g];
        LookupSnoc(done, g, k);
      } else {
        assert KeptFields(fs) == done;
      }
    }
  }

  /** An allow-listed key survives pruning wherever it is reached along keys
      that are not removed; its value is still pruned, not kept verbatim. */
  lemma AllowListedKept(j: Json, p: seq<string>, k: string)
    requires k in AllowList && !HasRemovable(p) && At(j, p + [k]).Some?
    ensures At(ExtensionsRemoved(j), p + [k]) == Some(ExtensionsRemoved(At(j, p + [k]).value))
  {
    AllowListExempt(k);
    var q := p + [k];
    assert !HasRemovable(q) by {
      forall i | 0 <= i < |q| ensures !IsRemovable(q[i]) {
        if i < |p| { assert q[i] == p[i]; } else { assert q[i] == k; }
      }
    }
    ExtensionsRemovedAt(j, q);
  }

  /** The keys reachable after pruning are exactly the original paths that
      avoid removable keys, leading to the original values, pruned. */
  lemma {:induction false} ExtensionsRemovedAt(j: Json, p: seq<string>)
    ensures HasRemovable(p) ==> At(ExtensionsRemoved(j), p).None?
    ensures !HasRemovable(p) ==> At(ExtensionsRemoved(j), p).Some? == At(j, p).Some?
    ensures !HasRemovable(p) && At(j, p).Some? ==>
      At(ExtensionsRemoved(j), p) == Some(ExtensionsRemoved(At(j, p).value))
    decreases |p|
  {
    if p != [] {
      var k, rest := p[0], p[1..];
      assert HasRemovable(p) <==> IsRemovable(k) || HasRemovable(rest) by {
        assert forall i :: 0 <= i < |rest| ==> rest[i] == p[i + 1];
        if HasRemovable(p) {
          var i :| 0 <= i < |p| && IsRemovable(p[i]);
          if i > 0 { assert IsRemovable(rest[i - 1]); }
        }
      }
      if j.Obj? {
        LookupKept(j.fields, k);
        if IsKept(k) && Lookup(j.fields, k).Some? {
          ExtensionsRemovedAt(Lookup(j.fields, k).value, rest);
        }
      }
    }
  }

  /** After pruning, no removable key is reachable through nested mappings. */
  lemma {:induction false} ExtensionsRemovedClean(j: Json)
    ensures NoRemovableKeys(ExtensionsRemoved(j))
  {
    if j.Obj? {
      var fs := j.fields;
      forall i | 0 <= i < |KeptFields(fs)|
        ensures IsKept(KeptFields(fs)[i].key) && NoRemovableKeys(KeptFields(fs)[i].val)
      {
        KeptFieldsShape(fs, i);
        var m :| 0 <= m < |fs| && IsKept(fs[m].key)
          && KeptFields(fs)[i] == Field(fs[m].key, ExtensionsRemoved(fs[m].val));
        ExtensionsRemovedClean(fs[m].val);
      }
    }
  }

  lemma {:induction false} KeptFieldsUnchanged(fs: seq<Field>)
    requires forall i :: 0 <= i < |fs| ==> IsKept(fs[i].key) && ExtensionsRemoved(fs[i].val) == fs[i].val
    ensures KeptFields(fs) == fs
  {
    if fs != [] {
      var init, f := fs[..|fs| - 1], fs[|fs| - 1];
      assert forall i :: 0 <= i < |init| ==> init[i] == fs[i];
      KeptFieldsUnchanged(init);
      assert ExtensionsRemoved(f.val) == f.val;
      assert KeptFields(fs) == KeptFields(init) + [Field(f.key, ExtensionsRemoved(f.val))];
      assert fs == init + [f];
    }
  }

  /** The trees the pruner leaves unchanged are exactly those without
      reachable removable keys. */
  lemma {:induction false} ExtensionsRemovedFixedPoint(j: Json)
    ensures ExtensionsRemoved(j) == j <==> NoRemovableKeys(j)
  {
    ExtensionsRemovedClean(j);
    if NoRemovableKeys(j) && j.Obj? {
      var fs := j.fields;
      forall i | 0 <= i < |fs| ensures ExtensionsRemoved(fs[i].val) == fs[i].val {
        ExtensionsRemovedFixedPoint(fs[i].val);
      }
      KeptFieldsUnchanged(fs);
    }
  }

  /** Pruning twice prunes nothing more. */
  lemma ExtensionsRemovedIdempotent(j: Json)
    ensures ExtensionsRemoved(ExtensionsRemoved(j)) == ExtensionsRemoved(j)
  {
    ExtensionsRemovedClean(j);
    ExtensionsRemovedFixedPoint(ExtensionsRemoved(j));
  }

  /** Pruning keeps every mapping's keys distinct. */
  lemma {:induction false} ExtensionsRemovedWellFormed(j: Json)
    requires WellFormed(j)
    ensures WellFormed(ExtensionsRemoved(j))
  {
    if j.Obj? {
      var fs := j.fields;
      KeptFieldsDistinct(fs);
      forall i | 0 <= i < |KeptFields(fs)| ensures WellFormed(KeptFields(fs)[i].val) {
        KeptFieldsShape(fs, i);
        var m :| 0 <= m < |fs| && IsKept(fs[m].key)
          && KeptFields(fs)[i] == Field(fs[m].key, ExtensionsRemoved(fs[m].val));
        ExtensionsRemovedWellFormed(fs[m].val);
      }
    }
  }

  lemma {:induction false} KeptFieldsDistinct(fs: seq<Field>)
    requires DistinctKeys(fs)
    ensures DistinctKeys(KeptFields(fs))
  {
    if fs != [] {
      var init, f := fs[..|fs| - 1], fs[|fs| - 1];
      DistinctPrefix(fs, |fs| - 1);
      KeptFieldsDistinct(init);
      if IsKept(f.key) {
        KeptFieldsKeys(init);
        DistinctAppend(KeptFields(init), Field(f.key, ExtensionsRemoved(f.val)));
      }
    }
  }
}
