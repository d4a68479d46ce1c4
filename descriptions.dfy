/** Pruning of `description` keys that a resolved schema holds only because
    reference resolution imported them: the resolved tree is walked side by
    side with the original, unresolved source tree. */
module Descriptions {
  import opened Json

  const DescriptionKey: string := "description"

  /** The source counterpart of key `k`: `source[k]` when the source is a
      mapping that has `k`, and `None` (here `Null`) otherwise. */
  function ChildSource(src: Json, k: string): (r: Json) {
    match Get(src, k)
    case Some(s) => s
    case None => Null
  }

  /** Key `k` survives when the source mapping has it or it is not `description`. */
  predicate KeptBy(src: Json, k: string) {
    Get(src, k).Some? || k != DescriptionKey
  }

  /** The resolved tree `j` after description pruning against source `src`.
      Only mappings are descended; anything else is left as it is. */
  function DescriptionsRemoved(j: Json, src: Json): (r: Json)
    ensures r.Obj? <==> j.Obj?
    ensures !j.Obj? ==> r == j
  {
    match j
    case Obj(fs) => Obj(StrippedFields(fs, src))
    case _ => j
  }

  /** The entries of a mapping that survive, each value pruned against its
      source counterpart. */
  function StrippedFields(fs: seq<Field>, src: Json): (r: seq<Field>)
  {
    if fs == [] then []
    else
      var f := fs[|fs| - 1];
      StrippedFields(fs[..|fs| - 1], src)
        + (if KeptBy(src, f.key) then [Field(f.key, DescriptionsRemoved(f.val, ChildSource(src, f.key)))] else [])
  }

  /** The source tree at a path, `Null` where the source has nothing there. */
  function SourceAt(src: Json, p: seq<string>): (r: Json) {
    match At(src, p)
    case Some(s) => s
    case None => Null
  }

  /** The path goes through a `description` key whose position the source
      does not have. */
  predicate Deleted(p: seq<string>, src: Json) {
    exists i :: 0 <= i < |p| && p[i] == DescriptionKey && At(src, p[..i + 1]).None?
  }

  /** The pruner itself: a loop over a snapshot of the keys. A key the source
      mapping also has is kept and its value pruned against the source's; a
      `description` the source lacks is deleted; any other key is kept and its
      value pruned with no source at all. */
  method RemoveDescriptions(j: Json, src: Json) returns (r: Json)
    requires WellFormed(j)
    ensures r == DescriptionsRemoved(j, src)
    decreases j, 1
  {
    match j {
      case Obj(fields) =>
        var snapshot := Keys(fields);
        var schema := fields;
        for i := 0 to |snapshot|
          invariant schema == StrippedFields(fields[..i], src) + fields[i..]
        {
          schema := PruneEntry(fields, src, i, snapshot[i], schema);
        }
        assert fields[..|fields|] == fields;
        r := Obj(schema);
      case _ =>
        r := j;
    }
  }

  /** The body of the pruner's loop for the snapshot key `k`, the key of
      entry `i` of the original mapping `fields`: it extends the processed
      part of the mapping by that entry. */
  method PruneEntry(fields: seq<Field>, src: Json, i: nat, k: string, schema: seq<Field>) returns (next: seq<Field>)
    requires WellFormed(Obj(fields)) && i < |fields| && k == fields[i].key
    requires schema == StrippedFields(fields[..i], src) + fields[i..]
    ensures next == StrippedFields(fields[..i + 1], src) + fields[i + 1..]
    decreases Obj(fields), 0
  {
    StrippedFieldsLookup(fields, src, i, schema);
    assert fields[i] in fields;
    var v := Lookup(schema, k).value;
    var counterpart := Get(src, k);
    if counterpart.Some? {
      var pruned := RemoveDescriptions(v, counterpart.value);
      StrippedFieldsKeep(fields, src, i, schema);
      next := Assign(schema, k, pruned);
    } else if k == DescriptionKey {
      StrippedFieldsDrop(fields, src, i, schema);
      next := Delete(schema, k);
    } else {
      var pruned := RemoveDescriptions(v, Null);
      StrippedFieldsKeep(fields, src, i, schema);
      next := Assign(schema, k, pruned);
    }
  }

  /** Before turn `i` of the pruner's loop the snapshot key is still present
      with its original value. */
  lemma StrippedFieldsLookup(fields: seq<Field>, src: Json, i: nat, schema: seq<Field>)
    requires DistinctKeys(fields) && i < |fields|
    requires schema == StrippedFields(fields[..i], src) + fields[i..]
    ensures Lookup(schema, fields[i].key) == Some(fields[i].val)
  {
    var done := StrippedFields(fields[..i], src);
    SuffixSplit(done, fields, i);
    StrippedKeysBefore(fields, src, i);
    EntryIndex(done, fields[i], fields[i + 1..]);
  }

  /** Turn `i` for a key that survives: writing back its value, pruned against
      its source counterpart, extends the processed part by one entry. */
  lemma StrippedFieldsKeep(fields: seq<Field>, src: Json, i: nat, schema: seq<Field>)
    requires DistinctKeys(fields) && i < |fields| && KeptBy(src, fields[i].key)
    requires schema == StrippedFields(fields[..i], src) + fields[i..]
    ensures Assign(schema, fields[i].key, DescriptionsRemoved(fields[i].val, ChildSource(src, fields[i].key)))
      == StrippedFields(fields[..i + 1], src) + fields[i + 1..]
  {
    var done := StrippedFields(fields[..i], src);
    SuffixSplit(done, fields, i);
    StrippedKeysBefore(fields, src, i);
    EntryAssign(done, fields[i], fields[i + 1..], DescriptionsRemoved(fields[i].val, ChildSource(src, fields[i].key)));
    StrippedFieldsNext(fields, src, i);
  }

  /** Turn `i` for a `description` the source lacks: deleting it extends the
      processed part by nothing. */
  lemma StrippedFieldsDrop(fields: seq<Field>, src: Json, i: nat, schema: seq<Field>)
    requires DistinctKeys(fields) && i < |fields| && !KeptBy(src, fields[i].key)
    requires schema == StrippedFields(fields[..i], src) + fields[i..]
    ensures Delete(schema, fields[i].key) == StrippedFields(fields[..i + 1], src) + fields[i + 1..]
  {
    var done := StrippedFields(fields[..i], src);
    SuffixSplit(done, fields, i);
    StrippedKeysBefore(fields, src, i);
    EntryDelete(done, fields[i], fields[i + 1..]);
    StrippedFieldsNext(fields, src, i);
  }

  /** The processed part after turn `i`: that before it, plus entry `i` if
      its key survives. */
  lemma StrippedFieldsNext(fields: seq<Field>, src: Json, i: nat)
    requires i < |fields|
    ensures KeptBy(src, fields[i].key) ==>
      StrippedFields(fields[..i + 1], src) == StrippedFields(fields[..i], src)
        + [Field(fields[i].key, DescriptionsRemoved(fields[i].val, ChildSource(src, fields[i].key)))]
    ensures !KeptBy(src, fields[i].key) ==> StrippedFields(fields[..i + 1], src) == StrippedFields(fields[..i], src)
  {
    var next := fields[..i + 1];
    assert next[..|next| - 1] == fields[..i] && next[|next| - 1] == fields[i];
  }

  /** The entries processed so far do not hold the key about to be processed. */
  lemma StrippedKeysBefore(fields: seq<Field>, src: Json, i: nat)
    requires DistinctKeys(fields) && i < |fields|
    ensures fields[i].key !in Keys(StrippedFields(fields[..i], src))
  {
    StrippedFieldsKeys(fields[..i], src);
  }

  // ---------------------------------------------------------------------
  // Properties of the pruned tree

  /** The surviving keys of a mapping are exactly the kept ones, in order. */
  lemma {:induction false} StrippedFieldsKeys(fs: seq<Field>, src: Json)
    ensures Keys(StrippedFields(fs, src)) == Filter(Keys(fs), k => KeptBy(src, k))
  {
    if fs != [] {
      var init, f := fs[..|fs| - 1], fs[|fs| - 1];
      StrippedFieldsKeys(init, src);
      KeysLast(fs);
      FilterSnoc(Keys(init), f.key, k => KeptBy(src, k));
      if KeptBy(src, f.key) {
        KeysSnoc(StrippedFields(init, src), Field(f.key, DescriptionsRemoved(f.val, ChildSource(src, f.key))));
      }
    }
  }

  /** Every surviving entry is a kept entry of the original, its value pruned
      against that key's source counterpart. */
  lemma {:induction false} StrippedFieldsShape(fs: seq<Field>, src: Json, i: nat)
    requires i < |StrippedFields(fs, src)|
    ensures exists m :: 0 <= m < |fs| && KeptBy(src, fs[m].key) && StrippedFields(fs, src)[i] == Field(fs[m].key, DescriptionsRemoved(fs[m].val, ChildSource(src, fs[m].key)))
  {
    var init := fs[..|fs| - 1];
    if i < |StrippedFields(init, src)| {
      StrippedFieldsShape(init, src, i);
      var m :| 0 <= m < |init| && KeptBy(src, init[m].key)
        && StrippedFields(init, src)[i] == Field(init[m].key, DescriptionsRemoved(init[m].val, ChildSource(src, init[m].key)));
      assert init[m] == fs[m];
    }
  }

  /** Looking a key up after pruning. */
  lemma {:induction false} LookupStripped(fs: seq<Field>, src: Json, k: string)
    ensures !KeptBy(src, k) ==> Lookup(StrippedFields(fs, src), k).None?
    ensures KeptBy(src, k) ==> Lookup(StrippedFields(fs, src), k).Some? == Lookup(fs, k).Some?
    ensures KeptBy(src, k) && Lookup(fs, k).Some? ==>
      Lookup(StrippedFields(fs, src), k) == Some(DescriptionsRemoved(Lookup(fs, k).value, ChildSource(src, k)))
  {
    if fs != [] {
      var init, f := fs[..|fs| - 1], fs[|fs| - 1];
      LookupStripped(init, src, k);
      LookupLast(fs, k);
      var done := StrippedFields(init, src);
      assert k in Keys(done) <==> k in Keys(init) && KeptBy(src, k) by {
        StrippedFieldsKeys(init, src);
      }
      if KeptBy(src, f.key) {
        var g := Field(f.key, DescriptionsRemoved(f.val, ChildSource(src, f.key)));
        assert StrippedFields(fs, src) == done + [g];
        LookupSnoc(done, g, k);
      } else {
        assert StrippedFields(fs, src) == done;
      }
    }
  }

  /** Nothing lies at a non-empty path below a value that is not a mapping. */
  lemma AtNonMapping(x: Json, p: seq<string>)
    requires !x.Obj? && p != []
    ensures At(x, p).None?
  {
  }

  /** A path is cut at its first key exactly when that key is deleted there,
      or further down, against the first key's source counterpart. */
  lemma DeletedStep(p: seq<string>, src: Json)
    requires p != []
    ensures Deleted(p, src) <==> !KeptBy(src, p[0]) || Deleted(p[1..], ChildSource(src, p[0]))
    ensures SourceAt(src, p) == SourceAt(ChildSource(src, p[0]), p[1..])
  {
    var k, rest := p[0], p[1..];
    var cs := ChildSource(src, k);
    // The source at a prefix of `p` longer than one key is the source
    // counterpart of `k` at the matching prefix of `rest`.
    forall i | 1 <= i < |p|
      ensures At(src, p[..i + 1]) == (if Get(src, k).Some? then At(cs, rest[..i]) else None)
    {
      assert p[..i + 1][0] == k && p[..i + 1][1..] == rest[..i];
    }
    assert At(src, p[..1]) == (if Get(src, k).Some? then Some(cs) else None) by {
      assert p[..1][0] == k && p[..1][1..] == [];
    }
    if Deleted(p, src) {
      var i :| 0 <= i < |p| && p[i] == DescriptionKey && At(src, p[..i + 1]).None?;
      if i > 0 {
        assert rest[i - 1] == DescriptionKey;
        if Get(src, k).None? { AtNonMapping(Null, rest[..i]); }
        assert At(cs, rest[..i - 1 + 1]).None?;
      }
    }
    if !KeptBy(src, k) {
      assert p[0] == DescriptionKey && At(src, p[..0 + 1]).None?;
    } else if Deleted(rest, cs) {
      var i :| 0 <= i < |rest| && rest[i] == DescriptionKey && At(cs, rest[..i + 1]).None?;
      assert p[i + 1] == DescriptionKey && At(src, p[..(i + 1) + 1]).None?;
    }
    if Get(src, k).None? && rest != [] {
      AtNonMapping(Null, rest);
    }
  }

  /** What remains at a path after pruning: nothing where the path goes
      through a `description` the source lacks at that position; elsewhere
      exactly what the resolved tree has there, pruned against the source at
      the same path. So no key the source has at the same position is ever
      deleted, only `description` keys are, and no key is added. */
  lemma {:induction false} DescriptionsRemovedAt(j: Json, src: Json, p: seq<string>)
    ensures Deleted(p, src) ==> At(DescriptionsRemoved(j, src), p).None?
    ensures !Deleted(p, src) ==> At(DescriptionsRemoved(j, src), p).Some? == At(j, p).Some?
    ensures !Deleted(p, src) && At(j, p).Some? ==>
      At(DescriptionsRemoved(j, src), p) == Some(DescriptionsRemoved(At(j, p).value, SourceAt(src, p)))
    decreases |p|
  {
    if p == [] {
      assert !Deleted(p, src);
    } else {
      var k, rest := p[0], p[1..];
      DeletedStep(p, src);
      if j.Obj? {
        LookupStripped(j.fields, src, k);
        if KeptBy(src, k) && Lookup(j.fields, k).Some? {
          DescriptionsRemovedAt(Lookup(j.fields, k).value, ChildSource(src, k), rest);
        }
      }
    }
  }

  /** With a source that is not a mapping (`None` for a subtree that came
      entirely from a reference, or a list or scalar the source holds there),
      every `description` key reachable through nested mappings is deleted
      and every other key is left in place. */
  lemma DescriptionsRemovedWithoutSource(j: Json, src: Json, p: seq<string>)
    requires !src.Obj?
    ensures DescriptionKey in p ==> At(DescriptionsRemoved(j, src), p).None?
    ensures DescriptionKey !in p ==> At(DescriptionsRemoved(j, src), p).Some? == At(j, p).Some?
  {
    DescriptionsRemovedAt(j, src, p);
    if DescriptionKey in p {
      var i :| 0 <= i < |p| && p[i] == DescriptionKey;
      AtNonMapping(src, p[..i + 1]);
    }
  }

  lemma {:induction false} StrippedFieldsUnchanged(fs: seq<Field>, src: Json)
    requires forall i :: 0 <= i < |fs| ==>
      KeptBy(src, fs[i].key) && DescriptionsRemoved(fs[i].val, ChildSource(src, fs[i].key)) == fs[i].val
    ensures StrippedFields(fs, src) == fs
  {
    if fs != [] {
      var init, f := fs[..|fs| - 1], fs[|fs| - 1];
      assert forall i :: 0 <= i < |init| ==> init[i] == fs[i];
      StrippedFieldsUnchanged(init, src);
      assert DescriptionsRemoved(f.val, ChildSource(src, f.key)) == f.val;
      assert StrippedFields(fs, src) == StrippedFields(init, src) + [Field(f.key, DescriptionsRemoved(f.val, ChildSource(src, f.key)))];
      assert fs == init + [f];
    }
  }

  /** A schema whose resolution imported nothing, paired with itself as the
      source, loses no description. */
  lemma {:induction false} DescriptionsRemovedNothingImported(j: Json)
    requires WellFormed(j)
    ensures DescriptionsRemoved(j, j) == j
  {
    if j.Obj? {
      var fs := j.fields;
      forall i | 0 <= i < |fs|
        ensures KeptBy(j, fs[i].key) && DescriptionsRemoved(fs[i].val, ChildSource(j, fs[i].key)) == fs[i].val
      {
        LookupDistinct(fs, i);
        DescriptionsRemovedNothingImported(fs[i].val);
      }
      StrippedFieldsUnchanged(fs, j);
    }
  }

  /** Pruning twice against the same source prunes nothing more. */
  lemma {:induction false} DescriptionsRemovedIdempotent(j: Json, src: Json)
    ensures DescriptionsRemoved(DescriptionsRemoved(j, src), src) == DescriptionsRemoved(j, src)
  {
    if j.Obj? {
      var fs := j.fields;
      var kept := StrippedFields(fs, src);
      forall i | 0 <= i < |kept|
        ensures KeptBy(src, kept[i].key)
             && DescriptionsRemoved(kept[i].val, ChildSource(src, kept[i].key)) == kept[i].val
      {
        StrippedFieldsShape(fs, src, i);
        var m :| 0 <= m < |fs| && KeptBy(src, fs[m].key)
          && kept[i] == Field(fs[m].key, DescriptionsRemoved(fs[m].val, ChildSource(src, fs[m].key)));
        DescriptionsRemovedIdempotent(fs[m].val, ChildSource(src, fs[m].key));
      }
      StrippedFieldsUnchanged(kept, src);
    }
  }

  lemma {:induction false} StrippedFieldsDistinct(fs: seq<Field>, src: Json)
    requires DistinctKeys(fs)
    ensures DistinctKeys(StrippedFields(fs, src))
  {
    if fs != [] {
      var init, f := fs[..|fs| - 1], fs[|fs| - 1];
      DistinctPrefix(fs, |fs| - 1);
      StrippedFieldsDistinct(init, src);
      if KeptBy(src, f.key) {
        StrippedFieldsKeys(init, src);
        DistinctAppend(StrippedFields(init, src), Field(f.key, DescriptionsRemoved(f.val, ChildSource(src, f.key))));
      }
    }
  }

  /** Pruning keeps every mapping's keys distinct. */
  lemma {:induction false} DescriptionsRemovedWellFormed(j: Json, src: Json)
    requires WellFormed(j)
    ensures WellFormed(DescriptionsRemoved(j, src))
  {
    if j.Obj? {
      var fs := j.fields;
      StrippedFieldsDistinct(fs, src);
      forall i | 0 <= i < |StrippedFields(fs, src)| ensures WellFormed(StrippedFields(fs, src)[i].val) {
        StrippedFieldsShape(fs, src, i);
        var m :| 0 <= m < |fs| && KeptBy(src, fs[m].key)
          && StrippedFields(fs, src)[i] == Field(fs[m].key, DescriptionsRemoved(fs[m].val, ChildSource(src, fs[m].key)));
        DescriptionsRemovedWellFormed(fs[m].val, ChildSource(src, fs[m].key));
      }
    }
  }
}
