/** Resolution of the schemas embedded in a CustomResourceDefinition: the
    kind and apiVersion checks, the choice of schema locations, and the
    in-place write-back of each processed schema. Reference resolution itself
    is a foreign library and enters as a parameter. */
module Crd {
  import opened Json
  import opened Extensions
  import opened Descriptions

  const CrdKind: string := "CustomResourceDefinition"
  const V1Beta1: string := "apiextensions.k8s.io/v1beta1"
  const V1: string := "apiextensions.k8s.io/v1"

  /** Where a v1beta1 CRD keeps its single schema. */
  const V1Beta1SchemaPath: seq<string> := ["spec", "validation", "openAPIV3Schema"]
  /** Where a v1 CRD keeps its list of versions. */
  const VersionsPath: seq<string> := ["spec", "versions"]
  /** Where each v1 version keeps its schema. */
  const VersionSchemaPath: seq<string> := ["schema", "openAPIV3Schema"]

  datatype Error =
    | MalformedCrd           // a required key is missing or a step is not a mapping
    | NotACrd                // `kind` is not CustomResourceDefinition
    | UnsupportedApiVersion  // `apiVersion` is neither supported value
    | ResolutionFailed       // the reference resolver failed

  datatype Outcome = Done | Failed(error: Error)

  datatype Result<+T> = Success(value: T) | Failure(error: Error)

  /** Reference resolution of one schema, or `None` when it fails. */
  type Resolver = Json -> Option<Json>

  /** The resolver hands back loaded YAML trees, whose mappings have distinct keys. */
  ghost predicate YieldsTrees(resolver: Resolver) {
    forall s :: resolver(s).Some? ==> WellFormed(resolver(s).value)
  }

  /** One schema resolved, cleared of vendor extensions and, when asked,
      of imported descriptions (which are judged against the unresolved schema). */
  function Processed(schema: Json, resolver: Resolver, removeDescriptions: bool): (r: Result<Json>)
    ensures r.Success? <==> resolver(schema).Some?
    ensures r.Failure? ==> r.error == ResolutionFailed
  {
    match resolver(schema)
    case None => Failure(ResolutionFailed)
    case Some(resolved) =>
      var pruned := ExtensionsRemoved(resolved);
      Success(if removeDescriptions then DescriptionsRemoved(pruned, schema) else pruned)
  }

  method ParseAndResolve(schema: Json, resolver: Resolver, removeDescriptions: bool) returns (r: Result<Json>)
    requires YieldsTrees(resolver)
    ensures r == Processed(schema, resolver, removeDescriptions)
    ensures r.Success? ==> WellFormed(r.value)
  {
    var resolved := resolver(schema);
    if resolved.None? {
      return Failure(ResolutionFailed);
    }
    var tree := RemoveExtensions(resolved.value);
    ExtensionsRemovedWellFormed(resolved.value);
    if removeDescriptions {
      DescriptionsRemovedWellFormed(tree, schema);
      tree := RemoveDescriptions(tree, schema);
    }
    return Success(tree);
  }

  /** Description pruning only deletes keys, so it cannot bring back a vendor extension. */
  lemma {:induction false} DescriptionsRemovedKeepsClean(j: Json, src: Json)
    requires NoRemovableKeys(j)
    ensures NoRemovableKeys(DescriptionsRemoved(j, src))
  {
    if j.Obj? {
      var fs := j.fields;
      forall i | 0 <= i < |StrippedFields(fs, src)|
        ensures IsKept(StrippedFields(fs, src)[i].key) && NoRemovableKeys(StrippedFields(fs, src)[i].val)
      {
        StrippedFieldsShape(fs, src, i);
        var m :| 0 <= m < |fs| && KeptBy(src, fs[m].key)
          && StrippedFields(fs, src)[i] == Field(fs[m].key, DescriptionsRemoved(fs[m].val, ChildSource(src, fs[m].key)));
        DescriptionsRemovedKeepsClean(fs[m].val, ChildSource(src, fs[m].key));
      }
    }
  }

  /** A processed schema exists exactly when resolution succeeds; it holds no
      removable vendor extension, and with description pruning on, no
      `description` that the unresolved schema lacks at the same path. */
  lemma ProcessedClean(schema: Json, resolver: Resolver, removeDescriptions: bool)
    ensures Processed(schema, resolver, removeDescriptions).Success? ==>
      NoRemovableKeys(Processed(schema, resolver, removeDescriptions).value)
    ensures removeDescriptions && Processed(schema, resolver, removeDescriptions).Success? ==>
      forall p :: Deleted(p, schema) ==> At(Processed(schema, resolver, removeDescriptions).value, p).None?
  {
    if resolver(schema).Some? {
      var pruned := ExtensionsRemoved(resolver(schema).value);
      ExtensionsRemovedClean(resolver(schema).value);
      if removeDescriptions {
        DescriptionsRemovedKeepsClean(pruned, schema);
        forall p | Deleted(p, schema) ensures At(DescriptionsRemoved(pruned, schema), p).None? {
          DescriptionsRemovedAt(pruned, schema, p);
        }
      }
    }
  }

  /** One element of a v1 `versions` list with its schema replaced by the
      processed schema; a failure when the element has no schema there or
      its resolution fails. */
  function ProcessVersion(version: Json, resolver: Resolver, removeDescriptions: bool): (r: Result<Json>) {
    match At(version, VersionSchemaPath)
    case None => Failure(MalformedCrd)
    case Some(schema) =>
      match Processed(schema, resolver, removeDescriptions)
      case Failure(e) => Failure(e)
      case Success(r) => Success(PutAt(version, VersionSchemaPath, r))
  }

  /** A version whose processing succeeds: it has a schema at
      `schema.openAPIV3Schema`, and the resolver accepts that schema. */
  predicate VersionResolves(version: Json, resolver: Resolver) {
    At(version, VersionSchemaPath).Some? && resolver(At(version, VersionSchemaPath).value).Some?
  }

  /** The position of the first version that fails, or the number of versions. */
  function FirstFailure(items: seq<Json>, resolver: Resolver, removeDescriptions: bool): (n: nat)
    ensures n <= |items|
    ensures forall i :: 0 <= i < n ==> ProcessVersion(items[i], resolver, removeDescriptions).Success?
    ensures n < |items| ==> ProcessVersion(items[n], resolver, removeDescriptions).Failure?
  {
    if items == [] then 0
    else if ProcessVersion(items[0], resolver, removeDescriptions).Failure? then 0
    else
      var n := FirstFailure(items[1..], resolver, removeDescriptions);
      assert forall i :: 0 < i <= n ==> items[i] == items[1..][i - 1];
      1 + n
  }

  /** The versions list once its first `n` elements have been processed. */
  function ResolvedUpTo(items: seq<Json>, n: nat, resolver: Resolver, removeDescriptions: bool): (r: seq<Json>)
    ensures |r| == |items|
  {
    seq(|items|, i requires 0 <= i < |items| =>
      if i < n && ProcessVersion(items[i], resolver, removeDescriptions).Success?
      then ProcessVersion(items[i], resolver, removeDescriptions).value
      else items[i])
  }

  /** A value that a Python `for` loop runs over zero times without raising,
      though it is not a list: an empty mapping or an empty string. */
  predicate IsEmptyIterable(v: Json) {
    v == Obj([]) || v == Str("")
  }

  /** The CRD document after resolution, and how resolution ended: the kind
      is checked first, then apiVersion chooses the schema locations. */
  function Resolution(doc: Json, resolver: Resolver, removeDescriptions: bool): (r: (Json, Outcome))
    ensures r.0 != doc ==>
      && Get(doc, "kind") == Some(Str(CrdKind))
      && (Get(doc, "apiVersion") == Some(Str(V1Beta1)) || Get(doc, "apiVersion") == Some(Str(V1)))
  {
    match Get(doc, "kind")
    case None => (doc, Failed(MalformedCrd))
    case Some(kind) =>
      if kind != Str(CrdKind) then (doc, Failed(NotACrd))
      else match Get(doc, "apiVersion")
        case None => (doc, Failed(MalformedCrd))
        case Some(api) =>
          if api == Str(V1Beta1) then V1Beta1Resolution(doc, resolver, removeDescriptions)
          else if api == Str(V1) then V1Resolution(doc, resolver, removeDescriptions)
          // The message is built from the top-level `version` key, so
          // without that key the lookup fails first.
          else (doc, Failed(if Get(doc, "version").Some? then UnsupportedApiVersion else MalformedCrd))
  }

  /** A v1beta1 CRD: its one schema is replaced. */
  function V1Beta1Resolution(doc: Json, resolver: Resolver, removeDescriptions: bool): (r: (Json, Outcome))
    ensures r.1 == Done <==>
      At(doc, V1Beta1SchemaPath).Some? && resolver(At(doc, V1Beta1SchemaPath).value).Some?
    ensures r.1 != Done ==> r.0 == doc
  {
    match At(doc, V1Beta1SchemaPath)
    case None => (doc, Failed(MalformedCrd))
    case Some(schema) =>
      match Processed(schema, resolver, removeDescriptions)
      case Failure(e) => (doc, Failed(e))
      case Success(r) => (PutAt(doc, V1Beta1SchemaPath, r), Done)
  }

  /** A v1 CRD: the schema of each version is replaced, in order, until one fails. */
  function V1Resolution(doc: Json, resolver: Resolver, removeDescriptions: bool): (r: (Json, Outcome))
    ensures r.0 != doc ==> At(doc, VersionsPath).Some? && At(doc, VersionsPath).value.Arr?
  {
    match At(doc, VersionsPath)
    case None => (doc, Failed(MalformedCrd))
    case Some(versions) =>
      if versions.Arr? then
        var items := versions.items;
        var n := FirstFailure(items, resolver, removeDescriptions);
        (PutAt(doc, VersionsPath, Arr(ResolvedUpTo(items, n, resolver, removeDescriptions))),
         if n == |items| then Done else Failed(ProcessVersion(items[n], resolver, removeDescriptions).error))
      else (doc, if IsEmptyIterable(versions) then Done else Failed(MalformedCrd))
  }

  /** The loop body for one version: resolve the schema it holds and write
      the result back into it. */
  method ResolveVersion(version: Json, resolver: Resolver, removeDescriptions: bool) returns (r: Result<Json>)
    requires WellFormed(version) && YieldsTrees(resolver)
    ensures r == ProcessVersion(version, resolver, removeDescriptions)
    ensures r.Success? ==> WellFormed(r.value)
  {
    var schema := At(version, VersionSchemaPath);
    if schema.None? {
      return Failure(MalformedCrd);
    }
    var resolved := ParseAndResolve(schema.value, resolver, removeDescriptions);
    if resolved.Failure? {
      return Failure(resolved.error);
    }
    PutAtWellFormed(version, VersionSchemaPath, resolved.value);
    return Success(PutAt(version, VersionSchemaPath, resolved.value));
  }

  /** With `i` versions processed, version `i` is still the original; when
      it fails it is the first failure, and otherwise processing it extends
      the processed part by one. */
  lemma ResolvedUpToNext(items: seq<Json>, i: nat, resolver: Resolver, removeDescriptions: bool)
    requires i < |items| && i <= FirstFailure(items, resolver, removeDescriptions)
    ensures ResolvedUpTo(items, i, resolver, removeDescriptions)[i] == items[i]
    ensures ProcessVersion(items[i], resolver, removeDescriptions).Failure? ==>
      FirstFailure(items, resolver, removeDescriptions) == i
    ensures ProcessVersion(items[i], resolver, removeDescriptions).Success? ==>
      && i + 1 <= FirstFailure(items, resolver, removeDescriptions)
      && ResolvedUpTo(items, i, resolver, removeDescriptions)[i := ProcessVersion(items[i], resolver, removeDescriptions).value]
         == ResolvedUpTo(items, i + 1, resolver, removeDescriptions)
  {
    var before := ResolvedUpTo(items, i, resolver, removeDescriptions);
    var after := ResolvedUpTo(items, i + 1, resolver, removeDescriptions);
    var step := ProcessVersion(items[i], resolver, removeDescriptions);
    if step.Success? {
      forall m | 0 <= m < |items|
        ensures before[i := step.value][m] == after[m]
      {
      }
      assert before[i := step.value] == after;
    }
  }

  /** The v1 loop after a version has been processed successfully. */
  lemma V1Advanced(doc: Json, items: seq<Json>, i: nat, current: seq<Json>, v: Json,
                   resolver: Resolver, removeDescriptions: bool)
    requires At(doc, VersionsPath).Some?
    requires i < |items| && i <= FirstFailure(items, resolver, removeDescriptions)
    requires current == ResolvedUpTo(items, i, resolver, removeDescriptions)
    requires WellFormed(Arr(current)) && WellFormed(v)
    requires ProcessVersion(current[i], resolver, removeDescriptions) == Success(v)
    ensures i + 1 <= FirstFailure(items, resolver, removeDescriptions)
    ensures current[i := v] == ResolvedUpTo(items, i + 1, resolver, removeDescriptions)
    ensures WellFormed(Arr(current[i := v]))
    ensures PutAt(PutAt(doc, VersionsPath, Arr(current)), VersionsPath, Arr(current[i := v]))
      == PutAt(doc, VersionsPath, Arr(current[i := v]))
  {
    var next := current[i := v];
    assert i + 1 <= FirstFailure(items, resolver, removeDescriptions)
      && next == ResolvedUpTo(items, i + 1, resolver, removeDescriptions) by {
      ResolvedUpToNext(items, i, resolver, removeDescriptions);
    }
    UpdateWellFormed(current, i, v);
    PutAtTwice(doc, VersionsPath, Arr(current), Arr(next));
  }

  /** The v1 loop stopping at version `i`, because it failed or because
      there is none left: the document so far is the result of resolution. */
  lemma V1Stopped(doc: Json, items: seq<Json>, i: nat, current: seq<Json>,
                  resolver: Resolver, removeDescriptions: bool)
    requires WellFormed(doc) && At(doc, VersionsPath) == Some(Arr(items))
    requires i <= FirstFailure(items, resolver, removeDescriptions)
    requires current == ResolvedUpTo(items, i, resolver, removeDescriptions)
    requires WellFormed(Arr(current))
    requires i == |items| || ProcessVersion(current[i], resolver, removeDescriptions).Failure?
    ensures WellFormed(PutAt(doc, VersionsPath, Arr(current)))
    ensures V1Resolution(doc, resolver, removeDescriptions)
      == (PutAt(doc, VersionsPath, Arr(current)),
          if i == |items| then Done else Failed(ProcessVersion(current[i], resolver, removeDescriptions).error))
  {
    PutAtWellFormed(doc, VersionsPath, Arr(current));
    if i < |items| {
      ResolvedUpToNext(items, i, resolver, removeDescriptions);
    }
  }

  /** A loaded CRD document that resolution updates in place. */
  class CrdDocument {
    var root: Json

    ghost predicate Valid()
      reads this
    {
      WellFormed(root)
    }

    constructor (doc: Json)
      requires WellFormed(doc)
      ensures Valid() && root == doc
    {
      root := doc;
    }

    /** Check the kind, then let apiVersion pick the schema locations; each
        processed schema is written back into the document. */
    method Resolve(resolver: Resolver, removeDescriptions: bool) returns (outcome: Outcome)
      requires Valid() && YieldsTrees(resolver)
      modifies this
      ensures Valid()
      ensures (root, outcome) == Resolution(old(root), resolver, removeDescriptions)
    {
      var kind := Get(root, "kind");
      if kind.None? {
        return Failed(MalformedCrd);
      }
      if kind.value != Str(CrdKind) {
        return Failed(NotACrd);
      }
      var apiVersion := Get(root, "apiVersion");
      if apiVersion.None? {
        return Failed(MalformedCrd);
      }
      if apiVersion.value == Str(V1Beta1) {
        outcome := ResolveV1Beta1(resolver, removeDescriptions);
      } else if apiVersion.value == Str(V1) {
        outcome := ResolveV1(resolver, removeDescriptions);
      } else {
        var version := Get(root, "version");
        outcome := Failed(if version.Some? then UnsupportedApiVersion else MalformedCrd);
      }
    }

    /** Replace the schema at `spec.validation.openAPIV3Schema`. */
    method ResolveV1Beta1(resolver: Resolver, removeDescriptions: bool) returns (outcome: Outcome)
      requires Valid() && YieldsTrees(resolver)
      modifies this
      ensures Valid()
      ensures (root, outcome) == V1Beta1Resolution(old(root), resolver, removeDescriptions)
    {
      var schema := At(root, V1Beta1SchemaPath);
      if schema.None? {
        return Failed(MalformedCrd);
      }
      var resolved := ParseAndResolve(schema.value, resolver, removeDescriptions);
      if resolved.Failure? {
        return Failed(resolved.error);
      }
      PutAtWellFormed(root, V1Beta1SchemaPath, resolved.value);
      root := PutAt(root, V1Beta1SchemaPath, resolved.value);
      return Done;
    }

    /** Replace the schema of every element of `spec.versions`, one at a
        time. A failure part-way leaves the versions before it already
        written back. */
    method ResolveV1(resolver: Resolver, removeDescriptions: bool) returns (outcome: Outcome)
      requires Valid() && YieldsTrees(resolver)
      modifies this
      ensures Valid()
      ensures (root, outcome) == V1Resolution(old(root), resolver, removeDescriptions)
    {
      ghost var doc := root;
      var versions := At(root, VersionsPath);
      if versions.None? {
        return Failed(MalformedCrd);
      }
      if !versions.value.Arr? {
        return if IsEmptyIterable(versions.value) then Done else Failed(MalformedCrd);
      }
      var items := versions.value.items;
      AtWellFormed(root, VersionsPath);
      PutAtSame(root, VersionsPath);
      var current := items;
      assert current == ResolvedUpTo(items, 0, resolver, removeDescriptions);
      for i := 0 to |items|
        invariant i <= FirstFailure(items, resolver, removeDescriptions)
        invariant current == ResolvedUpTo(items, i, resolver, removeDescriptions)
        invariant WellFormed(Arr(current))
        invariant root == PutAt(doc, VersionsPath, Arr(current))
      {
        var resolved := ResolveVersion(current[i], resolver, removeDescriptions);
        if resolved.Failure? {
          V1Stopped(doc, items, i, current, resolver, removeDescriptions);
          return Failed(resolved.error);
        }
        var next := current[i := resolved.value];
        V1Advanced(doc, items, i, current, resolved.value, resolver, removeDescriptions);
        current := next;
        root := PutAt(root, VersionsPath, Arr(current));
      }
      V1Stopped(doc, items, |items|, current, resolver, removeDescriptions);
      return Done;
    }
  }

  // ---------------------------------------------------------------------
  // What resolution does to a CRD

  /** `after` is `before` with the value at `path` replaced by `v`: the path
      leads to `v`, and every path that parts from it leads where it did. */
  ghost predicate ReplacedAt(before: Json, after: Json, path: seq<string>, v: Json) {
    && At(after, path) == Some(v)
    && forall q :: Diverges(path, q) ==> At(after, q) == At(before, q)
  }

  lemma PutAtReplaces(j: Json, path: seq<string>, v: Json)
    requires At(j, path).Some?
    ensures ReplacedAt(j, PutAt(j, path, v), path, v)
  {
    AtPutAt(j, path, v, []);
    assert path + [] == path;
    forall q | Diverges(path, q) ensures At(PutAt(j, path, v), q) == At(j, q) {
      AtPutAtElsewhere(j, path, v, q);
    }
  }

  /** A document whose kind is not CustomResourceDefinition is rejected
      unchanged, whatever the resolver would do. */
  lemma ResolutionRejectsOtherKinds(doc: Json, resolver: Resolver, removeDescriptions: bool)
    requires Get(doc, "kind").Some? && Get(doc, "kind").value != Str(CrdKind)
    ensures Resolution(doc, resolver, removeDescriptions) == (doc, Failed(NotACrd))
  {
  }

  /** A CRD whose apiVersion is neither supported value is rejected
      unchanged; the error is the unsupported-version one only when the
      document has a top-level `version` key. */
  lemma ResolutionRejectsOtherApiVersions(doc: Json, resolver: Resolver, removeDescriptions: bool)
    requires Get(doc, "kind") == Some(Str(CrdKind)) && Get(doc, "apiVersion").Some?
    requires Get(doc, "apiVersion").value != Str(V1Beta1) && Get(doc, "apiVersion").value != Str(V1)
    ensures Resolution(doc, resolver, removeDescriptions).0 == doc
    ensures Resolution(doc, resolver, removeDescriptions).1 == Failed(UnsupportedApiVersion) <==> Get(doc, "version").Some?
    ensures Resolution(doc, resolver, removeDescriptions).1 == Failed(MalformedCrd) <==> Get(doc, "version").None?
  {
  }

  /** A v1beta1 CRD: resolution succeeds exactly when its one schema
      resolves; then that schema, and nothing else, is replaced by its
      processed form, which holds no removable extension. On failure the
      document is unchanged. */
  lemma ResolutionV1Beta1(doc: Json, resolver: Resolver, removeDescriptions: bool)
    requires Get(doc, "kind") == Some(Str(CrdKind)) && Get(doc, "apiVersion") == Some(Str(V1Beta1))
    requires At(doc, V1Beta1SchemaPath).Some?
    ensures var schema := At(doc, V1Beta1SchemaPath).value;
      var (after, outcome) := Resolution(doc, resolver, removeDescriptions);
      && (outcome == Done <==> resolver(schema).Some?)
      && (outcome != Done ==> after == doc && outcome == Failed(ResolutionFailed))
      && (outcome == Done ==>
            && ReplacedAt(doc, after, V1Beta1SchemaPath, Processed(schema, resolver, removeDescriptions).value)
            && NoRemovableKeys(Processed(schema, resolver, removeDescriptions).value))
  {
    var schema := At(doc, V1Beta1SchemaPath).value;
    ProcessedClean(schema, resolver, removeDescriptions);
    if resolver(schema).Some? {
      PutAtReplaces(doc, V1Beta1SchemaPath, Processed(schema, resolver, removeDescriptions).value);
    }
  }

  /** The versions list after processing its first `n` elements: each of
      those has only its schema replaced, by the processed form of its own
      original schema; the others are as they were. */
  lemma ResolvedUpToVersions(items: seq<Json>, n: nat, resolver: Resolver, removeDescriptions: bool, i: nat)
    requires n <= FirstFailure(items, resolver, removeDescriptions) && i < |items|
    ensures i >= n ==> ResolvedUpTo(items, n, resolver, removeDescriptions)[i] == items[i]
    ensures i < n ==>
      var schema := At(items[i], VersionSchemaPath).value;
      && At(items[i], VersionSchemaPath).Some?
      && Processed(schema, resolver, removeDescriptions).Success?
      && ReplacedAt(items[i], ResolvedUpTo(items, n, resolver, removeDescriptions)[i], VersionSchemaPath,
                    Processed(schema, resolver, removeDescriptions).value)
      && NoRemovableKeys(Processed(schema, resolver, removeDescriptions).value)
  {
    if i < n {
      var schema := At(items[i], VersionSchemaPath).value;
      ProcessedClean(schema, resolver, removeDescriptions);
      PutAtReplaces(items[i], VersionSchemaPath, Processed(schema, resolver, removeDescriptions).value);
    }
  }

  /** A v1 CRD with a versions list: resolution succeeds exactly when every
      version does; the versions before the first failing one (all of them on
      success) are processed, the rest are untouched, and nothing outside the
      versions list changes. */
  lemma ResolutionV1(doc: Json, resolver: Resolver, removeDescriptions: bool)
    requires Get(doc, "kind") == Some(Str(CrdKind)) && Get(doc, "apiVersion") == Some(Str(V1))
    requires At(doc, VersionsPath).Some? && At(doc, VersionsPath).value.Arr?
    ensures var items := At(doc, VersionsPath).value.items;
      var n := FirstFailure(items, resolver, removeDescriptions);
      var (after, outcome) := Resolution(doc, resolver, removeDescriptions);
      && (outcome == Done <==> forall i :: 0 <= i < |items| ==> ProcessVersion(items[i], resolver, removeDescriptions).Success?)
      && ReplacedAt(doc, after, VersionsPath, Arr(ResolvedUpTo(items, n, resolver, removeDescriptions)))
  {
    var items := At(doc, VersionsPath).value.items;
    var n := FirstFailure(items, resolver, removeDescriptions);
    assert Resolution(doc, resolver, removeDescriptions) == V1Resolution(doc, resolver, removeDescriptions);
    PutAtReplaces(doc, VersionsPath, Arr(ResolvedUpTo(items, n, resolver, removeDescriptions)));
  }

  /** One version fails exactly when its schema is missing, which is the
      `KeyError` of the lookup, or when the resolver fails on it. */
  lemma ProcessVersionOutcome(version: Json, resolver: Resolver, removeDescriptions: bool)
    ensures ProcessVersion(version, resolver, removeDescriptions).Success? <==> VersionResolves(version, resolver)
    ensures ProcessVersion(version, resolver, removeDescriptions).Failure? ==>
      ProcessVersion(version, resolver, removeDescriptions).error ==
        (if At(version, VersionSchemaPath).None? then MalformedCrd else ResolutionFailed)
  {
  }

  /** A v1 CRD with a versions list, in terms of the versions themselves:
      resolution succeeds exactly when every version has a schema that
      resolves; otherwise it stops at the first version that does not, with
      the error of that version, keeping the updates made before it. */
  lemma ResolutionV1Outcome(doc: Json, resolver: Resolver, removeDescriptions: bool)
    requires Get(doc, "kind") == Some(Str(CrdKind)) && Get(doc, "apiVersion") == Some(Str(V1))
    requires At(doc, VersionsPath).Some? && At(doc, VersionsPath).value.Arr?
    ensures var items := At(doc, VersionsPath).value.items;
      var n := FirstFailure(items, resolver, removeDescriptions);
      var (after, outcome) := Resolution(doc, resolver, removeDescriptions);
      && (outcome == Done <==> forall i :: 0 <= i < |items| ==> VersionResolves(items[i], resolver))
      && (forall i :: 0 <= i < n ==> VersionResolves(items[i], resolver))
      && (outcome != Done ==>
            && n < |items|
            && !VersionResolves(items[n], resolver)
            && outcome == Failed(if At(items[n], VersionSchemaPath).None? then MalformedCrd else ResolutionFailed))
      && ReplacedAt(doc, after, VersionsPath, Arr(ResolvedUpTo(items, n, resolver, removeDescriptions)))
  {
    var items := At(doc, VersionsPath).value.items;
    var n := FirstFailure(items, resolver, removeDescriptions);
    ResolutionV1(doc, resolver, removeDescriptions);
    assert Resolution(doc, resolver, removeDescriptions) == V1Resolution(doc, resolver, removeDescriptions);
    forall i | 0 <= i < |items|
      ensures ProcessVersion(items[i], resolver, removeDescriptions).Success? <==> VersionResolves(items[i], resolver)
    {
      ProcessVersionOutcome(items[i], resolver, removeDescriptions);
    }
    if n < |items| {
      ProcessVersionOutcome(items[n], resolver, removeDescriptions);
    }
  }
}
