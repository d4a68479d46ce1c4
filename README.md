# k8s-crd-resolver, modelled in Dafny

k8s-crd-resolver takes a Kubernetes CustomResourceDefinition (CRD), resolves
the `$ref` pointers in its embedded OpenAPI v3 schemas, and writes the CRD
back. This project models the part of `k8s_crd_resolver/__init__.py` that lies
around reference resolution, and proves properties of it:

- **Extension pruning** (`remove_k8s_extentions`, with the allow-list
  `K8S_SCHEMA_EXTENSIONS`). It deletes every mapping key that starts with
  `x-kubernetes-` and is not on the allow-list, and it recurses into the value
  of every key it keeps.
- **Description pruning** (`remove_k8s_descriptions`). It walks the resolved
  schema side by side with the unresolved one. It deletes every `description`
  key that the unresolved schema does not have at the same position.
- **One-schema processing** (`parse_and_resolve`). It resolves a schema, prunes
  its extensions and, when asked, its imported descriptions.
- **CRD dispatch** (`resolve`, lines 114-127). It checks `kind`, lets
  `apiVersion` pick where the schemas are, and writes each processed schema back
  into the loaded document in place.

A loaded YAML document is the datatype `Json.Json`. A mapping is an
insertion-ordered list of entries, as a Python dict is. `Json.WellFormed` says
that every mapping has distinct keys. `Json.Lookup`, `Json.Delete` and
`Json.Assign` are `d[k]`, `del d[k]` and `d[k] = v`. `Json.At` and `Json.PutAt`
read and write along a path of keys, as `d[a][b][c]` does.

The two pruners are methods. Each has the source's loop over a snapshot of the
keys (`for k in list(schema.keys())`), which deletes or re-assigns one key per
turn. Where the code prunes `schema[k]` in place by a recursive call, the model
returns the pruned value and assigns it back under `k`; the key keeps its
position. Each is proved equal to a recursive specification function
(`Extensions.ExtensionsRemoved` or `Descriptions.DescriptionsRemoved`). Lemmas
about those functions then characterise the pruned tree:

- what is left at every path;
- which trees the pruner leaves as they are;
- idempotence;
- that keys stay distinct.

The loaded CRD is the class `Crd.CrdDocument`, whose field `root` the
resolution method updates in place. For v1 this happens once per version, as
`version['schema']['openAPIV3Schema'] = ...` does. The method is proved against
the function `Crd.Resolution`, and lemmas state what that function changes and
what it leaves alone.

The reference resolver (the `prance` library) is outside the model. It is a
parameter of type `Json -> Option<Json>`, where `None` means that resolution
raised an error. The model assumes two things about it:

- It is a function of the schema alone. The same schema always resolves the
  same way, whenever and wherever it is resolved. In the code, `prance` also
  fetches external references relative to the temporary file, so the outcome
  can depend on files and network resources that the model does not see.
- The trees it returns are well formed (`Crd.YieldsTrees`).

Python exceptions become results. `Crd.Outcome` is either `Done` or
`Failed(error)`, with these errors:

- `MalformedCrd` stands for a `KeyError` or `TypeError` raised while following a
  path;
- `NotACrd` and `UnsupportedApiVersion` are the two `TypeError`s the code raises
  on purpose;
- `ResolutionFailed` stands for an error from the resolver.

A few behaviours of the code are easy to misread, and the model keeps each of
them as the code has it:

- Extension pruning recurses only into mappings (`isinstance(schema, dict)`,
  line 52). A list, and every mapping inside it, is left as it is, although a
  reader might expect lists to be descended.
- The values of allow-listed keys are still pruned (line 57); they are not kept
  verbatim.
- The unsupported-apiVersion branch (line 127) formats its message from the
  top-level `version` key, not from `apiVersion`. A CRD without a `version` key
  therefore fails there with a `KeyError` (`MalformedCrd`), not with the
  intended `TypeError`. Either way the document is left unchanged.
- In the v1 branch the code iterates over `spec.versions` with a plain `for`.
  An empty mapping or an empty string is iterated zero times and succeeds with
  no change. Any other value that is not a list fails.
- When one version fails, the versions before it have already been written
  back. The model keeps those updates.

## Model

| member | source | states |
|---|---|---|
| Extensions.IsRemovable | k8s_crd_resolver/__init__.py:54 | no contract of its own: the test `k.startswith('x-kubernetes-') and k not in K8S_SCHEMA_EXTENSIONS`; `Extensions.AllowListExempt` and the pruning lemmas state its consequences |
| Extensions.AllowListExempt | k8s_crd_resolver/__init__.py:40-48 | every allow-listed name (`Extensions.AllowList`) carries the `x-kubernetes-` prefix and is never removed |
| Extensions.AllowListedKept | k8s_crd_resolver/__init__.py:40-57 | an allow-listed key reached along keys that are not removed survives pruning, and its value is pruned |
| Extensions.RemoveExtensions | k8s_crd_resolver/__init__.py:51-57 | the snapshot loop, which deletes removable keys and recurses into the values of the rest, yields exactly `ExtensionsRemoved` of its input |
| Extensions.ExtensionsRemoved | k8s_crd_resolver/__init__.py:52 | only mappings are changed; any other value, a list included, is returned as it is |
| Extensions.KeptFieldsKeys | k8s_crd_resolver/__init__.py:53-55 | the keys left in a pruned mapping are exactly its non-removable keys, in their original order |
| Extensions.LookupKept | k8s_crd_resolver/__init__.py:54-57 | after pruning, a removable key is absent; any other key is present exactly when it was, with its value pruned |
| Extensions.ExtensionsRemovedAt | k8s_crd_resolver/__init__.py:51-57 | a path through a removable key leads nowhere after pruning; any other path leads somewhere exactly when it did before, to the pruned original value |
| Extensions.ExtensionsRemovedClean | k8s_crd_resolver/__init__.py:38-57 | after pruning, no `x-kubernetes-` key outside the allow-list remains anywhere reachable through mappings |
| Extensions.ExtensionsRemovedFixedPoint | k8s_crd_resolver/__init__.py:51-57 | pruning leaves a tree unchanged if and only if the tree has no reachable removable key |
| Extensions.ExtensionsRemovedIdempotent | k8s_crd_resolver/__init__.py:51-57 | pruning a pruned tree changes nothing |
| Extensions.ExtensionsRemovedWellFormed | k8s_crd_resolver/__init__.py:51-57 | pruning keeps every mapping's keys distinct |
| Extensions.KeptFieldsStep | k8s_crd_resolver/__init__.py:53-57 | one loop turn: the snapshot key is still present with its original value, and deleting it or re-assigning its pruned value extends the processed prefix by one entry |
| Descriptions.RemoveDescriptions | k8s_crd_resolver/__init__.py:62-71 | the paired snapshot loop (recurse against the source's value when the source mapping has the key; else delete `description`; else recurse with no source) yields exactly `DescriptionsRemoved` |
| Descriptions.DescriptionsRemoved | k8s_crd_resolver/__init__.py:63 | only mappings of the resolved tree are changed; any other value is returned as it is |
| Descriptions.StrippedFieldsKeys | k8s_crd_resolver/__init__.py:64-71 | the keys left in a pruned mapping are exactly those the source mapping has, plus every key other than `description`, in their original order |
| Descriptions.LookupStripped | k8s_crd_resolver/__init__.py:64-71 | a `description` the source mapping lacks is absent after pruning; any other key is present exactly when it was, its value pruned against the source's value for that key |
| Descriptions.DescriptionsRemovedAt | k8s_crd_resolver/__init__.py:62-71 | a path through a `description` that the source lacks at that position leads nowhere after pruning; any other path leads somewhere exactly when it did before, to the original value pruned against the source at the same path |
| Descriptions.DescriptionsRemovedWithoutSource | k8s_crd_resolver/__init__.py:65-71 | with a source that is not a mapping (`None` for a subtree imported by a reference, or a list or scalar the source holds there), every reachable `description` is removed and every path without one survives |
| Descriptions.DescriptionsRemovedNothingImported | k8s_crd_resolver/__init__.py:60-66 | a well-formed schema pruned against itself loses nothing: descriptions written in the CRD are left alone |
| Descriptions.DescriptionsRemovedIdempotent | k8s_crd_resolver/__init__.py:62-71 | pruning twice against the same source changes nothing more than pruning once |
| Descriptions.DescriptionsRemovedWellFormed | k8s_crd_resolver/__init__.py:62-71 | pruning keeps every mapping's keys distinct |
| Descriptions.PruneEntry | k8s_crd_resolver/__init__.py:65-71 | one turn of the loop body, for the snapshot key at position `i`: whichever branch it takes, it extends the processed prefix of the mapping by that entry |
| Descriptions.StrippedFieldsLookup | k8s_crd_resolver/__init__.py:64-66 | before turn `i`, the snapshot key is still present with its original value |
| Descriptions.StrippedFieldsKeep | k8s_crd_resolver/__init__.py:65-66 | for a surviving key, reassigning its value pruned against the source's value extends the processed prefix by one entry |
| Descriptions.StrippedFieldsDrop | k8s_crd_resolver/__init__.py:68-69 | for a `description` the source mapping lacks, deleting it extends the processed prefix by no entry |
| Descriptions.DeletedStep | k8s_crd_resolver/__init__.py:65-71 | a path is cut at its first key exactly when that key is a `description` the source lacks, or when the rest of the path is cut against the source's value for that key |
| Crd.Processed | k8s_crd_resolver/__init__.py:89-98 | a schema is processed exactly when the resolver succeeds on it; otherwise the error is the resolver's failure |
| Crd.ProcessVersion | k8s_crd_resolver/__init__.py:123-125 | no contract of its own: it is the specification of `Crd.ResolveVersion`, which is proved equal to it; `Crd.ProcessVersionOutcome` states when it fails and with which error, and `Crd.ResolvedUpToVersions` what it does to each version |
| Crd.ProcessVersionOutcome | k8s_crd_resolver/__init__.py:123-125 | a version is processed exactly when it has a `schema.openAPIV3Schema` that the resolver accepts; a missing schema is `MalformedCrd` (the `KeyError`), a resolver failure is `ResolutionFailed` |
| Crd.ParseAndResolve | k8s_crd_resolver/__init__.py:89-98 | resolves, then prunes extensions, then prunes descriptions against the unresolved schema when asked; the resolver's failure is passed on, and the result is well formed |
| Crd.ProcessedClean | k8s_crd_resolver/__init__.py:89-98 | a processed schema holds no removable extension; with description pruning on, it holds no `description` that the unresolved schema lacks at the same path |
| Crd.DescriptionsRemovedKeepsClean | k8s_crd_resolver/__init__.py:92-96 | description pruning after extension pruning brings back no removable extension |
| Crd.FirstFailure | k8s_crd_resolver/__init__.py:122-125 | the loop's stopping point: every version before it processes successfully, and the version at it, if any, fails |
| Crd.ResolvedUpTo | k8s_crd_resolver/__init__.py:122-125 | the versions list keeps its length while its first versions are processed |
| Crd.ResolvedUpToNext | k8s_crd_resolver/__init__.py:122-125 | before turn `i` the version at `i` is still the original; if it fails, it is the first failure; if it succeeds, writing it back extends the processed prefix by one |
| Crd.ResolveVersion | k8s_crd_resolver/__init__.py:123-125 | one version: a missing `schema.openAPIV3Schema` or a failed resolution is an error; otherwise the version with its schema replaced by the processed one |
| Crd.V1Advanced | k8s_crd_resolver/__init__.py:122-125 | after version `i` succeeds, the loop has not yet reached the first failure; the list with version `i` replaced is the list processed up to `i + 1`, and it stays well formed; writing it back supersedes the previous write of the list |
| Crd.V1Stopped | k8s_crd_resolver/__init__.py:122-125 | when the loop stops at a failure or at the end, the document so far is the result of resolution, with `Done` exactly at the end |
| Crd.Resolution | k8s_crd_resolver/__init__.py:114-127 | the document changes only when its `kind` is CustomResourceDefinition and its `apiVersion` is v1beta1 or v1 |
| Crd.V1Beta1Resolution | k8s_crd_resolver/__init__.py:117-120 | the v1beta1 branch succeeds exactly when `spec.validation.openAPIV3Schema` exists and resolves; when it does not succeed the document is unchanged |
| Crd.V1Resolution | k8s_crd_resolver/__init__.py:121-125 | the v1 branch changes the document only when `spec.versions` exists and is a list |
| Crd.CrdDocument.constructor | k8s_crd_resolver/__init__.py:100-106 | the loaded document, with distinct keys in every mapping |
| Crd.CrdDocument.Resolve | k8s_crd_resolver/__init__.py:114-127 | the new document and the outcome are those of `Resolution` on the old document: kind check, then apiVersion dispatch, with lookup failures as errors; mappings keep distinct keys |
| Crd.CrdDocument.ResolveV1Beta1 | k8s_crd_resolver/__init__.py:117-120 | the schema at `spec.validation.openAPIV3Schema` is replaced by its processed form; on failure the document is unchanged |
| Crd.CrdDocument.ResolveV1 | k8s_crd_resolver/__init__.py:121-125 | each element of `spec.versions` is updated in place, in order, until one fails; the updates before a failure stay |
| Crd.PutAtReplaces | k8s_crd_resolver/__init__.py:120 | writing at an existing path puts the new value there and changes nothing at any path that parts from it |
| Crd.ResolutionRejectsOtherKinds | k8s_crd_resolver/__init__.py:114-115 | a document whose `kind` is not CustomResourceDefinition is rejected unchanged |
| Crd.ResolutionRejectsOtherApiVersions | k8s_crd_resolver/__init__.py:126-127 | a CRD with any other apiVersion is rejected unchanged; the error is the unsupported-version one exactly when a top-level `version` key exists |
| Crd.ResolutionV1Beta1 | k8s_crd_resolver/__init__.py:117-120 | a v1beta1 CRD succeeds exactly when its schema resolves; then only that schema is replaced, by a form free of removable extensions; on failure the document is unchanged |
| Crd.ResolvedUpToVersions | k8s_crd_resolver/__init__.py:122-125 | each processed version has only its own schema replaced, by the processed form of its original schema, which holds no removable extension; the other versions are unchanged |
| Crd.ResolutionV1 | k8s_crd_resolver/__init__.py:121-125 | a v1 CRD with a versions list succeeds exactly when every version processes; only the versions list changes, and it holds the versions processed up to the first failure |
| Crd.ResolutionV1Outcome | k8s_crd_resolver/__init__.py:121-125 | a v1 CRD with a versions list succeeds exactly when every version has a schema that resolves; otherwise the loop stops at the first version that does not, failing with `MalformedCrd` if that version has no schema and `ResolutionFailed` if its resolution failed; the versions before it have resolved and are written back; only the versions list changes |
| Json.Delete | k8s_crd_resolver/__init__.py:55 | `del d[k]` on a present key removes one entry. The model's `Delete` is total: where Python would raise `KeyError` on an absent key, it returns the mapping unchanged. Line 55 deletes only snapshot keys that are still present, so the pruner never reaches that case |
| Json.Assign | k8s_crd_resolver/__init__.py:57 | after `d[k] = v` the key `k` is present and no key has been lost |
| Json.At | k8s_crd_resolver/__init__.py:118 | a chained lookup `d[a][b]...` that finds a value starts at a mapping holding its first key |
| Json.PutAt | k8s_crd_resolver/__init__.py:120 | the model's chained write is total: at a path that does not exist, where Python would raise `KeyError` or create the last key, it returns the document unchanged. Lines 118 and 123 read the path before lines 120 and 125 write it, so the dispatch never reaches that case |
| Json.Lookup | k8s_crd_resolver/__init__.py:57 | `d[k]` finds a value exactly when `k` is one of the mapping's keys |
| Json.AtPutAt | k8s_crd_resolver/__init__.py:120 | after `d[a]...[z] = v` at an existing path, what lies below that path is what lies below `v` |
| Json.AtPutAtElsewhere | k8s_crd_resolver/__init__.py:120 | a write at a path changes nothing at any path that parts from it |
| Json.PutAtTwice | k8s_crd_resolver/__init__.py:125 | a second write at the same path supersedes the first |
| Json.PutAtSame | k8s_crd_resolver/__init__.py:122-125 | writing back the value already at a path changes nothing |
| Json.PutAtWellFormed | k8s_crd_resolver/__init__.py:120 | writing a well-formed value into a well-formed document keeps it well formed |
| Json.LookupAssign | k8s_crd_resolver/__init__.py:57 | after the pruned value is written back under `k`, looking up `k` gives it and every other key gives what it gave before |
| Json.EntryIndex | k8s_crd_resolver/__init__.py:57 | `d[k]` finds the entry of a key that is not among the earlier keys |
| Json.EntryDelete | k8s_crd_resolver/__init__.py:55 | `del d[k]` on a key not among the earlier keys removes exactly that key's entry |
| Json.EntryAssign | k8s_crd_resolver/__init__.py:57 | writing a value back under a key not among the earlier keys replaces exactly that key's value, in its position |

## Left out

- Reference resolution. The `prance` library is foreign code; it is a
  parameter of type `Json -> Option<Json>`, so resolution always ends, with
  a tree or with a failure. The model assumes it depends on the schema alone,
  so references that `prance` fetches relative to the temporary file are not
  seen. It also assumes the resolver returns well-formed trees
  (`Crd.YieldsTrees`). `$ref` syntax, external files, URLs and cycles are
  therefore not modelled.
- Building the OpenAPI skeleton, the temporary file, and YAML loading and
  dumping in `parse_and_resolve` and `resolve`. These are I/O; the schema
  passes to the resolver directly.
- The JSON Patch step (lines 108-112 and 129-130). It uses a foreign library.
  Line 109 also sets the patch to `None` before line 110 checks it, so the step
  can never take effect.
- Command-line parsing and `main`. They are I/O.
- The exact Python exception types. They are the `Crd.Error` values described
  above, and the message texts are not modelled.
- Floating-point scalars and mapping keys that are not strings. The model's
  keys are strings. A non-string key would make `startswith` raise, and that
  path is not modelled.
- Aliasing. In a YAML document with anchors, two places can share one Python
  dict, and an in-place update through one place shows at the other. The model
  has value semantics, and the pruners return the new tree. `Crd.CrdDocument`
  holds the whole document as one value that is replaced path by path.
- Duplicate keys in a mapping. Safe YAML loading does not produce them, so the
  pruning methods require well-formed input.
