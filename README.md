# Artifact store and caching interceptor, modelled in Dafny

This project models the artifact store of `langchain/docstore/artifacts.py`. The store has three parts:

- **`InMemoryStore`** (module `MetadataIndex`, file `metadata_index.dfy`). It is a list of metadata records (`custom_id`, `uuid`, `parent_uuids`, `metadata`) with two dictionary indexes, uuid → record and custom id → record. It offers order-preserving existence checks, lookup by uuid, the selector query `select`, append-only `add`, and `remove`.
- **`FileSystemArtifactLayer`** (module `ArtifactLayer`, file `artifact_layer.dfy`). It keeps one payload file per document hash under a root directory, plus a metadata store that it saves after every `add`. The root directory is a map from file name to file text.
- **`CachingInterceptor.transform_documents`** (module `Interceptor`, file `caching_interceptor.dfy`). It wraps a document transformer. It takes one existence snapshot per batch. Then, for each input, it either transforms that input alone and stores the outputs, or returns the children stored for its hash. Results come back in input order.

Shared values live in `records.dfy` (module `Records`: `Artifact`, `Document`, `Selector`). The error cases live in `errors.dfy` (module `Errors`: `KeyError`, `TypeError`, `FileNotFoundError`, `NotImplementedError`, and the generator result `Generated`).

The state-changing operations are class methods:

- `InMemoryStore.Add`;
- `FileSystemArtifactLayer.Add`, with its loop over the documents;
- `CachingInterceptor.TransformDocuments`, with its loop over the (document, exists) pairs.

Each method is proved against a specification function: `IndexBy`, `AddDocs` or `Intercept`. The properties of those functions are proved as lemmas. The list comprehensions and the `select` generator are functions.

A Python generator that may stop with an exception is modelled as `Generated(items, raised)`. `items` holds what it yielded before stopping, and `raised` is the exception, if any.

Where the code and the intended design differ, the model follows the code:

- `select` tests the `ids` clause against each record's **uuid**, not its custom id (line 147).
- `exists_by_uuid` looks uuids up in the **custom-id** index (line 136).
- `add` accepts colliding uuids and custom ids. The last writer wins in both indexes (lines 169-171).
- When the selector's `parent_hashes` is absent, `select` raises `TypeError` on a record that has parents and that neither the `ids` nor the `hashes` clause matched, because `set(...).intersection(None)` raises (lines 155-157). A record that one of those two clauses matches is yielded first, and the loop continues past it (lines 147-153).
- `remove` always raises. Nothing is ever removed (lines 173-180).

Concrete lemmas exhibit the first, second and fourth of these behaviours: `SelectIdsMatchUuids`, `ExistsByUuidConsultsCustomIds` and `SelectRaisesOnAbsentParentClause`. The contract of the method `InMemoryStore.Add` states the third: colliding keys are accepted and the new record wins. The contract of the method `InMemoryStore.Remove` states the fifth: it always raises.

## Model

| member | source | states |
|---|---|---|
| MetadataIndex.InMemoryStore.constructor | langchain/docstore/artifacts.py:119-128 | the store holds the given records and both indexes are the comprehensions over them (`Valid`) |
| MetadataIndex.IndexBy | langchain/docstore/artifacts.py:125-128 | definition, no contract of its own: the dictionary comprehension over the records, in list order, keyed by uuid or by custom id; a later record overwrites an earlier one with the same key (its properties are the `IndexBy…` lemmas below) |
| MetadataIndex.LastPos | langchain/docstore/artifacts.py:125-128 | the position of the last record carrying a key, or -1 if none does: the key is at that position and at no later one |
| MetadataIndex.IndexByLastWriterWins | langchain/docstore/artifacts.py:125-128 | a key is in an index iff some record carries it, and it maps to the LAST record carrying it |
| MetadataIndex.IndexByDomain | langchain/docstore/artifacts.py:125-128 | every index key belongs to a stored record, and every stored record's key is indexed |
| MetadataIndex.IndexByDomainAll | langchain/docstore/artifacts.py:125-128 | the same as `IndexByDomain`, for all keys at once |
| MetadataIndex.Presence | langchain/docstore/artifacts.py:130-136 | definition, no contract of its own: the list comprehension `[key in index for key in keys]` that both existence checks return (its meaning is stated by `ExistsById`, `ExistsByUuid` and `ExistsOrderIndependent`) |
| MetadataIndex.InMemoryStore.ExistsById | langchain/docstore/artifacts.py:130-132 | same length as the input; entry i is true iff some stored record has custom id `ids[i]` |
| MetadataIndex.ExistsOrderIndependent | langchain/docstore/artifacts.py:130-136 | existence answers depend only on the multiset of stored records, not on their order |
| MetadataIndex.InMemoryStore.ExistsByUuid | langchain/docstore/artifacts.py:134-136 | same length as the input; entry i is true iff some stored record has CUSTOM ID `uuids[i]` (the custom-id index is consulted) |
| MetadataIndex.ExistsByUuidConsultsCustomIds | langchain/docstore/artifacts.py:134-136 | for a store whose one record has custom id "doc-1" and uuid "h1", asking for `["h1", "doc-1"]` answers `[false, true]` |
| MetadataIndex.LookupAll | langchain/docstore/artifacts.py:140 | succeeds iff every key is indexed, returning the indexed value of each key in order; otherwise fails with `KeyError` on the first missing key |
| MetadataIndex.InMemoryStore.GetByUuids | langchain/docstore/artifacts.py:138-140 | succeeds iff every uuid is stored; entry i is then the last stored record with uuid `uuids[i]`; otherwise `KeyError` names the first uuid no record carries |
| MetadataIndex.Step | langchain/docstore/artifacts.py:147-159 | definition, no contract of its own: the loop body on one record, with its three tests in source order; it yields, skips, or raises when the record has parents and `parent_hashes` is absent (stated by `StepAgrees`) |
| MetadataIndex.StepAgrees | langchain/docstore/artifacts.py:147-159 | one loop iteration yields iff the record matches some clause (uuid in `ids`, uuid in `hashes`, or a parent in `parent_hashes`), and raises iff no earlier clause matched, the record has parents and `parent_hashes` is absent |
| MetadataIndex.FirstRaise | langchain/docstore/artifacts.py:146-159 | the index of the first record on which the loop raises, or the list length if none raises |
| MetadataIndex.SelectFrom | langchain/docstore/artifacts.py:142-159 | definition, no contract of its own: the generator `select` over a record list, as the uuids yielded and the exception it stops with, if any (stated by `SelectFromSound`, `SelectRaisesIff` and `SelectYieldsMatches`) |
| MetadataIndex.SelectFromSound | langchain/docstore/artifacts.py:142-159 | `select` yields, in list order, the uuids of the matching records before the first raising record, and then stops with `TypeError` if such a record exists |
| MetadataIndex.SelectRaisesIff | langchain/docstore/artifacts.py:142-159 | `select` finishes without raising iff no record raises, and then it yields exactly the matching records' uuids |
| MetadataIndex.InMemoryStore.Select | langchain/docstore/artifacts.py:142-159 | the store's `select` does not raise iff no stored record raises, and then it yields the matching uuids in list order |
| MetadataIndex.MatchedMembership | langchain/docstore/artifacts.py:146-159 | a uuid is among the matched uuids iff it is the uuid of a stored record that matches |
| MetadataIndex.MatchedIsSubsequence | langchain/docstore/artifacts.py:146-159 | the matched uuids are a subsequence of the records' uuids: list order, each record at most once |
| MetadataIndex.SelectYieldsMatches | langchain/docstore/artifacts.py:142-159 | every uuid `select` yields, including before a raise, belongs to a stored record that matches |
| MetadataIndex.SelectIsUnion | langchain/docstore/artifacts.py:147-159 | with `parent_hashes` present, `select` never raises, and it yields a uuid iff one of the three single-clause selectors yields it (OR of the clauses) |
| MetadataIndex.EmptyClausesSelectNothing | langchain/docstore/artifacts.py:147-157 | a selector whose clauses are all empty selects nothing and does not raise |
| MetadataIndex.SelectIdsMatchUuids | langchain/docstore/artifacts.py:147 | the `ids` clause names uuids: `ids: ["x"]` does not select the record whose custom id is "x", and `ids: ["hA"]` selects the record whose uuid is "hA" |
| MetadataIndex.SelectRaisesOnAbsentParentClause | langchain/docstore/artifacts.py:155-157 | with `parent_hashes` absent, a record with parents that no earlier clause matched makes `select` raise `TypeError` after the uuids already yielded |
| MetadataIndex.InMemoryStore.Add | langchain/docstore/artifacts.py:166-171 | appends exactly the new record, keeps the earlier ones, and points both indexes at it without rejecting collisions; the index invariant is kept |
| MetadataIndex.IndexAfterAppend | langchain/docstore/artifacts.py:166-171 | the index over the longer list is the old index with the new record written over its key |
| MetadataIndex.InMemoryStore.RemoveByUuids | langchain/docstore/artifacts.py:178-180 | always raises `NotImplementedError` |
| MetadataIndex.InMemoryStore.Remove | langchain/docstore/artifacts.py:173-176 | always raises and changes nothing: it raises `TypeError` when `select` raises, and `NotImplementedError` otherwise |
| ArtifactLayer.FilePath | langchain/docstore/artifacts.py:212-214 | definition, no contract of its own: a uuid's payload file is named by the uuid itself under the root, the same name `add` writes at line 221 |
| ArtifactLayer.ToArtifact | langchain/docstore/artifacts.py:225-232 | definition, no contract of its own: the record `add` writes for a document (custom id = id, uuid = hash, parents = parent hashes, metadata) |
| ArtifactLayer.RecordsOf | langchain/docstore/artifacts.py:219-232 | `add` appends exactly one record per document |
| ArtifactLayer.RecordsOfAt | langchain/docstore/artifacts.py:225-232 | record i carries document i's id as custom id, its hash as uuid, and its parent hashes and metadata |
| ArtifactLayer.RecordsOfAppend | langchain/docstore/artifacts.py:219-232 | the records of two batches, one after the other, are the records of their concatenation |
| ArtifactLayer.WriteFiles | langchain/docstore/artifacts.py:219-223 | definition, no contract of its own: the payload writes of `add`, in document order, each document's serialization under its hash (stated by the `WriteFiles…` lemmas below) |
| ArtifactLayer.AddDocs | langchain/docstore/artifacts.py:216-232 | definition, no contract of its own: the whole effect of `add` on a layer state, the payload writes plus one appended record per document (stated by `AddDocsAppend`, `AddDocsKeepsPayloads` and `FileSystemArtifactLayer.Add`) |
| ArtifactLayer.WriteFilesFrame | langchain/docstore/artifacts.py:219-223 | a file whose name is none of the documents' hashes is neither created nor changed |
| ArtifactLayer.WriteFilesLast | langchain/docstore/artifacts.py:219-223 | the file named by a document's hash holds the serialization of the last document with that hash |
| ArtifactLayer.WriteFilesKeys | langchain/docstore/artifacts.py:219-223 | after the writes, a file exists iff it existed before or is named by some document's hash |
| ArtifactLayer.AddDocsAppend | langchain/docstore/artifacts.py:216-232 | two `add` calls in a row have the effect of one `add` of the concatenated documents |
| ArtifactLayer.AddDocsKeepsPayloads | langchain/docstore/artifacts.py:216-232 | if every record has its payload file before `add`, every record also has one after |
| ArtifactLayer.FileSystemArtifactLayer.constructor | langchain/docstore/artifacts.py:193-202 | the layer opens over the root's files, with a store loaded from the saved records; the saved snapshot and the store's records agree (`Valid`), as they do after every `add` |
| ArtifactLayer.FileSystemArtifactLayer.ExistsByUuid | langchain/docstore/artifacts.py:204-206 | delegates to the store, so entry i is true iff some record has custom id `uuids[i]` |
| ArtifactLayer.FileSystemArtifactLayer.ExistsById | langchain/docstore/artifacts.py:208-210 | delegates to the store: entry i is true iff some record has custom id `ids[i]` |
| ArtifactLayer.FileSystemArtifactLayer.Exists | langchain/docstore/artifacts.py:265 | definition, no contract of its own: `exists`, inherited from a base class that is not part of this model, as the layer's function-valued field applied to the layer's state |
| ArtifactLayer.FileSystemArtifactLayer.GetChildDocuments | langchain/docstore/artifacts.py:279 | definition, no contract of its own: `get_child_documents`, inherited from a base class that is not part of this model, as the layer's function-valued field applied to the layer's state |
| ArtifactLayer.FileSystemArtifactLayer.Add | langchain/docstore/artifacts.py:216-234 | the new state is the old one with each document's serialization written under its hash and its record appended, in order; the saved metadata equals the store's records; the store stays consistent (`Valid`) |
| ArtifactLayer.ReadPayloads | langchain/docstore/artifacts.py:240-244 | reads the selected uuids' files in order, yielding the deserialized text of each; stops with `FileNotFoundError` at the first uuid without a file, and otherwise ends as `select` ended |
| ArtifactLayer.MatchingDocuments | langchain/docstore/artifacts.py:236-244 | definition, no contract of its own: `select` on the records followed by reading each selected uuid's file (stated by `ReadPayloads` and `MatchingWithPayloads`) |
| ArtifactLayer.MatchingWithPayloads | langchain/docstore/artifacts.py:236-244 | when every record has its payload, `get_matching_documents` yields one deserialized document per uuid `select` yields, in that order, and raises iff `select` raises |
| ArtifactLayer.FileSystemArtifactLayer.GetMatchingDocuments | langchain/docstore/artifacts.py:236-244 | the same as `MatchingWithPayloads`, for the layer's own state |
| ArtifactLayer.SelectByHashAfterAdd | langchain/docstore/artifacts.py:151-153 | after `add(ds)`, selecting by the hash of one of `ds` does not raise, yields something, and yields only that hash |
| ArtifactLayer.GetAfterAdd | langchain/docstore/artifacts.py:212-244 | if `deserialize` undoes `serialize` and the hash is not `metadata.json`, then selecting by the hash of an added document (the last one with that hash) reads back that very document, at least once and nothing else, with no raise: `get_matching_documents` reads the file `add` wrote |
| Interceptor.Ids | langchain/docstore/artifacts.py:265 | definition, no contract of its own: the list comprehension `[document.id for document in documents]` |
| Interceptor.Zip | langchain/docstore/artifacts.py:270 | definition, no contract of its own: Python's `zip`, which pairs up to the shorter of its two arguments (that it drops nothing here is `EveryInputHandled`) |
| Interceptor.Answer | langchain/docstore/artifacts.py:271-280 | definition, no contract of its own: what one pair contributes to `new_docs`, either a transformer call on `[document]` or the stored children of its hash |
| Interceptor.Advance | langchain/docstore/artifacts.py:270-280 | definition, no contract of its own: one loop iteration on the progress (output so far, calls so far, layer state) |
| Interceptor.Intercept | langchain/docstore/artifacts.py:268-281 | definition, no contract of its own: the whole loop as `Advance` over the pairs, from the empty output, no calls and the initial layer state (stated by `InterceptCalls`, `InterceptState` and `InterceptOutput`) |
| Interceptor.CachingInterceptor.constructor | langchain/docstore/artifacts.py:248-259 | the interceptor wraps the given layer and transformer and has made no transformer calls |
| Interceptor.CachingInterceptor.HandleOne | langchain/docstore/artifacts.py:271-280 | for an absent input: one transformer call on `[document]`, whose outputs are added to the layer and returned, and the saved metadata then equals the store's records; for a present input: the stored children of its hash, with the layer, the saved metadata and the calls unchanged |
| Interceptor.CachingInterceptor.HandleAt | langchain/docstore/artifacts.py:270-280 | one loop turn carries the loop's invariant from the pairs before `i` to those up to `i`: progress equals `Intercept` on that prefix, the interceptor's calls are the old ones plus the progress's calls; the layer stays consistent, so the saved metadata equals the store's records |
| Interceptor.CachingInterceptor.TransformDocuments | langchain/docstore/artifacts.py:261-282 | result, new layer state and new transformer calls are those of the loop over the inputs, each paired with the existence answer taken ONCE from the layer as it was before the loop; the saved metadata equals the records of that final layer state |
| Interceptor.CachingInterceptor.Run | langchain/docstore/artifacts.py:268-282 | the loop over the given pairs: result, layer state and calls are those of `Intercept` from the state before the loop, and the saved metadata equals the records of that final layer state |
| Interceptor.LoopStep | langchain/docstore/artifacts.py:270-280 | each iteration extends the loop's progress by exactly what it does for its (document, exists) pair |
| Interceptor.EveryInputHandled | langchain/docstore/artifacts.py:265-270 | when `exists` answers by id, `zip` drops no input, and each input is paired with whether its id was stored before the loop |
| Interceptor.SingleLookup | langchain/docstore/artifacts.py:265-270 | a one-document batch is paired with whether its id is stored |
| Interceptor.InterceptCalls | langchain/docstore/artifacts.py:270-274 | the transformer is called exactly once per input absent from the snapshot, in input order, each time on the singleton `[document]` |
| Interceptor.InterceptState | langchain/docstore/artifacts.py:270-276 | the layer ends as if the transformer outputs of all absent inputs had been added, in order |
| Interceptor.InterceptOutput | langchain/docstore/artifacts.py:268-282 | the result is the in-order concatenation of each input's contribution: its transformer outputs if it was absent, otherwise the children stored for its hash in the layer as the earlier inputs left it |
| Interceptor.ContributionFromProgress | langchain/docstore/artifacts.py:270-280 | input i's contribution is what the loop does for it, given the calls made and the layer state reached over the inputs before it |
| Interceptor.LastContribution | langchain/docstore/artifacts.py:270-280 | the last iteration appends the last input's contribution |
| Interceptor.InterceptOne | langchain/docstore/artifacts.py:270-280 | on one input: one call and its outputs added if the input is absent, otherwise its stored children |
| Interceptor.DuplicateIdsBothTransformed | langchain/docstore/artifacts.py:265-274 | two inputs of one batch with the same unknown id are both transformed, because existence is checked once |
| Interceptor.StoredAfterAdd | langchain/docstore/artifacts.py:275 | after adding outputs, an id is stored iff it was stored before or some output carries it |
| Interceptor.RepeatedDocument | langchain/docstore/artifacts.py:265-282 | an unknown document fed twice: the first batch calls the transformer once; the second calls it again unless some output of the first carries the input's own id, and in that case it returns the stored children and leaves the layer unchanged |

## Left out

- File and JSON input/output are not modelled: `open`, `json.dump`, `json.load`, `save`, `from_file` and `Path` arithmetic. The root directory is a map from file name to text. `metadata.json` is the record list passed to the layer's constructor. Each save (`save` at lines 161-164, called at line 234) copies the store's records into `metadataFile`.
- The payload map `files` does not hold `metadata.json`. In the code, the snapshot (line 200) and the payloads (lines 214, 221) share the root directory. So a document whose hash is `"metadata.json"` would have its payload overwritten by the save at line 234, and a later `get_matching_documents` would read back the metadata JSON. The model keeps the two apart, so this collision is not modelled. `WriteFilesLast` speaks of the payload map only.
- GetAfterAdd: requires the document's hash to differ from `MetadataPath` (`"metadata.json"`), because for that hash the code does not give the round trip (see the line above).
- The layer constructor joins `root / "metadata.json"` on the argument rather than on the converted `self.root` (line 200), so a plain-string root raises `TypeError`. Path construction is not modelled, so this is left out too.
- `serialize_document` and `deserialize_document` are not part of this model. They are function-valued fields of the layer. `GetAfterAdd` assumes `deserialize(serialize(d)) == d` as a hypothesis.
- `ArtifactLayer.exists` and `get_child_documents` are inherited from a base class that is not part of this model. They are function-valued fields of the layer's state. `ExistsIsById` (exists answers like `exists_by_id`) is a hypothesis of the lemmas that need it.
- The wrapped document transformer is a function of the number of earlier calls and the batch, so it may answer differently on every call. Its `**kwargs` are not modelled.
- Aliasing is not modelled. The store holds its records as values, so a later change to the caller's `data` dictionary is not seen.
- Line 78 binds `json` to `langchain.output_parsers.json`, not to Python's standard `json` module. `json.dump` (line 164) and `json.load` (line 186) therefore come from a module that is not part of this model. Treating the save as a copy of the records, and the load as reading them back, assumes that module acts like the standard one.
- `Selector` comes from `langchain.docstore.base`, which is not part of this model. The model assumes each of its three clauses is an optional list of strings that may be absent (`None`).
- An exception raised by the wrapped transformer would propagate out of `transform_documents` and leave the earlier inputs' `add` calls in place. The model's transformer is a total function, so this path is not modelled.
- `CachingInterceptor` accepts any `ArtifactLayer` (line 250). The model wraps a `FileSystemArtifactLayer` only, the one layer defined in the file.
- Concurrency is not modelled: the multi-process race on `metadata.json` noted at lines 196-199.
- The API sketches in the module docstring (lines 11-57) are not implemented in the code, so they are not modelled. These are `sync`, provenance `startswith` selectors and time-range selectors.
- Intended-design behaviours that the code does not perform are not modelled: collision errors, a duplicate error, and setting parent hashes on transformer outputs.
- `FileSystemArtifactLayer.GetMatchingDocuments`: its contract describes the result only when every record has its payload file. The missing-file case (`FileNotFoundError` at the first missing file) is stated by `ReadPayloads`, which the function returns on the selected uuids.
