/** The file-system artifact layer (`FileSystemArtifactLayer`): one payload file per
    document hash under the root directory, plus the metadata index and its saved
    snapshot. The root directory is a map from file name to file text. */
module ArtifactLayer {
  import opened Errors
  import opened Records
  import opened MetadataIndex

  /** What a layer holds: the payload files and the metadata record list. */
  datatype LayerState = LayerState(files: map<string, string>, records: seq<Artifact>)

  /** The name of the metadata snapshot in the root directory. It shares the
      directory with the payload files, which this model keeps apart from it. */
  const MetadataPath: string := "metadata.json"

  /** `_get_file_path`: the payload of `uuid` is the file named by the uuid itself. */
  function FilePath(uuid: string): string {
    uuid
  }

  /** The metadata record `add` writes for a document. */
  function ToArtifact(d: Document): Artifact {
    Artifact(d.id, d.hash, d.parentHashes, d.metadata)
  }

  /** The records `add` appends for `ds`: one per document, in order. */
  function RecordsOf(ds: seq<Document>): (rs: seq<Artifact>)
    ensures |rs| == |ds|
    decreases |ds|
  {
    if ds == [] then [] else RecordsOf(ds[..|ds| - 1]) + [ToArtifact(ds[|ds| - 1])]
  }

  /** Record `i` carries document `i`'s id as custom id, its hash as uuid, and its
      parent hashes and metadata. */
  lemma {:induction false} RecordsOfAt(ds: seq<Document>, i: nat)
    requires i < |ds|
    ensures RecordsOf(ds)[i] == Artifact(ds[i].id, ds[i].hash, ds[i].parentHashes, ds[i].metadata)
    decreases |ds|
  {
    if i < |ds| - 1 {
      RecordsOfAt(ds[..|ds| - 1], i);
    }
  }

  /** The records of two batches are those of their concatenation. */
  lemma {:induction false} RecordsOfAppend(a: seq<Document>, b: seq<Document>)
    ensures RecordsOf(a + b) == RecordsOf(a) + RecordsOf(b)
    decreases |b|
  {
    if b == [] {
      assert a + b == a;
    } else {
      var b' := b[..|b| - 1];
      RecordsOfAppend(a, b');
      assert (a + b)[..|a + b| - 1] == a + b';
    }
  }

  /** The payload writes of `add`, document by document. */
  function WriteFiles(files: map<string, string>, ds: seq<Document>, serialize: Document -> string): map<string, string>
    decreases |ds|
  {
    if ds == [] then files
    else WriteFiles(files, ds[..|ds| - 1], serialize)[ds[|ds| - 1].hash := serialize(ds[|ds| - 1])]
  }

  /** The whole effect of `add(ds)` on a layer's state. */
  function AddDocs(st: LayerState, ds: seq<Document>, serialize: Document -> string): LayerState {
    LayerState(WriteFiles(st.files, ds, serialize), st.records + RecordsOf(ds))
  }

  /** A file that is not the payload of any of the documents is untouched. */
  lemma {:induction false} WriteFilesFrame(files: map<string, string>, ds: seq<Document>, serialize: Document -> string, k: string)
    requires forall i :: 0 <= i < |ds| ==> ds[i].hash != k
    ensures k in WriteFiles(files, ds, serialize) <==> k in files
    ensures k in files ==> WriteFiles(files, ds, serialize)[k] == files[k]
    decreases |ds|
  {
    if ds != [] {
      WriteFilesFrame(files, ds[..|ds| - 1], serialize, k);
    }
  }

  /** The file of a document's hash holds the serialization of the last document
      with that hash. */
  lemma {:induction false} WriteFilesLast(files: map<string, string>, ds: seq<Document>, serialize: Document -> string, i: nat)
    requires i < |ds|
    requires forall j :: i < j < |ds| ==> ds[j].hash != ds[i].hash
    requires ds[i].hash != MetadataPath
    ensures ds[i].hash in WriteFiles(files, ds, serialize)
    ensures WriteFiles(files, ds, serialize)[ds[i].hash] == serialize(ds[i])
    decreases |ds|
  {
    if i < |ds| - 1 {
      WriteFilesLast(files, ds[..|ds| - 1], serialize, i);
    }
  }

  /** After the writes, there is a file for each old file and each document hash. */
  lemma {:induction false} WriteFilesKeys(files: map<string, string>, ds: seq<Document>, serialize: Document -> string, k: string)
    ensures k in WriteFiles(files, ds, serialize) <==> k in files || exists i :: 0 <= i < |ds| && ds[i].hash == k
    decreases |ds|
  {
    if ds != [] {
      var pre := ds[..|ds| - 1];
      WriteFilesKeys(files, pre, serialize, k);
      assert forall i :: 0 <= i < |pre| ==> pre[i] == ds[i];
      if exists i :: 0 <= i < |ds| && ds[i].hash == k {
        var i :| 0 <= i < |ds| && ds[i].hash == k;
        if i < |pre| { assert pre[i].hash == k; }
      }
    }
  }

  /** Two `add` calls in a row have the effect of one on the concatenation. */
  lemma {:induction false} AddDocsAppend(st: LayerState, a: seq<Document>, b: seq<Document>, serialize: Document -> string)
    ensures AddDocs(AddDocs(st, a, serialize), b, serialize) == AddDocs(st, a + b, serialize)
    decreases |b|
  {
    if b == [] {
      assert a + b == a;
      assert RecordsOf(b) == [];
    } else {
      var b' := b[..|b| - 1];
      AddDocsAppend(st, a, b', serialize);
      assert (a + b)[..|a + b| - 1] == a + b';
      RecordsOfAppend(a, b);
    }
  }

  /** The generator of `get_matching_documents`: each selected uuid's payload file
      is opened and deserialized in turn; a missing file raises, and otherwise the
      generator ends the way `select` ended (`tail`). The items read are exactly
      those of the uuids before the first one without a file. */
  function ReadPayloads(files: map<string, string>, deserialize: string -> Document, uuids: seq<string>, tail: Option<Error>): (r: Generated<Document>)
    ensures |r.items| <= |uuids|
    ensures forall i :: 0 <= i < |r.items| ==>
      FilePath(uuids[i]) in files && r.items[i] == deserialize(files[FilePath(uuids[i])])
    ensures |r.items| == |uuids| ==> r.raised == tail
    ensures |r.items| < |uuids| ==>
      FilePath(uuids[|r.items|]) !in files && r.raised == Some(FileNotFound(FilePath(uuids[|r.items|])))
    decreases |uuids|
  {
    if uuids == [] then Generated([], tail)
    else if FilePath(uuids[0]) !in files then Generated([], Some(FileNotFound(FilePath(uuids[0]))))
    else
      var rest := ReadPayloads(files, deserialize, uuids[1..], tail);
      Generated([deserialize(files[FilePath(uuids[0])])] + rest.items, rest.raised)
  }

  function MatchingDocuments(st: LayerState, sel: Selector, deserialize: string -> Document): Generated<Document> {
    var g := SelectFrom(st.records, sel);
    ReadPayloads(st.files, deserialize, g.items, g.raised)
  }

  /** Every record has its payload file. */
  ghost predicate PayloadsPresent(st: LayerState) {
    forall a :: a in st.records ==> FilePath(a.uuid) in st.files
  }

  /** `add` writes each payload before the record that refers to it, so it keeps
      every record's payload present. */
  lemma AddDocsKeepsPayloads(st: LayerState, ds: seq<Document>, serialize: Document -> string)
    requires PayloadsPresent(st)
    ensures PayloadsPresent(AddDocs(st, ds, serialize))
  {
    var st' := AddDocs(st, ds, serialize);
    forall a | a in st'.records
      ensures FilePath(a.uuid) in st'.files
    {
      WriteFilesKeys(st.files, ds, serialize, a.uuid);
      if a !in st.records {
        var rs := RecordsOf(ds);
        assert a in rs;
        var i :| 0 <= i < |rs| && rs[i] == a;
        RecordsOfAt(ds, i);
      }
    }
  }

  /** When every record has its payload, `get_matching_documents` yields one
      document per selected uuid, in `select` order, and ends as `select` ends. */
  lemma MatchingWithPayloads(st: LayerState, sel: Selector, deserialize: string -> Document)
    ensures PayloadsPresent(st) ==>
            var g := SelectFrom(st.records, sel);
            var r := MatchingDocuments(st, sel, deserialize);
            && r.raised == g.raised
            && |r.items| == |g.items|
            && forall i :: 0 <= i < |g.items| ==> FilePath(g.items[i]) in st.files && r.items[i] == deserialize(st.files[FilePath(g.items[i])])
  {
    var g := SelectFrom(st.records, sel);
    forall i | 0 <= i < |g.items| && PayloadsPresent(st)
      ensures FilePath(g.items[i]) in st.files
    {
      SelectYieldsMatches(st.records, sel, g.items[i]);
    }
  }

  /** The selector `{hashes: [h], parent_hashes: []}`. */
  function ByHash(h: string): Selector {
    Selector(None, Some([h]), Some([]))
  }

  /** Round trip: after `add(ds)`, selecting the hash of a document of `ds` (the
      last one with that hash) reads back that very document, once per record
      carrying the hash, provided `deserialize` undoes `serialize` and the hash is
      not the name of the metadata snapshot, which the save rewrites after the payloads. */
  lemma GetAfterAdd(st: LayerState, ds: seq<Document>, i: nat, serialize: Document -> string, deserialize: string -> Document)
    requires forall d :: deserialize(serialize(d)) == d
    requires i < |ds|
    requires forall j :: i < j < |ds| ==> ds[j].hash != ds[i].hash
    requires ds[i].hash != MetadataPath
    ensures var r := MatchingDocuments(AddDocs(st, ds, serialize), ByHash(ds[i].hash), deserialize);
            && r.raised == None
            && |r.items| > 0
            && forall x :: x in r.items ==> x == ds[i]
  {
    var h := ds[i].hash;
    var st' := AddDocs(st, ds, serialize);
    var g := SelectFrom(st'.records, ByHash(h));
    SelectByHashAfterAdd(st, ds, i, serialize);
    assert h in st'.files && st'.files[h] == serialize(ds[i]) by {
      WriteFilesLast(st.files, ds, serialize, i);
    }
    var r := ReadPayloads(st'.files, deserialize, g.items, g.raised);
    assert forall k :: 0 <= k < |g.items| ==> FilePath(g.items[k]) in st'.files by {
      forall k | 0 <= k < |g.items| ensures FilePath(g.items[k]) in st'.files {
        assert g.items[k] in g.items;
      }
    }
    forall x | x in r.items
      ensures x == ds[i]
    {
      var k :| 0 <= k < |r.items| && r.items[k] == x;
      assert g.items[k] in g.items;
    }
  }

  /** After `add(ds)`, selecting by the hash of one of `ds` does not raise and
      yields that hash, once per record carrying it, and nothing else. */
  lemma SelectByHashAfterAdd(st: LayerState, ds: seq<Document>, i: nat, serialize: Document -> string)
    requires i < |ds|
    ensures var g := SelectFrom(AddDocs(st, ds, serialize).records, ByHash(ds[i].hash));
            && g.raised == None
            && g.items != []
            && forall u :: u in g.items ==> u == ds[i].hash
  {
    var h := ds[i].hash;
    var rs := AddDocs(st, ds, serialize).records;
    var sel := ByHash(h);
    SelectRaisesIff(rs, sel);
    var g := SelectFrom(rs, sel);
    forall u | u in g.items
      ensures u == h
    {
      MatchedMembership(rs, sel, u);
    }
    assert g.items != [] by {
      var a := RecordsOf(ds)[i];
      RecordsOfAt(ds, i);
      assert rs[|st.records| + i] == a;
      assert a in rs && Matches(a, sel) && a.uuid == h;
      MatchedMembership(rs, sel, h);
    }
  }

  /** The file-system layer: the root directory's payload files, the metadata
      store loaded from `metadata.json`, and the records of `metadata.json` as last
      saved, which always agree with the store's. Serialization and the `exists` and `get_child_documents` operations
      the layer inherits are given as functions. */
  class FileSystemArtifactLayer {
    var files: map<string, string>
    var metadataFile: seq<Artifact>
    const metadataStore: InMemoryStore
    const serialize: Document -> string
    const deserialize: string -> Document
    /** The inherited `exists(ids)`, as a function of the layer's state. */
    const baseExists: (LayerState, seq<string>) -> seq<bool>
    /** The inherited `get_child_documents(hash)`, as a function of the layer's state. */
    const baseChildDocuments: (LayerState, string) -> seq<Document>

    ghost predicate Valid()
      reads this, metadataStore
    {
      && metadataStore.Valid()
      && metadataFile == metadataStore.artifacts
    }

    function State(): LayerState
      reads this, metadataStore
    {
      LayerState(files, metadataStore.artifacts)
    }

    /** Opens a layer over a root directory holding `rootFiles`, whose
        `metadata.json` holds the records `saved`. */
    constructor (rootFiles: map<string, string>, saved: seq<Artifact>,
                 serialize: Document -> string, deserialize: string -> Document,
                 baseExists: (LayerState, seq<string>) -> seq<bool>,
                 baseChildDocuments: (LayerState, string) -> seq<Document>)
      ensures Valid() && fresh(metadataStore)
      ensures State() == LayerState(rootFiles, saved) && metadataFile == saved
      ensures this.serialize == serialize && this.deserialize == deserialize
      ensures this.baseExists == baseExists && this.baseChildDocuments == baseChildDocuments
    {
      files := rootFiles;
      metadataFile := saved;
      metadataStore := new InMemoryStore(saved);
      this.serialize := serialize;
      this.deserialize := deserialize;
      this.baseExists := baseExists;
      this.baseChildDocuments := baseChildDocuments;
    }

    /** Delegates to the store: true iff some record has the custom id. */
    function ExistsById(ids: seq<string>): (r: seq<bool>)
      reads this, metadataStore
      requires Valid()
      ensures |r| == |ids|
      ensures forall i :: 0 <= i < |ids| ==> (r[i] <==> Stored(metadataStore.artifacts, CustomId, ids[i]))
    {
      metadataStore.ExistsById(ids)
    }

    /** Delegates to the store, so it too answers from the custom-id index. */
    function ExistsByUuid(uuids: seq<string>): (r: seq<bool>)
      reads this, metadataStore
      requires Valid()
      ensures |r| == |uuids|
      ensures forall i :: 0 <= i < |uuids| ==> (r[i] <==> Stored(metadataStore.artifacts, CustomId, uuids[i]))
    {
      metadataStore.ExistsByUuid(uuids)
    }

    function Exists(ids: seq<string>): seq<bool>
      reads this, metadataStore
    {
      baseExists(State(), ids)
    }

    function GetChildDocuments(hash: string): seq<Document>
      reads this, metadataStore
    {
      baseChildDocuments(State(), hash)
    }

    /** For each document in order, writes its serialization to the file named by
        its hash and appends its record to the store; then saves the metadata. */
    method Add(documents: seq<Document>)
      requires Valid()
      modifies this, metadataStore
      ensures Valid()
      ensures State() == AddDocs(old(State()), documents, serialize)
      ensures metadataFile == metadataStore.artifacts
    {
      for i := 0 to |documents|
        invariant metadataStore.Valid()
        invariant State() == AddDocs(old(State()), documents[..i], serialize)
      {
        var document := documents[i];
        files := files[document.hash := serialize(document)];
        metadataStore.Add(ToArtifact(document));
        assert documents[..i + 1][..i] == documents[..i];
      }
      assert documents[..|documents|] == documents;
      metadataFile := metadataStore.artifacts;
    }

    /** The documents whose uuids `select` yields, read back from their payload
        files in that order. */
    function GetMatchingDocuments(sel: Selector): (r: Generated<Document>)
      reads this, metadataStore
      ensures PayloadsPresent(State()) ==>
        var g := SelectFrom(metadataStore.artifacts, sel);
        && r.raised == g.raised
        && |r.items| == |g.items|
        && forall i :: 0 <= i < |g.items| ==> FilePath(g.items[i]) in files && r.items[i] == deserialize(files[FilePath(g.items[i])])
    {
      MatchingWithPayloads(State(), sel, deserialize);
      MatchingDocuments(State(), sel, deserialize)
    }
  }
}
