/** The values the artifact store works on: metadata records, documents and selectors. */
module Records {
  import opened Errors

  /** Free-form metadata of a document or an artifact. */
  type Metadata = map<string, string>

  /** One metadata record: `{custom_id, uuid, parent_uuids, metadata}`. */
  datatype Artifact = Artifact(customId: string, uuid: string, parentUuids: seq<string>, metadata: Metadata)

  /** A document in transit: its content, logical id, content hash and provenance. */
  datatype Document = Document(pageContent: string, id: string, hash: string, parentHashes: seq<string>, metadata: Metadata)

  /** A query over the metadata records; each clause may be absent. */
  datatype Selector = Selector(ids: Option<seq<string>>, hashes: Option<seq<string>>, parentHashes: Option<seq<string>>)

  /** The two record fields the store keeps an index on. */
  datatype Field = Uuid | CustomId

  function KeyOf(f: Field, a: Artifact): string {
    match f
    case Uuid => a.uuid
    case CustomId => a.customId
  }
}
