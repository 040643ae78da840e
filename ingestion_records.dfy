/** The two record types of the ingestion stores and the views over them
    that the reconciliation is specified with. Both stores are maps from a
    record's store key to the record. */
module IngestionRecords {

  /** A tracked source document (the embedding vector, a constant
      placeholder, is not modelled). */
  datatype IngestedDocument = IngestedDocument(
    key: string,
    sourceId: string,
    documentId: string,
    documentVersion: string)

  /** A fragment of a document's text. `documentId` refers back to the
      owning document by its business identifier, not by its store key. The
      vector is derived from `text` by the store and is not modelled. */
  datatype IngestedChunk = IngestedChunk(
    key: string,
    documentId: string,
    pageNumber: int,
    text: string)

  type DocumentStore = map<string, IngestedDocument>
  type ChunkStore = map<string, IngestedChunk>

  /** Every record is stored under its own key. */
  ghost predicate WellKeyed(documents: DocumentStore)
  {
    forall k :: k in documents ==> documents[k].key == k
  }

  /** The chunks whose `documentId` is `documentId`: what the filtered chunk
      query returns. */
  function ChunksOf(chunks: ChunkStore, documentId: string): ChunkStore
  {
    map k | k in chunks && chunks[k].documentId == documentId :: chunks[k]
  }

  /** Store keys of the documents of one source that carry one document id. */
  function KeysWithId(documents: DocumentStore, sourceId: string, documentId: string): set<string>
  {
    set k | k in documents && documents[k].sourceId == sourceId && documents[k].documentId == documentId
  }

  /** At most one stored document per (source, document id) pair: the
      invariant the design asks for (and that the code does not keep). */
  ghost predicate OnePerDocumentId(documents: DocumentStore, sourceId: string)
  {
    forall k1, k2 :: k1 in documents && k2 in documents && k1 != k2
      && documents[k1].sourceId == sourceId && documents[k2].sourceId == sourceId
      ==> documents[k1].documentId != documents[k2].documentId
  }

  /** The key generator (version-7 GUIDs) never repeats itself. */
  ghost predicate Injective(guid: nat -> string)
  {
    forall i, j :: guid(i) == guid(j) ==> i == j
  }

  /** No key the generator has yet to issue (index `issued` and on) is
      already in use in `keys`. */
  ghost predicate FreshFrom(guid: nat -> string, issued: nat, keys: set<string>)
  {
    forall i :: issued <= i ==> guid(i) !in keys
  }

  /** `key` is not among the keys the generator has yet to issue. */
  ghost predicate AlreadyIssued(guid: nat -> string, issued: nat, key: string)
  {
    forall i :: issued <= i ==> guid(i) != key
  }

  /** Store keys of a list of documents. */
  function KeysOf(docs: seq<IngestedDocument>): set<string>
  {
    set d | d in docs :: d.key
  }

  /** Document ids of a list of documents. */
  function IdsOf(docs: seq<IngestedDocument>): set<string>
  {
    set d | d in docs :: d.documentId
  }
}
