/** The ingestor that brings the document and chunk stores in line with an
    ingestion source. The stores are maps from store key to record; every
    mutating store call is also appended to a call log, so that the order of
    deletions and upserts can be stated. Reads (the filtered queries) are
    not logged.

    The specification is a set of functions over `IngestionState` values:
    one per step of the source's loops, and `Reconcile` for a whole pass.
    The class `DataIngestor` holds the stores as fields and its method
    `IngestData` is proved to move them exactly as `Reconcile` says. */
module DataIngestion {
  import opened Common
  import opened IngestionRecords
  import opened DirectorySource

  /** The mutating calls made on the two collections. */
  datatype StoreCall =
    | EnsureChunksCollection
    | EnsureDocumentsCollection
    | DeleteChunks(keys: set<string>)
    | DeleteDocument(key: string)
    | UpsertDocument(document: IngestedDocument)
    | UpsertChunks(records: seq<IngestedChunk>)

  /** Both stores, the call log, and how many keys the GUID generator has
      issued so far. */
  datatype IngestionState = IngestionState(
    documents: DocumentStore,
    chunks: ChunkStore,
    calls: seq<StoreCall>,
    guidsIssued: nat)

  /** How a pass ends: normally, or with the exception that aborted it. */
  datatype Outcome = Completed | Failed(error: IngestionError)

  /** `loaded` is an answer the document store may give to the query
      "documents whose SourceId is `sourceId`": each such stored document
      exactly once, in some order, and nothing else. */
  ghost predicate LoadedForSource(loaded: seq<IngestedDocument>, documents: DocumentStore, sourceId: string)
  {
    && (forall i :: 0 <= i < |loaded| ==>
          loaded[i].key in documents && documents[loaded[i].key] == loaded[i] && loaded[i].sourceId == sourceId)
    && (forall k :: k in documents && documents[k].sourceId == sourceId ==>
          exists i :: 0 <= i < |loaded| && loaded[i].key == k)
    && (forall i, j :: 0 <= i < j < |loaded| ==> loaded[i].key != loaded[j].key)
  }

  /** Keys of the chunks the filtered chunk query returns for `documentId`. */
  function ChunkKeysOf(chunks: ChunkStore, documentId: string): set<string>
  {
    set k | k in chunks && chunks[k].documentId == documentId
  }

  // ---------------------------------------------------------------------
  // One step each

  /** The local helper: query the chunks of `documentId` and, only if there
      are any, delete them in one call. Matches on the document id alone. */
  function DeleteChunksFor(s: IngestionState, documentId: string): IngestionState
  {
    var doomed := ChunkKeysOf(s.chunks, documentId);
    if |doomed| == 0 then s
    else s.(chunks := s.chunks - doomed, calls := s.calls + [DeleteChunks(doomed)])
  }

  /** One iteration of the deletion loop: the document's chunks, then the
      document itself. */
  function RemoveDocument(s: IngestionState, d: IngestedDocument): IngestionState
  {
    var s1 := DeleteChunksFor(s, d.documentId);
    s1.(documents := s1.documents - {d.key}, calls := s1.calls + [DeleteDocument(d.key)])
  }

  function RemoveAll(s: IngestionState, deleted: seq<IngestedDocument>): IngestionState
    decreases |deleted|
  {
    if deleted == [] then s
    else RemoveDocument(RemoveAll(s, deleted[..|deleted| - 1]), deleted[|deleted| - 1])
  }

  /** A batch upsert: the records are written in order, each under its key. */
  function UpsertChunkRecords(chunks: ChunkStore, records: seq<IngestedChunk>): ChunkStore
    decreases |records|
  {
    if records == [] then chunks
    else
      var last := records[|records| - 1];
      UpsertChunkRecords(chunks, records[..|records| - 1])[last.key := last]
  }

  /** One iteration of the upsert loop: delete the document's chunks, upsert
      the document, create its chunks (this may throw) and upsert them. */
  function ProcessDocument(s: IngestionState, src: PdfDirectorySource, guid: nat -> string,
                           m: IngestedDocument): (IngestionState, Option<IngestionError>)
  {
    var s1 := DeleteChunksFor(s, m.documentId);
    var s2 := s1.(documents := s1.documents[m.key := m], calls := s1.calls + [UpsertDocument(m)]);
    match CreateChunks(src, m, guid, s2.guidsIssued)
    case Failure(e) => (s2, Some(e))
    case Success(records) =>
      (s2.(chunks := UpsertChunkRecords(s2.chunks, records),
           calls := s2.calls + [UpsertChunks(records)],
           guidsIssued := s2.guidsIssued + |records|), None)
  }

  /** The upsert loop over `modified`; the first exception ends it. */
  function ProcessAll(s: IngestionState, src: PdfDirectorySource, guid: nat -> string,
                      modified: seq<IngestedDocument>): (IngestionState, Option<IngestionError>)
    decreases |modified|
  {
    if modified == [] then (s, None)
    else
      var (p, e) := ProcessAll(s, src, guid, modified[..|modified| - 1]);
      if e.Some? then (p, e) else ProcessDocument(p, src, guid, modified[|modified| - 1])
  }

  /** A whole pass for the documents `loaded` that the store returned for
      the source: ensure both collections, delete what the source reports
      deleted, then process what it reports new or modified. */
  function Reconcile(s: IngestionState, src: PdfDirectorySource, loaded: seq<IngestedDocument>,
                     guid: nat -> string, policy: KeyPolicy): (IngestionState, Outcome)
  {
    var s0 := s.(calls := s.calls + [EnsureChunksCollection, EnsureDocumentsCollection]);
    UpsertPhase(RemoveAll(s0, Deleted(src, loaded)), src, loaded, guid, policy)
  }

  /** The second half of a pass, from the state the deletions left. */
  function UpsertPhase(s1: IngestionState, src: PdfDirectorySource, loaded: seq<IngestedDocument>,
                       guid: nat -> string, policy: KeyPolicy): (IngestionState, Outcome)
  {
    match NewOrModified(src, loaded, guid, s1.guidsIssued, policy)
    case Failure(e) => (s1, Failed(e))
    case Success(modified) =>
      var (s2, e) := ProcessAll(s1.(guidsIssued := s1.guidsIssued + |modified|), src, guid, modified);
      (s2, if e.Some? then Failed(e.value) else Completed)
  }

  // ---------------------------------------------------------------------
  // Facts the class needs about single steps

  lemma {:induction false} RemoveAllSnoc(s: IngestionState, deleted: seq<IngestedDocument>, d: IngestedDocument)
    ensures RemoveAll(s, deleted + [d]) == RemoveDocument(RemoveAll(s, deleted), d)
  {
    assert (deleted + [d])[..|deleted|] == deleted;
  }

  lemma {:induction false} ProcessAllSnoc(s: IngestionState, src: PdfDirectorySource, guid: nat -> string,
                                          modified: seq<IngestedDocument>, m: IngestedDocument)
    ensures ProcessAll(s, src, guid, modified + [m])
         == (var (p, e) := ProcessAll(s, src, guid, modified); if e.Some? then (p, e) else ProcessDocument(p, src, guid, m))
  {
    assert (modified + [m])[..|modified|] == modified;
  }

  /** Once the upsert loop has failed, later documents change nothing. */
  lemma {:induction false} ProcessAllStopsAtFailure(s: IngestionState, src: PdfDirectorySource, guid: nat -> string,
                                                    modified: seq<IngestedDocument>, k: nat)
    requires k <= |modified| && ProcessAll(s, src, guid, modified[..k]).1.Some?
    ensures ProcessAll(s, src, guid, modified) == ProcessAll(s, src, guid, modified[..k])
    decreases |modified|
  {
    if k < |modified| {
      var init := modified[..|modified| - 1];
      assert init[..k] == modified[..k];
      ProcessAllStopsAtFailure(s, src, guid, init, k);
    } else {
      assert modified[..k] == modified;
    }
  }

  /** Records keyed by the next keys of an injective generator leave the
      keys after them unused. */
  lemma {:induction false} FreshAfterRecords(guid: nat -> string, next: nat, keys: set<string>, records: seq<IngestedChunk>)
    requires Injective(guid) && FreshFrom(guid, next, keys)
    requires forall i :: 0 <= i < |records| ==> records[i].key == guid(next + i)
    ensures FreshFrom(guid, next + |records|, keys + set c | c in records :: c.key)
  {
    forall i, c | next + |records| <= i && c in records
      ensures c.key != guid(i)
    {
      var j :| 0 <= j < |records| && records[j] == c;
      assert c.key == guid(next + j);
    }
  }

  /** A step of the upsert loop stores the document under its own key and
      issues keys only for its chunks. */
  lemma {:induction false} ProcessDocumentDocuments(s: IngestionState, src: PdfDirectorySource, guid: nat -> string,
                                 m: IngestedDocument)
    ensures var p := ProcessDocument(s, src, guid, m).0;
      p.documents == s.documents[m.key := m] && s.guidsIssued <= p.guidsIssued
  {
  }

  /** The chunk deletion only removes keys and issues none. */
  lemma {:induction false} DeleteChunksForShrinks(s: IngestionState, documentId: string)
    ensures DeleteChunksFor(s, documentId).chunks.Keys <= s.chunks.Keys
    ensures DeleteChunksFor(s, documentId).guidsIssued == s.guidsIssued
  {
  }

  /** A batch upsert adds exactly the records' keys. */
  lemma {:induction false} UpsertChunkRecordsKeys(chunks: ChunkStore, records: seq<IngestedChunk>)
    ensures UpsertChunkRecords(chunks, records).Keys == chunks.Keys + set c | c in records :: c.key
    decreases |records|
  {
    if records != [] {
      var init := records[..|records| - 1];
      UpsertChunkRecordsKeys(chunks, init);
      assert records == init + [records[|records| - 1]];
    }
  }

  /** A step of the upsert loop keeps the chunk keys the generator has yet
      to issue unused. */
  lemma {:induction false} ProcessDocumentFreshChunks(s: IngestionState, src: PdfDirectorySource, guid: nat -> string,
                                   m: IngestedDocument)
    requires Injective(guid) && FreshFrom(guid, s.guidsIssued, s.chunks.Keys)
    ensures var p := ProcessDocument(s, src, guid, m).0;
      FreshFrom(guid, p.guidsIssued, p.chunks.Keys)
  {
    var s1 := DeleteChunksFor(s, m.documentId);
    DeleteChunksForShrinks(s, m.documentId);
    var p := ProcessDocument(s, src, guid, m).0;
    match CreateChunks(src, m, guid, s.guidsIssued)
    case Failure(_) =>
      assert p.chunks == s1.chunks && p.guidsIssued == s.guidsIssued;
    case Success(records) =>
      assert p.chunks == UpsertChunkRecords(s1.chunks, records) && p.guidsIssued == s.guidsIssued + |records|;
      assert FreshFrom(guid, s.guidsIssued, s1.chunks.Keys);
      UpsertChunkRecordsKeys(s1.chunks, records);
      FreshAfterRecords(guid, s.guidsIssued, s1.chunks.Keys, records);
  }

  /** A step of the upsert loop keeps the key-freshness invariant, provided
      the document's key is not one the generator has yet to issue. */
  lemma {:induction false} ProcessDocumentKeepsFresh(s: IngestionState, src: PdfDirectorySource, guid: nat -> string,
                                  m: IngestedDocument)
    requires Injective(guid) && WellKeyed(s.documents)
    requires FreshFrom(guid, s.guidsIssued, s.documents.Keys) && FreshFrom(guid, s.guidsIssued, s.chunks.Keys)
    requires AlreadyIssued(guid, s.guidsIssued, m.key)
    ensures var p := ProcessDocument(s, src, guid, m).0;
      && WellKeyed(p.documents) && s.guidsIssued <= p.guidsIssued
      && FreshFrom(guid, p.guidsIssued, p.documents.Keys) && FreshFrom(guid, p.guidsIssued, p.chunks.Keys)
  {
    ProcessDocumentDocuments(s, src, guid, m);
    ProcessDocumentFreshChunks(s, src, guid, m);
    var p := ProcessDocument(s, src, guid, m).0;
    assert p.documents.Keys == s.documents.Keys + {m.key};
  }

  /** Under either key policy every new or modified document carries a
      key the generator has issued once the keys for the diff are drawn,
      provided the existing documents' keys were issued already. */
  lemma {:induction false} ModifiedKeysIssued(src: PdfDirectorySource, loaded: seq<IngestedDocument>, guid: nat -> string,
                           next: nat, policy: KeyPolicy)
    requires Injective(guid)
    requires forall i :: 0 <= i < |loaded| ==> AlreadyIssued(guid, next, loaded[i].key)
    requires NewOrModified(src, loaded, guid, next, policy).Success?
    ensures var modified := NewOrModified(src, loaded, guid, next, policy).value;
      forall j :: 0 <= j < |modified| ==> AlreadyIssued(guid, next + |modified|, modified[j].key)
  {
    ModifiedKeys(src, loaded, guid, next, policy);
  }

  // ---------------------------------------------------------------------
  // The ingestor

  class DataIngestor {
    var documents: DocumentStore
    var chunks: ChunkStore
    var calls: seq<StoreCall>
    var guidsIssued: nat
    const guid: nat -> string
    /** `FreshKey` for the ingestor as written. */
    const policy: KeyPolicy

    /** Every document sits under its own key, and keys the generator has
        yet to issue are unused in both stores. */
    ghost predicate Valid()
      reads this
    {
      && Injective(guid)
      && WellKeyed(documents)
      && FreshFrom(guid, guidsIssued, documents.Keys)
      && FreshFrom(guid, guidsIssued, chunks.Keys)
    }

    function State(): IngestionState
      reads this
    {
      IngestionState(documents, chunks, calls, guidsIssued)
    }

    constructor (guid: nat -> string, policy: KeyPolicy, documents: DocumentStore, chunks: ChunkStore)
      requires Injective(guid) && WellKeyed(documents)
      requires FreshFrom(guid, 0, documents.Keys) && FreshFrom(guid, 0, chunks.Keys)
      ensures Valid() && this.guid == guid && this.policy == policy
      ensures State() == IngestionState(documents, chunks, [], 0)
    {
      this.policy := policy;
      this.documents := documents;
      this.chunks := chunks;
      this.calls := [];
      this.guidsIssued := 0;
      this.guid := guid;
    }

    /** The filtered document query: every stored document of the source,
        once each, in an order the store chooses. */
    method QueryDocumentsForSource(sourceId: string) returns (loaded: seq<IngestedDocument>)
      requires WellKeyed(documents)
      ensures LoadedForSource(loaded, documents, sourceId)
    {
      var pending := set k | k in documents && documents[k].sourceId == sourceId;
      loaded := [];
      while pending != {}
        invariant forall k :: k in pending ==> k in documents && documents[k].sourceId == sourceId
        invariant forall i :: 0 <= i < |loaded| ==>
          loaded[i].key in documents && documents[loaded[i].key] == loaded[i]
          && loaded[i].sourceId == sourceId && loaded[i].key !in pending
        invariant forall k :: k in documents && documents[k].sourceId == sourceId ==>
          k in pending || exists i :: 0 <= i < |loaded| && loaded[i].key == k
        invariant forall i, j :: 0 <= i < j < |loaded| ==> loaded[i].key != loaded[j].key
        decreases pending
      {
        var k :| k in pending;
        ghost var before := loaded;
        loaded := loaded + [documents[k]];
        pending := pending - {k};
        assert loaded[|before|].key == k;
        assert forall i :: 0 <= i < |before| ==> loaded[i] == before[i];
      }
    }

    /** `DeleteChunksForDocumentAsync`. */
    method DeleteChunksForDocument(documentId: string)
      modifies this
      ensures State() == DeleteChunksFor(old(State()), documentId)
    {
      var chunksToDelete := ChunkKeysOf(chunks, documentId);
      if |chunksToDelete| != 0 {
        chunks := chunks - chunksToDelete;
        calls := calls + [DeleteChunks(chunksToDelete)];
      }
    }

    /** The deletion loop. */
    method RemoveDocuments(deleted: seq<IngestedDocument>)
      requires Valid()
      modifies this
      ensures Valid() && guidsIssued == old(guidsIssued)
      ensures State() == RemoveAll(old(State()), deleted)
    {
      ghost var s0 := State();
      ghost var done: seq<IngestedDocument> := [];
      var i := 0;
      while i < |deleted|
        invariant 0 <= i <= |deleted|
        invariant done == deleted[..i]
        invariant State() == RemoveAll(s0, done)
        invariant Valid() && guidsIssued == s0.guidsIssued
      {
        var d := deleted[i];
        RemoveAllSnoc(s0, done, d);
        DeleteChunksForDocument(d.documentId);
        documents := documents - {d.key};
        calls := calls + [DeleteDocument(d.key)];
        done := done + [d];
        i := i + 1;
      }
      assert done == deleted;
    }

    /** One iteration of the upsert loop, for a document whose key the
        generator has already issued. */
    method IngestDocument(src: PdfDirectorySource, m: IngestedDocument)
      returns (error: Option<IngestionError>)
      requires Valid() && AlreadyIssued(guid, guidsIssued, m.key)
      modifies this
      ensures Valid()
      ensures (State(), error) == ProcessDocument(old(State()), src, guid, m)
    {
      ghost var s0 := State();
      ProcessDocumentKeepsFresh(s0, src, guid, m);
      DeleteChunksForDocument(m.documentId);
      documents := documents[m.key := m];
      calls := calls + [UpsertDocument(m)];
      var created := CreateChunks(src, m, guid, guidsIssued);
      if created.Failure? {
        return Some(created.error);
      }
      var records := created.value;
      chunks := UpsertChunkRecords(chunks, records);
      calls := calls + [UpsertChunks(records)];
      guidsIssued := guidsIssued + |records|;
      error := None;
    }

    /** The upsert loop over documents whose keys the generator has
        already issued. */
    method IngestDocuments(src: PdfDirectorySource, modified: seq<IngestedDocument>)
      returns (error: Option<IngestionError>)
      requires Valid()
      requires forall j :: 0 <= j < |modified| ==> AlreadyIssued(guid, guidsIssued, modified[j].key)
      modifies this
      ensures Valid()
      ensures (State(), error) == ProcessAll(old(State()), src, guid, modified)
    {
      ghost var s1 := State();
      ghost var done: seq<IngestedDocument> := [];
      var j := 0;
      while j < |modified|
        invariant 0 <= j <= |modified|
        invariant done == modified[..j]
        invariant ProcessAll(s1, src, guid, done) == (State(), None)
        invariant Valid() && guidsIssued >= s1.guidsIssued
      {
        assert AlreadyIssued(guid, guidsIssued, modified[j].key);
        ProcessAllSnoc(s1, src, guid, done, modified[j]);
        error := IngestDocument(src, modified[j]);
        if error.Some? {
          assert done + [modified[j]] == modified[..j + 1];
          ProcessAllStopsAtFailure(s1, src, guid, modified, j + 1);
          return;
        }
        done := done + [modified[j]];
        j := j + 1;
      }
      assert done == modified;
      error := None;
    }

    /** The second half of `IngestDataAsync`: ask the source for what is
        new or modified, then run the upsert loop over it. */
    method UpsertNewOrModified(src: PdfDirectorySource, loaded: seq<IngestedDocument>) returns (outcome: Outcome)
      requires Valid()
      requires forall i :: 0 <= i < |loaded| ==> AlreadyIssued(guid, guidsIssued, loaded[i].key)
      modifies this
      ensures Valid()
      ensures (State(), outcome) == UpsertPhase(old(State()), src, loaded, guid, policy)
    {
      var diff, issued := GetNewOrModifiedDocuments(src, loaded, guid, guidsIssued, policy);
      if diff.Failure? {
        return Failed(diff.error);
      }
      var modified := diff.value;
      ModifiedKeysIssued(src, loaded, guid, guidsIssued, policy);
      guidsIssued := issued;
      var error := IngestDocuments(src, modified);
      outcome := if error.Some? then Failed(error.value) else Completed;
    }

    /** `IngestDataAsync`: one reconciliation pass for `src`. Returns how the
        pass ended and the order in which the store listed the source's
        documents. */
    method IngestData(src: PdfDirectorySource) returns (outcome: Outcome, loaded: seq<IngestedDocument>)
      requires Valid()
      modifies this
      ensures Valid()
      ensures LoadedForSource(loaded, old(documents), SourceId(src))
      ensures (State(), outcome) == Reconcile(old(State()), src, loaded, guid, policy)
    {
      calls := calls + [EnsureChunksCollection, EnsureDocumentsCollection];
      loaded := QueryDocumentsForSource(SourceId(src));
      RemoveDocuments(Deleted(src, loaded));
      assert forall i :: 0 <= i < |loaded| ==> loaded[i].key in old(documents);
      outcome := UpsertNewOrModified(src, loaded);
    }
  }
}
