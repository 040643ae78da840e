/** Properties of a reconciliation pass, stated over the specification
    functions of `DataIngestion` (which `DataIngestor.IngestData` is proved
    to follow). */
module IngestionProofs {
  import opened Common
  import opened IngestionRecords
  import opened DirectorySource
  import opened DataIngestion

  /** Keys the generator has yet to issue are unused in both stores. */
  ghost predicate KeysFresh(s: IngestionState, guid: nat -> string)
  {
    FreshFrom(guid, s.guidsIssued, s.documents.Keys) && FreshFrom(guid, s.guidsIssued, s.chunks.Keys)
  }

  /** `after` is `before` followed by deletions only, and every chunk
      deletion names at least one key. */
  ghost predicate AppendsDeletions(before: seq<StoreCall>, after: seq<StoreCall>)
  {
    && |before| <= |after| && after[..|before|] == before
    && forall i :: |before| <= i < |after| ==>
         after[i].DeleteDocument? || (after[i].DeleteChunks? && after[i].keys != {})
  }

  /** `after` is `before` followed by upserts and non-empty chunk deletions:
      no document is deleted. */
  ghost predicate AppendsUpserts(before: seq<StoreCall>, after: seq<StoreCall>)
  {
    && |before| <= |after| && after[..|before|] == before
    && forall i :: |before| <= i < |after| ==>
         after[i].UpsertDocument? || after[i].UpsertChunks? || (after[i].DeleteChunks? && after[i].keys != {})
  }

  // ---------------------------------------------------------------------
  // DeleteChunksForDocumentAsync

  /** The helper removes exactly the chunks carrying the document id,
      whatever source they came from, touches nothing else, and issues its
      delete call only when there is something to delete. */
  lemma {:induction false} DeleteChunksForEffect(s: IngestionState, documentId: string)
    ensures var r := DeleteChunksFor(s, documentId);
      && r.documents == s.documents && r.guidsIssued == s.guidsIssued
      && ChunksOf(r.chunks, documentId) == map[]
      && (forall k :: k in r.chunks <==> k in s.chunks && s.chunks[k].documentId != documentId)
      && (forall k :: k in r.chunks ==> r.chunks[k] == s.chunks[k])
    ensures var r := DeleteChunksFor(s, documentId);
      if ChunkKeysOf(s.chunks, documentId) == {} then r.calls == s.calls
      else r.calls == s.calls + [DeleteChunks(ChunkKeysOf(s.chunks, documentId))]
  {
    var doomed := ChunkKeysOf(s.chunks, documentId);
    var r := DeleteChunksFor(s, documentId);
    forall k | k in s.chunks && s.chunks[k].documentId == documentId
      ensures k in doomed && k !in r.chunks
    {
    }
    assert forall k :: k !in ChunksOf(r.chunks, documentId);
  }

  /** Chunks of other document ids are left as they were. */
  lemma {:induction false} DeleteChunksForKeepsOtherIds(s: IngestionState, documentId: string, other: string)
    requires other != documentId
    ensures ChunksOf(DeleteChunksFor(s, documentId).chunks, other) == ChunksOf(s.chunks, other)
  {
  }

  // ---------------------------------------------------------------------
  // The deletion loop

  lemma {:induction false} RemoveAllDocuments(s: IngestionState, deleted: seq<IngestedDocument>)
    ensures var r := RemoveAll(s, deleted);
      && r.documents.Keys == s.documents.Keys - KeysOf(deleted)
      && (forall k :: k in r.documents ==> r.documents[k] == s.documents[k])
      && r.guidsIssued == s.guidsIssued
    decreases |deleted|
  {
    if deleted != [] {
      var init := deleted[..|deleted| - 1];
      RemoveAllDocuments(s, init);
      assert deleted == init + [deleted[|deleted| - 1]];
      assert KeysOf(deleted) == KeysOf(init) + {deleted[|deleted| - 1].key};
    }
  }

  /** The deletion loop draws no keys. */
  lemma {:induction false} RemoveAllIssued(s: IngestionState, deleted: seq<IngestedDocument>)
    ensures RemoveAll(s, deleted).guidsIssued == s.guidsIssued
    decreases |deleted|
  {
    if deleted != [] {
      RemoveAllIssued(s, deleted[..|deleted| - 1]);
    }
  }

  /** After the deletion loop no chunk carries the id of a deleted
      document; all other chunks are as they were. */
  lemma {:induction false} RemoveAllChunks(s: IngestionState, deleted: seq<IngestedDocument>)
    ensures var r := RemoveAll(s, deleted);
      && (forall k :: k in r.chunks <==> k in s.chunks && s.chunks[k].documentId !in IdsOf(deleted))
      && (forall k :: k in r.chunks ==> r.chunks[k] == s.chunks[k])
    decreases |deleted|
  {
    if deleted != [] {
      var init := deleted[..|deleted| - 1];
      RemoveAllChunks(s, init);
      assert deleted == init + [deleted[|deleted| - 1]];
      assert IdsOf(deleted) == IdsOf(init) + {deleted[|deleted| - 1].documentId};
    }
  }

  lemma {:induction false} RemoveAllCalls(s: IngestionState, deleted: seq<IngestedDocument>)
    ensures AppendsDeletions(s.calls, RemoveAll(s, deleted).calls)
    decreases |deleted|
  {
    if deleted != [] {
      var init := deleted[..|deleted| - 1];
      RemoveAllCalls(s, init);
      var p := RemoveAll(s, init);
      var q := DeleteChunksFor(p, deleted[|deleted| - 1].documentId);
      assert AppendsDeletions(p.calls, q.calls);
      var r := RemoveAll(s, deleted);
      assert r.calls == q.calls + [DeleteDocument(deleted[|deleted| - 1].key)];
      assert r.calls[..|p.calls|] == p.calls by {
        assert r.calls[..|q.calls|] == q.calls;
      }
    }
  }

  // ---------------------------------------------------------------------
  // One step of the upsert loop

  /** The document is upserted under its key whatever happens next; the
      step ends in an error exactly when the chunker cannot open the
      document, and only a successful step draws keys. */
  lemma {:induction false} ProcessDocumentEffect(s: IngestionState, src: PdfDirectorySource, guid: nat -> string, m: IngestedDocument)
    ensures var (p, e) := ProcessDocument(s, src, guid, m);
      && p.documents == s.documents[m.key := m]
      && (e.Some? <==> src.paragraphs(m.documentId).None?)
      && (e.Some? ==> e.value == SourceUnavailable(m.documentId) && p.guidsIssued == s.guidsIssued)
      && (e.None? ==> p.guidsIssued == s.guidsIssued + |src.paragraphs(m.documentId).value|)
      && AppendsUpserts(s.calls, p.calls)
  {
    var s1 := DeleteChunksFor(s, m.documentId);
    DeleteChunksForAppends(s, m.documentId);
    var (p, e) := ProcessDocument(s, src, guid, m);
    assert AppendsUpserts(s1.calls, p.calls) by {
      assert p.calls[..|s1.calls|] == s1.calls;
    }
    AppendsUpsertsTransitive(s.calls, s1.calls, p.calls);
  }

  /** The helper changes only the chunks, and logs at most one non-empty
      chunk deletion. */
  lemma {:induction false} DeleteChunksForAppends(s: IngestionState, documentId: string)
    ensures var r := DeleteChunksFor(s, documentId);
      && r.documents == s.documents && r.guidsIssued == s.guidsIssued
      && AppendsUpserts(s.calls, r.calls)
  {
    var r := DeleteChunksFor(s, documentId);
    assert r.calls[..|s.calls|] == s.calls;
  }

  /** A batch upsert of records that all carry `documentId`, with distinct
      keys, into a store holding no chunk of that id: afterwards the chunks
      of that id are exactly the records. */
  lemma {:induction false} UpsertIntoCleared(chunks: ChunkStore, records: seq<IngestedChunk>, documentId: string)
    requires forall k :: k in chunks ==> chunks[k].documentId != documentId
    requires forall i :: 0 <= i < |records| ==> records[i].documentId == documentId
    requires forall i, j :: 0 <= i < j < |records| ==> records[i].key != records[j].key
    ensures var u := UpsertChunkRecords(chunks, records);
      && (forall k :: k in u && u[k].documentId == documentId <==> exists i :: 0 <= i < |records| && records[i].key == k)
      && (forall i :: 0 <= i < |records| ==> records[i].key in u && u[records[i].key] == records[i])
    decreases |records|
  {
    if records != [] {
      var init := records[..|records| - 1];
      var last := records[|records| - 1];
      UpsertIntoCleared(chunks, init, documentId);
      var u := UpsertChunkRecords(chunks, records);
      assert u == UpsertChunkRecords(chunks, init)[last.key := last];
      forall k | k in u && u[k].documentId == documentId
        ensures exists i :: 0 <= i < |records| && records[i].key == k
      {
        if k == last.key {
          assert records[|records| - 1].key == k;
        } else {
          var i :| 0 <= i < |init| && init[i].key == k;
          assert records[i].key == k;
        }
      }
      forall i | 0 <= i < |records|
        ensures records[i].key in u && u[records[i].key] == records[i]
      {
        if i < |init| {
          assert init[i] == records[i];
        }
      }
    }
  }

  /** A batch upsert under keys the store does not use, of records that do
      not carry `other`, leaves the chunks of `other` as they were. */
  lemma {:induction false} UpsertKeepsOtherId(chunks: ChunkStore, records: seq<IngestedChunk>, other: string)
    requires forall i :: 0 <= i < |records| ==> records[i].documentId != other && records[i].key !in chunks
    ensures ChunksOf(UpsertChunkRecords(chunks, records), other) == ChunksOf(chunks, other)
    decreases |records|
  {
    if records != [] {
      UpsertKeepsOtherId(chunks, records[..|records| - 1], other);
    }
  }

  /** Full replacement: after a successful step the chunks carrying the
      document's id are exactly the chunks just created for it. */
  lemma {:induction false} ProcessDocumentReplacesChunks(s: IngestionState, src: PdfDirectorySource, guid: nat -> string, m: IngestedDocument)
    requires Injective(guid)
    requires ProcessDocument(s, src, guid, m).1.None?
    ensures var p := ProcessDocument(s, src, guid, m).0;
      var created := CreateChunks(src, m, guid, s.guidsIssued).value;
      && (forall k :: k in p.chunks && p.chunks[k].documentId == m.documentId <==>
            exists i :: 0 <= i < |created| && created[i].key == k)
      && (forall i :: 0 <= i < |created| ==> created[i].key in p.chunks && p.chunks[created[i].key] == created[i])
  {
    var s1 := DeleteChunksFor(s, m.documentId);
    DeleteChunksForEffect(s, m.documentId);
    var created := CreateChunks(src, m, guid, s.guidsIssued).value;
    UpsertIntoCleared(s1.chunks, created, m.documentId);
  }

  /** Chunks of other document ids survive a step unchanged, because the
      new chunks take keys no stored chunk uses. */
  lemma {:induction false} ProcessDocumentKeepsOtherChunks(s: IngestionState, src: PdfDirectorySource, guid: nat -> string,
                                        m: IngestedDocument, other: string)
    requires Injective(guid) && FreshFrom(guid, s.guidsIssued, s.chunks.Keys)
    requires other != m.documentId
    ensures ChunksOf(ProcessDocument(s, src, guid, m).0.chunks, other) == ChunksOf(s.chunks, other)
  {
    var s1 := DeleteChunksFor(s, m.documentId);
    DeleteChunksForEffect(s, m.documentId);
    DeleteChunksForKeepsOtherIds(s, m.documentId, other);
    var created := CreateChunks(src, m, guid, s.guidsIssued);
    if created.Success? {
      UpsertKeepsOtherId(s1.chunks, created.value, other);
    }
  }

  // ---------------------------------------------------------------------
  // The upsert loop

  lemma {:induction false} AppendsUpsertsTransitive(a: seq<StoreCall>, b: seq<StoreCall>, c: seq<StoreCall>)
    requires AppendsUpserts(a, b) && AppendsUpserts(b, c)
    ensures AppendsUpserts(a, c)
  {
    assert c[..|a|] == c[..|b|][..|a|];
    forall i | |a| <= i < |c|
      ensures c[i].UpsertDocument? || c[i].UpsertChunks? || (c[i].DeleteChunks? && c[i].keys != {})
    {
      if i < |b| {
        assert c[i] == c[..|b|][i];
      }
    }
  }

  /** The upsert loop deletes no document. */
  lemma {:induction false} ProcessAllCalls(s: IngestionState, src: PdfDirectorySource, guid: nat -> string,
                                           modified: seq<IngestedDocument>)
    ensures AppendsUpserts(s.calls, ProcessAll(s, src, guid, modified).0.calls)
    decreases |modified|
  {
    if modified != [] {
      var init := modified[..|modified| - 1];
      ProcessAllCalls(s, src, guid, init);
      var (p, e) := ProcessAll(s, src, guid, init);
      if e.None? {
        ProcessDocumentEffect(p, src, guid, modified[|modified| - 1]);
        AppendsUpsertsTransitive(s.calls, p.calls, ProcessAll(s, src, guid, modified).0.calls);
      }
    }
  }

  /** The loop writes only the documents it is given: every other key
      keeps its record (or its absence), and the key counter never goes
      back. */
  lemma {:induction false} ProcessAllDocuments(s: IngestionState, src: PdfDirectorySource, guid: nat -> string,
                                               modified: seq<IngestedDocument>)
    ensures var p := ProcessAll(s, src, guid, modified).0;
      && (forall k :: k !in KeysOf(modified) ==>
            (k in p.documents <==> k in s.documents) && (k in p.documents ==> p.documents[k] == s.documents[k]))
      && p.documents.Keys <= s.documents.Keys + KeysOf(modified)
      && s.guidsIssued <= p.guidsIssued
    decreases |modified|
  {
    if modified != [] {
      var init := modified[..|modified| - 1];
      var m := modified[|modified| - 1];
      ProcessAllDocuments(s, src, guid, init);
      assert modified == init + [m];
      assert KeysOf(modified) == KeysOf(init) + {m.key};
      var (p, e) := ProcessAll(s, src, guid, init);
      if e.None? {
        ProcessDocumentEffect(p, src, guid, m);
      }
    }
  }

  /** The only error the upsert loop ends in is an unreadable document. */
  lemma {:induction false} ProcessAllErrors(s: IngestionState, src: PdfDirectorySource, guid: nat -> string,
                                            modified: seq<IngestedDocument>)
    ensures var e := ProcessAll(s, src, guid, modified).1;
      e.Some? ==> e.value.SourceUnavailable?
    decreases |modified|
  {
    if modified != [] {
      ProcessAllErrors(s, src, guid, modified[..|modified| - 1]);
      var (p, e) := ProcessAll(s, src, guid, modified[..|modified| - 1]);
      if e.None? {
        ProcessDocumentEffect(p, src, guid, modified[|modified| - 1]);
      }
    }
  }

  /** Documents the loop got through are stored under their keys. */
  lemma {:induction false} ProcessAllUpserted(s: IngestionState, src: PdfDirectorySource, guid: nat -> string,
                                              modified: seq<IngestedDocument>)
    requires forall i, j :: 0 <= i < j < |modified| ==> modified[i].key != modified[j].key
    requires ProcessAll(s, src, guid, modified).1.None?
    ensures var p := ProcessAll(s, src, guid, modified).0;
      forall j :: 0 <= j < |modified| ==> modified[j].key in p.documents && p.documents[modified[j].key] == modified[j]
    decreases |modified|
  {
    if modified != [] {
      var init := modified[..|modified| - 1];
      var m := modified[|modified| - 1];
      var (p, e) := ProcessAll(s, src, guid, init);
      ProcessAllUpserted(s, src, guid, init);
      ProcessDocumentEffect(p, src, guid, m);
      var q := ProcessAll(s, src, guid, modified).0;
      forall j | 0 <= j < |modified|
        ensures modified[j].key in q.documents && q.documents[modified[j].key] == modified[j]
      {
        if j < |init| {
          assert init[j] == modified[j];
        }
      }
    }
  }

  /** The loop keeps the stores' key freshness when every document it is
      given has a key the generator has already issued. */
  lemma {:induction false} ProcessAllKeepsFresh(s: IngestionState, src: PdfDirectorySource, guid: nat -> string,
                                                modified: seq<IngestedDocument>)
    requires Injective(guid) && WellKeyed(s.documents) && KeysFresh(s, guid)
    requires forall j :: 0 <= j < |modified| ==> AlreadyIssued(guid, s.guidsIssued, modified[j].key)
    ensures var p := ProcessAll(s, src, guid, modified).0;
      WellKeyed(p.documents) && KeysFresh(p, guid)
    decreases |modified|
  {
    if modified != [] {
      var init := modified[..|modified| - 1];
      var m := modified[|modified| - 1];
      ProcessAllKeepsFresh(s, src, guid, init);
      ProcessAllDocuments(s, src, guid, init);
      var (p, e) := ProcessAll(s, src, guid, init);
      if e.None? {
        assert AlreadyIssued(guid, p.guidsIssued, m.key);
        ProcessDocumentKeepsFresh(p, src, guid, m);
      }
    }
  }

  /** Chunks of document ids the loop is not given survive it unchanged. */
  lemma {:induction false} ProcessAllKeepsOtherChunks(s: IngestionState, src: PdfDirectorySource, guid: nat -> string,
                                                      modified: seq<IngestedDocument>, other: string)
    requires Injective(guid) && WellKeyed(s.documents) && KeysFresh(s, guid)
    requires forall j :: 0 <= j < |modified| ==> AlreadyIssued(guid, s.guidsIssued, modified[j].key)
    requires other !in IdsOf(modified)
    ensures ChunksOf(ProcessAll(s, src, guid, modified).0.chunks, other) == ChunksOf(s.chunks, other)
    decreases |modified|
  {
    if modified != [] {
      var init := modified[..|modified| - 1];
      var m := modified[|modified| - 1];
      assert modified == init + [m];
      assert IdsOf(modified) == IdsOf(init) + {m.documentId};
      ProcessAllKeepsOtherChunks(s, src, guid, init, other);
      ProcessAllKeepsFresh(s, src, guid, init);
      var (p, e) := ProcessAll(s, src, guid, init);
      if e.None? {
        ProcessDocumentKeepsOtherChunks(p, src, guid, m, other);
      }
    }
  }

  // ---------------------------------------------------------------------
  // A whole pass

  /** What the class invariant says of a state. */
  ghost predicate Ready(s: IngestionState, guid: nat -> string)
  {
    Injective(guid) && WellKeyed(s.documents) && KeysFresh(s, guid)
  }

  /** The state after the ensure-exists calls and the deletion loop. */
  function Cleared(s: IngestionState, src: PdfDirectorySource, loaded: seq<IngestedDocument>): IngestionState
  {
    RemoveAll(s.(calls := s.calls + [EnsureChunksCollection, EnsureDocumentsCollection]), Deleted(src, loaded))
  }

  /** The deletion loop removes exactly the deleted documents' keys, keeps
      every other record and the class invariant. */
  lemma {:induction false} ClearedDocuments(s: IngestionState, src: PdfDirectorySource, loaded: seq<IngestedDocument>, guid: nat -> string)
    requires Ready(s, guid) && LoadedForSource(loaded, s.documents, SourceId(src))
    ensures var s1 := Cleared(s, src, loaded);
      && Ready(s1, guid) && s1.guidsIssued == s.guidsIssued
      && (forall k :: k in s.documents && (s.documents[k].sourceId != SourceId(src) || IsListed(src.files, s.documents[k].documentId))
            ==> k in s1.documents && s1.documents[k] == s.documents[k])
      && (forall k :: k in s1.documents ==> k in s.documents && s1.documents[k] == s.documents[k])
  {
    var s0 := s.(calls := s.calls + [EnsureChunksCollection, EnsureDocumentsCollection]);
    var deleted := Deleted(src, loaded);
    RemoveAllDocuments(s0, deleted);
    RemoveAllChunks(s0, deleted);
    SubsequenceElements(deleted, loaded);
  }

  /** Deletions followed by upserts: every document deletion comes before
      every document upsert, and every chunk deletion names some key. */
  lemma {:induction false} DeletionsThenUpserts(a: seq<StoreCall>, b: seq<StoreCall>, c: seq<StoreCall>)
    requires AppendsDeletions(a, b) && AppendsUpserts(b, c)
    ensures |a| <= |c| && c[..|a|] == a
    ensures forall i, j :: |a| <= i < |c| && |a| <= j < |c| && c[i].DeleteDocument? && c[j].UpsertDocument? ==> i < j
    ensures forall i :: |a| <= i < |c| && c[i].DeleteChunks? ==> c[i].keys != {}
  {
    assert c[..|a|] == c[..|b|][..|a|];
    forall i | |a| <= i < |b|
      ensures c[i] == b[i]
    {
      assert c[..|b|][i] == c[i];
    }
  }

  /** The ensure-exists calls come first; then every document deletion
      precedes every document upsert, and no chunk delete call is issued
      with an empty key set. */
  lemma {:induction false} DeletionsComeFirst(s: IngestionState, src: PdfDirectorySource, loaded: seq<IngestedDocument>,
                           guid: nat -> string, policy: KeyPolicy)
    ensures var r := Reconcile(s, src, loaded, guid, policy).0;
      && |s.calls| + 2 <= |r.calls| && r.calls[..|s.calls|] == s.calls
      && r.calls[|s.calls|] == EnsureChunksCollection && r.calls[|s.calls| + 1] == EnsureDocumentsCollection
      && (forall i, j :: |s.calls| <= i < |r.calls| && |s.calls| <= j < |r.calls|
            && r.calls[i].DeleteDocument? && r.calls[j].UpsertDocument?
            ==> i < j)
      && (forall i :: |s.calls| <= i < |r.calls| && r.calls[i].DeleteChunks? ==> r.calls[i].keys != {})
  {
    var s0 := s.(calls := s.calls + [EnsureChunksCollection, EnsureDocumentsCollection]);
    var s1 := Cleared(s, src, loaded);
    RemoveAllCalls(s0, Deleted(src, loaded));
    ReconcileIsUpsertPhase(s, src, loaded, guid, policy);
    var r := Reconcile(s, src, loaded, guid, policy).0;
    var diff := NewOrModified(src, loaded, guid, s.guidsIssued, policy);
    if diff.Failure? {
      UpsertPhaseWhenDiffFails(s, src, loaded, guid, policy);
      assert r.calls[..|s1.calls|] == s1.calls;
    } else {
      UpsertPhaseWhenDiffSucceeds(s, src, loaded, guid, policy, diff.value);
      ProcessAllCalls(UpsertStart(s, src, loaded, diff.value), src, guid, diff.value);
    }
    EnsureThenDeletionsThenUpserts(s.calls, s1.calls, r.calls);
  }

  /** The call log of a pass, in general: the ensure-exists calls, then
      deletions, then upserts. */
  lemma {:induction false} EnsureThenDeletionsThenUpserts(a: seq<StoreCall>, b: seq<StoreCall>, c: seq<StoreCall>)
    requires AppendsDeletions(a + [EnsureChunksCollection, EnsureDocumentsCollection], b) && AppendsUpserts(b, c)
    ensures |a| + 2 <= |c| && c[..|a|] == a
    ensures c[|a|] == EnsureChunksCollection && c[|a| + 1] == EnsureDocumentsCollection
    ensures forall i, j :: |a| <= i < |c| && |a| <= j < |c| && c[i].DeleteDocument? && c[j].UpsertDocument? ==> i < j
    ensures forall i :: |a| <= i < |c| && c[i].DeleteChunks? ==> c[i].keys != {}
  {
    DeletionsThenUpserts(a + [EnsureChunksCollection, EnsureDocumentsCollection], b, c);
    PrefixParts(a, [EnsureChunksCollection, EnsureDocumentsCollection], c);
  }

  /** A sequence that starts with `a + b` starts with `a`, then `b`. */
  lemma {:induction false} PrefixParts<T>(a: seq<T>, b: seq<T>, c: seq<T>)
    requires |a + b| <= |c| && c[..|a + b|] == a + b
    ensures c[..|a|] == a
    ensures forall i :: 0 <= i < |b| ==> c[|a| + i] == b[i]
  {
    assert c[..|a|] == c[..|a + b|][..|a|];
    forall i | 0 <= i < |b|
      ensures c[|a| + i] == b[i]
    {
      assert c[|a| + i] == c[..|a + b|][|a| + i];
    }
  }

  /** What the upsert loop is handed: documents of this source, for listed
      files, with keys already issued once the diff has drawn its keys;
      under the source's key policy none of those keys is stored yet. */
  lemma {:induction false} UpsertPhaseSetup(s: IngestionState, src: PdfDirectorySource, loaded: seq<IngestedDocument>,
                         guid: nat -> string, policy: KeyPolicy)
    requires Ready(s, guid) && LoadedForSource(loaded, s.documents, SourceId(src))
    requires NewOrModified(src, loaded, guid, s.guidsIssued, policy).Success?
    ensures var modified := NewOrModified(src, loaded, guid, s.guidsIssued, policy).value;
      var s1 := Cleared(s, src, loaded);
      && Ready(s1.(guidsIssued := s1.guidsIssued + |modified|), guid)
      && s1.guidsIssued == s.guidsIssued
      && (forall j :: 0 <= j < |modified| ==>
            && AlreadyIssued(guid, s.guidsIssued + |modified|, modified[j].key)
            && modified[j].sourceId == SourceId(src)
            && IsListed(src.files, modified[j].documentId))
      && (policy == FreshKey ==>
            && (forall j :: 0 <= j < |modified| ==> modified[j].key == guid(s.guidsIssued + j) && modified[j].key !in s.documents)
            && (forall i, j :: 0 <= i < j < |modified| ==> modified[i].key != modified[j].key))
  {
    var modified := NewOrModified(src, loaded, guid, s.guidsIssued, policy).value;
    ClearedDocuments(s, src, loaded, guid);
    ModifiedKeysIssued(src, loaded, guid, s.guidsIssued, policy);
    NewOrModifiedDocuments(src, IndexById(loaded).value, src.files, guid, s.guidsIssued, policy);
    forall j | 0 <= j < |modified|
      ensures IsListed(src.files, modified[j].documentId)
    {
      assert FileOf(modified[j]) in src.files;
    }
  }

  /** The state the upsert loop starts from. */
  function UpsertStart(s: IngestionState, src: PdfDirectorySource, loaded: seq<IngestedDocument>,
                       modified: seq<IngestedDocument>): IngestionState
  {
    var s1 := Cleared(s, src, loaded);
    s1.(guidsIssued := s1.guidsIssued + |modified|)
  }

  /** A pass is the upsert phase run from the state the deletions left. */
  lemma {:induction false} ReconcileIsUpsertPhase(s: IngestionState, src: PdfDirectorySource, loaded: seq<IngestedDocument>,
                                                  guid: nat -> string, policy: KeyPolicy)
    ensures Reconcile(s, src, loaded, guid, policy) == UpsertPhase(Cleared(s, src, loaded), src, loaded, guid, policy)
  {
  }

  /** The deletions draw no keys. */
  lemma {:induction false} ClearedIssued(s: IngestionState, src: PdfDirectorySource, loaded: seq<IngestedDocument>)
    ensures Cleared(s, src, loaded).guidsIssued == s.guidsIssued
  {
    RemoveAllIssued(s.(calls := s.calls + [EnsureChunksCollection, EnsureDocumentsCollection]), Deleted(src, loaded));
  }

  /** When the diff fails, the upsert phase stops with that error. */
  lemma {:induction false} UpsertPhaseWhenDiffFails(s: IngestionState, src: PdfDirectorySource, loaded: seq<IngestedDocument>,
                                                    guid: nat -> string, policy: KeyPolicy)
    requires NewOrModified(src, loaded, guid, s.guidsIssued, policy).Failure?
    ensures UpsertPhase(Cleared(s, src, loaded), src, loaded, guid, policy)
         == (Cleared(s, src, loaded), Failed(NewOrModified(src, loaded, guid, s.guidsIssued, policy).error))
  {
    ClearedIssued(s, src, loaded);
  }

  /** When the diff succeeds, the upsert phase is the upsert loop. */
  lemma {:induction false} UpsertPhaseWhenDiffSucceeds(s: IngestionState, src: PdfDirectorySource, loaded: seq<IngestedDocument>,
                                                       guid: nat -> string, policy: KeyPolicy, modified: seq<IngestedDocument>)
    requires NewOrModified(src, loaded, guid, s.guidsIssued, policy) == Success(modified)
    ensures var (p, e) := ProcessAll(UpsertStart(s, src, loaded, modified), src, guid, modified);
      UpsertPhase(Cleared(s, src, loaded), src, loaded, guid, policy) == (p, if e.Some? then Failed(e.value) else Completed)
  {
    ClearedIssued(s, src, loaded);
  }

  /** The state a pass ends in, in terms of the state the deletions left. */
  lemma {:induction false} PassState(s: IngestionState, src: PdfDirectorySource, loaded: seq<IngestedDocument>,
                  guid: nat -> string, policy: KeyPolicy)
    ensures var diff := NewOrModified(src, loaded, guid, s.guidsIssued, policy);
      Reconcile(s, src, loaded, guid, policy).0 ==
        if diff.Failure? then Cleared(s, src, loaded)
        else ProcessAll(UpsertStart(s, src, loaded, diff.value), src, guid, diff.value).0
  {
    ReconcileIsUpsertPhase(s, src, loaded, guid, policy);
    var diff := NewOrModified(src, loaded, guid, s.guidsIssued, policy);
    if diff.Failure? {
      UpsertPhaseWhenDiffFails(s, src, loaded, guid, policy);
    } else {
      UpsertPhaseWhenDiffSucceeds(s, src, loaded, guid, policy, diff.value);
    }
  }

  /** How a pass ends, in terms of the diff and the upsert loop. */
  lemma {:induction false} PassOutcome(s: IngestionState, src: PdfDirectorySource, loaded: seq<IngestedDocument>,
                    guid: nat -> string, policy: KeyPolicy)
    ensures var diff := NewOrModified(src, loaded, guid, s.guidsIssued, policy);
      Reconcile(s, src, loaded, guid, policy).1 ==
        if diff.Failure? then Failed(diff.error)
        else
          var e := ProcessAll(UpsertStart(s, src, loaded, diff.value), src, guid, diff.value).1;
          if e.Some? then Failed(e.value) else Completed
  {
    ReconcileIsUpsertPhase(s, src, loaded, guid, policy);
    var diff := NewOrModified(src, loaded, guid, s.guidsIssued, policy);
    if diff.Failure? {
      UpsertPhaseWhenDiffFails(s, src, loaded, guid, policy);
    } else {
      UpsertPhaseWhenDiffSucceeds(s, src, loaded, guid, policy, diff.value);
    }
  }

  /** A document the upsert loop is not given, and whose key and chunks
      are gone before it, stays gone. */
  lemma {:induction false} StaysGone(s1: IngestionState, src: PdfDirectorySource, guid: nat -> string,
                                     modified: seq<IngestedDocument>, d: IngestedDocument)
    requires Ready(s1, guid)
    requires forall j :: 0 <= j < |modified| ==> AlreadyIssued(guid, s1.guidsIssued, modified[j].key)
    requires d.key !in s1.documents && ChunksOf(s1.chunks, d.documentId) == map[]
    requires d.key !in KeysOf(modified) && d.documentId !in IdsOf(modified)
    ensures var p := ProcessAll(s1, src, guid, modified).0;
      d.key !in p.documents && ChunksOf(p.chunks, d.documentId) == map[]
  {
    ProcessAllDocuments(s1, src, guid, modified);
    ProcessAllKeepsOtherChunks(s1, src, guid, modified, d.documentId);
  }

  /** A deleted document is gone once the deletion loop has run. */
  lemma {:induction false} ClearedOf(s: IngestionState, src: PdfDirectorySource, loaded: seq<IngestedDocument>,
                  guid: nat -> string, d: IngestedDocument)
    requires Ready(s, guid) && LoadedForSource(loaded, s.documents, SourceId(src))
    requires d in Deleted(src, loaded)
    ensures var s1 := Cleared(s, src, loaded);
      d.key !in s1.documents && ChunksOf(s1.chunks, d.documentId) == map[]
  {
    var s0 := s.(calls := s.calls + [EnsureChunksCollection, EnsureDocumentsCollection]);
    RemoveAllDocuments(s0, Deleted(src, loaded));
    RemoveAllChunks(s0, Deleted(src, loaded));
    assert d.documentId in IdsOf(Deleted(src, loaded));
  }

  /** Delete-completeness, for one deleted document. */
  lemma {:induction false} DeletedDocumentIsGone(s: IngestionState, src: PdfDirectorySource, loaded: seq<IngestedDocument>,
                              guid: nat -> string, d: IngestedDocument)
    requires Ready(s, guid) && LoadedForSource(loaded, s.documents, SourceId(src))
    requires d in Deleted(src, loaded)
    ensures var r := Reconcile(s, src, loaded, guid, FreshKey).0;
      d.key !in r.documents && ChunksOf(r.chunks, d.documentId) == map[]
  {
    ClearedOf(s, src, loaded, guid, d);
    PassState(s, src, loaded, guid, FreshKey);
    var diff := NewOrModified(src, loaded, guid, s.guidsIssued, FreshKey);
    if diff.Success? {
      UpsertPhaseSetup(s, src, loaded, guid, FreshKey);
      SubsequenceElements(Deleted(src, loaded), loaded);
      assert d.key !in KeysOf(diff.value) && d.documentId !in IdsOf(diff.value);
      StaysGone(UpsertStart(s, src, loaded, diff.value), src, guid, diff.value, d);
    }
  }

  /** Delete-completeness: after a pass (even one that ends in an error)
      no document reported deleted is stored, and no chunk carries its
      id. */
  lemma {:induction false} DeletedDocumentsAreGone(s: IngestionState, src: PdfDirectorySource, loaded: seq<IngestedDocument>,
                                guid: nat -> string)
    requires Ready(s, guid) && LoadedForSource(loaded, s.documents, SourceId(src))
    ensures var r := Reconcile(s, src, loaded, guid, FreshKey).0;
      forall d :: d in Deleted(src, loaded) ==> d.key !in r.documents && ChunksOf(r.chunks, d.documentId) == map[]
  {
    forall d | d in Deleted(src, loaded)
      ensures var r := Reconcile(s, src, loaded, guid, FreshKey).0;
        d.key !in r.documents && ChunksOf(r.chunks, d.documentId) == map[]
    {
      DeletedDocumentIsGone(s, src, loaded, guid, d);
    }
  }

  /** Documents of other sources keep their records through a pass. */
  lemma {:induction false} OtherSourcesUntouched(s: IngestionState, src: PdfDirectorySource, loaded: seq<IngestedDocument>,
                              guid: nat -> string)
    requires Ready(s, guid) && LoadedForSource(loaded, s.documents, SourceId(src))
    ensures var r := Reconcile(s, src, loaded, guid, FreshKey).0;
      forall k :: k in s.documents && s.documents[k].sourceId != SourceId(src) ==>
        k in r.documents && r.documents[k] == s.documents[k]
  {
    ClearedDocuments(s, src, loaded, guid);
    PassState(s, src, loaded, guid, FreshKey);
    var diff := NewOrModified(src, loaded, guid, s.guidsIssued, FreshKey);
    if diff.Success? {
      UpsertPhaseSetup(s, src, loaded, guid, FreshKey);
      ProcessAllDocuments(UpsertStart(s, src, loaded, diff.value), src, guid, diff.value);
    }
  }

  /** Chunk deletion matches on the document id alone: a document of
      another source that shares its file name with a deleted document
      keeps its record but loses its chunks. */
  lemma {:induction false} OtherSourceLosesChunks(s: IngestionState, src: PdfDirectorySource, loaded: seq<IngestedDocument>,
                               guid: nat -> string, d: IngestedDocument, k: string)
    requires Ready(s, guid) && LoadedForSource(loaded, s.documents, SourceId(src))
    requires d in Deleted(src, loaded)
    requires k in s.documents && s.documents[k].sourceId != SourceId(src)
    requires s.documents[k].documentId == d.documentId
    ensures var r := Reconcile(s, src, loaded, guid, FreshKey).0;
      k in r.documents && r.documents[k] == s.documents[k]
      && ChunksOf(r.chunks, s.documents[k].documentId) == map[]
  {
    OtherSourcesUntouched(s, src, loaded, guid);
    DeletedDocumentIsGone(s, src, loaded, guid, d);
  }

  /** Unchanged source, no mutation: when the stored documents of the
      source are exactly the listing, file for file and version for
      version, a pass only issues the two ensure-exists calls. */
  lemma {:induction false} UnchangedSourceChangesNothing(s: IngestionState, src: PdfDirectorySource, loaded: seq<IngestedDocument>,
                                      guid: nat -> string, policy: KeyPolicy)
    requires DistinctIds(loaded)
    requires forall i :: 0 <= i < |loaded| ==> FileOf(loaded[i]) in src.files
    requires forall f :: f in src.files ==> exists i :: 0 <= i < |loaded| && FileOf(loaded[i]) == f
    ensures Reconcile(s, src, loaded, guid, policy)
         == (s.(calls := s.calls + [EnsureChunksCollection, EnsureDocumentsCollection]), Completed)
  {
    forall i | 0 <= i < |loaded|
      ensures IsListed(src.files, loaded[i].documentId)
    {
      assert FileOf(loaded[i]) in src.files;
    }
    AllListedNoneDeleted(src, loaded);
    IndexByIdFailsIffDuplicate(loaded);
    IndexByIdContents(loaded);
    var byId := IndexById(loaded).value;
    forall f | f in src.files
      ensures !IsChanged(byId, f)
    {
      var i :| 0 <= i < |loaded| && FileOf(loaded[i]) == f;
      assert byId[loaded[i].documentId] == loaded[i];
    }
    NoChangeNoDocuments(src, byId, src.files, guid, s.guidsIssued, policy);
    QuietPass(s, src, loaded, guid, policy);
  }

  /** With nothing deleted and nothing new or modified, a pass issues only
      the two ensure-exists calls. */
  lemma {:induction false} QuietPass(s: IngestionState, src: PdfDirectorySource, loaded: seq<IngestedDocument>,
                                     guid: nat -> string, policy: KeyPolicy)
    requires Deleted(src, loaded) == []
    requires NewOrModified(src, loaded, guid, s.guidsIssued, policy) == Success([])
    ensures Reconcile(s, src, loaded, guid, policy)
         == (s.(calls := s.calls + [EnsureChunksCollection, EnsureDocumentsCollection]), Completed)
  {
    var s0 := s.(calls := s.calls + [EnsureChunksCollection, EnsureDocumentsCollection]);
    assert RemoveAll(s0, []) == s0;
    assert ProcessAll(s0, src, guid, []) == (s0, None);
  }

  // ---------------------------------------------------------------------
  // The duplicate-key defect

  /** As written, a listed document's stored record survives a pass
      untouched: it is not deleted, and no upsert lands on its key. */
  lemma {:induction false} ListedRecordSurvives(s: IngestionState, src: PdfDirectorySource, loaded: seq<IngestedDocument>,
                             guid: nat -> string, i: nat)
    requires Ready(s, guid) && LoadedForSource(loaded, s.documents, SourceId(src))
    requires i < |loaded| && IsListed(src.files, loaded[i].documentId)
    ensures var r := Reconcile(s, src, loaded, guid, FreshKey).0;
      loaded[i].key in r.documents && r.documents[loaded[i].key] == loaded[i]
  {
    var d := loaded[i];
    ClearedDocuments(s, src, loaded, guid);
    PassState(s, src, loaded, guid, FreshKey);
    assert d.key in s.documents;
    var diff := NewOrModified(src, loaded, guid, s.guidsIssued, FreshKey);
    if diff.Success? {
      UpsertPhaseSetup(s, src, loaded, guid, FreshKey);
      assert d.key !in KeysOf(diff.value);
      ProcessAllDocuments(UpsertStart(s, src, loaded, diff.value), src, guid, diff.value);
    }
  }

  /** After a completed pass, a listed file whose version differs from its
      stored record is stored under a key of its own. */
  lemma {:induction false} NewVersionStored(s: IngestionState, src: PdfDirectorySource, loaded: seq<IngestedDocument>,
                         guid: nat -> string, i: nat, f: SourceFile)
    requires Ready(s, guid) && LoadedForSource(loaded, s.documents, SourceId(src))
    requires i < |loaded| && f in src.files
    requires f.fileName == loaded[i].documentId && f.version != loaded[i].documentVersion
    requires Reconcile(s, src, loaded, guid, FreshKey).1 == Completed
    ensures var r := Reconcile(s, src, loaded, guid, FreshKey).0;
      exists k :: k in r.documents && k != loaded[i].key
        && r.documents[k] == IngestedDocument(k, SourceId(src), f.fileName, f.version)
  {
    var d := loaded[i];
    PassOutcome(s, src, loaded, guid, FreshKey);
    PassState(s, src, loaded, guid, FreshKey);
    var modified := NewOrModified(src, loaded, guid, s.guidsIssued, FreshKey).value;
    var start := UpsertStart(s, src, loaded, modified);
    UpsertPhaseSetup(s, src, loaded, guid, FreshKey);
    var byId := IndexById(loaded).value;
    IndexByIdContents(loaded);
    assert byId[d.documentId] == d;
    var n :| 0 <= n < |src.files| && src.files[n] == f;
    NewOrModifiedComplete(src, byId, src.files, guid, s.guidsIssued, FreshKey);
    var j :| 0 <= j < |modified| && FilesOf(modified)[j] == f;
    ProcessAllUpserted(start, src, guid, modified);
    assert d.key in s.documents;
    assert modified[j].key != d.key;
  }

  /** As written, a modified file gains a second record: the pass upserts
      the new version under a fresh key and never removes the stored one,
      so the source ends with two records carrying the file's name. */
  lemma {:induction false} ModifiedDocumentKeepsOldRecord(s: IngestionState, src: PdfDirectorySource, loaded: seq<IngestedDocument>,
                                       guid: nat -> string, i: nat, f: SourceFile)
    requires Ready(s, guid) && LoadedForSource(loaded, s.documents, SourceId(src))
    requires i < |loaded| && f in src.files
    requires f.fileName == loaded[i].documentId && f.version != loaded[i].documentVersion
    requires Reconcile(s, src, loaded, guid, FreshKey).1 == Completed
    ensures var r := Reconcile(s, src, loaded, guid, FreshKey).0;
      && loaded[i].key in r.documents && r.documents[loaded[i].key] == loaded[i]
      && (exists k :: k in r.documents && k != loaded[i].key
            && r.documents[k] == IngestedDocument(k, SourceId(src), f.fileName, f.version))
      && !OnePerDocumentId(r.documents, SourceId(src))
  {
    ListedRecordSurvives(s, src, loaded, guid, i);
    NewVersionStored(s, src, loaded, guid, i, f);
  }

  /** Two records of one source with one document id make the next pass
      throw the duplicate-key error, after its deletions. */
  lemma {:induction false} DuplicateFailsNextPass(s: IngestionState, src: PdfDirectorySource, loaded: seq<IngestedDocument>,
                               guid: nat -> string, policy: KeyPolicy)
    requires !OnePerDocumentId(s.documents, SourceId(src))
    requires LoadedForSource(loaded, s.documents, SourceId(src))
    ensures var (r, outcome) := Reconcile(s, src, loaded, guid, policy);
      outcome.Failed? && outcome.error.DuplicateDocumentId? && r == Cleared(s, src, loaded)
  {
    DuplicateRecordsNotDistinct(s.documents, SourceId(src), loaded);
    NewOrModifiedFailsIffDuplicate(src, loaded, guid, s.guidsIssued, policy);
    PassState(s, src, loaded, guid, policy);
    PassOutcome(s, src, loaded, guid, policy);
  }

  /** Two records of one source with one document id: the documents read
      back for that source repeat an id. */
  lemma {:induction false} DuplicateRecordsNotDistinct(documents: DocumentStore, sourceId: string, loaded: seq<IngestedDocument>)
    requires !OnePerDocumentId(documents, sourceId)
    requires LoadedForSource(loaded, documents, sourceId)
    ensures !DistinctIds(loaded)
  {
    var k1, k2 :| k1 in documents && k2 in documents && k1 != k2
      && documents[k1].sourceId == sourceId && documents[k2].sourceId == sourceId
      && documents[k1].documentId == documents[k2].documentId;
    var i1 :| 0 <= i1 < |loaded| && loaded[i1].key == k1;
    var i2 :| 0 <= i2 < |loaded| && loaded[i2].key == k2;
    if i1 < i2 {
      assert !DistinctIds(loaded);
    } else {
      assert loaded[i2].documentId == loaded[i1].documentId;
      assert !DistinctIds(loaded);
    }
  }

  /** The duplicate-then-throw sequence: once a pass has stored a modified
      file, the next pass over the same directory throws, whatever the
      directory then lists. */
  lemma {:induction false} DuplicateThenThrow(s: IngestionState, src: PdfDirectorySource, loaded: seq<IngestedDocument>,
                           guid: nat -> string, i: nat, f: SourceFile,
                           next: PdfDirectorySource, loadedNext: seq<IngestedDocument>)
    requires Ready(s, guid) && LoadedForSource(loaded, s.documents, SourceId(src))
    requires i < |loaded| && f in src.files
    requires f.fileName == loaded[i].documentId && f.version != loaded[i].documentVersion
    requires Reconcile(s, src, loaded, guid, FreshKey).1 == Completed
    requires next.directory == src.directory
    requires LoadedForSource(loadedNext, Reconcile(s, src, loaded, guid, FreshKey).0.documents, SourceId(next))
    ensures var outcome := Reconcile(Reconcile(s, src, loaded, guid, FreshKey).0, next, loadedNext, guid, FreshKey).1;
      outcome.Failed? && outcome.error.DuplicateDocumentId?
  {
    ModifiedDocumentKeepsOldRecord(s, src, loaded, guid, i, f);
    SourceIdIdentifiesDirectory(src, next);
    DuplicateFailsNextPass(Reconcile(s, src, loaded, guid, FreshKey).0, next, loadedNext, guid, FreshKey);
  }

  // ---------------------------------------------------------------------
  // The corrected key choice

  /** Every record of source `sourceId` whose id is one of `modified`'s
      ids sits under the key that document carries. */
  ghost predicate KeysFollow(documents: DocumentStore, sourceId: string, modified: seq<IngestedDocument>)
  {
    forall j, k ::
      (0 <= j < |modified| && k in documents && documents[k].sourceId == sourceId
       && documents[k].documentId == modified[j].documentId) ==> k == modified[j].key
  }

  /** The upsert loop over documents with distinct ids, each arriving at
      the key its id already has in the store, keeps one record per id. */
  lemma {:induction false} UpsertKeepsOnePerDocumentId(s: IngestionState, src: PdfDirectorySource, guid: nat -> string,
                                                       modified: seq<IngestedDocument>, n: nat, sourceId: string)
    requires n <= |modified| && DistinctIds(modified)
    requires forall j :: 0 <= j < |modified| ==> modified[j].sourceId == sourceId
    requires OnePerDocumentId(s.documents, sourceId) && KeysFollow(s.documents, sourceId, modified)
    ensures var p := ProcessAll(s, src, guid, modified[..n]).0;
      OnePerDocumentId(p.documents, sourceId) && KeysFollow(p.documents, sourceId, modified)
  {
    if n > 0 {
      assert modified[..n][..n - 1] == modified[..n - 1];
      UpsertKeepsOnePerDocumentId(s, src, guid, modified, n - 1, sourceId);
      var (p, e) := ProcessAll(s, src, guid, modified[..n - 1]);
      if e.None? {
        var m := modified[n - 1];
        ProcessDocumentEffect(p, src, guid, m);
      }
    }
  }

  /** Under the corrected key choice the store already follows the keys
      the diff hands out: a modified file's stored record sits under the
      very key its new version reuses. */
  lemma {:induction false} ReuseStartsConsistent(s: IngestionState, src: PdfDirectorySource, loaded: seq<IngestedDocument>,
                              guid: nat -> string)
    requires Ready(s, guid) && LoadedForSource(loaded, s.documents, SourceId(src))
    requires OnePerDocumentId(s.documents, SourceId(src))
    requires NewOrModified(src, loaded, guid, s.guidsIssued, ReuseStoredKey).Success?
    ensures var modified := NewOrModified(src, loaded, guid, s.guidsIssued, ReuseStoredKey).value;
      var start := UpsertStart(s, src, loaded, modified);
      OnePerDocumentId(start.documents, SourceId(src)) && KeysFollow(start.documents, SourceId(src), modified)
  {
    var modified := NewOrModified(src, loaded, guid, s.guidsIssued, ReuseStoredKey).value;
    var start := UpsertStart(s, src, loaded, modified);
    ClearedDocuments(s, src, loaded, guid);
    var byId := IndexById(loaded).value;
    IndexByIdContents(loaded);
    NewOrModifiedDocuments(src, byId, src.files, guid, s.guidsIssued, ReuseStoredKey);
    forall j, k | 0 <= j < |modified| && k in start.documents && start.documents[k].sourceId == SourceId(src)
        && start.documents[k].documentId == modified[j].documentId
      ensures k == modified[j].key
    {
      var i :| 0 <= i < |loaded| && loaded[i].key == k;
      assert byId[loaded[i].documentId] == loaded[i];
    }
  }

  /** The corrected pass keeps one record per document id for the source,
      and so never ends in the duplicate-key error. */
  lemma {:induction false} ReuseStoredKeyKeepsOnePerDocumentId(s: IngestionState, src: PdfDirectorySource, loaded: seq<IngestedDocument>,
                                            guid: nat -> string)
    requires Ready(s, guid) && LoadedForSource(loaded, s.documents, SourceId(src))
    requires OnePerDocumentId(s.documents, SourceId(src)) && DistinctNames(src.files)
    ensures var (r, outcome) := Reconcile(s, src, loaded, guid, ReuseStoredKey);
      OnePerDocumentId(r.documents, SourceId(src)) && (outcome.Failed? ==> outcome.error.SourceUnavailable?)
  {
    var sid := SourceId(src);
    forall i, j | 0 <= i < j < |loaded|
      ensures loaded[i].documentId != loaded[j].documentId
    {
    }
    NewOrModifiedFailsIffDuplicate(src, loaded, guid, s.guidsIssued, ReuseStoredKey);
    PassState(s, src, loaded, guid, ReuseStoredKey);
    PassOutcome(s, src, loaded, guid, ReuseStoredKey);
    var modified := NewOrModified(src, loaded, guid, s.guidsIssued, ReuseStoredKey).value;
    var start := UpsertStart(s, src, loaded, modified);
    UpsertPhaseSetup(s, src, loaded, guid, ReuseStoredKey);
    NewOrModifiedDistinctIds(src, IndexById(loaded).value, src.files, guid, s.guidsIssued, ReuseStoredKey);
    ReuseStartsConsistent(s, src, loaded, guid);
    UpsertKeepsOnePerDocumentId(start, src, guid, modified, |modified|, sid);
    assert modified[..|modified|] == modified;
    ProcessAllErrors(start, src, guid, modified);
  }

  /** Under the corrected key choice the documents handed to the upsert
      loop carry distinct keys: a reused key belongs to one stored record
      and so to one document id, and a fresh key is neither stored nor
      drawn twice. */
  lemma {:induction false} ReuseStoredKeysDistinct(s: IngestionState, src: PdfDirectorySource, loaded: seq<IngestedDocument>,
                                             guid: nat -> string)
    requires Ready(s, guid) && LoadedForSource(loaded, s.documents, SourceId(src)) && DistinctNames(src.files)
    requires NewOrModified(src, loaded, guid, s.guidsIssued, ReuseStoredKey).Success?
    ensures var modified := NewOrModified(src, loaded, guid, s.guidsIssued, ReuseStoredKey).value;
      forall i, j :: 0 <= i < j < |modified| ==> modified[i].key != modified[j].key
  {
    var modified := NewOrModified(src, loaded, guid, s.guidsIssued, ReuseStoredKey).value;
    var byId := IndexById(loaded).value;
    IndexByIdContents(loaded);
    NewOrModifiedDocuments(src, byId, src.files, guid, s.guidsIssued, ReuseStoredKey);
    NewOrModifiedDistinctIds(src, byId, src.files, guid, s.guidsIssued, ReuseStoredKey);
    forall i, j | 0 <= i < j < |modified|
      ensures modified[i].key != modified[j].key
    {
      var a, b := modified[i], modified[j];
      if a.documentId in byId {
        var x :| 0 <= x < |loaded| && loaded[x].documentId == a.documentId;
        assert a.key == loaded[x].key && s.documents[a.key] == loaded[x];
        if b.documentId in byId {
          var y :| 0 <= y < |loaded| && loaded[y].documentId == b.documentId;
          assert b.key == loaded[y].key && s.documents[b.key] == loaded[y];
        } else {
          assert b.key == guid(s.guidsIssued + j) && b.key !in s.documents;
        }
      } else if b.documentId in byId {
        var y :| 0 <= y < |loaded| && loaded[y].documentId == b.documentId;
        assert b.key == loaded[y].key && b.key in s.documents;
        assert a.key == guid(s.guidsIssued + i) && a.key !in s.documents;
      } else {
        assert a.key == guid(s.guidsIssued + i) && b.key == guid(s.guidsIssued + j);
      }
    }
  }

  /** Under the corrected key choice a modified file's new version lands
      on its stored record's key, so after a completed pass that record
      holds the new version, and it is the only record of the source with
      the file's name. */
  lemma {:induction false} ReuseStoredKeyStoresNewVersion(s: IngestionState, src: PdfDirectorySource, loaded: seq<IngestedDocument>,
                                                          guid: nat -> string, i: nat, f: SourceFile)
    requires Ready(s, guid) && LoadedForSource(loaded, s.documents, SourceId(src)) && DistinctNames(src.files)
    requires i < |loaded| && f in src.files
    requires f.fileName == loaded[i].documentId && f.version != loaded[i].documentVersion
    requires Reconcile(s, src, loaded, guid, ReuseStoredKey).1 == Completed
    ensures var r := Reconcile(s, src, loaded, guid, ReuseStoredKey).0;
      loaded[i].key in r.documents
      && r.documents[loaded[i].key] == IngestedDocument(loaded[i].key, SourceId(src), f.fileName, f.version)
  {
    var d := loaded[i];
    PassOutcome(s, src, loaded, guid, ReuseStoredKey);
    PassState(s, src, loaded, guid, ReuseStoredKey);
    var modified := NewOrModified(src, loaded, guid, s.guidsIssued, ReuseStoredKey).value;
    var start := UpsertStart(s, src, loaded, modified);
    var byId := IndexById(loaded).value;
    IndexByIdContents(loaded);
    assert byId[d.documentId] == d;
    assert IsChanged(byId, f);
    NewOrModifiedComplete(src, byId, src.files, guid, s.guidsIssued, ReuseStoredKey);
    var n :| 0 <= n < |src.files| && src.files[n] == f;
    var j :| 0 <= j < |modified| && FilesOf(modified)[j] == f;
    NewOrModifiedDocuments(src, byId, src.files, guid, s.guidsIssued, ReuseStoredKey);
    assert modified[j] == IngestedDocument(d.key, SourceId(src), f.fileName, f.version);
    ReuseStoredKeysDistinct(s, src, loaded, guid);
    ProcessAllUpserted(start, src, guid, modified);
  }

  /** A completed pass started from records that are unique per document
      id: the records read back had distinct ids. */
  lemma {:induction false} CompletedPassStartsUnique(s: IngestionState, src: PdfDirectorySource, loaded: seq<IngestedDocument>,
                                                     guid: nat -> string, policy: KeyPolicy)
    requires LoadedForSource(loaded, s.documents, SourceId(src))
    requires Reconcile(s, src, loaded, guid, policy).1 == Completed
    ensures OnePerDocumentId(s.documents, SourceId(src))
  {
    PassOutcome(s, src, loaded, guid, policy);
    NewOrModifiedFailsIffDuplicate(src, loaded, guid, s.guidsIssued, policy);
    if !OnePerDocumentId(s.documents, SourceId(src)) {
      DuplicateRecordsNotDistinct(s.documents, SourceId(src), loaded);
    }
  }

  /** The corrected pass replaces a modified file's record: the new version
      sits under the stored key and no other record of the source carries
      the file's name. */
  lemma {:induction false} ReuseStoredKeyReplacesRecord(s: IngestionState, src: PdfDirectorySource, loaded: seq<IngestedDocument>,
                                                        guid: nat -> string, i: nat, f: SourceFile)
    requires Ready(s, guid) && LoadedForSource(loaded, s.documents, SourceId(src)) && DistinctNames(src.files)
    requires i < |loaded| && f in src.files
    requires f.fileName == loaded[i].documentId && f.version != loaded[i].documentVersion
    requires Reconcile(s, src, loaded, guid, ReuseStoredKey).1 == Completed
    ensures var r := Reconcile(s, src, loaded, guid, ReuseStoredKey).0;
      && loaded[i].key in r.documents
      && r.documents[loaded[i].key] == IngestedDocument(loaded[i].key, SourceId(src), f.fileName, f.version)
      && forall k :: k in r.documents && r.documents[k].sourceId == SourceId(src) && r.documents[k].documentId == f.fileName
           ==> k == loaded[i].key
  {
    ReuseStoredKeyStoresNewVersion(s, src, loaded, guid, i, f);
    CompletedPassStartsUnique(s, src, loaded, guid, ReuseStoredKey);
    ReuseStoredKeyKeepsOnePerDocumentId(s, src, loaded, guid);
  }

  /** A pass keeps the class invariant: records under their own keys, and
      unissued keys unused in both stores. */
  lemma {:induction false} ReconcileKeepsReady(s: IngestionState, src: PdfDirectorySource, loaded: seq<IngestedDocument>,
                                               guid: nat -> string, policy: KeyPolicy)
    requires Ready(s, guid) && LoadedForSource(loaded, s.documents, SourceId(src))
    ensures Ready(Reconcile(s, src, loaded, guid, policy).0, guid)
  {
    PassState(s, src, loaded, guid, policy);
    ClearedDocuments(s, src, loaded, guid);
    var diff := NewOrModified(src, loaded, guid, s.guidsIssued, policy);
    if diff.Success? {
      UpsertPhaseSetup(s, src, loaded, guid, policy);
      ProcessAllKeepsFresh(UpsertStart(s, src, loaded, diff.value), src, guid, diff.value);
    }
  }

  /** The corrected counterpart of `DuplicateThenThrow`: after a completed
      pass, the next pass over the same directory still keeps one record
      per document id and cannot end in the duplicate-key error. */
  lemma {:induction false} ReuseStoredKeyNextPassHasNoDuplicate(s: IngestionState, src: PdfDirectorySource, loaded: seq<IngestedDocument>,
                                                                guid: nat -> string,
                                                                next: PdfDirectorySource, loadedNext: seq<IngestedDocument>)
    requires Ready(s, guid) && LoadedForSource(loaded, s.documents, SourceId(src))
    requires DistinctNames(src.files) && DistinctNames(next.files)
    requires Reconcile(s, src, loaded, guid, ReuseStoredKey).1 == Completed
    requires next.directory == src.directory
    requires LoadedForSource(loadedNext, Reconcile(s, src, loaded, guid, ReuseStoredKey).0.documents, SourceId(next))
    ensures var (r, outcome) := Reconcile(Reconcile(s, src, loaded, guid, ReuseStoredKey).0, next, loadedNext, guid, ReuseStoredKey);
      && OnePerDocumentId(r.documents, SourceId(src))
      && (outcome.Failed? ==> outcome.error.SourceUnavailable?)
  {
    var r1 := Reconcile(s, src, loaded, guid, ReuseStoredKey).0;
    CompletedPassStartsUnique(s, src, loaded, guid, ReuseStoredKey);
    ReuseStoredKeyKeepsOnePerDocumentId(s, src, loaded, guid);
    ReconcileKeepsReady(s, src, loaded, guid, ReuseStoredKey);
    SourceIdIdentifiesDirectory(src, next);
    ReuseStoredKeyKeepsOnePerDocumentId(r1, next, loadedNext, guid);
  }

  // ---------------------------------------------------------------------
  // A second pass over an unchanged directory

  /** The source's records match the listing one for one: every record of
      the source stands for a listed file, and every listed file has one. */
  ghost predicate StoreMatchesListing(documents: DocumentStore, src: PdfDirectorySource)
  {
    && (forall k :: k in documents && documents[k].sourceId == SourceId(src) ==> FileOf(documents[k]) in src.files)
    && (forall f :: f in src.files ==>
          exists k :: k in documents && documents[k].sourceId == SourceId(src) && FileOf(documents[k]) == f)
  }

  /** A record of the source that the deletion loop keeps is listed. */
  lemma {:induction false} ClearedKeepsListed(s: IngestionState, src: PdfDirectorySource, loaded: seq<IngestedDocument>)
    requires LoadedForSource(loaded, s.documents, SourceId(src))
    ensures var s1 := Cleared(s, src, loaded);
      forall k :: k in s1.documents && s1.documents[k].sourceId == SourceId(src) ==> IsListed(src.files, s1.documents[k].documentId)
  {
    var s0 := s.(calls := s.calls + [EnsureChunksCollection, EnsureDocumentsCollection]);
    RemoveAllDocuments(s0, Deleted(src, loaded));
  }

  /** The corrected diff writes a stored record's key when the listing
      holds that record's file at another version. */
  lemma {:induction false} ReuseDiffTouchesChanged(src: PdfDirectorySource, loaded: seq<IngestedDocument>,
                                                   documents: DocumentStore, guid: nat -> string, next: nat)
    requires LoadedForSource(loaded, documents, SourceId(src)) && IndexById(loaded).Success?
    ensures var modified := NewOrModifiedFrom(src, IndexById(loaded).value, src.files, guid, next, ReuseStoredKey);
      forall x, g :: 0 <= x < |loaded| && g in src.files && g.fileName == loaded[x].documentId
                     && g.version != loaded[x].documentVersion
        ==> loaded[x].key in KeysOf(modified)
  {
    var byId := IndexById(loaded).value;
    var modified := NewOrModifiedFrom(src, byId, src.files, guid, next, ReuseStoredKey);
    IndexByIdContents(loaded);
    NewOrModifiedDocuments(src, byId, src.files, guid, next, ReuseStoredKey);
    NewOrModifiedComplete(src, byId, src.files, guid, next, ReuseStoredKey);
    forall x, g | 0 <= x < |loaded| && g in src.files && g.fileName == loaded[x].documentId
                  && g.version != loaded[x].documentVersion
      ensures loaded[x].key in KeysOf(modified)
    {
      var d := loaded[x];
      assert byId[d.documentId] == d;
      var n :| 0 <= n < |src.files| && src.files[n] == g;
      assert IsChanged(byId, g);
      var j :| 0 <= j < |modified| && FilesOf(modified)[j] == g;
      assert modified[j].key == d.key && modified[j] in modified;
    }
  }

  /** The corrected diff puts a document on a stored record's key only
      for that record's own document id. */
  lemma {:induction false} ReuseDiffKeysKeepIds(src: PdfDirectorySource, loaded: seq<IngestedDocument>,
                                                documents: DocumentStore, guid: nat -> string, next: nat)
    requires LoadedForSource(loaded, documents, SourceId(src)) && FreshFrom(guid, next, documents.Keys)
    requires IndexById(loaded).Success?
    ensures var modified := NewOrModifiedFrom(src, IndexById(loaded).value, src.files, guid, next, ReuseStoredKey);
      forall j, x :: 0 <= j < |modified| && 0 <= x < |loaded| && modified[j].key == loaded[x].key
        ==> modified[j].documentId == loaded[x].documentId
  {
    var byId := IndexById(loaded).value;
    var modified := NewOrModifiedFrom(src, byId, src.files, guid, next, ReuseStoredKey);
    IndexByIdContents(loaded);
    NewOrModifiedDocuments(src, byId, src.files, guid, next, ReuseStoredKey);
    forall j, x | 0 <= j < |modified| && 0 <= x < |loaded| && modified[j].key == loaded[x].key
      ensures modified[j].documentId == loaded[x].documentId
    {
      var m := modified[j];
      if m.documentId in byId {
        var y :| 0 <= y < |loaded| && loaded[y].documentId == m.documentId;
        assert byId[m.documentId] == loaded[y];
        assert documents[loaded[y].key] == loaded[y] && documents[loaded[x].key] == loaded[x];
      } else {
        assert false;
      }
    }
  }

  /** The corrected diff writes a stored record's key only when the
      listing holds that record's file at another version. */
  lemma {:induction false} ReuseDiffSparesUnchanged(src: PdfDirectorySource, loaded: seq<IngestedDocument>,
                                                    documents: DocumentStore, guid: nat -> string, next: nat)
    requires LoadedForSource(loaded, documents, SourceId(src)) && FreshFrom(guid, next, documents.Keys)
    requires DistinctNames(src.files) && IndexById(loaded).Success?
    ensures var modified := NewOrModifiedFrom(src, IndexById(loaded).value, src.files, guid, next, ReuseStoredKey);
      forall x, g :: 0 <= x < |loaded| && g in src.files && g.fileName == loaded[x].documentId
                     && loaded[x].key in KeysOf(modified)
        ==> g.version != loaded[x].documentVersion
  {
    var byId := IndexById(loaded).value;
    var modified := NewOrModifiedFrom(src, byId, src.files, guid, next, ReuseStoredKey);
    IndexByIdContents(loaded);
    NewOrModifiedDocuments(src, byId, src.files, guid, next, ReuseStoredKey);
    ReuseDiffKeysKeepIds(src, loaded, documents, guid, next);
    forall x, g | 0 <= x < |loaded| && g in src.files && g.fileName == loaded[x].documentId
                  && loaded[x].key in KeysOf(modified)
      ensures g.version != loaded[x].documentVersion
    {
      var d := loaded[x];
      assert byId[d.documentId] == d;
      var n :| 0 <= n < |src.files| && src.files[n] == g;
      var m :| m in modified && m.key == d.key;
      var j :| 0 <= j < |modified| && modified[j] == m;
      var p :| 0 <= p < |src.files| && src.files[p] == FileOf(m);
      assert p == n;
      assert IsChanged(byId, g);
    }
  }

  /** The corrected diff lands on a stored record's key exactly when the
      listing holds that record's file at another version. */
  lemma {:induction false} ReuseDiffTouchesChangedOnly(src: PdfDirectorySource, loaded: seq<IngestedDocument>,
                                                       documents: DocumentStore, guid: nat -> string, next: nat)
    requires LoadedForSource(loaded, documents, SourceId(src)) && FreshFrom(guid, next, documents.Keys)
    requires DistinctNames(src.files) && IndexById(loaded).Success?
    ensures var modified := NewOrModifiedFrom(src, IndexById(loaded).value, src.files, guid, next, ReuseStoredKey);
      forall x, g :: 0 <= x < |loaded| && g in src.files && g.fileName == loaded[x].documentId
        ==> (loaded[x].key in KeysOf(modified) <==> g.version != loaded[x].documentVersion)
  {
    ReuseDiffTouchesChanged(src, loaded, documents, guid, next);
    ReuseDiffSparesUnchanged(src, loaded, documents, guid, next);
  }

  /** After a completed corrected pass every record of the source stands
      for a listed file, at the listed version. */
  lemma {:induction false} ReuseStoredKeyRecordsListed(s: IngestionState, src: PdfDirectorySource, loaded: seq<IngestedDocument>,
                                                       guid: nat -> string)
    requires Ready(s, guid) && LoadedForSource(loaded, s.documents, SourceId(src)) && DistinctNames(src.files)
    requires Reconcile(s, src, loaded, guid, ReuseStoredKey).1 == Completed
    ensures var r := Reconcile(s, src, loaded, guid, ReuseStoredKey).0;
      forall k :: k in r.documents && r.documents[k].sourceId == SourceId(src) ==> FileOf(r.documents[k]) in src.files
  {
    PassOutcome(s, src, loaded, guid, ReuseStoredKey);
    PassState(s, src, loaded, guid, ReuseStoredKey);
    var modified := NewOrModified(src, loaded, guid, s.guidsIssued, ReuseStoredKey).value;
    var start := UpsertStart(s, src, loaded, modified);
    var r := ProcessAll(start, src, guid, modified).0;
    var byId := IndexById(loaded).value;
    NewOrModifiedDocuments(src, byId, src.files, guid, s.guidsIssued, ReuseStoredKey);
    ReuseDiffTouchesChangedOnly(src, loaded, s.documents, guid, s.guidsIssued);
    ReuseStoredKeysDistinct(s, src, loaded, guid);
    ProcessAllUpserted(start, src, guid, modified);
    ProcessAllDocuments(start, src, guid, modified);
    ClearedDocuments(s, src, loaded, guid);
    ClearedKeepsListed(s, src, loaded);
    forall k | k in r.documents && r.documents[k].sourceId == SourceId(src)
      ensures FileOf(r.documents[k]) in src.files
    {
      if k in KeysOf(modified) {
        var m :| m in modified && m.key == k;
        var j :| 0 <= j < |modified| && modified[j] == m;
      } else {
        var x :| 0 <= x < |loaded| && loaded[x].key == k;
        assert r.documents[k] == loaded[x];
        var g :| g in src.files && g.fileName == loaded[x].documentId;
        assert FileOf(loaded[x]) == g;
      }
    }
  }

  /** Under the corrected key choice a stored record whose file is listed
      at the same version is not written: it survives a completed pass. */
  lemma {:induction false} ReuseStoredKeyKeepsUnchanged(s: IngestionState, src: PdfDirectorySource, loaded: seq<IngestedDocument>,
                                                        guid: nat -> string, x: nat)
    requires Ready(s, guid) && LoadedForSource(loaded, s.documents, SourceId(src)) && DistinctNames(src.files)
    requires Reconcile(s, src, loaded, guid, ReuseStoredKey).1 == Completed
    requires x < |loaded| && FileOf(loaded[x]) in src.files
    ensures var r := Reconcile(s, src, loaded, guid, ReuseStoredKey).0;
      loaded[x].key in r.documents && r.documents[loaded[x].key] == loaded[x]
  {
    PassOutcome(s, src, loaded, guid, ReuseStoredKey);
    PassState(s, src, loaded, guid, ReuseStoredKey);
    var modified := NewOrModified(src, loaded, guid, s.guidsIssued, ReuseStoredKey).value;
    var start := UpsertStart(s, src, loaded, modified);
    ReuseDiffTouchesChangedOnly(src, loaded, s.documents, guid, s.guidsIssued);
    ProcessAllDocuments(start, src, guid, modified);
    ClearedDocuments(s, src, loaded, guid);
    assert IsListed(src.files, loaded[x].documentId);
  }

  /** Under the corrected key choice a listed file without a stored record
      at its version is stored by a completed pass. */
  lemma {:induction false} ReuseStoredKeyStoresChanged(s: IngestionState, src: PdfDirectorySource, loaded: seq<IngestedDocument>,
                                                       guid: nat -> string, f: SourceFile)
    requires Ready(s, guid) && LoadedForSource(loaded, s.documents, SourceId(src)) && DistinctNames(src.files)
    requires Reconcile(s, src, loaded, guid, ReuseStoredKey).1 == Completed
    requires f in src.files && forall x :: 0 <= x < |loaded| ==> FileOf(loaded[x]) != f
    ensures var r := Reconcile(s, src, loaded, guid, ReuseStoredKey).0;
      exists k :: k in r.documents && r.documents[k] == IngestedDocument(k, SourceId(src), f.fileName, f.version)
  {
    PassOutcome(s, src, loaded, guid, ReuseStoredKey);
    PassState(s, src, loaded, guid, ReuseStoredKey);
    var modified := NewOrModified(src, loaded, guid, s.guidsIssued, ReuseStoredKey).value;
    var start := UpsertStart(s, src, loaded, modified);
    var byId := IndexById(loaded).value;
    IndexByIdContents(loaded);
    NewOrModifiedDocuments(src, byId, src.files, guid, s.guidsIssued, ReuseStoredKey);
    NewOrModifiedComplete(src, byId, src.files, guid, s.guidsIssued, ReuseStoredKey);
    ReuseStoredKeysDistinct(s, src, loaded, guid);
    ProcessAllUpserted(start, src, guid, modified);
    var n :| 0 <= n < |src.files| && src.files[n] == f;
    if f.fileName in byId {
      var x :| 0 <= x < |loaded| && loaded[x].documentId == f.fileName;
      assert byId[f.fileName] == loaded[x];
    }
    assert IsChanged(byId, f);
    var j :| 0 <= j < |modified| && FilesOf(modified)[j] == f;
    assert modified[j].key in ProcessAll(start, src, guid, modified).0.documents;
  }

  /** After a completed corrected pass every listed file has a record of
      the source at the listed version. */
  lemma {:induction false} ReuseStoredKeyCoversListing(s: IngestionState, src: PdfDirectorySource, loaded: seq<IngestedDocument>,
                                                       guid: nat -> string)
    requires Ready(s, guid) && LoadedForSource(loaded, s.documents, SourceId(src)) && DistinctNames(src.files)
    requires Reconcile(s, src, loaded, guid, ReuseStoredKey).1 == Completed
    ensures var r := Reconcile(s, src, loaded, guid, ReuseStoredKey).0;
      forall f :: f in src.files ==>
        exists k :: k in r.documents && r.documents[k].sourceId == SourceId(src) && FileOf(r.documents[k]) == f
  {
    var r := Reconcile(s, src, loaded, guid, ReuseStoredKey).0;
    forall f | f in src.files
      ensures exists k :: k in r.documents && r.documents[k].sourceId == SourceId(src) && FileOf(r.documents[k]) == f
    {
      if x :| 0 <= x < |loaded| && FileOf(loaded[x]) == f {
        ReuseStoredKeyKeepsUnchanged(s, src, loaded, guid, x);
        assert r.documents[loaded[x].key] == loaded[x];
      } else {
        ReuseStoredKeyStoresChanged(s, src, loaded, guid, f);
        var k :| k in r.documents && r.documents[k] == IngestedDocument(k, SourceId(src), f.fileName, f.version);
      }
    }
  }

  /** A store whose records of the source match the listing one for one,
      one per document id, makes a pass that changes nothing. */
  lemma {:induction false} MatchingStoreIsQuiet(s: IngestionState, src: PdfDirectorySource, loaded: seq<IngestedDocument>,
                                                guid: nat -> string, policy: KeyPolicy)
    requires OnePerDocumentId(s.documents, SourceId(src)) && StoreMatchesListing(s.documents, src)
    requires LoadedForSource(loaded, s.documents, SourceId(src))
    ensures Reconcile(s, src, loaded, guid, policy)
         == (s.(calls := s.calls + [EnsureChunksCollection, EnsureDocumentsCollection]), Completed)
  {
    forall i | 0 <= i < |loaded|
      ensures FileOf(loaded[i]) in src.files
    {
      assert s.documents[loaded[i].key] == loaded[i];
    }
    forall f | f in src.files
      ensures exists i :: 0 <= i < |loaded| && FileOf(loaded[i]) == f
    {
      var k :| k in s.documents && s.documents[k].sourceId == SourceId(src) && FileOf(s.documents[k]) == f;
      var i :| 0 <= i < |loaded| && loaded[i].key == k;
      assert FileOf(loaded[i]) == f;
    }
    forall i, j | 0 <= i < j < |loaded|
      ensures loaded[i].documentId != loaded[j].documentId
    {
      assert s.documents[loaded[i].key] == loaded[i] && s.documents[loaded[j].key] == loaded[j];
    }
    UnchangedSourceChangesNothing(s, src, loaded, guid, policy);
  }

  /** Idempotence of the corrected pass: once a pass over a directory has
      completed, a second pass over the same unchanged directory issues
      only the two ensure-exists calls and changes no record. */
  lemma {:induction false} ReuseStoredKeySecondPassChangesNothing(s: IngestionState, src: PdfDirectorySource, loaded: seq<IngestedDocument>,
                                                                  guid: nat -> string, loadedNext: seq<IngestedDocument>)
    requires Ready(s, guid) && LoadedForSource(loaded, s.documents, SourceId(src)) && DistinctNames(src.files)
    requires Reconcile(s, src, loaded, guid, ReuseStoredKey).1 == Completed
    requires LoadedForSource(loadedNext, Reconcile(s, src, loaded, guid, ReuseStoredKey).0.documents, SourceId(src))
    ensures var r1 := Reconcile(s, src, loaded, guid, ReuseStoredKey).0;
      Reconcile(r1, src, loadedNext, guid, ReuseStoredKey)
        == (r1.(calls := r1.calls + [EnsureChunksCollection, EnsureDocumentsCollection]), Completed)
  {
    var r1 := Reconcile(s, src, loaded, guid, ReuseStoredKey).0;
    CompletedPassStartsUnique(s, src, loaded, guid, ReuseStoredKey);
    ReuseStoredKeyKeepsOnePerDocumentId(s, src, loaded, guid);
    ReuseStoredKeyRecordsListed(s, src, loaded, guid);
    ReuseStoredKeyCoversListing(s, src, loaded, guid);
    MatchingStoreIsQuiet(r1, src, loadedNext, guid, ReuseStoredKey);
  }

  /** One step of the diff loop: when the two diffs agree on a prefix and
      the next file, if changed, has no stored record, they agree on the
      longer prefix. */
  lemma {:induction false} NewOrModifiedFromStepAgrees(src: PdfDirectorySource, byId: map<string, IngestedDocument>,
                                                       files: seq<SourceFile>, guid: nat -> string, next: nat)
    requires files != []
    requires NewOrModifiedFrom(src, byId, files[..|files| - 1], guid, next, FreshKey)
          == NewOrModifiedFrom(src, byId, files[..|files| - 1], guid, next, ReuseStoredKey)
    requires IsChanged(byId, files[|files| - 1]) ==> files[|files| - 1].fileName !in byId
    ensures NewOrModifiedFrom(src, byId, files, guid, next, FreshKey) == NewOrModifiedFrom(src, byId, files, guid, next, ReuseStoredKey)
  {
    var f := files[|files| - 1];
    var prev := NewOrModifiedFrom(src, byId, files[..|files| - 1], guid, next, FreshKey);
    if IsChanged(byId, f) {
      assert NewDocument(src, byId, f, guid(next + |prev|), FreshKey)
          == NewDocument(src, byId, f, guid(next + |prev|), ReuseStoredKey);
    }
  }

  /** Where no listed file has a stored record at another version, the
      as-written diff and the corrected one return the same documents. */
  lemma {:induction false} NewOrModifiedFromPoliciesAgree(src: PdfDirectorySource, byId: map<string, IngestedDocument>,
                                                          files: seq<SourceFile>, guid: nat -> string, next: nat)
    requires forall i :: 0 <= i < |files| && files[i].fileName in byId ==> !IsChanged(byId, files[i])
    ensures NewOrModifiedFrom(src, byId, files, guid, next, FreshKey) == NewOrModifiedFrom(src, byId, files, guid, next, ReuseStoredKey)
    decreases |files|
  {
    if files != [] {
      var init := files[..|files| - 1];
      assert forall i :: 0 <= i < |init| ==> init[i] == files[i];
      NewOrModifiedFromPoliciesAgree(src, byId, init, guid, next);
      NewOrModifiedFromStepAgrees(src, byId, files, guid, next);
    }
  }

  /** The same for the whole diff, from the records read back. */
  lemma {:induction false} NewOrModifiedPoliciesAgree(src: PdfDirectorySource, loaded: seq<IngestedDocument>,
                                                      guid: nat -> string, next: nat)
    requires forall i, f :: 0 <= i < |loaded| && f in src.files && f.fileName == loaded[i].documentId
               ==> f.version == loaded[i].documentVersion
    ensures NewOrModified(src, loaded, guid, next, FreshKey) == NewOrModified(src, loaded, guid, next, ReuseStoredKey)
  {
    if IndexById(loaded).Success? {
      var byId := IndexById(loaded).value;
      IndexByIdContents(loaded);
      forall i | 0 <= i < |src.files| && src.files[i].fileName in byId
        ensures !IsChanged(byId, src.files[i])
      {
        var x :| 0 <= x < |loaded| && loaded[x].documentId == src.files[i].fileName;
        assert byId[src.files[i].fileName] == loaded[x];
      }
      NewOrModifiedFromPoliciesAgree(src, byId, src.files, guid, next);
    }
  }

  /** Two upsert phases over the same diff are the same. */
  lemma {:induction false} UpsertPhasePoliciesAgree(s1: IngestionState, src: PdfDirectorySource, loaded: seq<IngestedDocument>,
                                                    guid: nat -> string)
    requires NewOrModified(src, loaded, guid, s1.guidsIssued, FreshKey) == NewOrModified(src, loaded, guid, s1.guidsIssued, ReuseStoredKey)
    ensures UpsertPhase(s1, src, loaded, guid, FreshKey) == UpsertPhase(s1, src, loaded, guid, ReuseStoredKey)
  {
  }

  /** Where no listed file has a stored record at another version, a pass
      as written and a corrected pass are the same. */
  lemma {:induction false} ReconcilePoliciesAgree(s: IngestionState, src: PdfDirectorySource, loaded: seq<IngestedDocument>,
                                                  guid: nat -> string)
    requires forall i, f :: 0 <= i < |loaded| && f in src.files && f.fileName == loaded[i].documentId
               ==> f.version == loaded[i].documentVersion
    ensures Reconcile(s, src, loaded, guid, FreshKey) == Reconcile(s, src, loaded, guid, ReuseStoredKey)
  {
    var s1 := Cleared(s, src, loaded);
    ReconcileIsUpsertPhase(s, src, loaded, guid, FreshKey);
    ReconcileIsUpsertPhase(s, src, loaded, guid, ReuseStoredKey);
    NewOrModifiedPoliciesAgree(src, loaded, guid, s1.guidsIssued);
    UpsertPhasePoliciesAgree(s1, src, loaded, guid);
  }

  /** Idempotence as written, for a first pass in which no listed file has
      a stored record at another version (so the duplicate-key defect does
      not arise): the second pass over the unchanged directory issues only
      the two ensure-exists calls and changes no record. */
  lemma {:induction false} SecondPassChangesNothing(s: IngestionState, src: PdfDirectorySource, loaded: seq<IngestedDocument>,
                                                    guid: nat -> string, loadedNext: seq<IngestedDocument>)
    requires Ready(s, guid) && LoadedForSource(loaded, s.documents, SourceId(src)) && DistinctNames(src.files)
    requires forall i, f :: 0 <= i < |loaded| && f in src.files && f.fileName == loaded[i].documentId
               ==> f.version == loaded[i].documentVersion
    requires Reconcile(s, src, loaded, guid, FreshKey).1 == Completed
    requires LoadedForSource(loadedNext, Reconcile(s, src, loaded, guid, FreshKey).0.documents, SourceId(src))
    ensures var r1 := Reconcile(s, src, loaded, guid, FreshKey).0;
      Reconcile(r1, src, loadedNext, guid, FreshKey)
        == (r1.(calls := r1.calls + [EnsureChunksCollection, EnsureDocumentsCollection]), Completed)
  {
    ReconcilePoliciesAgree(s, src, loaded, guid);
    var r1 := Reconcile(s, src, loaded, guid, FreshKey).0;
    CompletedPassStartsUnique(s, src, loaded, guid, ReuseStoredKey);
    ReuseStoredKeyKeepsOnePerDocumentId(s, src, loaded, guid);
    ReuseStoredKeyRecordsListed(s, src, loaded, guid);
    ReuseStoredKeyCoversListing(s, src, loaded, guid);
    MatchingStoreIsQuiet(r1, src, loadedNext, guid, FreshKey);
  }

  // ---------------------------------------------------------------------
  // A document the chunker cannot open

  /** The document record is stored before its chunks are made. When the
      chunker cannot open the document, the step stops with the new record
      in place and no chunks for the document id. A later diff that reads
      that record back finds the file unchanged and does not return the
      document again, so its chunks are not rebuilt. */
  lemma {:induction false} ChunkerFailureIsNotRetried(s: IngestionState, src: PdfDirectorySource, guid: nat -> string,
                                                      m: IngestedDocument, next: PdfDirectorySource,
                                                      loadedNext: seq<IngestedDocument>, k: nat, policy: KeyPolicy)
    requires src.paragraphs(m.documentId).None?
    requires FileOf(m) in next.files && DistinctNames(next.files)
    requires LoadedForSource(loadedNext, ProcessDocument(s, src, guid, m).0.documents, m.sourceId)
    requires NewOrModified(next, loadedNext, guid, k, policy).Success?
    ensures var (p, e) := ProcessDocument(s, src, guid, m);
      && e == Some(SourceUnavailable(m.documentId))
      && m.key in p.documents && p.documents[m.key] == m
      && ChunksOf(p.chunks, m.documentId) == map[]
      && forall d :: d in NewOrModified(next, loadedNext, guid, k, policy).value ==> d.documentId != m.documentId
  {
    var (p, e) := ProcessDocument(s, src, guid, m);
    ProcessDocumentEffect(s, src, guid, m);
    DeleteChunksForEffect(s, m.documentId);
    assert p.chunks == DeleteChunksFor(s, m.documentId).chunks;
    var byId := IndexById(loadedNext).value;
    IndexByIdContents(loadedNext);
    assert m.key in p.documents && p.documents[m.key] == m;
    var i :| 0 <= i < |loadedNext| && loadedNext[i].key == m.key;
    assert loadedNext[i] == m && byId[m.documentId] == m;
    var n :| 0 <= n < |next.files| && next.files[n] == FileOf(m);
    forall g | g in next.files && g.fileName == m.documentId
      ensures g == FileOf(m)
    {
      var q :| 0 <= q < |next.files| && next.files[q] == g;
      assert q == n;
    }
    UnchangedFileYieldsNothing(next, byId, next.files, guid, k, policy, FileOf(m));
  }
}
