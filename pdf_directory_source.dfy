/** The ingestion source over a directory of PDF files: its identifier, the
    two diffs against the stored documents of the source, and the mapping of
    a document's paragraphs to chunk records.

    The directory listing is an input: the `*.pdf` files it holds, each with
    its file name and its version string (the last write time, in UTC, as an
    ISO-8601 round-trip string). Text extraction and paragraph splitting are
    an input too: `paragraphs` maps a file name to the paragraphs of that
    file in page order, or to None when the file cannot be opened.

    Keys come from a generator `guid` of version-7 GUIDs: the i-th key drawn
    is `guid(i)`, and callers thread the number of keys drawn so far. */
module DirectorySource {
  import opened Common
  import opened IngestionRecords

  datatype SourceFile = SourceFile(fileName: string, version: string)

  /** One paragraph of extracted text and the page it comes from. */
  datatype Paragraph = Paragraph(pageNumber: int, text: string)

  datatype PdfDirectorySource = PdfDirectorySource(
    directory: string,
    files: seq<SourceFile>,
    paragraphs: string -> Option<seq<Paragraph>>)

  /** The exceptions the source raises. */
  datatype IngestionError =
    | DuplicateDocumentId(documentId: string)  // ToDictionary: an id occurs twice
    | SourceUnavailable(documentId: string)    // the PDF file cannot be opened

  /** How a new or modified document gets its store key. `FreshKey` is what
      the source does; `ReuseStoredKey` is the correction (see the findings). */
  datatype KeyPolicy = FreshKey | ReuseStoredKey

  const SourceIdPrefix := "PDFDirectorySource:"

  function SourceId(src: PdfDirectorySource): string
  {
    SourceIdPrefix + src.directory
  }

  /** Two sources share an identifier exactly when they read the same
      directory, so the stored documents of one source are never loaded
      for a source over another directory. */
  lemma {:induction false} SourceIdIdentifiesDirectory(a: PdfDirectorySource, b: PdfDirectorySource)
    ensures SourceId(a) == SourceId(b) <==> a.directory == b.directory
  {
    if SourceId(a) == SourceId(b) {
      assert a.directory == SourceId(a)[|SourceIdPrefix|..];
      assert b.directory == SourceId(b)[|SourceIdPrefix|..];
    }
  }

  // ---------------------------------------------------------------------
  // Existing documents indexed by document id (ToDictionary)

  ghost predicate DistinctIds(docs: seq<IngestedDocument>)
  {
    forall i, j :: 0 <= i < j < |docs| ==> docs[i].documentId != docs[j].documentId
  }

  /** `ToDictionary(d => d.DocumentId)`: adds the documents in order and
      throws on the first id that is already present. */
  function IndexById(docs: seq<IngestedDocument>): Result<map<string, IngestedDocument>, IngestionError>
    decreases |docs|
  {
    if docs == [] then Success(map[])
    else
      var last := docs[|docs| - 1];
      match IndexById(docs[..|docs| - 1])
      case Failure(e) => Failure(e)
      case Success(m) =>
        if last.documentId in m then Failure(DuplicateDocumentId(last.documentId))
        else Success(m[last.documentId := last])
  }

  /** A successful index maps every id to the document carrying it and
      holds no other id. */
  lemma {:induction false} IndexByIdContents(docs: seq<IngestedDocument>)
    ensures IndexById(docs).Success? ==>
      var m := IndexById(docs).value;
      && (forall i :: 0 <= i < |docs| ==> docs[i].documentId in m && m[docs[i].documentId] == docs[i])
      && (forall id :: id in m ==> exists i :: 0 <= i < |docs| && docs[i].documentId == id)
    decreases |docs|
  {
    if docs != [] && IndexById(docs).Success? {
      var init := docs[..|docs| - 1];
      var last := docs[|docs| - 1];
      IndexByIdContents(init);
      var m := IndexById(init).value;
      var m' := m[last.documentId := last];
      assert IndexById(docs).value == m';
      forall i | 0 <= i < |docs|
        ensures docs[i].documentId in m' && m'[docs[i].documentId] == docs[i]
      {
        if i < |init| {
          assert docs[i] == init[i];
        }
      }
      forall id | id in m'
        ensures exists i :: 0 <= i < |docs| && docs[i].documentId == id
      {
        if id != last.documentId {
          var i :| 0 <= i < |init| && init[i].documentId == id;
          assert docs[i] == init[i];
        } else {
          assert docs[|docs| - 1].documentId == id;
        }
      }
    }
  }

  /** `ToDictionary` throws exactly when some document id occurs twice, and
      what it throws is the duplicate-key error. */
  lemma {:induction false} IndexByIdFailsIffDuplicate(docs: seq<IngestedDocument>)
    ensures IndexById(docs).Success? <==> DistinctIds(docs)
    ensures IndexById(docs).Failure? ==> IndexById(docs).error.DuplicateDocumentId?
    decreases |docs|
  {
    if docs != [] {
      var init := docs[..|docs| - 1];
      var last := docs[|docs| - 1];
      IndexByIdFailsIffDuplicate(init);
      IndexByIdContents(init);
      if IndexById(init).Failure? {
        var i, j :| 0 <= i < j < |init| && init[i].documentId == init[j].documentId;
        assert docs[i].documentId == docs[j].documentId;
      } else if last.documentId in IndexById(init).value {
        var i :| 0 <= i < |init| && init[i].documentId == last.documentId;
        assert docs[i].documentId == docs[|docs| - 1].documentId;
      } else {
        forall i, j | 0 <= i < j < |docs|
          ensures docs[i].documentId != docs[j].documentId
        {
          if j < |init| {
            assert docs[i] == init[i] && docs[j] == init[j];
          } else {
            assert docs[i] == init[i];
          }
        }
      }
    }
  }

  // ---------------------------------------------------------------------
  // GetNewOrModifiedDocumentsAsync

  /** The stored version for a file name; None stands for the source's null,
      which differs from every version string. */
  function StoredVersion(byId: map<string, IngestedDocument>, fileName: string): Option<string>
  {
    if fileName in byId then Some(byId[fileName].documentVersion) else None
  }

  predicate IsChanged(byId: map<string, IngestedDocument>, f: SourceFile)
  {
    StoredVersion(byId, f.fileName) != Some(f.version)
  }

  function NewDocument(src: PdfDirectorySource, byId: map<string, IngestedDocument>, f: SourceFile,
                       freshKey: string, policy: KeyPolicy): IngestedDocument
  {
    var key := if policy == ReuseStoredKey && f.fileName in byId then byId[f.fileName].key else freshKey;
    IngestedDocument(key, SourceId(src), f.fileName, f.version)
  }

  /** The documents the loop adds for the files `files` (a prefix of the
      listing); the j-th document added draws key `guid(next + j)`. */
  function NewOrModifiedFrom(src: PdfDirectorySource, byId: map<string, IngestedDocument>,
                             files: seq<SourceFile>, guid: nat -> string, next: nat,
                             policy: KeyPolicy): seq<IngestedDocument>
    decreases |files|
  {
    if files == [] then []
    else
      var prev := NewOrModifiedFrom(src, byId, files[..|files| - 1], guid, next, policy);
      var f := files[|files| - 1];
      if IsChanged(byId, f) then prev + [NewDocument(src, byId, f, guid(next + |prev|), policy)]
      else prev
  }

  function NewOrModified(src: PdfDirectorySource, existing: seq<IngestedDocument>,
                         guid: nat -> string, next: nat, policy: KeyPolicy): Result<seq<IngestedDocument>, IngestionError>
  {
    match IndexById(existing)
    case Failure(e) => Failure(e)
    case Success(byId) => Success(NewOrModifiedFrom(src, byId, src.files, guid, next, policy))
  }

  /** The listing entry a returned document stands for. */
  function FileOf(d: IngestedDocument): SourceFile
  {
    SourceFile(d.documentId, d.documentVersion)
  }

  function FilesOf(docs: seq<IngestedDocument>): (r: seq<SourceFile>)
    ensures |r| == |docs| && forall j :: 0 <= j < |docs| ==> r[j] == FileOf(docs[j])
  {
    seq(|docs|, j requires 0 <= j < |docs| => FileOf(docs[j]))
  }

  lemma {:induction false} FilesOfAppend(docs: seq<IngestedDocument>, d: IngestedDocument)
    ensures FilesOf(docs + [d]) == FilesOf(docs) + [FileOf(d)]
  {
  }

  /** One more listed file: a document for it is appended if it changed. */
  lemma {:induction false} NewOrModifiedSnoc(src: PdfDirectorySource, byId: map<string, IngestedDocument>,
                          files: seq<SourceFile>, f: SourceFile, guid: nat -> string, next: nat, policy: KeyPolicy)
    ensures var prev := NewOrModifiedFrom(src, byId, files, guid, next, policy);
      NewOrModifiedFrom(src, byId, files + [f], guid, next, policy)
        == if IsChanged(byId, f) then prev + [NewDocument(src, byId, f, guid(next + |prev|), policy)] else prev
  {
    assert (files + [f])[..|files|] == files;
  }

  /** Each document of `r` belongs to this source, stands for a listed file
      whose version differs from the stored one (a file with no stored record
      counts as differing) and carries the key its policy gives it: under
      the source's policy always the key drawn for it. */
  ghost predicate FromChangedFiles(src: PdfDirectorySource, byId: map<string, IngestedDocument>,
                                   files: seq<SourceFile>, guid: nat -> string, next: nat,
                                   policy: KeyPolicy, r: seq<IngestedDocument>)
  {
    forall j :: 0 <= j < |r| ==>
      && r[j].sourceId == SourceId(src)
      && FileOf(r[j]) in files
      && IsChanged(byId, FileOf(r[j]))
      && r[j].key == (if policy == ReuseStoredKey && r[j].documentId in byId
                      then byId[r[j].documentId].key else guid(next + j))
  }

  lemma {:induction false} NewOrModifiedDocuments(src: PdfDirectorySource, byId: map<string, IngestedDocument>,
                                                  files: seq<SourceFile>, guid: nat -> string, next: nat,
                                                  policy: KeyPolicy)
    ensures FromChangedFiles(src, byId, files, guid, next, policy, NewOrModifiedFrom(src, byId, files, guid, next, policy))
    decreases |files|
  {
    if files != [] {
      var init := files[..|files| - 1];
      var f := files[|files| - 1];
      NewOrModifiedDocuments(src, byId, init, guid, next, policy);
      var prev := NewOrModifiedFrom(src, byId, init, guid, next, policy);
      var r := NewOrModifiedFrom(src, byId, files, guid, next, policy);
      assert forall x :: x in init ==> x in files;
      if IsChanged(byId, f) {
        var d := NewDocument(src, byId, f, guid(next + |prev|), policy);
        assert r == prev + [d];
        assert FileOf(d) == f;
      }
    }
  }

  /** The returned documents follow the listing order. */
  lemma {:induction false} NewOrModifiedFollowsListing(src: PdfDirectorySource, byId: map<string, IngestedDocument>,
                                                       files: seq<SourceFile>, guid: nat -> string, next: nat,
                                                       policy: KeyPolicy)
    ensures IsSubsequence(FilesOf(NewOrModifiedFrom(src, byId, files, guid, next, policy)), files)
    decreases |files|
  {
    if files == [] {
      assert FilesOf([]) == [];
    } else {
      var init := files[..|files| - 1];
      var f := files[|files| - 1];
      var prev := NewOrModifiedFrom(src, byId, init, guid, next, policy);
      NewOrModifiedFollowsListing(src, byId, init, guid, next, policy);
      assert files == init + [f];
      NewOrModifiedSnoc(src, byId, init, f, guid, next, policy);
      if IsChanged(byId, f) {
        var d := NewDocument(src, byId, f, guid(next + |prev|), policy);
        FilesOfAppend(prev, d);
        SubsequenceExtendBoth(FilesOf(prev), init, f);
      } else {
        SubsequenceExtend(FilesOf(prev), init, f);
      }
    }
  }

  /** Every listed file whose version differs from the stored one is
      among the returned documents. */
  lemma {:induction false} NewOrModifiedComplete(src: PdfDirectorySource, byId: map<string, IngestedDocument>,
                                                 files: seq<SourceFile>, guid: nat -> string, next: nat,
                                                 policy: KeyPolicy)
    ensures var r := NewOrModifiedFrom(src, byId, files, guid, next, policy);
      forall i :: 0 <= i < |files| && IsChanged(byId, files[i]) ==> files[i] in FilesOf(r)
    decreases |files|
  {
    if files != [] {
      var init := files[..|files| - 1];
      var f := files[|files| - 1];
      var prev := NewOrModifiedFrom(src, byId, init, guid, next, policy);
      var r := NewOrModifiedFrom(src, byId, files, guid, next, policy);
      NewOrModifiedComplete(src, byId, init, guid, next, policy);
      assert forall j :: 0 <= j < |prev| ==> r[j] == prev[j];
      forall i | 0 <= i < |files| && IsChanged(byId, files[i])
        ensures files[i] in FilesOf(r)
      {
        if i < |init| {
          assert files[i] == init[i];
          var j :| 0 <= j < |prev| && FilesOf(prev)[j] == files[i];
          assert FilesOf(r)[j] == files[i];
        } else {
          assert FilesOf(r)[|prev|] == f;
        }
      }
    }
  }

  /** A file whose stored version equals its listed version yields nothing
      (provided the listing names it once, as a directory does). */
  lemma {:induction false} UnchangedFileYieldsNothing(src: PdfDirectorySource, byId: map<string, IngestedDocument>,
                                                      files: seq<SourceFile>, guid: nat -> string, next: nat,
                                                      policy: KeyPolicy, f: SourceFile)
    requires f in files && !IsChanged(byId, f)
    requires forall g :: g in files && g.fileName == f.fileName ==> g == f
    ensures forall d :: d in NewOrModifiedFrom(src, byId, files, guid, next, policy) ==> d.documentId != f.fileName
  {
    NewOrModifiedDocuments(src, byId, files, guid, next, policy);
  }

  /** `GetNewOrModifiedDocumentsAsync`: index the existing documents by id,
      then walk the listing and add a document for every file whose version
      differs from the stored one, drawing one key per added document. With
      `FreshKey` this is the source as written; `ReuseStoredKey` is the
      corrected key choice. Returns the generator's count after the keys it
      drew. */
  method GetNewOrModifiedDocuments(src: PdfDirectorySource, existing: seq<IngestedDocument>,
                                   guid: nat -> string, next: nat, policy: KeyPolicy)
    returns (r: Result<seq<IngestedDocument>, IngestionError>, issued: nat)
    ensures r == NewOrModified(src, existing, guid, next, policy)
    ensures issued == if r.Success? then next + |r.value| else next
  {
    var index := IndexById(existing);
    if index.Failure? {
      return Failure(index.error), next;
    }
    var byId := index.value;
    var results: seq<IngestedDocument> := [];
    issued := next;
    ghost var done: seq<SourceFile> := [];
    var i := 0;
    while i < |src.files|
      invariant 0 <= i <= |src.files|
      invariant done == src.files[..i]
      invariant results == NewOrModifiedFrom(src, byId, done, guid, next, policy)
      invariant issued == next + |results|
    {
      var f := src.files[i];
      var existingVersion := StoredVersion(byId, f.fileName);
      NewOrModifiedSnoc(src, byId, done, f, guid, next, policy);
      if existingVersion != Some(f.version) {
        results := results + [NewDocument(src, byId, f, guid(issued), policy)];
        issued := issued + 1;
      }
      done := done + [f];
      i := i + 1;
    }
    assert done == src.files;
    r := Success(results);
  }

  // ---------------------------------------------------------------------
  // GetDeletedDocumentsAsync

  predicate IsListed(files: seq<SourceFile>, documentId: string)
  {
    exists f :: f in files && f.fileName == documentId
  }

  /** `existingDocuments.Where(d => !currentFileIds.Contains(d.DocumentId))`. */
  function Deleted(src: PdfDirectorySource, existing: seq<IngestedDocument>): (r: seq<IngestedDocument>)
    ensures IsSubsequence(r, existing)
    ensures forall i :: 0 <= i < |r| ==> !IsListed(src.files, r[i].documentId)
    ensures forall i :: 0 <= i < |existing| && !IsListed(src.files, existing[i].documentId) ==> existing[i] in r
    decreases |existing|
  {
    if existing == [] then []
    else if !IsListed(src.files, existing[0].documentId) then [existing[0]] + Deleted(src, existing[1..])
    else Deleted(src, existing[1..])
  }

  /** The new/modified diff throws exactly when two existing documents
      share a document id, whatever the listing holds. */
  lemma {:induction false} NewOrModifiedFailsIffDuplicate(src: PdfDirectorySource, existing: seq<IngestedDocument>,
                                                          guid: nat -> string, next: nat, policy: KeyPolicy)
    ensures NewOrModified(src, existing, guid, next, policy).Failure? <==> !DistinctIds(existing)
    ensures NewOrModified(src, existing, guid, next, policy).Failure? ==>
              NewOrModified(src, existing, guid, next, policy).error.DuplicateDocumentId?
  {
    IndexByIdFailsIffDuplicate(existing);
  }

  /** For one listing, no document is both reported deleted and reported
      new or modified. */
  lemma {:induction false} DeletedAndNewOrModifiedDisjoint(src: PdfDirectorySource, existing: seq<IngestedDocument>,
                                                           guid: nat -> string, next: nat, policy: KeyPolicy)
    requires NewOrModified(src, existing, guid, next, policy).Success?
    ensures forall d, m :: d in Deleted(src, existing) && m in NewOrModified(src, existing, guid, next, policy).value
              ==> d.documentId != m.documentId
  {
    var byId := IndexById(existing).value;
    var ms := NewOrModified(src, existing, guid, next, policy).value;
    NewOrModifiedDocuments(src, byId, src.files, guid, next, policy);
    forall d, m | d in Deleted(src, existing) && m in ms
      ensures d.documentId != m.documentId
    {
      var j :| 0 <= j < |ms| && ms[j] == m;
      assert FileOf(m) in src.files;
      assert IsListed(src.files, m.documentId);
    }
  }

  /** Every returned document's key is either the key drawn for it or the
      key of an existing document. */
  lemma {:induction false} ModifiedKeys(src: PdfDirectorySource, existing: seq<IngestedDocument>,
                     guid: nat -> string, next: nat, policy: KeyPolicy)
    requires NewOrModified(src, existing, guid, next, policy).Success?
    ensures var ms := NewOrModified(src, existing, guid, next, policy).value;
      forall j :: 0 <= j < |ms| ==>
        ms[j].key == guid(next + j) || exists i :: 0 <= i < |existing| && existing[i].key == ms[j].key
  {
    var byId := IndexById(existing).value;
    IndexByIdContents(existing);
    NewOrModifiedDocuments(src, byId, src.files, guid, next, policy);
  }

  /** A listing in which no file changed yields no documents. */
  lemma {:induction false} NoChangeNoDocuments(src: PdfDirectorySource, byId: map<string, IngestedDocument>,
                            files: seq<SourceFile>, guid: nat -> string, next: nat, policy: KeyPolicy)
    requires forall f :: f in files ==> !IsChanged(byId, f)
    ensures NewOrModifiedFrom(src, byId, files, guid, next, policy) == []
    decreases |files|
  {
    if files != [] {
      var init := files[..|files| - 1];
      assert forall f :: f in init ==> f in files;
      NoChangeNoDocuments(src, byId, init, guid, next, policy);
      assert files[|files| - 1] in files;
    }
  }

  /** When every existing document is listed, none is reported deleted. */
  lemma {:induction false} AllListedNoneDeleted(src: PdfDirectorySource, existing: seq<IngestedDocument>)
    requires forall i :: 0 <= i < |existing| ==> IsListed(src.files, existing[i].documentId)
    ensures Deleted(src, existing) == []
    decreases |existing|
  {
    if existing != [] {
      assert forall i :: 0 <= i < |existing[1..]| ==> existing[1..][i] == existing[i + 1];
      AllListedNoneDeleted(src, existing[1..]);
    }
  }

  /** No file name occurs twice in the listing (true of a directory). */
  ghost predicate DistinctNames(files: seq<SourceFile>)
  {
    forall i, j :: 0 <= i < j < |files| ==> files[i].fileName != files[j].fileName
  }

  /** A listing without repeated names yields documents with distinct ids. */
  lemma {:induction false} NewOrModifiedDistinctIds(src: PdfDirectorySource, byId: map<string, IngestedDocument>,
                                                    files: seq<SourceFile>, guid: nat -> string, next: nat,
                                                    policy: KeyPolicy)
    requires DistinctNames(files)
    ensures DistinctIds(NewOrModifiedFrom(src, byId, files, guid, next, policy))
    decreases |files|
  {
    if files != [] {
      var init := files[..|files| - 1];
      var f := files[|files| - 1];
      NewOrModifiedDistinctIds(src, byId, init, guid, next, policy);
      NewOrModifiedDocuments(src, byId, init, guid, next, policy);
      var prev := NewOrModifiedFrom(src, byId, init, guid, next, policy);
      forall j | 0 <= j < |prev|
        ensures prev[j].documentId != f.fileName
      {
        var g := FileOf(prev[j]);
        var k :| 0 <= k < |init| && init[k] == g;
        assert files[k] == g;
      }
    }
  }

  // ---------------------------------------------------------------------
  // CreateChunksForDocumentAsync

  /** One chunk per paragraph, in paragraph order, keyed by the next keys
      of the generator; fails when the document's file cannot be opened. */
  function CreateChunks(src: PdfDirectorySource, doc: IngestedDocument, guid: nat -> string, next: nat)
    : (r: Result<seq<IngestedChunk>, IngestionError>)
    ensures r.Failure? <==> src.paragraphs(doc.documentId).None?
    ensures r.Failure? ==> r.error == SourceUnavailable(doc.documentId)
    ensures r.Success? ==>
      var ps := src.paragraphs(doc.documentId).value;
      && |r.value| == |ps|
      && forall i :: 0 <= i < |ps| ==>
           && r.value[i].documentId == doc.documentId
           && r.value[i].pageNumber == ps[i].pageNumber
           && r.value[i].text == ps[i].text
           && r.value[i].key == guid(next + i)
  {
    match src.paragraphs(doc.documentId)
    case None => Failure(SourceUnavailable(doc.documentId))
    case Some(ps) =>
      Success(seq(|ps|, i requires 0 <= i < |ps| =>
        IngestedChunk(guid(next + i), doc.documentId, ps[i].pageNumber, ps[i].text)))
  }
}
