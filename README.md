# AI.Session core, modelled in Dafny

This project models four parts of the AI.Session sample solution.

- **Document ingestion (AI.Session.RAG).** `DataIngestor.IngestDataAsync` reconciles a vector store with a directory of PDF files. It works in these steps:
  - It makes sure the chunk and document collections exist.
  - It loads the stored document records of the source.
  - It removes the records and chunks of files that are no longer listed.
  - It upserts a new record and fresh chunks for every new or modified file.

  `PDFDirectorySource` decides which files are new, modified or deleted, and it cuts a file into chunks.
- **The MCP chat loop (AI.Session.TextApp, `ChatMcpService`).** It reads prompts until a blank line. Each prompt is one turn:
  - It streams an answer.
  - If the answer announces function calls, it records an assistant message holding the text and the calls.
  - It calls each MCP tool in turn and records one tool message per call.
  - It streams a final answer.
  - An exception anywhere in the turn ends only that turn.
- **The platform factory (AI.Session.TextApp, `PlatformFactory`).** It selects the single active configured platform and builds a chat client or an embedding generator for it, or raises the factory's exception.
- **The order tools of the MCP server (AI.Session.Mcp, `OrderService` and `OrderTools`).**

## How the model is built

**Store state.** The two vector-store collections are maps from record key to record. They are fields of the class `DataIngestion.DataIngestor`, whose methods update them in place. Each method is proved equal to a specification function over an `IngestionState` value. For example, `IngestData` follows `Reconcile`. The properties of a pass are lemmas over those functions, in `IngestionProofs`.

**The store call log.** The class keeps a log of the mutating store calls: the two ensure-collection calls, document deletions, chunk deletions, document upserts and chunk upserts. With the log, the order of the calls can be stated.

**Inputs the model does not compute.** These become parameters:
- **Record keys.** `Guid.CreateVersion7` is an injective generator `guid: nat -> string` plus a counter of keys issued so far. Keys not yet issued are unused in both stores, and the class keeps that as part of its invariant.
- **Store order.** The order in which the store enumerates the loaded records is chosen by the method and returned with the outcome.
- **The directory listing.** It is a sequence of files, each with a name and a version; the version stands for the last-write timestamp.
- **The PDF chunker.** It is a function from a file name to its paragraphs, or to nothing when the file cannot be opened.

**The chat loop.** The chat session is a class whose fields are the chat history, the requests sent to the chat client, the tool invocations made and the number of turns that ended in an exception. The chat client and the MCP client are an `Environment` value per turn:
- the first stream;
- the tool server as a function of tool name and arguments;
- the second stream.

Each stream has a flag saying whether it completes or throws.

**Factory and order tools.** These are pure functions.

**Where the code disagrees with its documentation or with itself, the model follows the code:**
- `GetChatClient` is documented as throwing `NotImplementedException` for every platform. The code builds clients for Ollama and GitHub.
- The ingestion code is inconsistent with itself. `GetNewOrModifiedDocumentsAsync` gives every changed file a record with a fresh key (PDFDirectorySource.cs:57), even when the file already has a stored record. The same method indexes the stored records with `ToDictionary` (PDFDirectorySource.cs:48), which throws when two records share a document id. The model keeps both behaviours, and "## Findings" shows where they collide.

## Model

| member | source | states |
|---|---|---|
| DirectorySource.SourceIdIdentifiesDirectory | AI.Session.RAG/Services/Ingestion/PDFDirectorySource.cs:26 | Two sources have the same source id exactly when they read the same directory. |
| DirectorySource.IndexByIdContents | AI.Session.RAG/Services/Ingestion/PDFDirectorySource.cs:48 | When indexing the stored records by document id succeeds, every record is found under its own id and every id in the index comes from a record. |
| DirectorySource.IndexByIdFailsIffDuplicate | AI.Session.RAG/Services/Ingestion/PDFDirectorySource.cs:48 | Indexing by document id fails exactly when two stored records share a document id, and the failure is the duplicate-key error. |
| DirectorySource.GetNewOrModifiedDocuments | AI.Session.RAG/Services/Ingestion/PDFDirectorySource.cs:44-62 | The loop over the listed files returns the new/modified diff and reports how many fresh keys it used, which is one per returned record. |
| DirectorySource.NewOrModifiedDocuments | AI.Session.RAG/Services/Ingestion/PDFDirectorySource.cs:50-58 | Every returned record comes from a listed file whose version differs from the stored one, or that has no stored record. It carries the source id, the file name and the file's version, and its key is the next fresh key in order (FreshKey) or the stored key (ReuseStoredKey). |
| DirectorySource.NewOrModifiedFollowsListing | AI.Session.RAG/Services/Ingestion/PDFDirectorySource.cs:50-58 | The returned records follow the directory listing's order, at most one per listed file. |
| DirectorySource.NewOrModifiedComplete | AI.Session.RAG/Services/Ingestion/PDFDirectorySource.cs:54-57 | Every listed file whose version differs from the stored version, or that has no stored record, yields a record. |
| DirectorySource.UnchangedFileYieldsNothing | AI.Session.RAG/Services/Ingestion/PDFDirectorySource.cs:54-55 | A listed file whose stored version equals its current version yields no record. |
| DirectorySource.NoChangeNoDocuments | AI.Session.RAG/Services/Ingestion/PDFDirectorySource.cs:50-59 | When no listed file has changed, the diff is empty. |
| DirectorySource.NewOrModifiedFailsIffDuplicate | AI.Session.RAG/Services/Ingestion/PDFDirectorySource.cs:48 | The new/modified diff throws exactly when the stored records of the source repeat a document id. |
| DirectorySource.Deleted | AI.Session.RAG/Services/Ingestion/PDFDirectorySource.cs:65-71 | The deleted records are a subsequence of the stored records: exactly those whose document id names no listed file. |
| DirectorySource.AllListedNoneDeleted | AI.Session.RAG/Services/Ingestion/PDFDirectorySource.cs:69 | When every stored record names a listed file, nothing is deleted. |
| DirectorySource.DeletedAndNewOrModifiedDisjoint | AI.Session.RAG/Services/Ingestion/PDFDirectorySource.cs:44-71 | No document id is both deleted and new-or-modified in the same pass. |
| DirectorySource.ModifiedKeys | AI.Session.RAG/Services/Ingestion/PDFDirectorySource.cs:57 | Each returned record's key is either the next fresh key or a key of a stored record. |
| DirectorySource.NewOrModifiedDistinctIds | AI.Session.RAG/Services/Ingestion/PDFDirectorySource.cs:50-58 | When the listing names each file once, the returned records have distinct document ids. |
| DirectorySource.CreateChunks | AI.Session.RAG/Services/Ingestion/PDFDirectorySource.cs:74-86 | Chunking fails exactly when the PDF cannot be opened. Otherwise there is one chunk per paragraph, in order, carrying the document id, the paragraph's page number and text, and a fresh key. |
| DataIngestion.DataIngestor.QueryDocumentsForSource | AI.Session.RAG/Services/Ingestion/DataIngestor.cs:45-46 | The loaded records are exactly the stored records of the source, each once, in some enumeration order. |
| DataIngestion.DataIngestor.DeleteChunksForDocument | AI.Session.RAG/Services/Ingestion/DataIngestor.cs:70-78 | The store becomes the one where all chunks of the document id are deleted. The store is called only when there is at least one such chunk. |
| DataIngestion.DataIngestor.RemoveDocuments | AI.Session.RAG/Services/Ingestion/DataIngestor.cs:49-54 | The deletion loop's new state is that of removing each deleted record's chunks and then the record, in order, and the class invariant is kept. |
| DataIngestion.DataIngestor.IngestDocument | AI.Session.RAG/Services/Ingestion/DataIngestor.cs:59-65 | One upsert step: delete the document's chunks, upsert the record, chunk the file and upsert the chunks, or stop with the chunker's error; the invariant is kept. |
| DataIngestion.DataIngestor.IngestDocuments | AI.Session.RAG/Services/Ingestion/DataIngestor.cs:57-66 | The upsert loop's state and error are those of the steps in order, stopping at the first error. |
| DataIngestion.DataIngestor.UpsertNewOrModified | AI.Session.RAG/Services/Ingestion/DataIngestor.cs:56-66 | Computes the diff and runs the upsert loop, or fails with the diff's error, leaving the state of the deletion phase. |
| DataIngestion.DataIngestor.IngestData | AI.Session.RAG/Services/Ingestion/DataIngestor.cs:40-79 | A whole pass: the loaded records are those of the source, and the new stores, call log and outcome are those of Reconcile on the old state. The class invariant (well-keyed records, unused fresh keys) is kept. |
| DataIngestion.ProcessAllStopsAtFailure | AI.Session.RAG/Services/Ingestion/DataIngestor.cs:57-66 | Once one document fails, the later documents are not processed. |
| DataIngestion.ProcessDocumentKeepsFresh | AI.Session.RAG/Services/Ingestion/DataIngestor.cs:60-65 | An upsert step keeps the records well keyed and keeps the unissued keys unused in both stores. |
| DataIngestion.UpsertChunkRecordsKeys | AI.Session.RAG/Services/Ingestion/DataIngestor.cs:65 | Upserting chunks adds exactly their keys to the chunk store. |
| IngestionProofs.DeleteChunksForEffect | AI.Session.RAG/Services/Ingestion/DataIngestor.cs:70-78 | After deleting a document's chunks, none of its chunks remain, every other chunk is kept unchanged, and a delete call is logged only when there was something to delete. |
| IngestionProofs.RemoveAllDocuments | AI.Session.RAG/Services/Ingestion/DataIngestor.cs:49-54 | The deletion loop removes exactly the deleted records' keys from the document store and changes no other record. |
| IngestionProofs.RemoveAllChunks | AI.Session.RAG/Services/Ingestion/DataIngestor.cs:49-54 | The deletion loop removes exactly the chunks whose document id is a deleted record's id and keeps every other chunk unchanged. |
| IngestionProofs.ProcessDocumentEffect | AI.Session.RAG/Services/Ingestion/DataIngestor.cs:59-65 | An upsert step stores the record under its key. It fails exactly when the PDF cannot be opened, and it uses one fresh key per chunk. It logs only upserts and non-empty chunk deletions. |
| IngestionProofs.ProcessDocumentReplacesChunks | AI.Session.RAG/Services/Ingestion/DataIngestor.cs:60-65 | After a successful step, the chunks of the document id are exactly the newly created chunks. |
| IngestionProofs.ProcessDocumentKeepsOtherChunks | AI.Session.RAG/Services/Ingestion/DataIngestor.cs:60-65 | An upsert step leaves the chunks of every other document id unchanged. |
| IngestionProofs.ProcessAllDocuments | AI.Session.RAG/Services/Ingestion/DataIngestor.cs:57-66 | The upsert loop changes document records only under the keys of the modified records. |
| IngestionProofs.ProcessAllErrors | AI.Session.RAG/Services/Ingestion/DataIngestor.cs:64 | The only error the upsert loop can raise is an unreadable source file. |
| IngestionProofs.ProcessAllUpserted | AI.Session.RAG/Services/Ingestion/DataIngestor.cs:62 | When the loop completes, every modified record is stored under its key. |
| IngestionProofs.ProcessAllKeepsFresh | AI.Session.RAG/Services/Ingestion/DataIngestor.cs:57-66 | The upsert loop keeps the records well keyed and the unissued keys unused. |
| IngestionProofs.ProcessAllKeepsOtherChunks | AI.Session.RAG/Services/Ingestion/DataIngestor.cs:57-66 | The upsert loop leaves the chunks of document ids it does not process unchanged. |
| IngestionProofs.ClearedDocuments | AI.Session.RAG/Services/Ingestion/DataIngestor.cs:48-54 | After the deletion phase, every record of another source and every record of a listed file is still stored unchanged, and no record was added. |
| IngestionProofs.DeletionsComeFirst | AI.Session.RAG/Services/Ingestion/DataIngestor.cs:42-66 | A pass first ensures both collections exist and then deletes every document before upserting any. It never issues an empty chunk deletion. |
| IngestionProofs.PassState | AI.Session.RAG/Services/Ingestion/DataIngestor.cs:48-66 | The state after a pass is the deletion phase's state when the diff throws, and otherwise the upsert loop's state on the diff. |
| IngestionProofs.PassOutcome | AI.Session.RAG/Services/Ingestion/DataIngestor.cs:56-66 | A pass fails with the diff's error or the loop's first error, and otherwise completes. |
| IngestionProofs.DeletedDocumentsAreGone | AI.Session.RAG/Services/Ingestion/DataIngestor.cs:48-54 | After a pass, no record and no chunk of a deleted file remains. |
| IngestionProofs.OtherSourcesUntouched | AI.Session.RAG/Services/Ingestion/DataIngestor.cs:45-66 | Records of other sources survive a pass unchanged. |
| IngestionProofs.OtherSourceLosesChunks | AI.Session.RAG/Services/Ingestion/DataIngestor.cs:72-76 | Chunks are selected by document id alone, so a deletion also removes the chunks of another source's record with the same file name, while that record survives. |
| IngestionProofs.UnchangedSourceChangesNothing | AI.Session.RAG/Services/Ingestion/DataIngestor.cs:40-79 | When the stored records match the listing exactly, a pass only ensures the collections and completes. |
| IngestionProofs.ListedRecordSurvives | AI.Session.RAG/Services/Ingestion/DataIngestor.cs:48-66 | A stored record whose file is still listed is never deleted by a pass, even when the file was modified. |
| IngestionProofs.NewVersionStored | AI.Session.RAG/Services/Ingestion/DataIngestor.cs:62 | After a completed pass, a modified file has a record with its new version under a key different from the old record's. |
| IngestionProofs.ModifiedDocumentKeepsOldRecord | AI.Session.RAG/Services/Ingestion/PDFDirectorySource.cs:57 | After a completed pass, a modified file has both its old record and a new record, so the source has two records with the same document id. |
| IngestionProofs.DuplicateFailsNextPass | AI.Session.RAG/Services/Ingestion/PDFDirectorySource.cs:48 | When a source has two records with the same document id, every pass fails with the duplicate-key error after its deletion phase. |
| IngestionProofs.DuplicateThenThrow | AI.Session.RAG/Services/Ingestion/PDFDirectorySource.cs:48-57 | A pass that completes after a file was modified is followed by a pass over the same directory that fails with the duplicate-key error. |
| IngestionProofs.ReuseStoredKeyKeepsOnePerDocumentId | AI.Session.RAG/Services/Ingestion/PDFDirectorySource.cs:57 | With the stored key reused for a modified file, a pass keeps at most one record per document id, and its only possible error is an unreadable file. |
| IngestionProofs.ReuseStoredKeysDistinct | AI.Session.RAG/Services/Ingestion/PDFDirectorySource.cs:57 | With the stored key reused, the records handed to the upsert loop still carry distinct keys. |
| IngestionProofs.ReuseStoredKeyStoresNewVersion | AI.Session.RAG/Services/Ingestion/DataIngestor.cs:62 | With the stored key reused, after a completed pass a modified file's stored key holds its new version. |
| IngestionProofs.ReuseStoredKeyReplacesRecord | AI.Session.RAG/Services/Ingestion/DataIngestor.cs:56-66 | With the stored key reused, a completed pass replaces a modified file's record. The new version sits under the stored key, and no other record of the source carries the file's name. |
| IngestionProofs.CompletedPassStartsUnique | AI.Session.RAG/Services/Ingestion/PDFDirectorySource.cs:48 | A pass completes only when the source's stored records had one record per document id. |
| IngestionProofs.ReconcileKeepsReady | AI.Session.RAG/Services/Ingestion/DataIngestor.cs:40-79 | Every pass, however it ends, keeps records under their own keys and unissued keys unused in both stores. |
| IngestionProofs.ReuseStoredKeyNextPassHasNoDuplicate | AI.Session.RAG/Services/Ingestion/PDFDirectorySource.cs:48-57 | With the stored key reused, a completed pass is followed by a pass over the same directory that keeps one record per document id and cannot fail with the duplicate-key error. |
| IngestionProofs.ClearedKeepsListed | AI.Session.RAG/Services/Ingestion/DataIngestor.cs:48-54 | A record of the source that survives the deletion loop is one whose document id is still listed. |
| IngestionProofs.ReuseDiffTouchesChanged | AI.Session.RAG/Services/Ingestion/PDFDirectorySource.cs:50-58 | With the stored key reused, the diff writes a stored record's key when the listing holds that file at another version. |
| IngestionProofs.ReuseDiffKeysKeepIds | AI.Session.RAG/Services/Ingestion/PDFDirectorySource.cs:54-57 | With the stored key reused, a returned record lands on a stored record's key only when it has that record's document id. |
| IngestionProofs.ReuseDiffSparesUnchanged | AI.Session.RAG/Services/Ingestion/PDFDirectorySource.cs:50-58 | With the stored key reused, the diff writes a stored record's key only when the listing holds that file at another version. |
| IngestionProofs.ReuseDiffTouchesChangedOnly | AI.Session.RAG/Services/Ingestion/PDFDirectorySource.cs:50-58 | With the stored key reused, the diff lands on a stored record's key if and only if the listed file's version differs from the record's. |
| IngestionProofs.ReuseStoredKeyKeepsUnchanged | AI.Session.RAG/Services/Ingestion/DataIngestor.cs:48-66 | With the stored key reused, a stored record whose file is listed at the same version is left untouched by a completed pass. |
| IngestionProofs.ReuseStoredKeyStoresChanged | AI.Session.RAG/Services/Ingestion/DataIngestor.cs:56-66 | With the stored key reused, a completed pass stores a record of the source at the listed version for every listed file that had no stored record at that version. |
| IngestionProofs.ReuseStoredKeyRecordsListed | AI.Session.RAG/Services/Ingestion/DataIngestor.cs:48-66 | With the stored key reused, after a completed pass every record of the source stands for a listed file at its listed version. |
| IngestionProofs.ReuseStoredKeyCoversListing | AI.Session.RAG/Services/Ingestion/DataIngestor.cs:56-66 | With the stored key reused, after a completed pass every listed file has a record of the source at its listed version. |
| IngestionProofs.MatchingStoreIsQuiet | AI.Session.RAG/Services/Ingestion/DataIngestor.cs:40-79 | When the source's records match the listing one for one, with one record per document id, a pass under either key policy only ensures the collections and completes. |
| IngestionProofs.ReuseStoredKeySecondPassChangesNothing | AI.Session.RAG/Services/Ingestion/DataIngestor.cs:40-79 | With the stored key reused, a pass that follows a completed pass over the same unchanged directory deletes nothing and upserts nothing. It issues only the two ensure-exists calls and completes. |
| IngestionProofs.NewOrModifiedFromStepAgrees | AI.Session.RAG/Services/Ingestion/PDFDirectorySource.cs:50-58 | One loop step keeps the two key policies' diffs equal when the next file, if changed, has no stored record. |
| IngestionProofs.NewOrModifiedFromPoliciesAgree | AI.Session.RAG/Services/Ingestion/PDFDirectorySource.cs:50-58 | When no listed file has a stored record at another version, the diff returns the same records under both key policies. |
| IngestionProofs.NewOrModifiedPoliciesAgree | AI.Session.RAG/Services/Ingestion/PDFDirectorySource.cs:44-62 | The same as the previous row, for the whole diff, starting from the stored records. |
| IngestionProofs.ReconcilePoliciesAgree | AI.Session.RAG/Services/Ingestion/DataIngestor.cs:40-79 | When no listed file has a stored record at another version, the pass as written and the corrected pass end in the same state and outcome. |
| IngestionProofs.SecondPassChangesNothing | AI.Session.RAG/Services/Ingestion/DataIngestor.cs:40-79 | As written, a first pass in which no listed file has a stored record at another version, once completed, is followed by a pass over the same directory that deletes nothing and upserts nothing. |
| IngestionProofs.ChunkerFailureIsNotRetried | AI.Session.RAG/Services/Ingestion/DataIngestor.cs:60-65 | The record is upserted before chunking. When the PDF cannot be opened, the step fails with the new record stored and no chunks left for its document id. A later diff that reads the record back (PDFDirectorySource.cs:54-55) does not return the document, so its chunks are not rebuilt. |
| ChatMcp.ReadStream | AI.Session.TextApp/Services/ChatMcpService.cs:87-100 | Reading the first stream keeps every update and accumulates exactly the text of the updates' text contents. |
| ChatMcp.CollectCalls | AI.Session.TextApp/Services/ChatMcpService.cs:103-106 | The collected calls are the function-call contents of all updates, in order. |
| ChatMcp.ArgumentsOf | AI.Session.TextApp/Services/ChatMcpService.cs:128-130 | A call's arguments are passed as given, or as an empty dictionary when it has none. |
| ChatMcp.ChatSession.CallTools | AI.Session.TextApp/Services/ChatMcpService.cs:126-138 | The tool loop's new session and success flag are those of ToolLoop on the old session. |
| ChatMcp.ChatSession.HandleLine | AI.Session.TextApp/Services/ChatMcpService.cs:80-172 | One turn's new session is that of Turn on the old session. |
| ChatMcp.ChatSession.Execute | AI.Session.TextApp/Services/ChatMcpService.cs:69-173 | The whole loop's new session is that of Run on the old session. |
| ChatMcp.ToolLoopReturned | AI.Session.TextApp/Services/ChatMcpService.cs:126-138 | While tools return, each call adds exactly one tool message with its result and one invocation, in call order. |
| ChatMcp.ToolLoopStops | AI.Session.TextApp/Services/ChatMcpService.cs:132 | A tool that throws ends the loop: later calls are not made. |
| ChatMcp.ToolLoopInvokes | AI.Session.TextApp/Services/ChatMcpService.cs:132 | The k-th call is made with its name and arguments once every earlier call has returned. |
| ChatMcp.ToolLoopGrows | AI.Session.TextApp/Services/ChatMcpService.cs:126-138 | The tool loop only appends to the history and the invocations, and it sends no request. |
| ChatMcp.UserTurnFirst | AI.Session.TextApp/Services/ChatMcpService.cs:80-87 | Every turn first appends the user message and sends the history with it, and it keeps everything already recorded. |
| ChatMcp.NoCallsTurn | AI.Session.TextApp/Services/ChatMcpService.cs:159-163 | Without function calls, a turn adds the assistant text as one message, and only when the text is non-empty. |
| ChatMcp.CallsTurnAssistant | AI.Session.TextApp/Services/ChatMcpService.cs:108-123 | With function calls, the assistant message holds the text first (when non-empty) and then every call, in order. |
| ChatMcp.ToolTurns | AI.Session.TextApp/Services/ChatMcpService.cs:126-144 | Each call is followed by a tool message carrying its call id and result. The second request sends the history up to the last tool message. |
| ChatMcp.ToolInvocations | AI.Session.TextApp/Services/ChatMcpService.cs:126-132 | A turn makes exactly one tool invocation per announced call, in order. |
| ChatMcp.FinalAnswer | AI.Session.TextApp/Services/ChatMcpService.cs:144-157 | The final answer is appended when it is non-empty and its stream completes. A throwing second stream adds nothing and counts one error. |
| ChatMcp.ToolThrows | AI.Session.TextApp/Services/ChatMcpService.cs:132-137 | A throwing tool ends the turn with one error, after the earlier tool messages and without a second request. |
| ChatMcp.CallWithoutArguments | AI.Session.TextApp/Services/ChatMcpService.cs:128-132 | A call without arguments is invoked with an empty dictionary. |
| ChatMcp.FirstStreamThrows | AI.Session.TextApp/Services/ChatMcpService.cs:82-100 | A throwing first stream leaves only the user message and counts one error. |
| ChatMcp.RunStopsAtBlank | AI.Session.TextApp/Services/ChatMcpService.cs:72-78 | The first blank or whitespace-only line ends the loop: no later line is handled. |
| ChatMcp.RunKeepsHistory | AI.Session.TextApp/Services/ChatMcpService.cs:69-173 | The history only grows, by at least one message per handled line, and so do the requests. |
| ChatMcp.CallsInExactly | AI.Session.TextApp/Services/ChatMcpService.cs:104-105 | The collected calls are exactly the function-call contents. |
| Platforms.ClientFor | AI.Session.TextApp/Factory/PlatformFactory.cs:39-67 | The switch succeeds exactly for Ollama, and for GitHub with a key. The client uses the entry's url and model, is an Ollama client exactly for Ollama, and adds function invocation exactly for a GitHub chat client. OpenAI and Azure are not implemented, other values are out of range, and a missing GitHub key is refused. |
| Platforms.NoActivePlatformIff | AI.Session.TextApp/Factory/PlatformFactory.cs:36-37 | Selection fails with "no active platform" exactly when no entry is active. |
| Platforms.MoreThanOneActiveIff | AI.Session.TextApp/Factory/PlatformFactory.cs:36 | Selection throws on a second active entry exactly when two entries are active. |
| Platforms.SelectsTheActiveEntry | AI.Session.TextApp/Factory/PlatformFactory.cs:36 | When exactly one entry is active, it is the one selected. |
| Platforms.SelectedIsActive | AI.Session.TextApp/Factory/PlatformFactory.cs:36 | Whatever is selected is a configured active entry. |
| Platforms.FactoriesReadTheirOwnEntries | AI.Session.TextApp/Factory/PlatformFactory.cs:36-82 | The chat client depends only on the chat-model entries, and the embedding generator only on the text-model entries. |
| Platforms.FunctionInvocationOnlyForGitHubChat | AI.Session.TextApp/Factory/PlatformFactory.cs:55 | Only a GitHub chat client adds function invocation, and an embedding generator never does. |
| Platforms.ChatClientFromActiveEntry | AI.Session.TextApp/Factory/PlatformFactory.cs:34-68 | With one active chat entry, the chat client or exception is the one its platform calls for. |
| Platforms.EmbeddingGeneratorFromActiveEntry | AI.Session.TextApp/Factory/PlatformFactory.cs:80-109 | With one active text entry, the embedding generator or exception is the one its platform calls for. |
| Orders.NewOrderService | AI.Session.Mcp/Services/OrderService.cs:17-22 | The seeded service holds four orders with ids 1 to 4 and positive user ids. |
| Orders.GetAll | AI.Session.Mcp/Services/OrderService.cs:25-28 | Returns every order, in order. |
| Orders.GetOrdersByUserId | AI.Session.Mcp/Services/OrderService.cs:31-34 | Always returns a list: exactly the orders of the user, in their stored order. |
| Orders.OrdersOfKeepsMultiplicity | AI.Session.Mcp/Services/OrderService.cs:33 | The filter keeps each of the user's orders as many times as it is stored, and no order of another user. |
| Orders.GetOrdersByUserIdKeepsMultiplicity | AI.Session.Mcp/Services/OrderService.cs:31-34 | Each of the user's orders is returned as many times as it is stored, and no other order is returned. |
| Orders.UnknownUserGetsEmptyList | AI.Session.Mcp/Services/OrderService.cs:33 | A user with no orders gets an empty list. |
| Orders.SeededUser1001 | AI.Session.Mcp/Services/OrderService.cs:17-22 | User 1001 has orders 1 and 3 in the seeded service. |
| Orders.SeededGetAll | AI.Session.Mcp/Services/OrderService.cs:17-28 | On the seeded service, every order is listed once in declaration order: orders 1 to 4 of users 1001, 1002, 1001 and 1003. |
| OrderTools.GetAllOrders | AI.Session.Mcp/Tools/OrderTools.cs:29-35 | The response carries all orders, the tool call id "get_all_orders" and the role "tool". |
| OrderTools.GetOrdersByUserId | AI.Session.Mcp/Tools/OrderTools.cs:43-54 | A non-positive user id gets an empty list, and any other id gets the service's answer. |
| OrderTools.GuardAgreesWithSeededService | AI.Session.Mcp/Tools/OrderTools.cs:48-53 | On the seeded service, the guard never changes the answer. |
| OrderTools.GuardHidesNonPositiveOwners | AI.Session.Mcp/Tools/OrderTools.cs:48-51 | An order owned by user 0 is visible through the service but not through the tool. |

## Left out

- PDF text extraction and paragraph splitting (PdfPig, the text chunker) are an input function from file name to paragraphs. A PDF that cannot be opened is its `None`.
- File-system enumeration, `Path.GetFileName` and last-write timestamps are an input listing of names and versions.
- A pass sees a single snapshot of the directory. Both diffs and the chunker read the same listing and the same paragraphs. The source lists the directory twice (PDFDirectorySource.cs:47 and :67, with the deletion loop in between) and opens each file later (:76), so a file that changes during a pass is not modelled.
- `Guid.CreateVersion7` is an injective key generator. Time ordering and the uniqueness of real GUIDs are not modelled.
- Embeddings, vector search (`SemanticSearch`) and the store's own behaviour beyond keyed maps are not modelled. The store's enumeration order is an input.
- Store reads are not written to the call log. Only mutating calls and the ensure-collection calls are.
- The chat client, the MCP client and transport, and console input are inputs to each turn. Console output, colours and logging are not modelled.
- An exception thrown while a stream is being read is the stream's `completes` flag. Text already read from a throwing stream is not kept.
- `async`/`await` is treated as sequential execution, and concurrency is not modelled (the source class is documented as not thread-safe).
- The other chat services, `PublisherFactory`, the `EchoTools` and `RandomNumberTools` tools, the host and dependency-injection setup, and the other DTOs are not part of this model.
- `Uri` parsing failures are not modelled. A null GitHub API key is the only credential error modelled.
- 32-bit `int` width of platform values, page numbers and user ids is not modelled. These are unbounded integers, and no arithmetic is done on them.
- IngestionProofs.DeletedDocumentsAreGone: stated for the source's fresh-key policy only.
- IngestionProofs.OtherSourcesUntouched: stated for the source's fresh-key policy only.
- IngestionProofs.ListedRecordSurvives: stated for the source's fresh-key policy only, which is what makes the old record survive.
- Chat turns are bounded by the given environments: `Run` requires one environment per input line.

## Findings

| source | as written | input that shows it | evidently intended | confidence | as-written member | corrected member |
|---|---|---|---|---|---|---|
| AI.Session.RAG/Services/Ingestion/PDFDirectorySource.cs:57 | A modified file gets a record with a fresh key. The stored record of the same file is neither deleted (its file is still listed) nor overwritten (the key differs). The next pass's `ToDictionary` at line 48 then throws on the repeated document id. | One stored record for `a.pdf` at version v1. The listing has `a.pdf` at version v2. One pass completes, and a second pass over the same directory fails. | One record per document id; a modified file replaces its record, and the next pass does not throw. With the stored key reused, this is proved by IngestionProofs.ReuseStoredKeyKeepsOnePerDocumentId, IngestionProofs.ReuseStoredKeyReplacesRecord and IngestionProofs.ReuseStoredKeyNextPassHasNoDuplicate. A second pass over the unchanged directory then changes nothing (IngestionProofs.ReuseStoredKeySecondPassChangesNothing). | not executed | IngestionProofs.DuplicateThenThrow | IngestionProofs.ReuseStoredKeyKeepsOnePerDocumentId |
