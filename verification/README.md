# Verified model of the document, gateway, session and ingest core

A Dafny model of the Python backend of the agent platform: how documents are split, embedded, stored and
kept in step with their files; how the gateway delivers and queues messages; how conversations are compacted
and evicted; how document mutations are rate limited; and how the local file watcher keeps a search index.
`dafny verify dfyconfig.toml` checks everything.

Code that changes state step by step is modelled by classes and methods with loops, each proved against a
specification function or a step of a state machine. What the system promises is then proved about those
functions and about every run of those state machines.

| file | models |
|---|---|
| `Text.dfy` | Python strings (strip, splitlines, join, find, slices) and facts about sequences |
| `SlackSplit.dfy` | the splitter of long Slack messages |
| `Paths.dfy`, `Chunking.dfy`, `Coverage.dfy`, `Streaming.dfy`, `Embeddings.dfy` | the hierarchical chunker, the streaming chunker of large files, batched embedding with retry |
| `ChunkRows.dfy`, `ChunkInsert.dfy` | rows with parents and siblings; the batched and the one-by-one insert |
| `SyncModel.dfy`, `SyncProofs.dfy`, `SyncTruth.dfy`, `SyncRuns.dfy`, `SyncManager.dfy`, `SyncOutcomes.dfy` | create, update, delete and reindex, with a fault or a cancellation at any step |
| `Gateway.dfy`, `GatewayConnections.dfy` | delivery, queueing, flushing and reconnecting |
| `SessionHistory.dfy`, `SessionCache.dfy`, `RateLimiter.dfy` | compaction, eviction, the sliding window |
| `Ingest.dfy`, `Watcher.dfy` | fixed-size chunks, re-ingest, the watcher's cycles |

How the parts that are not code are modelled:

- The database is a sequence of rows and a map of statuses; the file system is a map from paths to texts and
  times. The embedding service is a function from a text to its vector; its batched call and its single call
  name different task types, so each has a function of its own.
- A fault oracle decides which calls throw. Each document operation is a script of steps. It stops at the
  first step that throws, the steps before it have taken effect, and its exception handler runs; the status
  write of the handler may throw or be cancelled as well. A write that throws may leave any beginning of the
  text. The timeout of a reindex is such a fault. A cancelled call is not: no handler runs, and it stops at an
  await with any number of steps done.
- The gateway's steps are the stretches of code between two awaits, in any interleaving. A message whose send
  is pending is data of the channel. Logs record what was offered, sent, queued, flushed and refused.
- Clocks are parameters. Times are reals.

What the code does not do, although its comments or names suggest it, is stated as a theorem with the exact
condition: see the rows of the table that say "exactly when" or "exactly if". Rows that name a failure show that
it is reached.

## Model

| member | source | states |
|---|---|---|
| SlackSplit.SplitTextForSlack | backend_agent_api/adapters/slack.py:377-420 | The parts are runs of consecutive source lines, in order and none lost, with fences reopened and closed around them and whitespace trimmed at their ends; there is always a part; no part is longer than the larger of the limit and the longest line plus four, plus four; every part has an even number of fence lines exactly when the text was too long for one part or its own fences are even |
| SlackSplit.PackLines | backend_agent_api/adapters/slack.py:386-420 | The line loop computes a chain of segments: their lines concatenate to the input, a block closed at a cut is reopened after it, and a cut is made only in front of a line that would not have fitted |
| SlackSplit.ChainExact | backend_agent_api/adapters/slack.py:386-416 | Segment by segment: opened exactly if the one before was closed, closed exactly if it then holds an odd number of fences, within the limit if it has several lines, and the first line of the next one would not have fitted |
| SlackSplit.PartsExact | backend_agent_api/adapters/slack.py:393-420 | Of each segment its lines with the fences around them are sent, trimmed, unless nothing is left |
| SlackSplit.PartsSound | backend_agent_api/adapters/slack.py:378-420 | Any such chain over the lines of a text gives balanced parts within the limit, and at least one part unless the text is blank |
| SlackSplit.RenderedBalanced | backend_agent_api/adapters/slack.py:399-418 | A rendered segment has an even number of fence lines, whatever lines it contains |
| SlackSplit.FenceLinesScan | backend_agent_api/adapters/slack.py:400 | Counting the lines that start with a fence agrees with an independent character automaton |
| SlackSplit.FenceExact | backend_agent_api/adapters/slack.py:400 | A line is a fence exactly if three backticks follow its leading whitespace |
| Text.SplitLinesExact | backend_agent_api/adapters/slack.py:387 | A text is cut into lines behind every line break and nowhere else, CRLF counting as one |
| Chunking.SplitIntoSections | backend_agent_api/hierarchical_chunking.py:53-82 | The loop computes the sections of the specification |
| Chunking.SplitNewlinesSound | backend_agent_api/hierarchical_chunking.py:68 | The lines are cut at every newline and nowhere else |
| Chunking.HeadingIff | backend_agent_api/hierarchical_chunking.py:63-69 | A heading is a line that begins with one to six hashes and a whitespace character and goes on behind it |
| Chunking.SectionsLossless | backend_agent_api/hierarchical_chunking.py:53-82 | Joining the sections with newlines gives back the content; a heading stands only at the start of a section and every section but the first starts with one |
| Chunking.ParagraphsSound | backend_agent_api/hierarchical_chunking.py:85-96 | Paragraphs are visible, have no blank ends, contain no two newlines with only whitespace between them, and together hold every visible character of the text in order |
| Chunking.SplitGapsExact | backend_agent_api/hierarchical_chunking.py:95 | The text is cut at gaps and nowhere else: between the pieces there are separators that are blank, at least two characters long, and begin and end with a newline, and pieces and separators in alternation are the text |
| Chunking.ParagraphsExact | backend_agent_api/hierarchical_chunking.py:95-96 | The text is its paragraphs with blanks around them, and each blank between two paragraphs holds such a separator; so no other paragraphs are possible |
| Chunking.ChunkWithOverlap | backend_agent_api/hierarchical_chunking.py:99-145 | The loop computes the greedy grouping of the specification |
| Chunking.PackSound | backend_agent_api/hierarchical_chunking.py:99-145 | The items split into consecutive groups that concatenate to the input; chunk j is the join of an overlap, taken from chunk j-1, and group j; a group of several items is within the target, and the first item of the next one would not have fitted; for a positive overlap size the overlap is an end of chunk j-1 of at most that length and the counted size is at most the larger of the target and one overlap plus one item |
| Chunking.OverlapExact | backend_agent_api/hierarchical_chunking.py:126-133 | Of a chunk longer than the overlap size its last characters are repeated, as many as the size says, and of these only what follows their first paragraph boundary unless that is at their beginning; the sizes zero and below are covered |
| Chunking.GroupItemsSound | backend_agent_api/hierarchical_chunking.py:119-145 | The groups partition the items, each starts with the overlap of the one before, keeps to the target unless it holds one item, and ends only where the next item would not have fitted |
| Chunking.OverlapBoundedIff | backend_agent_api/hierarchical_chunking.py:126-134 | The repeated text is within the overlap size for every chunk exactly when that size is at least one |
| Chunking.ChunkDocumentHierarchical | backend_agent_api/hierarchical_chunking.py:173-275 | The loops compute one document chunk, then the section chunks, then the leaf chunks of each section, with their sibling numbers |
| Chunking.HierarchyExact | backend_agent_api/hierarchical_chunking.py:195-275 | Every field of every chunk: the summary cut at 8192 characters, the section texts, and for each of these its leaves of 768 characters with overlaps of 115, with the place among the siblings and the directory as category |
| Chunking.SectionPartsExact | backend_agent_api/hierarchical_chunking.py:213-226 | A section of at most 3072 characters is one chunk; a longer one is packed from its paragraphs with overlaps of 460 |
| Coverage.SummarySound | backend_agent_api/hierarchical_chunking.py:148-170 | The document-level text is the content, or a beginning of it and a notice; it is cut at the allowed length exactly when no paragraph boundary lies in the last fifth of that, and otherwise at the last boundary |
| Coverage.SectionLevelComplete | backend_agent_api/hierarchical_chunking.py:211-227 | The section chunks, without the text they repeat, hold every visible character of the document in order |
| Coverage.LeafLevelComplete | backend_agent_api/hierarchical_chunking.py:250-256 | The leaf chunks of a section chunk, without the text they repeat, hold every visible character of it in order |
| Coverage.NoSectionsIff | backend_agent_api/hierarchical_chunking.py:211-227 | A document has no section chunks, and so no leaves, exactly if it is blank and too long for one chunk |
| Streaming.ChunkBlocks | backend_agent_api/sync_manager.py:847-874 | However the file is read in blocks, the chunks are those of the whole text cut at once: all windows of 2000 characters every 1800, then the tail unless it is blank |
| Streaming.OneShotRebuilds | backend_agent_api/sync_manager.py:837-874 | Dropping the first 200 characters of every chunk after the first gives back the text, up to a blank tail |
| Streaming.OneShotExact | backend_agent_api/sync_manager.py:837-874 | There is a chunk of 2000 characters at every multiple of 1800 where there are as many, and one more with the rest behind them exactly if that is not blank |
| Embeddings.GetEmbeddingsBatch | backend_agent_api/sync_manager.py:132-157 | The result is the vector of each text in order exactly when every batch succeeds within three attempts; otherwise the call fails; a zero batch size is an error and a negative one gives nothing |
| Embeddings.AllServedIff | backend_agent_api/sync_manager.py:136-157 | Every batch succeeds exactly if, at every multiple of the batch size, one of three attempts does not throw |
| ChunkInsert.InsertBatched | backend_agent_api/sync_manager.py:650-737 | A batch that cannot be embedded inserts no row; otherwise exactly the planned rows before the first failing insert are stored |
| ChunkInsert.InsertOneByOne | backend_agent_api/documents_router.py:368-460 | The rows before the first failing step are stored, each with the vector of its own content |
| ChunkRows.BatchedRefinesOneByOne | backend_agent_api/sync_manager.py:138-142 | With at most one document chunk the batched rows equal the one-by-one rows exactly if the two embedding calls, which name different task types, give the same vectors for the texts inserted |
| ChunkRows.BatchedEqualsOneByOneIff | backend_agent_api/sync_manager.py:661-675 | In general they are equal exactly when the two calls agree on the first document chunk, and on the others after surplus document chunks have shifted the vectors |
| ChunkRows.BatchedEqualsOneByOneTexts | backend_agent_api/sync_manager.py:661-675 | Where different texts have different vectors, also across the two calls, they are equal exactly when the section and leaf texts begin the list of the surplus document texts followed by themselves, and the two calls agree on the texts inserted |
| ChunkRows.ValidateChunkHierarchy | backend_agent_api/sync_manager.py:784-823 | No issue is reported exactly when every document row is a root and every other row hangs below a row of the document; every misplaced row has an issue of its kind and every issue is about such a row |
| ChunkRows.ForestAtEveryPrefix | backend_agent_api/sync_manager.py:650-737 | Stopped after any number of rows, an insert leaves a forest a forest |
| ChunkRows.ParentComesFirst | backend_agent_api/sync_manager.py:679-737 | Exactly the first row is a root; the parent of any other was inserted before it |
| ChunkRows.RowExact | backend_agent_api/sync_manager.py:679-737 | Row k of a full insert has the next id, the vector of its own content and the fields of its chunk; sections hang below the document, a leaf below the section it names or, if there is none, below the document |
| ChunkRows.HierarchyByLevel | backend_agent_api/sync_manager.py:656-658 | Sorting the chunker's output by level gives its three stages, with the one root the insert expects and no chunk lost |
| ChunkRows.HierarchySiblings | backend_agent_api/hierarchical_chunking.py:228-275 | After a full insert the children of every row are as many as they say, at positions 0, 1, 2, ... |
| ChunkRows.StreamBatchShape | backend_agent_api/sync_manager.py:879-900 | The streamed rows are one root and leaves directly below it, one per text in order, each counting all of them |
| ChunkRows.StreamSiblingsIff | backend_agent_api/sync_manager.py:879-900 | The streamed rows count the root among the siblings, so their sibling fields are right exactly when there is at most one row |
| SyncModel.ReadTextIdentityIff | backend_agent_api/sync_manager.py:847 | A text file is read back as written exactly when the text has no carriage return |
| SyncModel.ReadTextLaws | backend_agent_api/sync_manager.py:847 | CRLF is read as one newline, a lone carriage return as one, and every other character as it is |
| SyncModel.LineEndsRoundTrip | backend_agent_api/sync_manager.py:847 | A text written with any of the three line ends is read back as the same text |
| SyncModel.LargeSize | backend_agent_api/sync_manager.py:619-630 | The size that decides about streaming is the sum of one to four bytes a character, and the limit is ten megabytes |
| SyncModel.FullRowsExact | backend_agent_api/sync_manager.py:619-648 | Above that size the rows are made from windows of what the file says, otherwise from the headings and paragraphs of the content given |
| SyncModel.ChunkBatchRooted | backend_agent_api/sync_manager.py:619-648 | Both ways of chunking a document give a root row |
| SyncManager.Manager.CreateDocumentAtomic | backend_agent_api/sync_manager.py:351-394 | The method is refused, changing nothing, exactly when the file exists or the first status write throws; otherwise it runs its script to the end if no step throws, and else to the first step that does and leaves the rolled-back state of that step, without the error status if the handler cannot write it |
| SyncManager.Manager.UpdateDocumentAtomic | backend_agent_api/sync_manager.py:396-459 | The method is refused, changing nothing, exactly when the file is missing, has changed since the caller read it, or the first status write throws; otherwise it runs its script to the end if no step throws, and else to the first step that does and leaves the rolled-back state of that step, without the error status if the handler cannot write it - changed meaning that its modification time and the expected one differ by more than a second either way; without an expected time it is refused only for the other two reasons |
| SyncManager.Manager.DeleteDocumentAtomic | backend_agent_api/sync_manager.py:461-497 | The method is refused, changing nothing, exactly when the file is missing or the first status write throws; otherwise it runs its script to the end if no step throws, and else to the first step that does and leaves the rolled-back state of that step, without the error status if the handler cannot write it |
| SyncManager.Manager.ReindexDocument | backend_agent_api/sync_manager.py:534-584 | The method is refused, changing nothing, exactly when the file is missing or the first status write throws; otherwise it runs its script, on the text read from the file, to the end or to the first step that throws, whose rolled-back state it then leaves, without the error status if the handler cannot write it |
| SyncManager.Manager.ChunkAndInsert | backend_agent_api/sync_manager.py:619-648 | The rows added are exactly the planned rows before the first failing insert, none if the size check or the embedding fails, and the number of chunks is returned exactly if all went in |
| SyncManager.Manager.ProcessLargeFile | backend_agent_api/sync_manager.py:831-902 | The rows added are exactly those of the streamed chunks before the first failing insert, none if the embedding fails or gives nothing, and the number of chunks is returned exactly if nothing failed |
| SyncOutcomes.DoneIff | backend_agent_api/sync_manager.py:351-584 | A call is refused, changing nothing, exactly if its first status write throws, a document to be created exists, another is missing, or one to be updated differs by more than a second either way from the time the caller read; it succeeds exactly if it is not refused and no step throws |
| SyncOutcomes.DoneNeedsVectors | backend_agent_api/sync_manager.py:136-157 | No operation on a document succeeds with a batch size of zero, nor a small document with a negative one |
| SyncOutcomes.LargeTruthfulIff | backend_agent_api/sync_manager.py:876-902 | The IN_SYNC of a successful update or reindex of a large document is truthful exactly if the batch size is positive |
| SyncManager.Manager.UpdateSyncStatus | backend_agent_api/sync_manager.py:236-260 | A missing count is stored as 0 and a missing source as the file system, a missing modification time keeps the one that was there, and other paths are unchanged |
| SyncManager.Manager.HandleFailure | backend_agent_api/sync_manager.py:387-497 | The exception handlers of all operations restore the files and write the error status, or restore the files only if that write throws, as the specification says |
| SyncProofs.ScriptAt | backend_agent_api/sync_manager.py:351-497 | Closed form of the files, rows and statuses after any number of steps of any operation |
| SyncProofs.CreateRollsBack | backend_agent_api/sync_manager.py:363-394 | A failed create leaves the files as they were, wherever it failed and whether or not its handler could write the status |
| SyncProofs.UpdateRollsBackIff | backend_agent_api/sync_manager.py:417-459 | A failed update leaves exactly the old files and no backup if and only if it failed after the rename to the backup and not after the backup's removal, or in the rename while a leftover backup held the same file; failing in the rename otherwise loses the document, and after the removal it is gone; the handler's status write makes no difference |
| SyncProofs.DeleteRollsBackIff | backend_agent_api/sync_manager.py:473-497 | A failed delete leaves the document as it was if and only if it failed before the renamed file was removed, and not in the rename with a different leftover file of that name; the handler's status write makes no difference |
| SyncProofs.FilesOutside | backend_agent_api/sync_manager.py:351-497 | No completed or failed operation changes a file other than its own and its backup |
| SyncProofs.CancelledFiles | backend_agent_api/sync_manager.py:387-497 | Cancelled after its first status write, a create leaves its new file once written, an update the new file with the old one beside it until the backup is removed, and a delete the document under its backup name only until that is removed |
| SyncProofs.CancelledStatus | backend_agent_api/sync_manager.py:387-497 | A cancelled call leaves PROCESSING unless it was cancelled after its last status write; then it has done what a completed call does |
| SyncRuns.StepKeepsForest | backend_agent_api/sync_manager.py:351-584 | Wherever an operation stops, the rows of every document form a forest |
| SyncRuns.Success | backend_agent_api/sync_manager.py:363-385 | Completing writes IN_SYNC, the number of chunks, the source, and the file's and the database's times; the file holds the new text; update and reindex leave exactly the rows of one full chunking with a fresh file id whatever rows were there, create puts them behind the path's rows |
| SyncRuns.CountIsRight | backend_agent_api/sync_manager.py:370-384 | Where the embedding calls give all vectors, the recorded number is the number of the document's rows exactly if the operation is no create or the path had no rows |
| SyncRuns.DeleteSuccess | backend_agent_api/sync_manager.py:475-488 | A completed delete leaves no file, no backup, no row and no status |
| SyncRuns.OwnStatus | backend_agent_api/sync_manager.py:351-584 | A call that changed anything leaves IN_SYNC, ERROR or no status for its document, and an ERROR with a count of zero unless it completed, if its handler can write the status |
| SyncRuns.Outside | backend_agent_api/sync_manager.py:351-584 | Other documents keep their rows and statuses |
| SyncRuns.StepKeepsSettled | backend_agent_api/sync_manager.py:351-584 | No operation that is not cancelled ends with PROCESSING in place, if its handler can write the status |
| SyncRuns.CancelledSettledIff | backend_agent_api/sync_manager.py:387-584 | A cancelled call leaves nothing PROCESSING exactly if it was cancelled after its last status write |
| SyncRuns.BrokenSettledIff | backend_agent_api/sync_manager.py:387-584 | A call whose handler throws or is cancelled in its status write leaves nothing PROCESSING exactly if it failed after its last status write |
| SyncRuns.RunsAreSettled | backend_agent_api/sync_manager.py:351-584 | Over every run without cancellations in which the handlers can write their status, nothing is left PROCESSING, whatever the operations are given and wherever they fail |
| SyncRuns.StepKeepsTruth | backend_agent_api/sync_manager.py:351-584 | If IN_SYNC meant that the file exists and the rows include a full chunking of its text, it still does after a faithful operation, for every document whose file the operation does not use as a backup |
| SyncRuns.CancelKeepsTruth | backend_agent_api/sync_manager.py:351-584 | The same when the operation is cancelled anywhere |
| SyncRuns.BrokenTruthfulIff | backend_agent_api/sync_manager.py:377-394 | A call whose handler throws or is cancelled in its status write leaves the truth about its own document exactly if it is not a create or update that failed after writing IN_SYNC, whose handler has removed the file |
| SyncRuns.BreakKeepsTruth | backend_agent_api/sync_manager.py:387-584 | Unless a file is lost that way, the truth about all documents is kept as by any call |
| SyncRuns.RunsAreSound | backend_agent_api/sync_manager.py:351-584 | Over every sequential run of faithful operations on any paths, with a fault or a cancellation anywhere, in the handlers too except where BrokenTruthfulIff says that a file is lost: IN_SYNC is truthful for every document that does not have a backup's name, and all rows form forests |
| SyncTruth.HoldsChunkingIff | backend_agent_api/sync_manager.py:619-648 | Rows that end in a chunking of a content hold a chunking of the file, anywhere among them, exactly if the rows before it hold one, or the file is large, or its text as read and the content have the same summary and the same section texts |
| SyncRuns.CompletedTruthfulIff | backend_agent_api/sync_manager.py:363-447 | A completed create, update or reindex leaves a truthful IN_SYNC exactly if all its rows were inserted and the content it was given and the text read back are chunked alike, for texts of every length, or rows it leaves in place hold a chunking of the new text |
| SyncRuns.ReplacedTruthfulIff | backend_agent_api/sync_manager.py:417-447 | A completed update or reindex is truthful exactly if it is faithful, which can be evaluated before the call |
| SyncRuns.FaithfulWhen | backend_agent_api/sync_manager.py:619-648 | At a batch size that is not negative, reindexing, contents without carriage returns and large contents are faithful |
| SyncRuns.ShortTruthfulIff | backend_agent_api/sync_manager.py:363-447 | For a text that is its own summary, a completed create or update is truthful exactly if the text has no carriage return or rows left in place hold a chunking of it |
| SyncRuns.BackupNameBreaksTruth | backend_agent_api/sync_manager.py:417-490 | A tracked document that has the name under which another one is kept while it is updated or deleted loses its file and stays IN_SYNC when that operation completes |
| Gateway.RunsAreSound | backend_agent_api/gateway_server.py:245-324 | Under every interleaving of deliveries, flushes, registrations, disconnects and status messages: per channel the messages offered are, as a multiset, those sent, queued, in flight and refused; the delivery counter is the sum of the channels' counters; the queue bound holds |
| Gateway.StepKeepsLedger | backend_agent_api/gateway_server.py:245-324 | Every single step keeps that multiset equation |
| Gateway.SentAtMostOnce | backend_agent_api/gateway_server.py:245-324 | No message is sent more often than it was offered, and none on another channel |
| Gateway.StepKeepsBounded | backend_agent_api/gateway_server.py:273-286 | Queue and flushed messages in flight exceed the limit of 1000 by at most the number of flushes in progress when something was queued |
| Gateway.LimitIff | backend_agent_api/gateway_server.py:273-324 | Over every run, a channel's queue and what flushes hold of it stay within the limit of 1000 exactly if no failed send, and no delivery to a disconnected channel, is queued into the gap that a flush has left in a full queue |
| Gateway.QueueIff | backend_agent_api/gateway_server.py:273-324 | Over every run, a channel's queue on its own stays within the limit exactly if no flush puts its message back in front of a full queue |
| Gateway.LimitIsPassed | backend_agent_api/gateway_server.py:273-324 | For any 1001 messages of a channel some run in the order of the connection handler ends with all of them in its queue: while the flush of a new connection waits on its first send, a direct send fails and fills the gap, and then the flush fails |
| Gateway.OneFlushKeepsOrder | backend_agent_api/gateway_server.py:302-324 | With at most one flush at a time, what was flushed, the message in flight and the queue are together the queued messages in their order, and there are at most 1001 |
| Gateway.OrderIff | backend_agent_api/gateway_server.py:302-324 | Over every run whose messages are pairwise different, every possible next step keeps the queued messages in their order exactly if no flush of the channel starts during another |
| Gateway.OrderSafeIff | backend_agent_api/gateway_server.py:302-324 | At any point where the order holds, every next step keeps it exactly if at most one flush is in progress |
| Gateway.OrderIsLost | backend_agent_api/gateway_server.py:355-358 | Some run in the order of the connection handler flushes two queued messages in the wrong order: a second connection of the channel registers while the flush of the first one waits on its send |
| Gateway.ChannelAdapter.FlushMessageQueue | backend_agent_api/gateway_server.py:302-324 | The whole flush loop, when no other coroutine runs, is the sequence of flush steps of the state machine |
| Gateway.UndisturbedSends | backend_agent_api/gateway_server.py:302-324 | That sequence sends the queue in order up to the first send that throws, keeps the rest with that message in front, and leaves the channel connected exactly if everything was sent |
| Gateway.ControlPlane.RegisterAdapter | backend_agent_api/gateway_server.py:156-185 | A new channel is added with an empty queue, a known one keeps its queue, and either is connected with the socket given: the Register step of the state machine, with all other channels unchanged |
| Gateway.ControlPlane.UnregisterAdapter | backend_agent_api/gateway_server.py:187-200 | The Unregister step: the channel stays, with its queue, without a socket and disconnected, and an error is counted if there was one; an unknown channel changes nothing |
| Gateway.ControlPlane.HandleStatus | backend_agent_api/gateway_server.py:368-374 | The StatusMessage step: the reported status is taken over, an error is also counted |
| Gateway.ControlPlane.BeginDelivery | backend_agent_api/gateway_server.py:254-286 | A delivery up to its send is the Deliver step: it goes to the channel's socket exactly if there is one and the status is connected, else it is queued if there is room, else rejected, as it is for an unknown channel |
| Gateway.ControlPlane.EndDelivery | backend_agent_api/gateway_server.py:262-286 | The rest of a delivery is the DirectSent or DirectFailed step: a failure puts the channel in error and queues the message if there is room; the result is true exactly when the send succeeded or there was room |
| Gateway.ControlPlane.BeginFlush | backend_agent_api/gateway_server.py:308-314 | A flush up to its first send is the FlushStart step: it takes the first queued message exactly if there is a socket, the status is connected and the queue is not empty |
| Gateway.ControlPlane.EndFlushSend | backend_agent_api/gateway_server.py:313-324 | A flush from one send to the next is the FlushSent or FlushFailed step; a message that failed goes back in front |
| GatewayConnections.RunsConnect | backend_agent_api/gateway_server.py:156-200 | Over every run a channel holds the socket registered last, none after that connection ended, and the status it was given last |
| GatewayConnections.UnregisteredIsQuiet | backend_agent_api/gateway_server.py:187-200 | Over every run, from the end of a connection up to the next registration and whatever status messages come, no delivery is sent directly but waits or is refused, and no flush takes a message |
| GatewayConnections.RegisteredSocket | backend_agent_api/gateway_server.py:172-185 | Over every run a channel holds the socket of a registration until the next registration or the end of a connection, so that is the one its deliveries go to |
| SessionHistory.RunsKeepRecent | backend_agent_api/session.py:158-201 | Over every run of messages and clears without a compaction interrupted after its clear, and for every threshold, the stored history is what was said since the last clear, or one summary followed by the last messages said, at least ten |
| SessionHistory.LastTenStored | backend_agent_api/session.py:280-284 | On such a run the ten messages said last are always stored as said |
| SessionHistory.StaysBelowIff | backend_agent_api/session.py:190-199 | The stored history stays below the threshold on every run without faults exactly for thresholds of twelve and more |
| SessionHistory.SummaryAtThreshold | backend_agent_api/session.py:280-297 | A history of at least twelve messages is compacted to an empty summary exactly when it has at most 62, because the conditional expression takes in the whole text and fifty parts are not enough |
| SessionHistory.CompactedExact | backend_agent_api/session.py:280-285 | A compaction keeps the last ten messages below 55, and from there on the last fifth rounded down, behind one summary of all the others |
| SessionHistory.SummaryExact | backend_agent_api/session.py:287-297 | Above fifty messages the summary names their number, the roles and first 200 characters of the first fifty, and how many more there are; otherwise it is empty |
| SessionHistory.DecimalExact | backend_agent_api/session.py:294-296 | The numbers in it are decimal, without leading zeros |
| SessionHistory.InterruptedLeaves | backend_agent_api/session.py:299-322 | A compaction that throws after its clear loses the newest messages: stored are the summary and the first of the messages to keep, as many as were added again, or nothing |
| SessionHistory.RunsKeepOrder | backend_agent_api/session.py:299-325 | Over every run, whatever interrupts its compactions, only summaries and, in their order, messages said since the last clear are stored, and the session's counter is never below their number |
| SessionHistory.RunsCount | backend_agent_api/session.py:186-199 | The counter is exact as long as no compaction is interrupted after its clear |
| SessionHistory.HealsIff | backend_agent_api/session.py:190-199 | A counter left too high is set right by later messages, and stays right, exactly from the message on with which ten are stored; until then every message tries to compact |
| SessionHistory.Session.AddMessage | backend_agent_api/session.py:158-201 | Adding a message appends it, and compacts exactly if the counter reaches the threshold and there are ten messages; the call throws exactly if the compaction does, and then leaves what its fault leaves |
| SessionHistory.Session.ClearHistory | backend_agent_api/session.py:240-253 | Clearing leaves no stored message and a count of zero |
| SessionHistory.Session.Compact | backend_agent_api/session.py:255-331 | The loops replace all but the last messages by one summary, if the threshold is reached and there are ten messages; a fault after the clear leaves the rows added so far, the old counter and the old rows in the cache |
| SessionCache.EvictsOldest | backend_agent_api/session_manager.py:433-458 | Wherever the eviction stops, what is gone was active no later than anything left, nothing else is lost, and of equally old sessions those cached first are gone |
| SessionCache.SortedSound | backend_agent_api/session_manager.py:443-446 | The order of eviction is sorted, loses nothing and is stable |
| SessionCache.CreatedSurvivesIff | backend_agent_api/session_manager.py:170-188 | With a full cache a session that was just created stays cached exactly when another one was active no later than its database row says |
| SessionCache.Manager.EnforceMemoryLimits | backend_agent_api/session_manager.py:433-458 | Exactly the least recently active sessions above the limit of 1000 are archived, all of them if no archive throws and else those before the first that does; without a failure 1000 sessions are left of more; what is no longer cached is archived |
| SessionCache.Manager.CleanupInactiveSessions | backend_agent_api/session_manager.py:460-477 | Exactly the sessions whose last activity was more than 3600 seconds ago at the start are archived, all of them if no archive throws and else those before the first that does; what is no longer cached is archived |
| SessionCache.Manager.GetSession | backend_agent_api/session_manager.py:197-220 | Loading a session adds it to the cache without regard to the limit |
| SessionCache.Manager.CreateSession | backend_agent_api/session_manager.py:144-195 | A cached session is returned unchanged; a new one is returned exactly if no archive the limit calls for throws, with the cache then within the limit, and otherwise the sessions before the failing archive are gone |
| RateLimiter.RunsAreLimited | backend_agent_api/document_rate_limiter.py:16-32 | On every run under a clock that never runs backwards, no window of 60 seconds holds more than 100 admitted requests of a user, though pruned stamps are forgotten |
| RateLimiter.RefusesIff | backend_agent_api/document_rate_limiter.py:24-27 | A request is refused exactly when 100 were admitted in the minute before it |
| RateLimiter.PassesIff | backend_agent_api/document_rate_limiter.py:24-27 | After a refusal a check passes exactly from the moment the oldest stamp is 60 seconds old |
| RateLimiter.RetryAfterEnough | backend_agent_api/document_rate_limiter.py:35-40 | The advised delay is between 1 and 60; one second more is always enough; the delay itself is enough exactly when at most one second or a whole number of seconds was left |
| RateLimiter.RetryAfterExact | backend_agent_api/document_rate_limiter.py:35-40 | The advised delay is what is left of the minute after the oldest stamp, rounded down, and one if less than a second is left |
| RateLimiter.Limiter.CheckRateLimit | backend_agent_api/documents_router.py:340-350 | A request is admitted, and its time recorded, exactly if fewer than 100 stamps of its user lie in the last 60 seconds; otherwise nothing is recorded and the delay of the pruned stamps is advised; no other user is touched |
| RateLimiter.Limiter.PruneExpired | backend_agent_api/document_rate_limiter.py:16-21 | Pruning keeps the stamps inside the window and no empty list |
| RateLimiter.AfterExact | backend_agent_api/document_rate_limiter.py:16-21 | Pruning keeps exactly the stamps later than the cutoff, as often as they come |
| RateLimiter.Limiter.GetRetryAfter | backend_agent_api/document_rate_limiter.py:35-40 | The loop finds the oldest stamp; the delay is what is left of its 60 seconds, truncated, and at least one, or zero without stamps |
| Ingest.ChunkTextLoop | backend_rag_pipeline/common/text_processor.py:41-54 | The stepping loop computes the chunks of the specification for arbitrary integers; a zero step is an error |
| Ingest.CleanLaws | backend_rag_pipeline/common/text_processor.py:46 | Every carriage return goes and every other character stays, wherever it stands |
| Ingest.ChunkTextExact | backend_rag_pipeline/common/text_processor.py:46-54 | For every chunk size and every smaller overlap, chunk k holds the characters from k times the step on, as many as the chunk size or what there is, and there is one for every such place in the text |
| Ingest.LosslessIff | backend_rag_pipeline/common/text_processor.py:41-54 | For every text, given as what stands between its carriage returns, the first characters of the chunks give back these parts one after the other, exactly when the overlap is not negative and less than the chunk size |
| Ingest.CutAtReturns | backend_rag_pipeline/common/text_processor.py:46 | Every text is its parts without carriage returns, with carriage returns between them |
| Ingest.ChunksBounded | backend_rag_pipeline/common/text_processor.py:49-52 | With such a step every chunk is non-empty and within the chunk size |
| Ingest.StoredSound | backend_rag_pipeline/common/db_handler.py:87-111 | Each stored row is the chunk of its index with its own vector, no index comes twice, and all are there exactly when no insert failed |
| Ingest.ReingestReplaces | backend_rag_pipeline/common/db_handler.py:190-264 | If its delete succeeds, a successful re-ingest leaves for the file only rows of the current chunks, all of them exactly when no insert failed, and no other file's rows change |
| Ingest.FailedDeleteDuplicates | backend_rag_pipeline/common/db_handler.py:36-45 | If the delete fails, the old rows stay beside the new ones |
| Ingest.Database.ProcessFileForRag | backend_rag_pipeline/common/db_handler.py:190-264 | The rows afterwards, for every combination of failing delete, extraction, embedding and inserts; true is returned, although inserts failed, exactly if the table could be read, the step is not zero or the text empty, and there was nothing to embed or embedding succeeded |
| Ingest.Database.InsertDocumentChunks | backend_rag_pipeline/common/db_handler.py:64-111 | Exactly the chunks whose inserts do not fail are stored |
| Watcher.RunsConverge | backend_rag_pipeline/Local_Files/file_watcher.py:341-443 | From any point of any run where what is known of a path is as on the disk, first starts and restarts with or without saved state among them, the path is current after every cycle as long as it is processed without faults and its changes show in its time stamps, whatever goes wrong with other paths: a file that yields text is known and indexed with exactly the chunks of its current text |
| Watcher.CycleConverges | backend_rag_pipeline/Local_Files/file_watcher.py:341-443 | One cycle without faults on a path, with or without the initial scan, makes the path current for the disk it scanned |
| Watcher.ScanOfFile | backend_rag_pipeline/Local_Files/file_watcher.py:192-217 | What either scan does with a file: the rows of its current text if it was unknown or modified or created after the last check and yields text; its old rows if it was known and not stamped after the last check, or if it has no supported type, no content or no text |
| Watcher.ScanOfMissing | backend_rag_pipeline/Local_Files/file_watcher.py:219-222 | And with a path that is gone: a known one loses its rows unless dropping them fails, and is forgotten; the rows of an unknown path, and of one that exists without being walked, stay |
| Watcher.ScanCurrentIff | backend_rag_pipeline/Local_Files/file_watcher.py:192-217 | After a scan without faults on a file that yields text, whatever the state before: its rows are current exactly if the file was unknown, was stamped after the last check, or its rows were current already |
| Watcher.CaughtUpIff | backend_rag_pipeline/Local_Files/file_watcher.py:192-217 | While a file stays as it is, cycles without faults on it make its rows current exactly if one of them finds it unknown or stamped after the last check: so a failed file, or one changed behind the back of a scan, recovers exactly then |
| Watcher.RunsOwnedIff | backend_rag_pipeline/Local_Files/file_watcher.py:341-443 | Over every run, with any changes of the files and any faults, what is indexed is known after every cycle exactly if in no cycle the rows of a path that the walk does not find lose their owner: the path was not known, a start forgot something that is not walked, or dropping the rows failed |
| Watcher.RunsOnDiskIff | backend_rag_pipeline/Local_Files/file_watcher.py:219-222 | Over every run what is known after a cycle is a file on the disk it scanned exactly if no path known to a running watcher has become something that is not walked |
| Watcher.CycleOwnedIff | backend_rag_pipeline/Local_Files/file_watcher.py:341-443 | The same for one cycle from any state: an indexed path is known afterwards exactly if its rows did not lose their owner and it is not an unknown file that the cycle could not process |
| Watcher.DeletedGoneIff | backend_rag_pipeline/Local_Files/file_watcher.py:374-394 | The rows of a deleted file are gone exactly if dropping them did not fail or there were none; the file is forgotten in any case |
| Watcher.OrphansStay | backend_rag_pipeline/Local_Files/file_watcher.py:219-222 | Rows of a path that is neither known nor on the disk stay through every later cycle and restart |
| Watcher.IndexedOnDiskIff | backend_rag_pipeline/Local_Files/file_watcher.py:219-222 | After a scan whose drops succeed everything indexed is a file on the disk exactly if no indexed path has become something that exists but is not walked |
| Watcher.IndexedKnownIff | backend_rag_pipeline/Local_Files/file_watcher.py:410-443 | After an initial scan whose drops succeed everything indexed is known exactly under the same condition |
| Watcher.LocalFileWatcher.CheckForChanges | backend_rag_pipeline/Local_Files/file_watcher.py:341-408 | A check is one cycle, with faults of any file in either scan: the initial scan if there was none since the start, then an incremental one; while the watcher runs, a known file modified or created after the last check is current afterwards if it yields text and nothing goes wrong with it, and one that was not keeps its rows |
| Watcher.LocalFileWatcher.Scan | backend_rag_pipeline/Local_Files/file_watcher.py:361-396 | An incremental scan processes exactly the changed files and forgets exactly the deleted ones; the rows of every path afterwards follow from its faults |
| Watcher.LocalFileWatcher.InitialScan | backend_rag_pipeline/Local_Files/file_watcher.py:410-443 | The first scan after a start drops the rows of known files that are gone, makes every file found known, and processes each new or newer file; the rows of every path afterwards follow from its faults |
| Watcher.LocalFileWatcher.ScanDirectory | backend_rag_pipeline/Local_Files/file_watcher.py:192-217 | The walk reports, each once, exactly the files that are unknown, modified after the last check or created after it |
| Watcher.LocalFileWatcher.ProcessFile | backend_rag_pipeline/Local_Files/file_watcher.py:279-339 | A file of a supported type that can be read and yields text has its rows replaced, as far as its faults let it, and becomes known; otherwise nothing changes |

## Left out

- SyncRuns.RunsAreSound: operations run one after the other. Reindex takes no document lock, so a reindex
  concurrent with an update is outside the model. What happens to documents with a backup's name, and with
  operations that are not faithful, is SyncRuns.BackupNameBreaksTruth and SyncRuns.CompletedTruthfulIff.
- SyncRuns.RunsAreSettled: runs without cancellations and without faults in the handlers;
  SyncRuns.CancelledSettledIff and SyncRuns.BrokenSettledIff say when such a call leaves a document PROCESSING.
- SyncManager.Manager.HandleFailure: the unlink and the rename in a handler succeed.
- Chunking.ChunkDocumentHierarchical: does not model the file titles and chunk types in the metadata.
- Row ids are consecutive in the model; a database leaves gaps after failed inserts. Only their order and
  identity are used.
- File titles and the JSON form of metadata, file contents stored for images, audit logs, the old status read
  for the audit, document locks and the reindex semaphore.
- `reindex_directory` and `resolve_conflict`, which call the modelled operations; `check_conflict`'s reading
  of the database text.
- A directory in place of a document, and the case-insensitivity of some file systems.
- Gateway: routing of inbound messages, sessions, error texts, received counters and the error and
  disconnection metrics. A registration and its flush are two steps of the model, which allows more
  interleavings than the code; the runs shown for the two failures are in the code's order. Cancelled tasks are
  not modelled. A status message "connected" re-enables
  direct sends without a flush, so no order between direct and queued messages is claimed.
- SessionHistory.Session.GetHistory: the role filter, and agreement of the cache with the rows: a cached list
  depends on the limit of the call that filled it. Messages other components insert directly are outside
  the model, and so is the double encoding of metadata when messages are stored again.
- SessionCache.Manager.EnforceMemoryLimits: sessions that other tasks cache while an archive is awaited.
- RateLimiter.RunsAreLimited: one process; a restart empties the limiter.
- Ingest.Database.ProcessFileForRag: the tables `document_rows` and `document_metadata`.
- Watcher.LocalFileWatcher.CheckForChanges: a walk that cannot stat a file it found or a state that cannot be
  saved, which end the cycle; a database connection that cannot be obtained, which keeps a file known; a
  disk that changes between the two scans of a first cycle; and the sync statuses the watcher writes.
- `hierarchical_chunker.py` and the `*_atomic` functions of `db_documents.py`: the first imports a name that
  does not exist and compares an integer with a string.
- Network and platform code, the LLM and embedding calls, authentication, the whole of `frontend/`.
