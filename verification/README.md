# Verification of the translation overlay's core

A Dafny model of the parts of the application in which state, concurrency or arithmetic carry the
risk, with machine-checked proofs of what they promise. `dafny verify dfyconfig.toml` checks it all.

| file | what it models |
|---|---|
| `TranslationCache.dfy`, `CachePrune.dfy` | the cache shared by the UI thread and the writer thread, as a protocol of atomic steps over all interleavings, the store whose methods refine it, and which rows a prune keeps |
| `Utf8.dfy`, `FileInput.dfy`, `FileLines.dfy` | UTF-8 scanning, the streaming preflight of an input file, the line reader |
| `EzTransBatches.dfy`, `EzTransWindow.dfy`, `EzTransSplit.dfy` | batching, the cached and deduplicated window translation, taking answers apart |
| `FilePipeline.dfy` | one file from its first byte to its persisted output |
| `OutputPaths.dfy`, `OutputLaws.dfy` | default output names without collisions, and the check before a job |
| `ProgressDrain.dfy`, `ProgressLabels.dfy` | coalesced progress events and what the progress dialog shows |
| `TextStyle.dfy`, `CacheTrackers.dfy`, `Renderer.dfy`, `OverloadRecovery.dfy`, `RendererRuns.dfy` | the cached text renderer: keys, per-slot caches, the overload escape, whether it recovers, and whole runs |
| `ClipboardWatch.dfy` | when the clipboard is listened to: six reasons to pause, session tokens, failing listeners |
| `ActionQueue.dfy`, `ModelFields.dfy`, `PreviewEffects.dfy` | the action queue with coalesced previews, the reducer, and what skipped previews would have done besides |
| `RollingLog.dfy` | log rotation under failures, and the log thread |
| `Postprocess.dfy` | the dictionary rewrite, on characters and on bytes |
| `ClipboardText.dfy`, `Backlog.dfy` | the bounded clipboard scan, the bounded history |
| `Prelude.dfy` | shared datatypes and sequence functions |

Code that changes state step by step is a class or a method with loop invariants, proved against
functions; what the source promises is then proved about those functions and over whole runs. Calls
into the system (files, Direct2D, Win32, SQL, the translators, the clock) are operations with an
arbitrary outcome within their contract, so that every theorem holds for every pattern of failures
unless it says otherwise. A `reliable` flag on a listener or a directory means that its operations
do not fail (in the log directory, but for files that another program holds open); what may be
expected then is stated as well.

## What the proofs show about the code

Most promises hold as documented. These do not, and the model follows the code:

- A translation cache whose database cannot be opened still answers from memory, and `clear` does
  not empty it; the comment on `get` says that it always returns nothing
  (`DisconnectedStore.AnswerAfter` says when it answers what).
- If the first read of an input file ends inside its byte order mark, the mark stays in the
  validated body. `BodyIsStrippedFile` gives the exact condition, `CutBomEffect` the consequences.
- A coalesced progress value can be shown after the file name or file size that should have replaced
  it (`StaleBarHappens`). `CoalescingIsInvisibleIff` says exactly when; the dialog's state is never
  wrong, and the total label never is, because a job sends its line total first
  (`JobTotalsAreNeverStale`).
- The tracker's ring holds its newest result in the lowest bit; a comment says the highest.
- The miss threshold may be set from one to eight, but a repainted text is sure to come back from
  direct drawing to its bitmap only from five up, which is the default (`SettlingThresholds`;
  `NeverCached` is a run of the renderer that does not).
- Attaching to a game ignores that the clipboard listener could not be stopped
  (`HandleHookAttached`). Nothing is captured even then (`HandleClipboardChange`).
- Opening a translation or file dialog again while its state is borrowed gives the session a token
  that the dialog does not have, and its close is then ignored (`LeakedPause`); the settings dialog
  has no token, and a late close releases the pause of the next one (`StaleSettingsClose`;
  `ProcessClose` and `Run` give the exact condition).
- After a failed rotation the log refuses every buffer that would fit, even when the files can be moved
  again, until one arrives that does not fit (`RollingLogWriter.Write`, `ClosedWriter`).
- Answers of EzTrans are taken apart correctly if and only if no part contains a line feed and no part,
  spaced as EzTrans spaces it, ends in a carriage return; with CRLF breaks the latter matters in the
  last part only (`RecoveredIffClean`).
- Skipping superseded previews is invisible to the reducer, but not to the effects: which configuration
  is saved, whether the magnetic hook keeps its target and whether a waiting translation is cancelled
  may depend on it. `SkippedPreviewsIff` says exactly when it does not.

## Model

| member | source | states |
|---|---|---|
| CacheProtocol.StepInv | src/app/translation_cache.rs:245-512 | Every atomic step of the UI thread or the writer thread keeps the protocol invariant. |
| CacheProtocol.ReachableInv | src/app/translation_cache.rs:245-512 | The invariant holds in every state of every interleaving, from any initial table. |
| CacheProtocol.GetIsNeverStale | src/app/translation_cache.rs:245-255 | In every interleaving, what `get` reads past its flag check is the text of the last accepted put for that key since the last accepted clear. |
| CacheProtocol.MemoryIsReplay | src/app/translation_cache.rs:290-317 | With both flags down, the memory map equals the table after every queued command, except between the memory insert and the send of one put. |
| CacheProtocol.ReplayExists | src/app/translation_cache.rs:416-474 | In every state the running command and the queued ones have a possible outcome, so that the statements about it are never about nothing. |
| CacheProtocol.ReplayIsBounded | src/app/translation_cache.rs:325-332 | From the first queued Prune on, in every state, the replayed table exceeds 10,000 rows at most by the puts since the last prune, the one in progress included, and so by at most 100; between calls by fewer than 100. |
| CacheProtocol.StorageIsBounded | src/app/translation_cache.rs:527-534 | Once the first Prune has reloaded the memory, table and memory hold at most 10,100 rows each. |
| CacheProtocol.PruneCasSucceeds | src/app/translation_cache.rs:482-489 | Whenever `schedule_prune` is reached, its compare-exchange finds the flag down. |
| CacheProtocol.ClearIsLast | src/app/translation_cache.rs:336-368 | A queued Clear is the last command of the queue: no Prune and no Put is ever queued behind it. |
| CacheProtocol.WriteLowersRank | src/app/translation_cache.rs:416-474 | Every writer step strictly lowers a rank, so the writer thread cannot run for ever on a finite queue. |
| CacheProtocol.WriterIsNeverStuck | src/app/translation_cache.rs:416-474 | A writer that has not caught up always has an enabled step, for every command and every position inside it. |
| CacheProtocol.QuietIsConsistent | src/app/translation_cache.rs:447-470 | When the writer has caught up and no call is running, both flags are down, memory mirrors the table, and everything in it was accepted. |
| CacheProtocol.NewestRowsExist | src/app/translation_cache.rs:527-534 | The row-cap statement can always be answered: a set of newest rows of the wanted size exists for every table. |
| CacheProtocol.StaleReloadHappens | src/app/translation_cache.rs:462-469 | A concrete run in which a Prune puts rows back into memory after a clear was accepted; only the flag check of `get` hides them. |
| CachePrune.PruneKeepsYoungRows | src/app/translation_cache.rs:514-534 | A prune deletes every row older than thirty days, leaves the others as they are, and deletes one of them only if 10,000 rows stay of which none is older. |
| CachePrune.NothingCrowdedOut | src/app/translation_cache.rs:527-534 | With at most 10,000 rows younger than thirty days, exactly these stay. |
| CachePrune.PruneReloads | src/app/translation_cache.rs:462-469 | However the UI thread runs in between, the reload leaves the memory with exactly the texts of what such a prune keeps of the table as the Prune found it. |
| CachePrune.RunPrune | src/app/translation_cache.rs:462-469 | The same for the writer thread of the store, from taking a Prune to the reload. |
| TranslationCache.TranslationCacheStore.Open | src/app/translation_cache.rs:103-142 | The store starts with the stored rows in memory and a first Prune in the queue. |
| TranslationCache.TranslationCacheStore.Get | src/app/translation_cache.rs:245-255 | An answer is the accepted text of the key; with no clear and no prune in progress it is exactly what memory held at the call, whatever the writer does meanwhile. |
| TranslationCache.TranslationCacheStore.Put | src/app/translation_cache.rs:290-333 | A put is accepted or dropped as a whole, and accepted for certain when no clear and no prune is in progress; every hundredth accepted put queues a Prune, no other does; the state stays one that the protocol reaches. |
| TranslationCache.TranslationCacheStore.Clear | src/app/translation_cache.rs:336-368 | After the call nothing is accepted any more and the put counter is zero, also if a clear was already running. |
| TranslationCache.TranslationCacheStore.SchedulePrune | src/app/translation_cache.rs:482-512 | A Prune is always queued, as the last command, with its flag up. |
| TranslationCache.TranslationCacheStore.WriterStep | src/app/translation_cache.rs:416-474 | The command loop takes exactly one step of the protocol, unless it has nothing to do; it never raises a flag, and with both flags down it leaves memory alone. |
| TranslationCache.DisconnectedStore.AnswerAfter | src/app/translation_cache.rs:242-255 | Over any run of puts and clears on a store without a database, a key is answered with nothing if and only if it was never put, and otherwise with the text put last, whatever was cleared since; the comment at line 242 says that it never answers. |
| TranslationCache.DisconnectedStore.Run | src/app/translation_cache.rs:290-300 | After any such run the memory holds exactly the keys that were put, each with its last text. |
| Utf8.WellFormedIffEncoding | src/file_trans/input.rs:127-141 | The scanner accepts a byte string exactly if it is the encoding of some text (section 3 of RFC 3629). |
| Utf8.DecodeInvertsEncode | src/file_trans/input.rs:236-242 | Decoding the encoding of a text gives the text back. |
| Utf8.NeedMoreIsProperPrefix | src/file_trans/input.rs:129-132 | More input is asked for exactly if the bytes are a proper prefix of the encoding of one character (section 4 of RFC 3629). |
| Utf8.ErrorOffsetIsLongestPrefix | src/file_trans/input.rs:133-141 | No prefix longer than the reported offset is well formed. |
| Utf8.SplitAtError | src/file_trans/input.rs:127-141 | The bytes in front of the reported offset are well formed, and what stands there begins with the error or is unfinished. |
| Utf8.InvalidIsFinal | src/file_trans/input.rs:133-141 | Once a byte string is ill-formed, no further input changes the verdict or the offset. |
| FileInput.ValidateAndCountReader | src/file_trans/input.rs:89-152 | For every sequence of reads, cancellations and faults, the streaming answer is the verdict on the whole body: well-formed or not, the absolute offset of the first error, the line count. |
| FileInput.FeedChunk | src/file_trans/input.rs:115-142 | The carried bytes are always exactly the unfinished sequence at the end of the body so far, and an error is found at its offset in the whole body. |
| FileInput.BodyIsStrippedFile | src/file_trans/input.rs:116-119 | The validated body is the file without its byte order mark if and only if the first read does not cut the mark. |
| FileInput.ChunkingDoesNotMatter | src/file_trans/input.rs:102-143 | Two ways of cutting the same bytes into reads get the same answer, as long as no read cuts the mark. |
| FileInput.AnswerMeaning | src/file_trans/input.rs:89-152 | In terms of the reads: a check that was cancelled is reported as cancelled, a failed read as an input error, a file read to its end is counted if it is text, and bytes that cannot be text are reported before any of these; only a mark at the beginning of the first read is left out. |
| FileInput.CutBomEffect | src/file_trans/input.rs:116-119 | What a cut mark changes: never the acceptance, the error offset by three, and the line count only in a file that is nothing but the mark. |
| FileLines.ReadRawLine | src/file_trans/input.rs:190-216 | For every buffering, the bytes up to the next newline are collected, or the line is refused as too long or unreadable, exactly as the file content says. |
| FileLines.ReadInputLine | src/file_trans/input.rs:183-243 | The next line depends on the unread bytes alone, not on how they are buffered, and exactly its bytes are consumed. |
| FileLines.CutAtAscii | src/file_trans/input.rs:221-242 | A well-formed text may be cut on either side of any ASCII byte, so a line of a valid file is always valid text. |
| FileLines.ReaderAgreesWithPreflight | src/file_trans/input.rs:183-243 | For every valid file without an over-long line, the reader yields as many lines as the preflight counted, and texts and endings put together are the body. |
| FileLines.LongFirstLine | src/file_trans/input.rs:204-209 | A first line over the limit, byte order mark included, ends the reading with that error. |
| FileLines.ReadBack | src/file_trans/input.rs:221-242 | Lines that a reader can produce are read back unchanged after joining. |
| EzTransBatches.PartitionBatches | src/file_trans/eztrans.rs:108-158 | The batches flatten to the input and form the greedy cut for the two targets. |
| EzTransBatches.BatchLimits | src/file_trans/eztrans.rs:120-144 | No batch is empty or has more lines than the target and 256; every batch of two or more lines is within the character target and 96 Ki, separators counted. |
| EzTransBatches.GreedyIsUnique | src/file_trans/eztrans.rs:131-157 | Being greedy decides the cut: two greedy partitions of the same lines are equal. |
| EzTransBatches.TargetsAreShares | src/file_trans/eztrans.rs:113-129 | The targets are the least numbers of lines and characters that are enough for all texts in as many parts as there are processes, between 1 and 256 lines and 98,304 characters. |
| EzTransBatches.ClosedOnlyIfFull | src/file_trans/eztrans.rs:131-157 | A batch is closed only if it has as many lines as the target, or its text with the next line would be longer than the other target. |
| EzTransBatches.BatchTextLimit | src/file_trans/eztrans.rs:131-157 | The text of a batch of two or more lines, one character between neighbours, is never longer than the target. |
| EzTransWindow.ScanWindow | src/file_trans/eztrans.rs:49-66 | Every line is assigned to its cached text, to its miss or to neither; the misses are the uncached texts, each once, in order of appearance. |
| EzTransWindow.TranslateWindow | src/file_trans/eztrans.rs:38-97 | Outcome, batches sent and new cache meet the window contract, for any reply of the pool to this call and a cache that may refuse or drop any entry. |
| EzTransWindow.WindowIsLineMap | src/file_trans/eztrans.rs:38-106 | With a reply that translates text by text and a cache of true translations, a window equals the per-line map, unless it needs the pool and the pool fails; the cache stays true. |
| EzTransWindow.SentExactlyOnce | src/file_trans/eztrans.rs:57-71 | Each distinct missing text occurs exactly once in the batches of a window, every other text never. |
| EzTransWindow.TranslateLines | src/file_trans/eztrans.rs:38-106 | Line by line, for a pool that answers: a line becomes its rewritten translation if it is not empty and, where blank lines are left alone, has a character that is not white space; otherwise it stays as it is. |
| EzTransWindow.NeedsTranslationIff | src/file_trans/eztrans.rs:160-162 | The same condition for the texts that are sent, in terms of the code points of the White_Space property. |
| EzTransWindow.MissesInOrder | src/file_trans/eztrans.rs:49-66 | The texts that are sent are the first occurrences of those that need a translation and are not cached, in the order of the window. |
| EzTransSplit.SplitBatch | src/file_trans/eztrans.rs:166-191 | One part per original or nothing, with only the boundary spaces removed that the original did not have. |
| EzTransSplit.SpacesAdded | src/file_trans/eztrans.rs:164-165 | The model of EzTrans adds one space on a side that faces a line break exactly if the original is empty or has no white space at that end. |
| EzTransSplit.PiecesWithoutLf | src/file_trans/eztrans.rs:166-176 | Parts without a line feed, spaced and joined with either line break, split into exactly the pieces they were joined from. |
| EzTransSplit.RecoveredIffClean | src/file_trans/eztrans.rs:164-191 | For either line break, the translations are recovered if and only if none contains a line feed and none, spaced as EzTrans spaces it, ends in a carriage return where no carriage return of the line break follows: anywhere with plain line feeds, in the last part with CRLF. |
| FilePipeline.WriteOutput | src/file_trans/output.rs:138-175 | A successful call appends exactly the lines that the write type prescribes, for all three types and every line ending. |
| FilePipeline.WriteBatch | src/file_trans/pipeline/batch.rs:168-206 | A batch written to its end appends the output lines of all its lines; a failed write or a cancellation is reported. |
| FilePipeline.CollectWindow | src/file_trans/pipeline/batch.rs:106-135 | A window holds whole lines in order, within both limits, and the line handed on is the first that did not fit; no line is lost, whatever the reader does. |
| FilePipeline.ProcessWindow | src/file_trans/pipeline/batch.rs:41-61 | A window contributes the rendering of its lines, each translated on its own, and leaves the cache true. |
| FilePipeline.ProcessSingleFile | src/file_trans/pipeline/batch.rs:20-65 | A finished file is a byte order mark and then, for every line that was read, exactly what its translation on its own prescribes: windows, cache, batches and duplicates cannot be seen. An aborted file is never persisted; if nothing fails, the file is finished exactly if it can be read to its end. |
| FilePipeline.IdentityReproducesFile | src/file_trans/output.rs:150-154 | With an identity translator and TranslationOnly, a valid file is reproduced byte for byte after its mark. |
| FilePipeline.OutputReadsBack | src/file_trans/output.rs:138-175 | An output read again as an input shows exactly the lines that were written. |
| FilePipeline.OutputConcat | src/file_trans/pipeline/batch.rs:182-189 | The output of two runs of lines is the two outputs in order, the first knowing that more follows. |
| FilePipeline.OutputLineBytes | src/file_trans/output.rs:138-175 | The bytes of one line for all three write types: the translation, or the line and its translation below, with an empty line behind them in the third type where something follows. |
| FilePipeline.RenderingIsOutput | src/file_trans/pipeline/batch.rs:41-61 | The output of a file falls into the outputs of its lines, each with what the line becomes. |
| FilePipeline.WindowFullIff | src/file_trans/pipeline/batch.rs:106-135 | A window is closed in front of a line exactly if it has 50,000 lines or would be longer than 16 Mi characters with it. |
| OutputPaths.LexicalPathKey | src/file_trans/mod.rs:80-101 | The loop over components yields the key of the path; it fails exactly for the empty path. |
| OutputPaths.FileStem | src/file_trans/mod.rs:153-153 | The stem is the name up to its last dot, unless that dot comes first. |
| OutputPaths.DecimalIsInjective | src/file_trans/mod.rs:156-160 | Different numbers are written differently. |
| OutputPaths.NumbersGiveDistinctKeys | src/file_trans/mod.rs:155-163 | Different numbers give different keys for the same input, even after lower-casing that may change lengths and look at neighbours. |
| OutputPaths.TakenNumbersAreFew | src/file_trans/mod.rs:155-168 | Pigeonhole: if the numbers below n are all taken, n is at most one more than the number of taken keys, so the search ends. |
| OutputPaths.SmallestFreeSuffix | src/file_trans/mod.rs:154-168 | The loop terminates and returns the smallest number whose key is free, with its key. |
| OutputPaths.DefaultOutputPaths | src/file_trans/mod.rs:141-172 | One output per input, each with the smallest number that neither an input nor an earlier output takes; an error exactly if some input path is empty. |
| OutputPaths.DefaultsNeverCollide | src/file_trans/mod.rs:164-166 | Keys of default outputs differ from each other and from the keys of all inputs. |
| OutputPaths.DefaultsAreUnique | src/file_trans/mod.rs:141-172 | The inputs alone decide the default outputs. |
| OutputPaths.ValidateJobPaths | src/file_trans/mod.rs:104-138 | A job is accepted if and only if the numbers agree, all inputs have keys, and the output keys exist, are distinct and differ from all input keys; each refusal names the first offender. |
| OutputPaths.DefaultsPassTheCheck | src/file_trans/mod.rs:104-138 | Default outputs pass the job check whenever the file system tells each of them apart from the inputs and the other outputs that its name tells it apart from. |
| OutputLaws.DotsDoNotMatter | src/file_trans/mod.rs:87-97 | A dot inside a path, and a name that is taken back at once, do not change the key. |
| OutputLaws.NothingAboveRoot | src/file_trans/mod.rs:90-92 | There is nothing above the root. |
| OutputLaws.RelativeToCurrent | src/file_trans/mod.rs:80-86 | A relative path has the key of the same path from the current directory, and the empty one has none. |
| OutputLaws.KeyOfNames | src/file_trans/mod.rs:93-101 | The key of an absolute path without dots is its text in lower case, with a backslash between the names and for every slash. |
| OutputLaws.CandidateStandsBeside | src/file_trans/mod.rs:153-161 | A candidate stands beside its input, under its stem, the mark for a translation, the number from the second on, and the extension. |
| OutputLaws.DecimalMeans | src/file_trans/mod.rs:159-159 | The digits of a number stand for it, without a leading zero. |
| ProgressDrain.FileTranslationTask.DrainEventsBudgeted | src/file_trans/supervisor.rs:48-83 | For any arrivals during the drain, a prefix of the events within the budget is consumed, ending at the first Finished, and handed out coalesced. |
| ProgressDrain.DrainKeepsState | src/file_trans/supervisor.rs:48-83 | Folding the dialog state over the coalesced events gives the state after every single event. |
| ProgressDrain.AllDrainsKeepState | src/file_trans/supervisor.rs:48-83 | The same over any number of drains with any budgets. |
| ProgressDrain.CoalescedKeepsOrder | src/file_trans/supervisor.rs:60-74 | Events other than progress keep their order, and nothing follows Finished within a drain. |
| ProgressDrain.CoalescingIsInvisibleIff | src/dialogs/file_trans_progress.rs:228-300 | For every drain, the screen after the coalesced events equals the screen after every single event if and only if no held-back progress value crossed the file name, file size or line total that would have overwritten it; a final event that puts its own text over the label of the file forgives that label. |
| ProgressDrain.BodyDiffers | src/file_trans/supervisor.rs:60-74 | In front of the terminal event coalescing changes at most the bar and the two progress labels, and each of them exactly if its own held-back value crossed its own event. |
| ProgressDrain.JobTotalsAreNeverStale | src/file_trans/pipeline/mod.rs:164-197 | A job sends its line total once and first, so the total label is right after every drain of every job. |
| ProgressDrain.StaleBarHappens | src/file_trans/pipeline/batch.rs:191-199 | A drain of the events of a job of two files after which bar and file label show the progress of the first file under the name of the second. |
| ProgressDrain.ProgressDialog.DrainProgressEvents | src/dialogs/file_trans_progress.rs:219-225 | After one timer tick the dialog state is the one that all events consumed lead to. |
| ProgressDrain.FieldsAreLastWritten | src/dialogs/file_trans_progress.rs:42-60 | Every number of the dialog is what the last event that concerns it says, over any events in front of the terminal one; no event writes another number than its own. |
| ProgressDrain.FinishedFreezes | src/dialogs/file_trans_progress.rs:43-45 | Whatever comes after the terminal event changes nothing. |
| ProgressLabels.LabelsAreLastPut | src/dialogs/file_trans_progress.rs:228-286 | In front of the terminal event each label says what the last event that concerns it puts there, with the numbers of that moment. |
| ProgressLabels.JobCountsAllLines | src/file_trans/pipeline/mod.rs:164-197 | After all events of a job the dialog has counted every line of every file. |
| ProgressLabels.FinishedShows | src/dialogs/file_trans_progress.rs:287-322 | How a job ended is told apart on the screen, and bar, range and totals stay as they were. |
| CacheTrackers.MissTracker.Record | src/d2d/cache/tracker.rs:121-129 | The ring goes on standing for the full history of the slot, and no other slot changes. |
| CacheTrackers.MissTracker.IsOverloaded | src/d2d/cache/tracker.rs:132-135 | The eight bits answer for the full history: eight results since the reset, and misses among the last eight at the threshold or above. |
| CacheTrackers.MissTracker.Reset | src/d2d/cache/tracker.rs:105-109 | One slot forgets its history and its last key; the others keep theirs. |
| CacheTrackers.PushShifts | src/d2d/cache/tracker.rs:121-124 | Pushing a result moves every bit up by one, drops the ninth and keeps the upper byte clear. |
| CacheTrackers.OnesAreMisses | src/d2d/cache/tracker.rs:132-135 | The number of set bits among all sixteen is the number of misses in the window. |
| CacheTrackers.OverloadedIff | src/d2d/cache/tracker.rs:132-135 | Overload means eight results, of which as many are misses as the threshold says. |
| CacheTrackers.HitsEndOverload | src/d2d/cache/tracker.rs:132-135 | Any 8 - threshold + 1 hits in a row end an overload. |
| CacheTrackers.FewerHitsDoNot | src/d2d/cache/tracker.rs:132-135 | One hit fewer does not, after a full window of misses. |
| CacheTrackers.OverloadChanges | src/d2d/cache/tracker.rs:121-135 | With a full window, overload is entered only by a miss and left only by a hit. |
| CacheTrackers.UnusedSlotTracker.Record | src/d2d/cache/tracker.rs:33-50 | A slot is reported exactly when the paint is the sixteenth, thirty-second, … in a row without it. |
| CacheTrackers.PruneRate | src/d2d/cache/tracker.rs:33-50 | Over a stretch without use, a slot is reported once per sixteen paints. |
| OverloadRecovery.OldestIsMiss | src/d2d/text.rs:92-114 | In every state that draws of any texts lead to from an empty slot, whatever builds or draws fail, the oldest result is a miss. |
| OverloadRecovery.ChangingTextsStayOverloaded | src/d2d/text.rs:75-94 | A slot whose text keeps changing stays overloaded and without a bitmap, because every such draw counts as a miss. |
| OverloadRecovery.SettledAfterNine | src/d2d/text.rs:75-94 | With a threshold of five or more, nine successful draws of the same text leave its bitmap in use for good, from any history. |
| OverloadRecovery.SettledIff | src/d2d/text.rs:75-125 | A bitmap stays in use under repainting if and only if it is there and fewer results of the window than the threshold are misses. |
| OverloadRecovery.SettledStays | src/d2d/text.rs:75-125 | From then on every draw of the text is a hit. |
| OverloadRecovery.NeverSettles | src/d2d/text.rs:75-94 | With a threshold of one to four, nine draws of a few texts lead an empty slot into a state from which repeating the last text never finds its bitmap cached again. |
| OverloadRecovery.DrawnOccurs | src/d2d/text.rs:75-156 | A draw leads from a state that draws reach from an empty slot to another one, whatever fails. |
| OverloadRecovery.RedrawIsDraw | src/d2d/text.rs:75-125 | A draw of the text drawn last that cannot fail is one step of the repaint model in which settling is proved. |
| OverloadRecovery.RenamedDraw | src/d2d/text.rs:75-125 | Which texts are drawn does not matter, only which of them are equal. |
| OverloadRecovery.SettlingThresholds | src/d2d/cache/tracker.rs:112-118 | Repainting settles from every state that draws lead to if and only if the threshold is at least the default of five, although the setting admits one to eight. |
| TextStyle.EffectsMove | src/d2d/text_bitmap.rs:217-224 | Effects drawn on a bitmap and moved are the effects drawn in place. |
| TextStyle.EqualKeysEqualEffects | src/d2d/cache/outline_bitmap.rs:52-95 | Styles and texts with equal bitmap keys have equal effective styles, layouts and effect layers, wherever they are drawn. |
| TextStyle.NoEffectIff | src/d2d/cache/effective_style.rs:19-43 | The effective style has no layer to draw exactly if it has neither an outline nor a shadow. |
| TextStyle.ReferenceLayers | src/d2d/cache/effective_style.rs:19-43 | In terms of the style alone: a shadow is drawn at its offset and in its color exactly if it is enabled and one offset is not zero, around outlines if there are any; each outline exactly if its own size is positive, in its color, the outer one as wide as both; then the text. |
| Renderer.HasEffectsIff | src/d2d/text.rs:55-69 | Effects are drawn exactly if an outline size is positive, or the shadow is enabled and one offset is not zero. |
| TextStyle.OutlineBitmapKey.ToOwnedReusingLayout | src/d2d/cache/outline_bitmap.rs:118-152 | A key built with the strings of a matching layout key is the key itself. |
| TextStyle.LayoutKey.MatchesIgnoringMaxHeight | src/d2d/cache/layout.rs:67-74 | Matching but for the height means equality after taking over the height. |
| Renderer.D2DRenderer.DrawText | src/d2d/text.rs:33-156 | On every path (no effects, bitmap hit, bitmap miss, overload, failed build) a successful draw adds exactly the reference picture and a failed one a prefix of it; caches stay true, other slots untouched, exactly one result is counted, the slot makes one step of the draws in which recovery is studied, and nothing fails of itself. |
| Renderer.D2DRenderer.DrawTextDirect | src/d2d/text.rs:165-244 | Drawing from geometry adds the reference picture, or a prefix of it on a failure. |
| Renderer.D2DRenderer.DrawWithBitmap | src/d2d/text.rs:96-156 | The bitmap path counts a miss exactly if the slot did not hold the bitmap of the key, and leaves that bitmap or none. |
| Renderer.D2DRenderer.DrawOverloaded | src/d2d/text.rs:77-93 | The way around the bitmap drops it, counts by the last key, and still draws the reference picture. |
| Renderer.D2DRenderer.DrawInstead | src/d2d/text.rs:100-114 | A bitmap that cannot be built costs a miss but not the text. |
| Renderer.D2DRenderer.EnsureOutlineBitmap | src/d2d/text_bitmap.rs:89-121 | A hit is reported exactly if the slot holds the bitmap of the key; afterwards it does, and the layout is that of the text. |
| Renderer.D2DRenderer.BuildOutlineBitmap | src/d2d/text_bitmap.rs:128-229 | A new bitmap shows the effects of its key around the origin that its padding sets. |
| Renderer.D2DRenderer.PaintOutlineBitmapLayers | src/d2d/text_bitmap.rs:235-314 | On a fresh bitmap the shadow, the outer and the inner outline are drawn as the reference orders them. |
| Renderer.ComputeOutlineBitmapBounds | src/d2d/text_bitmap.rs:36-65 | The bitmap holds the content with its overhang, the outlines and the shadow in every direction, and is at least one by one. |
| Renderer.D2DRenderer.GetOrCreateLayout | src/d2d/renderer.rs:120-140 | The layout is that of the key, the slot then holds it, and a failure changes nothing. |
| Renderer.D2DRenderer.GetOrCreateOutlineGeometry | src/d2d/renderer.rs:144-187 | The outline belongs to the layout that the slot holds for the key. |
| Renderer.D2DRenderer.GetOrCreateBrush | src/d2d/renderer.rs:95-116 | A brush has the wanted color, cached or new. |
| Renderer.D2DRenderer.InvalidateDeviceCaches | src/d2d/renderer.rs:233-242 | After a device loss all caches and histories are empty. |
| Renderer.D2DRenderer.PruneUnusedSlots | src/d2d/renderer.rs:251-263 | Exactly the slots that are due lose layout, bitmap, history and last key together; all others keep all four. |
| Renderer.D2DRenderer.CountResult | src/d2d/text.rs:117-125 | One result is counted for the slot and its last key is the one drawn. |
| Renderer.D2DRenderer.Repeat | src/d2d/text.rs:75-125 | Any number of reliable draws of the text drawn last takes the slot as many steps through the repaint model. |
| RendererRuns.RunCalls | src/d2d/text.rs:33-156 | After any run of draws, prunes and device losses, whatever fails, every slot is in a state that draws reach from an empty one; the picture is that of the calls unless a draw fails, and none fails of itself. |
| RendererRuns.RunCall | src/d2d/text.rs:33-156 | The same for one call. |
| RendererRuns.DrawNine | src/d2d/text.rs:33-125 | Nine reliable draws of real texts take a fresh slot where the nine draws of the counterexample lead. |
| RendererRuns.NeverCached | src/d2d/text.rs:75-94 | On a renderer with a threshold of one to four, after those nine draws any number of further draws of the last text leaves it without a cached bitmap to use. |
| Renderer.DrawIsDrawn | src/d2d/text.rs:75-156 | Whatever fails, a draw of any text leads its slot from one state to the next as in the model of reachable states. |
| Renderer.D2DRenderer.DrawWithEffects | src/d2d/text.rs:75-156 | The path with effects draws the reference picture, counts one result, and remembers the key if it drew or holds the bitmap. |
| Renderer.D2DRenderer.RepaintNineTimes | src/d2d/text.rs:75-125 | With a threshold of five or more, nine reliable draws of the text drawn last end with its bitmap cached and in use for good. |
| Renderer.D2DRenderer.RepaintTenTimes | src/d2d/text.rs:75-125 | From any state of the slot, ten such draws of any text do. |
| ClipboardWatch.TokensAreDistinct | src/app/commands/clipboard.rs:11-18 | Session tokens are never zero and repeat only after 2^64 - 1 others. |
| ClipboardWatch.App.PauseClipboardCapture | src/app/commands/clipboard.rs:38-52 | The listener is off and the waiting translation cancelled afterwards, or the failure to stop it is reported and nothing changes. |
| ClipboardWatch.App.ResumeClipboardCapture | src/app/commands/clipboard.rs:54-73 | With no reason left, the listener runs exactly if the setting is on, and the setting gives way if it cannot be started; otherwise nothing changes. |
| ClipboardWatch.App.SyncWindowState | src/app/commands/clipboard.rs:76-137 | After any change of the configuration, listener and policy agree again, except for a listener that cannot be stopped while a game is hooked; a save is asked for exactly if the hook or its setting changed, and a waiting translation is cancelled exactly if the hook was installed or the listener stopped. |
| ClipboardWatch.App.SyncListener | src/app/commands/clipboard.rs:101-133 | The listener is started or stopped to agree with the policy, the setting gives way if that fails, and stopping it cancels the waiting translation. |
| ClipboardWatch.App.ApplySettings | src/app/commands/clipboard.rs:76-137 | A preview or a commit keeps the policy whatever the draft says, and if nothing fails, settings, hook and its target, listener, notice, waiting translation and saved settings are those that the draft leads to. |
| ClipboardWatch.App.ApplyClipboardWatch | src/app/commands/clipboard.rs:139-166 | Setting and listener agree after a toggle, also if the listener refuses. |
| ClipboardWatch.App.SetMagneticEnabled | src/app/commands/magnetic.rs:20-57 | Setting and hook agree afterwards in every outcome, the notice shows exactly after a start, a hook installed anew has no target, and the policy holds also if hook, notice or listener fail. |
| ClipboardWatch.App.InstallMagnetic | src/app/commands/magnetic.rs:25-47 | The hook is installed without a target, with its notice shown and the waiting translation cancelled, or it is not installed at all. |
| ClipboardWatch.App.DropMagnetic | src/app/commands/magnetic.rs:48-54 | Hook, target and notice are gone and the policy holds. |
| ClipboardWatch.App.HandleMagneticTargetSelected | src/app/commands/magnetic.rs:69-101 | Selecting a target keeps the policy in every outcome; the hook has a target afterwards or is gone, and the outcome is saved. |
| ClipboardWatch.App.ShowOverlayNotice | src/app/commands/magnetic.rs:107-136 | A notice becomes a reason only if the listener could be stopped. |
| ClipboardWatch.App.ClearOverlayNotice | src/app/commands/magnetic.rs:138-150 | Taking the notice away keeps the policy. |
| ClipboardWatch.App.HandleHookAttached | src/app/hook_text.rs:81-148 | The only handler that goes on when the listener cannot be stopped: an agreement of policy and listener survives exactly if the listener was stopped, which is certain if it was off before or can be stopped. |
| ClipboardWatch.App.HandleHookDetached | src/app/hook_text.rs:163-178 | Detaching brings listener and policy back into full agreement. |
| ClipboardWatch.App.StopHookSession | src/app/commands/dialogs.rs:33-66 | Stopping a session keeps the policy without waiting for the worker. |
| ClipboardWatch.App.OpenSettingsDialog | src/app/commands/dialogs.rs:83-97 | The settings dialog is a reason to pause afterwards exactly if it is shown, unless the listener could not be stopped; then nothing changes. |
| ClipboardWatch.App.OpenSessionDialog | src/app/commands/dialogs.rs:105-201 | Policy kept in every outcome; tokens and windows still agree afterwards if and only if the dialog was not open and busy. |
| ClipboardWatch.App.HandleSessionDialogClosed | src/app/commands/dialogs.rs:144-201 | A token that is not the live one has no effect at all; the live one releases its pause. |
| ClipboardWatch.App.ProcessClose | src/app/commands/dialogs.rs:99-201 | Handling a queued close takes it from the queue and ends exactly the session it names, if the token is the live one; sessions and windows go on agreeing; an open settings dialog keeps its pause if and only if the close is not that of an earlier settings dialog. |
| ClipboardWatch.App.ShowContextMenu | src/app/commands/mod.rs:48-71 | The menu is a nested reason: whatever command runs inside it has its effect, and the policy holds when it is gone. |
| ClipboardWatch.App.CloseEverything | src/app/commands/dialogs.rs:99-201 | After all windows are destroyed, as many close actions as wait end every session and every pause by a dialog; a listener that can be started then runs exactly if the setting is on and neither menu, notice nor hook pauses it. |
| ClipboardWatch.App.RunCommand | src/app/action.rs:142-198 | Every command does what it says (turns a switch over, opens a dialog with its pause, ends the hook session), leaves everything else alone, and keeps policy and sessions. |
| ClipboardWatch.App.HandleClipboardChange | src/app/translation.rs:53-61 | Text is taken only if the setting is on, the listener runs and no reason holds, even if the listener could not be stopped. |
| ClipboardWatch.App.Run | src/app/commands/clipboard.rs:21-166 | With a listener that can be started and stopped, after every run of events it runs exactly if the setting is on and none of the six reasons holds, and an open settings dialog holds its pause exactly if no close of an earlier one was handled since it was shown. |
| ClipboardWatch.App.RunWithFailures | src/app/commands/clipboard.rs:21-166 | Whatever fails, as long as no open dialog is busy: every open session dialog keeps its pause, every closed one releases it, an open settings dialog holds its pause exactly if no close of an earlier one was handled since, and the listener is right except while a game is hooked. |
| ClipboardWatch.App.QuietMeansResumed | src/app/commands/dialogs.rs:144-201 | With no dialog open and no close pending, no session pauses the capture. |
| ClipboardWatch.LeakedPause | src/app/commands/dialogs.rs:104-150 | A run in which a busy dialog is opened again: its close is ignored and the capture stays paused with no dialog left. |
| ClipboardWatch.StaleSettingsClose | src/app/commands/dialogs.rs:83-102 | A run, without any failure, after which a settings dialog is open without its pause and, if nothing else pauses it, the listener runs: the close of an earlier one was handled since; it has no token. |
| ActionQueue.App.ProcessActions | src/app/action.rs:108-140 | After a delivery, whatever the effects write to the model and whatever is submitted meanwhile, the model is what all submitted actions lead to in their order, each with what its effects wrote behind it; waiting actions have a notification on its way. If nothing is submitted meanwhile, the queue is shorter by 32 or empty. |
| ActionQueue.App.ProcessOne | src/app/action.rs:109-133 | One action is taken and applied; the superseded previews that it stands for leave no trace in the reducer. |
| ActionQueue.App.RunEffects | src/app/action.rs:142-198 | Effects run in order; they write nothing but the settings of the listener and the magnetic hook and the end of a hook session, only if one of them may, and hotkeys are registered exactly if asked for. |
| ActionQueue.App.RunTurns | src/app/action.rs:29-140 | Over any run of submissions, previews, deliveries and other events, the model is always what they lead to, waiting actions are always going to be delivered, and the registered hotkeys are the configured ones. |
| ActionQueue.App.DeliverAll | src/app/action.rs:108-140 | Once nothing more is submitted, the notifications on their way empty the queue, with one delivery per 32 waiting actions at most, and every submitted action has been applied. |
| ActionQueue.BlockFolds | src/app/action.rs:114-130 | Superseded previews and the one that stands for them reduce to that one alone. |
| ActionQueue.BlockHappened | src/app/action.rs:108-133 | Applying the queued action extends the history by all the actions it stands for, in order. |
| ActionQueue.RunOfActions | src/app/state.rs:322-436 | With nothing but actions, the history is the fold of the reducer. |
| ActionQueue.App.NextAction | src/app/action.rs:110-130 | Taking an action and dropping superseded previews leaves the fold of the queue unchanged and accounts for every submitted action. |
| ActionQueue.AppActionSender.Preview | src/app/action.rs:41-53 | Replacing a waiting preview leaves the fold of the queue as if the new one had been appended, with a notification only if none was on its way for it. |
| ActionQueue.App.Send | src/app/action.rs:29-35 | An action is appended with its own notification. |
| ActionQueue.App.Preview | src/app/action.rs:41-53 | Coalescing keeps the queue faithful and its wake-up. |
| ActionQueue.PreviewAbsorbs | src/app/state.rs:325-347 | A preview leaves no trace in the model once another preview follows. |
| ActionQueue.CoalesceAtBack | src/app/action.rs:41-53 | In any queue, a preview at the end may be replaced by the next one. |
| ActionQueue.CoalesceAtFront | src/app/action.rs:114-130 | A preview in front of another one may be dropped. |
| ActionQueue.HotkeysFollow | src/app/state.rs:322-436 | Hotkeys are registered again exactly if an action changes them. |
| ActionQueue.CommitAfterPreviews | src/app/state.rs:334-375 | After any number of previews, a commit registers hotkeys again if and only if its hotkeys differ from those before the previews. |
| ActionQueue.App.Apply | src/app/action.rs:142-198 | The registered hotkeys follow the configuration. |
| ActionQueue.DraftsOverwriteNothing | src/app/state.rs:325-376 | Over any sequence of actions, window moves and hook connections, leaving out every preview and commit changes nothing in update time, hook settings with their profiles, both routes, window placement, session, merger and backlog, however old the drafts are. |
| ModelFields.LastWriterWins | src/app/state.rs:322-480 | Every field of the model ends as the last event that writes it left it, unless later ones turn it: drafts write what the dialog edits, and nothing else. |
| ModelFields.EventWrites | src/app/state.rs:322-480 | Every event writes exactly the fields that are its own: switches are turned over, sizes go up and down by one between 6 and 100 together, profiles are saved for a session, the backlog is emptied, all others stay. |
| ModelFields.TogglesCount | src/app/state.rs:438-470 | Of the commands that turn a switch over only their parity matters. |
| ModelFields.DraftTakesEffect | src/app/state.rs:325-376 | After a commit the configuration is the draft but for what the dialog does not edit, after a preview also but for the hotkeys. |
| ModelFields.ChangesAreSaved | src/app/state.rs:334-436 | Whatever an action changes in update time, hook settings and routes is saved, and so is every commit; drafts are shown. |
| ModelFields.CommandsPassOn | src/app/state.rs:438-470 | A switch that a command changed is passed on with its new value. |
| ModelFields.PassedOn | src/app/state.rs:378-480 | What only asks for an effect asks for exactly that one and changes nothing. |
| ModelFields.SameNameIff | src/config/hook.rs:125-129 | Names of games are compared without regard to the case of the letters A to Z. |
| ModelFields.SameGameIff | src/config/hook.rs:122-130 | A saved profile is of the same game if both have the same digest, or their process names agree but for the case of letters. |
| ModelFields.CommandsRepaint | src/app/state.rs:438-480 | A command that changes background, border or sizes asks for a repaint. |
| ModelFields.SilentEffects | src/app/action.rs:142-198 | Painting, saving, window flags, hotkeys, the cache, closing and updates write nothing to the model. |
| ModelFields.FieldsAreAll | src/app/state.rs:322-480 | The fields are the whole model. |
| PreviewEffects.SkippedPreviewsIff | src/app/commands/clipboard.rs:76-137 | With the effects included (listener, magnetic hook and its target, notice, waiting translation, saved configuration), the previews in front of another may be skipped if and only if, first, none of them switches the magnetic mode, or the last preview leaves it switched with the same configuration to be saved, or leaves it as it was while a notice without a target shows and that configuration is saved already, and, second, they neither switch it on nor stop the listener where a translation waits that the last preview alone spares. |
| PreviewEffects.SwitchAfter | src/app/commands/clipboard.rs:83-94 | After any previews the notice is that of a fresh switch and the target lost exactly if some preview switched the magnetic mode. |
| PreviewEffects.SavedAfter | src/app/commands/clipboard.rs:93-98 | After any previews the configuration saved last is that of the last preview that switched the magnetic mode. |
| PreviewEffects.PendingAfter | src/app/commands/clipboard.rs:110-133 | A translation that waits survives any previews exactly if none of them switches the magnetic mode on or stops the listener. |
| PreviewEffects.ShowDrafts | src/app/commands/clipboard.rs:76-137 | The application, applying the drafts one after the other, comes to the same policy and the same saved settings. |
| PreviewEffects.SkippingChangesTheSave | src/app/commands/clipboard.rs:93-98 | Two previews, one after the other, save the first configuration; skipping the first saves the second. |
| PreviewEffects.SkippingKeepsTheTarget | src/app/commands/magnetic.rs:20-57 | A preview that switches the magnetic mode off for a moment loses the target; skipping it keeps it. |
| PreviewEffects.SkippingKeepsTheTranslation | src/app/commands/clipboard.rs:120-122 | A preview that switches the listener off for a moment cancels the waiting translation; skipping it does not. |
| ActionQueue.MergerFollowsConfig | src/app/state.rs:405-417 | Over any sequence of events the merge window in use is the configured one. |
| ActionQueue.SaveProfile | src/config/hook.rs:122-136 | The new profile is last, and in front of it stand the newest profiles of other games in their order, as many as 64 profiles allow. |
| ActionQueue.OtherGamesInOrder | src/config/hook.rs:122-130 | Exactly the profiles of other games stay, in their order. |
| RollingLog.RollingLogWriter.Rotate | src/logging.rs:48-73 | Every generation moves up by one and an empty file starts, for certain exactly if no existing generation is held open; after a failure at any step no file is open, and the archive is still a suffix of everything accepted. |
| RollingLog.RollingLogWriter.Write | src/logging.rs:77-91 | For every failure and short write, the archive stays a suffix of what was found and accepted, no file that the writer started exceeds the limit, and the data lands in one file. If nothing but held files fails, the data is accepted if and only if it needs a new file and no generation is held, or it fits and the writer is open. |
| RollingLog.ClosedWriter | src/logging.rs:77-91 | A run in which the current file is held when it has to be rotated, then a buffer that fits is refused, also after the file was let go, and one that does not fit is accepted again. |
| RollingLog.NewFileIff | src/logging.rs:78-80 | A rotation is due exactly if the file is not empty and has less room than the buffer needs. |
| RollingLog.RotatedContents | src/logging.rs:48-73 | After a rotation every generation has the bytes of the one before it, and the current file is empty. |
| RollingLog.OneFileContents | src/logging.rs:77-91 | Data that went into one file stands behind the old content of the current file, or alone in a new one, and every older file is as it was or moved up by one. |
| RollingLog.StopSplits | src/logging.rs:176-184 | What is written are the lines in front of the first empty one, what is left those behind it. |
| RollingLog.RollingLogWriter.WriteBatch | src/logging.rs:187-193 | The loop ends and puts a batch no longer than the limit into one file, even over short writes; on a sound disk everything is accepted if the writer is open or the batch needs a new file, and nothing otherwise. |
| RollingLog.RollingLogWriter.Open | src/logging.rs:30-42 | The limit is at least one, and the length is that of the found file or zero if it cannot be read. |
| RollingLog.GatherBatch | src/logging.rs:176-184 | A batch is the next lines in order, no line is added once 64 KiB are there, and the stop signal is taken exactly once. |
| RollingLog.RunLogThread | src/logging.rs:168-199 | On a sound disk the thread writes exactly the lines in front of the stop signal, however they were batched. |
| Postprocess.FindIsLeftmost | src/translation/postprocess.rs:69-69 | A match starts as early as any source occurs and is the longest there, the first in the dictionary among equals. |
| Postprocess.NewMatcher | src/translation/postprocess.rs:22-53 | Patterns are the non-empty sources in dictionary order; there is no matcher exactly if there are none or the automaton cannot be built. |
| Postprocess.Apply | src/translation/postprocess.rs:60-80 | The loop terminates and its output is the reference rewrite, place by place from the left. |
| Postprocess.OnePass | src/translation/postprocess.rs:55-80 | The text falls into kept characters and sources chosen where they stand in the text; only the sources are exchanged, so no replacement is scanned again. |
| Postprocess.RewriteToMatch | src/translation/postprocess.rs:69-76 | Up to the next match the reference keeps the text, replaces the match and goes on behind it. |
| Postprocess.NoSourcesNoChange | src/translation/postprocess.rs:34-36 | A dictionary without sources changes nothing, so skipping the matcher is right. |
| Postprocess.FindEncoded | src/translation/postprocess.rs:68-76 | Searching bytes finds what searching characters finds: matches begin and end between characters, so slicing there never fails. |
| Postprocess.RewriteEncoded | src/translation/postprocess.rs:60-80 | Rewriting the bytes of a text is rewriting its characters. |
| ClipboardText.CharsAndUnits | src/clipboard.rs:232-236 | For every buffer, damaged or not, the lossy decoder yields c characters from u units with c <= u <= 2c. |
| ClipboardText.DecodeInvertsEncode | src/clipboard.rs:308-308 | Properly encoded text comes back unchanged (section 2.2 of RFC 2781). |
| ClipboardText.GetText | src/clipboard.rs:286-317 | At most 2 * max + 1 units are looked at, and the answer is the one an unbounded scan would give, or that the text is surely too long. |
| ClipboardText.AcceptClipboardText | src/app/translation.rs:85-96 | Bounded scan and length check accept exactly the texts that an unbounded scan accepts, with the same decoding. |
| ClipboardText.BoundIsTight | src/clipboard.rs:51-57 | The bound cannot be lower: 2 * max units may decode to max characters. |
| ClipboardText.DecodeStep | src/clipboard.rs:308-308 | Unit by unit: a pair is one character, a surrogate alone becomes U+FFFD and takes nothing with it. |
| Backlog.BacklogStore.Push | src/app/backlog.rs:71-89 | The store becomes the longest rest of history and new entry that fits, the byte count stays exact, the new entry is kept, and the flag says whether anything was dropped. |
| Backlog.SuffixFits | src/app/backlog.rs:76-88 | A history that fits goes on fitting when more of its front is dropped. |
| Backlog.LongestRestIsUnique | src/app/backlog.rs:76-88 | Only one rest of a history is the longest that fits. |
| Backlog.EvictionComposes | src/app/backlog.rs:71-89 | Evicting at every push keeps what evicting once at the end would keep. |
| Backlog.PushAll | src/app/backlog.rs:71-89 | After any run of pushes the store holds the longest fitting rest of everything pushed. |
| Backlog.FitsIff | src/app/backlog.rs:76-88 | The bounds in numbers: 1,000 entries, and 4 MiB of names, originals and translations together unless there is only one entry. |
| TranslationCache.TranslationCacheStore.AdmitPut | src/app/translation_cache.rs:290-296 | A put passes both gates exactly in the states the protocol allows, and for certain with both flags down. |
| TranslationCache.TranslationCacheStore.StorePut | src/app/translation_cache.rs:297-317 | An admitted put reaches memory first and then the queue, with the writer running in between. |
| TranslationCache.TranslationCacheStore.WipeAndSend | src/app/translation_cache.rs:348-367 | Memory is emptied and the Clear queued, with the writer running in between. |
| TranslationCache.TranslationCacheStore.TakeCommand | src/app/translation_cache.rs:416-446 | Taking a command is one step of the protocol. |
| TranslationCache.TranslationCacheStore.StartSweep | src/app/translation_cache.rs:447-463 | Deleting all rows, or the aged ones, is one step of the protocol. |
| TranslationCache.TranslationCacheStore.ContinuePrune | src/app/translation_cache.rs:462-469 | Capping the table, reloading memory and lowering the flag are single steps, in this order. |
| TranslationCache.TranslationCacheStore.ContinueClear | src/app/translation_cache.rs:447-454 | Emptying memory and lowering the flag are single steps, in this order. |
| TranslationCache.TranslationCacheStore.WriterRuns | src/app/translation_cache.rs:397-480 | Any number of writer steps keeps the state reachable and never raises a flag. |
| FileLines.LineChunk | src/file_trans/input.rs:200-203 | The part of a buffer that belongs to the current line. |
| FileLines.BufReader.Consume | src/file_trans/input.rs:212-212 | Consuming removes exactly that many bytes from the front of what is unread. |
| FileLines.BufReader.FillBuf | src/file_trans/input.rs:191-199 | The buffer is empty only at the end of the file, and a failed read is told apart from it. |
| FileLines.SplitEnding | src/file_trans/input.rs:221-229 | Text bytes and ending put together are the raw line. |
| EzTransWindow.StoreMisses | src/file_trans/eztrans.rs:88-90 | Afterwards the cache holds old entries and new pairs only, whatever it refuses or drops. |
| EzTransWindow.FillUntranslated | src/file_trans/eztrans.rs:91-106 | Each line resolves to its cached text, to the answer for its miss, or to itself. |
| EzTransWindow.BoundedTranslationCache.Get | src/file_trans/eztrans.rs:29-31 | The cached translation of a text, if there is one. |
| EzTransWindow.BoundedTranslationCache.Insert | src/file_trans/eztrans.rs:33-35 | The cache afterwards holds nothing but old entries and the new pair. |
| EzTransWindow.Misses | src/file_trans/eztrans.rs:49-66 | The uncached texts to be translated, each exactly once. |
| FilePipeline.ProcessWindows | src/file_trans/pipeline/batch.rs:35-62 | All windows together contribute the rendering of all remaining lines, for a pool that may answer the same batches differently from call to call; if nothing fails they end exactly if the file can be read to its end. |
| OutputPaths.CollectKeys | src/file_trans/mod.rs:144-147 | The keys of all inputs, or nothing exactly if some input path is empty. |
| ProgressDrain.FileTranslationTask.TryRecv | src/file_trans/supervisor.rs:53-55 | The oldest event is received, whatever arrives meanwhile; nothing only if nothing is there. |
| CacheTrackers.MissTracker.LastKey | src/d2d/cache/tracker.rs:87-89 | The last key of the slot. |
| CacheTrackers.MissTracker.SetLastKey | src/d2d/cache/tracker.rs:92-98 | Only the last key of the slot changes. |
| CacheTrackers.MissTracker.constructor | src/d2d/cache/tracker.rs:77-84 | All slots start without history; a setting outside one to eight counts as the default. |
| CacheTrackers.UnusedSlotTracker.constructor | src/d2d/cache/tracker.rs:21-25 | All slots start without history. |
| Renderer.D2DRenderer.DrawPlain | src/d2d/text.rs:55-69 | Without effects only the text is drawn. |
| Renderer.D2DRenderer.PaintBitmap | src/d2d/text.rs:130-153 | A bitmap put where its padding asks for it, and the text over it, are the reference picture. |
| Renderer.D2DRenderer.DrawShadow | src/d2d/text.rs:206-220 | The shadow of outline and text, or nothing. |
| Renderer.D2DRenderer.DrawOutlines | src/d2d/text.rs:222-232 | The outer outline under the inner one, or the first of them. |
| Renderer.D2DRenderer.StrokeFillOutlineAt | src/d2d/text.rs:248-281 | Geometry stroked twice as wide as the outline is thick and filled, at the given place; the transform is the identity again. |
| Renderer.D2DRenderer.DrawOutlineOnly | src/d2d/text_bitmap.rs:318-345 | The same for a bitmap target, with the geometry of the text. |
| Renderer.D2DRenderer.PaintBitmapShadow | src/d2d/text_bitmap.rs:248-275 | The shadow on a bitmap target, as in the reference. |
| Renderer.D2DRenderer.CreateTextLayoutUncached | src/d2d/renderer.rs:190-229 | The layout that text, style and box ask for. |
| ClipboardWatch.ClipboardWatcher.Start | src/clipboard.rs:144-159 | Starting is idempotent; it listens afterwards exactly if it did before or the registration succeeded. |
| ClipboardWatch.ClipboardWatcher.Stop | src/clipboard.rs:161-171 | Stopping is idempotent; it goes on listening exactly if it could not be unregistered. |
| ClipboardWatch.App.ClipboardCapturePaused | src/app/commands/clipboard.rs:21-30 | Paused means that at least one of the six reasons holds. |
| ClipboardWatch.App.StartRuntime | src/app/lifecycle.rs:357-370 | After start-up listener and policy agree. |
| ClipboardWatch.App.ApplyMagneticRequest | src/app/commands/magnetic.rs:59-67 | Setting and hook agree afterwards, and the policy holds. |
| ClipboardWatch.App.HandleMagneticNoticeTimer | src/app/commands/magnetic.rs:103-105 | The notice is gone and the policy holds. |
| ClipboardWatch.App.HandleSettingsDialogClosed | src/app/commands/dialogs.rs:99-102 | The settings reason is gone and the policy holds. |
| ClipboardWatch.App.CurrentSession | src/dialogs/host.rs:274-285 | The token of an open dialog, and nothing while its state is borrowed. |
| ClipboardWatch.App.ShowDialog | src/dialogs/host.rs:187-258 | An open dialog is only brought to the front and keeps its own token. |
| ClipboardWatch.App.ReopenSession | src/app/commands/dialogs.rs:106-119 | Reopening a dialog that is not busy keeps its session. |
| ClipboardWatch.App.OpenNewSession | src/app/commands/dialogs.rs:120-141 | A new dialog holds a new token while the listener is off, or there is neither. |
| ClipboardWatch.App.DestroyDialog | src/dialogs/translate/mod.rs:151-153 | A destroyed dialog leaves the close of its token in the queue. |
| ClipboardWatch.App.HandleEvent | src/app/commands/clipboard.rs:21-166 | Every event does what it says, leaves alone what is not its own, and keeps policy and sessions. |
| ActionQueue.App.OthersSubmit | src/app/action.rs:29-53 | What dialogs submit while effects run keeps the queue faithful. |
| ActionQueue.PreviewsKeepHotkeys | src/app/state.rs:326-347 | Previews never change the hotkeys. |
| RollingLog.LogDirectory.Append | src/logging.rs:83-88 | The current file grows by the part that the system took. |
| Backlog.BacklogStore.Clear | src/app/backlog.rs:91-94 | The store is empty and counts nothing. |
| Backlog.KeptFrom | src/app/backlog.rs:76-88 | The first place from which a history fits. |

## Left out

- Weak memory: the atomic flags and the lock are sequentially consistent steps.
- Failing SQL statements, and a cache writer that cannot open its own connection.
- CacheProtocol.MemoryIsReplay: does not speak about the moment between the memory insert and the send of one put, where memory is one text ahead of the queue.
- Saturating arithmetic where only sums beyond 2^64 would reach it (byte counts, character counts, the text size of the backlog, the log length).
- Strings are sequences of Unicode scalar values; paths that are not valid Unicode are converted with loss before they are compared, which is not modelled.
- Drive-relative and device paths, and what the system call behind `std::path::absolute` changes besides joining the working directory.
- OutputPaths.DefaultsPassTheCheck: assumes that the file system identifies a default output with an input or another output only if their names agree; a symbolic link can make the job check refuse a default name.
- HTTP engines: the batches of `collect_http_batch` and the concurrent `translate_lines`.
- The names and positions of files inside a job, progress reporting of the pipeline, and cancellation of a running translation request.
- The worker registry of the file supervisor and its bounded join at shutdown.
- Float rounding and clipping in the renderer: coordinates are reals, a bitmap is the list of its layers, and the height cap of a bitmap is not applied to them.
- Antialiasing, DPI, measuring, hit testing and the composition of a frame.
- Destroying the main window, after which the listener is off whatever the setting says.
- Visibility, topmost and click-through of the overlay window. A waiting translation is a flag; its delay, its retries and the hooked sentences that share it are not modelled.
- PreviewEffects.SkippedPreviewsIff: speaks about effects that succeed, and not about the paint of every preview, which the miss counts of the renderer remember.
- Posting a message is assumed to succeed.
- Lines that the log drops because its queue is full, and the time limit when it is stopped.
- ClipboardText.GetText: does not model opening and locking the clipboard, its errors, or the retries by sequence number.
- The Aho-Corasick automaton is its specification: leftmost, longest, first in the dictionary.
- Queueing and joining of hooked sentences, the text merger, rendering and export of the backlog, label tables and default values: they would only add easy members.
