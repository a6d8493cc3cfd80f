# Verified model of the LMmaster gateway's streaming and text code

The project models, in Dafny, the parts of the gateway that carry real algorithms, and proves what they are for. Each
loop or object of the program is a method or a class here, proved against a specification function; the theorems are
lemmas about those functions, over every input and every run.  What an operation means is told a second time without
its function, from the way its input is built (the `...Rules` modules, `SseFields`, `SseRewrite.ReceiverReads`,
`Ingest.RowByRow`), so that no step of a function rests on itself.

| module | models |
|---|---|
| `Text`, `LineStream` | trimming, joining, searching; byte streams cut into lines |
| `SseCodec`, `SseSegments`, `SseRoundTrip` | the buffered event-stream parser, its dependence on segmentation, the printer as its inverse |
| `SseResults`, `SseFields` | when the events themselves do not depend on segmentation; what an event is, from the lines of its frame |
| `SseRewrite` | the pipeline chain applied to a streamed response |
| `Normalize`, `Chunker`, `ChunkRules`, `ChunkShape`, `ChunkCover`, `ChunkOffsets` | the Korean-aware chunker: normalisation, the rules of cutting, sizes, conservation of text, exactness of offsets |
| `Downloader`, `DownloadRules` | the resumable download: retries, resumption, hash, rename; every way an attempt can end |
| `Ingest`, `DatasetWriter` | rows to chunks to embedding batches to a channel to insert batches |
| `Gateway` | the middleware as interleaved steps of any number of requests, chain swaps and audit receives |
| `ChatStream`, `ChatRules`, `ModelPull`, `PullRules` | the runtime adapters' chat streams and the model pull, and what their lines mean |
| `KeyManager`, `Glob` | the key table, verification and the scope patterns |
| `SafePath` | the lexical path check of archive extraction |

What cannot be seen or does not matter is a parameter: JSON decoding and encoding, SHA-256, argon2, the pipelines, the
text splitter, the embedder, the server, and every failure of network, disk and database. Text is a sequence of
characters; where the program works on bytes (lines, keys, patterns) a character stands for a byte.

Claims that look obvious and are false of the code are stated as lemmas with an input, next to the exact condition
under which the claim holds:

- the parser's frames do not depend on segmentation if and only if no `\n\n` comes after a `\r\n\r\n`
  (`SegmentationExact`, `MixedSeparatorsDiffer`), and its events do not if and only if no frame ended by `\n\n` has
  text on both sides of a `\r\n\r\n` (`EventsExact`);
- a printed chunk list reads back if and only if no chunk holds a line feed, or a trailing carriage return in its
  event or id (`RoundTripExact`);
- normalising is idempotent if and only if no gap holds two blocks of newlines (`IdempotentExact`);
- the offsets of grouped sentences are exact, with an overlap, if and only if every mark is followed by white space
  or the end of the paragraph; without one, if and only if the groups break just where a sentence follows an open
  mark, so that with closed marks one group is all there may be (`GroupOffsetsExact`, `OpenMarkDrifts`);
- the running hash is the hash of the `.partial` file if and only if the metadata of a non-empty one could be read
  (`HasherAgrees`, `UnseenPartialArrives`);
- a download whose attempt meets no failure completes if and only if the `.partial` is not already the whole resource,
  or that is empty, and the expected hash is the resource's (`AttemptCompletes`, `CompletionExact`); a whole one is
  stuck, because the server refuses the range behind its end (`CompletePartialIsStuck`), unless the server ignores
  ranges (`RangelessCompletes`);
- a revoked key is reported as invalid, never as revoked, although the outcome exists (`RevokedIsInvalid`).

## Model

| member | source | states |
|---|---|---|
| SseCodec.SseChunkParser.Parse | crates/core-gateway/src/sse_chunk.rs:109-122 | After each call, consumed frames with their separators and the buffer together are the input so far, the buffer holds no separator, and the results are those of the frames taken now |
| SseCodec.SseChunkParser.DrainComplete | crates/core-gateway/src/sse_chunk.rs:128-151 | Takes out all complete frames, `\n\n` before `\r\n\r\n`, skips blank ones, and leaves the unfinished rest |
| SseCodec.SseChunkParser.Flush | crates/core-gateway/src/sse_chunk.rs:157-163 | The rest becomes one last frame unless blank; the buffer is empty and nothing is lost |
| SseCodec.ParseEvent | crates/core-gateway/src/sse_chunk.rs:172-209 | The event is the last event and id value and all data values joined by line feeds; without data it is an error |
| SseFields.FrameTells | crates/core-gateway/src/sse_chunk.rs:172-209 | For a frame given by how its lines are written (`name: value`, `name:value`, a bare name, a comment, nothing; ended by LF or CRLF): event and id are the last ones given, the data are all those given joined by line feeds, other names have no effect, and without data there is no event |
| SseFields.EveryFrame | crates/core-gateway/src/sse_chunk.rs:173-192 | Every frame is written in this way |
| SseCodec.SplitField | crates/core-gateway/src/sse_chunk.rs:177-192 | A line's field: none for comments, name up to the first colon, one leading space of the value stripped |
| SseCodec.ReadLines | crates/core-gateway/src/sse_chunk.rs:173-202 | After any number of lines the locals hold the last event, all data and the last id so far |
| SseCodec.CutConserves | crates/core-gateway/src/sse_chunk.rs:128-151 | Cutting at separators loses no character and leaves no separator behind |
| SseSegments.ParseStream | crates/core-gateway/src/sse_chunk.rs:109-163 | One parse per segment and a final flush, on one parser object, yield the results that the cutting function predicts |
| SseSegments.CutInTwo | crates/core-gateway/src/sse_chunk.rs:128-151 | Cutting a stream at once is cutting its first part, then the rest of that with its second part |
| SseSegments.CutDiverges | crates/core-gateway/src/sse_chunk.rs:132-141 | A `\n\n` after the `\r\n\r\n` that ends a segment makes the boundary of the segment visible in the frames |
| SseSegments.SegmentationExact | crates/core-gateway/src/sse_chunk.rs:109-163 | Frames and rest are the same for every segmentation if and only if no `\n\n` comes after a `\r\n\r\n` |
| SseSegments.ResultsIgnoreSegments | crates/core-gateway/src/sse_chunk.rs:109-163 | For such a stream all parse and flush results together equal those of one parse of the whole |
| SseSegments.MixedSeparatorsDiffer | crates/core-gateway/src/sse_chunk.rs:132-141 | A concrete stream with the separators in the other order gives one event whole and two when cut |
| SseResults.EventsExact | crates/core-gateway/src/sse_chunk.rs:109-163 | The parse and flush results are the same for every segmentation if and only if no frame that `\n\n` ends has text that is not blank on both sides of a `\r\n\r\n` |
| SseResults.CalmAgrees | crates/core-gateway/src/sse_chunk.rs:109-163 | Such a stream may be cut in two anywhere: the events stay the same though frames may differ, and what is left over begins such a stream again |
| SseResults.NotCalmTellsMore | crates/core-gateway/src/sse_chunk.rs:109-163 | Any other stream can be cut in two so that it tells more events than as a whole |
| SseRoundTrip.Serialize | crates/core-gateway/src/sse_chunk.rs:47-63 | Prints event, id and data lines, the first two only when present, and a blank line |
| SseRoundTrip.WireForm | crates/core-gateway/src/sse_chunk.rs:47-63 | The printed text: event line, id line, data line, blank line, in this order |
| SseRoundTrip.ReadBack | crates/core-gateway/src/sse_chunk.rs:47-63 | The frame of a chunk without line feeds reads back as that chunk, event and id losing one trailing carriage return; leading spaces and empty fields survive |
| SseRoundTrip.RoundTrip | crates/core-gateway/src/sse_chunk.rs:47-63 | Any list of clean chunks, printed and parsed under any segmentation, comes back as exactly that list |
| SseRoundTrip.RoundTripExact | crates/core-gateway/src/sse_chunk.rs:47-63 | A list comes back if and only if every chunk in it is clean |
| SseRewrite.HandleChunk | crates/core-gateway/src/pipeline_layer.rs:462-520 | What is printed for one chunk, whether its value changed, and what the chain said of it |
| SseRewrite.RewriteChunks | crates/core-gateway/src/pipeline_layer.rs:445-535 | The loop over parse results answers with the first refusal's envelope, the untouched input, or the printed chunks |
| SseRewrite.ProcessSseResponse | crates/core-gateway/src/pipeline_layer.rs:413-541 | The whole rewrite for an arbitrary state-threading chain: an envelope exactly for the first refusal, the input itself when nothing changed, else one printed chunk for each well-formed chunk in order |
| SseRewrite.ReceiverReads | crates/core-gateway/src/pipeline_layer.rs:445-541 | For states threaded through the chain by hand: if nothing is refused, the response is the input unless a value is altered; then the receiver's i-th event carries the encoding of the new value where the chain altered it, with event and id kept, and is the i-th event of the input otherwise |
| SseRewrite.RefusalIsTold | crates/core-gateway/src/pipeline_layer.rs:462-500 | The first chunk the chain refuses, at the state threaded so far, makes the envelope |
| SseRewrite.UnchangedIsIdentical | crates/core-gateway/src/pipeline_layer.rs:525-533 | A chain that changes no value leaves the response byte for byte as it was |
| SseRewrite.ChangedIsReadable | crates/core-gateway/src/pipeline_layer.rs:446-541 | The receiver of a changed response parses exactly the chunks sent, in order, if and only if these are clean |
| SseRewrite.SentIsClean | crates/core-gateway/src/pipeline_layer.rs:462-520 | A clean chunk with a one-line new value is sent on clean, event and id kept; done markers and non-JSON data are untouched |
| Normalize.NormalizeKorean | crates/knowledge-stack/src/chunker.rs:28-62 | The one-pass loop with its saturating newline counter and its pop of a pending space reshapes every white run and trims |
| Normalize.TakeNewline | crates/knowledge-stack/src/chunker.rs:36-49 | One more newline: the text built so far becomes that of the longer input, the break flag says whether the block has two |
| Normalize.TakeSpace | crates/knowledge-stack/src/chunker.rs:50-56 | One more other white character, likewise |
| Normalize.NormalizedWeave | crates/knowledge-stack/src/chunker.rs:27-62 | Words are kept in order; a gap becomes one space without a block of newlines and one `\n\n` for each block; both ends are stripped |
| Normalize.NormalizedSpace | crates/knowledge-stack/src/chunker.rs:28-62 | A blank text becomes empty |
| Normalize.GapBecomes | crates/knowledge-stack/src/chunker.rs:36-56 | The blocks of a gap, counted by the places where two or more newlines begin, decide what it becomes |
| Normalize.Unweave | crates/knowledge-stack/src/chunker.rs:28-62 | Every text that is not blank is such a weave of words and gaps, so the statement covers all texts |
| Normalize.IdempotentExact | crates/knowledge-stack/src/chunker.rs:28-62 | A second normalisation changes nothing if and only if no gap has more than one block |
| Normalize.SettlesAtTwo | crates/knowledge-stack/src/chunker.rs:28-62 | From the second application on every text is a fixpoint |
| Chunker.ChunkText | crates/knowledge-stack/src/chunker.rs:77-138 | The paragraph loop yields the chunks of all paragraphs at their true offsets: the search for a paragraph always lands on the cursor |
| Chunker.PushChunk | crates/knowledge-stack/src/chunker.rs:140-151 | Adds trimmed content, or nothing for a blank text |
| Chunker.FindCharIndex | crates/knowledge-stack/src/chunker.rs:154-174 | The first occurrence at or after a place, or none if there is none |
| Chunker.SplitSentences | crates/knowledge-stack/src/chunker.rs:177-212 | The sentences between boundaries: after every mark, and after the endings before white space or the end |
| Chunker.SentencesInk | crates/knowledge-stack/src/chunker.rs:177-212 | The sentences together hold all non-white characters of the text, in order |
| ChunkRules.SentencesEnd | crates/knowledge-stack/src/chunker.rs:177-212 | No sentence holds, before its last character, a mark, or one of the two endings before white space; every sentence but the last ends with a mark or such an ending |
| Chunker.GroupSentences | crates/knowledge-stack/src/chunker.rs:215-249 | Greedy groups with the tail of the last group carried over, start and cursor as the program tracks them |
| Chunker.AddSentence | crates/knowledge-stack/src/chunker.rs:234-242 | Appends a sentence after a space if one is missing, and moves start and cursor |
| ChunkRules.GroupsAreGreedy | crates/knowledge-stack/src/chunker.rs:215-249 | The sentences fall into runs; each group is the last `overlap` characters of the group before and its run, joined by spaces; every sentence of a run fitted and the first of the next run did not; the group begins where its tail lies |
| Chunker.CharWindow | crates/knowledge-stack/src/chunker.rs:253-274 | The sliding window ends for every overlap and yields one chunk for each window that is not blank |
| ChunkRules.WindowsAreSeen | crates/knowledge-stack/src/chunker.rs:253-274 | Windows begin at the multiples of the stride until one reaches the end; the chunks are the trimmed texts of those that are not blank, with their offsets, none left out |
| Chunker.ResizeChunks | crates/knowledge-stack/src/chunker.rs:109-119 | Groups beyond `target + max(overlap, 1)` are cut into windows, others kept |
| ChunkRules.ResizedOne | crates/knowledge-stack/src/chunker.rs:109-119 | A group of at most `target + max(overlap, 1)` characters stays as it is, a longer one becomes its windows |
| Chunker.PlaceChunks | crates/knowledge-stack/src/chunker.rs:121-128 | Offsets move to the paragraph, and the end is clamped to it |
| ChunkRules.PlacedAt | crates/knowledge-stack/src/chunker.rs:121-128 | Each chunk keeps its content, moves by the paragraph's offset, and ends no later than the paragraph |
| ChunkRules.ShortParagraph | crates/knowledge-stack/src/chunker.rs:103-105 | A paragraph within the target size that is not blank is one chunk |
| ChunkRules.LongParagraph | crates/knowledge-stack/src/chunker.rs:106-129 | A longer one is cut into sentences, greedy groups and resized chunks, in this order |
| Chunker.ParagraphsJoin | crates/knowledge-stack/src/chunker.rs:90 | The paragraphs joined by `\n\n` are the text |
| Chunker.OffsetIsExact | crates/knowledge-stack/src/chunker.rs:92-97 | The running sum of lengths is where the paragraph really lies |
| ChunkShape.ChunksFit | crates/knowledge-stack/src/chunker.rs:77-151 | Every chunk of every text is non-empty, trimmed and at most `target + max(overlap, 1)` long |
| ChunkShape.WindowsCoverText | crates/knowledge-stack/src/chunker.rs:253-274 | Windows start at the first character, end at the last, leave no gap, and neighbours share exactly `min(overlap, target - 1)` characters, also for an overlap not below the target |
| ChunkCover.NormalizedKeepsInk | crates/knowledge-stack/src/chunker.rs:28-62 | Normalising touches white space only |
| ChunkCover.ChunksCover | crates/knowledge-stack/src/chunker.rs:77-138 | Without white space every chunk is a block of the text; the blocks in order lead from its start to its end without a gap, and each starts at most `overlap` characters before the point reached |
| ChunkCover.NothingIsLost | crates/knowledge-stack/src/chunker.rs:77-138 | Each chunk repeats at most `overlap` characters of what came before, and without these the chunks are the whole text in order, white space apart; with overlap 0 the plain concatenation is |
| ChunkOffsets.ParagraphsAreTidy | crates/knowledge-stack/src/chunker.rs:28-62 | Paragraphs of normalised text hold single spaces between other characters, and no other white space |
| ChunkOffsets.SentencesAreAligned | crates/knowledge-stack/src/chunker.rs:177-212 | The sentences of any normalised paragraph lie in it one after the other to its end, at most one space before each, and none only behind a mark |
| ChunkOffsets.ClosedMeansSpaced | crates/knowledge-stack/src/chunker.rs:177-212 | Every mark is followed by white space or the end if and only if no sentence follows another without a space |
| ChunkOffsets.GroupOffsetsExact | crates/knowledge-stack/src/chunker.rs:215-249 | All groups are the trimmed text between their offsets: with an overlap if and only if all marks are closed; without one if and only if groups break exactly where a sentence follows without a space; with closed marks if and only if there is an overlap or at most one group |
| ChunkOffsets.OverlapExact | crates/knowledge-stack/src/chunker.rs:215-249 | The same from any point of the loop on, with an overlap: exact if and only if no later sentence follows without a space |
| ChunkOffsets.NoOverlapExact | crates/knowledge-stack/src/chunker.rs:215-249 | The same without an overlap: exact if and only if groups break at just those sentences |
| ChunkOffsets.PlacedExact | crates/knowledge-stack/src/chunker.rs:121-128 | An exact group stays exact in the whole text, and the clamp of its end changes nothing |
| ChunkOffsets.OffsetsAreExact | crates/knowledge-stack/src/chunker.rs:77-138 | With an overlap and closed marks every chunk of the text is the trimmed text between its offsets, unless the window cut it |
| ChunkOffsets.OpenMarkDrifts | crates/knowledge-stack/src/chunker.rs:180-196 | The witness: with a mark inside a word a group's end lies behind the end of its paragraph |
| Downloader.Downloader.Attempt | crates/installer/src/downloader.rs:131-300 | One attempt in all its branches: disk and outcome are those of the specification, for every server answer and failure |
| Downloader.Downloader.Absorb | crates/installer/src/downloader.rs:210-261 | The body loop: at each head hasher, file and counter agree on the chunks taken; a stopped stream keeps what was written, a torn last write included |
| Downloader.Downloader.Finish | crates/installer/src/downloader.rs:262-300 | Flush, check of the hash with removal on mismatch, rename |
| Downloader.Downloader.Persist | crates/installer/src/downloader.rs:320-339 | At most five renames; the file moves with the first that succeeds, and nothing changes if none does |
| Downloader.Downloader.Download | crates/installer/src/downloader.rs:77-129 | Invalid requests touch nothing; otherwise attempts are repeated while worth it, up to the limit |
| DownloadRules.NothingStreamed | crates/installer/src/downloader.rs:138-205 | An attempt that ends before the body: which fault it reports, and that the disk is untouched but for a file that had to start over |
| DownloadRules.StoppedStreamKeeps | crates/installer/src/downloader.rs:210-261 | A body cut into any chunks and stopped by a broken connection, a cancellation, a failed write or a kill leaves what was there and every byte written, and reports that stop |
| DownloadRules.ProperEnd | crates/installer/src/downloader.rs:262-300 | A body that ends properly: flush, check against the hash of what the hasher saw, one of five renames; each failure with its disk |
| DownloadRules.MismatchClears | crates/installer/src/downloader.rs:267-280 | A wrong hash leaves the final file alone; `.partial` is gone if it could be removed and whole otherwise |
| DownloadRules.FreshStartAfterMismatch | crates/installer/src/downloader.rs:77-300 | A download that ended so lets the next one, with the right hash and nothing failing, complete |
| DownloadRules.RetriesExactly | crates/installer/src/error.rs:32-49 | Exactly timeouts, connection and request faults, answers 5xx and interruptions of the disk are tried again |
| DownloadRules.InvalidTouchesNothing | crates/installer/src/downloader.rs:86-101 | Without an address or a directory nothing is attempted |
| DownloadRules.AllAttemptsAreUsed | crates/installer/src/downloader.rs:104-126 | Failures worth a retry use up max_retries + 1 attempts, six by default |
| Downloader.HasherAgrees | crates/installer/src/downloader.rs:138-156 | The hasher has absorbed exactly the bytes of `.partial`, and the counter is their number, at every loop head, if and only if the metadata of a non-empty `.partial` could be read |
| Downloader.OnlyVerifiedFilesArrive | crates/installer/src/downloader.rs:265-300 | A file replaces the final one only on success, whole, counted, and with the expected hash |
| Downloader.UnseenPartialArrives | crates/installer/src/downloader.rs:138-141 | When the metadata could not be read, a longer file than the one hashed arrives |
| Downloader.HonestAttempt | crates/installer/src/downloader.rs:131-300 | Against an honest server `.partial` stays a prefix of the resource, success means final = resource, and the hash fails only if another one was expected |
| Downloader.HonestSession | crates/installer/src/downloader.rs:77-300 | The same over any number of downloads, cancelled, broken, retried or killed in a write, one after the other |
| Downloader.RetriesAreBounded | crates/installer/src/downloader.rs:106-126 | 1 to max_retries + 1 attempts; none follows a cancellation, a wrong hash or any other permanent failure; the outcome is the last attempt's |
| Downloader.AttemptCompletes | crates/installer/src/downloader.rs:131-300 | With no failure on either side and a server that answers ranges, an attempt on a prefix of the resource puts the resource in place if and only if the prefix is proper, or the resource empty, and the expected hash is its own |
| Downloader.CompletionExact | crates/installer/src/downloader.rs:77-300 | The same for a whole download, after any number of transient failures within the limit: done, in one attempt more, if and only if what they left is not yet the whole resource |
| Downloader.RangelessCompletes | crates/installer/src/downloader.rs:177-186 | A server that ignores ranges lets any `.partial` complete if and only if the expected hash is the resource's |
| Downloader.CompletePartialIsStuck | crates/installer/src/downloader.rs:158-178 | The failing case, against any server that answers 416: it is not retried, and the disk stays as it was |
| Ingest.Ingest.Run | crates/dataset-importer/src/service.rs:118-277 | On success exactly the pieces of rows 0..min(total, max_rows) were sent in order, told also row by row: one piece under each key (row, i) for the i-th text of each row that is not blank, and no other; generated = embedded = their number; all calls of the embedder but the last were for a full batch. Any failure has sent a prefix of them, and has its reason: a look that saw the cancellation, a refusing receiver, a bad answer of the embedder, the first fault of reading or composing |
| Ingest.Ingest.AddSources | crates/dataset-importer/src/service.rs:163-247 | The loop over parquet files, stopping at the row limit |
| Ingest.Ingest.AddSource | crates/dataset-importer/src/service.rs:190-246 | The loop over record batches, whose limit check comes before the error check |
| Ingest.Ingest.AddRows | crates/dataset-importer/src/service.rs:200-245 | The loop over rows: blank rows count but give nothing, a malformed one fails the run |
| Ingest.Ingest.AddPieces | crates/dataset-importer/src/service.rs:210-225 | Pieces are buffered one by one; sent and buffered together are what was generated |
| Ingest.Ingest.Flush | crates/dataset-importer/src/service.rs:282-339 | Embeds and sends the buffer; each piece goes with its own vector, and a failure keeps generated = embedded + buffered unless the receiver is gone |
| Ingest.Ingest.Send | crates/dataset-importer/src/service.rs:325-336 | Sends pieces paired with their vectors up to the first refusal |
| Ingest.FlatConcat | crates/dataset-importer/src/service.rs:163-247 | The flat-map of rows does not depend on how they are split over files and batches |
| Ingest.SplittingDoesNotMatter | crates/dataset-importer/src/service.rs:163-247 | Two parquet files are as good as one with the record batches of both |
| Ingest.KeysIncrease | crates/dataset-importer/src/chunker.rs:122-136 | The keys (row, chunk) of all pieces are strictly increasing |
| Ingest.FlatIsRowByRow | crates/dataset-importer/src/chunker.rs:122-136 | The flat-map holds, in increasing order of keys, the i-th text of row k under (k, i) for every row that is not blank, and nothing else |
| Ingest.RowsAreNumbered | crates/dataset-importer/src/service.rs:163-245 | Row numbers run through: file after file, record batch after record batch |
| DatasetWriter.Store.RunWriter | crates/dataset-importer/src/writer.rs:32-73 | The batches concatenate to the received sequence, all full but the last; the table is that of inserting one by one, whatever the batch size; the counter is what was received |
| DatasetWriter.Store.FlushBatch | crates/dataset-importer/src/writer.rs:75-93 | One transaction of insert-or-ignore: all of the batch, or nothing |
| DatasetWriter.InsertConcat | crates/knowledge-stack/src/store.rs:407-437 | Inserting in batches is inserting at once |
| DatasetWriter.InsertKeeps | crates/knowledge-stack/src/store.rs:407-437 | Nothing known is replaced; the keys are the old and the new ones |
| DatasetWriter.NothingIsIgnored | crates/knowledge-stack/src/store.rs:407-437 | With increasing keys on a fresh table every insert counts |
| DatasetWriter.StoredIsWanted | crates/dataset-importer/src/writer.rs:38-57 | Ingest and writer on a fresh dataset: the table holds exactly the wanted pieces with their vectors, as many as were embedded |
| DatasetWriter.StoredRowByRow | crates/dataset-importer/src/writer.rs:38-57 | The stored table has an entry under (k, i) just for the i-th text of each row k below the limit that is not blank, and it is that text |
| DatasetWriter.ResumeIsSafe | crates/knowledge-stack/src/store.rs:405-437 | A full run after one that broke off leaves the table of an unbroken run |
| DatasetWriter.PrefixOfOwn | crates/dataset-importer/src/service.rs:325-336 | What a broken run sent is a prefix, vectors included, of what the full run sends |
| Gateway.StepKeeps | crates/core-gateway/src/pipeline_layer.rs:190-399 | Every step of every request, swap, receive and close keeps the system invariant and leaves loaded chains alone |
| Gateway.OnlyTheLoadedChain | crates/core-gateway/src/pipeline_layer.rs:190-399 | Under every interleaving a request applies only the chain current at its call, narrowed to its key: forward once, backward for each response value; a request that ended without a refusal, and every value of its reply, went through the whole of it |
| Gateway.AuditIsAccounted | crates/core-gateway/src/pipeline_layer.rs:141-174 | At its end a request's audit log is empty; recorded = accepted and dropped in order; the channel's entries of it are the accepted ones in order; nothing else reaches the receiver, and the queue is within its bound |
| Gateway.GrantedIsAnswered | crates/core-gateway/src/pipeline_layer.rs:190-399 | Under every interleaving a request that nothing refuses ends with the inner service's reply, after it and every value of the reply went through the whole chain |
| Gateway.EveryStepCounts | crates/core-gateway/src/pipeline_layer.rs:190-399 | Each step of a request brings it nearer to its end in a well-founded order, and nobody else's step moves it away |
| Gateway.DropsOnlyWhenFullOrClosed | crates/core-gateway/src/pipeline_layer.rs:141-174 | An entry is dropped if and only if the channel is full or closed when it is tried |
| Gateway.Context.DrainAudit | crates/core-gateway/src/pipeline_layer.rs:141-174 | Undisturbed: the log is emptied and exactly the entries there is room for go in, in order |
| Gateway.SubChain | crates/pipelines/src/chain.rs:58-74 | The allowed pipelines in their order |
| Gateway.FilterKeepsAllowed | crates/pipelines/src/chain.rs:49-74 | Exactly the allowed pipelines are kept; an empty list disables all |
| Gateway.FilterKeepsOrder | crates/pipelines/src/chain.rs:58-74 | What is allowed of two chains in a row is what is allowed of the first, then of the second |
| Gateway.ForwardInOrder | crates/pipelines/src/chain.rs:78-91 | The request direction goes through the first of two chains, then the second |
| Gateway.BackwardInOrder | crates/pipelines/src/chain.rs:95-107 | The response direction goes through the second, then the first |
| Gateway.OnePipeline | crates/pipelines/src/chain.rs:49-107 | A single pipeline is kept if its id is allowed, and takes part in a direction unless its stage is the other one |
| Gateway.Context.ApplyRequest | crates/pipelines/src/chain.rs:78-91 | Forward through the request stages up to the first refusal, logging all on the way |
| Gateway.Context.ApplyResponse | crates/pipelines/src/chain.rs:95-107 | Backward through the response stages up to the first refusal |
| Gateway.ThroughStops | crates/pipelines/src/chain.rs:73-107 | What was applied is a first part of the stages, all of them if none refused |
| Gateway.ThroughComposes | crates/pipelines/src/chain.rs:73-107 | Going through two chains is going through the second with what the first let pass; a refusal in the first is all |
| LineStream.FirstLine | crates/adapter-ollama/src/lib.rs:565-567 | The first line in the buffer is the first line of the whole stream |
| LineStream.CompleteLines | crates/adapter-ollama/src/lib.rs:565-567 | What is read of a stream are its complete lines, without what follows the last newline |
| ChatStream.Stream | crates/adapter-ollama/src/lib.rs:518-627 | The event loop, for any connection and network cutting: the events told from the concatenated bytes alone |
| ChatStream.DrainLines | crates/adapter-lmstudio/src/lib.rs:534-583 | Complete lines leave the buffer in order until one ends the stream |
| ChatStream.BothReadable | crates/adapter-llama-cpp/src/lib.rs:360-402 | Neither line format yields empty texts or a cancellation |
| ChatStream.TraceShape | crates/adapter-ollama/src/lib.rs:518-627 | Delta events, then exactly one terminal event that agrees with the outcome; cancelled only by the caller |
| ChatStream.BrokenStream | crates/adapter-lmstudio/src/lib.rs:585-598 | A transport error completes (aborted) if and only if some text was told, else fails |
| ChatStream.CutsDoNotMatter | crates/adapter-llama-cpp/src/lib.rs:344-431 | However the network cuts the bytes, the events are the same |
| ChatStream.NothingAfterTheEnd | crates/adapter-llama-cpp/src/lib.rs:367-401 | Nothing behind the line that ends the answer matters |
| ChatRules.EndedChat | crates/adapter-ollama/src/lib.rs:559-603 | Lines that tell texts and a line that ends: the events are these texts and that end, whatever follows |
| ChatRules.UnendedChat | crates/adapter-ollama/src/lib.rs:604-627 | Without such a line the end of the bytes decides: aborted at their end, or when they break after some text; failed when they break before any; cancelled by the caller |
| ChatRules.NoStream | crates/adapter-lmstudio/src/lib.rs:489-516 | Without a stream one event tells the cancellation or the failure |
| ChatRules.OllamaReads | crates/adapter-ollama/src/lib.rs:567-601 | What a line of JSON tells, its end and the reason of that |
| ChatRules.OllamaSkips | crates/adapter-ollama/src/lib.rs:568-577 | Blank lines and lines that are no JSON tell nothing |
| ChatRules.OpenAiReads | crates/adapter-lmstudio/src/lib.rs:543-582 | What a data line tells, with a space behind the colon or without, `[DONE]` included |
| ChatRules.OpenAiSkips | crates/adapter-lmstudio/src/lib.rs:540-549 | Other lines tell nothing |
| ChatRules.OpenAiAnswer | crates/adapter-lmstudio/src/lib.rs:534-583 | An answer in chunks closed by `[DONE]`, however spaced and cut into packets, is told text by text and completed |
| ModelPull.PullModelStream | crates/adapter-ollama/src/lib.rs:146-201 | The retry loop: events, outcome and number of attempts |
| ModelPull.PullAttempt | crates/adapter-ollama/src/lib.rs:204-381 | One attempt: events and outcome told from the concatenated bytes, with the permanent and transient classification |
| ModelPull.HandleChunk | crates/adapter-ollama/src/lib.rs:263-355 | One line: errors, status changes, success, layers, and progress only above the last percentage |
| ModelPull.AddLayer | crates/adapter-ollama/src/lib.rs:300-312 | Totals and completed numbers of a digest only grow |
| ModelPull.StoryTable | crates/adapter-ollama/src/lib.rs:300-316 | The layers of an attempt are the table of all reports so far |
| ModelPull.TableHoldsMaxima | crates/adapter-ollama/src/lib.rs:300-312 | The table holds the pointwise maxima of all reports, each digest once |
| ModelPull.OrderDoesNotMatter | crates/adapter-ollama/src/lib.rs:300-316 | Reports in any order and number of repeats give the same layers and sums |
| ModelPull.StoryClimbs | crates/adapter-ollama/src/lib.rs:301-355 | Both sums never decrease, and every progress event shows a higher percentage than all before |
| ModelPull.RatiosIncrease | crates/adapter-ollama/src/lib.rs:338-355 | The exact ratios shown strictly increase, even when new layers enlarge the total |
| ModelPull.PullShape | crates/adapter-ollama/src/lib.rs:152-201 | At most three attempts, each retry after a transient failure only; at most one terminal event, the last, agreeing with the outcome; a cancelled pull tells so if and only if the caller cancelled during a wait |
| PullRules.PullTells | crates/adapter-ollama/src/lib.rs:146-201 | The events are those of all attempts with each new one announced, and the closing ones; it is tried again after every transient failure but the third, unless cancelled while waiting, and after nothing else |
| PullRules.AttemptEnds | crates/adapter-ollama/src/lib.rs:216-381 | An attempt that no line ended: cancelled by the caller, refused for good by an answer that is no server fault, transient in every other case |
| PullRules.ErrorEnds | crates/adapter-ollama/src/lib.rs:274-287 | An error line ends the attempt, for good just if it says `not found` or `does not exist` |
| PullRules.SuccessEnds | crates/adapter-ollama/src/lib.rs:290-299 | The success line ends it with the Completed event |
| PullRules.ProgressIsTold | crates/adapter-ollama/src/lib.rs:289-355 | Any other line puts its numbers into the largest seen, tells a new status, and tells the progress if and only if a whole per cent more is done than was ever shown |
| PullRules.NothingIsHeldBack | crates/adapter-ollama/src/lib.rs:258-355 | As long as no line ended the attempt, the percentage reached has been shown by a progress event |
| KeyManager.Generate | crates/key-manager/src/plaintext.rs:26-48 | The shape of a key, and that it is looked up by its own prefix |
| KeyManager.KeyStore.Insert | crates/key-manager/src/store.rs:171-192 | Adds a row unless its id is taken |
| KeyManager.KeyStore.FindByPrefix | crates/key-manager/src/store.rs:206-216 | The live rows with the prefix |
| KeyManager.KeyStore.FindById | crates/key-manager/src/store.rs:218-228 | The row with the id, if there is one |
| KeyManager.KeyStore.TouchLastUsed | crates/key-manager/src/store.rs:230-237 | Sets one time stamp; ids, prefixes, hashes, scopes and revocations stay at every index, and nothing happens when the row is gone |
| KeyManager.KeyStore.UpdateEnabledPipelines | crates/key-manager/src/store.rs:245-265 | Changes the pipelines of one scope and nothing else |
| KeyManager.KeyStore.UpdateScope | crates/key-manager/src/store.rs:273-283 | Changes one scope; ids, prefixes, hashes, revocations and all other rows stay; an unknown id is reported |
| KeyManager.KeyStore.Revoke | crates/key-manager/src/store.rs:286-299 | Idempotent, the first time of revocation stays; unknown ids are an error |
| KeyManager.KeyStore.Delete | crates/key-manager/src/store.rs:302-312 | Only a revoked row goes, and only that row |
| KeyManager.KeyManager.Issue | crates/key-manager/src/manager.rs:98-124 | A blank alias stores nothing; otherwise one live row with the hash and prefix of the key returned |
| KeyManager.KeyManager.Verify | crates/key-manager/src/manager.rs:173-237 | The verdict, in the order of the checks, and a time stamp for an allowed call only |
| KeyManager.PrefixIsFullScan | crates/key-manager/src/manager.rs:173-196 | For an ideal hash the look through the prefix gives the verdict of trying every live key |
| KeyManager.VerifyIsExact | crates/key-manager/src/manager.rs:173-237 | A call is allowed if and only if the bearer is the key of a live row whose scope admits it: in time, from an origin it names if it names any, to an endpoint and for a model its patterns match |
| KeyManager.VerdictOfLiveKey | crates/key-manager/src/manager.rs:196-237 | The bearer of a live key is told the first of: too late, wrong origin, wrong endpoint, wrong model, each as a condition on the scope; otherwise it is allowed under its id, alias and pipelines |
| KeyManager.JudgedInOrder | crates/key-manager/src/scope.rs:70-97 | Each refusal if and only if its condition fails and all earlier ones hold; an expiry that cannot be read has passed |
| KeyManager.RevokedIsInvalid | crates/key-manager/src/store.rs:206-216 | The bearer of a revoked key is told that the key is invalid |
| KeyManager.ReachableTables | crates/key-manager/src/manager.rs:98-237 | In every run from the empty table whose keys were issued and are distinct, the results of `PrefixIsFullScan`, `VerifyIsExact` and `RevokedIsInvalid` hold of the table reached |
| KeyManager.DeadStaysDead | crates/key-manager/src/store.rs:230-312 | No operation makes a revoked key live, or brings back a deleted row |
| KeyManager.RevokedForGood | crates/key-manager/src/manager.rs:130-237 | After a revocation and any steps in any order, touches of earlier verifications included, no later look allows the key |
| KeyManager.DeletedForGood | crates/key-manager/src/store.rs:230-237 | A late touch never revives a deleted row |
| Glob.MatchIsAlignment | crates/key-manager/src/scope.rs:100-127 | The backtracking matcher accepts exactly the inputs that can be cut into pieces, one for each pattern character |
| Glob.SplitLaw | crates/key-manager/src/scope.rs:104-127 | glob(p + q, s) if and only if s can be cut with p matching the first and q the second part, also across the shortcut for a last star |
| Glob.PlainMatchesItself | crates/key-manager/src/scope.rs:104-127 | Without wildcards a pattern matches only itself |
| Glob.StarsCollapse | crates/key-manager/src/scope.rs:108-119 | Adjacent stars are one |
| SafePath.LexicalSafeSubpath | crates/installer/src/extract.rs:445-468 | Accepted if and only if relative and never above the start; the result is the stack resolution of the path |
| SafePath.AcceptedStaysBelow | crates/installer/src/extract.rs:442-468 | From any target the path leads to the target's names and the cleaned path, and no first part of it leaves the target |
| SafePath.RefusedLeaves | crates/installer/src/extract.rs:455-460 | A refused relative path leaves every one-name directory on its way |
| SafePath.CleanedIsFixed | crates/installer/src/extract.rs:445-468 | A cleaned path is accepted again, unchanged |
| SafePath.Extract | crates/installer/src/extract.rs:210-243 | Every destination of a run has the target as prefix; the loop stops at the first unsafe entry or cancellation |

## Left out

- Unicode: NFC composition, lossy UTF-8 decoding and byte positions; segments are cut at character boundaries.
- JSON itself: encoding and decoding are arbitrary functions; nothing is assumed of them but, where stated, one-line
  output.
- HTTP headers and content length, the 2 MiB limit as a number, request ids, logging and messages.
- Times: back-off durations, speed, remaining time, took_ms and progress throttling by time.
- Floating point: percentages of a pull are exact integer division.
- Integer widths of counters (u64 sums and counts, u32 chunk index, i32 depth); only the newline counter saturates.
- SseSegments.ResultsIgnoreSegments: one direction only, since different frames may still read as the same events;
  the exact condition for events is `SseResults.EventsExact`.
- SseRewrite.ProcessSseResponse: the read error of the response body is a case of `Gateway`, not of this method.
- SseCodec.ParseEvent: the last line of a frame keeps a bare carriage return, as `str::lines` has it in current Rust.
- Chunk ids (a truncated hash of the content).
- Chunker.FindCharIndex: requires that a search from the start is for a needle no longer than the text, for which the
  program would index out of bounds; the chunker never does that, as `ChunkText` shows.
- Downloader.Downloader.Attempt: progress events and buffering inside the file handle are not modelled; a failed or
  killed write leaves any first part of its chunk. A kill is modelled inside the stream; elsewhere the disk is that
  of a failed call.
- Downloader.HonestSession: needs readable metadata; without it the server's bytes follow the old ones.
- Ingest.Ingest.Run: progress messages and the count of files fetched are not modelled; the loops over files, batches,
  rows and pieces are one method each.
- DatasetWriter.Store.RunWriter: receives a finished sequence; that writer and ingest run side by side is left to the
  channel being first in, first out.
- Gateway: pipelines may record anything and refuse at will; what they do to values is in `SseRewrite` for a whole
  chain and in `Context.ApplyRequest` for the order of its parts. Requests are values in the interleaved system.
- ChatStream.Stream: one loop stands for the three adapters, which differ in how they read a line.
- ModelPull: the layer map is a list in the order of first reports; texts of messages are dropped.
- KeyManager.KeyManager.Verify: undisturbed by other calls; the interleavings are those of `RevokedForGood`, where a
  verification is a look and a later touch. Database errors, and the thin delegating methods of the manager, are left
  out.
- KeyManager.KeyStore: unique ids, the table's primary key, are its class invariant, kept by every method; an insert
  that would break it is the only database error modelled.
- Bearers whose eleventh byte lies inside a character, for which the program would panic.
- SafePath.Extract: writing the files, the zip reader's own name check and the disk image branch are left out.
- Capability tables, benchmarks, hardware probes, manifests, the desktop shell, search and the other stores: easy or
  external.
