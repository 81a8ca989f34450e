# unblob, modelled and proved in Dafny

unblob finds the byte ranges of known formats in a file, carves the file into them, extracts them and processes
what comes out, recursively and in several processes. This project models the parts where that is hard to get
right, and proves what they promise.

The project follows the program's own structure, one component per file. Where the source changes state, so does the
model: classes with fields, loops over cursors, tables in arrays. Every such method is proved against a function
that says what it computes, and the theorems are about those functions or about all runs of a transition system.

| files | what they model |
|---|---|
| `Jobs`, `Pool`, `PoolRuns`, `Pools` | the process pool: host, workers, the input queue with its unfinished counter, the bounded output pipe, and shutdown |
| `Processing` | which subtasks a task asks for, the depth limit, and the tree of tasks |
| `Files` | files, block-wise reading, block-wise pattern search, multibyte integers |
| `Chunks`, `Finder`, `Carving`, `FileTask` | chunks, the restarting scan, inner chunks, gaps, and carving |
| `Ucl`, `UclDecompressor` | NRV2B decompression, with a specification encoder |
| `Lzw`, `LzwDecoder`, `LzwCodes` | the end of a Unix compress stream, and what its codes say |
| `Xz` | the size of an .xz stream, computed from its footer |
| `Crc32c` | the table-driven checksum of btrfs send streams |
| `Cryptor`, `QnapCryptor`, `Pc1` | the PC1 stream cipher of QNAP firmware, with a specification of its own |
| `Regexes`, `HexString` | hex-string patterns and the regular expressions they are compiled to |
| `Ufs`, `UfsParser` | file contents in UFS images |
| `Cpio`, `CpioParser` | CPIO archives with new ASCII headers, with a specification writer |
| `Bytes`, `BitOps`, `Sums` | bytes, exclusive or on naturals, sums |

`dafny verify dfyconfig.toml` checks everything.

## What is proved, and what turned out otherwise

- **Pool.** A run is any sequence of enabled steps of host and workers, so the theorems hold for all interleavings.
  Counting and conservation are kept by every step, no state is a deadlock, and runs are finite.
- **Search to carving.** The position of the scan can move backwards. It ends when each handler's chunk contains the
  offset it was asked about, because an accepted chunk then covers a new byte (`Finder.ScanEnds`). The ISO 9660 handler
  goes back over the system area of 32768 bytes, and does not always meet that: `Finder.IsoSearchEnds` gives the exact
  condition on the sizes in the descriptors, and otherwise `Finder.ScanMayNotEnd` finds the same chunk for ever.
  Wherever the search ends, a file whose kept chunks do not overlap is made up of its pieces.
- **Hex strings.** The commas that join the bytes of a first-nibble wildcard are members of the emitted class, so `?8`
  also matches a comma. `HexString.MeaningIsKept` says exactly what is matched for every pattern, and
  `HexString.ExactIffOnlyCommas` when that is what was meant.
- **UFS.** A zero pointer above the data blocks, or in the place of a root, is not read as a hole: the blocks below it
  are left out (`Ufs.ExpandIsPresent`), and those behind it move forward. A file that ends before its first hole comes
  out if nothing of it is cut off (`Ufs.FileIsRead`); others do not, unless zeros are read in the place of the hole
  by chance (`Ufs.ContentIffNoHole`). `Ufs.HoleMovesBlocks` has an image.
- **Unix compress.** For a fixed limit it does not matter where in its file a stream stands (`Lzw.StreamMoves`), but
  the limit that the handler passes is the size of the whole file while the counter starts at the stream. So a
  stream is found behind other bytes exactly when the decoder could do without as many bytes behind it
  (`Lzw.FoundIffDoneInside`). Streams of any length without a clear code are accepted at offset zero only, but for the
  seven bytes that are skipped when there are no clear codes at all (`Lzw.AcceptedIff`). With any number of clear
  codes, what the next code may be and where it stands depends on the codes since the last one
  (`LzwCodes.StepKnown`). The second check of an unknown code is never needed (`Lzw.PrevCheckIsIdle`).
- **Pattern search.** After a hit the next block starts behind the hit's first byte. A pattern that overlaps itself
  loses the overlapping occurrences only; `Files.SearchIsComplete` and `Files.BorderlessSearchIsExact` hold for every
  block size.

## Model

| member | source | states |
|---|---|---|
| PoolRuns.ScheduleIndependence | python/unblob/pool.py:104-262 | For every interleaving of host and workers, deaths included, a pool that ended normally has registered exactly the results of a single process, each as often. |
| Jobs.PostOrderIs | python/unblob/pool.py:252-259 | The results of a single process: those below a subjob stand together, one subjob after the other, and the result of the job itself comes last. |
| PoolRuns.ParentsFirst | python/unblob/processing.py:174-179 | In every run the first registered result is the root's, and every later one comes after a result that submitted it. |
| PoolRuns.LostJobBlocksTheEnd | python/unblob/pool.py:223-249 | A worker that dies with a task keeps the unfinished counter positive, so the receive loop never ends normally. |
| PoolRuns.MaximalRunsComplete | python/unblob/pool.py:153-249 | A run without deaths that cannot go on has handled and registered the whole tree exactly once; every worker took its one sentinel and exited, and no item is left in the input. |
| PoolRuns.MaximalRunsWithDeaths | python/unblob/pool.py:153-249 | With deaths at any point, a run that cannot go on has closed or terminated the pool, every worker is gone, and after a close in order no result is missing. |
| PoolRuns.SomethingToDo | python/unblob/pool.py:197-249 | Until the pool is closed some process can always take a step that is not a death: no deadlock between the queues, the bounded pipe and the callback. |
| PoolRuns.RunsAreFinite | python/unblob/pool.py:98-249 | Every run is finite; its length is bounded by a measure of the state it starts in. |
| PoolRuns.MeasureDrops | python/unblob/pool.py:98-249 | Every step of the host or of a worker uses up some of the measure. |
| PoolRuns.PipeIsBounded | python/unblob/pool.py:98-101 | No run ever puts more into the output pipe than it takes. |
| PoolRuns.RunFromStart | python/unblob/pool.py:98-249 | The counter and conservation invariants hold in every reachable state, those of the shutdown included. |
| PoolRuns.ShutdownStep | python/unblob/pool.py:98-213 | Every step keeps the count of sentinels: one for each worker that still has to leave. |
| Pool.RunStep | python/unblob/pool.py:215-249 | Every step of the running phase keeps: unfinished equals queued plus held plus in the pipe, plus one during the callback; and every job of the tree is accounted for once. |
| Pool.Flow | python/unblob/pool.py:98-249 | What a step adds to or takes from the weight carried by queues and workers. |
| Pool.CounterStep | python/unblob/pool.py:215-249 | The unfinished counter grows with every item that is put, sentinels included, and falls with every result that is done with. |
| Pool.ClosingStep | python/unblob/pool.py:149-172 | A pool is terminated instead of drained exactly when the host raised or some worker is gone. |
| Pools.SinglePool.Submit | python/unblob/pool.py:252-259 | The single pool registers the tree in post-order. |
| Pools.MultiPool.ProcessUntilDone | python/unblob/pool.py:238-249 | The loop ends normally only with all results registered and the counter at zero, and otherwise raises because a worker died; it ends under any behaviour of the workers. |
| Pools.MultiPool.Close | python/unblob/pool.py:153-180 | When some worker is gone or the pool is closed at once, it is terminated and its queues are left alone. After `close` every worker has left; after a normal run without deaths each has exited through its sentinel and the input is empty. A second call does nothing. |
| Pools.MultiPool.WaitForResult | python/unblob/pool.py:223-246 | Waiting ends with a result to read or with a dead worker. |
| Pools.MultiPool.ProcessResult | python/unblob/processing.py:174-179 | The callback submits all subtasks, then registers the result; the task is marked as done only after it. |
| Pools.MultiPool.ClearOutputQueue | python/unblob/pool.py:202-209 | Output is drained until every worker has gone. |
| Pools.MultiPool.Submit | python/unblob/pool.py:215-221 | Submitting appends to the queue and raises the unfinished counter. |
| Pools.Simulates | python/unblob/pool.py:98-249 | Each step of the objects is an enabled step of the transition system. |
| Pools.ProcessTask | python/unblob/processing.py:168-200 | One process or many: the results are a permutation of the post-order list, equal to it for one process. |
| Processing.SubtasksBelow | python/unblob/processing.py:269-323 | Every subtask is within the depth limit, and deeper than its parent or lower in the directory tree. |
| Processing.SubtasksOfDirectory | python/unblob/processing.py:333-473 | How often any task is among the subtasks of a directory: each extraction directory of a multi-file one level deeper under its own id, each entry as often as it is listed unless it is such a directory or a file of a multi-file, and each of these files once, marked as such; after a conflict, only what the multi-files before it led to. |
| Processing.SubtasksOfFile | python/unblob/processing.py:546-603 | And of a file: the directories its chunks were extracted to, one level deeper. |
| Processing.NoSubtasks | python/unblob/processing.py:266-320 | None at the depth limit, for a file of a multi-file, a skipped file or a special one. |
| Processing.TreeIsBounded | python/unblob/processing.py:269-323 | Every task of the unfolded tree respects the limit and has exactly the subtasks its handler asked for; the unfolding is finite. |
| Processing.RunsRespectDepth | python/unblob/processing.py:168-200 | No run of the pool ever registers a result beyond the depth limit. |
| Processing.ProcessTask | python/unblob/processing.py:269-323 | The collected subtasks of a task: none at the limit, none for files of a multi-file. |
| Processing.ProcessDirectory | python/unblob/processing.py:333-350 | Extraction directories come first, then plain entries, then the files of multi-files; a conflict ends the scan. |
| Processing.ScanDirectory | python/unblob/processing.py:353-383 | The state of the scan over multi-files, with the paths and directories it has used up. |
| Processing.IterateDirectory | python/unblob/processing.py:462-473 | Entries that are neither extraction directories nor parts of multi-files become subtasks of the same depth. |
| Files.IterateFile | python/unblob/file_utils.py:274-299 | The blocks put together are the range as far as the file has it; all are full but the last, none is empty; the errors are exactly a bad buffer size and a bad offset. |
| Files.IteratePatterns | python/unblob/file_utils.py:211-261 | Block-wise search yields the specified hits whatever the caller does with the file position between yields, and restores the position; called wherever the search ends. |
| Files.SearchIsSound | python/unblob/file_utils.py:211-261 | Yielded positions are occurrences, in strictly increasing order. |
| Files.SearchIsComplete | python/unblob/file_utils.py:211-261 | For every block size an occurrence is missed only if it overlaps an earlier yielded one. |
| Files.BorderlessSearchIsExact | python/unblob/file_utils.py:211-261 | A pattern without border is found exactly where it occurs, for every block size. |
| Files.EmptyPatternStays | python/unblob/file_utils.py:237-250 | After n turns the loop for the empty pattern has yielded the start of the block n times, and goes on: it does not end. |
| Files.TurnsAreHits | python/unblob/file_utils.py:237-250 | For other patterns the loop has yielded the hits of the block, neither more nor less, when its marker is gone. |
| Files.DecodeMultibyteInteger | python/unblob/file_utils.py:192-208 | The loop computes the integer of its recursive definition, and fails exactly when no byte ends it. |
| Files.MultibyteRoundTrip | python/unblob/file_utils.py:192-208 | Every value written in seven-bit groups is read back with its length, whatever follows (section 1.2 of the .xz file format). |
| Files.MultibyteLength | python/unblob/file_utils.py:192-208 | A value of 7n bits takes at most n bytes. |
| Files.RoundUpIsLeast | python/unblob/file_utils.py:148-149 | Rounding up gives the least multiple that is not smaller. |
| Chunks.ContainsIsStrictInclusion | python/unblob/models.py:162-172 | One chunk contains another when it covers all its bytes and is not the same range. |
| Chunks.RemoveInnerChunks | python/unblob/processing.py:751-770 | The greedy loop over the size-sorted list keeps what is not inside any input chunk. |
| Chunks.KeptExactly | python/unblob/processing.py:751-770 | Kept are exactly the chunks not strictly inside another input chunk, as often as they were given. |
| Chunks.CoverageKept | python/unblob/processing.py:751-770 | Every byte of an input chunk is a byte of a kept one. |
| Finder.Context.HyperscanMatch | python/unblob/finder.py:70-115 | The callback accepts a chunk that starts outside all found ones and ends inside the file, and moves the start offset behind it. |
| Finder.Context.StreamScanChunks | python/unblob/finder.py:118-127 | Wherever the scan ends, the loop, restarting at the moved offset, leaves the chunks of the specified scan. |
| Finder.SearchChunks | python/unblob/finder.py:130-171 | All chunks of a file, wherever the search ends. |
| Finder.AcceptedCoversMore | python/unblob/finder.py:70-115 | An accepted chunk covers a byte that was not covered before. |
| Finder.TurnProgresses | python/unblob/finder.py:118-127 | When chunks contain the offset they were computed for, each turn leaves fewer bytes uncovered, or the same chunks and a later position, although the position may move backwards. |
| Finder.ScanEnds | python/unblob/finder.py:118-127 | So the scan ends for all such handlers, from every state of the loop. |
| Finder.ScanIsOrderly | python/unblob/finder.py:70-127 | At all times chunks lie inside the file; when handlers match at the start of their chunks, each starts behind the one before. |
| Finder.FoundForMatch | python/unblob/finder.py:70-115 | Whatever the handlers and their match offsets: every chunk that is ever found was computed for a reported match of the stream that began behind the chunk before, at the offset of that match plus where the stream began plus the match offset of its handler; and no earlier match of its block led to a chunk. |
| Finder.ScanIsExhaustive | python/unblob/finder.py:70-127 | At all times, for every match in every block since the last chunk: the offset its format would start at is negative, too large or inside a found chunk, or the handler finds no chunk there, or one that goes beyond the file. At the end that is the rest of the file. |
| Finder.IsoSearchEnds | python/unblob/handlers/filesystem/iso9660.py:138-152 | For a file with any ISO 9660 descriptors: the search ends if and only if, of the descriptors that lead to a chunk when each is looked at once in order, none has sizes that end its chunk before it. |
| Finder.IsoContains | python/unblob/handlers/filesystem/iso9660.py:138-152 | The handler never returns a chunk without the offset it was asked about if and only if no descriptor at all is overlooked that way. |
| Finder.ScanMayNotEnd | python/unblob/handlers/filesystem/iso9660.py:138-152 | Otherwise any number of copies of the chunk of an overlooked descriptor is found, one after another, while the scan stays inside the file. |
| Finder.IsoTurn | python/unblob/handlers/filesystem/iso9660.py:138-152 | Wherever the scan stands, a turn finds the first descriptor that leads to a chunk if its pattern ends in the block, and otherwise moves on by a block. |
| Carving.CalculateUnknownChunks | python/unblob/processing.py:773-806 | The gaps before, between and behind the chunks in offset order, or the error of an impossible gap. |
| Carving.AnswerIffDisjoint | python/unblob/processing.py:773-806 | For a non-empty file the gaps can be computed exactly when the chunks are pairwise disjoint. |
| Carving.DisjointIffNoByteTwice | python/unblob/processing.py:773-806 | Pairwise disjoint means that no byte is covered twice. |
| Carving.EndToEndPartitions | python/unblob/processing.py:773-806 | Pieces that lie end to end contain every byte of the range exactly once and no other. |
| Carving.PiecesMakeUpTheFile | python/unblob/processing.py:773-806 | Disjoint chunks and their gaps together lie end to end over the file, and their contents in offset order are the file. |
| FileTask.IsPadding | python/unblob/processing.py:476-488 | A range is padding exactly when it holds a single byte value. |
| FileTask.ProcessPatterns | python/unblob/processing.py:491-507 | Each gap is classified, in order. |
| FileTask.Carve | python/unblob/file_utils.py:302-316 | Exactly the bytes of the range are written. |
| FileTask.Process | python/unblob/processing.py:523-603 | Wherever the search ends, processing fails exactly when kept chunks overlap; without extraction the chunks and classified gaps are reported; a chunk that is the whole file is not carved; nothing is carved into a directory that exists; otherwise chunks and gaps are carved as they are in the file. Put together in offset order they are the file. |
| FileTask.StartsAtMatchNeverFails | python/unblob/processing.py:523-543 | When handlers match at the start of their chunks, the search ends and the kept chunks never overlap. |
| FileTask.ProcessedFileIsReconstructed | python/unblob/processing.py:523-543 | Whatever the handlers, their match offsets included: gaps can be computed exactly when the kept chunks do not overlap, and then the carved pieces in offset order are the file. |
| Ucl.RoundTrip | python/unblob/handlers/compression/_ucl.py:39-113 | Decompressing what a specification encoder wrote for any valid token list yields the expansion of the tokens, end marker included; bytes behind it are ignored. |
| Ucl.DecodesTokens | python/unblob/handlers/compression/_ucl.py:88-113 | The same from any state of reader and output in the middle of a stream. |
| Ucl.ReadsGamma | python/unblob/handlers/compression/_ucl.py:44-51 | The interleaved code of a number of at least two is read back. |
| Ucl.ReadsLength | python/unblob/handlers/compression/_ucl.py:53-71 | Lengths in their short and long form come back, with one more byte for offsets above 0xD00. |
| Ucl.ReadsOffset | python/unblob/handlers/compression/_ucl.py:95-107 | Offsets come back from the gamma code of their upper part and the byte of the lower one. |
| Ucl.CopyIsPeriodic | python/unblob/handlers/compression/_ucl.py:73-86 | A copy repeats the last bytes of the output with the offset as period, also when the regions overlap. |
| Ucl.CopiedByte | python/unblob/handlers/compression/_ucl.py:73-86 | Byte k of a copy is byte k modulo the offset of the copied region. |
| Ucl.StepIsToken | python/unblob/handlers/compression/_ucl.py:88-113 | Every step the decoder takes is a valid token; offsets are at least one and never reach before the output. |
| Ucl.AcceptedIsExpansion | python/unblob/handlers/compression/_ucl.py:88-113 | Whatever is accepted is the expansion of some valid token list. |
| UclDecompressor.BitReader.GetBit | python/unblob/handlers/compression/_ucl.py:11-20 | The next bit from the top of the buffered byte, or an error at the end of the data. |
| UclDecompressor.UCLDecompressor.ProcessLiteralRun | python/unblob/handlers/compression/_ucl.py:39-42 | Literals up to the next zero bit are part of the same decoding. |
| UclDecompressor.UCLDecompressor.DecodeMatchLength | python/unblob/handlers/compression/_ucl.py:53-71 | The length of the match, less the byte that is copied in any case. |
| UclDecompressor.UCLDecompressor.DecodeMatchOffset | python/unblob/handlers/compression/_ucl.py:44-51 | A new offset, the last one again, or the end marker. |
| UclDecompressor.UCLDecompressor.CopyMatchData | python/unblob/handlers/compression/_ucl.py:73-86 | Copies one byte more than the length, or refuses an offset before the start of the output. |
| UclDecompressor.UCLDecompressor.Decompress | python/unblob/handlers/compression/_ucl.py:88-113 | The object computes the specified decoding, and ends on every input. |
| LzwDecoder.Unlzw | python/unblob/handlers/compression/compress.py:91-251 | Bit buffer, code width, flushes and the linked table compute the end of the stream as the machine on bit fields and byte strings does, on every input. |
| LzwDecoder.Decoder.TakeCode | python/unblob/handlers/compression/compress.py:187-202 | One or two bytes are enough for a code; buffer and rest keep the bits in order. |
| LzwDecoder.Decoder.WidenCodes | python/unblob/handlers/compression/compress.py:164-185 | Codes become a bit longer when the table is full, after a realignment that only the counter sees. |
| LzwDecoder.Decoder.ClearTable | python/unblob/handlers/compression/compress.py:204-221 | A clear code empties the table, and goes back to nine bits. |
| LzwDecoder.Decoder.FollowCode | python/unblob/handlers/compression/compress.py:223-246 | Only codes up to one past the table are accepted; the new entry links to the previous code. |
| LzwDecoder.Walk | python/unblob/handlers/compression/compress.py:236-238 | Following the links ends at a literal, the first byte of the dictionary string of the code. |
| LzwDecoder.LinkStep | python/unblob/handlers/compression/compress.py:236-238 | Every link leads to a smaller code, never to the reserved one, and to a string with the same first byte. |
| LzwDecoder.LinkNew | python/unblob/handlers/compression/compress.py:240-243 | A new entry keeps the table linked, also when the previous code is left over from before a clear code. |
| LzwDecoder.FieldSplits | python/unblob/handlers/compression/compress.py:187-202 | Consecutive bit fields combine by shifting. |
| LzwDecoder.Taken | python/unblob/handlers/compression/compress.py:199-202 | Masking the buffer gives the next code, shifting it gives the rest. |
| Lzw.StepKeeps | python/unblob/handlers/compression/compress.py:162-246 | Every step keeps: 9 to 16 bits, the table within the mask, the previous code inside the table unless it was just cleared, and reads inside the file. |
| LzwCodes.StepKnown | python/unblob/handlers/compression/compress.py:162-246 | One turn of the loop in terms of the codes since the beginning or the last clear code: the next code stands at a place and has a width that depend on their number only; it clears the table and brings back nine bits behind whole groups of its width, or is a byte or one of the entries there are by then, or is refused. |
| LzwCodes.RunWritten | python/unblob/handlers/compression/compress.py:162-246 | For any number of clear codes: when lists of codes that make sense stand in their places, the decoder gets to their end, knows the codes since the last clear code and no others, and holds the first byte of the last string. |
| LzwCodes.WrittenIsFound | python/unblob/handlers/compression/compress.py:91-266 | So such a stream is found, with its exact end, when the count at its end is the size of the file. |
| LzwCodes.NonsenseIsRefused | python/unblob/handlers/compression/compress.py:91-246 | It is refused when the next code makes no sense after those since the last clear code, or does not stand in the file any more. |
| LzwCodes.ClearedIsFound | python/unblob/handlers/compression/compress.py:162-251 | A concrete stream whose codes have ten bits when it is cleared, and nine behind that. |
| Lzw.FlagsAre | python/unblob/handlers/compression/compress.py:130-140 | The accepted flags are 9 to 16, with clear codes 137 to 144, and 9 means ten bits. |
| Lzw.RunEnds | python/unblob/handlers/compression/compress.py:162-246 | At the end the invariant holds, the counter is at most the limit and within 16 bytes of it. |
| Lzw.PrevCheckIsIdle | python/unblob/handlers/compression/compress.py:228-233 | The check that the previous code is in the table can never fail on its own. |
| Lzw.EndIsInside | python/unblob/handlers/compression/compress.py:162-251 | An end offset lies behind the header, within the limit and inside the file. |
| Lzw.AcceptedIff | python/unblob/handlers/compression/compress.py:91-266 | Streams of any length in which no clear code occurs are accepted behind a prefix if and only if they are accepted at the start of a file with as many bytes behind them, and the prefix is empty, or there are no clear codes, at most seven bytes come before, and the stream has at least 293. |
| Lzw.AcceptedOnlyAtTheStart | python/unblob/handlers/compression/compress.py:91-266 | So with clear codes switched on, behind eight bytes or more, or for shorter streams, such a stream is accepted if and only if nothing comes before it and it is accepted by itself: the limit is the size of the whole file, but is counted from the start of the stream. |
| Lzw.FoundIffDoneInside | python/unblob/handlers/compression/compress.py:91-266 | For all streams, cleared or not: a stream is found behind other bytes if and only if it is found at the start of a file with as many bytes behind it instead, and the decoder is done before it reads any of these. |
| Lzw.FoundBehindSeven | python/unblob/handlers/compression/compress.py:162-189 | A concrete stream that is found behind one to seven other bytes, whatever they are. |
| Lzw.RunSteady | python/unblob/handlers/compression/compress.py:162-202 | A run without clear codes has skipped seven bytes at its end, once, when the codes became longer, or none. |
| Lzw.LastOfLength | python/unblob/handlers/compression/compress.py:162-189 | The codes of nine bits leave seven bytes to skip when there are no clear codes; the codes of every other length fill whole groups. |
| Lzw.StartCostsSkips | python/unblob/handlers/compression/compress.py:253-257 | For all streams, in terms of the decoder state: one that is accepted has skipped more bytes than come before it, less sixteen. |
| Lzw.OnlyAtTheStart | python/unblob/handlers/compression/compress.py:253-266 | An instance: a concrete stream that is a chunk at the start of a file and is rejected behind any other byte. |
| Lzw.StreamMoves | python/unblob/handlers/compression/compress.py:91-251 | With one and the same limit, a stream behind a prefix has the same result, moved by the length of the prefix. |
| LzwDecoder.CalculateChunk | python/unblob/handlers/compression/compress.py:253-266 | The chunk, or the error for a stream of five bytes or less. |
| Xz.GetStreamSize | python/unblob/handlers/compression/xz.py:89-132 | The reader computes the specified size, with its errors. |
| Xz.ReadMultibyteInt | python/unblob/handlers/compression/xz.py:80-86 | Nine bytes are read, stepped back over, and the integer is skipped. |
| Xz.ReadsMbi | python/unblob/handlers/compression/xz.py:80-86 | An integer below 2^63 with eight more bytes behind it is read as it was written. |
| Xz.ReadsRecords | python/unblob/handlers/compression/xz.py:117-127 | All records of an index are read as written and add up. |
| Xz.TotalSize | python/unblob/handlers/compression/xz.py:127-132 | Rounding the sum of the parts up gives the whole length, padding of the index included. |
| Xz.BackwardLeadsToIndex | python/unblob/handlers/compression/xz.py:89-103 | The stored backward size leads to the start of the index. |
| Xz.StreamSizeIsTrue | python/unblob/handlers/compression/xz.py:89-132 | For every stream laid out per sections 2.1.2.2 and 4 of the .xz file format 1.0.4, whatever surrounds it, the computed size is the true one. |
| Xz.NoIndexIsRefused | python/unblob/handlers/compression/xz.py:89-107 | Where the backward size leads out of the file or to no index indicator, nothing is found. |
| Crc32c.MakeCrc32cTable | python/unblob/handlers/filesystem/btrfs_stream.py:236-248 | Each entry is the register shifted eight times (the reversed polynomial of section 12.1 of RFC 3720). |
| Crc32c.TableStep | python/unblob/handlers/filesystem/btrfs_stream.py:254-257 | One table step is eight steps of the shift register. |
| Crc32c.CalculateCrc32 | python/unblob/handlers/filesystem/btrfs_stream.py:254-257 | The table-driven loop computes the register, from every seed. |
| Crc32c.RegisterIsSerial | python/unblob/handlers/filesystem/btrfs_stream.py:254-257 | Which is feeding the bits of the data one at a time. |
| Crc32c.RegisterConcat | python/unblob/handlers/filesystem/btrfs_stream.py:260-271 | Checking in pieces is checking the whole. |
| Crc32c.ValidCrc32 | python/unblob/handlers/filesystem/btrfs_stream.py:260-271 | A command is valid exactly when the stored value is the checksum of header and data; then the position is restored. |
| Crc32c.BurstIsDetected | python/unblob/handlers/filesystem/btrfs_stream.py:254-257 | Messages that differ only within four consecutive bytes have different checksums. |
| Crc32c.CheckValue | python/unblob/handlers/filesystem/btrfs_stream.py:236-248 | A check value that is the polynomial of the standard. |
| QnapCryptor.Cryptor.constructor | python/unblob/handlers/archive/qnap/_qnap.py:31-51 | All key tables are computed for the given secret; the appended byte is never part of the key. |
| QnapCryptor.Cryptor.TableForAcc | python/unblob/handlers/archive/qnap/_qnap.py:53-69 | The table of an accumulator value. |
| QnapCryptor.Cryptor.Kdf | python/unblob/handlers/archive/qnap/_qnap.py:74-84 | With the precomputed table of the current accumulator the key byte is that of a direct computation; only `y` and `z` move. |
| QnapCryptor.Cryptor.DecryptByte | python/unblob/handlers/archive/qnap/_qnap.py:86-90 | The decrypted byte is fed back into the accumulator. |
| QnapCryptor.Cryptor.DecryptChunk | python/unblob/handlers/archive/qnap/_qnap.py:92-93 | A chunk is decrypted byte by byte with threaded state. |
| Cryptor.KeyByteInRange | python/unblob/handlers/archive/qnap/_qnap.py:74-84 | Key bytes stay below 256, and the state stays in range. |
| Pc1.DecryptionIsPc1 | python/unblob/handlers/archive/qnap/_qnap.py:30-96 | For every key, state and text, decryption is that of the PC1 cipher as it is usually written: one pass over the key with sixteen-bit registers and no table, high bytes of words from 128 on counting for one less. |
| Pc1.KnownPlain | python/unblob/handlers/archive/qnap/_qnap.py:30-96 | Two bytes decrypted with a known key, the second of which depends on signed characters. |
| Cryptor.RoundTrip | python/unblob/handlers/archive/qnap/_qnap.py:86-93 | Decryption and plaintext-feedback encryption are inverse to each other from every state. |
| Cryptor.DecryptionIsBijective | python/unblob/handlers/archive/qnap/_qnap.py:86-93 | Decryption from a fixed state is one-to-one and onto the texts of each length. |
| Cryptor.DecryptConcat | python/unblob/handlers/archive/qnap/_qnap.py:92-93 | Decrypting a concatenation is decrypting the parts with threaded state. |
| HexString.TextIsRead | python/unblob/parser.py:45-84 | The emitted text of every pattern, whatever its nesting, is read back as the expression the pattern stands for: no alternation leaks out of its group. |
| HexString.MeaningIsKept | python/unblob/parser.py:45-94 | For all data the emitted expression matches exactly what the pattern matches when a comma is let through at each first-nibble wildcard. |
| HexString.NothingIsLost | python/unblob/parser.py:52-57 | What the pattern matches the expression matches; without a first-nibble wildcard other than ?C nothing else is matched. |
| HexString.ExactIffOnlyCommas | python/unblob/parser.py:52-57 | A pattern without alternatives is compiled exactly if and only if each first-nibble wildcard is ?C, the low digit of the comma. |
| HexString.ClassOfFirstNibble | python/unblob/parser.py:52-57 | The class of a first-nibble wildcard holds the bytes with the low digit, and the comma. |
| HexString.ReadsByteList | python/unblob/parser.py:52-57 | The joined list of bytes is read as a class with the commas as members. |
| HexString.RangeIsSplit | python/unblob/parser.py:67-69 | A range is split at its dash. |
| HexString.GroupsAreBodies | python/unblob/parser.py:71-78 | Grouping the children of an alternative by the separators finds its bodies. |
| HexString.ItemMeaning | python/unblob/parser.py:45-81 | Each item means what its expression means. |
| UfsParser.UFSParser.ReadFileContent | python/unblob/handlers/filesystem/ufs.py:374-383 | What is yielded, put together, is the specified content, and the same exception ends it. |
| UfsParser.UFSParser.ReadIndirectBlocks | python/unblob/handlers/filesystem/ufs.py:394-417 | The trees in turn, up to a zero pointer or the end of the file. |
| UfsParser.UFSParser.Expand | python/unblob/handlers/filesystem/ufs.py:400-406 | The level-by-level list below a pointer. |
| UfsParser.UFSParser.ReadBlockPointers | python/unblob/handlers/filesystem/ufs.py:419-424 | The pointers of a block, or an error for a short one. |
| Ufs.ExpandIsPresent | python/unblob/handlers/filesystem/ufs.py:399-406 | The list made level by level is the depth-first list of data blocks with exactly the blocks below zero pointers left out. |
| Ufs.UnpackIs | python/unblob/handlers/filesystem/ufs.py:419-424 | Pointer k of a block is the number in its own bytes, lowest first, for any width. |
| Ufs.PointersAre | python/unblob/handlers/filesystem/ufs.py:419-424 | The pointers of a block that can be read are the numbers in consecutive bytes of the image from its fragment on, as many as go into a block. |
| Ufs.UsualLimits | python/unblob/handlers/filesystem/ufs.py:423 | These are the pointers below 2^32 in four bytes, and below 2^64 in eight. |
| Ufs.PointersRoundTrip | python/unblob/handlers/filesystem/ufs.py:419-424 | Whatever pointers that fit into their bytes a file system writes into a whole block are read from it. |
| Ufs.ExpandAgrees | python/unblob/handlers/filesystem/ufs.py:399-406 | So its first k entries are the first k blocks of the tree when no zero pointer stands above these, whatever stands above later ones. |
| Ufs.ExpandIffNoHoles | python/unblob/handlers/filesystem/ufs.py:399-406 | It is the whole list of blocks, holes filled with zeros, if and only if no inner pointer is zero. |
| Ufs.ExpandedLength | python/unblob/handlers/filesystem/ufs.py:399-406 | It is as long as the tree is wide if and only if no inner pointer is zero, and shorter otherwise. |
| Ufs.ExpandedLeaf | python/unblob/handlers/filesystem/ufs.py:399-406 | Entry j of the list is where the digits of j in base of the fan-out lead, as long as no block up to j is in a hole. |
| Ufs.ContentIsBlocksRead | python/unblob/handlers/filesystem/ufs.py:374-417 | What is yielded is, byte for byte, the blocks outside of holes, up to the first zero root and the size of the inode. |
| Ufs.FileIsRead | python/unblob/handlers/filesystem/ufs.py:374-417 | A file that ends before its first hole comes out byte for byte and exactly as long as its inode says, whatever stands behind its end. |
| Ufs.HoleIsRead | python/unblob/handlers/filesystem/ufs.py:374-417 | A file that reaches into a hole can come out only by chance: a block that reads as zeros is read in the place of the hole. |
| Ufs.ContentIffNoHole | python/unblob/handlers/filesystem/ufs.py:374-417 | But for that chance, and for any image, a file comes out if and only if no pointer block or needed part of a data block is cut off and it ends before its first hole, a zero pointer above the data blocks or in the place of a root. |
| Ufs.ReadableIsNeeded | python/unblob/handlers/filesystem/ufs.py:374-417 | Whenever a file comes out, no pointer block that is looked at and no needed part of a data block is cut off. |
| Ufs.HoleIsSkipped | python/unblob/handlers/filesystem/ufs.py:399-406 | A concrete image where the list skips a hole. |
| Ufs.HoleMovesBlocks | python/unblob/handlers/filesystem/ufs.py:374-417 | A file in that image that comes out sixteen bytes short, with data in the place of the hole. |
| Ufs.FileLeavesAre | python/unblob/handlers/filesystem/ufs.py:374-417 | Block b of a file is its direct block, or the leaf its digits lead to in the first, second or third tree, or in a hole. |
| Ufs.NeverTooLong | python/unblob/handlers/filesystem/ufs.py:374-417 | Whatever the image holds, no more than the size of the inode is yielded. |
| CpioParser.CPIOParserBase.Parse | python/unblob/handlers/archive/cpio.py:137-209 | Entries are appended and the end offset set as specified, with the same errors. |
| CpioParser.CPIOParserBase.ParseEntry | python/unblob/handlers/archive/cpio.py:139-206 | One turn of the loop: end of file, trailer, or an entry with its checks in order. |
| CpioParser.CPIOParserBase.ValidChecksum | python/unblob/handlers/archive/cpio.py:396-404 | The block-wise sum is that of the contents, modulo 2^32. |
| CpioParser.CPIOParserBase.PadFile | python/unblob/handlers/archive/cpio.py:268-280 | The padded end when all of the padding is there and zero. |
| Cpio.RoundTrip | python/unblob/handlers/archive/cpio.py:137-209 | Every archive of a specification writer is read as written wherever it stands: names, modes, devices, sizes and offsets in order, without the members whose checksum is wrong, and its end with the padding exactly when that is zero. |
| Cpio.ParsesMember | python/unblob/handlers/archive/cpio.py:139-206 | Whatever member was written, good or bad: a name that is too long, not closed by a zero or not text is refused, the name of the trailer ends the archive, an unknown mode is refused, a wrong checksum makes no entry, and otherwise there is the entry that was written; the parser moves behind the padding. |
| Cpio.ModeIs | python/unblob/handlers/archive/cpio.py:183-189 | The accepted modes, by file type and sticky bits. |
| Cpio.EndOfFile | python/unblob/handlers/archive/cpio.py:140-147 | Where less than a header is left the archive ends. |
| Cpio.ChecksumIs | python/unblob/handlers/archive/cpio.py:396-404 | The sum that is compared is that of the bytes, wrapped at 32 bits in each step. |
| Cpio.EntriesAdvance | python/unblob/handlers/archive/cpio.py:138-206 | Every turn of the loop moves on by at least a header. |
| Cpio.NumberIs | python/unblob/handlers/archive/cpio.py:366-392 | A field of eight hexadecimal digits is read as the number that was written. |

## Left out

- Operating system: processes, signals, pipes as such, the parent-death monitor, file permissions and symbolic links; a worker is a state, and it can die at any point.
- The feeder thread of the input queue: an item that was put is available to workers at once.
- The suppressed `EOFError` in `process_until_done`: the output pipe is not closed while the pool runs.
- PoolRuns.MaximalRunsWithDeaths: does not model the reader lock of the input queue, which a worker killed while it waits for an item keeps held; during draining the other workers could then not take their sentinels.
- Pools.MultiPool.Submit: the error for a call from another thread is left out; the pool's callers are in its own thread.
- Pools.MultiPool.constructor: takes a positive number of processes; the source raises `ValueError` for others.
- Pools.MultiPool.ProcessUntilDone: starts from a pool whose root task has been submitted, as `_process_task` does.
- Hyperscan, lark, cstruct, magic and the extractors are parameters: matches per block are an arbitrary ordered list, handlers an arbitrary function of the offset.
- Finder.Context.StreamScanChunks: exceptions of the scanner, which end the search early, are not modelled. The loop is specified wherever it ends.
- Processing.ScanDirectory: the files of multi-files are kept in the order they were found; the source keeps them in a set.
- Reports, randomness, deletion of extracted files and the renaming of carved files in `processing.py`: they do not change which bytes are carved or which subtasks exist.
- Files.IteratePatterns: the empty pattern is left out unless there is nothing to read, since the source then searches without end.
- Files.RoundUpIsLeast: rounds in integers; the source divides in floating point, which differs for sizes beyond 2^53.
- Bit operations on numbers that cannot overlap are written as sums, products of powers of two and remainders; exclusive or is defined on naturals.
- HexString: parsing of the pattern text, white space and comments are the parser library's; numbers are digits only, and a range has its bounds in order, as a regular expression needs. A final `$` matches at the end of the data only.
- UCL: the errors of the decompressor are one and the same failure here.
- Lzw.Unlzw: the heuristic that takes one byte off the end is kept as it is, and no claim is made about it beyond its bounds.
- Lzw.StartCostsSkips: is one direction with a slack of 16 bytes; the exact results are `Lzw.FoundIffDoneInside` and, for streams that are not cleared, `Lzw.AcceptedIff`.
- ISO 9660: how a descriptor is parsed; one that cannot be parsed is one of size zero, which leads to no chunk either.
- Xz: searching for footers, and matching stream flags; a payload that looks like a footer is a matter of chance.
- The other commands of btrfs send streams, their decompression and replay.
- QNAP: the header of the encrypted image and the derivation of its secret.
- UFS: the super block, inodes and directories; block, fragment and pointer sizes are given.
- CPIO: the binary and old ASCII headers, which differ in field widths and padding; how Python reads numbers that are not plain hexadecimal digits, and UTF-8, are parameters. Writing entries to disk.
- Other handlers: most of them add header fields to get an end offset.
