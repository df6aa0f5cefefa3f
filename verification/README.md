# libzorpll in Dafny

libzorpll is the low-level C library under the Zorp firewall. This project models eleven of its source
files and proves what they promise: that swapping a blob to disk cannot be noticed by readers of it, that
counters shared by threads stay exact, that results do not depend on how input is cut into reads, that
what is written is read back, and that caches agree with what they cache.

Code that changes things in place is a class whose methods have the loops and the assignments of the C
functions (files `*_heap.dfy`, and the classes at the end of `thread_pool.dfy` and `stream_buf.dfy`). Every
method is proved equal to a function on values, and the theorems are about these functions. Where threads
share state, the functions become the steps of a transition system: one step is what a thread does between
two points where others can come in, a run is any sequence of possible steps, and the theorems hold for all
runs.

| files | what they model | main results |
|---|---|---|
| `blob_image`, `blob_store`, `blob_heap`, `blob_protocol`, `blob_steps`, `blob_read`, `blob_new` | the blob store of `src/blob.c` | `SwappingIsInvisible`, `ReadIsSlice`, `CountersAreExact`, `SleepersWakeOnlyWhenCharged`, `WhatIsTakenWasAskedFor`, `NewBlobBreaksTheBooks` |
| `mem_trace`, `mem_trace_heap` | the allocation tracer of `src/memtrace.c` | `OnePlaceEach`, `RunRefines`, `TracerIsAMap` |
| `stream_line`, `line_bytes`, `stream_line_heap` | the line reader of `src/streamline.c` | `ChunkingDoesNotMatter`, `AnyPieces`, `TruncatedLinesAreTheSplit`, `SplittingIsLossless` |
| `base64_encode`, `base64_decode`, `base64_alphabet`, `base64_heap` | the base64 coder of `src/code_base64.c` and `src/code.c` | `StreamingIsOneShot`, `StrictDecodesExactlyEncodings`, `ForeignCharacter`, `RoundTrip` |
| `log_spec`, `log_text`, `log_protocol`, `log_levels`, `log_heap` | logspecs and verbosity caches of `src/log.c` | `GlobMatch`, `CachesAreCoherent`, `AnsweredByTheNewestSpec`, `OverlapLeavesAStaleAnswer` |
| `random_bounded` | bounded random bytes, `src/random.c` | `GetBounded`, `ScalingIsNearlyEven`, `ScalingIsOnto` |
| `thread_pool` | the thread pool of `src/thread.c` | `EveryJobHasOnePlace`, `NoOvertaking`, `NoJobIsStranded` |
| `stream_buf` | the write buffer of `src/streambuf.c` | `WritesAreConserved`, `FlushInNumbers` |
| `packet_buf`, `packet_buf_heap` | the packet buffer of `src/packetbuf.c` | `FieldsRoundTrip` |
| `url_parse`, `url_shapes`, `url_parse_heap` | the URL parser of `src/zurlparse.c` | `AcceptsExactly`, `UrlRoundTrip`, `AbortsExactly` |
| `text_scan`, `octets`, `arithmetic`, `sequences`, `wrappers` | scanning as in the C library; zero-filled byte strings; what the modules share | |

Where a theorem relies on which characters, digits or limits the C code has, a lemma says it again with these
written out: the alphabet and the blanks of base64 in `base64_alphabet`, end marks in `line_bytes`, what a
pattern may have and what `strtoul` reads in `log_text`, hexadecimal digits and separators in `url_shapes`.

## What the code does not do

Some claims one would like to make do not hold of the C code. For each of them the project has the exact
condition under which they hold.

- `z_blob_get_copy` looks at the size of the blob without the lock, and copies under the lock the length it has
  settled on. A read gets bytes at all exactly if the file or the block still reaches so far
  (`BlobImage.FetchOutcome`), and whether a blob has been swapped out shows to exactly those reads that reach
  beyond its size (`BlobImage.SwapOutShows`). It returns the slice that was asked for exactly if its looks have
  settled on the right length for the size at the time of the copy (`BlobRead.ReadIsSlice`), and always if
  nobody commits or writes to the blob meanwhile (`BlobRead.UndisturbedReadIsSlice`). Otherwise, whatever a read
  has settled on, the blob can be made too small for it while it waits: then it never ends, holding the lock,
  or copies from behind the block (`BlobRead.ShrinkingSpoils`, and `BlobRead.ShrinkingSpoilsARead` from a new
  system); a write can make it return a slice of neither the bytes before nor those after
  (`BlobRead.WritingSpoils`, `BlobRead.WritingSpoilsARead`); and if the size falls below the position between
  two looks, the length wraps around (`BlobRead.LateShrinkWraps`).
- Even undisturbed reads of a blob in its swap file cannot return all of it, and the read loop does not end,
  exactly if the file is shorter than the size. Of all steps only adding zero bytes beyond the end of the file
  makes it so (`BlobImage.GetCopyIsSlice`, `BlobImage.StoreOverlays`, `BlobImage.EmptyAppendCanSpin`).
- `z_blob_alloc` warns that the blob must be locked, but `z_blob_new` with an initial size calls it without
  the lock. If the management thread then swaps the new blob in, the counters are wrong exactly if the blob
  has been granted bytes that it has not taken yet; no other step does any harm
  (`BlobNew.MoveKeepsInv`; `BlobNew.NewBlobBreaksTheBooks` is a run).
- Blobs in files may grow beyond `disk_max`. From then on the difference of the two unsigned counters wraps,
  and blobs that are not pinned are granted what they ask for
  (`BlobStore.DeniedExactlyWhenNeitherFits`, `BlobStore.ExceededDiskLimitGrantsEverything`).
- The line reader with `ZRL_TRUNCATE` checks only the last block that it drops of a long line, and as if it
  were a line of its own. So its lines are the split at the end mark, each cut to the buffer size, if and only
  if the bytes are clean in that sense (`StreamLine.TruncatedLinesAreTheSplit`). With `ZRL_EOL_FATAL` a
  correct CRLF line is reported as a bad one exactly if its LF begins a block (`StreamLine.GoodLineIsBad`,
  `StreamLine.CutBeforeTheLfIsAnError`), and a NUL among the dropped bytes may be an error
  (`StreamLine.DroppedNulIsAnError`).
- After a call of the line reader has failed, later calls fail too exactly if a complete line was already
  buffered when that call began, or a line is too long (with neither `ZRL_TRUNCATE` nor `ZRL_SPLIT`), or the
  child failed (`StreamLine.ErrorSticksIffLineWasBuffered`). A bad line that is read in the call that fails is
  simply skipped, so from there on the cutting does matter (`StreamLine.CuttingMattersAfterAnError`).
- When the last line has no end mark and is longer than the destination of a copying get, what was not copied
  is never handed out (`StreamLine.NothingAfterTheEnd`).
- The byte cache of log verbosities gives a level back, or nothing, exactly if the level is from 0 to 254 or
  leaves remainder 255 when divided by 256 (`LogCaches.ByteIsExact`).
- `z_log_change_verbose_level` reads the old level before it takes the lock and compares it with the level
  after. It leaves out clearing the caches exactly if these are equal, which after a change can only be if
  another change came in between; then an answer can stay stale for good
  (`LogCaches.SkipsOnlyWhenOverlapped`, `LogCaches.OverlapLeavesAStaleAnswer`): exactly the unflagged values and
  the bytes that are older than the spec of this change, if it is still current, and contradicted by it, and
  that no other change has yet to clear (`LogCaches.LeftOutClearLeaves`, `LogCaches.LeftOutClearLeavesByte`).
- `z_log_enabled_len` looks at the items and the level of the spec without the lock, also while they are being
  changed. While `z_log_change_logspec` is between freeing the items of a spec that has some and copying those
  of the new one, a call takes the fast path and answers by the default level (`LogCaches.SeenWiped`), which is
  right for a tag if and only if the first item for it, if any, has that level (`LogSpec.ByDefaultExactly`), and
  for all tags if and only if every item that decides anything has it (`LogSpec.OneLevelForAll`); in `LogCaches.WipedSpecSpoilsAnAnswer` both specs say yes and the call says no,
  although no changes overlap. A level out of range can be seen before it is corrected
  (`LogCaches.SeenRaw`, `LogCaches.LevelOutOfRangeIsSeen`, `LogCaches.RawLevelSpoilsAnAnswer`). Calls that look
  while nobody changes the spec are right (`LogCaches.CalmCallsAreRight`).
- A logspec may begin with separators, but no text that ends in a comma is one
  (`LogSpec.LastCommaIsInvalid`).
- The encoder's `linelen` is documented as the line length of the output; the lines have one character more
  (`Base64Encode.LaidIsLines`).
- The encoder does not reserve all that it writes. The byte that is half built after a transform lies one
  place behind the reservation under an exact condition on phases, lengths and line places
  (`Base64Encode.OpenByteDoesNotFit`), and finishing writes up to seven bytes for which nothing is reserved,
  seven exactly if one byte of a group is open and at most two more characters fit on the line
  (`Base64Encode.FinishGrowth`, `Base64Encode.FinishCanAddSeven`). The buffer of the model is longer by this
  slack.
- The URL parser aborts exactly on URLs with four separators between the scheme and the first slash
  (`UrlParse.AbortsExactly`), and reads an empty port as zero (`UrlParse.EmptyPortIsZero`).

## Model

| member | source | states |
|---|---|---|
| `BlobImage.SwapOutInvisible` | src/blob.c:84-126 | swapping out moves a blob to its file unless it is pinned or there, and changes neither contents nor allocation |
| `BlobImage.SwapInInvisible` | src/blob.c:294-344 | swapping in neither, and the blob can be read afterwards |
| `BlobImage.CommitClips` | src/blob.c:907-924 | a granted change of the allocation clips the contents or leaves them, in memory and in the file |
| `BlobImage.StoreOverlays` | src/blob.c:985-1020 | adding bytes lays them over the zero-extended contents; readability is lost exactly when nothing is added beyond the end of a swap file |
| `BlobImage.FetchOutcome` | src/blob.c:1054-1092 | what is copied under the lock, for any length: exactly when bytes, an endless loop, or bytes from behind the block; and which bytes |
| `BlobImage.FetchIsSlice` | src/blob.c:1050-1092 | it is the slice that was asked for exactly if the length is still the right one |
| `BlobImage.SwapOutShows` | src/blob.c:84-126 | whether a blob has been swapped out makes a difference exactly to copies beyond its size |
| `BlobImage.GetCopyIsSlice` | src/blob.c:1040-1096 | all reads that nothing comes between return the slice of the contents if and only if the file reaches as far as the size |
| `BlobImage.EmptyAppendCanSpin` | src/blob.c:970-1096 | an input on which the read loop does not end |
| `BlobStore.DecideBalances` | src/blob.c:149-222 | a decision charges what it grants, at once and on the right counter; memory is never overcommitted; contents stay |
| `BlobStore.DeniedExactlyWhenNeitherFits` | src/blob.c:149-222 | the exact condition under which a request is denied, also when the disk limit is exceeded |
| `BlobStore.DecisionMovesExactly` | src/blob.c:149-222 | exactly when a decision moves a blob to a file: memory has no room for the request and the disk has, and the blob is not pinned |
| `BlobStore.ExceededDiskLimitGrantsEverything` | src/blob.c:149-200 | growth in a file is granted beyond the disk limit, and after it blobs in memory are granted anything |
| `BlobStore.NewBudget` | src/blob.c:515-533 | a new system has empty counters; each water mark is the largest number below the memory limit that is not above what was asked for |
| `Arithmetic.HalvedIsLeast` | src/blob.c:870-875 | the first shift loop divides by the least power of two that brings the allocation down to the request |
| `BlobHeap.Blob.constructor` | src/blob.c:666-713 | a new blob is empty and in memory |
| `BlobHeap.Blob.SignalReady` | src/blob.c:135-140 | the flag that the sleeper waits for is set |
| `BlobHeap.Blob.RequestedAllocSize` | src/blob.c:863-882 | what the two shift loops settle on, in numbers: the allocation divided by the least power of two that brings it down to the request, times the least that brings it up again |
| `BlobHeap.Blob.Commit` | src/blob.c:907-924 | the object after a granted change is the value after it |
| `BlobHeap.Blob.AddCopy` | src/blob.c:985-1027 | the bytes are laid over the contents; validity is kept |
| `BlobHeap.Blob.GetCopy` | src/blob.c:1040-1096 | run alone, the reading of the object is that of the value, in memory or from the file |
| `BlobHeap.BlobSystem.SwapOut` | src/blob.c:84-126 | a pinned blob, or one in its file, is left alone; otherwise the bytes move from one counter to the other, and blob and counters change as on values |
| `BlobHeap.BlobSystem.CheckAlloc` | src/blob.c:149-222 | the decision, its effect on blob and counters, and the MEM_FREED message |
| `BlobHeap.BlobSystem.Destroy` | src/blob.c:735-776 | a blob that dies gives its bytes back, announces them, and is unlinked, the others keeping their order |
| `BlobHeap.BlobSystem.CheckAgain` | src/blob.c:434-441 | a waiting request is decided again, and answered, with the approval, if granted |
| `BlobHeap.BlobSystem.CheckWaitingAt` | src/blob.c:432-445 | one blob of the walk leaves the waiting list exactly if granted |
| `BlobHeap.BlobSystem.CheckWaiting` | src/blob.c:427-445 | the walk over the waiting list ends as the walk on values: who stays, who is answered, every blob, the counters |
| `BlobHeap.BlobSystem.SwapInOne` | src/blob.c:294-344 | moving one blob into memory changes no contents and moves its bytes between the counters |
| `BlobHeap.BlobSystem.Best` | src/blob.c:269-292 | the inner loop finds an eligible blob of greatest factor, or none if there is none |
| `BlobHeap.BlobSystem.SwapInBest` | src/blob.c:267-346 | one round: the sum of the counters stays, fewer blobs are in files |
| `BlobHeap.BlobSystem.SwapIn` | src/blob.c:233-348 | the loop ends, keeps mem_used + disk_used and all contents, stays below the high water mark, and leaves no blob that would fit |
| `BlobProtocol.OnlySleepersAreNamed` | src/blob.c:404-452 | a request that is being handled belongs to a blob that sleeps |
| `BlobProtocol.StepKeepsShapeAndBooks` | src/blob.c:149-470 | every step of any thread keeps the counters exact and the blobs well formed |
| `BlobProtocol.StepKeepsMail` | src/blob.c:404-466 | every step keeps each sleeper's request in exactly one of the queue, the hands of the management thread, and the waiting list |
| `BlobProtocol.StepKeepsInv` | src/blob.c:149-930 | every step of any thread keeps the invariant |
| `BlobProtocol.After` | src/blob.c:386-470 | the invariant holds where any run ends |
| `BlobProtocol.NewSystemIsFresh` | src/blob.c:515-548 | a new system satisfies the invariant |
| `BlobProtocol.StepRefines` | src/blob.c:84-1027 | what readers may see changes in a step as plain byte strings do |
| `BlobProtocol.RunRefines` | src/blob.c:84-1027 | so it does in a run; and all blobs stay readable if nothing is truncated |
| `BlobProtocol.CountersAreExact` | src/blob.c:149-222 | in every reachable state mem_used and disk_used are the allocations on their side plus what was granted and not yet taken, and mem_used is at most mem_max |
| `BlobProtocol.SleepersWakeOnlyWhenCharged` | src/blob.c:404-466 | a sleeper is woken only by a grant, in the step that charges its bytes |
| `BlobProtocol.SwapInUnderAGrantBreaksTheBooks` | src/blob.c:294-344 | a blob swapped in whatever its owner is doing breaks the books if and only if a grant that is not zero is still to be taken |
| `BlobSteps.WhatIsPosted` | src/blob.c:217-221 | in every step: messages are taken in the order they were posted; a request is posted by the denied owner, and MEM_FREED exactly by the steps that give bytes back |
| `BlobSteps.WhoMoves` | src/blob.c:84-344 | in every step: a blob goes to its file exactly if its owner asks for the file or for more than memory has left and no more than the disk has, and comes back exactly by swapping in, which ends at most at the high water mark; pinned blobs stay, and only their owners pin and release them |
| `BlobSteps.WhenItSwaps` | src/blob.c:236-239 | swapping in begins exactly when memory is below its low water mark and the disk is not below the high one |
| `BlobSteps.WhatIsTakenWasAskedFor` | src/blob.c:884-924 | whatever happens between asking and taking, the allocation becomes the one that was asked for |
| `BlobSteps.OnlyWaitersWait` | src/blob.c:386-466 | where no thread inside a call can move, the queue is empty, the management thread idle, and only owners of blobs in the waiting list wait |
| `BlobSteps.OwnersCanMove` | src/blob.c:843-1027 | a free blob can be locked; who holds the lock can ask for any other size while the mutex is free, and write inside the allocation |
| `BlobSteps.ManagerCanSwap` | src/blob.c:267-344 | any free blob in a file that fits below the high water mark can be swapped in |
| `BlobRead.SwappingIsInvisible` | src/blob.c:84-1096 | in any run, with the unlocked looks and the locked copy of each read as steps of their own, all reads come as far and end as the same reads of plain byte strings, unless these would copy beyond the end |
| `BlobRead.SettlesExactly` | src/blob.c:1050-1053 | when the looks settle on the right length, in terms of the sizes they see |
| `BlobRead.ReadIsSlice` | src/blob.c:1040-1096 | in any run a read returns the slice of what the blob held when it copied exactly if its looks settled on the right length; inside the blob it always gets the bytes of one moment |
| `BlobRead.UndisturbedReadIsSlice` | src/blob.c:1040-1096 | after any run, a read during which nobody commits or writes to its blob returns the slice that was asked for |
| `BlobRead.ShrinkingSpoils` | src/blob.c:843-1096 | from any state, a waiting read can be made endless or reach behind the block |
| `BlobRead.WritingSpoils` | src/blob.c:985-1096 | from any state, a read that has settled on too little can be made to return a slice of neither the bytes before nor those after |
| `BlobRead.LateShrinkWraps` | src/blob.c:1052-1053 | a size that falls below the position before the last look makes the length wrap around |
| `BlobRead.ShrinkingSpoilsARead` | src/blob.c:843-1096 | a run from a new system to an endless read, and one to a read behind the block |
| `BlobRead.WritingSpoilsARead` | src/blob.c:985-1096 | a run from a new system to a slice of neither |
| `BlobNew.MoveKeepsInv` | src/blob.c:700-713 | with z_blob_new asking unlocked, exactly the swap-in of a new blob under such a grant breaks the invariant, and no other step of any thread |
| `BlobNew.NewBlobBreaksTheBooks` | src/blob.c:267-344 | a run from a new system, through z_blob_new with an initial size, after which the counters are wrong |
| `MemTrace.Hash` | src/memtrace.c:229-233 | the bucket of a pointer is in range |
| `MemTrace.HashIs` | src/memtrace.c:229-233 | it is bits 3 to 17 of the pointer |
| `MemTrace.TakeKeeps` | src/memtrace.c:533-555 | taking the first free entry keeps lists, buckets and counters |
| `MemTrace.FillKeeps` | src/memtrace.c:557-559 | filling an entry that is held keeps them |
| `MemTrace.LinkKeeps` | src/memtrace.c:560-567 | putting it at the head of its chain keeps them |
| `MemTrace.UnlinkKeeps` | src/memtrace.c:589-608 | taking the first matching entry out of its chain keeps them |
| `MemTrace.ReleaseKeeps` | src/memtrace.c:610-632 | giving it back to the free list keeps them |
| `MemTrace.After` | src/memtrace.c:524-635 | lists, buckets and counters are good where any interleaving ends |
| `MemTrace.OnePlaceEach` | src/memtrace.c:193-204 | every index is on the free list, on one chain, its own, or in the hands of a thread |
| `MemTrace.FullWhenAllAreCounted` | src/memtrace.c:533-539 | there is no free entry exactly if as many blocks are counted as there are entries |
| `MemTrace.ThreadsCanGoOn` | src/memtrace.c:524-635 | nobody is stuck: an entry can be taken while fewer blocks are counted than there are entries, held entries can be filled, linked and given back, and what is traced can be unlinked |
| `MemTrace.FindIsTop` | src/memtrace.c:637-649 | a lookup finds the newest entry of a pointer, and removing it leaves the others |
| `MemTrace.HasIsNonempty` | src/memtrace.c:637-676 | a pointer is found exactly if something is traced for it |
| `MemTrace.StepRefines` | src/memtrace.c:524-635 | only the critical sections on the chains change what is traced for a pointer |
| `MemTrace.RunRefines` | src/memtrace.c:524-635 | with any interleaving, what is traced for a pointer is a stack to which adds push and from which dels pop |
| `MemTrace.InitialGood` | src/memtrace.c:164-207 | the initial lists are good: 300000 free entries and 32768 empty chains |
| `MemTrace.CountersAtRest` | src/memtrace.c:524-635 | at rest, block count and allocated size are cardinality and sum of the map from pointers to sizes |
| `MemTrace.LookupsAtRest` | src/memtrace.c:651-676 | at rest, lookups answer from that map |
| `MemTrace.OneSizeIsOneEntry` | src/memtrace.c:524-635 | a pointer with at most one size has at most one entry |
| `MemTrace.TracerIsAMap` | src/memtrace.c:164-676 | after any run in which blocks are linked only while untraced, at rest: the map the adds and dels leave, its cardinality and its sum |
| `TracerHeap.Tracer.constructor` | src/memtrace.c:164-207 | the arrays are set up as the initial state, with 300000 entries |
| `TracerHeap.Tracer.InitLinks` | src/memtrace.c:193-204 | the loop links all entries into the free list |
| `TracerHeap.Tracer.Take` | src/memtrace.c:533-555 | the object changes as the value; it fails exactly if no entry is free |
| `TracerHeap.Tracer.Fill` | src/memtrace.c:557-559 | the object changes as the value |
| `TracerHeap.Tracer.Link` | src/memtrace.c:560-567 | the object changes as the value |
| `TracerHeap.Tracer.Add` | src/memtrace.c:524-577 | an add pushes the size for its pointer and touches no other; it fails exactly if as many blocks are counted as there are entries |
| `TracerHeap.Tracer.Lookup` | src/memtrace.c:637-649 | the chain walk finds the first entry of a pointer |
| `TracerHeap.Tracer.GetSize` | src/memtrace.c:651-676 | the size on top, or -1 |
| `TracerHeap.Tracer.WalkChain` | src/memtrace.c:591-604 | the chain walk of del ends at the first entry and the one before it |
| `TracerHeap.Tracer.Unlink` | src/memtrace.c:589-608 | the object changes as the value, if the pointer is there |
| `TracerHeap.Tracer.Release` | src/memtrace.c:610-632 | the object changes as the value |
| `TracerHeap.Tracer.Del` | src/memtrace.c:579-635 | a del pops for its pointer and touches no other; it fails exactly if nothing is traced |
| `StreamLine.ScanFinds` | src/streamline.c:119-197 | a buffered line is the next line of all bytes, whatever comes later |
| `StreamLine.ScanFindsNothing` | src/streamline.c:119-197 | without one the buffered bytes are kept and moved to the front |
| `StreamLine.NextExtends` | src/streamline.c:214-375 | what can be said of the bytes so far stays true when more come |
| `StreamLine.LoopRefines` | src/streamline.c:263-375 | the read loop does to buffer and child what the bytes alone say |
| `StreamLine.GetRefines` | src/streamline.c:214-375 | so does a call: the next line, nothing lost at AGAIN, the end and errors in their place |
| `StreamLine.DriveIsLines` | src/streamline.c:214-375 | all calls together return the lines of the bytes |
| `StreamLine.ChunkingDoesNotMatter` | src/streamline.c:120-375 | two children that deliver the same bytes in any pieces, with any AGAINs, give the same lines |
| `LineBytes.GetGivesBody` | src/streamline.c:120-185 | on the bytes: a get of a complete line fails exactly if there is a NUL in it that is not allowed, or with ZRL_EOL_CRLF and ZRL_EOL_FATAL no CR before its LF; otherwise it returns the line without its end mark, or with it if asked for |
| `LineBytes.BufferedGivesBody` | src/streamline.c:120-256 | the same for a line that is buffered already, where the error is stored |
| `LineBytes.GetWithoutBytes` | src/streamline.c:224-375 | while no complete line is buffered: AGAIN from the child is handed on and nothing is lost, an error is stored, and at the end what is buffered is the last line |
| `LineBytes.FirstLine` | src/streamline.c:120-375 | the first of all the lines, on the bytes, also as the tail of one that was cut |
| `LineBytes.FullBuffer` | src/streamline.c:263-314 | what becomes of as many bytes without end mark as the buffer has: cut, handed out in part, or an error |
| `LineBytes.LastBytes` | src/streamline.c:316-343 | what becomes of the last bytes without end mark |
| `LineBytes.AnyPieces` | src/streamline.c:120-375 | whatever pieces the bytes come in, what a new reader hands out begins with their first line, or is the error |
| `StreamLine.TruncatedLinesAreTheSplit` | src/streamline.c:263-343 | with ZRL_TRUNCATE the lines are the split at the end mark, each cut to the buffer size, if and only if the bytes are clean |
| `StreamLine.LenientIsClean` | src/streamline.c:140-172 | with NULs and bare LFs allowed all bytes are clean |
| `StreamLine.GoodLineIsBad` | src/streamline.c:156-172 | a correct CRLF line that is too long is refused exactly if its LF begins a block |
| `StreamLine.CutBeforeTheLfIsAnError` | src/streamline.c:156-172 | an input for which it is |
| `StreamLine.DroppedNulIsAnError` | src/streamline.c:140-154 | an input with a NUL among the bytes to be dropped |
| `StreamLine.ErrorSticksIffLineWasBuffered` | src/streamline.c:224-375 | exactly when an error is stored: the line was buffered, or is too long, or the child failed |
| `StreamLine.TooLongIs` | src/streamline.c:265-314 | exactly when a line is too long |
| `StreamLine.CuttingMattersAfterAnError` | src/streamline.c:224-375 | three lines of which the second is bad: read together the third is lost, read one by one it is not |
| `StreamLine.GetCopyKeeps` | src/streamline.c:430-499 | copying out part of a line leaves exactly the rest |
| `LineBytes.GetCopyGives` | src/streamline.c:430-499 | a copying get returns a line that fits the destination whole; a longer one is an error without ZRL_SPLIT, and with it is handed out in part, the rest staying buffered |
| `StreamLine.SplittingIsLossless` | src/streamline.c:183-499 | with ZRL_SPLIT and ZRL_RETURN_EOL, all that gets of both kinds return, followed by what is left, is what there was |
| `StreamLine.NothingAfterTheEnd` | src/streamline.c:230-499 | what a copying get does not copy of a last line without end mark is never returned by any calls, whatever the flags |
| `LineReader.ZStreamLine.constructor` | src/streamline.c:1064-1080 | an empty buffer of the configured size |
| `LineReader.ZStreamLine.Memchr` | src/streamline.c:74-91 | the place of the end mark in the buffered bytes |
| `LineReader.ZStreamLine.MoveToFront` | src/streamline.c:188-195 | the buffered bytes are moved, and nothing else |
| `LineReader.ZStreamLine.Cut` | src/streamline.c:133-155 | the line is taken from the buffer; whether it holds a forbidden NUL |
| `LineReader.ZStreamLine.GetFromBuf` | src/streamline.c:119-197 | buffer, positions and result are those of the function on values |
| `LineReader.ZStreamLine.MakeRoom` | src/streamline.c:265-314 | a full buffer without a line: dropped, handed out, or an error |
| `LineReader.ZStreamLine.ReadInto` | src/streamline.c:316-328 | the bytes of the child go behind those buffered |
| `LineReader.ZStreamLine.TakeLine` | src/streamline.c:329-360 | what follows a read, including the end of a tail that is dropped |
| `LineReader.ZStreamLine.ReadLoop` | src/streamline.c:263-375 | the loop ends as the function on values, for any child |
| `LineReader.ZStreamLine.LoopBody` | src/streamline.c:263-375 | one round of it |
| `LineReader.ZStreamLine.GetInternal` | src/streamline.c:214-375 | so does the call |
| `LineReader.ZStreamLine.LeaveRest` | src/streamline.c:460-471 | the positions after a line was handed out in part |
| `LineReader.ZStreamLine.GetCopyInto` | src/streamline.c:430-499 | the copying get is the function on values |
| `Base64Encode.AlphabetsAgree` | src/code_base64.c:81-305 | the decoding table inverts the encoding table |
| `Base64Alphabet.ThreeAreFourLetters` | src/code_base64.c:79-180 | three bytes are encoded as the four letters, from the alphabet written out, that have the same 24 bits |
| `Base64Alphabet.TwoAreThreeLetters` | src/code_base64.c:79-221 | two bytes as three letters and one padding character |
| `Base64Alphabet.OneIsTwoLetters` | src/code_base64.c:79-221 | one byte as two letters and two padding characters |
| `Base64Alphabet.GroupsFollow` | src/code_base64.c:136-187 | groups of three are encoded one after another |
| `Base64Alphabet.LinesAt` | src/code_base64.c:91-98 | which character stands where: lines of linelen + 1 characters, each followed by CR and LF, and so is the last |
| `Base64Alphabet.FourLettersAreThree` | src/code_base64.c:286-407 | four letters are decoded to the three bytes that have the same 24 bits |
| `Base64Alphabet.ThreeLettersAreTwo` | src/code_base64.c:286-407 | three letters and a padding character to two bytes, the spare bits being dropped |
| `Base64Alphabet.TwoLettersAreOne` | src/code_base64.c:286-407 | two letters and two padding characters to one byte |
| `Base64Alphabet.EarlyPadding` | src/code_base64.c:331-344 | padding after less than two letters: an error, or skipped |
| `Base64Alphabet.LetterAfterPadding` | src/code_base64.c:371-384 | a letter after a first padding character: an error, or the start of a new group |
| `Base64Alphabet.ForeignCharacter` | src/code_base64.c:286-369 | a character that is no letter, no padding and no blank stops the strict decoder, which counts one error, and makes no difference to the tolerant one |
| `Base64Alphabet.BlankCharacter` | src/code_base64.c:286-330 | tab, LF, CR and space make no difference to either |
| `Base64Encode.Sextets` | src/code_base64.c:156-180 | four sextets are the same 24 bits as three bytes |
| `Base64Encode.EmittedGrows` | src/code_base64.c:156-180 | a byte completes exactly the letters that its place in the group settles, whatever came before |
| `Base64Encode.PaddingCompletes` | src/code_base64.c:198-221 | padding what is open completes the encoding of section 4 of RFC 4648 |
| `Base64Encode.LaidIsLines` | src/code_base64.c:89-99 | counting characters and breaking after linelen + 1 lays out lines of that length, the last one shorter |
| `Base64Encode.EncodeKeeps` | src/code_base64.c:136-187 | after a transform the encoder holds the letters of all input so far and the open sextet |
| `Base64Encode.FinishCompletes` | src/code_base64.c:198-231 | a finish completes the encoding and starts anew |
| `Base64Encode.TakeKeeps` | src/code.c:83-103 | a drain keeps the open sextet |
| `Base64Encode.Drained` | src/code.c:83-103 | a drain takes from the front as much as it has room for, or all |
| `Base64Encode.StreamingIsOneShot` | src/code_base64.c:136-231 | for any calls, what was drained and what is left is the one-shot encoding, in lines, of each finished input |
| `Base64Encode.OneShot` | src/code_base64.c:136-231 | the pieces of an input do not matter |
| `Base64Encode.BreaksAre` | src/code_base64.c:89-99 | how many line breaks there are |
| `Base64Encode.TransformGrowth` | src/code_base64.c:136-187 | a transform of n bytes adds exactly n + (n + phase) / 3 characters and two bytes for each line break |
| `Base64Encode.TransformFits` | src/code_base64.c:114-180 | the finished output of a transform stays inside what is reserved for it |
| `Base64Encode.AllBreaksUsed` | src/code_base64.c:113-125 | exactly when all that is reserved for line breaks is used |
| `Base64Encode.OpenByteDoesNotFit` | src/code_base64.c:114-180 | exactly when the byte that is half built lies one place behind it |
| `Base64Encode.FinishGrowth` | src/code_base64.c:198-231 | finishing adds at most seven bytes, and exactly when it is seven |
| `Base64Encode.FinishCanAddSeven` | src/code_base64.c:198-231 | an input for which it is |
| `Base64Decode.DecodeIsWalk` | src/code_base64.c:284-415 | blanks and line breaks have no effect on the decoder |
| `Base64Decode.FourIsQuantum` | src/code_base64.c:330-407 | four significant characters are accepted exactly if they are a group of RFC 4648, and give its bytes |
| `Base64Decode.StrictDecodesExactlyEncodings` | src/code_base64.c:284-447 | for every text: the strict decoder takes it and finishes exactly if its significant characters are an encoding, and then gives its meaning |
| `Base64Decode.ErrorsAreCounted` | src/code_base64.c:284-415 | a strict decoder counts the error it stops at; a tolerant one never stops, nor does its finish fail; a finish keeps output and errors and starts anew |
| `Base64Decode.TolerantAgrees` | src/code_base64.c:284-415 | where the strict decoder finds no error the tolerant one gives the same |
| `Base64Decode.DecodeFits` | src/code_base64.c:313-315 | the output is no longer than what is reserved for it |
| `Base64Decode.ParseInvertsBase64` | src/code_base64.c:79-447 | the meaning of an encoding is what was encoded |
| `Base64Decode.LinesAreSkipped` | src/code_base64.c:89-330 | line breaks have no meaning |
| `Base64Decode.UsesAreOneDecode` | src/code_base64.c:284-415 | neither cuts in the text nor drains in between matter to the decoder |
| `Base64Decode.RoundTrip` | src/code_base64.c:79-447 | any bytes, any line length, any pieces and drains on both sides, any number of finishes: the strict decoder accepts and gives back what went in |
| `Arithmetic.Doubled` | src/code.c:31-41 | the size settled on is large enough and less than twice what is asked for |
| `Arithmetic.DoubledIsLeast` | src/code.c:31-41 | it is the old size times the least power of two that suffices |
| `Base64Coder.ZCode.constructor` | src/code.c:176-185 | an empty buffer of the size asked for, or of 256 bytes |
| `Base64Coder.ZCode.Grow` | src/code.c:26-47 | the buffer grows by the least power of two that suffices; contents and open byte are kept |
| `Base64Coder.ZCode.GetResult` | src/code.c:83-103 | the front is taken, the open byte stays behind the rest |
| `Base64Coder.ZCodeBase64Encode.constructor` | src/code_base64.c:240-251 | a fresh encoder |
| `Base64Coder.ZCodeBase64Encode.Fix` | src/code_base64.c:78-100 | the byte behind the output becomes a letter or a padding character, and lines are broken |
| `Base64Coder.ZCodeBase64Encode.TransformByte` | src/code_base64.c:156-180 | the object changes as the value, phase by phase |
| `Base64Coder.ZCodeBase64Encode.Transform` | src/code_base64.c:136-187 | the loop encodes all bytes inside what was reserved |
| `Base64Coder.ZCodeBase64Encode.Finish` | src/code_base64.c:198-231 | the object changes as the value |
| `Base64Coder.ZCodeBase64Decode.constructor` | src/code_base64.c:457-470 | a fresh decoder |
| `Base64Coder.ZCodeBase64Decode.TransformByte` | src/code_base64.c:326-407 | the object changes as the value, phase by phase |
| `Base64Coder.ZCodeBase64Decode.Transform` | src/code_base64.c:284-415 | the loop decodes up to the first error, inside what was reserved |
| `Base64Coder.ZCodeBase64Decode.Finish` | src/code_base64.c:428-447 | it fails exactly if strict and in the middle of a group |
| `LogSpec.MatchesStep` | src/log.c:392-431 | comparing first components decides a match unless both go on |
| `LogText.ComponentsAreBetweenDots` | src/log.c:392-431 | components are what stands between the dots |
| `LogSpec.GlobMatch` | src/log.c:392-431 | the loop says yes exactly if the components of the pattern fit the first components of the tag |
| `LogSpec.FirstMatchDecides` | src/log.c:442-459 | the level is that of the first item that matches, or the default |
| `LogSpec.EvalSpec` | src/log.c:442-459 | the loop finds that level |
| `LogSpec.SpecInit` | src/log.c:497-548 | the parsing loop gives the items of the text in order, or fails |
| `LogSpec.SpecRoundTrip` | src/log.c:497-548 | every list of items is read back from its text |
| `LogSpec.LastCommaIsInvalid` | src/log.c:508-524 | no text that ends in a comma is a spec |
| `LogText.SeparatorsAreSkipped` | src/log.c:513-514 | commas and blanks before an item make no difference |
| `LogText.ItemIs` | src/log.c:516-538 | letters, digits, dots and stars, a colon, and what strtoul makes of what follows, are an item; the rest is ignored up to the next comma |
| `LogText.OtherCharactersAreInvalid` | src/log.c:516-524 | any other character in a pattern makes the text invalid |
| `LogText.StrtoulOf` | src/log.c:529 | strtoul: white space, a sign, digits; what is too large becomes the largest unsigned long, and a minus subtracts from zero |
| `LogText.NoNumber` | src/log.c:529 | without digits it reads nothing |
| `TextScan.StrtoulReads` | src/log.c:529 | strtoul reads back the decimal form of any unsigned long |
| `LogCaches.ByteIsExact` | src/log.c:795-803 | the byte cache is exact for exactly these levels |
| `LogCaches.ByteFor` | src/log.c:795-803 | the byte of a verbosity, one more modulo 256 |
| `LogCaches.EvalCacheable` | src/log.c:442-459 | every level a spec gives is its default or one of its items, and between 0 and 255 if they are |
| `LogCaches.PublishKeeps` | src/log.c:706-740 | completing a new spec keeps the invariant: everything older is to be cleared |
| `LogCaches.CopyKeeps` | src/log.c:715-718 | so does copying its words one by one, in either order |
| `LogCaches.ClearKeeps` | src/log.c:562-579 | so does clearing one cache, at any time |
| `LogCaches.ReturnKeeps` | src/log.c:562-579 | and returning after all are cleared |
| `LogCaches.CheckFlagKeeps` | src/log.c:814-819 | a call that finds no flag finds no value older than any change that had returned when it began |
| `LogCaches.FillEntryKeeps` | src/log.c:800-803 | evaluating and storing under the lock keeps the invariant |
| `LogCaches.InsertKeeps` | src/log.c:822-829 | so does storing after the lock was given up |
| `LogCaches.StepKeepsInv` | src/log.c:562-834 | and every other step: wiping, setting and correcting under the lock, reading without it; unless a change of the level leaves out its clear |
| `LogCaches.RunKeepsInv` | src/log.c:562-834 | the invariant holds where any run ends |
| `LogCaches.CachesAreCoherent` | src/log.c:562-834 | in any run without a clear left out, an answer comes from specs no older than any change that had returned when the call began; from a cache, from evaluation or from one complete spec it is what that spec says; one by the default level alone is right about its tag exactly if the first item for the tag has that level too |
| `LogSpec.ByDefaultExactly` | src/log.c:442-459 | when a spec gives a tag its default level |
| `LogSpec.OneLevelForAll` | src/log.c:442-459 | a spec gives one level to all tags exactly if every item that decides anything, and the default unless some item is for all tags, has it |
| `LogCaches.SeenWiped` | src/log.c:714-783 | exactly when a call takes the fast path by mistake |
| `LogCaches.SeenRaw` | src/log.c:667-786 | exactly when a call reads a level that is not the current one |
| `LogCaches.LevelOutOfRangeIsSeen` | src/log.c:671-681 | a change of the level can be seen half done exactly if what was asked for is out of range, and new |
| `LogLevels.LevelIsSet` | src/log.c:671-681 | a level lowered by the amount, replaced by it or raised by it is published at once if it is between 0 and 10, and otherwise seen until it is corrected |
| `LogLevels.LevelEndsNearest` | src/log.c:671-681 | whatever others do in between, it then becomes the nearest level between 0 and 10 |
| `LogLevels.LevelsCompared` | src/log.c:667-692 | what is compared is the level seen before the lock was taken and the one seen after |
| `LogLevels.WayOfACall` | src/log.c:776-820 | by what it sees of the items and by its tag a call takes the fast path, the array, or the table |
| `LogLevels.InsertIsFound` | src/log.c:822-829 | what a call has evaluated is in the table of its thread |
| `LogLevels.LookupFinds` | src/log.c:820-822 | what is there is the answer |
| `LogLevels.FillIsFound` | src/log.c:800-803 | what a call has evaluated is in the array, if a byte can hold it |
| `LogLevels.ReadFinds` | src/log.c:794-798 | what is there is the answer |
| `LogLevels.HolderGoesOn` | src/log.c:671-740 | who holds the lock of the spec can go on |
| `LogLevels.CallsGoOn` | src/log.c:776-834 | a call can always go on, or needs only the lock |
| `LogLevels.ChangesGoOn` | src/log.c:562-740 | so can a change; one that is made can clear what it has to, and then return |
| `LogCaches.CalmCallsAreRight` | src/log.c:776-834 | a call that looks at the spec only while nobody changes it, and outlives no publication, is right |
| `LogCaches.AnsweredByTheNewestSpec` | src/log.c:562-834 | after any run, once the newest change has returned: a call that begins and ends before the next change is answered what the newest spec says |
| `LogCaches.WipedSpecSpoilsAnAnswer` | src/log.c:714-786 | a run without overlapping changes in which a call answers what neither the old nor the new spec says |
| `LogCaches.RawLevelSpoilsAnAnswer` | src/log.c:671-786 | the same with a level out of range |
| `LogCaches.StaleIsMarked` | src/log.c:562-579 | a cached value that the current spec contradicts is flagged or about to be |
| `LogCaches.SkipsOnlyWhenOverlapped` | src/log.c:667-692 | a clear is left out only if another change came between reading the level and comparing it, or is on its way |
| `LogCaches.LeftOutClearLeaves` | src/log.c:667-692 | exactly which cached values a left-out clear leaves stale |
| `LogCaches.LeftOutClearLeavesByte` | src/log.c:667-692 | and which bytes |
| `LogCaches.WithoutOverlapIsCareful` | src/log.c:667-692 | changes that do not overlap never leave out a clear |
| `LogCaches.OverlapLeavesAStaleAnswer` | src/log.c:667-692 | a run of two overlapping changes after which all have returned and an answer is still stale |
| `LogState.Log.ClearCaches` | src/log.c:562-579 | all flags are set, all bytes zero |
| `LogState.Log.ChangeVerboseLevel` | src/log.c:667-696 | the new level is, of those between 0 and 10, the nearest to the old one lowered by the amount, to the amount, or to the old one raised by it; every cache agrees with the new spec |
| `LogState.Log.ChangeLogspec` | src/log.c:706-740 | a valid text replaces the items, an invalid one changes nothing; every cache agrees |
| `LogState.Log.GrabCache` | src/log.c:584-612 | the first unused cache, or a new one |
| `LogState.Log.EnabledLen` | src/log.c:776-834 | whatever is cached, the decision is that of the current spec; or that of the byte, where a byte cannot hold its levels |
| `LogState.Log.FromHash` | src/log.c:814-833 | the table gives what the spec says, is emptied if flagged, and filled in |
| `RandomBounded.BitLength` | src/random.c:91-97 | as many bits as the bound needs, and no more |
| `RandomBounded.CountBits` | src/random.c:91-97 | the loop counts them |
| `RandomBounded.FromReservoir` | src/random.c:104-110 | enough bits left: masked off and shifted away, and the accounting stays 8j = bits * i + unused |
| `RandomBounded.FromNewByte` | src/random.c:111-127 | too few: they become the high ones, a new byte gives the others, same accounting |
| `RandomBounded.RawIsAPermutation` | src/random.c:104-127 | each number is a fixed rearrangement of bits of its own, so different bits give different numbers |
| `RandomBounded.NumbersTellTheirBits` | src/random.c:104-127 | and equal numbers come only from equal bits |
| `RandomBounded.TakeBits` | src/random.c:104-127 | one round of the loop |
| `RandomBounded.Fill` | src/random.c:102-134 | the loop: every output is the scaled number of its own bits, and all bytes are used |
| `RandomBounded.GetBounded` | src/random.c:71-136 | it fails exactly on an empty range or without random bytes; otherwise every output is in the range |
| `RandomBounded.ScaleIsPart` | src/random.c:131 | the scaling stays in the range |
| `RandomBounded.ScalingIsNearlyEven` | src/random.c:131 | it is monotone, and only two neighbours can be scaled to one value |
| `RandomBounded.ScalingIsOnto` | src/random.c:131 | every value of the range is reached |
| `ThreadPool.StepKeepsInv` | src/thread.c:159-236 | every step keeps the counts, one place for each job, and the order of the queue |
| `ThreadPool.EveryJobHasOnePlace` | src/thread.c:159-236 | after any run: at most max_threads threads, a queue only when all run, and every job waiting, held or finished, only one of these |
| `ThreadPool.NoOvertaking` | src/thread.c:205-219 | no job is taken while an earlier one waits |
| `ThreadPool.StepLowersRank` | src/thread.c:159-181 | every step of a thread uses up one of a number of steps that is known |
| `ThreadPool.NoJobIsStranded` | src/thread.c:159-236 | under any schedule the threads come to an end, and then every job is finished |
| `ThreadPool.Threads.New` | src/thread.c:205-220 | count and queue change as in the step; whether a thread is to be created |
| `ThreadPool.Threads.Next` | src/thread.c:167-176 | count and queue change as in the step; the next job or none |
| `ThreadPool.Threads.Work` | src/thread.c:159-181 | a thread alone works off its job and the queue in order, and is gone |
| `StreamBuf.SentKeeps` | src/streambuf.c:149-162 | a partial write moves bytes from the front of the buffer to the child |
| `StreamBuf.FlushKeeps` | src/streambuf.c:136-172 | so does a flush, in order, losing none |
| `StreamBuf.AcceptKeeps` | src/streambuf.c:293-313 | a packet is appended exactly if no error is stored |
| `StreamBuf.SizeTellsWork` | src/streambuf.c:506-521 | the size is zero exactly if nothing is to be written |
| `StreamBuf.WritesAreConserved` | src/streambuf.c:136-521 | after any writes and flushes and whatever the child does: delivered and waiting bytes are those accepted; the size is exact; output is wanted exactly if bytes wait and no error is stored |
| `StreamBuf.WillingChildGetsPackets` | src/streambuf.c:136-172 | a child that takes whole packets gets as many as there are writes, or all there are, and no others |
| `StreamBuf.FlushCounts` | src/streambuf.c:136-172 | how many writes are made, and when there are fewer |
| `StreamBuf.FlushInNumbers` | src/streambuf.c:136-172 | a flush makes at most ten writes; it stops before that only if nothing is left, a write was not accepted, or the child has no more to say; a child that takes whole packets gets all the bytes of the first ten, or of all there are, and the others stay |
| `StreamBuf.ErrorIsFinal` | src/streambuf.c:163-309 | after an error nothing is accepted any more |
| `StreamBuf.ZStreamBuf.FlushInternal` | src/streambuf.c:136-172 | the loop is the function on values; the same in numbers |
| `StreamBuf.ZStreamBuf.WritePacketInternal` | src/streambuf.c:293-317 | the write is the function on values, with the flush if asked for |
| `StreamBuf.ZStreamBuf.SpaceAvail` | src/streambuf.c:101-124 | room is left, or the next write would report the error |
| `StreamBuf.ZStreamBuf.WatchPrepare` | src/streambuf.c:506-521 | the condition on the child, in terms of what is undelivered |
| `PacketBuf.SeekIsExact` | src/packetbuf.c:258-282 | a seek succeeds exactly if it ends inside the bytes in use, and does nothing else |
| `PacketBuf.ResizeClips` | src/packetbuf.c:85-100 | memory only grows and keeps what is in it; length and position are clipped to the size |
| `PacketBuf.StoredAsAsked` | src/packetbuf.c:430-477 | whatever the byte order of the machine, a number is stored in the one asked for |
| `PacketBuf.StoredByteIs` | src/packetbuf.c:430-477 | which byte goes where: the lowest first in little endian order, the highest first in big endian order |
| `PacketBuf.TwoBytesAre` | src/packetbuf.c:430-477 | the same for two bytes, written out |
| `PacketBuf.LoadedIsStored` | src/packetbuf.c:331-477 | and is loaded again, even by a machine of the other byte order |
| `PacketBuf.AllLoadedIsAllStored` | src/packetbuf.c:516-722 | so are arrays |
| `PacketBuf.PutOverwrites` | src/packetbuf.c:113-121 | a put replaces the bytes at the position, extends the bytes in use if need be, and touches no others |
| `PacketBuf.PutAllWrites` | src/packetbuf.c:406-764 | fields are written one behind the other; position, length and allocation stay in order |
| `PacketBuf.GetAllReads` | src/packetbuf.c:301-745 | where the bytes of fields are, the fields are read |
| `PacketBuf.FieldsRoundTrip` | src/packetbuf.c:86-764 | any fields, each with its byte order, written at any position and read from there, are what they were |
| `PacketBuffer.ZPktBuf.constructor` | src/packetbuf.c:174-183 | an empty buffer |
| `PacketBuffer.ZPktBuf.Resize` | src/packetbuf.c:85-100 | memory grows and keeps what is in it; length and position are clipped to the size |
| `PacketBuffer.ZPktBuf.SetAvailable` | src/packetbuf.c:113-121 | room at the position, as on values |
| `PacketBuffer.ZPktBuf.Seek` | src/packetbuf.c:258-282 | as on values |
| `PacketBuffer.ZPktBuf.PutScalar` | src/packetbuf.c:406-477 | all memory after the put, for each width |
| `PacketBuffer.ZPktBuf.GetScalar` | src/packetbuf.c:301-399 | the number and the position, or failure and no change |
| `PacketBuffer.ZPktBuf.PutArray` | src/packetbuf.c:615-722 | all memory after the put, copied or swapped one by one |
| `PacketBuffer.ZPktBuf.GetArray` | src/packetbuf.c:484-608 | the numbers and the position, or failure and no change |
| `PacketBuffer.ZPktBuf.PutBoolean` | src/packetbuf.c:755-764 | one byte is put, 1 for true and 0 for false |
| `PacketBuffer.ZPktBuf.GetBoolean` | src/packetbuf.c:732-745 | any byte but zero is true |
| `PacketBuffer.ZPktBuf.GetBoolean16` | src/packetbuf.c:775-788 | any two bytes but zeros are true |
| `UrlParse.CutUpEnds` | src/zurlparse.c:149-158 | the loop over the parts ends at a slash or the end, unless there are too many separators |
| `UrlParse.AbortsExactly` | src/zurlparse.c:149-248 | when g_assert_not_reached is reached |
| `UrlParse.FileIsAPath` | src/zurlparse.c:251-263 | the file begins with a slash; the check for other paths is never met |
| `UrlParse.DecodeInverts` | src/zurlparse.c:60-98 | every way of percent-encoding a text (section 2.1 of RFC 3986) is decoded |
| `UrlParse.EveryTextHasAnEncoding` | src/zurlparse.c:31-46 | and every text of bytes can be encoded |
| `UrlParse.PortReads` | src/zurlparse.c:175-181 | a port in decimal is read back, reduced to 32 bits |
| `UrlParse.EmptyPortIsZero` | src/zurlparse.c:175-181 | an empty one is zero |
| `UrlShapes.HexDigitsAre` | src/zurlparse.c:11-46 | the digits behind a percent sign, in both cases |
| `UrlShapes.DecodedIsEncoding` | src/zurlparse.c:60-98 | only encodings are decoded |
| `UrlShapes.ShapeReads` | src/zurlparse.c:116-264 | a text in any of six shapes, written out, is read as what its parts come to |
| `UrlShapes.AcceptedHasShape` | src/zurlparse.c:116-264 | every text that is accepted has one of these shapes |
| `UrlShapes.AcceptsExactly` | src/zurlparse.c:116-264 | so a text is accepted exactly if it has one of them and all its parts can be read |
| `UrlShapes.UrlRoundTrip` | src/zurlparse.c:116-264 | a URL in any of them, its parts encoded in any way, is parsed back to its parts |
| `UrlParser.StrtoulStaysInside` | src/zurlparse.c:175-181 | the separator behind a part ends the number in it |
| `UrlParser.ZURL.UrlDecode` | src/zurlparse.c:60-98 | the loop decodes a part, or fails at a percent sign without two hexadecimal digits behind it |
| `UrlParser.ZURL.Scan` | src/zurlparse.c:149-158 | the loop cuts as the function does |
| `UrlParser.ZURL.ParsePort` | src/zurlparse.c:175-181 | a part is a port exactly if the number ends with it |
| `UrlParser.ZURL.FindScheme` | src/zurlparse.c:132-146 | what stands before the first "://", if the first colon begins it |
| `UrlParser.ZURL.AssignParts` | src/zurlparse.c:159-249 | the fields for the number of parts and their separators |
| `UrlParser.ZURL.ParseInto` | src/zurlparse.c:116-264 | the outcome is that of the function, and on success the fields are its parts |

## Left out

- Blob store: `read`, `write`, `lseek` and `ftruncate` complete in one call; retry loops, mapping, `z_blob_get_file`'s release and `z_blob_truncate` are not modelled, nor time, statistics and the answers sent when the system is destroyed. The swap-in factor is an arbitrary function.
- Blob store: that every waiter is granted in the end is not claimed; memory freed by swapping out is not announced.
- BlobHeap.Blob.SignalReady: sets the flag only; the condition variable and its mutex are part of the protocol's steps.
- Blob store: sizes are unbounded numbers; only what is left of a budget is computed modulo 2^64, as in C.
- BlobSteps.WhoMoves: for counters that fit into 64 bits, as they do in C.
- BlobRead.SwappingIsInvisible: excludes the one step that makes a blob unreadable, adding nothing beyond the end of its file; `BlobImage.StoreOverlays` says that nothing else does. A blob is not destroyed while it is being read, as its readers have references.
- BlobNew.MoveKeepsInv: the change of the allocation at the end of z_blob_alloc is one step here too, although z_blob_new makes it without the lock; a swap-in in the middle of it comes under a grant as well, and is not distinguished from one before it.
- Allocation tracer: hard mode, canaries, the temporary heap and backtraces. A size of -1 cannot be told from "not traced".
- Line reader: unget, raw reads, polling and the cached flag for a complete line; a copying get on a line that was stripped of its end mark after a part of it had been handed out.
- Base64Coder.ZCode.Grow: keeps the eight bytes of slack too; in C what lies at `buf_len` is lost when the block moves.
- StreamLine.ChunkingDoesNotMatter: up to the end of the stream or the first error; after an error the cutting matters.
- Base64: `z_code_unget_result`, `z_code_flush_result`, and sizes that overflow an `int`. Adding bits to a byte is written as a sum, the bits being disjoint.
- Log: opening and writing to syslog, message formatting, releasing caches at the end of a thread, and what `z_log_map_tag` computes; threads that have no cache while others change the spec. Single words are read and written at once.
- LogCaches.CachesAreCoherent: for levels from 0 to 255, and for runs in which no change of the level leaves out its clear; `LogCaches.ByteIsExact` and `LogCaches.SkipsOnlyWhenOverlapped` say when these conditions fail.
- LogState.Log.EnabledLen: for levels outside 0 to 255 and tags known beforehand it leaves open which of two decisions is made, that of the spec or that of the byte.
- Random bytes: the random source is a parameter.
- Thread pool: failure to create a thread, callbacks, stack sizes, and the reference counts of the queue.
- Write buffer: shutdown, reading, and the size at which a too large buffer is reported.
- StreamBuf.WritesAreConserved: nothing is said of packets without bytes, which wait until something else is written.
- Packet buffer: append, insert, relocation to foreign memory, parts of other buffers, sizes that overflow, and what new memory holds; a null destination or source.
- URL parser: what the fields hold after a failure, and letters and digits of other locales.
- Everything else: TLS, ciphers, compression, connectors, listeners, polling, stack dumps, the supervisor, capabilities and registry, which call the operating system or other libraries.
