# Verified model of sismo's hard parts

Sismo is a profiler: a library preloaded into the profiled process writes allocation records into a shared ring, a
recorder reads them and keeps a book of what is live, producers and consumers exchange protobuf messages, a
symbolizer unwinds Go stacks, and the command line bundles what was recorded. This project models the parts of it
whose correctness is not plain from reading one function, and proves what they promise.

| file | what it models |
|---|---|
| Bits.dfy | machine integers, powers of two, bitwise or |
| RingLayout.dfy | the bytes of the ring: positions, records, headers, the doubled mapping |
| RingProtocol.dfy | writers and reader on the ring, one atomic access a step, in every interleaving |
| RingProgress.dfy | what the reader and a writer get done in a stated number of their own steps |
| RingBuffer.dfy | the ring as an object over an array, call by call |
| HeapBook.dfy | the recorder's book: matching late frees to allocations by sequence number, totals of every site |
| HeapTotals.dfy | the totals of a call site as sums over the allocations that have arrived |
| HeapSession.dfy | one attach session end to end: program, shims, batches, ring, recorder, totals |
| SessionSurvivors.dfy | which blocks outlive a failed `realloc`, over whole runs of a session |
| SessionOrder.dfy | when allocation records arrive in the order of their numbers, over whole runs |
| SessionProfile.dfy | from a call of the allocator to its entry in the book, and the totals over runs of a session |
| SessionProgress.dfy | what can always go on in a session: shims, recorder, from any call to the book |
| SessionRuns.dfy | two runs step by step: a failed `realloc`, and two allocations out of order |
| HeapRecords.dfy | the records as bytes, and a thread's batch of frees |
| Sampler.dfy | the allocation sampler as a renewal process |
| GoPclntab.dfy | Go's pc-value tables, the row table computed from them, names, the section header, the stack walk |
| GoLayout.dfy | a whole section written as bytes from a list of functions, and what is read from it |
| GoWalk.dfy | the stack walk over a loaded section, from its functions and the words on the stack |
| ProtoWire.dfy, ProtoTree.dfy | the protobuf writer and reader, nested messages |
| VmProgram.dfy, VmBytes.dfy | the instruction trees of the sched producer, and their bytes |
| SismoConfig.dfy | the configuration messages and the trace configuration that carries them |
| ConfigSchema.dfy | what a consumer that knows the field numbers reads from a trace configuration |
| Calendar.dfy | epoch seconds to calendar dates |
| Json.dfy, WebSocket.dfy | the heap snapshot client: strings, frames, messages |
| JsonText.dfy | strict UTF-8, JSON strings as characters, the instruction objects read back whole |
| Tar.dfy | the ustar bundle |
| WorkerEvent.dfy | the manual-reset event of the capture workers |
| Deploy.dfy | concurrent deployers of the UI |

How the pieces fit. RingProtocol shows that the ring, with its spinlock, its lock-free publication and its wrapped
records, is a queue whose places are reserved in order and filled in any order; RingProgress adds that a published
record is returned after a number of reader steps linear in its payload, and that a writer with the lock always ends.
HeapSession runs the whole heap data plane on that queue: threads draw sequence numbers after reserving a place, batch
their frees, lose batches on a full ring, reuse addresses; and the recorder's book, which HeapBook shows to be
indifferent to late and shuffled frees, still ends up with exactly the recorded blocks that are live, and its totals of
every call site with what those blocks hold. Size and site of a block are recorded when the allocator is called, in the
program's part of the state, so that these results are about what was asked for and not about what was written into the
ring; SessionProfile follows one call to its entry in the book, and SessionProgress shows that the run can always go on
to where it is there. There is one exception, in the code and not in the proof: `realloc` queues the free of the old
block before it knows whether it will succeed, so a recorded block that survives a failed `realloc` is missing from the
book. SessionSurvivors proves that this is the only way: in a run without a failing `realloc` the settled book holds
exactly the recorded blocks, and in any run it lacks exactly the recorded blocks on which a `realloc` has failed and
which have not been given up since. SessionRuns gives a run in which that happens.

A comment in the recorder (crates/sismo-core/src/heap/macos_heap_capture.rs:121-122) says that allocations arrive in
sequence order. They need not, because the number is drawn after the place is reserved: SessionRuns gives a run of two
threads in which number 1 arrives before number 0. SessionOrder proves when they do: if and only if no number was drawn
for a place while an earlier place was still waiting for its own. For each address they always arrive in order, which
is all the recorder needs (HeapSession.AllocArrivesInTime).

Methods are proved against specification functions where the program works step by step on changing state: the ring,
the batch, the book, the writer and the reader, the header array, the loops over tables and streams. Protocols between
threads are state machines with one step for each atomic access or each call that others can observe.

`dafny verify dfyconfig.toml` checks the project.

## Model

| member | source | states |
|---|---|---|
| RingProtocol.RunIsFifo | crates/sismo-heap-preload/src/ring.rs:148-179 | In every interleaving of any number of writers and one reader, one atomic access a step, the reader has returned byte for byte and once each the payloads of the oldest reservations in reservation order, all published, and stands before the oldest it has not returned |
| RingProtocol.RunKeepsLayout | crates/sismo-heap-preload/src/ring.rs:127-169 | In every reachable state the read and write positions are ordered, 8-aligned and at most a ring apart, records tile the positions exactly, and the spinlock word is set exactly while its one holder has it |
| RingProtocol.RunKeepsRecordsApart | crates/sismo-heap-preload/src/ring.rs:148-179 | In every reachable state two live records share no byte of the ring through the mirrored mapping |
| RingProtocol.RunKeepsHeaders | crates/sismo-heap-preload/src/ring.rs:231-237 | In every reachable state a load of any live header gives zero before its record is published and the payload size after, with all bytes of the payload then in place behind it |
| RingProtocol.EmptyRecordStops | crates/sismo-heap-preload/src/ring.rs:231-234 | A published record without payload, once it is the oldest, is never read and nothing is delivered any more, since its header looks unpublished |
| RingProtocol.NextInv | crates/sismo-heap-preload/src/ring.rs:127-179 | Each atomic step of a writer or of the reader keeps the layout, the lock, the owners of unpublished records and what has been delivered |
| RingProtocol.StepRefinesQueue | crates/sismo-heap-preload/src/ring.rs:224-243 | Each step of the threads is one step of a queue whose places are reserved in order and filled in any order: nothing, reserve, fill, or take the filled head |
| RingProgress.PublishedIsReturned | crates/sismo-heap-preload/src/ring.rs:224-243 | In every run, once the oldest record is published and not empty, as many reader steps as its payload has bytes and five more have returned exactly that payload next, whatever writers do in between |
| RingProgress.LookAnswers | crates/sismo-heap-preload/src/ring.rs:229-236 | A reader that has seen something reserved goes on to read the oldest record exactly when it is published and not empty, and then reads as many bytes as the payload has |
| RingProgress.LockedWriterEnds | crates/sismo-heap-preload/src/ring.rs:127-179 | A writer that holds the lock has published its payload, or has been refused and given the lock back, after as many steps of its own as the payload has bytes and six more, whatever others do |
| RingProgress.RefusedIff | crates/sismo-heap-preload/src/ring.rs:148-163 | A writer is refused exactly when its record did not fit in what was free when it loaded the read position under the lock |
| RingLayout.MirrorWraps | crates/sismo-heap-preload/src/ring.rs:79-105 | Pointer arithmetic into the doubled mapping lands on the slot of the position it stands for |
| RingLayout.SlotsDistinct | crates/sismo-heap-preload/src/ring.rs:164-168 | Positions less than a ring apart have different slots under the size mask |
| RingLayout.ClearKeepsGood | crates/sismo-heap-preload/src/ring.rs:164-165 | Zeroing the header of the record to come leaves every live record as it was |
| RingLayout.AdvanceKeepsGood | crates/sismo-heap-preload/src/ring.rs:166-166 | Moving the write position over a zeroed header adds one unpublished record and keeps the layout |
| RingLayout.PublishKeepsGood | crates/sismo-heap-preload/src/ring.rs:176-179 | Storing the size header of a fully written record publishes it and disturbs no other record |
| RingLayout.ConsumeKeepsGood | crates/sismo-heap-preload/src/ring.rs:238-243 | Stepping over a published record keeps the layout and brings the reader to the next record |
| RingLayout.HeaderTells | crates/sismo-heap-preload/src/ring.rs:231-234 | What a load of a live header gives: the payload size once published, zero before; so it is zero exactly for unpublished and for empty records |
| RingBuffers.RingBuffer.BeginWrite | crates/sismo-heap-preload/src/ring.rs:148-169 | A reservation, of any size, fails exactly when it would not fit in the free part of the ring and then changes nothing; otherwise it zeroes the header at the old write position and moves that by the aligned record size |
| RingBuffers.RingBuffer.EndWrite | crates/sismo-heap-preload/src/ring.rs:176-179 | The size header is stored and the record is published, all other records unchanged |
| RingBuffers.RingBuffer.BeginRead | crates/sismo-heap-preload/src/ring.rs:224-237 | The oldest record is returned, byte for byte, exactly when there is one, it is published and it is not empty |
| RingBuffers.RingBuffer.EndRead | crates/sismo-heap-preload/src/ring.rs:238-243 | The read position moves over exactly the oldest record |
| RingBuffers.WriteRecord | crates/sismo-heap-preload/src/shim.rs:319-343 | Reserve, fill and publish as both senders do it: the log grows by exactly the published payload, or by nothing when there is no room |
| RingBuffers.RoundTrip | crates/sismo-heap-preload/src/ring.rs:247-262 | A payload sent through an idle ring comes back unchanged and leaves the ring idle; it is refused exactly when it is larger than the ring, and an empty one is taken but stays in the ring |
| HeapSession.SequenceIsOwnership | crates/sismo-heap-preload/src/shim.rs:255-260 | In every run of any number of threads, what the sequence numbers say is live at an address is exactly the recorded, unfreed block there, and two recorded allocations at one address always have a free of it between them |
| HeapSession.NextInv | crates/sismo-heap-preload/src/shim.rs:248-449 | Every step of every shim, of the ring and of the recorder keeps ownership of blocks, truth of the numbers, the batches, the place of every event and the state of the recorder |
| HeapSession.FreesConserved | crates/sismo-heap-preload/src/shim.rs:294-346 | Every queued free is in exactly one place: the pending batch of one thread, one published batch, a batch dropped on a full ring, or one discarded without a ring |
| HeapSession.BatchHasRoom | crates/sismo-heap-preload/src/shim.rs:294-316 | Between calls a batch holds fewer than 128 entries, in strictly increasing sequence order, so the next store is in bounds |
| HeapSession.AllocArrivesInTime | crates/sismo-core/src/heap/macos_heap_capture.rs:117-124 | An allocation record reaches the recorder before any later event of its address, although numbers are drawn after places are reserved and frees arrive late |
| HeapSession.LiveBlockIsBooked | crates/sismo-core/src/heap/macos_heap_capture.rs:126-143 | However many batches were lost, a recorded block that is still live is in the book from the moment its record is read, with the size and the site of the call that made it |
| HeapSession.BookIsExact | crates/sismo-core/src/heap/macos_heap_capture.rs:100-107 | Once the recorder has seen everything that happened at an address, whatever is pending or lost elsewhere, the book has an entry there exactly when a recorded block is there for which no free was queued, and it has the size and the site that the program's call of the allocator had |
| HeapSession.ProfileIsExact | crates/sismo-core/src/heap/macos_heap_capture.rs:80-143 | When the program rests, the recorder has caught up and no batch was lost, the book is exact everywhere, and at every call site bytes and numbers allocated are those freed plus those of the blocks that calls from the site have made, that were recorded and for which no free was queued |
| SessionProfile.CallIsBooked | crates/sismo-heap-preload/src/shim.rs:248-285 | A block made by a sampled call of the allocator with some weight and stack, recorded, and neither given up nor queued to be freed since, stands in the book as that weight under that stack once the recorder has seen everything at its address |
| SessionProfile.TotalsAreArrivals | crates/sismo-core/src/heap/macos_heap_capture.rs:115-143 | In every state of every run, what a site has allocated is the sum and the number of its allocations that have arrived, and what it has freed those of them that are no longer in the book |
| SessionProgress.CallCanBeBooked | crates/sismo-heap-preload/src/shim.rs:248-285 | Whatever a session has come to, if it is attached when a sampled call gets its block, the run can go on to a state in which the book has the block with the weight and the stack of that call |
| SessionProgress.CanComeToRest | crates/sismo-heap-preload/src/shim.rs:248-449 | Every run can go on to a state in which all shims have ended and the recorder has taken everything in the ring |
| SessionProgress.ShimGoesOn | crates/sismo-heap-preload/src/shim.rs:248-449 | In every reachable state every shim that has not ended can take its own next step, so none waits for another thread |
| SessionProgress.ShimEnds | crates/sismo-heap-preload/src/shim.rs:248-449 | Whatever others do, a shim has ended after at most seven steps of its own, a sampled `realloc` included |
| SessionProgress.RecorderGoesOn | crates/sismo-core/src/heap/macos_heap_capture.rs:420-457 | The recorder's next place can be taken at once, or is in the hands of a shim that can go on |
| SessionProgress.ProgramGoesOn | crates/sismo-heap-preload/src/shim.rs:360-449 | A thread outside the shims may allocate at any free address, sampled with any weight and stack or not, and free or reallocate any block that nobody is freeing |
| SessionProgress.BatchesHaveTwo | crates/sismo-heap-preload/src/shim.rs:294-316 | In every reachable state every batch in the ring has between 2 and 128 frees |
| SessionProgress.DetachedRunsOut | crates/sismo-heap-preload/src/shim.rs:248-346 | Once the session is detached no shim is entered and no place of the ring is reserved any more |
| SessionSurvivors.BookIsRightIff | crates/sismo-heap-preload/src/shim.rs:400-416 | Once the recorder has seen everything that happened at an address, its book is right about the recorded block there if and only if no `realloc` of that block has failed in the run and no free of it is under way |
| SessionSurvivors.SettledBookIsRightIff | crates/sismo-heap-preload/src/shim.rs:400-416 | The settled book is right everywhere if and only if no block that is still there has outlived a failing `realloc` in the run, and what it lacks are exactly the recorded blocks that have |
| SessionSurvivors.WithoutFailuresBookIsRight | crates/sismo-heap-preload/src/shim.rs:400-416 | If no step of the run is a failing `realloc`, the settled book holds exactly the recorded blocks |
| SessionSurvivors.SurvivorMeans | crates/sismo-heap-preload/src/shim.rs:400-416 | In every state of every run, a recorded block is there although its free was stamped exactly when a `realloc` of it has failed and it was not given up since, or a shim is between the stamp and the call of the allocator |
| SessionRuns.FailedReallocIsMissed | crates/sismo-heap-preload/src/shim.rs:400-416 | A run, step by step, that ends settled with a recorded block that is still there and missing from the book: the free queued by a failing `realloc` made a batch of two stale |
| SessionOrder.AllocsAscendIff | crates/sismo-core/src/heap/macos_heap_capture.rs:117-124 | Allocations have arrived in the order of their numbers if and only if no place read by now drew its number while an earlier place was still waiting for its own |
| SessionRuns.AllocsCanArriveShuffled | crates/sismo-heap-preload/src/shim.rs:248-285 | A run of two threads in which allocation 1 arrives before allocation 0 |
| SessionOrder.RunKeepsPlaceOrder | crates/sismo-core/src/heap/macos_heap_capture.rs:420-457 | In every state of every run, events have arrived in the order of their places in the ring, and within a batch in the order of their numbers, each once |
| HeapSession.SessionUsesQueue | crates/sismo-heap-preload/src/shim.rs:252-285 | Each step of a session asks of the ring one step of the queue that the ring protocol implements |
| HeapSession.BatchApplies | crates/sismo-core/src/heap/macos_heap_capture.rs:424-433 | Applying a batch entry by entry is applying its frees in that order |
| HeapBook.BookMeaning | crates/sismo-core/src/heap/macos_heap_capture.rs:100-143 | After any arrival order that keeps an allocation ahead of later events of its address, each list is ascending, authentic, holds no allocation whose own free has arrived, and keeps every allocation none of whose later frees has |
| HeapBook.ArrivalOrderIsIrrelevant | crates/sismo-core/src/heap/macos_heap_capture.rs:100-107 | Once all events have arrived, in whatever admissible order, the book is the one of the true order |
| HeapBook.AddressIsTrue | crates/sismo-core/src/heap/macos_heap_capture.rs:100-107 | As soon as everything that happened at one address has arrived, in whatever admissible order and whatever else is still to come, the book has an entry there exactly when the newest event at the address is an allocation, and it is that one alone |
| HeapBook.LiveNowMeans | crates/sismo-core/src/heap/macos_heap_capture.rs:100-107 | The recursive truth is what it should be: the newest event at an address decides |
| HeapBook.HeapBook.ApplyAlloc | crates/sismo-core/src/heap/macos_heap_capture.rs:117-124 | An allocation is appended to the list of its address and counted at its site; every site keeps allocated = freed + live, in bytes and in number |
| HeapBook.HeapBook.ApplyFree | crates/sismo-core/src/heap/macos_heap_capture.rs:126-143 | A free takes the newest entry older than itself and credits its site, or changes nothing; every site keeps allocated = freed + live |
| HeapBook.OutstandingMoves | crates/sismo-core/src/heap/macos_heap_capture.rs:80-90 | Changing the list of one address changes what a site has live by exactly that much |
| HeapTotals.TotalsAreSums | crates/sismo-core/src/heap/macos_heap_capture.rs:115-143 | After any admissible arrival the allocated bytes and number of a site are the sum and the number of its arrived allocations, and the freed ones those of the arrived allocations that the book no longer holds |
| HeapRecords.BatchReadsBack | crates/sismo-core/src/heap/macos_heap_capture.rs:424-433 | A batch written as bytes is read back entry for entry |
| HeapRecords.AllocReadsBackIff | crates/sismo-core/src/heap/macos_heap_capture.rs:424-453 | An allocation record is read back field by field if and only if its sequence number is not the batch magic |
| HeapRecords.AllocLayout | crates/sismo-heap-preload/src/wire.rs:30-50 | An allocation record byte by byte: every field at the position of the wire contract, least significant byte first, zeros between, the stack from byte 328 on |
| HeapRecords.KindOf | crates/sismo-core/src/heap/macos_heap_capture.rs:420-440 | A record is taken for a batch exactly when it begins with the magic bytes, and otherwise for an allocation exactly when it has at least 8520 bytes |
| HeapRecords.BatchLayout | crates/sismo-heap-preload/src/wire.rs:56-84 | A batch byte by byte: its magic, its count, number and address of every entry; a full one of 128 has 2064 bytes |
| HeapRecords.DecodeRecord | crates/sismo-core/src/heap/macos_heap_capture.rs:420-457 | The loop of the recorder computes the decoding function, including records too short or with a wrong count |
| HeapRecords.FreeBatchTls.AddFree | crates/sismo-heap-preload/src/shim.rs:294-316 | A free is stamped with the shared counter and appended, after entries of an earlier session are forgotten; flushing is asked for exactly when the batch is full or stale |
| HeapRecords.FreeBatchTls.QueueFree | crates/sismo-heap-preload/src/shim.rs:294-316 | After the call the batch has room again: the entry is pending, or published with its batch, or lost because the ring has no room or is gone |
| HeapRecords.FreeBatchTls.FlushFrees | crates/sismo-heap-preload/src/shim.rs:319-346 | The batch becomes one published record of exactly its bytes, or is dropped and counted when the ring is full, or is discarded without a ring; then it is empty |
| Sampling.Sampler.SampleSize | crates/sismo-heap-preload/src/sampler.rs:82-93 | Below the interval the weight is one interval for each renewal point the bytes crossed, and the countdown ends in (0, last draw]; at or above it the weight is the size and nothing moves |
| Sampling.Sampler.SampleAll | crates/sismo-heap-preload/src/sampler.rs:82-93 | Over any run of allocations the total is interval times renewal points crossed plus the large sizes |
| Sampling.SplitIsIrrelevant | crates/sismo-heap-preload/src/sampler.rs:82-93 | The total does not depend on how the same bytes are split or ordered |
| Sampling.CrossingsIs | crates/sismo-heap-preload/src/sampler.rs:82-93 | Whatever the draws, the number of renewal points at or below a position is the index of the one interval between successive sums of draws that holds it |
| GoPclntabs.RowsAgreeWithTables | crates/sismo-symbolize/src/gopclntab.rs:143-190 | For a well-formed table, the last sorted row at or below any address gives exactly the frame size decoded on the spot, inside, between, before and after functions and at ties |
| GoPclntabs.RowsAnswer | crates/sismo-symbolize/src/gopclntab.rs:243-267 | The rows of one table answer every program counter from the entry on as the decoder does |
| GoPclntabs.AllRowsSorted | crates/sismo-symbolize/src/gopclntab.rs:159-190 | Well-formed tables yield rows that are already in key order, end markers before sizes at the same address |
| GoPclntabs.SortSorts | crates/sismo-symbolize/src/gopclntab.rs:188-189 | The stable sort yields a sorted permutation |
| GoPclntabs.TableReadsBack | crates/sismo-symbolize/src/gopclntab.rs:235-267 | Decoding a table written with zig-zag and base-128 numbers gives back its steps, whatever follows |
| GoPclntabs.UvarintReads | crates/sismo-symbolize/src/gopclntab.rs:271-286 | Every 32-bit number reads back from its shortest encoding |
| GoPclntabs.ReadUvarint | crates/sismo-symbolize/src/gopclntab.rs:271-286 | The loop with its shift limit and truncation computes the reading function and advances past what it read |
| GoPclntabs.PcValue | crates/sismo-symbolize/src/gopclntab.rs:243-267 | The decoder loop gives the value of the first step that ends beyond the target, or none |
| GoPclntabs.GoPclntab.FindFunc | crates/sismo-symbolize/src/gopclntab.rs:111-127 | The binary search finds the last function that starts at or below an offset, and none outside the text |
| GoPclntabs.GoPclntab.ReadFrameSize | crates/sismo-symbolize/src/gopclntab.rs:143-151 | The frame size of an address, none where the address, the record or the table has none |
| GoPclntabs.GoPclntab.PcspRows | crates/sismo-symbolize/src/gopclntab.rs:159-190 | The nested loops yield the stably sorted rows that RowsAgreeWithTables is about, skipping functions whose record lies outside the data |
| GoPclntabs.Unwind | crates/sismo-symbolize/src/gopclntab.rs:200-229 | The loop returns the program counters of the walk that WalkUndoesCalls is about, stopping on an unknown address, a negative size, a miss or a zero return address |
| GoPclntabs.WalkUndoesCalls | crates/sismo-symbolize/src/gopclntab.rs:192-229 | On a stack built by calls, with arbitrary frame contents, the walk returns the call chain leaf first, cut at the limit, the stack pointer rising by frame size plus 8 each time |
| GoLayout.TableMeansFunctions | crates/sismo-symbolize/src/gopclntab.rs:93-151 | In a section that holds a list of functions in the record layout of go1.18, whatever its unused words are, every address of a function has the frame size that the function's own segments give, and resolves to the function's own name and the distance from its entry |
| GoLayout.NothingOutside | crates/sismo-symbolize/src/gopclntab.rs:111-151 | Outside the functions there is no frame size and no name |
| GoLayout.RowsMeanFunctions | crates/sismo-symbolize/src/gopclntab.rs:159-190 | The rows computed ahead say of every address what the functions' segments say, when no function's segments run into the next function |
| GoLayout.SectionHolds | crates/sismo-symbolize/src/gopclntab.rs:59-107 | A section written from any non-empty list of functions, with either magic number and anything in the words that are not used, is parsed and holds these functions |
| GoLayout.ParsesIff | crates/sismo-symbolize/src/gopclntab.rs:51-85 | A section is taken exactly when its size, magic number, pointer size, function count and offsets are acceptable, byte by byte |
| GoLayout.KnownTable | crates/sismo-symbolize/src/gopclntab.rs:436-448 | The seven bytes of the source's own example mean frame sizes 0, 32 and 0 over three, ten and five bytes of code, and nothing after |
| GoPclntabs.Resolve | crates/sismo-symbolize/src/gopclntab.rs:129-136 | The look-up yields the resolution that TableMeansFunctions is about, or none outside every function and for names that are negative, unterminated or not UTF-8 |
| GoWalk.WalkFindsCalls | crates/sismo-symbolize/src/gopclntab.rs:192-229 | On the stack that calls of the section's functions have left, whatever else is on it and wherever the program is loaded, the walk returns where each call goes on, leaf first, and where its frame is, by the functions' own segments |
| ProtoTree.TreeReadsBack | crates/sismo-proto/src/lib.rs:80-117 | For nested messages of any depth, the reader gets back what was written, and cannot tell bodies built in place from bodies copied in |
| ProtoTree.FieldsOfEncoded | crates/sismo-proto/src/lib.rs:183-197 | A list of written fields is read back as that list, in order |
| ProtoTree.KnownBytes | crates/sismo-proto/src/lib.rs:41-87 | Fields with numbers and tags of several bytes have the bytes of the source's own examples |
| ProtoTree.WriteTree | crates/sismo-proto/src/lib.rs:89-117 | The writer, nesting in place or copying, appends exactly the encoding of the tree |
| ProtoWire.FieldsAppend | crates/sismo-proto/src/lib.rs:183-197 | Reading maps concatenation of well-formed buffers to concatenation of field lists |
| ProtoWire.FieldsTruncate | crates/sismo-proto/src/lib.rs:128-130 | Cutting a well-formed buffer anywhere yields exactly the fields that lie wholly before the cut |
| ProtoWire.PayloadsAreShorter | crates/sismo-proto/src/lib.rs:183-197 | On arbitrary bytes a nested payload is shorter than its message, so nested reading ends |
| ProtoWire.AnyWidthReads | crates/sismo-proto/src/lib.rs:151-167 | A number reads back from any group count that fits, redundant ones included |
| ProtoWire.FixedReads | crates/sismo-proto/src/lib.rs:183-197 | Fields of eight and of four fixed bytes, under wire types 1 and 5, are read with their bytes |
| ProtoWire.OtherTypesEnd | crates/sismo-proto/src/lib.rs:183-197 | Every other wire type ends the reading |
| ProtoWire.InPlaceReadsLikeCopiedIff | crates/sismo-proto/src/lib.rs:101-117 | A body built in place reads like one copied in if and only if its length fits the 35 bits of its slot |
| ProtoWire.ProtoWriter.WriteVarint | crates/sismo-proto/src/lib.rs:41-47 | The loop appends the shortest encoding |
| ProtoWire.ProtoWriter.EndMessage | crates/sismo-proto/src/lib.rs:110-117 | Exactly the five reserved bytes are overwritten, with the redundant length of what follows |
| ProtoWire.ProtoReader.ReadVarintAt | crates/sismo-proto/src/lib.rs:151-167 | The loop reads the number at the front or gives up on truncation and after ten groups |
| ProtoWire.ProtoReader.Next | crates/sismo-proto/src/lib.rs:183-197 | One step of the iterator yields the field at the front, or ends on truncation and unknown wire types |
| ProtoWire.ReadAll | crates/sismo-proto/src/lib.rs:180-197 | Draining the iterator ends on any input and yields its field list |
| VmProgram.ProgramReadsBack | crates/sismo-proto/src/sched_protos.rs:154-237 | Decoding any encoded program gives back the same instruction tree, of any depth and width, although default fields are left out |
| VmProgram.AnyProgramReadsBack | crates/sismo-proto/src/sched_protos.rs:228-237 | The size limits never bite: every program of fewer than 2^48 instructions and path components reads back |
| VmProgram.MacosSchedProgramReadsBack | crates/sismo-proto/src/sched_protos.rs:241-302 | The fixed program of the sched producer, built from its two blocks, survives the wire |
| VmBytes.MacosSchedProgramBytes | crates/sismo-proto/src/sched_protos.rs:241-302 | The fixed program is byte for byte the reference serialization: cursors, fields, registers, abort levels and nesting |
| VmBytes.PlainOperations | crates/sismo-proto/src/sched_protos.rs:195-226 | The bytes of register load, merge, set and delete |
| VmBytes.FullPath | crates/sismo-proto/src/sched_protos.rs:154-177 | The bytes of a path component with all its fields |
| VmBytes.DeleteProgram | crates/sismo-proto/src/sched_protos.rs:228-237 | The bytes of a program of one delete, without and with a version |
| VmProgram.InstructionIsSmall | crates/sismo-proto/src/sched_protos.rs:195-226 | The encoding of an instruction tree is at most linear in its instructions and path components |
| VmProgram.InstructionReadsBack | crates/sismo-proto/src/sched_protos.rs:195-226 | An instruction with its operation, abort level and nested list survives the wire |
| VmProgram.SelectReadsBack | crates/sismo-proto/src/sched_protos.rs:179-193 | A select with its path components in order survives the wire |
| VmProgram.EncodeVmProgram | crates/sismo-proto/src/sched_protos.rs:228-237 | The recursive encoders yield the bytes that ProgramReadsBack decodes |
| VmProgram.EncodeInstruction | crates/sismo-proto/src/sched_protos.rs:195-226 | A writer of its own for each body yields the field list that InstructionReadsBack decodes, nested instructions by recursion |
| SismoConfig.ConfigsReadBack | crates/sismo-proto/src/sismo_config.rs:38-122 | Every producer configuration comes back, zeros and negative sizes included, whatever other fields stand around its own |
| SismoConfig.ConfigIsRecovered | crates/sismo-proto/src/session_config.rs:116-140 | The configuration is recovered from an encoded entry exactly when it is a vendor entry with a non-empty one |
| SismoConfig.HeapConfigArrives | crates/sismo-proto/src/sismo_config.rs:63-89 | A non-zero heap configuration put into a vendor entry is extracted and decoded to itself |
| SismoConfig.TraceConfigCarriesAll | crates/sismo-proto/src/session_config.rs:156-198 | From the configuration of a whole trace the configuration of every data source is recovered, in order |
| ConfigSchema.TraceMeans | crates/sismo-proto/src/session_config.rs:143-198 | A consumer that knows the field numbers reads from the trace configuration its buffer with the fill policy of the mode, its data sources in order, its session name and what the mode adds: the duration, or the file with its period, limit and path |
| ConfigSchema.EntryMeans | crates/sismo-proto/src/session_config.rs:116-140 | Such a consumer reads from an entry its name and, for each of the three kinds, the categories, the trace events or the vendor configuration |
| SismoConfig.ExtractConfig | crates/sismo-proto/src/sismo_config.rs:18-23 | The search yields the first length-delimited field 2000 |
| SismoConfig.LastVarints | crates/sismo-proto/src/sismo_config.rs:25-33 | The walk that the three decoders share keeps the last varint of each number, whatever the bytes |
| SismoConfig.ThroughTheWire | crates/sismo-proto/src/sismo_config.rs:38-122 | Each of the three configurations, encoded and decoded, is itself again |
| SismoConfig.EncodeEntry | crates/sismo-proto/src/session_config.rs:116-140 | The encoder with its three branches yields the field list from which ConfigIsRecovered recovers the configuration |
| SismoConfig.EncodeTraceConfig | crates/sismo-proto/src/session_config.rs:156-198 | The encoder with its loop over entries and its modes yields the field list that TraceConfigCarriesAll reads |
| Calendar.EpochIsExact | crates/sismo-cli/src/trace_sink.rs:74-93 | For every second count the result is a valid date and time, leap years included, and counting the calendar out from 1970 gives the second again |
| Calendar.EpochOrderIsKept | crates/sismo-cli/src/trace_sink.rs:74-93 | The result is strictly increasing in lexicographic order |
| Calendar.EveryDateIsReached | crates/sismo-cli/src/trace_sink.rs:74-93 | Every valid date and time from 1970 on is the result for its own second count |
| Calendar.YearOfEraIs | crates/sismo-cli/src/trace_sink.rs:83-87 | The year-of-era formula finds the year and the day of it |
| Json.StringReads | crates/sismo-cli/src/v8_heap_dump.rs:237-287 | However a JSON string is written (section 7 of RFC 8259), unescaping it up to its closing quote gives what it means |
| Json.ScalarEscapeReads | crates/sismo-cli/src/v8_heap_dump.rs:257-276 | The escape of every Unicode scalar, surrogate pairs included, in either case, decodes to its UTF-8 |
| Json.ExtractJsonString | crates/sismo-cli/src/v8_heap_dump.rs:237-287 | The search and the unescaping loop compute the extraction function, malformed input included |
| JsonText.TextReads | crates/sismo-cli/src/v8_heap_dump.rs:237-287 | However each character of a text is written in JSON, unescaping up to the closing quote gives bytes that a strict UTF-8 decoder reads as exactly these characters |
| JsonText.DecodeIff | crates/sismo-cli/src/v8_heap_dump.rs:272-274 | The decoder, which goes by lead bytes and refuses overlong forms and surrogates, reads a character exactly where the program's encoder has put it |
| JsonText.KnownEscapes | crates/sismo-cli/src/v8_heap_dump.rs:257-276 | The escapes of an accented letter and of an emoji give the UTF-8 bytes that they have in the source's own example |
| JsonText.HexDigitIff | crates/sismo-cli/src/v8_heap_dump.rs:257-269 | A byte is the hexadecimal digit of a value exactly when it is that digit in lower or upper case |
| JsonText.UnitParses | crates/sismo-cli/src/v8_heap_dump.rs:289-296 | The four characters of an escape are a number exactly when they are digits, or a plus sign and digits, and it is the number they show |
| JsonText.LoneSurrogateReads | crates/sismo-cli/src/v8_heap_dump.rs:257-276 | A lone second half of a pair becomes U+FFFD |
| JsonText.LoneFirstHalfGivesNothing | crates/sismo-cli/src/v8_heap_dump.rs:257-276 | A first half without another escaped unit behind it gives nothing |
| JsonText.UnclosedGivesNothing | crates/sismo-cli/src/v8_heap_dump.rs:237-287 | A string that is not closed gives nothing |
| JsonText.WrongLetterGivesNothing | crates/sismo-cli/src/v8_heap_dump.rs:245-280 | A backslash before any letter that is no escape gives nothing |
| Json.EscapeReads | crates/sismo-symbolize/src/perf_symbolize.rs:811-822 | Unescaping undoes escaping but for dropped control bytes |
| Json.InsnTextReadsBack | crates/sismo-symbolize/src/perf_symbolize.rs:796-809 | The text of an instruction is found again in its object, minus control bytes other than newline and tab |
| Json.InsnTextSurvivesIff | crates/sismo-symbolize/src/perf_symbolize.rs:796-822 | The text itself comes back if and only if it has no such control byte |
| Json.AppendInsnJson | crates/sismo-symbolize/src/perf_symbolize.rs:796-809 | The pushes append the object that InsnTextReadsBack reads, its line only when there is one |
| JsonText.InsnReadsBack | crates/sismo-symbolize/src/perf_symbolize.rs:785-822 | The object of an instruction, read strictly by its keys, gives back its address, its bytes, its text without dropped control bytes, and its line exactly when it has one |
| WebSocket.FragmentationIsIrrelevant | crates/sismo-cli/src/v8_heap_dump.rs:149-172 | For any split of the messages into frames with control frames anywhere between (section 5.4 of RFC 6455), the file gets the in-order chunks up to the response |
| WebSocket.PingsAreAnswered | crates/sismo-cli/src/v8_heap_dump.rs:168-168 | Every ping taken is answered by a pong with its payload, in order (section 5.5 of RFC 6455), and nothing else is |
| WebSocket.SnapshotIsChunks | crates/sismo-cli/src/v8_heap_dump.rs:143-177 | From bytes on the wire, in any form of the length field, to bytes in the file |
| WebSocket.StreamIsFrames | crates/sismo-cli/src/v8_heap_dump.rs:206-227 | On encoded frames the loop does on bytes what it does on frames |
| WebSocket.FrameReads | crates/sismo-cli/src/v8_heap_dump.rs:206-227 | A server frame up to 512 MiB reads back in all three forms of its length (section 5.2 of RFC 6455) |
| WebSocket.ClientFrameReads | crates/sismo-cli/src/v8_heap_dump.rs:183-199 | A masked client frame means what was sent to a server that takes the mask off |
| WebSocket.SnapshotIsText | crates/sismo-cli/src/v8_heap_dump.rs:143-177 | However an inspector escapes the chunks, cuts its messages into frames and puts control frames and other notices between them, the file is the text of the chunk strings in order |
| WebSocket.SnapshotDecodes | crates/sismo-cli/src/v8_heap_dump.rs:143-177 | From bytes on the wire to characters: a strict UTF-8 decoder reads the file as the characters of the chunks, in order |
| WebSocket.WireFrames | crates/sismo-cli/src/v8_heap_dump.rs:206-227 | A frame written out byte by byte, in each of the three forms of its length, is read as its opcode and payload |
| WebSocket.WireClientFrames | crates/sismo-cli/src/v8_heap_dump.rs:183-199 | The program's own frames byte by byte: final, masked, with a key of four zeros and the shortest form of the length |
| WebSocket.WirePing | crates/sismo-cli/src/v8_heap_dump.rs:168-168 | The bytes of a ping are answered by the bytes of a pong, also in the middle of a message |
| WebSocket.WireClose | crates/sismo-cli/src/v8_heap_dump.rs:149-172 | The bytes of a close end the snapshot as a failure |
| WebSocket.WireText | crates/sismo-cli/src/v8_heap_dump.rs:149-172 | The bytes of a final text frame complete the message: it is the response, or a chunk is written if it has one |
| WebSocket.WireContinuation | crates/sismo-cli/src/v8_heap_dump.rs:149-172 | So do those of a final continuation frame |
| WebSocket.WireFragment | crates/sismo-cli/src/v8_heap_dump.rs:149-172 | The bytes of a frame that is not final are added to the message |
| WebSocket.WireOversized | crates/sismo-cli/src/v8_heap_dump.rs:206-227 | A frame of more than 512 MiB is refused before its payload |
| WebSocket.KeyIsFoundIff | crates/sismo-cli/src/v8_heap_dump.rs:231-240 | The search finds the key of a chunk where it stands if and only if nothing before it reads like the key |
| WebSocket.ChunkMessageReads | crates/sismo-cli/src/v8_heap_dump.rs:161-163 | A message whose front does not read like the key yields its chunk, however that was escaped |
| WebSocket.SnapshotOverWs | crates/sismo-cli/src/v8_heap_dump.rs:143-177 | The loop writes, answers and ends as the function that SnapshotIsChunks and PingsAreAnswered describe, and reports the length of what it wrote |
| WebSocket.SendFrame | crates/sismo-cli/src/v8_heap_dump.rs:183-199 | The header with its three length forms and zero mask key is the one that ClientFrameReads decodes |
| Tar.ArchiveReadsBack | crates/sismo-cli/src/tar_bundle.rs:81-121 | A strict ustar reader, which verifies every checksum, gets back names up to a NUL, sizes, times and contents in order |
| Tar.ArchiveIsFaithfulIff | crates/sismo-cli/src/tar_bundle.rs:25-34 | What the reader gets back is what was archived if and only if no name holds a NUL |
| Tar.ArchiveIsBlocks | crates/sismo-cli/src/tar_bundle.rs:113-118 | The archive is a whole number of 512-byte blocks |
| Tar.SucceedsIff | crates/sismo-cli/src/tar_bundle.rs:25-34 | Writing succeeds exactly when every name and number fits and every file was as long as its metadata said |
| Tar.HeaderReads | crates/sismo-cli/src/tar_bundle.rs:25-56 | A header of any name that fits is read back as the name up to a NUL, the size and the time, its checksum fitting six octal digits |
| Tar.HeaderLayout | crates/sismo-cli/src/tar_bundle.rs:25-56 | Name, modes, type, magic, version and empty fields stand at the positions of the ustar format with its literal bytes |
| Tar.ChecksumLayout | crates/sismo-cli/src/tar_bundle.rs:47-54 | The checksum is the sum of all bytes with its own field as spaces, in six octal digits, a NUL and a space |
| Tar.HeaderFor | crates/sismo-cli/src/tar_bundle.rs:25-56 | The array filled in place is the header that HeaderReads reads; a long name or a large size is the error the source gives, and a time that does not fit, on which the source panics, is an error value |
| Tar.WriteTar | crates/sismo-cli/src/tar_bundle.rs:81-121 | The loops write the archive that ArchiveReadsBack reads and return its length, or stop with the first error |
| Tar.FieldParses | crates/sismo-cli/src/tar_bundle.rs:128-138 | A numeric field parses back as digits up to a NUL |
| WorkerEvent.NoLostWakeup | crates/sismo-core/src/worker_sdk.rs:54-78 | A worker asleep while a flag is set has its event not set yet only if the setter of that flag is still about to set it, and set only if some setter is still about to notify |
| WorkerEvent.WorkerReturns | crates/sismo-core/src/worker_sdk.rs:35-44 | Once a flag is set and no setter is on its way the worker is awake and each of its steps brings it nearer to its return |
| WorkerEvent.WorkerSleeps | crates/sismo-core/src/worker_sdk.rs:35-44 | While neither flag is set and no setter is on its way, the worker does not return and falls asleep after at most nine steps, whatever the event was set for before |
| WorkerEvent.ResultIsRight | crates/sismo-core/src/worker_sdk.rs:31-44 | The wait returns true only if setup arrived and false only if exit was asked for |
| WorkerEvent.LastLookDecides | crates/sismo-core/src/worker_sdk.rs:35-44 | When both flags are set exit wins: the result is what the last look at the exit flag found, and true only if exit was never set by then |
| WorkerEvent.SetterGoesOn | crates/sismo-core/src/worker_sdk.rs:57-60 | A setter on its way can always go on, and ends with the event set and no worker asleep |
| WorkerEvent.FlagCanBeSet | crates/sismo-core/src/heap/macos_heap_capture.rs:179-215 | A setter at rest can set the event for a setup, an exit or anything else |
| Deploy.StoredIsFold | infra/sismo-ui/deploy_to_r2.py:132-155 | In every interleaving of deployers the stored page is the fold of the successful updates in the order of their writes, each once |
| Deploy.ChannelIsLastWriters | infra/sismo-ui/deploy_to_r2.py:170-208 | Each channel has the version of the last writer that listed it, or its first entry still, even when a stable build replaced the whole page |
| Deploy.UpdateSetsListed | infra/sismo-ui/deploy_to_r2.py:170-202 | An update sets every listed channel, keeps the others, and is refused exactly when there is no map and it brings no page |
| Deploy.GivingUpTakesOthers | infra/sismo-ui/deploy_to_r2.py:132-155 | A deployer gives up only after others have written at least ten times since it first read the page |
| Deploy.CasWriteHtml | infra/sismo-ui/deploy_to_r2.py:132-155 | Whatever others do to the page between the reads and the writes, every attempt before the last lost a race and left no trace; a page is written only on top of the page that the others alone have left by then and that nobody changed since it was read; and unless it is written the page stays theirs: no change needed, refused, or ten races lost |
| Deploy.EndingWellKeepsOthers | infra/sismo-ui/deploy_to_r2.py:132-155 | When the loop ends well every listed channel has the new version and every other one is as the others left it, so nothing anyone else wrote is undone |
| Deploy.EndIsDetermined | infra/sismo-ui/deploy_to_r2.py:132-155 | The first page and what the others do decide in which attempt the loop ends, how, and with which page |
| Deploy.DeployerEnds | infra/sismo-ui/deploy_to_r2.py:132-155 | Whatever others do, a deployer is at its end after at most 21 steps of its own |
| Deploy.DeployerGoesOn | infra/sismo-ui/deploy_to_r2.py:132-155 | In every reachable state a deployer that has not ended can read or write |
| Deploy.UndisturbedIsWritten | infra/sismo-ui/deploy_to_r2.py:132-155 | If nobody has written since its read, the deployer's write makes its update the page and ends it, or it is refused |
| Deploy.Bucket.CasWrite | infra/sismo-ui/deploy_to_r2.py:103-129 | The conditional write goes through exactly when the page is still the one that was read |

## Left out

- Weak memory: every atomic access is one sequentially consistent step; `mmap`, shared memory, the doubled mapping itself, sockets and descriptor passing are represented by indexing modulo the ring size.
- The 64-bit wrap of ring positions, and the statistics counters in the interleaving model of the ring (the class has them).
- HeapSession: sequence numbers start at 0 instead of 1, since only their order is used; the clock is left out, so that any batch with an older entry in it may be stale or not; the program frees only blocks that an allocator call has returned to it and that nobody else is freeing; calls made while no session is attached, and a second session after the first, are not part of the model.
- HeapSession.BookIsExact: says nothing about an address some event of which is pending or lost; LiveBlockIsBooked covers these for blocks still live.
- HeapBook: byte totals are unbounded integers, and `now_ns`, the stack walk that turns a snapshot into a site, and the emission of profiles are parameters or left out.
- HeapRecords: the clock is a parameter; the 64-bit sequence counter wraps, but that numbers increase is stated for the session model, where they do not.
- Sampling: the draws are an arbitrary stream of integers of at least 1, in place of the generator and its floating point; sums are unbounded.
- GoPclntabs: finding the section and the text address in the ELF file is left out; `text_off + pc` is unbounded.
- GoLayout.SectionHolds: the words of the header that the program skips, and the record fields it never reads, are arbitrary; the file and line tables behind the records stand for any further bytes.
- GoPclntabs.RowsAgreeWithTables: asks for function entries in ascending order, tables that neither wrap nor break off inside a step nor end with an empty step, and that end at or before the next function.
- GoPclntabs.GoPclntab.FindFunc: asks for entries in ascending order, which the table format promises.
- The process-tree packets and the perf packet writers: instances of the encoders modelled here. What a VM program does when it is run is not part of the repository.
- Calendar: the branch for days before the year 0 of the era computation cannot be reached from an unsigned count and is not modelled; the formatting of file names is left out.
- Json.ExtractJsonString: a high surrogate followed by a wrong low one is modelled with wrapping 32-bit arithmetic, as in builds without overflow checks.
- WebSocket: the HTTP handshake, deadlines and failing writes are left out; the stream ends where its bytes end.
- Tar: files are their metadata and the results of successive reads; I/O errors, the temporary file and the rename are left out.
- Tar.HeaderFor: does not model the panic on a time of more than eleven octal digits, which is an error value here.
- WorkerEvent: `wait_timeout` and the mutex inside the condition variable are left out; looking at the event and falling asleep are one step, as the mutex makes them, and waking without cause is allowed.
- Deploy: the page is its markup and its version map, in place of text and regular expressions, so a rewrite that only reformats the map counts as no change; an entity tag is equal exactly for equal pages; pauses between attempts and other client errors are left out.
- Symbol-table searches, module status, option parsing, report printing, build scripts and benchmarks.
