# mflib: a verified model

mflib is the CPU1 side of a two-CPU mailbox system. This project models its hardest parts in
Dafny and proves what they keep over every call, every run and every interleaving. One file
models one component:

| file | component |
|---|---|
| `Tiling.dfy`, `EdataPool.dfy` | the boundary-tag heap of `src/mreqb.c`: first as a row of chunks, then as headers and list nodes in an array of words |
| `OutputPath.dfy`, `ListHead.dfy` | the output side of `src/micproto.c`: as a state machine, and as pointer code on circular lists |
| `WorkerPool.dfy` | the hand-over of responses to the four pool threads |
| `Micproto.dfy` | the whole request/response protocol of two CPUs running the same code |
| `Wakeup.dfy` | the signalling of the three blocking queues |
| `SerialRing.dfy`, `AtFraming.dfy`, `MbSerial.dfy` | the byte-stream layer: the two rings, the line framer, the fragmenter and its reserve pool |
| `SerialLink.dfy` | the serial lines of both CPUs and the protocol under them in one state, with what the request blocks hold |
| `MailboxRx.dfy` | the receive interrupt of the mailbox driver and the address coding of messages |
| `PacketBuffers.dfy`, `NbufQueue.dfy`, `FixedPools.dfy` | packet buffers: references over whole runs, the FIFO and the counts on the heap, the carved block pools |
| `NandStub.dfy`, `Iomux.dfy` | the lazy two-level NAND store, and the write-back cache over the pin registers |
| `Basics.dfy`, `Counting.dfy` | bytes, optional values, sequences in pieces; occurrences of a value in a sequence |

Code that changes things step by step is a class or a method with a loop, proved against a
function of its inputs or of the old state; what the system promises is then proved about that
function. Concurrent code is a state machine whose steps are the locked regions, flag and
semaphore operations and mailbox operations of the source; a run is any sequence of enabled
steps, so a statement about all runs is a statement about all interleavings.

Widths matter in four places and are written out: ring indices and rounded allocation sizes
are 32-bit and wrap, the block count of a request pool is 16-bit and wraps, mailbox messages
are 32-bit words, and register fields are bit vectors. The heap is modelled for a 32-bit
target: word 4, chunk header 8, list node 8 bytes.

## What turned out to be false, or true only under a condition

* Flushing a ring sends exactly what it holds if and only if the two indices are not both
  strictly inside the last 4096 bytes below 2^32 (`SerialRing.FlushExact`). There the rounded
  boundary wraps to 0, and bytes past the end go out.
* On the AT line everything that `mf_ATSend` reports as sent is, at every moment, passed on or
  held, in order and nothing else, if and only if no write while the line is down overfills the
  ring, no startup finds fewer free blocks than passing on what is held takes, and no startup
  inside that last page finds blocks for more than what is held (`SerialRing.AlwaysKeptIff`).
  `SerialRing.LastPageAddsBytes` is an input that fits and still fails; a startup without a free
  block loses whatever was held (`SerialRing.NoBlocksLoseAll`), since the results of the sends
  in a flush are ignored.
* The request-block pool is exactly the blocks that fit its region if and only if at least one
  and fewer than 65536 fit (`FixedPools.CarvesRegionIff`); a region too small for one block
  still yields one.
* Rounding an allocation size is safe if and only if the size is between 1 and 2^32 - 8
  (`EdataPool.RoundingIsSafe`).
* AT lines have the promised shape if and only if no chunk has a CR after a NUL
  (`AtFraming.FramingIffClean`), and do not depend on the chunking if and only if no cut falls
  between a CR and its LF (`AtFraming.ChunkingIsInvisible`).
* Somebody will look at the input list of responses at every moment of a run if and only if no
  response is queued while all four workers are past their last look at it
  (`WorkerPool.AttendedIffNeverStrands`). A response queued then stays there, and is stranded
  once the workers sleep, until another one happens to arrive (`WorkerPool.UnattendedWaits`,
  `WorkerPool.StrandedIffUnattended`); `WorkerPool.ResponseCanBeStranded` is such a run.
* When the whole protocol has come to rest each block is back with its client or stranded in
  that queue (`Micproto.RestsHomeOrStranded`).
* A consumer of one of the three queues can be left asleep beside a non-empty queue if and only
  if there are at least two consumers (`Wakeup.ForgetsIffSeveral`).
* The receive handler keeps a message back exactly when not all that wait fit the soft FIFO
  (`MailboxRx.KeptBackIff`). For every capacity the kept message can be the only one left, with
  both FIFOs empty; then only a further receive interrupt brings it out
  (`MailboxRx.SavedMessageNeedsInterrupt`, `MailboxRx.OnlyHandlerReleases`).
* When everything else is done the whole packet pool is back if and only if the run never took
  the exit that finds no request block (`PacketBuffers.AllBackIffNothingForgotten`);
  `PacketBuffers.ExitLosesBuffer` is a run that takes it.
* An encoded block address decodes to itself if and only if it lies in
  [0x40000000, 0x50000000) (`MailboxRx.RoundTrip`).

Where the code and its comments or names disagree the model follows the code:
`edata_pool_create` returns 0 on success (`src/mreqb.c:153`) and is read as yielding the pool
it has built; the comment on `mf_NandWritePage` says programming, but it overwrites bytes.

## Model

| member | source | states |
|---|---|---|
| Tiling.Fresh | src/mreqb.c:141-150 | pool creation leaves one free chunk between the sentinels, a well-formed heap |
| Tiling.AllocOutcome | src/mreqb.c:156-192 | allocation fails exactly when no free chunk is large enough; otherwise it hands out a free chunk of at least the rounded size and at most three words more, keeps tiling, free list and coalescing, and disturbs no live chunk |
| Tiling.AllocTakesFirst | src/mreqb.c:161-189 | the chunk handed out is the first on the free list that is large enough, cut to size when four words or more are left over; the other free chunks keep their order and the cut-off rest joins them at the end |
| Tiling.FreeOutcome | src/mreqb.c:194-225 | freeing keeps the heap well formed (chunks tile the region, the free list is exactly the free chunks, no two free chunks touch), ends the life of that chunk only, and moves or resizes no other live chunk |
| Tiling.FreeListOrder | src/mreqb.c:194-225 | a free successor leaves the free list, the freed chunk joins it at the end unless a free predecessor swallows it, and the other free chunks keep their order |
| Tiling.SplitTiled | src/mreqb.c:179-185 | cutting a chunk leaves a gap-free tiling and a remainder that starts where no chunk started before |
| Tiling.MergeTiled | src/mreqb.c:203-216 | merging a chunk with its successor leaves a gap-free tiling |
| Tiling.Predecessor | src/mreqb.c:103-106 | every chunk but the first starts exactly where some chunk ends, so the backward step is defined |
| Tiling.NothingLive | src/mreqb.c:194-219 | a well-formed heap with nothing live is the one free chunk of the original size |
| Tiling.EverythingReturned | src/mreqb.c:156-225 | after any run of allocations and frees, freeing the live blocks in any order gives back exactly the heap that creation made |
| Tiling.LiveDisjoint | src/mreqb.c:156-192 | payloads of two live blocks share no word and lie inside the pool |
| Tiling.AllocThenFree | src/mreqb.c:156-225 | an allocation undone at once restores every chunk boundary and the live set; only the free-list position changes |
| EdataPool.Pool.constructor | src/mreqb.c:119-154 | the words written at creation represent the fresh heap over the aligned part of the region |
| EdataPool.Pool.Alloc | src/mreqb.c:156-192 | the in-place code returns the payload of the chunk that first-fit allocation picks, or 0 exactly when it fails; the words represent the resulting heap and no live payload word changes |
| EdataPool.Pool.Free | src/mreqb.c:194-225 | the in-place code leaves the words of the heap with that block freed and both neighbours merged; no word of another live payload changes |
| EdataPool.Pool.FindFit | src/mreqb.c:164-167 | the walk over the in-band list stops at the first chunk that fits, or at the list head |
| EdataPool.Pool.UnmarkOrSwallow | src/mreqb.c:200-209 | first half of a free: a free successor is swallowed and leaves the list, otherwise only the used bit goes |
| EdataPool.Pool.MergeBackOrJoin | src/mreqb.c:211-219 | second half of a free: a free predecessor swallows the chunk, otherwise the chunk joins the list; either way the words represent the freed heap |
| EdataPool.Pool.DoAlloc | src/mreqb.c:172-191 | taking whole or splitting by the 16-byte rule, on the words, is taking on the heap |
| EdataPool.Pool.SetChunkSize | src/mreqb.c:109-117 | a size word and its copy in the successor's header are written, nothing else |
| EdataPool.PreviousHeader | src/mreqb.c:211-215 | the copied size word tells exactly whether the chunk in front is free, and where it starts |
| EdataPool.MergeHeaders | src/mreqb.c:203-216 | one set_chunk_size over two chunks leaves right headers, with every copy equal to its original including the used bit |
| EdataPool.SplitHeaders | src/mreqb.c:179-183 | the two set_chunk_size calls of a split leave right headers for both parts and all other chunks |
| EdataPool.UnlinkLinks | src/mreqb.c:172-205 | taking a node out of the in-band list leaves the list of the others, in order, in both directions |
| EdataPool.LinkLastLinks | src/mreqb.c:185-218 | appending a node extends the in-band list at its end and touches no word that is on no node |
| EdataPool.SwallowedByPredecessor | src/mreqb.c:211-216 | merging backwards on the words completes the free of the heap and keeps the other live payloads |
| EdataPool.JoinsFreeList | src/mreqb.c:217-219 | without a free predecessor, appending to the list completes the free of the heap |
| EdataPool.RoundingIsSafe | src/mreqb.c:92-93 | the rounded size holds the request and a list node if and only if 0 < size <= 2^32 - 8 |
| EdataPool.ReadHeader | src/mreqb.c:79-150 | each chunk has its size in bytes, with bit 0 set while it is live, in front of its payload and again behind it, between two sentinels of size 0 marked as used |
| EdataPool.ReadNode | src/mreqb.c:156-225 | each free payload starts with the address of the next node on the free list and that of the one before |
| OutputPath.StepInv | src/micproto.c:207-230 | insertion, flag, swap and push keep: pending list and batch are the arranged submissions since the last swap, and a sleeper on a non-empty list will be woken |
| OutputPath.RequestsInSubmissionOrder | src/micproto.c:207-220 | in every run the requests put into the mailbox are a prefix of the requests submitted, in that order, across all batches |
| OutputPath.RequestsFlow | src/micproto.c:379-419 | sent, batch and pending requests, one after another, are the submitted requests |
| OutputPath.BatchesAreArranged | src/micproto.c:209-218 | every batch goes out as its responses newest first, then its requests oldest first |
| OutputPath.Conservation | src/micproto.c:379-419 | nothing submitted is lost or sent twice |
| OutputPath.NoLostWakeup | src/micproto.c:367-377 | a sleeping output thread with work pending can be woken: the flag is up or a producer has yet to raise it |
| OutputPath.ResponsesOvertake | src/micproto.c:207-218 | in every run no request is in front of a response in the pending list or in a batch |
| OutputPath.InsertPlace | src/micproto.c:209-218 | a response goes in front of all that is pending, a request behind it |
| OutputPath.OneSignalEach | src/micproto.c:220-227 | in every run each insertion raises the flag once, now or later, and each raising wakes the thread at most once |
| OutputPath.RoundSends | src/micproto.c:404-419 | the pushes of a round send the batch in list order and end with an empty batch |
| ListHead.ListReplace | src/micproto.c:284-290 | the new head takes the old one's place in the circular list, also when the list is empty |
| ListHead.ListDelInit | src/micproto.c:292-296 | the others stay a ring, the node ends self-linked |
| ListHead.Submit | src/micproto.c:209-218 | a request joins the list at the end, a response at the front, and the heap stands for the state of OutputPath after its insertion |
| ListHead.TakeBatch | src/micproto.c:379-383 | the batch hangs off a fresh head unchanged, the pending head is self-linked and outside it |
| ListHead.Detach | src/micproto.c:405-410 | the first node of a headless ring comes off self-linked, the rest is a ring that starts with the next one |
| ListHead.PushRing | src/micproto.c:404-419 | the drain loop ends, sends every node once in ring order, self-linked, reads none after the mailbox has it, and is the pushes of a whole batch of OutputPath, one a round |
| ListHead.PushOne | src/micproto.c:412-418 | retries until the mailbox accepts, and then exactly that node has been added |
| ListHead.OutputRound | src/micproto.c:368-420 | one round moves the whole pending list, in order, to the mailbox, leaves the list empty, and is on the state of OutputPath the check followed by all pushes |
| WorkerPool.StepInv | src/micproto.c:484-566 | every shared access of dispatcher and workers keeps the phases of all four workers consistent |
| WorkerPool.Handshake | src/micproto.c:542-566 | in every run an idle worker has semaphore count 0, a data slot is written only when its last response has been read and only of the first worker that the scan did not see running, and a response is queued only after all four were seen running |
| WorkerPool.EveryResponseOnce | src/micproto.c:484-566 | in every run responses dispatched are responses completed plus responses still held, so none is completed twice or dropped |
| WorkerPool.PickedInOrder | src/micproto.c:503-566 | in every run the responses that workers have taken from the queue, followed by those still on it, are those put on it, in that order |
| WorkerPool.HeldStep | src/micproto.c:505-515 | only a dispatch adds a held response and only its completion removes one |
| WorkerPool.AttendedStep | src/micproto.c:504-515 | from a moment at which some worker will still look at a non-empty list, a step ends that if and only if it queues a response with no worker left that will look |
| WorkerPool.AttendedIffNeverStrands | src/micproto.c:484-566 | for every run the list was attended at every moment if and only if no step queued a response with all workers past their last look |
| WorkerPool.UnattendedWaits | src/micproto.c:512-515 | unattended, the list and that state stay as they are, while workers go to sleep, until another response is dispatched |
| WorkerPool.StrandedIffUnattended | src/micproto.c:512-515 | with everybody asleep and no dispatch under way, stranded is exactly unattended, and attended exactly empty |
| WorkerPool.ResponseCanBeStranded | src/micproto.c:512-515 | the condition of WorkerPool.AttendedIffNeverStrands does come about: there is a run that ends with a response queued, all workers asleep and the dispatcher idle |
| WorkerPool.StrandedIsStuck | src/micproto.c:512-515 | from there nothing but the arrival of another response can happen |
| Micproto.StepKeepsBlock | src/micproto.c:207-608 | every step of either CPU keeps each block in exactly one place, in the state that place requires, with its events in order |
| Micproto.StepKeepsEnds | src/micproto.c:360-608 | every step keeps output path, worker pool, mailbox order and handling statistics of both CPUs |
| Micproto.ExactlyOnePlace | src/micproto.c:207-608 | in every interleaving of two CPUs each block is in exactly one place of the whole system, and nothing else is anywhere |
| Micproto.StatisticsAgree | src/micproto.c:196-204 | submits minus completes is the number of own blocks in flight, receives minus givebacks the number of peer blocks being handled |
| Micproto.InFlightPlaces | src/micproto.c:207-608 | a block in flight is in exactly one of its owner's output path or mailbox, the peer's handlers, the peer's output path or mailbox |
| Micproto.CompleteOncePerSubmit | src/micproto.c:424-441 | at every moment completions do not outrun givebacks nor givebacks submits, and a completion reports exactly the status given back last |
| Micproto.OncePerSubmit | src/micproto.c:274-282 | the same read off any event log whose order is right |
| Micproto.WaiterGetsItsStatus | src/micproto.c:245-272 | the status a waiting submitter returns with is the latest giveback of that very block |
| Micproto.RequestsArriveInOrder | src/micproto.c:569-608 | the requests the peer has passed to its handlers are, block by block and in order, those among the messages it has taken, and a prefix of the requests submitted |
| Micproto.ThereAndBack | src/micproto.c:207-608 | there is a run in which a blocking request goes all the way round and returns the handler's status |
| Micproto.GivesItsStatus | src/micproto.c:274-282 | a giveback, at once or deferred, leaves the handler's status and the response bit in the block and puts it in front of all that is pending |
| Micproto.RestsHomeOrStranded | src/micproto.c:207-608 | wherever a run comes to rest, with nothing enabled but submissions and the return of waiters, each block is with its client or stranded in the worker queue of its own CPU: there is no other place where one can get stuck |
| Wakeup.NoLostWakeup | src/mreqb_fifo.c:65-135 | with one consumer no sleeper is left beside a non-empty queue with nobody about to signal, for all three queues |
| Wakeup.NothingLost | src/nbuf_queue.c:59-129 | got followed by queued is what was put, for both FIFOs; the pool keeps its blocks |
| Wakeup.WhoSignals | src/nbuf_queue.c:59-74 | the FIFO of request blocks raises its flag after every put in a step of its own, the packet queue and the block pool with the put and only when they were empty |
| Wakeup.PutThenGet | src/mreqb.c:300-328 | taking right after putting, the pool gives the same block back and the queues their oldest |
| Wakeup.TwoConsumersCanBeForgotten | src/mreqb.c:316-357 | for every number of consumers from two on each queue has a run that forgets one |
| Wakeup.ForgetsIffSeveral | src/nbuf_queue.c:59-129 | for each queue some run forgets a consumer if and only if there are at least two |
| SerialRing.Ring.EmitLogChar | src/mbser_log.c:74-81 | one byte written leaves the last 4096 bytes, whatever the 32-bit indices |
| SerialRing.Ring.CacheLogBuf | src/mbser_log.c:83-96 | byte by byte, the ring ends up with the last 4096 of old contents and data |
| SerialRing.Ring.CacheAtSend | src/mbser_at.c:110-142 | block by block, with early truncation and a different end index, the ring ends up with the last 4096 of old contents and data, in a buffer written exactly where the indices say |
| SerialRing.Ring.Flush | src/mbser_at.c:80-107 | what goes out is the pieces of the specification and the ring is empty |
| SerialRing.WritesKeepLast | src/mbser_log.c:74-96 | for every sequence of writes, keeping the last 4096 after each keeps the last 4096 of all |
| SerialRing.BlocksLikeBytes | src/mbser_at.c:110-149 | the block-copying ring and the byte ring hold the same for every sequence of writes |
| SerialRing.FlushExact | src/mbser_at.c:95-103 | the non-empty pieces, at most two, are exactly the buffered bytes in order if and only if the indices are not both strictly inside the last page below 2^32 |
| SerialRing.FlushLengths | src/mbser_log.c:59-66 | the two lengths stay inside the buffer in all cases, and add up outside the last page |
| SerialRing.NothingDroppedIff | src/mbser_at.c:80-246 | over any writes, startups, shutdowns and changes of the block pool in which no startup sends more than is held: everything reported as sent is passed on or held, in order, if and only if no write overfilled the ring and no startup fell short of blocks; else bytes are missing |
| SerialRing.NothingAddedIff | src/mbser_at.c:80-107 | over any in which nothing is dropped: everything reported as sent and nothing else is passed on or held if and only if no startup in the last page had blocks for more than was held; else there are extra bytes |
| SerialRing.StartupPasses | src/mbser_at.c:93-102 | what a startup passes on is what is held, or less, or more, exactly by the number of free blocks and whether the indices are in the last page |
| SerialRing.AlwaysKeptIff | src/mbser_at.c:80-246 | for every line and every sequence of events: that holds at every moment if and only if none of the three ever happens |
| SerialRing.LastPageAddsBytes | src/mbser_at.c:95-97 | one byte written at the start of the last page fits and is flushed with more behind it |
| SerialRing.NoBlocksLoseAll | src/mbser_at.c:93-102 | with no free block a startup loses all that is held, and nothing is kept unless nothing was held |
| SerialRing.CachedHolds | src/mbser_at.c:115-140 | writing only the end of a long message, from the end index on, leaves the last 4096 bytes of old contents and message |
| SerialRing.Play | src/mbser_at.c:208-246 | any sequence of calls on the port takes its fields through the states of the line |
| SerialRing.AtPort.AtSend | src/mbser_at.c:208-223 | without a channel returns 0 and does nothing, else holds back all while the line is down and returns the length, or passes on what the free blocks take and returns how much that is |
| SerialRing.AtPort.OnStartup | src/mbser_at.c:232-235 | startup passes on the flushed pieces as far as the free blocks go, empties the ring and sets the line open |
| SerialRing.AtPort.OnShutdown | src/mbser_at.c:237-239 | shutdown only closes the line |
| SerialRing.OpenAsLastTold | src/mbser_at.c:225-246 | after any sequence of events the line is up exactly when some startup has no shutdown behind it, or it was up and there was no shutdown |
| SerialRing.OpenPassesOn | src/mbser_at.c:208-235 | from a startup on and until the next shutdown each write extends what has gone out by exactly what it reports, and nothing is held |
| SerialRing.WriteWhileUp | src/mbser_at.c:215-216 | 512 bytes for each free block go out at once and are reported, and each 512 bytes begun use up a block |
| SerialRing.WriteWhileDown | src/mbser_at.c:218-219 | nothing goes out, all is reported, and the ring ends up with the newest 4096 bytes of what it held and the data |
| AtFraming.StrNChr | src/mbser_at.c:151-160 | the scan finds the first CR unless a NUL comes first |
| AtFraming.NothingLost | src/mbser_at.c:162-198 | delivered lines and residue, one after another, are all input received, however it is cut |
| AtFraming.FramingIffClean | src/mbser_at.c:162-198 | every line has its one CR at the end or before a final LF and the residue none, if and only if no chunk has a CR after a NUL |
| AtFraming.ChunkingIsInvisible | src/mbser_at.c:172-176 | for such input the result does not depend on the chunking if and only if no cut falls between a CR and its LF |
| AtFraming.FeedAppend | src/mbser_at.c:169-197 | feeding two pieces is feeding their concatenation when the cut splits no pair |
| AtFraming.SplitShows | src/mbser_at.c:172-176 | a cut through a pair changes the delivered line in front of it |
| AtFraming.FitsIffLinesDo | src/mbser_at.c:178-195 | the unchecked buffer suffices exactly when every line and the residue are at most 1024 bytes |
| AtFraming.Framer.CacheAtRecv | src/mbser_at.c:162-198 | the buffer code delivers the lines and keeps the residue of the specification |
| MbSerial.Sender.MfMbserialSend | src/mf_mbserial.c:169-222 | takes nothing for empty input or a port that is down, else as much as the free blocks hold; the bytes taken go out as the fewest packets, in order, in the blocks from the front of the pool, and packets in flight keep their contents |
| MbSerial.Sender.SendAll | src/mf_mbserial.c:189-217 | the loop's part of that |
| MbSerial.Sender.InFlightReads | src/mf_mbserial.c:201-211 | each block in flight holds command and sub-command of a data transfer, the line as argument 0, the length as argument 1, and the payload as its data |
| MbSerial.Sender.PutMreqb | src/mf_mbserial.c:62-65 | a completed block returns to the end of the pool blank and no other block or its data changes |
| MbSerial.TakenAll | src/mf_mbserial.c:192-221 | a send on an open port takes everything if and only if the pool holds a block for each 512 bytes begun |
| MbSerial.FragmentsKeepBytes | src/mf_mbserial.c:192-217 | the packets of a stretch carry exactly its bytes on its line, none on others, and are as few as possible |
| MbSerial.FragmentSizes | src/mf_mbserial.c:201-209 | each payload has 1 to 512 bytes |
| MbSerial.StreamPreserved | src/mf_mbserial.c:169-222 | in every interleaving of calls on eight lines the payloads sent on a line are the prefixes its calls accepted |
| MbSerial.CallAlone | src/mf_mbserial.c:192-217 | undisturbed, the steps of a call add up to what the loop is proved to do |
| MbSerial.DeliveredInOrder | src/mf_mbserial.c:73-126 | for any sequence of requests each open port has delivered exactly its line's payloads in order and is up exactly when the last startup or shutdown for it was a startup |
| MbSerial.NotifiersTold | src/mf_mbserial.c:93-123 | for any sequence of requests the notifiers of an open port are told startup, shutdown or data of exactly the requests that concern it, one for one and in order, and the port is up exactly when the last startup or shutdown they were told of is a startup |
| MbSerial.Ports.HandleRequest | src/mf_mbserial.c:73-126 | serves the addressed open port only: startup sets it up and tells so, shutdown sets it down and tells so, data are passed on; -1 for a bad line, a closed port or an unknown command, and then nothing changes |
| MbSerial.Ports.HandleMreqb | src/mf_mbserial.c:80-123 | reads line, length and data out of the block's arguments 0 and 1 and its data, and does that |
| MbSerial.FilledIsDelivered | src/mf_mbserial.c:73-211 | a block filled for a line with some data, once handled, gives the notifiers of that port exactly these data and nobody else anything |
| MbSerial.Ports.MbserialGet | src/mf_mbserial.c:232-263 | opens a port of a valid line once and leaves an open one as it is |
| MbSerial.ReservePool.constructor | src/mreqb_reservep.c:33-55 | the pool holds the asked number of distinct blank blocks with data of their own |
| MbSerial.ReservePool.Alloc | src/mreqb_reservep.c:85-100 | hands out the block freed longest ago, or none exactly when empty |
| MbSerial.ReservePool.Free | src/mreqb_reservep.c:75-83 | whatever was left in it, the block is blank again and last in line |
| MbSerial.Mreqb.Reinit | src/mreqb.c:420-432 | all fields but magic number and data are cleared |
| SerialLink.StepInv | src/mf_mbserial.c:73-222 | every step of either CPU, of its senders, clients, protocol threads or dispatch thread, keeps what is in every block unread until the peer has read it, and keeps senders, FIFO and ports in agreement with it |
| SerialLink.HeardInOrder | src/micproto.c:569-608 | in every run what the peer has received is what was in the request blocks when they were submitted, in order; blocks not received yet still hold it; and what the dispatch thread has read, followed by what the blocks waiting for it hold, is every serial request received |
| SerialLink.FilledAtHome | src/micproto.c:207-220 | in every run a client can fill and submit only blocks that neither the peer, nor any handler, nor a dispatch thread has yet to read |
| SerialLink.StreamThroughMailbox | src/micproto.c:360-422 | in every run, on every line: the streams in what the peer has received and in what the blocks in the mailbox, the batch and the pending list hold now are together the bytes the calls on this side have accepted |
| SerialLink.EndToEnd | src/mf_mbserial.c:132-222 | in every run of both CPUs: what came too early for a port, what its notifiers were given, and what waits with the dispatch thread, in the mailbox, the batch and the pending list, in this order, are the bytes the calls on the other side have accepted for the line |
| SerialLink.AllDeliveredAtRest | src/mf_mbserial.c:132-222 | wherever a run comes to rest, with nothing left for the protocol and dispatch threads to do, what came too early for a port and what its notifiers were given are exactly the bytes accepted on the other side |
| SerialLink.NotifiersTold | src/mf_mbserial.c:93-123 | in every run the notifiers of an open port have been told of exactly the requests handled since it was opened that concern it, one for one and in order, and the line takes sends exactly while the last startup or shutdown they were told of is a startup |
| SerialLink.UpAsLastTold | src/mf_mbserial.c:95-187 | in every run a line takes sends exactly while its port is open and the last startup or shutdown handled since it was opened was a startup; a call with data can begin exactly then, when no other is under way |
| MailboxRx.NothingLostOrReordered | project/test/p4a_mbox.c:186-343 | in every run delivered, soft FIFO, saved message and hardware FIFO together are the decoded messages that arrived |
| MailboxRx.StepInv | project/test/p4a_mbox.c:186-343 | every step keeps that, and keeps the interrupt off only while a message is saved and a getter is bound to enable it |
| MailboxRx.NeverStuckOff | project/test/p4a_mbox.c:329-343 | the receive interrupt is never left off with the getter waiting on an empty soft FIFO |
| MailboxRx.SavedMessageNeedsInterrupt | project/test/p4a_mbox.c:188-205 | for every capacity there is a run after which the getter waits, both FIFOs are empty, the interrupt is on and the last message is still saved |
| MailboxRx.OnlyHandlerReleases | project/test/p4a_mbox.c:186-211 | a saved message stays saved under every step but the receive interrupt |
| MailboxRx.KeptBackIff | project/test/p4a_mbox.c:196-204 | a handler run saves a message, and turns the interrupt off, exactly when not all that wait fit the soft FIFO |
| MailboxRx.HandlerDrains | project/test/p4a_mbox.c:186-211 | a whole handler run keeps the order, fills the soft FIFO as far as it goes, and saves a message exactly when it does not all fit |
| MailboxRx.P4aMbox.RxInterrupt | project/test/p4a_mbox.c:186-211 | the loop, entered in its middle when a message was saved, does that |
| MailboxRx.P4aMbox.MsgGet | project/test/p4a_mbox.c:329-343 | takes the oldest message and enables the interrupt again after a full FIFO |
| MailboxRx.RoundTrip | include/mf_mailbox.h:37-48 | decoding an encoded address gives it back if and only if it is in [0x40000000, 0x50000000) |
| MailboxRx.EncodeHead | include/mf_mailbox.h:33-43 | the head of an encoded message says message and ARM_M, and the rest is the low 28 bits of the address |
| MailboxRx.DecodeRange | include/mf_mailbox.h:37-48 | every message decodes into that range, so never to 0 |
| PacketBuffers.StepInv | src/mf_nbuf.c:32-113 | every step keeps: each count is the number of holders, a buffer is free exactly when nobody holds it, and waits in the backlog at most once |
| PacketBuffers.Conservation | src/mf_memp.c:52-100 | in every run free and live buffers are the whole pool and disjoint, and so are request blocks free, in flight and in other use |
| PacketBuffers.ReturnsWithLastHolder | src/mf_nbuf.c:92-113 | a step returns a buffer to the free list exactly when it takes its last holder away |
| PacketBuffers.LastReturnedIsNext | src/mf_memp.c:52-79 | the buffer that a step returns is the one the next allocation hands out |
| PacketBuffers.RestIsQuiet | src/mf_mbnetif.c:195-316 | nothing but allocations, further references and other uses of request blocks can happen exactly when everything has been let go of |
| PacketBuffers.ReceivePath | src/mf_mbnetif.c:306-362 | a received packet's reference goes from handler to backlog to forward thread, which alone can drop it |
| PacketBuffers.TransmitPath | src/mf_mbnetif.c:207-240 | a transmission's reference stays with its request block until that is completed and returned, and is dropped only then |
| PacketBuffers.ForgottenStays | src/mf_mbnetif.c:225-228 | the reference left at the exit without request block is never dropped |
| PacketBuffers.ForgottenGrows | src/mf_mbnetif.c:225-228 | the references left behind grow by one exactly at that exit |
| PacketBuffers.ExitLosesBuffer | src/mf_mbnetif.c:225-228 | the exit is reachable, and one buffer short is the result |
| PacketBuffers.AllBackIffNothingForgotten | src/mf_mbnetif.c:207-240 | for every run that ends with nothing else held: the whole pool is back if and only if no step of the run took the exit without request block |
| NbufQueue.Queue.Put | src/nbuf_queue.c:59-74 | appends through the pointer to the last link and raises the event exactly on a queue that was empty |
| NbufQueue.Queue.Get | src/nbuf_queue.c:83-104 | removes the oldest, clears its link, and resets the last link when the queue empties |
| NbufQueue.Netif.NetbufAlloc | src/mf_nbuf.c:32-63 | hands out a buffer that is in no list, with one reference, a null link and cursors in place |
| NbufQueue.Netif.NetbufRef | src/mf_nbuf.c:72-82 | adds one reference and changes no list |
| NbufQueue.Netif.NetbufFree | src/mf_nbuf.c:92-113 | the buffer joins the free list exactly when its count reaches zero; free list and backlog stay disjoint |
| NbufQueue.Netif.HandleNewIpPacket | src/mf_mbnetif.c:320-362 | a packet moves the first free buffer to the end of the backlog with the packet's bytes as its payload, or is dropped when there is none |
| NbufQueue.Netif.Forward | src/mf_mbnetif.c:306-316 | the forward thread takes over the oldest buffer with its reference |
| FixedPools.MreqbPool.constructor | src/mreqb.c:262-297 | the carving loop threads every carved block on the free list in address order |
| FixedPools.CarvesRegionIff | src/mreqb.c:278-280 | the carved blocks are exactly those inside the region if and only if between 1 and 65535 fit |
| FixedPools.CarvesWraps | src/mreqb.c:262-280 | 65536 blocks more in the region make no difference, and a region for exactly 65536 is one block |
| FixedPools.MreqbPool.Alloc | src/mreqb.c:300-314 | takes the first block, writing its header word only |
| FixedPools.MreqbPool.Free | src/mreqb.c:316-328 | puts the block first, writing its header word only, and signals exactly when none was free |
| FixedPools.LinkedUnique | src/mreqb.c:300-328 | the header words determine the free list |
| FixedPools.PayloadIsNoHeader | src/mreqb.c:288-293 | no header write touches a payload word |
| FixedPools.Memp.constructor | src/mf_memp.c:81-100 | every element is on the free list once, the last carved first |
| FixedPools.Memp.Alloc | src/mf_memp.c:52-65 | takes the first element without changing memory |
| FixedPools.Memp.Free | src/mf_memp.c:67-79 | puts the element first; NULL changes nothing |
| NandStub.ReadsLastByte | project/test/nand_stub.c:170-273 | for every sequence of writes and erases each byte is what the last write over it put there, or 0xFF when its block was erased since or it was never written |
| NandStub.EraseBlanksBlock | project/test/nand_stub.c:252-273 | an erase turns all 64 pages of the block that the page is in to 0xFF and leaves every other page alone |
| NandStub.Chip.NandReadPage | project/test/nand_stub.c:170-193 | the lazy store returns the flat array's bytes, clipped at the page's end |
| NandStub.Chip.NandWritePage | project/test/nand_stub.c:206-243 | allocates on demand and stands for the flat array after the clipped write; a page past the chip is refused with -1 |
| NandStub.Chip.NandEraseBlock | project/test/nand_stub.c:252-273 | stands for the flat array with the 64 pages of that block, and no other, blanked |
| Iomux.P4aIomuxConfig | src/iomux.c:37-70 | the registers end as after a separate read, change and write for each valid pin, with one write per run of equal ids |
| Iomux.RunsAreMaximal | src/iomux.c:53-68 | the writes are as many as the maximal runs among the valid pins, cover their ids, and never repeat an id twice in a row |
| Iomux.FieldsReadBack | src/iomux.c:62-63 | every field of every register reads back the mode of the last pin for it, or what it held before |
| Iomux.WideModeInField | src/iomux.c:62-63 | a mode too wide for its field sets the field to its low bits |
| Iomux.WideModeSpills | src/iomux.c:62-63 | and sets its high bits in the next field over what is there |

## Left out

- The compiled configuration: `src/mreqb.c:32` selects the eCos memory pool, which is foreign code; the in-repository heap of the other branch is modelled.
- EdataPool.Pool.constructor: requires an aligned region of at least 24 bytes, room for the sentinels and one list node, which the source takes for granted; allocation of the pool record itself succeeds.
- EdataPool.Pool.Alloc: requires 0 < size <= 2^32 - 8, the range EdataPool.RoundingIsSafe shows to be exact; the caller in src/mreqb.c:401-402 passes positive sizes only. The retry loop of the waiting form is left out.
- Addresses: chunk addresses are word indices from the aligned base, below 2^30 words.
- The list primitives of linux/list.h: the file is not part of this model (nor of the repository); `list_add`, `list_add_tail`, `list_del` have their usual meaning.
- Timed waits: `mreqb_submit_and_wait` is modelled with timeout 0; with a timeout it leaves a context on a dead stack behind.
- Liveness and fairness: where the protocol can come to rest is proved and what can be stranded or forgotten is shown by runs; that enabled steps are eventually taken is not claimed.
- Micproto.StepKeepsBlock: writing result and response bit, the count and the insertion of `mreqb_giveback` are one step, and each statistics increment is atomic.
- Micproto.ExactlyOnePlace: messages without the magic number, which the input thread skips, and blocks without completion callback, which would not return to a client, do not occur.
- `process_output` (src/micproto.c:298-357): never called, since `mreqb_submit` always wakes the thread.
- Cache cleaning and invalidation: no effect in a sequentially consistent model.
- ListHead.PushRing: how often a full mailbox refuses is unknown but finite; the thread delay between tries is left out.
- SerialRing.AtPort.OnStartup: each notifier event is atomic, so bytes cached between the flush and the opening of the line are not shown stranded.
- SerialRing.AtPort.MbserialSend: stands for the effect of MbSerial.Sender.MfMbserialSend on a number of free blocks, which changes between events only, not between the two sends of a flush.
- SerialRing.AtPort.AtSend: the second look at `can_send` after caching (src/mbser_at.c:144-146) is left out, as it finds it unchanged when events are atomic.
- SerialRing.Ring.constructor: takes the initial index as a parameter, so that every position of the free-running indices is covered.
- AtFraming.Framer.CacheAtRecv: requires that the buffer suffices, which the source leaves to its input.
- MbSerial.Ports.HandleMreqb: requires a length that the block's data can have, as the sender fills it in.
- MbSerial.Ports.HandleRequest: requires a line number that is not negative, since the source would index its table with it (src/mf_mbserial.c:83-88); notifiers are an event log, not a chain of callbacks.
- SerialLink.EndToEnd: the reserve pool gets blocks back at any time and the status of an answer is any number, which allows more runs than the source has; filling a block and submitting it are one step, as are the FIFO insertion and the deferral by `do_mbserial_request`; the FIFO's own signalling is the subject of Wakeup.
- MbSerial.Mreqb.Reinit: the list node is the subject of ListHead.
- MbSerial.Sender.MfMbserialSend: is one call; several lines and returning blocks in between are covered by MbSerial.StreamPreserved.
- MailboxRx.NothingLostOrReordered: whether the device raises an interrupt is left open, and the depth of its FIFO too.
- The transmit side of the mailbox driver and the work queues of `src/mf_thread.c`: `tx_work` can race with a direct write, no order holds there.
- NbufQueue.Netif.HandleNewIpPacket: requires a packet that fits the buffer, since the source copies without a check (src/mf_mbnetif.c:350).
- FixedPools.Memp.constructor: one pool, as `include/memp_std.h` declares; the outer loop over pools has one round.
- `RX_BUF_LATE_FREE` in `src/mf_mbnetif.c`: compiled out.
- NandStub.Chip.NandReadPage: the source checks no page range on read and erase, nor the column; the model requires them in range.
- Iomux.P4aIomuxConfig: shifts of 32 and more have no meaning in C and are excluded.
- Clock, reset and boot code, board files, the NAND proxy, USB glue, logging, `mf_notifier.c`: hardware pokes, thin wrappers and input/output.
