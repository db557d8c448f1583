# A verified model of the CurveCP session of libcurvecpr-asio

`curvecp::detail::session` turns libcurvecpr's messager into a reliable byte stream. Writers put
bytes into a circular buffer; blocks are cut from it into a one-slot head and moved to `sendmarkq_`,
where they wait for acknowledgement; received blocks wait in `recvmarkq_`, sorted by range, until
`read` copies the next contiguous run into a reader's buffer and both status bits of a block are set.
`io_op` retries, parks and finishes the operations on a session.

The project models all of that and proves what it is for: over a network that loses, duplicates and
reorders, the reader gets a prefix of what the writer wrote, nothing is lost, and EOF is reported
exactly at the end; and so the buffers of finished `async_read` operations hold a prefix of what finished
`async_write` operations were given.

## How it is organised

| file | contents |
|---|---|
| `Blocks.dfy`, `Arith.dfy` | bytes, blocks, queue entries; a little arithmetic |
| `SessionSpec.dfy` | the session as a value, each operation as a function on it, and runs of operations |
| `Session.dfy` | the session as a class that keeps the state the C++ class keeps, in the same form: a byte array with two cursors, queues of objects whose status bits are set in place, loops that erase while iterating; every method is proved to compute the function of `SessionSpec.dfy` |
| `Sweep.dfy` | what the loop in `read` achieves: maximal contiguous run, bytes of the stream, what stays queued, EOF, the contiguous count |
| `Acks.dfy` | acknowledging received blocks, the enumeration of unacknowledged blocks, and how acknowledgement commutes with reading |
| `Late.dfy` | blocks put into a session at EOF, whose DISTRIBUTED bit is not the truth: what an acknowledgement erases, and exactly when its order with a read matters |
| `Sender.dfy` | finality of EOF, useful blocks, draining, `sendmarkq_`, bounds |
| `Lifetimes.dfy` | a session after `do_close` behaves like a new one |
| `Closing.dfy` | the `running_` / `pending_eof_` / `pending_close_` machine |
| `Network.dfy`, `Invariants.dfy`, `NetworkProofs.dfy`, `EndToEnd.dfy` | two sessions and a network as a step relation, the inductive invariant, and the end-to-end theorems |
| `Reports.dfy` | when reads report EOF, over whole runs |
| `Erasure.dfy` | the one way in which an accepted byte is lost |
| `Cuts.dfy` | that queued and travelling blocks never overlap, and what follows for acknowledging and reading |
| `Jam.dfy`, `Completion.dfy` | from which states a transfer can still complete |
| `Transfer.dfy`, `Witness.dfy` | runs that exist: whole transfers in blocks of any size, and the states in which the exceptions to the theorems occur |
| `Io.dfy`, `Scheduling.dfy` | `io_op::operator()` as a function and as a class; operations over whole runs, completion and wakeups |
| `Hosts.dfy`, `HostProofs.dfy`, `HostRuns.dfy`, `HostWakeups.dfy` | the operations of both sides together with the network, projected onto runs of the two sessions, and onto runs of the operations on each session |

`dafny verify dfyconfig.toml` checks everything.

## Assumptions

libcurvecpr is not part of the repository, so its messager is a nondeterministic caller of the
callbacks. What is assumed of it appears as an enabling condition or a parameter:

- the head block is moved, or sent, with the sum of the lengths of the blocks moved before it as its
  offset, and with its data and EOF mark unchanged (`Network.HeadBlock`, `Network.MoveOnce`);
- received blocks are blocks that the peer sent (they are taken from the wire);
- an acknowledgement that is sent covers only positions of blocks that the receiver stored
  (`SendAck` in `Network.NodeEnabled`); `EndToEnd.ContiguousBound` shows that acknowledging up to
  `their_contiguous_sent_bytes`, or any block still queued, meets this;
- the messager does not itself raise `their_contiguous_sent_bytes`;
- a callback about a block passes the head it was given or a block of `sendmarkq_`;
- `my_maximum_send_bytes` is at most the capacity of a block's data array, into which
  handle_sendq_head copies that many bytes;
- where a head is required to carry something, the messager asks for at least one byte
  (`max >= 1`).

The ranges that a receiver marks as acknowledged in its own queue are arbitrary, and so are the order
and number of all callbacks, `m`, the clocks, and the moment of `do_close`.

`pending_maximum_` is fixed and fits a signed 32-bit `int`, which makes the casts of `write` and
handle_sendq_head lossless; it may be zero. Stream offsets are unbounded naturals: a wrap of the 64-bit
offset is not modelled. The reader's buffer does not overlap the ring. One read is outstanding at a
time, because the session keeps a single read offset; `Scheduling.RetriedReadFits` and
`HostRuns.ReadyIsEnabled` show that `io_op` then always meets what `read` demands. The network runs cover
one lifetime of each session: a node whose `do_close` has run takes no further step, its peer does.

Two places where the code and its comments differ, and the model follows the code. A block put while
EOF is pending is marked as distributed on the ground that no reader is left (`session.ipp:477-481`), yet
a later `read` still copies its bytes, because the loop looks at offsets and not at the mark:
`Witnesses.LateOrderMatters` gives a reachable state where the reader gets the byte or not depending on
whether the read or the acknowledgement comes first. `io_op`'s `start` argument promises a deferred
handler for a direct call (`io.hpp:45,61-65`), but the dispatch to the strand drops it: by
`Scheduling.PostedExactly` a handler is deferred if and only if its operation is submitted on the strand
and finishes in that first call, and `Scheduling.StartIsDropped` gives a direct call whose handler is not.

Three ways in which the code falls short of a simpler promise are stated with the exact condition and a
reachable state. A locally closed receiver can lose accepted bytes (`ErasureFacts.OnlyAcknowledgeUncovers`,
`Witnesses.LateByteIsLost`). A receive queue full of blocks that lie ahead refuses the missing block for
ever (`Completion.CompletesUnlessJammed`, `Witnesses.JamIsReachable`). close_handler_ is called again by a
close after do_close (`ClosingFacts.CloseHandlerOnce`, `Scheduling.WokenCloseReportsAgain`).

## Model

Lines of `session.ipp` are those of `libcurvecpr-asio/include/curvecp/detail/impl/session.ipp`.

| member | source | states |
|---|---|---|
| `EndToEnd.DeliveredIsPrefix` | libcurvecpr-asio/include/curvecp/detail/impl/session.ipp:196-395 | in every reachable state of the two sessions and the network, the bytes copied to the reader, and those that finished reads hold, are a prefix of the bytes accepted by `write` on the other side, in both directions |
| `ErasureFacts.NoLoss` | libcurvecpr-asio/include/curvecp/detail/impl/session.ipp:438-492 | every accepted byte is delivered, or in the ring, the head, a genuine block of `sendmarkq_` or a genuine undistributed entry of the receiver's queue, whatever was acknowledged; the only exception, after a local close of the receiver, are bytes it stored after that close, and those are in its queue or were erased by an acknowledgement |
| `ErasureFacts.OnlyAcknowledgeUncovers` | libcurvecpr-asio/include/curvecp/detail/impl/session.ipp:528-540 | whatever a receiver does short of `do_close`: a position that its queue contains and the reader lacks is then read or still in the queue, if and only if the action is not an acknowledgement that erases every entry containing it |
| `Witnesses.LateByteIsLost` | libcurvecpr-asio/include/curvecp/detail/impl/session.ipp:473-481 | the exception occurs: a reachable state of a locally closed receiver in which an accepted byte was not delivered, its receive queue is empty, and the sender does not hold the byte either |
| `LateFacts.AckRangeCovers` | libcurvecpr-asio/include/curvecp/detail/impl/session.ipp:532-539 | the exact guard: a position stays covered by the receive queue if and only if some entry covers it that is not both distributed and inside the acknowledged range |
| `EndToEnd.QuietMeansComplete` | libcurvecpr-asio/include/curvecp/detail/impl/session.ipp:208-267 | when the sender holds nothing any more and the receiver, not closed locally, has nothing left for the reader, the reader has every accepted byte |
| `EndToEnd.EofIsExact` | libcurvecpr-asio/include/curvecp/detail/impl/session.ipp:221-238 | when `read` has met an EOF block, the reader has exactly the bytes that the peer ever accepted, and the peer accepts no more in any continuation of the run |
| `EndToEnd.ShortReadIsLast` | libcurvecpr-asio/include/curvecp/detail/impl/session.ipp:257-265 | in every reachable state the outstanding read's buffer holds the read offset; a read that completes short of its buffer reports EOF, and one that reports EOF on a session not closed locally comes after the EOF block was met and leaves the reader with everything accepted |
| `ReportFacts.EofReportedExactly` | libcurvecpr-asio/include/curvecp/detail/impl/session.ipp:257-264 | in every reachable state of a receiver that has not closed, some finished read has reported EOF if and only if the EOF block was met, and then the reader has every accepted byte |
| `ReportFacts.ReadReportsEof` | libcurvecpr-asio/include/curvecp/detail/impl/session.ipp:257-267 | there, a read into a non-empty buffer finishes if and only if the EOF block has been met by then or its buffer is full, and it reports EOF if and only if the EOF block has been met by then, full buffer or not |
| `EndToEnd.ReadsAreConsecutive` | libcurvecpr-asio/include/curvecp/detail/impl/session.ipp:209-267 | after any number of retries and arrivals, finished reads end to end, followed by the first `recvmarkq_read_offset_` bytes of the outstanding buffer, are exactly the first `recvmarkq_distributed_` bytes of the stream |
| `EndToEnd.SenderPartition` | libcurvecpr-asio/include/curvecp/detail/impl/session.ipp:316-395 | moved blocks in move order, then the head, then the ring, are all of the accepted bytes; each moved block starts where the one before ended, and is in `sendmarkq_` or inside a range that was acknowledged |
| `EndToEnd.MarksLeaveOnlyWhenAcked` | libcurvecpr-asio/include/curvecp/detail/impl/session.ipp:365-455 | until `do_close`, an action takes a block out of `sendmarkq_` if and only if it acknowledges a range that contains it |
| `EndToEnd.ReceiverConserves` | libcurvecpr-asio/include/curvecp/detail/impl/session.ipp:240-250 | every position of every block stored while `pending_eof_` was false is below the read position or covered by an undistributed entry; no entry is DONE; the queue is sorted |
| `EndToEnd.ContiguousBound` | libcurvecpr-asio/include/curvecp/detail/impl/session.ipp:242-244 | `their_contiguous_sent_bytes` never exceeds the read position, until a local close lags it only inside one queued block, and acknowledging up to it is honest |
| `EndToEnd.ContiguousMonotone` | libcurvecpr-asio/include/curvecp/detail/impl/session.ipp:242-244 | over every run of the session the contiguous count only grows |
| `CutFacts.BlocksAreApart` | libcurvecpr-asio/include/curvecp/detail/impl/session.ipp:326-359 | in every reachable state, two blocks on the wire or in the receive queue are the same block or do not overlap |
| `CutFacts.AckAndReadCommute` | libcurvecpr-asio/include/curvecp/detail/impl/session.ipp:240-250 | in every reachable state, closed locally or not, acknowledging a range before or after the next read gives the same queue, bytes and EOF flag if and only if every byte that the read would copy is also in an entry the acknowledgement does not erase; until a local close that always holds |
| `CutFacts.AckAndReadContiguous` | libcurvecpr-asio/include/curvecp/detail/impl/session.ipp:242-250 | until a local close both orders give the same `their_contiguous_sent_bytes` if and only if that does not lag, or the read retires nothing, or it still retires something after the acknowledgement |
| `Witnesses.LateOrderMatters` | libcurvecpr-asio/include/curvecp/detail/impl/session.ipp:477-481 | a reachable state of a locally closed receiver in which the next read copies a byte, but not after its acknowledgement |
| `Witnesses.AckFirstDelaysContiguous` | libcurvecpr-asio/include/curvecp/detail/impl/session.ipp:242-250 | a reachable state, two blocks of five bytes of which seven bytes were read, in which acknowledging first leaves `their_contiguous_sent_bytes` two bytes behind |
| `LateFacts.AckAndSweepCommuteExactly` | libcurvecpr-asio/include/curvecp/detail/impl/session.ipp:212-255 | for every sorted queue of blocks that do not overlap, whatever its bits say: the order of acknowledgement and sweep makes no difference exactly when no byte to be copied is erased |
| `LateFacts.LateBlocksVanish` | libcurvecpr-asio/include/curvecp/detail/impl/session.ipp:477-481 | any number of blocks put into a session at EOF, then acknowledged by a range that covers them, leave it as if they had never been put; so the queue ends no longer than it was |
| `EndToEnd.InvAlways` | libcurvecpr-asio/include/curvecp/detail/impl/session.ipp:196-543 | the invariant that joins each sender to its receiver is kept by every run |
| `EndToEnd.MirrorReachable` | libcurvecpr-asio/include/curvecp/detail/impl/session.ipp:196-395 | exchanging the two sides of a reachable state gives a reachable state, so each statement about one direction holds for the other |
| `Transfers.TransferCanComplete` | libcurvecpr-asio/include/curvecp/detail/impl/session.ipp:196-543 | for every maximum m >= 1 and all data that fit the ring and the buffer, some run in which every head is cut with m delivers exactly that data in one read and reaches EOF, in exactly max(1, ceil(length/m)) blocks, with room for one block in each queue, and with nothing left waiting on either side; that read reports EOF |
| `Completion.CompletesUnlessJammed` | libcurvecpr-asio/include/curvecp/detail/impl/session.ipp:463-492 | for every m >= 1: from a reachable state in which neither side has ended and the receiver has not closed, some run in which every head is cut with m delivers everything accepted, if and only if it is delivered already or the receiver is not jammed, that is, its queue is not full of undistributed blocks beyond the next byte |
| `JamFacts.JammedForever` | libcurvecpr-asio/include/curvecp/detail/impl/session.ipp:470-471 | in no continuation, closing and `do_close` included, does a jammed receiver deliver another byte |
| `Witnesses.JamIsReachable` | libcurvecpr-asio/include/curvecp/detail/impl/session.ipp:470-471 | for every maximum of the receive queue two open sessions can reach a jam: one block is late and copies of the next one fill the queue |
| `HostRuns.ReadsGetWrites` | libcurvecpr-asio/include/curvecp/detail/io.hpp:47-70 | in every run of operations and network, the buffers of one side's finished reads, in order of completion, are end to end a prefix of the data of the other side's writes that finished with success, in both directions |
| `HostRuns.EofMeansAll` | libcurvecpr-asio/include/curvecp/detail/io.hpp:56-60 | once a read has finished with EOF on a side that did not close, its finished reads hold everything the other side's successful writes were given, or will be in any continuation |
| `HostRuns.SawEofExactly` | libcurvecpr-asio/include/curvecp/detail/io.hpp:56-60 | in every run, on a side that did not close, a read operation has finished with EOF if and only if the EOF block was met |
| `HostRuns.PairInvAlways` | libcurvecpr-asio/include/curvecp/detail/io.hpp:47-70 | every run of submissions, dispatches, parkings, wakes and posts on both sides is a run of the two sessions, with each side's outstanding read being its one unfinished read operation |
| `HostRuns.ReadyIsEnabled` | libcurvecpr-asio/include/curvecp/detail/io.hpp:50-58 | in every such state the session can perform what the operations ask: a retried read fits its buffer, and a close can run the messager's calls |
| `HostWakeups.HostStepIsIo` | libcurvecpr-asio/include/curvecp/detail/io.hpp:47-70 | each step of both sides' operations and the network is, on one side, a step of the operations on that session, or changes nothing there |
| `HostWakeups.ParkedReadIsOwed` | libcurvecpr-asio/include/curvecp/detail/impl/session.ipp:212-267 | in every run of operations and network: while a read is parked on an open side before EOF and lacks accepted bytes, the next of them is in the other side's ring, head or a genuine block of `sendmarkq_` |
| `HostWakeups.ParkedWriteWaits` | libcurvecpr-asio/include/curvecp/detail/impl/session.ipp:283-349 | and a parked write is longer than the free space, so if it can ever fit, its side's send queue is not empty |
| `SweepFacts.ReadReports` | libcurvecpr-asio/include/curvecp/detail/impl/session.ipp:257-267 | a read into a non-empty buffer finishes exactly when the buffer is full or EOF is pending, with the bytes it then holds, and reports EOF exactly when EOF is pending; EOF is pending if it was before or the read met it |
| `SweepFacts.EmptyReadSucceeds` | libcurvecpr-asio/include/curvecp/detail/impl/session.ipp:203-206 | a read into an empty buffer succeeds, EOF or not, and only resets the read offset |
| `SweepFacts.InsertByRangeAt` | libcurvecpr-asio/include/curvecp/detail/impl/session.ipp:483 | a received block goes behind every entry that is not larger, equal ones included |
| `SweepFacts.SweepCopiesMaximalRun` | libcurvecpr-asio/include/curvecp/detail/impl/session.ipp:208-255 | for any sorted queue of overlapping, duplicate, gappy or empty blocks, one call copies exactly min(room, longest gap-free covered stretch) bytes |
| `SweepFacts.SweepCopiesStream` | libcurvecpr-asio/include/curvecp/detail/impl/session.ipp:217-231 | if the blocks agree with one stream, the bytes copied are that stream's from the read position on |
| `SweepFacts.SweepConserves` | libcurvecpr-asio/include/curvecp/detail/impl/session.ipp:240-250 | entries become distributed only when the reader has all their bytes, are erased only when also acknowledged, and every entry with bytes the reader lacks stays unchanged |
| `SweepFacts.SweepKeepsOrder` | libcurvecpr-asio/include/curvecp/detail/impl/session.ipp:247-250 | the in-loop erasure keeps the queue sorted and invents no block |
| `SweepFacts.SweepSeesEof` | libcurvecpr-asio/include/curvecp/detail/impl/session.ipp:233-238 | `read` meets an EOF mark if and only if the reader then has the whole stream and an EOF block is queued |
| `SweepFacts.SweepKeepsLag` | libcurvecpr-asio/include/curvecp/detail/impl/session.ipp:221-244 | a sweep keeps the contiguous count within one block that is still queued |
| `SweepFacts.SweepDrains` | libcurvecpr-asio/include/curvecp/detail/impl/session.ipp:212-267 | when `read` returns false, no queued block contains the next byte and no EOF block is due |
| `AckFacts.AckAndSweepCommute` | libcurvecpr-asio/include/curvecp/detail/impl/session.ipp:532-539 | as long as every DISTRIBUTED bit is true, acknowledgement and distribution commute on queue, bytes and EOF flag, for every sorted queue, overlapping blocks included, and all ranges and rooms |
| `AckFacts.AckFirstKeepsContiguous` | libcurvecpr-asio/include/curvecp/detail/impl/session.ipp:242-250 | the order shows in `their_contiguous_sent_bytes` exactly when that lags behind the read position and the acknowledgement erases every entry that the read would retire |
| `AckFacts.AckRangeConserves` | libcurvecpr-asio/include/curvecp/detail/impl/session.ipp:528-540 | after `remove_range` no entry is DONE, every entry stems from one before it, and every undistributed entry lives on |
| `AckFacts.EnumerationIsExact` | libcurvecpr-asio/include/curvecp/detail/impl/session.ipp:500-513 | the enumeration holds each unacknowledged entry once, at the number of unacknowledged entries before it, and nothing else |
| `AckFacts.EnumerationIsSorted` | libcurvecpr-asio/include/curvecp/detail/session.hpp:321-330 | the enumeration is in (offset, data_len) order |
| `AckFacts.ReadKeepsEnumeration` | libcurvecpr-asio/include/curvecp/detail/impl/session.ipp:240-250 | a read changes nothing of what is still to be acknowledged |
| `AckFacts.PutEnumerates` | libcurvecpr-asio/include/curvecp/detail/impl/session.ipp:473-483 | a stored block, at EOF or not, joins what is to be acknowledged |
| `AckFacts.AckRangeShrinksEnumeration` | libcurvecpr-asio/include/curvecp/detail/impl/session.ipp:528-540 | `remove_range` takes exactly the blocks inside the range out of the enumeration and keeps the order of the rest |
| `SenderFacts.WriteReports` | libcurvecpr-asio/include/curvecp/detail/impl/session.ipp:278-313 | a write retries, reports EOF or succeeds under exactly the stated conditions, and what it reports as transferred is what the ring gains at its end |
| `SenderFacts.HeadTakesOldest` | libcurvecpr-asio/include/curvecp/detail/impl/session.ipp:326-359 | a new head holds the oldest bytes, as many as there are up to the maximum, and the EOF mark exactly if nothing is left and EOF is pending; there is none exactly if there is neither |
| `SenderFacts.HeadIsStable` | libcurvecpr-asio/include/curvecp/detail/impl/session.ipp:321-324 | over every run without a move or `do_close`, a close included, every later head call with any maximum returns the block that was handed out first and changes nothing, and the move that follows queues exactly that block |
| `SenderFacts.EofIsFinal` | libcurvecpr-asio/include/curvecp/detail/impl/session.ipp:280-359 | once an EOF-marked head was built, over every run without `do_close` every later head is empty and EOF-marked and every non-empty write returns EOF |
| `SenderFacts.NonEmptyQueueYieldsBlock` | libcurvecpr-asio/include/curvecp/detail/impl/session.ipp:397-408 | in every reachable state, unless `handle_sendq_is_empty` holds, `handle_sendq_head` yields a block with a byte or an EOF mark; and it yields none only if the queue is empty |
| `SenderFacts.SendqEmptyExactly` | libcurvecpr-asio/include/curvecp/detail/impl/session.ipp:397-408 | in every reachable state the send queue is empty if and only if no head is to be had, or all that is to be had is an EOF block that was sent before |
| `SenderFacts.DrainCount` | libcurvecpr-asio/include/curvecp/detail/impl/session.ipp:326-389 | with EOF pending and room, the queue drains in exactly max(1, ceil(used/m)) blocks, whatever clocks they are stamped with, that spell out the ring, all but the last full and unmarked, the last EOF-marked, the ring then empty, and from then on the queue empty exactly for a messager that has sent EOF |
| `SenderFacts.ResortKeepsBlocks` | libcurvecpr-asio/include/curvecp/detail/impl/session.ipp:371-379 | the re-sort of a block keeps the blocks of `sendmarkq_` if and only if the lookup by clock fails or finds an entry with that very block |
| `SenderFacts.ResortExactly` | libcurvecpr-asio/include/curvecp/detail/impl/session.ipp:371-379 | what a re-sort leaves: the entries with the new clock, less the entry that the lookup found, plus the given block |
| `SenderFacts.InsertByClockAt` | libcurvecpr-asio/include/curvecp/detail/impl/session.ipp:386 | a moved block goes behind every entry whose clock is not larger, equal ones included |
| `SenderFacts.ResortSorts` | libcurvecpr-asio/include/curvecp/detail/impl/session.ipp:371-379 | when the lookup finds the block itself and the others are sorted, `sendmarkq_` is sorted again with only that clock changed |
| `SenderFacts.MarksStaySorted` | libcurvecpr-asio/include/curvecp/detail/session.hpp:311-333 | every operation keeps `sendmarkq_` sorted by clock, so its head was sent least recently |
| `SenderFacts.BlocksOfRemoveSent` | libcurvecpr-asio/include/curvecp/detail/impl/session.ipp:444-452 | `remove_range` drops all copies of exactly the blocks inside the range |
| `SenderFacts.BoundedAlways` | libcurvecpr-asio/include/curvecp/detail/impl/session.ipp:457-471 | over every run the ring, `sendmarkq_` and `recvmarkq_` stay within their maxima |
| `ClosingFacts.CloseValidAlways` | libcurvecpr-asio/include/curvecp/detail/impl/session.ipp:113-179 | in every reachable state `pending_close_` implies `pending_eof_` and `running_` |
| `ClosingFacts.CloseResult` | libcurvecpr-asio/include/curvecp/detail/impl/session.ipp:148-179 | `close` returns true exactly when the session is not running on exit, then leaves no read or write parked, and is a run of single operations |
| `ClosingFacts.ClosingAcceptsNothing` | libcurvecpr-asio/include/curvecp/detail/impl/session.ipp:280-282 | from the first close of a running session until `do_close`, over every run, nothing is accepted and every non-empty write returns EOF |
| `ClosingFacts.ClosingQueueNotEmpty` | libcurvecpr-asio/include/curvecp/detail/impl/session.ipp:401-407 | from the close of a running session until `do_close`, over every run, the send queue is not empty for a messager that has not sent EOF, and for one that has it is empty exactly when neither head nor bytes are left |
| `ClosingFacts.ProcessEnds` | libcurvecpr-asio/include/curvecp/detail/impl/session.ipp:98-102 | whoever closed: when both directions are final, processing the send queue stops the session, wakes every parked operation and calls the close handler once; otherwise it leaves all of that alone |
| `Witnesses.PassiveCloseIsReachable` | libcurvecpr-asio/include/curvecp/detail/impl/session.ipp:98-100 | a reachable session that was never closed locally, has met the EOF of its peer, and is ended by processing the send queue |
| `LifetimeFacts.NextLifetimeIsFresh` | libcurvecpr-asio/include/curvecp/detail/impl/session.ipp:113-146 | after `do_close`, whatever happened before, every run of operations gets the results, bytes, heads, moves, enumerations and queue-empty answers that a new session with the same maxima gives, and nobody is parked |
| `LifetimeFacts.AfterDoClose` | libcurvecpr-asio/include/curvecp/detail/impl/session.ipp:124-140 | after `do_close` there is no head, nothing queued on either side and the read position is 0; the buffer stays sized and the contiguous count stays |
| `ClosingFacts.OnlyDoCloseStops` | libcurvecpr-asio/include/curvecp/detail/impl/session.ipp:113-146 | a running session runs until `do_close`, and its close handler is not called before |
| `ClosingFacts.RetriedCloseCallsHandlerAgain` | libcurvecpr-asio/include/curvecp/detail/impl/session.ipp:142-157 | whatever a running session does before `do_close`, a close that is retried after it returns true and has called the close handler a second time |
| `Scheduling.HandlersOnce` | libcurvecpr-asio/include/curvecp/detail/io.hpp:47-70 | over every run a handler is called at most once, only for an operation that finished after running, and a finished operation never runs again and keeps its result |
| `ClosingFacts.CloseCallsCounted` | libcurvecpr-asio/include/curvecp/detail/impl/session.ipp:113-179 | over every run the close handler is called exactly once for each `do_close` and for each close of a session that is not running |
| `ClosingFacts.CloseHandlerOnce` | libcurvecpr-asio/include/curvecp/detail/impl/session.ipp:142-157 | from a running session through its `do_close` up to its next start, the handler is called once if and only if no close is called after `do_close` |
| `Scheduling.WokenCloseReportsAgain` | libcurvecpr-asio/include/curvecp/detail/io.hpp:50-58 | a run of operations in which a close is parked, woken by `do_close` and called again by the strand, and the handler has been called twice |
| `Scheduling.FinishesWithOutcome` | libcurvecpr-asio/include/curvecp/detail/io.hpp:56-60 | an operation finishes only in its own call on the strand, with the error code and count that the session operation returned there |
| `Scheduling.CloseFinishesWhenStopped` | libcurvecpr-asio/include/curvecp/detail/impl/session.ipp:148-179 | a close operation finishes, with success, if and only if the session is not running when it returns |
| `Scheduling.FinishedIsCalled` | libcurvecpr-asio/include/curvecp/detail/io.hpp:50-69 | a finished operation that is called again only has its handler called, on the strand or off it |
| `Scheduling.PostedExactly` | libcurvecpr-asio/include/curvecp/detail/io.hpp:53-65 | a step posts the handler of an operation if and only if it submits that operation on the strand and the operation finishes in that first call |
| `Scheduling.StartIsDropped` | libcurvecpr-asio/include/curvecp/detail/io.hpp:53-69 | a direct call off the strand whose handler is called by the strand's own call, not posted |
| `Scheduling.PostedOnlyAtOnce` | libcurvecpr-asio/include/curvecp/detail/io.hpp:53-65 | in every reachable state a posted handler belongs to an operation that was submitted on the strand and ran once, and an operation that was dispatched or parked has its handler called by the very step that finishes it |
| `Scheduling.NoLostWriteWakeup` | libcurvecpr-asio/include/curvecp/detail/impl/session.ipp:283-349 | in every reachable state a parked write is longer than the free space; so if it could ever fit, the send queue is not empty |
| `Scheduling.WakesExactly` | libcurvecpr-asio/include/curvecp/detail/impl/session.ipp:119-121 | exactly which operations wake readers, writers and closers; nothing else wakes anybody |
| `Scheduling.FreeingSpaceWakes` | libcurvecpr-asio/include/curvecp/detail/impl/session.ipp:348-349 | any step that shrinks the ring, a close that runs the messager's calls included, wakes every parked write |
| `Scheduling.NoLostReadWakeup` | libcurvecpr-asio/include/curvecp/detail/impl/session.ipp:212-267 | in every reachable state before EOF, while a read is parked, no queued block contains the next byte and no queued EOF block is due |
| `Scheduling.OnlyArrivalFeedsReads` | libcurvecpr-asio/include/curvecp/detail/impl/session.ipp:483-486 | before EOF, of all steps, those through `io_op` included, only a put can give a parked read something to do, and it wakes every parked read |
| `Scheduling.RetriedReadFits` | libcurvecpr-asio/include/curvecp/detail/io.hpp:50-58 | the read offset always fits the buffer of the outstanding read, and is 0 when there is none |
| `Scheduling.IoInvAlways` | libcurvecpr-asio/include/curvecp/detail/io.hpp:47-70 | over every run of submissions, dispatches, parkings, wakes and posts, each unfinished operation waits in exactly the place its kind calls for, and parked operations could make no progress |
| `SessionModel.CursorsCongruent` | libcurvecpr-asio/include/curvecp/detail/impl/session.ipp:292-307 | `pending_current_ + pending_used_` is congruent to `pending_next_` modulo the capacity, cursors equal to the capacity included |
| `SessionModel.WindowAppend` | libcurvecpr-asio/include/curvecp/detail/impl/session.ipp:292-305 | both branches of a write append its bytes to the ring's contents and touch no live byte |
| `SessionModel.WindowTake` | libcurvecpr-asio/include/curvecp/detail/impl/session.ipp:341-346 | building a head in one piece takes the oldest bytes in order and leaves the rest |
| `SessionModel.WindowTakeWrapped` | libcurvecpr-asio/include/curvecp/detail/impl/session.ipp:333-340 | and so does building it in two pieces, the second from the beginning of the buffer |
| `SessionModel.Session.Write` | libcurvecpr-asio/include/curvecp/detail/impl/session.ipp:270-314 | refines a FIFO with a capacity check: accepts all bytes, none with EOF, or asks to retry |
| `SessionModel.Session.Append` | libcurvecpr-asio/include/curvecp/detail/impl/session.ipp:287-307 | after sizing the buffer on first use, the ring's contents grow by exactly the data |
| `SessionModel.Session.HandleSendqHead` | libcurvecpr-asio/include/curvecp/detail/impl/session.ipp:316-363 | the existing head, or a new one of the oldest bytes, EOF-marked iff nothing remains and EOF is pending; wakes parked writes when it took from the buffer |
| `SessionModel.Session.HandleSendqIsEmpty` | libcurvecpr-asio/include/curvecp/detail/impl/session.ipp:397-408 | no head, no used bytes, and no EOF still to send |
| `SessionModel.Session.HandleSendqMoveHead` | libcurvecpr-asio/include/curvecp/detail/impl/session.ipp:381-394 | moves the head into its place by clock, or fails and changes nothing when `sendmarkq_` is full |
| `SessionModel.Session.HandleSendqResort` | libcurvecpr-asio/include/curvecp/detail/impl/session.ipp:371-379 | erases the entry the lookup found and inserts the given block, whichever entry that was |
| `SessionModel.Session.HandleSendmarkqHead` | libcurvecpr-asio/include/curvecp/detail/impl/session.ipp:410-420 | a block of `sendmarkq_` that, when this is sorted, was sent least recently; none if and only if it is empty |
| `SessionModel.Session.HandleSendmarkqRemoveRange` | libcurvecpr-asio/include/curvecp/detail/impl/session.ipp:438-455 | the erasing loop computes the filter by range |
| `SessionModel.Session.HandleRecvmarkqPut` | libcurvecpr-asio/include/curvecp/detail/impl/session.ipp:463-492 | ordered insertion of a fresh entry, distributed iff EOF is pending, or failure when full; wakes parked reads unless EOF is pending |
| `SessionModel.Session.HandleRecvmarkqGetNthUnacknowledged` | libcurvecpr-asio/include/curvecp/detail/impl/session.ipp:494-514 | the n-th block of the enumeration, and failure for every larger n |
| `SessionModel.Session.HandleRecvmarkqRemoveRange` | libcurvecpr-asio/include/curvecp/detail/impl/session.ipp:522-543 | the loop that sets bits in place and erases while iterating computes the acknowledgement of each entry |
| `SessionModel.Session.Read` | libcurvecpr-asio/include/curvecp/detail/impl/session.ipp:196-268 | the new state, outcome and copied bytes; the buffer changes only from the read offset on, by exactly the copied bytes |
| `SessionModel.Session.SweepAll` | libcurvecpr-asio/include/curvecp/detail/impl/session.ipp:208-255 | the loop with its breaks and in-loop erasure computes the sweep function on queue, buffer, positions, EOF flag and contiguous count |
| `SessionModel.Session.Close` | libcurvecpr-asio/include/curvecp/detail/impl/session.ipp:148-179 | the three exits of `close`, with the close handler's call, around whatever the messager does while the send queue is processed |
| `SessionModel.Session.HandleProcessSendQueue` | libcurvecpr-asio/include/curvecp/detail/impl/session.ipp:93-103 | nothing on error; else the messager's calls, then `do_close` when both directions are final |
| `SessionModel.Session.DoClose` | libcurvecpr-asio/include/curvecp/detail/impl/session.ipp:113-146 | nothing on error; else clears both halves and the flags, calls the close handler and wakes every parked operation |
| `SessionModel.Session.AsyncPendingWait` | libcurvecpr-asio/include/curvecp/detail/impl/session.ipp:76-85 | exactly the timer of the wanted kind gains the operation, the other timers, the strand and the rest of the session stay |
| `IoModel.IoOp.Invoke` | libcurvecpr-asio/include/curvecp/detail/io.hpp:47-70 | `operator()` on its own fields, the session and the caller's buffer: dispatched, parked, posted, or handler called |
| `IoModel.IoOp.Run` | libcurvecpr-asio/include/curvecp/detail/read_op.hpp:40-49 | the read, write or close operation on the session object; a read leaves the copied bytes in the caller's buffer from the read offset on, the others leave it alone |

## Left out

- Liveness: no statement that a parked or unsent operation eventually completes; `Transfers.TransferCanComplete` and `Completion.CompletesUnlessJammed` only show that runs which complete exist.
- `Completion.CompletesUnlessJammed`: makes no claim about a receiver that has closed locally, nor about a `sendmarkq_` of maximum 0.
- `EndToEnd.MarksLeaveOnlyWhenAcked`: assumes, as all network runs do, that the lookup of a re-sorted block finds that block; what happens otherwise is `SenderFacts.ResortKeepsBlocks`.
- `SenderFacts.MarksStaySorted`: makes the same assumption.
- `SessionModel.Session.HandleSendqResort`: `sendmarkq_` holds values, so that after a lookup which finds another entry the same block object is queued twice (and later freed twice) is not expressed; the network runs assume that the lookup finds the block itself.
- `SessionModel.Session.HandleSendqMoveHead`: the move callback with the head's address while no head exists is not modelled; the messager passes the head only after it was given it.
- `ErasureFacts.NoLoss`: says nothing about a zero-length EOF block, which a range ending at its offset removes, nor about a side whose `do_close` has run.
- `SessionModel.Session.DoClose`: the deletion of queue entries and the cancelling of the close and send-queue timers are not modelled; close_handler_ is taken to be set.
- `SessionModel.Session.Close`: the close timer that it starts is not modelled; `do_close` may happen at any time.
- `SessionModel.Session.HandleProcessSendQueue`: the rescheduling at its end is not modelled; the messager may call at any time.
- `CutFacts.AckAndReadContiguous`: makes no claim about `their_contiguous_sent_bytes` after a local close.
- `HostRuns.EofMeansAll`: makes no claim about a side that has closed locally, whose reads report EOF early.
- `Scheduling.NoLostReadWakeup`: makes no claim once `pending_eof_` is set; a local close does not wake a parked read.
- `SessionModel.Session.AsyncPendingWait`: timers are sets of waiting operations; that the ready timers never expire by themselves is taken from their infinite expiry.
- `handle_sendmarkq_get`: block identifiers belong to the messager.
- `handle_sendmarkq_is_full`, `handle_recvmarkq_is_empty` and the setters: one-line tests and assignments; the first is part of the move.
- The send-queue and close timers as real time, the strand as threads, `lower_receive` and `handle_send`: one session step at a time.
- Several outstanding reads, and network runs in which a session that has ended is started again on a later datagram; `LifetimeFacts.NextLifetimeIsFresh` covers the session itself.
- `acceptor`, `client_stream`, `server_stream`, the public wrappers, keys, nonces and packets.
- The internals of libcurvecpr, whose messager appears only through the assumptions above.
