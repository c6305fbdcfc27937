# RMI active-message transport: a Dafny model

This project models the core of MADNESS's active-message transport, class
`RMI` in `src/lib/world/worldrmi.cc`, and proves properties of the model.
The transport has three parts.

- **The receiving sequencer** of the server loop (`run`). Each completed
  receive is counted and its header decoded. It is handed to its handler at
  once when it is unordered or when its 16-bit count (`attr >> 16`) is the
  one due from its source (`recv_counters[src]`). Otherwise it is parked in
  the out-of-order queue `q`. After each batch the queue is sorted and one
  compaction pass delivers each entry whose count is due when the pass
  reaches it. The entries left are moved to the front of the queue.
- **The send path** (`private_isend`). A message too short to hold the
  header is rejected. An ordered message is stamped with the destination's
  send counter, which then advances modulo 2^16. The statistics are
  updated. A message longer than an ordinary receive buffer goes through
  the huge-message protocol: an unordered announcement to the receiver's
  `huge_msg_handler`, a wait for the acknowledgement, then the data under
  the huge-data tag.
- **The receive slots and the huge-message backlog** (`post_recv_buf`,
  `post_pending_huge_msg`, `huge_msg_handler`). There are `nrecv_`
  ordinary slots and one reserved slot. The reserved slot stages at most one
  huge message. The announced messages wait in the FIFO `hugeq` and are
  acknowledged one at a time, oldest first.

The constructor's configuration is modelled too: the receive-buffer size
(default, clamp, round-up to the alignment), the number of buffers
(clamp, `maxq_ = nrecv_ + 1`), the zeroed counters and the posting of the
ordinary receives.

## Structure

- `wire.dfy` (module `Wire`): the constants of class `RMI`, the `size_t`,
  `attrT` and `unsigned short` ranges, the attribute word and its stamp,
  the announcement payload, and the events handed to the network.
- `config.dfy` (module `Config`): the constructor's normalisation of the
  buffer size and of the buffer count.
- `sequencer.dfy` (module `Sequencer`): queue entries, the sort orders, the
  compaction pass `Drain` as a function, and its properties. It also holds
  both halves of the finding below.
- `pool.dfy` (module `Pool`): the receive slots and the backlog as a value
  `Pool`, with `post_recv_buf`, `post_pending_huge_msg` and the handler's
  effect as functions on it.
- `logs.dfy` (module `Logs`): the ordering guarantees, stated on the handler
  log of the receiving side and the send log of the sending side.
- `queue.dfy` (module `Queue`): the invariant tying the queue to the slots
  (each parked entry holds its own slot), and the value-level steps of the
  sort and of the compaction pass.
- `rmi.dfy` (module `Rmi`): the receiving side as a value `RecvState`
  (counters, queue, slots, handler log), one arrival `ArriveStep` and a
  batch of arrivals `ArriveFrom` on it, the compaction pass `Drained` on
  it, and class `RMI`. The class's arrays (`sendCounters`, `recvCounters`,
  `q`, `recvReq`) and fields (`nInQ`, `hugeq`, `hugeSlot`, `stats`) are
  updated in place by the methods, and `RState()` reads the receiving side
  off them. Each method is proved against the functions of the other
  modules. `Valid()` is:
  - the slot invariant;
  - the queue invariant;
  - "every source's ordered messages reached their handlers as 0, 1, 2, ...";
  - "every destination's ordered sends were stamped 0, 1, 2, ...".

  The constructor establishes `Valid()`. `Arrive`, `DeliverArrival`,
  `ParkArrival`, `ArriveAll`, `SortQueue`, `DrainQueue`, `SortAndDrain`,
  `ServeBacklog`, `ProcessBatch`, `Record`, `SendMsg`, `Announce`,
  `SendHuge` and `Isend` require it and keep it. The inner steps
  `PostOrdinaryRecvs`, `PostPendingHuge`, `PostRecvBuf`, `HandleHugeMsg`,
  `InsertAt`, `SwapDown`, `DrainLoop`, `Visit` and `DeliverQueued` run while
  it is temporarily broken. They are specified by what they do to the
  fields, and the methods that call them restore it. `FinishDrain`, the
  last step of the pass, starts from the pass's own invariant and
  re-establishes `Valid()`.

The network is abstracted. A batch of completed receives is a parameter of
`ProcessBatch`. Handler calls are appended to the ghost log `delivered`.
Sends and the steps of the huge protocol are appended to the ghost log
`outbox`. Acknowledgements of huge messages are appended to the ghost log
`acks`.

## Model

| member | source | states |
|---|---|---|
| Wire.StampAttr | src/lib/world/worldrmi.cc:379-382 | `attr` OR `(count << 16)` keeps the low 16 bits of `attr` and hence `is_ordered`; when the caller's `attr` has no bits at 16 and up, `attr >> 16` on the stamped word gives `count` back |
| Wire.IsOrdered | src/lib/world/worldrmi.cc:50-52 | `is_ordered`: the parity test agrees with `attr & ATTR_ORDERED` on the 32-bit word, `ATTR_ORDERED` being bit 0 |
| Wire.CountOf | src/lib/world/worldrmi.cc:105 | `attr >> 16`: the count `c` is the one with `c * 2^16 <= attr < (c + 1) * 2^16`, and it fits an `unsigned short` |
| Rmi.DeliverNow | src/lib/world/worldrmi.cc:105-107 | the arrival test: an unordered message is always delivered at once; an ordered one exactly when the high half of its attribute word is the source's counter `c`, i.e. `c * 2^16 <= attr < (c + 1) * 2^16` |
| Rmi.StampedDeliverable | src/lib/world/worldrmi.cc:105-107 | the arrival test on a word the sender stamped with `c`: it is delivered at once exactly when it is unordered or the receiver's counter for its source is `c` |
| Rmi.Stamped | src/lib/world/worldrmi.cc:379-382 | the attribute word of a send: `is_ordered` (bit `ATTR_ORDERED`) is unchanged; an ordered word whose caller's value is below 2^16 decodes to the stamp; an unordered word is left as is |
| Wire.Inc | src/lib/world/worldrmi.cc:381 | `++` on an `unsigned short` counter is `+1` modulo 2^16 |
| Wire.AnnounceInfo | src/lib/world/worldrmi.cc:342-345 | the announcement payload has `nword+2` words, `sizeof(info)` bytes, and holds `rank` at word `nword` and `nbyte` at word `nword+1` |
| Wire.AnnounceRoundTrip | src/lib/world/worldrmi.cc:326-330 | `huge_msg_handler` reads back exactly the `rank` and `nbyte` the sender wrote into the announcement |
| Wire.AnnounceIsOrdinary | src/lib/world/worldrmi.cc:349 | the announcement is at least `HEADER_LEN` bytes and fits any normalised ordinary buffer, so the recursive `private_isend` takes the ordinary path |
| Config.AlignUp | src/lib/world/worldrmi.cc:269-272 | the round-up is a multiple of `ALIGNMENT`, at least its input and less than input + `ALIGNMENT`, and leaves an aligned input alone |
| Config.MaxMsgLen | src/lib/world/worldrmi.cc:240-273 | `max_msg_len_` is the default when the variable is unset or below 1024, otherwise the value rounded up; it is always aligned and at least 1024 |
| Config.RecvBuffers | src/lib/world/worldrmi.cc:275-288 | `nrecv_` is at least `DEFAULT_NRECV`; it is the value read when that is at least the default, and the default otherwise |
| Rmi.RMI.constructor | src/lib/world/worldrmi.cc:226-305 | the configuration as above, `maxq_ == nrecv_ + 1`, all send and receive counters 0, the ordinary slots posted exactly when `nproc > 1`, the reserved slot empty, the backlog and queue empty, `Valid()` |
| Rmi.RMI.PostOrdinaryRecvs | src/lib/world/worldrmi.cc:299-304 | after the loop every ordinary slot has a receive posted and nothing else has changed |
| Pool.StageNext | src/lib/world/worldrmi.cc:184-200 | `post_pending_huge_msg` does nothing when the reserved slot is occupied or the backlog is empty; otherwise it stages the front request, posts the reserved slot and acknowledges that request's source; the pending requests are unchanged in order |
| Pool.StageNextKeepsPoolOk | src/lib/world/worldrmi.cc:184-200 | after servicing the backlog, a free reserved slot means an empty backlog |
| Pool.StageNextIdle | src/lib/world/worldrmi.cc:179 | once the slot invariant holds, the call at the end of a batch changes nothing |
| Rmi.RMI.PostPendingHuge | src/lib/world/worldrmi.cc:184-200 | the method's new slots and backlog are `StageNext` of the old, and nothing else changes |
| Pool.PostRecv | src/lib/world/worldrmi.cc:202-214 | for `i < nrecv_`: only slot `i` is reposted; for `i == nrecv_`: the huge buffer is released, the oldest waiting request (if any) takes its place, and the invariant is restored; for `i > nrecv_`: nothing changes |
| Rmi.RMI.PostRecvBuf | src/lib/world/worldrmi.cc:202-214 | the method's new slots are `PostRecv` of the old; the error result is exactly `i > nrecv_` |
| Pool.PostAllReposts | src/lib/world/worldrmi.cc:145-177 | reposting the distinct, unposted slots of the delivered queue entries posts each of them, leaves every other slot as it was and keeps the slot invariant |
| Pool.HugeArrived | src/lib/world/worldrmi.cc:326-334 | `huge_msg_handler` appends the request to the back of the pending ones; afterwards a request is staged and the invariant holds; a busy reserved slot is left alone |
| Rmi.RMI.HandleHugeMsg | src/lib/world/worldrmi.cc:326-334 | the method's new slots and backlog are `HugeArrived` of the old, with the request read from the buffer |
| Wire.HugeInfo | src/lib/world/worldrmi.cc:327-330 | `huge_msg_handler` reads the source and the size from the two words after the header; on an announcement they are the rank and size the sender wrote |
| Pool.BacklogServedInOrder | src/lib/world/worldrmi.cc:184-214 | two announcements that find the reserved slot busy are staged and acknowledged in arrival order as the slot is released twice |
| Queue.RunHandler | src/lib/world/worldrmi.cc:119 | a handler call (here and at line 162) leaves the slots alone unless the handler is the transport's own huge-message handler, which queues the announced request |
| Queue.QueueHasRoom | src/lib/world/worldrmi.cc:132-134 | the queue holds fewer entries than `maxq_` whenever a message is about to be parked, so the overflow error cannot happen |
| Queue.ParkKeeps | src/lib/world/worldrmi.cc:125-136 | parking keeps the slot and queue invariants and there is room for the entry |
| Queue.DeliverKeeps | src/lib/world/worldrmi.cc:107-124 | delivering on arrival (complete, call the handler, repost) keeps the invariants and removes no other outstanding receive |
| Rmi.ArriveStep | src/lib/world/worldrmi.cc:99-136 | one arrival on values: delivered (handler log +1, slot completed, handler run, slot reposted) iff unordered or its count equals `recv_counters[src]`, the counter advancing only for an ordered delivery; otherwise appended to the queue with its slot held, counters and log unchanged; the invariants are kept and no other outstanding receive is lost |
| Rmi.ArriveStepAccounts | src/lib/world/worldrmi.cc:107-136 | one arrival adds exactly one entry, to the handler log or to the queue, and an unordered one always to the handler log |
| Rmi.ArriveFrom | src/lib/world/worldrmi.cc:94-137 | the arrival loop over a batch on values, as a fold of `ArriveStep`; it keeps the invariants |
| Rmi.ArriveFromAccounts | src/lib/world/worldrmi.cc:94-137 | over a batch the log and the queue only grow, by one entry per arrival in all; every arrival is in the new part of the log or of the queue, and every unordered one in the log |
| Rmi.RMI.Arrive | src/lib/world/worldrmi.cc:94-136 | one arrival: `nmsg_recv` +1 and `nbyte_recv` +len; the new receiving side is `ArriveStep` of the old; `Valid()` kept |
| Rmi.AsEntry | src/lib/world/worldrmi.cc:135 | the queue entry `qmsg(len, func, i, src, attr, count)` of a parked arrival: delivering it later makes the same handler call as delivering the arrival at once |
| Rmi.ParkedTestAgrees | src/lib/world/worldrmi.cc:105-107 | for an ordered message, the pass's test `q[m].count == recv_counters[src]` (line 151) on its queue entry is the arrival test of line 107 |
| Rmi.RMI.DeliverArrival | src/lib/world/worldrmi.cc:107-124 | the immediate branch: the handler log gains the message, the source's counter advances iff ordered, the slot is reposted |
| Rmi.RMI.ParkArrival | src/lib/world/worldrmi.cc:125-136 | the deferred branch: `q[n_in_q++]` is the new entry with `count = attr >> 16`; the overflow branch is unreachable |
| Rmi.RMI.ArriveAll | src/lib/world/worldrmi.cc:94-137 | the arrival loop over a batch adds the batch size to `nmsg_recv` and the total length to `nbyte_recv`; the new receiving side is `ArriveFrom` of the old; `Valid()` kept |
| Sequencer.SortedByMeans | src/lib/world/worldrmi.cc:142-143 | sorted by key under `ByCount` is sorted by ascending count, the comparator of the source; under `ByDistance` it is sorted by distance from the counters |
| Sequencer.SortOrdersInterleaveDifferently | src/lib/world/worldrmi.cc:143-162 | with counters 6 and 101 and counts 6, 7 (source 0) and 101 (source 1) queued, sorted by count the pass calls the handlers as 6, 7, 101; sorted by distance as 6, 101, 7 |
| Rmi.RMI.SortQueue | src/lib/world/worldrmi.cc:141-143 | the sort leaves a permutation of the queue, ascending by count (`ByCount`, as written) or by distance of each count from its source's counter (`ByDistance`) |
| Rmi.RMI.InsertAt | src/lib/world/worldrmi.cc:143 | one round of the sort extends the sorted prefix by one and keeps the entries and their invariant |
| Queue.InsertingStep | src/lib/world/worldrmi.cc:143 | moving the entry of a round one place down keeps the round's partial order, the queue invariant and the contents |
| Rmi.RMI.SwapDown | src/lib/world/worldrmi.cc:143 | the exchange of two neighbours in the queue array |
| Queue.SwapKeeps | src/lib/world/worldrmi.cc:143 | exchanging two neighbours keeps the contents and the queue invariant |
| Sequencer.Drain | src/lib/world/worldrmi.cc:145-177 | the pass as a function: the entries kept and delivered number as many as the queue, the counters keep their number, and sources stay in range (that they are the queue's own entries is `DrainPartitions`) |
| Sequencer.DrainPartitions | src/lib/world/worldrmi.cc:145-177 | the kept and delivered entries together are exactly the queue's entries (as multisets) |
| Sequencer.DrainKeepsOrder | src/lib/world/worldrmi.cc:145-177 | the kept entries and the delivered entries each keep their relative order in the queue |
| Sequencer.DrainKeepsCountOrder | src/lib/world/worldrmi.cc:141-177 | a queue sorted by count is still sorted by count after the pass |
| Sequencer.DrainDeliversRuns | src/lib/world/worldrmi.cc:149-160 | every source's delivered entries carry `rc[s], rc[s]+1, ...` in order, and its counter has advanced once per delivery |
| Sequencer.DrainCountersOnlyAdvance | src/lib/world/worldrmi.cc:149-160 | the counter of a source with no delivery is unchanged |
| Queue.DrainKeepsInvariants | src/lib/world/worldrmi.cc:145-177 | the pass keeps the slot and queue invariants once the slots of the delivered entries are reposted, and it keeps every source's handler calls in order |
| Rmi.RMI.DrainQueue | src/lib/world/worldrmi.cc:145-177 | the in-place pass over `q`: the new `q[..n_in_q]` is the kept entries, the counters and the handler log are those of `Drain`, the delivered slots are reposted, and `Valid()` is kept |
| Rmi.RMI.DrainLoop | src/lib/world/worldrmi.cc:148-176 | the loop over `m` visits every queued entry, with the kept ones at `q[..nleftover]` |
| Rmi.RMI.Visit | src/lib/world/worldrmi.cc:150-175 | one iteration: deliver `q[m]` when its count is due, else copy it to `q[nleftover++]` |
| Rmi.RMI.DeliverQueued | src/lib/world/worldrmi.cc:161-163 | the delivery from the queue advances the counter, calls the handler and reposts the slot |
| Rmi.RMI.FinishDrain | src/lib/world/worldrmi.cc:177 | `n_in_q = nleftover` leaves the queue as the kept entries, with `Valid()` and the result of `Drain` |
| Rmi.Drained | src/lib/world/worldrmi.cc:145-177 | the pass on values over the sorted queue: counters, kept entries and handler log of `Drain`, the delivered slots reposted; the invariants are kept |
| Rmi.RMI.SortAndDrain | src/lib/world/worldrmi.cc:141-177 | the sort and the pass: the queue the pass sees is a sorted permutation of the old one, the new receiving side is `Drained` of it; nothing deliverable is left with `ByDistance` (for `maxq_ < 2^16`), and with `ByCount` when no queued count is `0xFFFF` |
| Rmi.RMI.ServeBacklog | src/lib/world/worldrmi.cc:179 | the `post_pending_huge_msg` at the end of a batch changes nothing once `Valid()` holds |
| Rmi.RMI.ProcessBatch | src/lib/world/worldrmi.cc:93-180 | one batch: the statistics count it; the new receiving side is `ArriveFrom` over the batch followed by `Drained` of the sorted queue; `Valid()` is kept; nothing deliverable is left under the conditions of `SortAndDrain` |
| Sequencer.CountSortOnePassWithoutWrap | src/lib/world/worldrmi.cc:141-177 | as written (ascending count), one pass leaves nothing deliverable provided no queued count is `0xFFFF` |
| Sequencer.WrapLeavesDeliverableEntry | src/lib/world/worldrmi.cc:141-177 | as written, at the 2^16 wrap the pass leaves a deliverable entry in the queue (counter `0xFFFF`, entries with counts 0 and `0xFFFF` from that source) |
| Sequencer.DistanceSortOnePass | src/lib/world/worldrmi.cc:141-177 | corrected: after sorting by distance from the counters, one pass leaves nothing deliverable, wrap or no wrap, for fewer than 2^16 entries |
| Logs.InOrderStep | src/lib/world/worldrmi.cc:107-118 | a handler call keeps the receiving side in order when an ordered message carries the count due and advances that counter |
| Logs.SentInOrderStep | src/lib/world/worldrmi.cc:379-391 | a send keeps the sending side in order when an ordered send is stamped with its destination's counter and advances it |
| Logs.StampsMatchDeliveries | src/lib/world/worldrmi.cc:105-118 | both sides number the ordered messages of a pair of processes 0, 1, 2, ... modulo 2^16, so the k-th stamp in a send log and the k-th count in a handler log are equal |
| Rmi.RMI.SendMsg | src/lib/world/worldrmi.cc:374-391 | the ordinary send: the stamp is the pre-increment `send_counters[dest]`, which advances modulo 2^16 iff ordered; the header holds `func` and the stamped `attr`; `nmsg_sent` +1, `nbyte_sent` +nbyte |
| Rmi.RMI.Announce | src/lib/world/worldrmi.cc:342-352 | the acknowledgement receive is posted, then the announcement (`HEADER_WORDS + 2` words, the last two carrying the rank and the size; `ATTR_UNORDERED`; huge-message handler) is sent and awaited; the send counters are unchanged |
| Rmi.RMI.SendHuge | src/lib/world/worldrmi.cc:339-357 | the huge path: announcement, wait for the acknowledgement, then the data under the huge-data tag, stamped as an ordinary send |
| Rmi.RMI.Isend | src/lib/world/worldrmi.cc:336-397 | `private_isend`: rejects `nbyte < HEADER_LEN` (nothing changes); the huge tag for `nbyte > max_msg_len_` and the ordinary tag otherwise; the header, counter and statistics updates; nothing else changes |

## Left out

- MPI (`Irecv`, `Isend`, `Send`/`Bsend`, `Testsome`, `Request::Test`) is abstracted. Completed receives are the `Arrival`s passed to `ProcessBatch`. Sends and the huge-protocol steps go to the ghost log `outbox`. Acknowledgements go to the ghost log `acks`.
- The server thread, the `finished` flag, `MutexWaiter`, `myusleep`, `set_affinity`, TBB task setup and `lock`/`unlock` are concurrency. The model is sequential, so stamping is atomic by construction.
- The blocking waits of the huge protocol (lines 351-354) are recorded as the events `AnnounceDone` and `AckArrived`, not as waiting.
- The `getenv`/`stringstream` parsing and the `double` unit multipliers are left out. `Config.MaxMsgLen` takes the byte count after conversion and `Config.RecvBuffers` the integer read. A variable that fails to parse yields 0, which is modelled as that value.
- Config.AlignUp: does not model the `size_t` wrap of the round-up for sizes within 63 of 2^64, because such a buffer could never be allocated.
- `posix_memalign` and the buffers' contents are left out. A slot is a flag saying whether it has a receive posted, and the reserved slot holds the staged request.
- The `debugging` trace output, the `instance()` singleton, `private_exit`, `begin`/`end`, `set_debug`/`get_debug` and `get_stats` are plumbing.
- Stats: the counters are unbounded naturals, not the widths `RMIStats` declares.
- The constants `ALIGNMENT = 64`, `HEADER_LEN = ALIGNMENT`, `ATTR_ORDERED = 1`, `DEFAULT_NRECV = 128` and `DEFAULT_MAX_MSG_LEN = 3*512*1024`, and the queue comparator (ascending count), come from `worldrmi.h`, which is not part of this model. They are assumptions. Two of them have support in the `.cc` file: `DEFAULT_MAX_MSG_LEN` in the comment at line 265, the comparator in the comment at line 142. `Wire.IsOrdered` as a parity test needs `ATTR_ORDERED = 1`. `Wire.AnnounceIsOrdinary` needs `HEADER_LEN + 16 <= 1024`. `Config.AlignUp` and `Config.MaxMsgLen` use `ALIGNMENT`. `Config.RecvBuffers` uses `DEFAULT_NRECV`.
- `src/lib/mra/funcimpl.h` and `src/madness/constants.h` are not part of this model: they hold numerics and floating-point constants unrelated to the transport.
- Rmi.RMI.SortQueue: `std::sort` is modelled as an in-place insertion sort, which is stable where `std::sort` need not be. Sorting `ByCount` is the code as written. Sorting `ByDistance` is the correction of the finding below. The correction also changes the order of handler calls across sources, not only at the wrap: `Sequencer.SortOrdersInterleaveDifferently` shows counts 6, 7 from source 0 and 101 from source 1 (counters 6 and 101) handled as 6, 7, 101 by count and as 6, 101, 7 by distance.
- Rmi.RMI.ProcessBatch: requires what `Testsome` guarantees of a batch: distinct slots, each with a receive outstanding, from a process below `nproc`. It also requires that an announcement arrives unordered with its two words, which the send path guarantees. Its "nothing deliverable left" guarantee needs `maxq_ < 2^16` with `ByDistance`, and with `ByCount` it needs that no queued count is `0xFFFF` (the finding below).
- Queue.RunHandler: user handlers (`func(recv_buf[i], len)` at lines 119 and 162) are opaque and are modelled as having no effect on the transport. A handler may call `isend`, which would change the send counters, the statistics and the network. That is not modelled.
- Logs.StampsMatchDeliveries: relates a send log and a handler log only through the numbering 0, 1, 2, ... that each side keeps. No model of the network connects the messages one process sends to those another receives.
- Rmi.RMI.HandleHugeMsg: requires the buffer to hold the two words after the header. The source reads them without checking the length it is given.
- Rmi.RMI.Isend: requires `dest < nproc`. The source leaves an out-of-range destination to MPI.
- Rmi.RMI.constructor: requires `nproc < 2^31`, the range of the `int` MPI returns. When `nproc == 1` the source leaves `recv_buf[nrecv_]` uninitialised. The model starts it empty, as in the `nproc > 1` case.
- Rmi.RMI.Announce: the announcement's recursive `private_isend` is modelled as the ordinary send it reduces to (`Wire.AnnounceIsOrdinary`).

## Findings

| source | as written | input that shows it | evidently intended | confidence | as-written member | corrected member |
|---|---|---|---|---|---|---|
| src/lib/world/worldrmi.cc:141-177 | the queue is sorted by ascending raw count and then drained in one pass | source 0 with `recv_counters[0] = 0xFFFF` and queued entries with counts 0 and `0xFFFF`: 0 sorts first and is kept, `0xFFFF` is delivered and the counter wraps to 0, and the entry with count 0 is left deliverable in the queue until some later arrival | one pass leaves nothing deliverable (the comment at lines 145-147), which holds when the sort is by count minus the source's counter modulo 2^16 | not executed | Sequencer.WrapLeavesDeliverableEntry | Sequencer.DistanceSortOnePass |
