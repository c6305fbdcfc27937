/** The RMI transport object: its counters, the out-of-order queue of the
    server loop, the receive slots and the huge-message backlog, updated in
    place by the server loop, the send path and the huge-message handler.
    The network is abstracted: completed receives are given to `Arrive` and
    `ProcessBatch`, handler calls go to the log `delivered`, sends to the
    log `outbox` and acknowledgements of huge messages to `acks`. */
module Rmi {
  import opened Wire
  import opened Config
  import opened Sequencer
  import opened Pool
  import opened Queue
  import opened Logs

  /** The statistics of `RMIStats`. */
  datatype Stats = Stats(nmsgSent: nat, nbyteSent: nat, nmsgRecv: nat, nbyteRecv: nat)

  /** A completed receive, as `Testsome` reports it: the slot whose receive
      completed, the source and byte count from its status, and the header
      and the words of the buffer in that slot. */
  datatype Arrival = Arrival(slot: nat, src: nat, len: nat, hdr: Header, words: seq<SizeT>)

  /** Whether a message with attribute word `attr` is delivered on arrival
      when its source's receive counter is `c`: always when it is unordered,
      and when it is ordered exactly when the high half of `attr` is `c`. */
  predicate DeliverNow(attr: Attr, c: Count): (r: bool)
    ensures !IsOrdered(attr) ==> r
    ensures IsOrdered(attr) ==> (r <==> c * 0x1_0000 <= attr < (c + 1) * 0x1_0000)
  {
    !IsOrdered(attr) || CountOf(attr) == c
  }

  /** The attribute word an ordered send carries: the caller's, stamped with
      the send counter `c`; an unordered send carries the caller's as is. */
  function Stamped(attr: Attr, c: Count): (r: Attr)
    ensures IsOrdered(r) == IsOrdered(attr)
    ensures IsOrdered(attr) && attr < 0x1_0000 ==> CountOf(r) == c
    ensures !IsOrdered(attr) ==> r == attr
  {
    if IsOrdered(attr) then StampAttr(attr, c) else attr
  }

  function StampOf(attr: Attr, c: Count): Option<Count> {
    if IsOrdered(attr) then Some(c) else None
  }

  /** The receiving side's test on a stamped word: a message the sender
      stamped with count `c` is delivered on arrival exactly when it is
      unordered or the receiver's counter for its source is `c`. */
  lemma StampedDeliverable(attr: Attr, c: Count, rc: Count)
    requires attr < 0x1_0000
    ensures DeliverNow(Stamped(attr, c), rc) <==> (!IsOrdered(attr) || rc == c)
  {
  }

  function TotalLen(batch: seq<Arrival>): nat
    decreases |batch|
  {
    if batch == [] then 0 else TotalLen(batch[..|batch| - 1]) + batch[|batch| - 1].len
  }

  lemma TotalLenSnoc(batch: seq<Arrival>, a: Arrival)
    ensures TotalLen(batch + [a]) == TotalLen(batch) + a.len
  {
    assert (batch + [a])[..|batch|] == batch;
  }

  lemma TotalLenStep(batch: seq<Arrival>, m: nat)
    requires m < |batch|
    ensures TotalLen(batch[..m + 1]) == TotalLen(batch[..m]) + batch[m].len
  {
    assert batch[..m + 1] == batch[..m] + [batch[m]];
    TotalLenSnoc(batch[..m], batch[m]);
  }

  /** Whether `a` is a receive the transport can have completed with slots
      `p`: its slot had a receive outstanding, and, as the send path
      guarantees, an announcement is unordered and carries its two words. */
  predicate CanArrive(a: Arrival, p: Pool, nproc: nat) {
    && a.slot < |p.posted| && p.posted[a.slot] && a.src < nproc
    && (a.hdr.func == HugeMsgHandler ==> !IsOrdered(a.hdr.attr) && |a.words| >= ANNOUNCE_WORDS)
  }

  /** `Testsome` reports each slot at most once. */
  predicate DistinctArrivals(batch: seq<Arrival>) {
    forall j, k :: 0 <= j < k < |batch| ==> batch[j].slot != batch[k].slot
  }

  /** The state of the compaction pass after visiting `orig[..m]`, the queue
      it started from, with counters `rc0`, slots `p0` and handler log `log0`
      at the start: the queue array holds `qs`, its first `nleftover` entries
      are those kept and the unvisited ones are still in place; the counters
      are `rc`, the slots `p` and the log `log`. `Queue.DrainState` is the
      same stage of the pass on values, carrying the invariants the pass
      keeps; this predicate carries instead where the entries sit in the
      queue array, which the in-place loop needs, and leaves the invariants
      to `Queue.DrainKeepsInvariants`. */
  ghost predicate DrainAt(orig: seq<QMsg>, rc0: seq<Count>, p0: Pool, log0: seq<Delivery>,
                          m: nat, nleftover: nat, kept: seq<QMsg>, done: seq<QMsg>,
                          qs: seq<QMsg>, rc: seq<Count>, p: Pool, log: seq<Delivery>, nrecv: nat)
  {
    && nleftover == |kept| <= m <= |orig| <= |qs|
    && qs[..nleftover] == kept && qs[m..|orig|] == orig[m..]
    && DrainSoFar(orig, rc0, m, rc, kept, done)
    && log == log0 + Deliveries(done)
    && |p0.posted| == nrecv + 1 && p == PostAll(p0, nrecv, SlotsOf(done))
  }

  /** A visit of the compaction pass to an entry whose count is the one due
      from its source, on values: the entry is delivered, its source's
      counter advanced, its slot reposted and the handler called. */
  lemma DrainAtDeliver(orig: seq<QMsg>, rc0: seq<Count>, p0: Pool, log0: seq<Delivery>,
                       m: nat, nleftover: nat, kept: seq<QMsg>, done: seq<QMsg>,
                       qs: seq<QMsg>, rc: seq<Count>, p: Pool, log: seq<Delivery>, nrecv: nat)
    requires DrainAt(orig, rc0, p0, log0, m, nleftover, kept, done, qs, rc, p, log, nrecv) && m < |orig|
    requires qs[m].src < |rc| && qs[m].count == rc[qs[m].src]
    ensures DrainAt(orig, rc0, p0, log0, m + 1, nleftover, kept, done + [qs[m]], qs,
                    rc[qs[m].src := Inc(qs[m].count)], PostRecv(p, nrecv, qs[m].slot), log + [ToDelivery(qs[m])], nrecv)
  {
    var x := orig[m];
    assert qs[m..|orig|][0] == x;
    assert qs[m + 1..|orig|] == qs[m..|orig|][1..];
    DrainSoFarStep(orig, rc0, m, rc, kept, done);
    DeliveriesSnoc(done, x);
    PostAllSnoc(p0, nrecv, SlotsOf(done), x.slot);
  }

  /** A visit of the compaction pass to an entry whose count is not the one
      due, on values: the entry is moved down to `qs[nleftover]` and kept. */
  lemma DrainAtKeep(orig: seq<QMsg>, rc0: seq<Count>, p0: Pool, log0: seq<Delivery>,
                    m: nat, nleftover: nat, kept: seq<QMsg>, done: seq<QMsg>,
                    qs: seq<QMsg>, rc: seq<Count>, p: Pool, log: seq<Delivery>, nrecv: nat)
    requires DrainAt(orig, rc0, p0, log0, m, nleftover, kept, done, qs, rc, p, log, nrecv) && m < |orig|
    requires qs[m].src < |rc| && qs[m].count != rc[qs[m].src]
    ensures DrainAt(orig, rc0, p0, log0, m + 1, nleftover + 1, kept + [qs[m]], done, qs[nleftover := qs[m]], rc, p, log, nrecv)
  {
    var x := orig[m];
    assert qs[m..|orig|][0] == x;
    assert qs[m + 1..|orig|] == qs[m..|orig|][1..];
    DrainSoFarStep(orig, rc0, m, rc, kept, done);
    var qs' := qs[nleftover := x];
    assert qs'[..nleftover + 1] == kept + [x];
    assert qs'[m + 1..|orig|] == qs[m + 1..|orig|];
  }

  /** Handling one arrival leaves the receives of the rest of the batch
      outstanding. */
  lemma ArrivalsStay(batch: seq<Arrival>, m: nat, p: Pool, r: Pool, nproc: nat)
    requires m < |batch| && DistinctArrivals(batch)
    requires forall k :: m < k < |batch| ==> CanArrive(batch[k], p, nproc)
    requires PostedGrows(p, r, batch[m].slot)
    ensures forall k :: m < k < |batch| ==> CanArrive(batch[k], r, nproc)
  {
  }

  /** The handler call of an arrival delivered at once. */
  function AsDelivery(a: Arrival): Delivery {
    Delivery(a.src, a.slot, a.len, a.hdr.func, a.hdr.attr)
  }

  /** The queue entry of an arrival parked for later. Delivering it later
      makes the same handler call as delivering the arrival at once. */
  function AsEntry(a: Arrival): (r: QMsg)
    ensures ToDelivery(r) == AsDelivery(a)
  {
    QMsg(a.len, a.hdr.func, a.slot, a.src, a.hdr.attr, CountOf(a.hdr.attr))
  }

  /** For an ordered message, the pass's test on the count of its queue entry
      against the counter `c` is the test it failed on arrival. */
  lemma ParkedTestAgrees(a: Arrival, c: Count)
    requires IsOrdered(a.hdr.attr)
    ensures DeliverNow(a.hdr.attr, c) <==> AsEntry(a).count == c
  {
  }

  /** The receiving side of the transport as a value: the receive counters,
      the queue, the slots and the handler log. */
  datatype RecvState = RecvState(rc: seq<Count>, qs: seq<QMsg>, slots: Pool, log: seq<Delivery>)

  /** The invariants of the receiving side, one receive counter per source. */
  ghost predicate RecvOk(st: RecvState, nrecv: nat) {
    && PoolOk(st.slots, nrecv) && QueueOk(st.qs, st.slots, |st.rc|, nrecv)
    && |st.qs| <= nrecv + 1 && InOrder(st.log, st.rc)
  }

  /** The arrival loop of the server for one message, on values: an
      unordered message, or an ordered one carrying the count due from its
      source, goes to its handler at once (advancing the counter of an
      ordered one) and its slot is reposted; any other is parked at the end
      of the queue and keeps its slot. Either way the invariants hold
      afterwards, and the receives of other slots stay outstanding. */
  ghost function ArriveStep(st: RecvState, a: Arrival, nrecv: nat): (r: RecvState)
    requires RecvOk(st, nrecv) && CanArrive(a, st.slots, |st.rc|)
    ensures RecvOk(r, nrecv) && |r.rc| == |st.rc|
    ensures PostedGrows(st.slots, r.slots, a.slot)
    ensures DeliverNow(a.hdr.attr, st.rc[a.src]) ==>
      && r.log == st.log + [AsDelivery(a)] && r.qs == st.qs
      && r.rc == (if IsOrdered(a.hdr.attr) then st.rc[a.src := Inc(st.rc[a.src])] else st.rc)
      && r.slots == PostRecv(RunHandler(Complete(st.slots, a.slot), nrecv, a.hdr.func, a.words), nrecv, a.slot)
    ensures !DeliverNow(a.hdr.attr, st.rc[a.src]) ==>
      && r.log == st.log && r.qs == st.qs + [AsEntry(a)] && r.rc == st.rc
      && r.slots == Complete(st.slots, a.slot)
  {
    if DeliverNow(a.hdr.attr, st.rc[a.src]) then
      DeliverKeeps(st.qs, st.slots, |st.rc|, nrecv, a.slot, a.hdr.func, a.words);
      InOrderStep(st.log, st.rc, AsDelivery(a));
      var p := PostRecv(RunHandler(Complete(st.slots, a.slot), nrecv, a.hdr.func, a.words), nrecv, a.slot);
      var rc := if IsOrdered(a.hdr.attr) then st.rc[a.src := Inc(st.rc[a.src])] else st.rc;
      RecvState(rc, st.qs, p, st.log + [AsDelivery(a)])
    else
      ParkKeeps(st.qs, st.slots, |st.rc|, nrecv, AsEntry(a));
      RecvState(st.rc, st.qs + [AsEntry(a)], Complete(st.slots, a.slot), st.log)
  }

  /** The arrival loop of the server over `batch[m..]`, on values. */
  ghost function ArriveFrom(st: RecvState, batch: seq<Arrival>, m: nat, nrecv: nat): (r: RecvState)
    requires m <= |batch| && RecvOk(st, nrecv) && DistinctArrivals(batch)
    requires forall k :: m <= k < |batch| ==> CanArrive(batch[k], st.slots, |st.rc|)
    ensures RecvOk(r, nrecv) && |r.rc| == |st.rc|
    decreases |batch| - m
  {
    if m == |batch| then st
    else
      var st1 := ArriveStep(st, batch[m], nrecv);
      ArrivalsStay(batch, m, st.slots, st1.slots, |st.rc|);
      ArriveFrom(st1, batch, m + 1, nrecv)
  }

  /** The arrival loop after `batch[..m]`, started from `st0`: the
      receiving side is `st`, and the rest of the loop ends where the whole
      loop does. */
  ghost predicate ArrivedSoFar(st0: RecvState, batch: seq<Arrival>, m: nat, st: RecvState, nrecv: nat) {
    && m <= |batch| && RecvOk(st0, nrecv) && DistinctArrivals(batch)
    && (forall k :: 0 <= k < |batch| ==> CanArrive(batch[k], st0.slots, |st0.rc|))
    && RecvOk(st, nrecv) && |st.rc| == |st0.rc|
    && (forall k :: m <= k < |batch| ==> CanArrive(batch[k], st.slots, |st.rc|))
    && ArriveFrom(st0, batch, 0, nrecv) == ArriveFrom(st, batch, m, nrecv)
  }

  lemma ArrivedStart(st0: RecvState, batch: seq<Arrival>, nrecv: nat)
    requires RecvOk(st0, nrecv) && DistinctArrivals(batch)
    requires forall k :: 0 <= k < |batch| ==> CanArrive(batch[k], st0.slots, |st0.rc|)
    ensures ArrivedSoFar(st0, batch, 0, st0, nrecv)
  {
  }

  lemma ArrivedStep(st0: RecvState, batch: seq<Arrival>, m: nat, st: RecvState, nrecv: nat)
    requires ArrivedSoFar(st0, batch, m, st, nrecv) && m < |batch|
    ensures CanArrive(batch[m], st.slots, |st.rc|)
    ensures ArrivedSoFar(st0, batch, m + 1, ArriveStep(st, batch[m], nrecv), nrecv)
  {
    ArrivalsStay(batch, m, st.slots, ArriveStep(st, batch[m], nrecv).slots, |st.rc|);
  }

  lemma ArrivedEnd(st0: RecvState, batch: seq<Arrival>, st: RecvState, nrecv: nat)
    requires ArrivedSoFar(st0, batch, |batch|, st, nrecv)
    ensures st == ArriveFrom(st0, batch, 0, nrecv)
  {
  }

  /** One arrival is handed to its handler or parked, one entry either way;
      an unordered one is always handed to its handler. */
  lemma ArriveStepAccounts(st: RecvState, a: Arrival, nrecv: nat)
    requires RecvOk(st, nrecv) && CanArrive(a, st.slots, |st.rc|)
    ensures var r := ArriveStep(st, a, nrecv);
      && st.log <= r.log && st.qs <= r.qs
      && |r.log| - |st.log| + |r.qs| - |st.qs| == 1
      && (r.log[|st.log|..] == [AsDelivery(a)] || r.qs[|st.qs|..] == [AsEntry(a)])
      && (!IsOrdered(a.hdr.attr) ==> r.log[|st.log|..] == [AsDelivery(a)])
  {
    var r := ArriveStep(st, a, nrecv);
    if DeliverNow(a.hdr.attr, st.rc[a.src]) {
      assert r.log[|st.log|..] == [AsDelivery(a)];
    } else {
      assert r.qs[|st.qs|..] == [AsEntry(a)];
    }
  }

  lemma SliceSplit<T>(a: seq<T>, b: seq<T>, c: seq<T>)
    requires a <= b <= c
    ensures a <= c && c[|a|..] == b[|a|..] + c[|b|..]
  {
  }

  /** No arrival of a batch is lost or duplicated: each is handed to its
      handler or parked in the queue, one entry each, the unordered ones
      always handed to their handler; the log and the queue only grow. */
  lemma {:induction false} ArriveFromAccounts(st: RecvState, batch: seq<Arrival>, m: nat, nrecv: nat)
    requires m <= |batch| && RecvOk(st, nrecv) && DistinctArrivals(batch)
    requires forall k :: m <= k < |batch| ==> CanArrive(batch[k], st.slots, |st.rc|)
    ensures var r := ArriveFrom(st, batch, m, nrecv);
      && st.log <= r.log && st.qs <= r.qs
      && |r.log| - |st.log| + |r.qs| - |st.qs| == |batch| - m
      && (forall k :: m <= k < |batch| ==> AsDelivery(batch[k]) in r.log[|st.log|..] || AsEntry(batch[k]) in r.qs[|st.qs|..])
      && (forall k :: m <= k < |batch| && !IsOrdered(batch[k].hdr.attr) ==> AsDelivery(batch[k]) in r.log[|st.log|..])
    decreases |batch| - m
  {
    if m < |batch| {
      var st1 := ArriveStep(st, batch[m], nrecv);
      ArrivalsStay(batch, m, st.slots, st1.slots, |st.rc|);
      ArriveStepAccounts(st, batch[m], nrecv);
      ArriveFromAccounts(st1, batch, m + 1, nrecv);
      var r := ArriveFrom(st, batch, m, nrecv);
      assert r == ArriveFrom(st1, batch, m + 1, nrecv);
      var logNew, qsNew := r.log[|st.log|..], r.qs[|st.qs|..];
      SliceSplit(st.log, st1.log, r.log);
      SliceSplit(st.qs, st1.qs, r.qs);
      forall k | m <= k < |batch|
        ensures AsDelivery(batch[k]) in logNew || AsEntry(batch[k]) in qsNew
        ensures !IsOrdered(batch[k].hdr.attr) ==> AsDelivery(batch[k]) in logNew
      {
        if k == m {
          assert st1.log[|st.log|..] == [AsDelivery(batch[m])] || st1.qs[|st.qs|..] == [AsEntry(batch[m])];
        } else {
          assert AsDelivery(batch[k]) in r.log[|st1.log|..] || AsEntry(batch[k]) in r.qs[|st1.qs|..];
        }
      }
    }
  }

  /** The compaction pass on values, over the queue `sorted` (the queue of
      `st` once sorted): entries whose count is due in turn go to their
      handlers and their slots are reposted, the rest are kept in order. */
  ghost function Drained(st: RecvState, sorted: seq<QMsg>, nrecv: nat): (r: RecvState)
    requires RecvOk(st, nrecv) && QueueOk(sorted, st.slots, |st.rc|, nrecv) && |sorted| == |st.qs|
    ensures RecvOk(r, nrecv) && |r.rc| == |st.rc|
  {
    DrainKeepsInvariants(sorted, st.rc, st.slots, st.log, |st.rc|, nrecv);
    var d := Drain(sorted, st.rc);
    RecvState(d.counters, d.kept, PostAll(st.slots, nrecv, SlotsOf(d.delivered)), st.log + Deliveries(d.delivered))
  }

  class RMI {
    const nproc: nat
    const rank: nat
    const maxMsgLen: nat
    const nrecv: nat
    const maxq: nat
    const sendCounters: array<Count>
    const recvCounters: array<Count>
    /** The out-of-order queue of the server loop, with `nInQ` entries. */
    const q: array<QMsg>
    /** `recvReq[i]`: slot `i` has a receive outstanding. */
    const recvReq: array<bool>
    var nInQ: nat
    var hugeq: seq<HugeReq>
    /** `recv_buf[nrecv_]`: `None` for null, else the staged huge message. */
    var hugeSlot: Option<HugeReq>
    var stats: Stats
    ghost var acks: seq<nat>
    ghost var outbox: seq<NetEvent>
    ghost var delivered: seq<Delivery>

    /** The configuration and the sizes of the arrays. */
    ghost predicate Shape()
    {
      && 0 < nproc < 0x8000_0000 && rank < nproc
      && nrecv >= DEFAULT_NRECV && maxq == nrecv + 1
      && maxMsgLen >= MIN_BUFFER_SIZE && maxMsgLen % ALIGNMENT == 0
      && sendCounters.Length == nproc && recvCounters.Length == nproc
      && sendCounters != recvCounters
      && q.Length == maxq && recvReq.Length == maxq
    }

    ghost function Slots(): (p: Pool)
      reads this, recvReq
      ensures |p.posted| == recvReq.Length
    {
      Pool(recvReq[..], hugeq, hugeSlot, acks)
    }

    /** The receiving side of the object as a value. */
    ghost function RState(): (st: RecvState)
      requires nInQ <= q.Length
      reads this, recvCounters, q, recvReq
      ensures st.slots == Slots() && st.qs == q[..nInQ] && st.rc == recvCounters[..] && st.log == delivered
    {
      RecvState(recvCounters[..], q[..nInQ], Slots(), delivered)
    }

    ghost predicate Valid()
      reads this, sendCounters, recvCounters, q, recvReq
    {
      && Shape()
      && nInQ <= maxq
      && PoolOk(Slots(), nrecv)
      && QueueOk(q[..nInQ], Slots(), nproc, nrecv)
      && InOrder(delivered, recvCounters[..])
      && SentInOrder(outbox, sendCounters[..])
    }

    /** The constructor: settle the configuration, zero the counters, post a
        receive on every ordinary slot when there is more than one process,
        and leave the reserved slot empty. */
    constructor (nproc: nat, rank: nat, bufferSizeEnv: Option<nat>, recvBuffersEnv: Option<int>)
      requires 0 < nproc < 0x8000_0000 && rank < nproc
      ensures Valid()
      ensures this.nproc == nproc && this.rank == rank
      ensures maxMsgLen == MaxMsgLen(bufferSizeEnv)
      ensures nrecv == RecvBuffers(recvBuffersEnv) && maxq == nrecv + 1
      ensures forall d :: 0 <= d < nproc ==> sendCounters[d] == 0 && recvCounters[d] == 0
      ensures forall i :: 0 <= i < maxq ==> recvReq[i] == (nproc > 1 && i < nrecv)
      ensures hugeSlot == None && hugeq == [] && nInQ == 0
      ensures stats == Stats(0, 0, 0, 0)
      ensures acks == [] && outbox == [] && delivered == []
      ensures fresh(sendCounters) && fresh(recvCounters) && fresh(q) && fresh(recvReq)
    {
      this.nproc := nproc;
      this.rank := rank;
      maxMsgLen := MaxMsgLen(bufferSizeEnv);
      var n := RecvBuffers(recvBuffersEnv);
      nrecv := n;
      maxq := n + 1;
      sendCounters := new Count[nproc](_ => 0);
      recvCounters := new Count[nproc](_ => 0);
      q := new QMsg[n + 1](_ => QMsg(0, UserHandler(0), 0, 0, ATTR_ORDERED, 0));
      recvReq := new bool[n + 1](_ => false);
      nInQ := 0;
      hugeq := [];
      hugeSlot := None;
      stats := Stats(0, 0, 0, 0);
      acks := [];
      outbox := [];
      delivered := [];
      new;
      assert recvCounters[..] == seq(nproc, _ => 0);
      InOrderStart(nproc);
      if nproc > 1 {
        PostOrdinaryRecvs();
      }
    }

    /** The loop of the constructor: `post_recv_buf` on every ordinary slot. */
    method PostOrdinaryRecvs()
      requires Shape()
      modifies this, recvReq
      ensures forall j :: 0 <= j < nrecv ==> recvReq[j]
      ensures recvReq[nrecv] == old(recvReq[nrecv])
      ensures hugeSlot == old(hugeSlot) && hugeq == old(hugeq) && acks == old(acks) && nInQ == old(nInQ)
      ensures stats == old(stats) && outbox == old(outbox) && delivered == old(delivered)
    {
      for i := 0 to nrecv
        invariant forall j :: 0 <= j < i ==> recvReq[j]
        invariant recvReq[nrecv] == old(recvReq[nrecv])
        invariant hugeSlot == old(hugeSlot) && hugeq == old(hugeq) && acks == old(acks) && nInQ == old(nInQ)
        invariant stats == old(stats) && outbox == old(outbox) && delivered == old(delivered)
      {
        var _ := PostRecvBuf(i);
      }
    }

    /** `post_pending_huge_msg`. */
    method PostPendingHuge()
      requires Shape()
      modifies this, recvReq
      ensures Slots() == StageNext(old(Slots()), nrecv)
      ensures nInQ == old(nInQ) && stats == old(stats)
      ensures outbox == old(outbox) && delivered == old(delivered)
    {
      if hugeSlot.Some? {
        return;
      }
      if hugeq != [] {
        var req := hugeq[0];
        hugeq := hugeq[1..];
        hugeSlot := Some(req);
        recvReq[nrecv] := true;
        acks := acks + [req.src];
      }
    }

    /** `post_recv_buf(i)`; `ok` is false for the error of a slot past the
        reserved one. */
    method PostRecvBuf(i: nat) returns (ok: bool)
      requires Shape()
      modifies this, recvReq
      ensures ok == (i <= nrecv)
      ensures Slots() == PostRecv(old(Slots()), nrecv, i)
      ensures nInQ == old(nInQ) && stats == old(stats)
      ensures outbox == old(outbox) && delivered == old(delivered)
    {
      if i < nrecv {
        recvReq[i] := true;
        ok := true;
      } else if i == nrecv {
        hugeSlot := None;
        PostPendingHuge();
        ok := true;
      } else {
        ok := false;
      }
    }

    /** `huge_msg_handler(buf, ...)`, `info` being the words of `buf`. */
    method HandleHugeMsg(info: seq<SizeT>)
      requires Shape() && PoolOk(Slots(), nrecv)
      requires |info| >= ANNOUNCE_WORDS
      modifies this, recvReq
      ensures Slots() == HugeArrived(old(Slots()), HugeInfo(info), nrecv)
      ensures nInQ == old(nInQ) && stats == old(stats)
      ensures outbox == old(outbox) && delivered == old(delivered)
    {
      var req := HugeInfo(info);
      hugeq := hugeq + [req];
      PostPendingHuge();
    }

    /** The body of the arrival loop of the server (`run`) for one message:
        count it, then deliver it at once when it is unordered or its count
        is the one due from its source, otherwise park it in the queue. */
    method Arrive(a: Arrival)
      requires Valid() && CanArrive(a, Slots(), nproc)
      modifies this, recvCounters, recvReq, q
      ensures Valid()
      ensures stats == old(stats).(nmsgRecv := old(stats).nmsgRecv + 1, nbyteRecv := old(stats).nbyteRecv + a.len)
      ensures outbox == old(outbox)
      ensures RState() == ArriveStep(old(RState()), a, nrecv)
    {
      stats := stats.(nmsgRecv := stats.nmsgRecv + 1, nbyteRecv := stats.nbyteRecv + a.len);
      if DeliverNow(a.hdr.attr, recvCounters[a.src]) {
        DeliverArrival(a);
      } else {
        ParkArrival(a);
      }
    }

    /** The immediate branch of the arrival loop: advance the counter of an
        ordered message, call the handler, repost the slot. */
    method DeliverArrival(a: Arrival)
      requires Valid() && CanArrive(a, Slots(), nproc) && DeliverNow(a.hdr.attr, recvCounters[a.src])
      modifies this, recvCounters, recvReq
      ensures Valid()
      ensures stats == old(stats) && outbox == old(outbox)
      ensures delivered == old(delivered) + [AsDelivery(a)]
      ensures recvCounters[..] == (if IsOrdered(a.hdr.attr) then old(recvCounters[..])[a.src := Inc(old(recvCounters[a.src]))]
                                   else old(recvCounters[..]))
      ensures nInQ == old(nInQ)
      ensures Slots() == PostRecv(RunHandler(Complete(old(Slots()), a.slot), nrecv, a.hdr.func, a.words), nrecv, a.slot)
      ensures PostedGrows(old(Slots()), Slots(), a.slot)
    {
      ghost var p0 := Slots();
      DeliverKeeps(q[..nInQ], p0, nproc, nrecv, a.slot, a.hdr.func, a.words);
      var d := AsDelivery(a);
      InOrderStep(delivered, recvCounters[..], d);
      recvReq[a.slot] := false;
      assert Slots() == Complete(p0, a.slot);
      if IsOrdered(a.hdr.attr) {
        recvCounters[a.src] := Inc(recvCounters[a.src]);
      }
      delivered := delivered + [d];
      if a.hdr.func == HugeMsgHandler {
        HandleHugeMsg(a.words);
      }
      var _ := PostRecvBuf(a.slot);
    }

    /** The deferred branch of the arrival loop: park the message in the
        queue; the queue never overflows. */
    method ParkArrival(a: Arrival)
      requires Valid() && CanArrive(a, Slots(), nproc) && !DeliverNow(a.hdr.attr, recvCounters[a.src])
      modifies this, recvReq, q
      ensures Valid()
      ensures stats == old(stats) && outbox == old(outbox) && delivered == old(delivered)
      ensures nInQ == old(nInQ) + 1
      ensures q[..nInQ] == old(q[..nInQ]) + [AsEntry(a)]
      ensures Slots() == Complete(old(Slots()), a.slot)
      ensures PostedGrows(old(Slots()), Slots(), a.slot)
    {
      var m := AsEntry(a);
      ghost var p0 := Slots();
      ghost var qs := q[..nInQ];
      ParkKeeps(qs, p0, nproc, nrecv, m);
      recvReq[a.slot] := false;
      assert Slots() == Complete(p0, a.slot);
      var n := nInQ;
      if n >= maxq {
        // The queue overflow error of the source: unreachable.
        assert false;
      }
      q[n] := m;
      nInQ := n + 1;
      assert q[..nInQ] == qs + [m];
    }

    /** `std::sort` of the queue before the compaction pass, in place, by
        insertion: ascending count as written (`ByCount`), or ascending
        distance of each entry's count from its source's receive counter
        (`ByDistance`). */
    method SortQueue(order: SortOrder)
      requires Valid()
      modifies q
      ensures Valid()
      ensures SortedBy(q[..nInQ], recvCounters[..], order)
      ensures multiset(q[..nInQ]) == multiset(old(q[..nInQ]))
    {
      var n := nInQ;
      if n == 0 {
        return;
      }
      ghost var p := Slots();
      ghost var rc := recvCounters[..];
      ghost var s0 := q[..n];
      ghost var s := s0;
      var i := 1;
      while i < n
        invariant 1 <= i <= n == nInQ
        invariant q[..n] == s && QueueOk(s, p, nproc, nrecv) && multiset(s) == multiset(s0)
        invariant SortedPrefix(s, i, rc, order)
      {
        InsertAt(i, p, rc, order);
        s := q[..n];
        i := i + 1;
      }
      SortedPrefixAll(s, rc, order);
    }

    /** One round of the insertion sort: move `q[i]` down past the entries
        of the sorted prefix `q[..i]` with a larger key. */
    method InsertAt(i: nat, ghost p: Pool, ghost rc: seq<Count>, order: SortOrder)
      requires Shape() && 0 < i < nInQ <= maxq && rc == recvCounters[..]
      requires QueueOk(q[..nInQ], p, nproc, nrecv)
      requires SortedPrefix(q[..nInQ], i, rc, order)
      modifies q
      ensures QueueOk(q[..nInQ], p, nproc, nrecv)
      ensures SortedPrefix(q[..nInQ], i + 1, rc, order)
      ensures multiset(q[..nInQ]) == multiset(old(q[..nInQ]))
    {
      ghost var s0 := q[..nInQ];
      ghost var s := s0;
      InsertingStart(s, i, p, rc, order, nproc, nrecv);
      var j := i;
      while j > 0
        invariant q[..nInQ] == s && Inserting(s, i, j, p, rc, order, nproc, nrecv)
        invariant multiset(s) == multiset(s0)
      {
        var a, b := q[j - 1], q[j];
        assert a == s[j - 1] && b == s[j];
        if SortKey(a, recvCounters[a.src], order) <= SortKey(b, recvCounters[b.src], order) {
          break;
        }
        InsertingStep(s, i, j, p, rc, order, nproc, nrecv);
        SwapDown(j);
        s := Swap(s, j - 1);
        j := j - 1;
      }
      InsertingDone(s, i, j, p, rc, order, nproc, nrecv);
    }

    /** Exchange `q[j-1]` and `q[j]`. */
    method SwapDown(j: nat)
      requires 0 < j < nInQ <= q.Length
      modifies q
      ensures q[..nInQ] == Swap(old(q[..nInQ]), j - 1)
    {
      ghost var s := q[..nInQ];
      q[j - 1], q[j] := q[j], q[j - 1];
      assert q[..nInQ] == Swap(s, j - 1);
    }

    /** The state of the compaction pass after visiting `orig[..m]`, the
        queue it started from, with counters `rc0`, slots `p0` and handler
        log `log0` at the start: the first `nleftover` entries of the queue
        are those kept, the unvisited ones are still in place. */
    ghost predicate DrainInv(orig: seq<QMsg>, rc0: seq<Count>, p0: Pool, log0: seq<Delivery>,
                             m: nat, nleftover: nat, kept: seq<QMsg>, done: seq<QMsg>)
      reads this, recvCounters, q, recvReq
    {
      |orig| == nInQ && DrainAt(orig, rc0, p0, log0, m, nleftover, kept, done, q[..], recvCounters[..], Slots(), delivered, nrecv)
    }

    /** The compaction pass after the sort: deliver each entry whose count
        is due when the pass reaches it, keep the rest at the front of the
        queue in their order. */
    method DrainQueue()
      requires Valid()
      modifies this, recvCounters, recvReq, q
      ensures Valid()
      ensures var r := Drain(old(q[..nInQ]), old(recvCounters[..]));
        && q[..nInQ] == r.kept
        && recvCounters[..] == r.counters
        && delivered == old(delivered) + Deliveries(r.delivered)
        && Slots() == PostAll(old(Slots()), nrecv, SlotsOf(r.delivered))
      ensures stats == old(stats) && outbox == old(outbox)
    {
      ghost var orig := q[..nInQ];
      ghost var rc0 := recvCounters[..];
      ghost var p0 := Slots();
      ghost var log0 := delivered;
      DrainSoFarStart(orig, rc0);
      assert orig[0..] == orig;
      var nleftover;
      ghost var kept, done;
      nleftover, kept, done := DrainLoop(orig, rc0, p0, log0);
      FinishDrain(orig, rc0, p0, log0, nleftover, kept, done);
    }

    /** The end of the compaction pass: the queue is cut down to the entries
        kept. */
    method FinishDrain(ghost orig: seq<QMsg>, ghost rc0: seq<Count>, ghost p0: Pool, ghost log0: seq<Delivery>,
                       nleftover: nat, ghost kept: seq<QMsg>, ghost done: seq<QMsg>)
      requires Shape() && DrainInv(orig, rc0, p0, log0, |orig|, nleftover, kept, done)
      requires PoolOk(p0, nrecv) && QueueOk(orig, p0, nproc, nrecv) && InOrder(log0, rc0)
      requires SentInOrder(outbox, sendCounters[..])
      modifies this
      ensures Valid()
      ensures Drain(orig, rc0) == DrainResult(q[..nInQ], done, recvCounters[..])
      ensures delivered == log0 + Deliveries(done) && Slots() == PostAll(p0, nrecv, SlotsOf(done))
      ensures stats == old(stats) && outbox == old(outbox)
    {
      ghost var rc := recvCounters[..];
      ghost var p := Slots();
      DrainSoFarEnd(orig, rc0, rc, kept, done);
      DrainKeepsInvariants(orig, rc0, p0, log0, nproc, nrecv);
      nInQ := nleftover;
      assert q[..nInQ] == kept && recvCounters[..] == rc && Slots() == p;
    }

    /** The loop of the compaction pass over the whole queue. */
    method DrainLoop(ghost orig: seq<QMsg>, ghost rc0: seq<Count>, ghost p0: Pool, ghost log0: seq<Delivery>)
      returns (nleftover: nat, ghost kept: seq<QMsg>, ghost done: seq<QMsg>)
      requires Shape() && DrainInv(orig, rc0, p0, log0, 0, 0, [], [])
      modifies this, recvCounters, recvReq, q
      ensures DrainInv(orig, rc0, p0, log0, |orig|, nleftover, kept, done)
      ensures nInQ == old(nInQ) && stats == old(stats) && outbox == old(outbox)
    {
      kept, done := [], [];
      nleftover := 0;
      var n := nInQ;
      var m := 0;
      while m < n
        invariant n == nInQ == |orig|
        invariant DrainInv(orig, rc0, p0, log0, m, nleftover, kept, done)
        invariant stats == old(stats) && outbox == old(outbox)
      {
        nleftover, kept, done := Visit(orig, rc0, p0, log0, m, nleftover, kept, done);
        m := m + 1;
      }
    }

    /** One visit of the compaction pass, to `q[m]`. */
    method Visit(ghost orig: seq<QMsg>, ghost rc0: seq<Count>, ghost p0: Pool, ghost log0: seq<Delivery>,
                 m: nat, nleftover: nat, ghost kept: seq<QMsg>, ghost done: seq<QMsg>)
      returns (nleftover': nat, ghost kept': seq<QMsg>, ghost done': seq<QMsg>)
      requires Shape() && DrainInv(orig, rc0, p0, log0, m, nleftover, kept, done) && m < nInQ
      modifies this, recvCounters, recvReq, q
      ensures DrainInv(orig, rc0, p0, log0, m + 1, nleftover', kept', done')
      ensures nInQ == old(nInQ) && stats == old(stats) && outbox == old(outbox)
    {
      var x := q[m];
      ghost var qs := q[..];
      DrainSoFarStep(orig, rc0, m, recvCounters[..], kept, done);
      if x.count == recvCounters[x.src] {
        DrainAtDeliver(orig, rc0, p0, log0, m, nleftover, kept, done, qs, recvCounters[..], Slots(), delivered, nrecv);
        DeliverQueued(x);
        assert q[..] == qs;
        nleftover', kept', done' := nleftover, kept, done + [x];
      } else {
        DrainAtKeep(orig, rc0, p0, log0, m, nleftover, kept, done, qs, recvCounters[..], Slots(), delivered, nrecv);
        q[nleftover] := x;
        assert q[..] == qs[nleftover := x];
        nleftover', kept', done' := nleftover + 1, kept + [x], done;
      }
    }

    /** The delivery of a queued entry whose count has come up: advance its
        source's counter, call the handler, repost the slot. */
    method DeliverQueued(x: QMsg)
      requires Shape() && x.src < nproc
      modifies this, recvCounters, recvReq
      ensures recvCounters[..] == old(recvCounters[..])[x.src := Inc(old(recvCounters[x.src]))]
      ensures delivered == old(delivered) + [ToDelivery(x)]
      ensures Slots() == PostRecv(old(Slots()), nrecv, x.slot)
      ensures nInQ == old(nInQ) && stats == old(stats) && outbox == old(outbox)
    {
      ghost var rc := recvCounters[..];
      recvCounters[x.src] := Inc(recvCounters[x.src]);
      assert recvCounters[..] == rc[x.src := Inc(rc[x.src])];
      delivered := delivered + [ToDelivery(x)];
      var _ := PostRecvBuf(x.slot);
    }

    /** One iteration of the server loop with `batch` as the receives
        `Testsome` reported: handle each arrival, then sort the queue by
        `order`, make the compaction pass and service the huge-message
        backlog. The source sorts `ByCount`; `ByDistance` is the corrected
        sort. The new receiving side is the arrival loop over the batch
        followed by the compaction pass over the sorted queue, and nothing
        deliverable is left in the queue after a non-empty batch: always
        with `ByDistance`, and with `ByCount` when no queued count is
        `0xFFFF`. */
    method ProcessBatch(batch: seq<Arrival>, order: SortOrder) returns (ghost sorted: seq<QMsg>)
      requires Valid()
      requires forall k :: 0 <= k < |batch| ==> CanArrive(batch[k], Slots(), nproc)
      requires DistinctArrivals(batch)
      modifies this, recvCounters, recvReq, q
      ensures Valid()
      ensures stats == old(stats).(nmsgRecv := old(stats).nmsgRecv + |batch|, nbyteRecv := old(stats).nbyteRecv + TotalLen(batch))
      ensures outbox == old(outbox)
      ensures |batch| == 0 ==> RState() == old(RState())
      ensures |batch| > 0 ==>
        var st := ArriveFrom(old(RState()), batch, 0, nrecv);
        && multiset(sorted) == multiset(st.qs) && QueueOk(sorted, st.slots, nproc, nrecv) && |sorted| == |st.qs|
        && SortedBy(sorted, st.rc, order)
        && RState() == Drained(st, sorted, nrecv)
      ensures |batch| > 0 && order == ByDistance && maxq < 0x1_0000 ==> Settled(q[..nInQ], recvCounters[..])
      ensures |batch| > 0 && order == ByCount && (forall i :: 0 <= i < |sorted| ==> sorted[i].count < 0xFFFF) ==>
        Settled(q[..nInQ], recvCounters[..])
    {
      if |batch| == 0 {
        sorted := [];
        return;
      }
      ArriveAll(batch);
      sorted := SortAndDrain(order);
      ServeBacklog();
    }

    /** The `post_pending_huge_msg` that ends an iteration of the server
        loop: once the invariants hold it changes nothing. */
    method ServeBacklog()
      requires Valid()
      modifies this, recvReq
      ensures Valid() && RState() == old(RState())
      ensures stats == old(stats) && outbox == old(outbox)
    {
      StageNextIdle(Slots(), nrecv);
      PostPendingHuge();
    }

    /** The sort of the queue and the compaction pass of the server loop. */
    method SortAndDrain(order: SortOrder) returns (ghost sorted: seq<QMsg>)
      requires Valid()
      modifies this, recvCounters, recvReq, q
      ensures Valid()
      ensures stats == old(stats) && outbox == old(outbox)
      ensures multiset(sorted) == multiset(old(q[..nInQ])) && |sorted| == old(nInQ)
      ensures QueueOk(sorted, old(Slots()), nproc, nrecv) && SortedBy(sorted, old(recvCounters[..]), order)
      ensures RState() == Drained(old(RState()), sorted, nrecv)
      ensures order == ByDistance && maxq < 0x1_0000 ==> Settled(q[..nInQ], recvCounters[..])
      ensures order == ByCount && (forall i :: 0 <= i < |sorted| ==> sorted[i].count < 0xFFFF) ==>
        Settled(q[..nInQ], recvCounters[..])
    {
      SortQueue(order);
      sorted := q[..nInQ];
      ghost var rc := recvCounters[..];
      DrainQueue();
      SortedByMeans(sorted, rc, order);
      if order == ByDistance && maxq < 0x1_0000 {
        DistanceSortOnePass(sorted, rc);
      }
      if order == ByCount && (forall i :: 0 <= i < |sorted| ==> sorted[i].count < 0xFFFF) {
        CountSortOnePassWithoutWrap(sorted, rc);
      }
    }

    /** The arrival loop of the server over the receives of one batch. */
    method ArriveAll(batch: seq<Arrival>)
      requires Valid()
      requires forall k :: 0 <= k < |batch| ==> CanArrive(batch[k], Slots(), nproc)
      requires DistinctArrivals(batch)
      modifies this, recvCounters, recvReq, q
      ensures Valid()
      ensures stats == old(stats).(nmsgRecv := old(stats).nmsgRecv + |batch|, nbyteRecv := old(stats).nbyteRecv + TotalLen(batch))
      ensures outbox == old(outbox)
      ensures RState() == ArriveFrom(old(RState()), batch, 0, nrecv)
    {
      ghost var st0 := RState();
      ghost var st := st0;
      ArrivedStart(st0, batch, nrecv);
      var m := 0;
      while m < |batch|
        invariant 0 <= m <= |batch|
        invariant Valid()
        invariant stats == old(stats).(nmsgRecv := old(stats).nmsgRecv + m, nbyteRecv := old(stats).nbyteRecv + TotalLen(batch[..m]))
        invariant outbox == old(outbox)
        invariant st == RState() && ArrivedSoFar(st0, batch, m, st, nrecv)
      {
        ArrivedStep(st0, batch, m, st, nrecv);
        TotalLenStep(batch, m);
        Arrive(batch[m]);
        st := ArriveStep(st, batch[m], nrecv);
        m := m + 1;
      }
      ArrivedEnd(st0, batch, st, nrecv);
      assert batch[..m] == batch;
    }

    /** Record a step of the huge-message protocol of the sending side. */
    ghost method Record(e: NetEvent)
      requires Valid() && !e.Isent?
      modifies this
      ensures Valid()
      ensures outbox == old(outbox) + [e]
      ensures nInQ == old(nInQ) && hugeq == old(hugeq) && hugeSlot == old(hugeSlot)
      ensures stats == old(stats) && acks == old(acks) && delivered == old(delivered)
    {
      SentInOrderStep(outbox, sendCounters[..], e);
      outbox := outbox + [e];
    }

    /** The ordinary send of `private_isend`: stamp an ordered message with
        the destination's send counter and advance it, count the message and
        hand it to the network. */
    method SendMsg(data: seq<SizeT>, nbyte: SizeT, dest: nat, func: Handler, attr: Attr, tag: Tag)
      requires Valid() && dest < nproc
      modifies this, sendCounters
      ensures Valid()
      ensures sendCounters[..] == (if IsOrdered(attr) then old(sendCounters[..])[dest := Inc(old(sendCounters[dest]))]
                                   else old(sendCounters[..]))
      ensures outbox == old(outbox) + [Isent(dest, tag, nbyte, Header(func, Stamped(attr, old(sendCounters[dest]))),
                                             data, StampOf(attr, old(sendCounters[dest])))]
      ensures stats == old(stats).(nmsgSent := old(stats).nmsgSent + 1, nbyteSent := old(stats).nbyteSent + nbyte)
      ensures nInQ == old(nInQ) && hugeq == old(hugeq) && hugeSlot == old(hugeSlot)
      ensures acks == old(acks) && delivered == old(delivered)
    {
      var c := sendCounters[dest];
      var e := Isent(dest, tag, nbyte, Header(func, Stamped(attr, c)), data, StampOf(attr, c));
      SentInOrderStep(outbox, sendCounters[..], e);
      if IsOrdered(attr) {
        sendCounters[dest] := Inc(c);
      }
      stats := stats.(nmsgSent := stats.nmsgSent + 1, nbyteSent := stats.nbyteSent + nbyte);
      outbox := outbox + [e];
    }

    /** The path of `private_isend` for a message longer than an ordinary
        buffer: post the receive for the acknowledgement from `dest`,
        announce the message with an unordered message to the huge-message
        handler, wait for the announcement to go out and for the
        acknowledgement to arrive, then send the data with the huge-data
        tag. */
    method SendHuge(data: seq<SizeT>, nbyte: SizeT, dest: nat, func: Handler, attr: Attr)
      requires Valid() && dest < nproc && nbyte > maxMsgLen
      modifies this, sendCounters
      ensures Valid()
      ensures nInQ == old(nInQ) && hugeq == old(hugeq) && hugeSlot == old(hugeSlot)
      ensures acks == old(acks) && delivered == old(delivered)
      ensures sendCounters[..] == (if IsOrdered(attr) then old(sendCounters[..])[dest := Inc(old(sendCounters[dest]))]
                                   else old(sendCounters[..]))
      ensures outbox == old(outbox) + [AckRecvPosted(dest),
                                       Isent(dest, RmiTag, ANNOUNCE_BYTES, Header(HugeMsgHandler, ATTR_UNORDERED),
                                             AnnounceInfo(rank, nbyte), None),
                                       AnnounceDone(dest),
                                       AckArrived(dest),
                                       Isent(dest, HugeDatTag, nbyte, Header(func, Stamped(attr, old(sendCounters[dest]))),
                                             data, StampOf(attr, old(sendCounters[dest])))]
      ensures stats == old(stats).(nmsgSent := old(stats).nmsgSent + 2, nbyteSent := old(stats).nbyteSent + ANNOUNCE_BYTES + nbyte)
    {
      Announce(nbyte, dest);
      Record(AckArrived(dest));
      SendMsg(data, nbyte, dest, func, attr, HugeDatTag);
    }

    /** The announcement of a huge message: post the receive for the
        acknowledgement from `dest`, send the announcement, an unordered
        message to the huge-message handler, and wait for it to go out. */
    method Announce(nbyte: SizeT, dest: nat)
      requires Valid() && dest < nproc
      modifies this, sendCounters
      ensures Valid()
      ensures nInQ == old(nInQ) && hugeq == old(hugeq) && hugeSlot == old(hugeSlot)
      ensures acks == old(acks) && delivered == old(delivered)
      ensures sendCounters[..] == old(sendCounters[..])
      ensures outbox == old(outbox) + [AckRecvPosted(dest),
                                       Isent(dest, RmiTag, ANNOUNCE_BYTES, Header(HugeMsgHandler, ATTR_UNORDERED),
                                             AnnounceInfo(rank, nbyte), None),
                                       AnnounceDone(dest)]
      ensures stats == old(stats).(nmsgSent := old(stats).nmsgSent + 1, nbyteSent := old(stats).nbyteSent + ANNOUNCE_BYTES)
    {
      Record(AckRecvPosted(dest));
      // The announcement goes down the ordinary path: it is longer than
      // the header and shorter than any ordinary buffer.
      AnnounceIsOrdinary();
      SendMsg(AnnounceInfo(rank, nbyte), ANNOUNCE_BYTES, dest, HugeMsgHandler, ATTR_UNORDERED, RmiTag);
      Record(AnnounceDone(dest));
    }

    /** `private_isend`: send `nbyte` bytes whose words are `data` to `dest`
        with handler `func`. `ok` is false for the error of a message too
        short to hold the header. A message longer than an ordinary buffer is
        announced first with an unordered message to the huge-message
        handler, and sent once the receiver acknowledges. */
    method Isend(data: seq<SizeT>, nbyte: SizeT, dest: nat, func: Handler, attr: Attr) returns (ok: bool)
      requires Valid() && dest < nproc
      modifies this, sendCounters
      ensures Valid()
      ensures ok == (nbyte >= HEADER_LEN)
      ensures nInQ == old(nInQ) && hugeq == old(hugeq) && hugeSlot == old(hugeSlot)
      ensures acks == old(acks) && delivered == old(delivered)
      ensures !ok ==> outbox == old(outbox) && stats == old(stats) && sendCounters[..] == old(sendCounters[..])
      ensures ok ==> sendCounters[..] == (if IsOrdered(attr) then old(sendCounters[..])[dest := Inc(old(sendCounters[dest]))]
                                          else old(sendCounters[..]))
      ensures ok && nbyte <= maxMsgLen ==>
        && outbox == old(outbox) + [Isent(dest, RmiTag, nbyte, Header(func, Stamped(attr, old(sendCounters[dest]))),
                                          data, StampOf(attr, old(sendCounters[dest])))]
        && stats == old(stats).(nmsgSent := old(stats).nmsgSent + 1, nbyteSent := old(stats).nbyteSent + nbyte)
      ensures nbyte > maxMsgLen ==>
        && outbox == old(outbox) + [AckRecvPosted(dest),
                                    Isent(dest, RmiTag, ANNOUNCE_BYTES, Header(HugeMsgHandler, ATTR_UNORDERED),
                                          AnnounceInfo(rank, nbyte), None),
                                    AnnounceDone(dest),
                                    AckArrived(dest),
                                    Isent(dest, HugeDatTag, nbyte, Header(func, Stamped(attr, old(sendCounters[dest]))),
                                          data, StampOf(attr, old(sendCounters[dest])))]
        && stats == old(stats).(nmsgSent := old(stats).nmsgSent + 2, nbyteSent := old(stats).nbyteSent + ANNOUNCE_BYTES + nbyte)
    {
      if nbyte > maxMsgLen {
        SendHuge(data, nbyte, dest, func, attr);
        ok := true;
      } else if nbyte < HEADER_LEN {
        ok := false;
      } else {
        SendMsg(data, nbyte, dest, func, attr, RmiTag);
        ok := true;
      }
    }
  }
}
