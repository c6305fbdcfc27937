/** The invariant of the out-of-order queue against the receive slots, the
    steps of the insertion sort of the queue, and the steps of the
    compaction pass, stated on values so that the methods of the RMI class
    only have to relate their fields to them. */
module Queue {
  import opened Wire
  import opened Sequencer
  import opened Pool
  import opened Logs

  /** A queue entry as the server loop creates it: an ordered message for a
      user handler, from a known source, parked in a real slot. */
  predicate EntryOk(m: QMsg, nproc: nat, nrecv: nat) {
    && m.slot <= nrecv && m.src < nproc
    && m.func != HugeMsgHandler && IsOrdered(m.attr) && m.count == CountOf(m.attr)
  }

  /** A parked message holds its buffer: its slot has no receive outstanding,
      and a message parked in the reserved slot still has its huge buffer
      there. */
  predicate Holds(m: QMsg, p: Pool, nrecv: nat) {
    m.slot < |p.posted| && !p.posted[m.slot] && (m.slot == nrecv ==> p.staged.Some?)
  }

  predicate DistinctSlots(qs: seq<QMsg>) {
    forall j, k :: 0 <= j < k < |qs| ==> qs[j].slot != qs[k].slot
  }

  /** The invariant of the queue: well-formed entries, each holding its own
      slot. */
  predicate QueueOk(qs: seq<QMsg>, p: Pool, nproc: nat, nrecv: nat) {
    && (forall k :: 0 <= k < |qs| ==> EntryOk(qs[k], nproc, nrecv) && Holds(qs[k], p, nrecv))
    && DistinctSlots(qs)
  }

  /** The receive slots only gain outstanding receives, except slot `i`. */
  predicate PostedGrows(p: Pool, r: Pool, i: nat) {
    |r.posted| == |p.posted| && forall j :: 0 <= j < |p.posted| && j != i && p.posted[j] ==> r.posted[j]
  }

  /** The handler call of a delivery on the slots: the transport's own
      huge-message handler queues the announced transfer, any other handler
      is outside the transport. */
  function RunHandler(p: Pool, nrecv: nat, func: Handler, words: seq<SizeT>): (r: Pool)
    requires PoolOk(p, nrecv)
    requires func == HugeMsgHandler ==> |words| >= ANNOUNCE_WORDS
    ensures PoolOk(r, nrecv)
    ensures p.staged.Some? ==> r.posted == p.posted && r.staged == p.staged
    ensures r.posted == p.posted || r.posted == p.posted[nrecv := true]
    ensures func != HugeMsgHandler ==> r == p
    ensures func == HugeMsgHandler ==> Pending(r) == Pending(p) + [HugeInfo(words)]
  {
    if func == HugeMsgHandler then HugeArrived(p, HugeInfo(words), nrecv) else p
  }

  function Range(n: nat): (r: set<nat>)
    ensures forall x: int :: x in r <==> 0 <= x < n
    ensures |r| == n
  {
    if n == 0 then {} else Range(n - 1) + {n - 1}
  }

  function SlotSet(qs: seq<QMsg>): set<nat>
    decreases |qs|
  {
    if qs == [] then {} else {qs[0].slot} + SlotSet(qs[1..])
  }

  lemma {:induction false} SlotSetMembers(qs: seq<QMsg>)
    ensures forall x :: x in SlotSet(qs) <==> exists k :: 0 <= k < |qs| && qs[k].slot == x
    decreases |qs|
  {
    if qs != [] {
      var t := qs[1..];
      SlotSetMembers(t);
      forall x ensures x in SlotSet(qs) <==> exists k :: 0 <= k < |qs| && qs[k].slot == x {
        if x in SlotSet(t) {
          var k :| 0 <= k < |t| && t[k].slot == x;
          assert qs[k + 1].slot == x;
        }
        if exists k :: 0 <= k < |qs| && qs[k].slot == x {
          var k :| 0 <= k < |qs| && qs[k].slot == x;
          if k > 0 { assert t[k - 1].slot == x; }
        }
      }
    }
  }

  lemma {:induction false} SlotSetFacts(qs: seq<QMsg>)
    requires DistinctSlots(qs)
    ensures |SlotSet(qs)| == |qs|
    ensures forall x :: x in SlotSet(qs) <==> exists k :: 0 <= k < |qs| && qs[k].slot == x
    decreases |qs|
  {
    SlotSetMembers(qs);
    if qs != [] {
      var t := qs[1..];
      assert DistinctSlots(t) by {
        forall j, k | 0 <= j < k < |t| ensures t[j].slot != t[k].slot {
          assert qs[j + 1].slot != qs[k + 1].slot;
        }
      }
      SlotSetFacts(t);
      assert qs[0].slot !in SlotSet(t) by {
        forall k | 0 <= k < |t| ensures t[k].slot != qs[0].slot {
          assert qs[k + 1].slot != qs[0].slot;
        }
      }
    }
  }

  lemma {:induction false} SubsetCard(a: set<nat>, b: set<nat>)
    requires a <= b
    ensures |a| <= |b|
    decreases |b|
  {
    if a != {} {
      var x :| x in a;
      SubsetCard(a - {x}, b - {x});
    }
  }

  /** The queue cannot overflow: its entries hold distinct slots below `n`,
      and slot `free` is not among them, so fewer than `n` are queued. */
  lemma QueueHasRoom(qs: seq<QMsg>, n: nat, free: nat)
    requires DistinctSlots(qs)
    requires forall k :: 0 <= k < |qs| ==> qs[k].slot < n && qs[k].slot != free
    requires free < n
    ensures |qs| < n
  {
    SlotSetFacts(qs);
    assert SlotSet(qs) + {free} <= Range(n);
    assert free !in SlotSet(qs);
    SubsetCard(SlotSet(qs) + {free}, Range(n));
  }

  /** Reposting slot `i`, which no entry holds, keeps the invariants. */
  lemma RepostKeeps(qs: seq<QMsg>, p: Pool, nproc: nat, nrecv: nat, i: nat)
    requires PoolOk(p, nrecv) && QueueOk(qs, p, nproc, nrecv)
    requires i <= nrecv && !p.posted[i]
    requires forall k :: 0 <= k < |qs| ==> qs[k].slot != i
    ensures PoolOk(PostRecv(p, nrecv, i), nrecv)
    ensures QueueOk(qs, PostRecv(p, nrecv, i), nproc, nrecv)
    ensures PostedGrows(p, PostRecv(p, nrecv, i), i)
  {
  }

  /** Delivering a message that arrived in slot `i` on arrival (completion,
      handler call, repost) keeps the invariants, and the slots other than
      `i` only gain outstanding receives. */
  lemma DeliverKeeps(qs: seq<QMsg>, p: Pool, nproc: nat, nrecv: nat, i: nat, func: Handler, words: seq<SizeT>)
    requires PoolOk(p, nrecv) && QueueOk(qs, p, nproc, nrecv)
    requires i <= nrecv && p.posted[i]
    requires func == HugeMsgHandler ==> |words| >= ANNOUNCE_WORDS
    ensures var p1 := RunHandler(Complete(p, i), nrecv, func, words);
      && PoolOk(PostRecv(p1, nrecv, i), nrecv)
      && QueueOk(qs, PostRecv(p1, nrecv, i), nproc, nrecv)
      && PostedGrows(p, PostRecv(p1, nrecv, i), i)
  {
    var p0 := Complete(p, i);
    var p1 := RunHandler(p0, nrecv, func, words);
    assert QueueOk(qs, p1, nproc, nrecv) by {
      forall k | 0 <= k < |qs| ensures Holds(qs[k], p1, nrecv) {
        assert Holds(qs[k], p, nrecv);
        if qs[k].slot == nrecv {
          assert p0.staged.Some?;
        }
      }
    }
    if i == nrecv {
      assert p0.staged.Some?;
    }
    RepostKeeps(qs, p1, nproc, nrecv, i);
  }

  /** Parking a message that arrived in slot `i` keeps the invariants, and
      there was room for it. */
  lemma ParkKeeps(qs: seq<QMsg>, p: Pool, nproc: nat, nrecv: nat, m: QMsg)
    requires PoolOk(p, nrecv) && QueueOk(qs, p, nproc, nrecv)
    requires EntryOk(m, nproc, nrecv) && p.posted[m.slot]
    ensures |qs| < nrecv + 1
    ensures PoolOk(Complete(p, m.slot), nrecv)
    ensures QueueOk(qs + [m], Complete(p, m.slot), nproc, nrecv)
    ensures PostedGrows(p, Complete(p, m.slot), m.slot)
  {
    QueueHasRoom(qs, nrecv + 1, m.slot);
    var r := qs + [m];
    assert forall k :: 0 <= k < |qs| ==> r[k] == qs[k];
  }

  function Swap(s: seq<QMsg>, j: nat): (r: seq<QMsg>)
    requires j + 1 < |s|
    ensures |r| == |s|
  {
    s[j := s[j + 1]][j + 1 := s[j]]
  }

  /** The position `Swap(_, j)` takes entry `k` from. */
  function Swapped(k: nat, j: nat): nat {
    if k == j then j + 1 else if k == j + 1 then j else k
  }

  lemma SwapAt(qs: seq<QMsg>, j: nat, k: nat)
    requires j + 1 < |qs| && k < |qs|
    ensures Swapped(k, j) < |qs| && Swap(qs, j)[k] == qs[Swapped(k, j)]
  {
  }

  /** Exchanging two neighbours keeps the contents. */
  lemma SwapMultiset(qs: seq<QMsg>, j: nat)
    requires j + 1 < |qs|
    ensures multiset(Swap(qs, j)) == multiset(qs)
  {
    var a, b := qs[..j], qs[j + 2..];
    assert qs == a + [qs[j], qs[j + 1]] + b;
    assert Swap(qs, j) == a + [qs[j + 1], qs[j]] + b;
  }

  /** Exchanging two neighbours keeps the invariant and the contents. */
  lemma SwapKeeps(qs: seq<QMsg>, p: Pool, nproc: nat, nrecv: nat, j: nat)
    requires QueueOk(qs, p, nproc, nrecv) && j + 1 < |qs|
    ensures QueueOk(Swap(qs, j), p, nproc, nrecv)
    ensures multiset(Swap(qs, j)) == multiset(qs)
  {
    var t := Swap(qs, j);
    forall k | 0 <= k < |t| ensures EntryOk(t[k], nproc, nrecv) && Holds(t[k], p, nrecv) {
      SwapAt(qs, j, k);
    }
    forall a, b | 0 <= a < b < |t| ensures t[a].slot != t[b].slot {
      SwapAt(qs, j, a);
      SwapAt(qs, j, b);
      var a', b' := Swapped(a, j), Swapped(b, j);
      if a' < b' { assert qs[a'].slot != qs[b'].slot; } else { assert qs[b'].slot != qs[a'].slot; }
    }
    SwapMultiset(qs, j);
  }

  /** `s[..i+1]` is sorted by key, except that `s[j]` may be smaller than
      entries before it (the state of the inner loop of insertion sort). */
  predicate SortedExcept(s: seq<QMsg>, i: nat, j: nat, rc: seq<Count>, order: SortOrder)
    requires SrcsBelow(s, |rc|) && i < |s|
  {
    forall a, b :: 0 <= a < b <= i && b != j ==> Key(s[a], rc, order) <= Key(s[b], rc, order)
  }

  /** `s[..i]` is sorted by key. */
  predicate SortedPrefix(s: seq<QMsg>, i: nat, rc: seq<Count>, order: SortOrder)
    requires SrcsBelow(s, |rc|) && i <= |s|
  {
    forall a, b :: 0 <= a < b < i ==> Key(s[a], rc, order) <= Key(s[b], rc, order)
  }

  /** A prefix sorted to the end is the whole queue sorted. */
  lemma SortedPrefixAll(s: seq<QMsg>, rc: seq<Count>, order: SortOrder)
    requires SrcsBelow(s, |rc|) && SortedPrefix(s, |s|, rc, order)
    ensures SortedBy(s, rc, order)
  {
  }

  lemma InsertStart(s: seq<QMsg>, i: nat, rc: seq<Count>, order: SortOrder)
    requires SrcsBelow(s, |rc|) && i < |s|
    requires SortedPrefix(s, i, rc, order)
    ensures SortedExcept(s, i, i, rc, order)
  {
  }

  /** Moving `s[j]` one place down while it is smaller than its neighbour. */
  lemma InsertSwap(s: seq<QMsg>, i: nat, j: nat, rc: seq<Count>, order: SortOrder)
    requires SrcsBelow(s, |rc|) && 0 < j <= i < |s|
    requires SortedExcept(s, i, j, rc, order)
    requires Key(s[j - 1], rc, order) > Key(s[j], rc, order)
    ensures SrcsBelow(Swap(s, j - 1), |rc|)
    ensures SortedExcept(Swap(s, j - 1), i, j - 1, rc, order)
  {
    var t := Swap(s, j - 1);
    assert forall k :: 0 <= k < |t| ==> t[k] == s[if k == j - 1 then j else if k == j then j - 1 else k];
  }

  /** Once `s[j]` is not smaller than its neighbour, `s[..i+1]` is sorted. */
  lemma InsertDone(s: seq<QMsg>, i: nat, j: nat, rc: seq<Count>, order: SortOrder)
    requires SrcsBelow(s, |rc|) && j <= i < |s|
    requires SortedExcept(s, i, j, rc, order)
    requires j > 0 ==> Key(s[j - 1], rc, order) <= Key(s[j], rc, order)
    ensures SortedPrefix(s, i + 1, rc, order)
  {
    forall a, b | 0 <= a < b <= i ensures Key(s[a], rc, order) <= Key(s[b], rc, order) {
      if b == j && a < j - 1 {
        assert Key(s[a], rc, order) <= Key(s[j - 1], rc, order);
      }
    }
  }

  /** One round of the insertion sort, the entry that was at position `i`
      having moved down to `s[j]`: the queue invariant is kept, and
      `s[..i+1]` is sorted but for position `j`. */
  predicate Inserting(s: seq<QMsg>, i: nat, j: nat, p: Pool, rc: seq<Count>, order: SortOrder, nproc: nat, nrecv: nat) {
    && j <= i < |s| && QueueOk(s, p, nproc, nrecv) && SrcsBelow(s, |rc|)
    && SortedExcept(s, i, j, rc, order)
  }

  lemma InsertingStart(s: seq<QMsg>, i: nat, p: Pool, rc: seq<Count>, order: SortOrder, nproc: nat, nrecv: nat)
    requires QueueOk(s, p, nproc, nrecv) && SrcsBelow(s, |rc|) && i < |s|
    requires SortedPrefix(s, i, rc, order)
    ensures Inserting(s, i, i, p, rc, order, nproc, nrecv)
  {
    InsertStart(s, i, rc, order);
  }

  /** Moving the entry one place down keeps the round's invariant and the
      contents of the queue. */
  lemma InsertingStep(s: seq<QMsg>, i: nat, j: nat, p: Pool, rc: seq<Count>, order: SortOrder, nproc: nat, nrecv: nat)
    requires Inserting(s, i, j, p, rc, order, nproc, nrecv) && 0 < j
    requires Key(s[j - 1], rc, order) > Key(s[j], rc, order)
    ensures Inserting(Swap(s, j - 1), i, j - 1, p, rc, order, nproc, nrecv)
    ensures multiset(Swap(s, j - 1)) == multiset(s)
  {
    InsertSwap(s, i, j, rc, order);
    SwapKeeps(s, p, nproc, nrecv, j - 1);
  }

  lemma InsertingDone(s: seq<QMsg>, i: nat, j: nat, p: Pool, rc: seq<Count>, order: SortOrder, nproc: nat, nrecv: nat)
    requires Inserting(s, i, j, p, rc, order, nproc, nrecv)
    requires j > 0 ==> Key(s[j - 1], rc, order) <= Key(s[j], rc, order)
    ensures QueueOk(s, p, nproc, nrecv) && SortedPrefix(s, i + 1, rc, order)
  {
    InsertDone(s, i, j, rc, order);
  }

  /** The compaction pass has visited `orig[..m]` with counters now `rc`,
      keeping `kept` and delivering `done`, and visiting the rest gives the
      result of the whole pass. */
  predicate DrainSoFar(orig: seq<QMsg>, rc0: seq<Count>, m: nat, rc: seq<Count>, kept: seq<QMsg>, done: seq<QMsg>) {
    && SrcsBelow(orig, |rc0|) && m <= |orig| && |rc| == |rc0|
    && SrcsBelow(orig[m..], |rc|)
    && Drain(orig, rc0) == (var r := Drain(orig[m..], rc); DrainResult(kept + r.kept, done + r.delivered, r.counters))
  }

  lemma DrainSoFarStart(orig: seq<QMsg>, rc0: seq<Count>)
    requires SrcsBelow(orig, |rc0|)
    ensures DrainSoFar(orig, rc0, 0, rc0, [], [])
  {
    assert orig[0..] == orig;
  }

  /** One visit of the compaction pass. */
  lemma DrainSoFarStep(orig: seq<QMsg>, rc0: seq<Count>, m: nat, rc: seq<Count>, kept: seq<QMsg>, done: seq<QMsg>)
    requires DrainSoFar(orig, rc0, m, rc, kept, done) && m < |orig|
    ensures orig[m].src < |rc|
    ensures orig[m].count == rc[orig[m].src] ==>
      DrainSoFar(orig, rc0, m + 1, rc[orig[m].src := Inc(orig[m].count)], kept, done + [orig[m]])
    ensures orig[m].count != rc[orig[m].src] ==>
      DrainSoFar(orig, rc0, m + 1, rc, kept + [orig[m]], done)
  {
    var rest := orig[m..];
    assert rest[0] == orig[m];
    assert rest[1..] == orig[m + 1..];
  }

  lemma DrainSoFarEnd(orig: seq<QMsg>, rc0: seq<Count>, rc: seq<Count>, kept: seq<QMsg>, done: seq<QMsg>)
    requires DrainSoFar(orig, rc0, |orig|, rc, kept, done)
    ensures Drain(orig, rc0) == DrainResult(kept, done, rc)
  {
    assert orig[|orig|..] == [];
  }

  /** Taking entry `x` out of the middle of the queue keeps the invariant of
      the rest, and no other entry holds its slot. */
  lemma DropKeeps(a: seq<QMsg>, x: QMsg, b: seq<QMsg>, p: Pool, nproc: nat, nrecv: nat)
    requires QueueOk(a + [x] + b, p, nproc, nrecv)
    ensures QueueOk(a + b, p, nproc, nrecv)
    ensures EntryOk(x, nproc, nrecv) && Holds(x, p, nrecv)
    ensures forall k :: 0 <= k < |a + b| ==> (a + b)[k].slot != x.slot
  {
    var s := a + [x] + b;
    var t := a + b;
    assert s[|a|] == x;
    assert forall k :: 0 <= k < |t| ==> t[k] == s[if k < |a| then k else k + 1];
    forall j, k | 0 <= j < k < |t| ensures t[j].slot != t[k].slot {
      var j' := if j < |a| then j else j + 1;
      var k' := if k < |a| then k else k + 1;
      assert s[j'].slot != s[k'].slot;
    }
    forall k | 0 <= k < |t| ensures t[k].slot != x.slot {
      var k' := if k < |a| then k else k + 1;
      if k' < |a| { assert s[k'].slot != s[|a|].slot; } else { assert s[|a|].slot != s[k'].slot; }
    }
  }

  /** The handler call the delivery of `m` from the queue makes. */
  function ToDelivery(m: QMsg): Delivery {
    Delivery(m.src, m.slot, m.len, m.func, m.attr)
  }

  function Deliveries(ms: seq<QMsg>): (r: seq<Delivery>)
    ensures |r| == |ms|
    decreases |ms|
  {
    if ms == [] then [] else Deliveries(ms[..|ms| - 1]) + [ToDelivery(ms[|ms| - 1])]
  }

  function SlotsOf(ms: seq<QMsg>): (r: seq<nat>)
    ensures |r| == |ms|
    decreases |ms|
  {
    if ms == [] then [] else SlotsOf(ms[..|ms| - 1]) + [ms[|ms| - 1].slot]
  }

  lemma DeliveriesSnoc(ms: seq<QMsg>, m: QMsg)
    ensures Deliveries(ms + [m]) == Deliveries(ms) + [ToDelivery(m)]
    ensures SlotsOf(ms + [m]) == SlotsOf(ms) + [m.slot]
  {
    assert (ms + [m])[..|ms|] == ms;
  }

  /** The state of the compaction pass after visiting `orig[..m]`, the queue
      it started from with counters `rc0`, slots `p0` and handler log `log0`:
      the counters are `rc`, the slots `p` and the log `log`, the entries of
      `done` were delivered in order and their slots reposted, the entries of
      `kept` are left, and the invariants hold of what is left and not yet
      visited. `Rmi.DrainAt` is the same stage with the layout of the queue
      array in place of the invariants. */
  ghost predicate DrainState(orig: seq<QMsg>, rc0: seq<Count>, p0: Pool, log0: seq<Delivery>, m: nat,
                             kept: seq<QMsg>, done: seq<QMsg>, rc: seq<Count>, p: Pool, log: seq<Delivery>,
                             nproc: nat, nrecv: nat)
  {
    && |rc| == nproc && DrainSoFar(orig, rc0, m, rc, kept, done)
    && log == log0 + Deliveries(done)
    && |p0.posted| == nrecv + 1 && p == PostAll(p0, nrecv, SlotsOf(done))
    && PoolOk(p, nrecv) && QueueOk(kept + orig[m..], p, nproc, nrecv)
    && InOrder(log, rc)
  }

  lemma DrainStart(orig: seq<QMsg>, rc0: seq<Count>, p0: Pool, log0: seq<Delivery>, nproc: nat, nrecv: nat)
    requires |rc0| == nproc && PoolOk(p0, nrecv) && QueueOk(orig, p0, nproc, nrecv) && InOrder(log0, rc0)
    ensures DrainState(orig, rc0, p0, log0, 0, [], [], rc0, p0, log0, nproc, nrecv)
  {
    DrainSoFarStart(orig, rc0);
    assert orig[0..] == orig;
  }

  /** One visit of the compaction pass, to `orig[m]`: deliver it when its
      count is the one due from its source (advance the counter, call the
      handler, repost its slot), keep it otherwise. */
  lemma DrainVisit(orig: seq<QMsg>, rc0: seq<Count>, p0: Pool, log0: seq<Delivery>, m: nat,
                   kept: seq<QMsg>, done: seq<QMsg>, rc: seq<Count>, p: Pool, log: seq<Delivery>,
                   nproc: nat, nrecv: nat)
    requires DrainState(orig, rc0, p0, log0, m, kept, done, rc, p, log, nproc, nrecv) && m < |orig|
    ensures orig[m].src < |rc|
    ensures orig[m].count == rc[orig[m].src] ==>
      DrainState(orig, rc0, p0, log0, m + 1, kept, done + [orig[m]], rc[orig[m].src := Inc(orig[m].count)],
                 PostRecv(p, nrecv, orig[m].slot), log + [ToDelivery(orig[m])], nproc, nrecv)
    ensures orig[m].count != rc[orig[m].src] ==>
      DrainState(orig, rc0, p0, log0, m + 1, kept + [orig[m]], done, rc, p, log, nproc, nrecv)
  {
    var x := orig[m];
    assert orig[m..] == [x] + orig[m + 1..];
    assert kept + orig[m..] == kept + [x] + orig[m + 1..];
    DropKeeps(kept, x, orig[m + 1..], p, nproc, nrecv);
    DrainSoFarStep(orig, rc0, m, rc, kept, done);
    if x.count == rc[x.src] {
      InOrderStep(log, rc, ToDelivery(x));
      RepostKeeps(kept + orig[m + 1..], p, nproc, nrecv, x.slot);
      DeliveriesSnoc(done, x);
      PostAllSnoc(p0, nrecv, SlotsOf(done), x.slot);
    } else {
      assert (kept + [x]) + orig[m + 1..] == kept + [x] + orig[m + 1..];
    }
  }

  lemma DrainEnd(orig: seq<QMsg>, rc0: seq<Count>, p0: Pool, log0: seq<Delivery>,
                 kept: seq<QMsg>, done: seq<QMsg>, rc: seq<Count>, p: Pool, log: seq<Delivery>,
                 nproc: nat, nrecv: nat)
    requires DrainState(orig, rc0, p0, log0, |orig|, kept, done, rc, p, log, nproc, nrecv)
    ensures Drain(orig, rc0) == DrainResult(kept, done, rc)
    ensures QueueOk(kept, p, nproc, nrecv)
  {
    DrainSoFarEnd(orig, rc0, rc, kept, done);
    assert kept + orig[|orig|..] == kept;
  }

  lemma {:induction false} DrainFrom(orig: seq<QMsg>, rc0: seq<Count>, p0: Pool, log0: seq<Delivery>, m: nat,
                                     kept: seq<QMsg>, done: seq<QMsg>, rc: seq<Count>, p: Pool, log: seq<Delivery>,
                                     nproc: nat, nrecv: nat)
    requires DrainState(orig, rc0, p0, log0, m, kept, done, rc, p, log, nproc, nrecv)
    ensures var r := Drain(orig, rc0);
      var pf := PostAll(p0, nrecv, SlotsOf(r.delivered));
      && PoolOk(pf, nrecv) && QueueOk(r.kept, pf, nproc, nrecv)
      && InOrder(log0 + Deliveries(r.delivered), r.counters)
    decreases |orig| - m
  {
    if m == |orig| {
      DrainEnd(orig, rc0, p0, log0, kept, done, rc, p, log, nproc, nrecv);
    } else {
      var x := orig[m];
      DrainVisit(orig, rc0, p0, log0, m, kept, done, rc, p, log, nproc, nrecv);
      if x.count == rc[x.src] {
        DrainFrom(orig, rc0, p0, log0, m + 1, kept, done + [x], rc[x.src := Inc(x.count)],
                  PostRecv(p, nrecv, x.slot), log + [ToDelivery(x)], nproc, nrecv);
      } else {
        DrainFrom(orig, rc0, p0, log0, m + 1, kept + [x], done, rc, p, log, nproc, nrecv);
      }
    }
  }

  /** The compaction pass keeps the invariants: after it the slots are
      consistent, every entry left still holds its own slot, and each
      source's ordered messages have reached their handlers in order. */
  lemma DrainKeepsInvariants(orig: seq<QMsg>, rc0: seq<Count>, p0: Pool, log0: seq<Delivery>, nproc: nat, nrecv: nat)
    requires |rc0| == nproc && PoolOk(p0, nrecv) && QueueOk(orig, p0, nproc, nrecv) && InOrder(log0, rc0)
    ensures SrcsBelow(orig, |rc0|)
    ensures var r := Drain(orig, rc0);
      var pf := PostAll(p0, nrecv, SlotsOf(r.delivered));
      && PoolOk(pf, nrecv) && QueueOk(r.kept, pf, nproc, nrecv)
      && InOrder(log0 + Deliveries(r.delivered), r.counters)
  {
    DrainStart(orig, rc0, p0, log0, nproc, nrecv);
    DrainFrom(orig, rc0, p0, log0, 0, [], [], rc0, p0, log0, nproc, nrecv);
  }
}
