/** The receiving side's sequencing of ordered messages: the entries of the
    out-of-order queue, the orders the queue is sorted in, and the single
    compaction pass that delivers each entry whose count is due when the
    pass reaches it. */
module Sequencer {
  import opened Wire

  /** An entry of the out-of-order queue (`qmsg`): a message that arrived in
      buffer slot `slot` from `src` before its turn. */
  datatype QMsg = QMsg(len: nat, func: Handler, slot: nat, src: nat, attr: Attr, count: Count)

  predicate SrcsBelow(qs: seq<QMsg>, n: nat) {
    forall i :: 0 <= i < |qs| ==> qs[i].src < n
  }

  /** The order `std::sort` leaves the queue in as written: ascending count. */
  predicate SortedByCount(qs: seq<QMsg>) {
    forall i, j :: 0 <= i < j < |qs| ==> qs[i].count <= qs[j].count
  }

  /** `a - b` on `unsigned short` values: wraps below 0. */
  function Diff(a: Count, b: Count): (r: Count)
    ensures (b + r) % 0x1_0000 == a
  {
    if a >= b then a - b else a - b + 0x1_0000
  }

  /** How far an entry is ahead of the count its source is expected to send
      next, modulo 2^16. */
  function Distance(m: QMsg, rc: seq<Count>): Count
    requires m.src < |rc|
  {
    Diff(m.count, rc[m.src])
  }

  /** The corrected order: ascending distance from the receive counters the
      queue is sorted against. Where no count of a source has wrapped past
      its counter this orders each source's entries as SortedByCount does. */
  predicate SortedByDistance(qs: seq<QMsg>, rc: seq<Count>)
    requires SrcsBelow(qs, |rc|)
  {
    forall i, j :: 0 <= i < j < |qs| ==> Distance(qs[i], rc) <= Distance(qs[j], rc)
  }

  /** The order the queue is sorted in before the pass: by raw count, as
      the comparator of the source does, or by distance from the counters,
      the correction of that order. */
  datatype SortOrder = ByCount | ByDistance

  /** The sort key of an entry under `order`, its source's receive counter
      being `c`. */
  function SortKey(m: QMsg, c: Count, order: SortOrder): Count {
    match order
    case ByCount => m.count
    case ByDistance => Diff(m.count, c)
  }

  /** The sort key of an entry under `order` against the receive counters. */
  function Key(m: QMsg, rc: seq<Count>, order: SortOrder): Count
    requires m.src < |rc|
  {
    SortKey(m, rc[m.src], order)
  }

  /** Sorted by the key of `order`. This is the one form both orders share,
      which the sort of the queue is proved against; `SortedByCount` and
      `SortedByDistance` above state each order in its own terms, which the
      one-pass lemmas below reason with, and `SortedByMeans` shows the two
      forms agree. */
  predicate SortedBy(qs: seq<QMsg>, rc: seq<Count>, order: SortOrder)
    requires SrcsBelow(qs, |rc|)
  {
    forall i, j :: 0 <= i < j < |qs| ==> Key(qs[i], rc, order) <= Key(qs[j], rc, order)
  }

  /** Sorted by key is sorted by count, or sorted by distance. */
  lemma SortedByMeans(qs: seq<QMsg>, rc: seq<Count>, order: SortOrder)
    requires SrcsBelow(qs, |rc|)
    ensures order == ByCount ==> (SortedBy(qs, rc, order) <==> SortedByCount(qs))
    ensures order == ByDistance ==> (SortedBy(qs, rc, order) <==> SortedByDistance(qs, rc))
  {
  }

  /** No entry left in the queue is deliverable under the counters. */
  predicate Settled(qs: seq<QMsg>, rc: seq<Count>)
    requires SrcsBelow(qs, |rc|)
  {
    forall i :: 0 <= i < |qs| ==> qs[i].count != rc[qs[i].src]
  }

  datatype DrainResult = DrainResult(kept: seq<QMsg>, delivered: seq<QMsg>, counters: seq<Count>)

  /** One pass over the queue in its current order: an entry whose count
      equals its source's counter at the moment it is visited is delivered
      and advances that counter; every other entry is kept. */
  function Drain(qs: seq<QMsg>, rc: seq<Count>): (r: DrainResult)
    requires SrcsBelow(qs, |rc|)
    ensures |r.counters| == |rc|
    ensures |r.kept| + |r.delivered| == |qs|
    ensures SrcsBelow(r.kept, |rc|) && SrcsBelow(r.delivered, |rc|)
    decreases |qs|
  {
    if qs == [] then DrainResult([], [], rc)
    else
      var m := qs[0];
      if m.count == rc[m.src] then
        var r := Drain(qs[1..], rc[m.src := Inc(m.count)]);
        DrainResult(r.kept, [m] + r.delivered, r.counters)
      else
        var r := Drain(qs[1..], rc);
        DrainResult([m] + r.kept, r.delivered, r.counters)
  }

  /** `a` is `b` with some elements removed, the rest in their order. */
  predicate Subseq(a: seq<QMsg>, b: seq<QMsg>)
    decreases |b|
  {
    if a == [] then true
    else if b == [] then false
    else (a[0] == b[0] && Subseq(a[1..], b[1..])) || Subseq(a, b[1..])
  }

  lemma {:induction false} SubseqMembers(a: seq<QMsg>, b: seq<QMsg>)
    requires Subseq(a, b)
    ensures forall i :: 0 <= i < |a| ==> a[i] in b
    decreases |b|
  {
    if a != [] {
      if a[0] == b[0] && Subseq(a[1..], b[1..]) {
        SubseqMembers(a[1..], b[1..]);
        forall i | 0 <= i < |a| ensures a[i] in b {
          if i > 0 { assert a[i] == a[1..][i - 1]; }
        }
      } else {
        SubseqMembers(a, b[1..]);
      }
    }
  }

  /** The drain neither loses nor duplicates an entry. */
  lemma {:induction false} DrainPartitions(qs: seq<QMsg>, rc: seq<Count>)
    requires SrcsBelow(qs, |rc|)
    ensures multiset(Drain(qs, rc).kept) + multiset(Drain(qs, rc).delivered) == multiset(qs)
    decreases |qs|
  {
    if qs != [] {
      var m := qs[0];
      assert qs == [m] + qs[1..];
      if m.count == rc[m.src] {
        DrainPartitions(qs[1..], rc[m.src := Inc(m.count)]);
      } else {
        DrainPartitions(qs[1..], rc);
      }
    }
  }

  /** The kept entries and the delivered entries each keep their relative
      order in the queue. */
  lemma {:induction false} DrainKeepsOrder(qs: seq<QMsg>, rc: seq<Count>)
    requires SrcsBelow(qs, |rc|)
    ensures Subseq(Drain(qs, rc).kept, qs)
    ensures Subseq(Drain(qs, rc).delivered, qs)
    decreases |qs|
  {
    if qs != [] {
      var m := qs[0];
      var rc' := if m.count == rc[m.src] then rc[m.src := Inc(m.count)] else rc;
      var t := Drain(qs[1..], rc');
      DrainKeepsOrder(qs[1..], rc');
      if m.count == rc[m.src] {
        assert ([m] + t.delivered)[1..] == t.delivered;
      } else {
        assert ([m] + t.kept)[1..] == t.kept;
      }
    }
  }

  /** A queue sorted by count stays sorted by count after the pass. */
  lemma {:induction false} DrainKeepsCountOrder(qs: seq<QMsg>, rc: seq<Count>)
    requires SrcsBelow(qs, |rc|)
    requires SortedByCount(qs)
    ensures SortedByCount(Drain(qs, rc).kept)
    decreases |qs|
  {
    if qs != [] {
      var m := qs[0];
      var rc' := if m.count == rc[m.src] then rc[m.src := Inc(m.count)] else rc;
      var t := Drain(qs[1..], rc');
      DrainKeepsCountOrder(qs[1..], rc');
      if m.count != rc[m.src] {
        DrainKeepsOrder(qs[1..], rc');
        SubseqMembers(t.kept, qs[1..]);
        HeadBelow(qs);
        ConsSorted(m, t.kept);
      }
    }
  }

  lemma HeadBelow(qs: seq<QMsg>)
    requires SortedByCount(qs) && qs != []
    ensures forall x :: x in qs[1..] ==> qs[0].count <= x.count
  {
    forall x | x in qs[1..] ensures qs[0].count <= x.count {
      var w :| 0 <= w < |qs[1..]| && qs[1..][w] == x;
      assert qs[w + 1] == x;
    }
  }

  lemma ConsSorted(m: QMsg, t: seq<QMsg>)
    requires SortedByCount(t)
    requires forall i :: 0 <= i < |t| ==> m.count <= t[i].count
    ensures SortedByCount([m] + t)
  {
    var k := [m] + t;
    forall i, j | 0 <= i < j < |k| ensures k[i].count <= k[j].count {
      assert k[j] == t[j - 1];
      if i > 0 { assert k[i] == t[i - 1]; }
    }
  }

  /** `c, c+1, ..., c+k-1`, modulo 2^16. */
  function Run(c: Count, k: nat): (r: seq<Count>)
    ensures |r| == k
    decreases k
  {
    if k == 0 then [] else [c] + Run(Inc(c), k - 1)
  }

  /** `c + k`, modulo 2^16. */
  function Advance(c: Count, k: nat): Count
    decreases k
  {
    if k == 0 then c else Advance(Inc(c), k - 1)
  }

  lemma {:induction false} RunConcat(c: Count, j: nat, k: nat)
    ensures Run(c, j) + Run(Advance(c, j), k) == Run(c, j + k)
    ensures Advance(Advance(c, j), k) == Advance(c, j + k)
    decreases j
  {
    if j > 0 {
      RunConcat(Inc(c), j - 1, k);
      assert Run(c, j) + Run(Advance(c, j), k) == [c] + (Run(Inc(c), j - 1) + Run(Advance(Inc(c), j - 1), k));
    }
  }

  lemma RunSnoc(c: Count, k: nat)
    ensures Run(c, k) + [Advance(c, k)] == Run(c, k + 1)
    ensures Inc(Advance(c, k)) == Advance(c, k + 1)
  {
    RunConcat(c, k, 1);
    assert Run(Advance(c, k), 1) == [Advance(c, k)];
    assert Advance(Advance(c, k), 1) == Inc(Advance(c, k));
  }

  /** The i-th element of a run is the start advanced i times. */
  lemma {:induction false} RunIndex(c: Count, k: nat, i: nat)
    requires i < k
    ensures Run(c, k)[i] == Advance(c, i)
    decreases k
  {
    if i > 0 {
      RunIndex(Inc(c), k - 1, i - 1);
    }
  }

  /** Counts of the entries from `s`, in order. */
  function CountsFrom(ms: seq<QMsg>, s: nat): (r: seq<Count>)
    ensures |r| <= |ms|
  {
    if ms == [] then []
    else (if ms[0].src == s then [ms[0].count] else []) + CountsFrom(ms[1..], s)
  }

  lemma {:induction false} CountsFromConcat(a: seq<QMsg>, b: seq<QMsg>, s: nat)
    ensures CountsFrom(a + b, s) == CountsFrom(a, s) + CountsFrom(b, s)
    decreases |a|
  {
    if a == [] {
      assert a + b == b;
    } else {
      var ab := a + b;
      assert ab[0] == a[0];
      assert ab[1..] == a[1..] + b;
      CountsFromConcat(a[1..], b, s);
      var h := if a[0].src == s then [a[0].count] else [];
      assert CountsFrom(ab, s) == h + CountsFrom(a[1..] + b, s);
      assert CountsFrom(a, s) == h + CountsFrom(a[1..], s);
    }
  }

  /** The pass delivers exactly the run of counts each source is at: the
      entries it delivers from `s` carry `rc[s], rc[s]+1, ...` in that order,
      and the counter of `s` has advanced once per delivery. */
  lemma {:induction false} DrainDeliversRuns(qs: seq<QMsg>, rc: seq<Count>, s: nat)
    requires SrcsBelow(qs, |rc|)
    requires s < |rc|
    ensures CountsFrom(Drain(qs, rc).delivered, s) == Run(rc[s], |CountsFrom(Drain(qs, rc).delivered, s)|)
    ensures Drain(qs, rc).counters[s] == Advance(rc[s], |CountsFrom(Drain(qs, rc).delivered, s)|)
    decreases |qs|
  {
    if qs != [] {
      var m := qs[0];
      if m.count == rc[m.src] {
        var rc' := rc[m.src := Inc(m.count)];
        DrainDeliversRuns(qs[1..], rc', s);
        var d := Drain(qs, rc).delivered;
        assert d[1..] == Drain(qs[1..], rc').delivered;
        if m.src == s {
          var k := |CountsFrom(d[1..], s)|;
          assert CountsFrom(d, s) == [rc[s]] + Run(Inc(rc[s]), k);
        }
      } else {
        DrainDeliversRuns(qs[1..], rc, s);
      }
    }
  }

  /** The counters of sources with no deliveries are unchanged. */
  lemma {:induction false} DrainCountersOnlyAdvance(qs: seq<QMsg>, rc: seq<Count>, s: nat)
    requires SrcsBelow(qs, |rc|)
    requires s < |rc|
    requires CountsFrom(Drain(qs, rc).delivered, s) == []
    ensures Drain(qs, rc).counters[s] == rc[s]
  {
    DrainDeliversRuns(qs, rc, s);
  }

  // ---- One pass suffices: as written (sort by count) and corrected ----

  lemma {:induction false} CountPassAux(ys: seq<QMsg>, rc: seq<Count>, s: nat, c: Count)
    requires SrcsBelow(ys, |rc|) && s < |rc|
    requires forall i :: 0 <= i < |ys| && ys[i].src == s ==> c <= ys[i].count < 0xFFFF
    ensures Drain(ys, rc).counters[s] == rc[s] || Drain(ys, rc).counters[s] > c
    decreases |ys|
  {
    if ys != [] {
      var y := ys[0];
      if y.count == rc[y.src] {
        CountPassAux(ys[1..], rc[y.src := Inc(y.count)], s, c);
      } else {
        CountPassAux(ys[1..], rc, s, c);
      }
    }
  }

  /** As written, one pass after sorting by count leaves nothing deliverable
      in the queue provided no queued count is 0xFFFF. */
  lemma {:induction false} CountSortOnePassWithoutWrap(qs: seq<QMsg>, rc: seq<Count>)
    requires SrcsBelow(qs, |rc|)
    requires SortedByCount(qs)
    requires forall i :: 0 <= i < |qs| ==> qs[i].count < 0xFFFF
    ensures Settled(Drain(qs, rc).kept, Drain(qs, rc).counters)
    decreases |qs|
  {
    if qs != [] {
      var m := qs[0];
      if m.count == rc[m.src] {
        CountSortOnePassWithoutWrap(qs[1..], rc[m.src := Inc(m.count)]);
      } else {
        CountSortOnePassWithoutWrap(qs[1..], rc);
        CountPassAux(qs[1..], rc, m.src, m.count);
        var r := Drain(qs, rc);
        var t := Drain(qs[1..], rc);
        forall i | 0 <= i < |r.kept| ensures r.kept[i].count != r.counters[r.kept[i].src] {
          if i > 0 { assert r.kept[i] == t.kept[i - 1]; }
        }
      }
    }
  }

  /** At the wrap, the pass as written leaves a deliverable entry behind.
      Source 0 expects 0xFFFF and has two entries queued, counts 0 and
      0xFFFF. Sorted by count, 0 comes first and is kept; 0xFFFF is then
      delivered and the counter wraps to 0, but the pass is over, so the
      entry with count 0 waits for the next batch of arrivals, which may
      never come. Sorted by distance, the same entries are both delivered. */
  lemma WrapLeavesDeliverableEntry()
    ensures var a := QMsg(0, UserHandler(0), 0, 0, 0x0000_0001, 0);
            var b := QMsg(0, UserHandler(0), 1, 0, 0xFFFF_0001, 0xFFFF);
            var rc := [0xFFFF];
            && SortedByCount([a, b])
            && Drain([a, b], rc).kept == [a]
            && Drain([a, b], rc).counters == [0]
            && !Settled(Drain([a, b], rc).kept, Drain([a, b], rc).counters)
            && SortedByDistance([b, a], rc)
            && Drain([b, a], rc).kept == []
  {
    var a := QMsg(0, UserHandler(0), 0, 0, 0x0000_0001, 0);
    var b := QMsg(0, UserHandler(0), 1, 0, 0xFFFF_0001, 0xFFFF);
    var rc := [0xFFFF];
    assert [a, b][1..] == [b];
    assert [b, a][1..] == [a];
    assert Inc(0xFFFF) == 0;
    assert Drain([b], rc) == DrainResult([], [b], [0]);
    assert Drain([a, b], rc) == DrainResult([a], [b], [0]);
    assert Drain([a], [0]) == DrainResult([], [a], [1]);
  }

  /** Away from the wrap the two orders deliver the same messages of each
      source, but interleave the sources differently: with counters 6 and
      101, and counts 6 and 7 queued from source 0 and 101 from source 1,
      sorted by count the handlers of source 0 both run before that of
      source 1; sorted by distance source 1 comes between them. */
  lemma SortOrdersInterleaveDifferently(a: QMsg, b: QMsg, c: QMsg, rc: seq<Count>)
    requires a == QMsg(0, UserHandler(0), 0, 0, 0x0006_0001, 6)
    requires b == QMsg(0, UserHandler(0), 1, 0, 0x0007_0001, 7)
    requires c == QMsg(0, UserHandler(0), 2, 1, 0x0065_0001, 101)
    requires rc == [6, 101]
    ensures SortedBy([a, b, c], rc, ByCount) && !SortedBy([a, b, c], rc, ByDistance)
    ensures Drain([a, b, c], rc).delivered == [a, b, c]
    ensures SortedBy([a, c, b], rc, ByDistance) && !SortedBy([a, c, b], rc, ByCount)
    ensures Drain([a, c, b], rc).delivered == [a, c, b]
  {
    ExampleOrders(a, b, c, rc);
    ExampleDrains(a, b, c, rc);
  }

  lemma ExampleOrders(a: QMsg, b: QMsg, c: QMsg, rc: seq<Count>)
    requires a == QMsg(0, UserHandler(0), 0, 0, 0x0006_0001, 6)
    requires b == QMsg(0, UserHandler(0), 1, 0, 0x0007_0001, 7)
    requires c == QMsg(0, UserHandler(0), 2, 1, 0x0065_0001, 101)
    requires rc == [6, 101]
    ensures SortedBy([a, b, c], rc, ByCount) && !SortedBy([a, b, c], rc, ByDistance)
    ensures SortedBy([a, c, b], rc, ByDistance) && !SortedBy([a, c, b], rc, ByCount)
  {
    assert Key(a, rc, ByDistance) == 0 && Key(b, rc, ByDistance) == 1 && Key(c, rc, ByDistance) == 0;
    var byCount, byDistance := [a, b, c], [a, c, b];
    forall i, j | 0 <= i < j < 3 ensures Key(byCount[i], rc, ByCount) <= Key(byCount[j], rc, ByCount) {
    }
    forall i, j | 0 <= i < j < 3 ensures Key(byDistance[i], rc, ByDistance) <= Key(byDistance[j], rc, ByDistance) {
    }
    assert Key(byCount[1], rc, ByDistance) > Key(byCount[2], rc, ByDistance);
    assert Key(byDistance[1], rc, ByCount) > Key(byDistance[2], rc, ByCount);
  }

  lemma ExampleDrains(a: QMsg, b: QMsg, c: QMsg, rc: seq<Count>)
    requires a == QMsg(0, UserHandler(0), 0, 0, 0x0006_0001, 6)
    requires b == QMsg(0, UserHandler(0), 1, 0, 0x0007_0001, 7)
    requires c == QMsg(0, UserHandler(0), 2, 1, 0x0065_0001, 101)
    requires rc == [6, 101]
    ensures Drain([a, b, c], rc).delivered == [a, b, c]
    ensures Drain([a, c, b], rc).delivered == [a, c, b]
  {
    assert [a, b, c][1..] == [b, c] && [b, c][1..] == [c] && [c][1..] == [];
    assert [a, c, b][1..] == [c, b] && [c, b][1..] == [b] && [b][1..] == [];
    assert rc[0 := 7] == [7, 101] && [7, 101][0 := 8] == [8, 101] && [8, 101][1 := 102] == [8, 102];
    assert [7, 101][1 := 102] == [7, 102] && [7, 102][0 := 8] == [8, 102];
    assert Drain([], [8, 102]) == DrainResult([], [], [8, 102]);
    assert Drain([c], [8, 101]) == DrainResult([], [c], [8, 102]);
    assert Drain([b, c], [7, 101]) == DrainResult([], [b, c], [8, 102]);
    assert Drain([b], [7, 102]) == DrainResult([], [b], [8, 102]);
    assert Drain([c, b], [7, 101]) == DrainResult([], [c, b], [8, 102]);
  }

  /** How many counts the counter of `s` has moved past `rc0[s]`. */
  function Moved(rc: seq<Count>, rc0: seq<Count>, s: nat): int
    requires s < |rc| && |rc0| == |rc|
  {
    Diff(rc[s], rc0[s])
  }

  lemma StepMoved(rc: seq<Count>, rc0: seq<Count>, s: nat, x: Count)
    requires s < |rc| && |rc0| == |rc|
    requires x == rc[s] && Moved(rc, rc0, s) < 0xFFFF
    ensures Moved(rc[s := Inc(x)], rc0, s) == Moved(rc, rc0, s) + 1
  {
  }

  lemma {:induction false} DistancePassAux(ys: seq<QMsg>, rc: seq<Count>, rc0: seq<Count>, s: nat, d: int)
    requires SrcsBelow(ys, |rc|) && |rc0| == |rc| && s < |rc|
    requires forall i :: 0 <= i < |ys| && ys[i].src == s ==> Distance(ys[i], rc0) >= d
    requires Moved(rc, rc0, s) != d
    requires Moved(rc, rc0, s) + |ys| < 0x1_0000
    ensures |Drain(ys, rc).counters| == |rc0|
    ensures Moved(rc, rc0, s) < d ==> Moved(Drain(ys, rc).counters, rc0, s) == Moved(rc, rc0, s)
    ensures Moved(rc, rc0, s) > d ==> Moved(Drain(ys, rc).counters, rc0, s) > d
    decreases |ys|
  {
    if ys != [] {
      var y := ys[0];
      if y.count == rc[y.src] {
        var rc' := rc[y.src := Inc(y.count)];
        if y.src == s {
          assert Distance(y, rc0) == Moved(rc, rc0, s);
          StepMoved(rc, rc0, s, y.count);
        }
        DistancePassAux(ys[1..], rc', rc0, s, d);
      } else {
        DistancePassAux(ys[1..], rc, rc0, s, d);
      }
    }
  }

  lemma {:induction false} DistancePass(qs: seq<QMsg>, rc: seq<Count>, rc0: seq<Count>)
    requires SrcsBelow(qs, |rc|) && |rc0| == |rc|
    requires SortedByDistance(qs, rc0)
    requires forall s :: 0 <= s < |rc| ==> Moved(rc, rc0, s) + |qs| < 0x1_0000
    ensures Settled(Drain(qs, rc).kept, Drain(qs, rc).counters)
    decreases |qs|
  {
    if qs != [] {
      var m := qs[0];
      var tail := qs[1..];
      assert SortedByDistance(tail, rc0) by {
        forall i, j | 0 <= i < j < |tail| ensures Distance(tail[i], rc0) <= Distance(tail[j], rc0) {
          assert tail[i] == qs[i + 1] && tail[j] == qs[j + 1];
        }
      }
      if m.count == rc[m.src] {
        var rc' := rc[m.src := Inc(m.count)];
        forall s | 0 <= s < |rc'| ensures Moved(rc', rc0, s) + |tail| < 0x1_0000 {
          assert Moved(rc, rc0, s) + |qs| < 0x1_0000;
          if s == m.src { StepMoved(rc, rc0, s, m.count); }
        }
        DistancePass(tail, rc', rc0);
      } else {
        DistancePass(tail, rc, rc0);
        var s := m.src;
        var d := Distance(m, rc0);
        forall i | 0 <= i < |tail| && tail[i].src == s ensures Distance(tail[i], rc0) >= d {
          assert tail[i] == qs[i + 1];
        }
        DistancePassAux(tail, rc, rc0, s, d);
        var r := Drain(qs, rc);
        var t := Drain(tail, rc);
        assert r.counters == t.counters;
        assert Moved(r.counters, rc0, s) != d;
        forall i | 0 <= i < |r.kept| ensures r.kept[i].count != r.counters[r.kept[i].src] {
          if i > 0 { assert r.kept[i] == t.kept[i - 1]; }
        }
      }
    }
  }

  /** Corrected: one pass after sorting by distance from the counters leaves
      nothing deliverable in the queue, wrap or no wrap, as long as fewer than
      2^16 entries are queued. */
  lemma DistanceSortOnePass(qs: seq<QMsg>, rc: seq<Count>)
    requires SrcsBelow(qs, |rc|)
    requires SortedByDistance(qs, rc)
    requires |qs| < 0x1_0000
    ensures Settled(Drain(qs, rc).kept, Drain(qs, rc).counters)
  {
    forall s | 0 <= s < |rc| ensures Moved(rc, rc, s) + |qs| < 0x1_0000 {
      assert Diff(rc[s], rc[s]) == 0;
    }
    DistancePass(qs, rc, rc);
  }
}
