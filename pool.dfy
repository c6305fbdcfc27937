/** The receive-buffer slots and the huge-message backlog, as values.
    Slots `0 .. nrecv-1` are the ordinary buffers, slot `nrecv` is the
    reserved huge-message slot. The RMI class keeps these in its fields and
    its methods are proved against the functions here. */
module Pool {
  import opened Wire

  /** `posted[i]`: slot `i` has a receive outstanding (`recv_req[i]`).
      `staged`: the huge message whose buffer occupies the reserved slot
      (`recv_buf[nrecv_]`, `None` for null). `hugeq`: the backlog of
      announced huge messages. `acks`: the sources acknowledged so far, in
      order. */
  datatype Pool = Pool(posted: seq<bool>, hugeq: seq<HugeReq>, staged: Option<HugeReq>, acks: seq<nat>)

  /** The huge messages announced and not yet delivered, oldest first: the
      staged one, then the backlog. */
  function Pending(p: Pool): seq<HugeReq> {
    (if p.staged.Some? then [p.staged.value] else []) + p.hugeq
  }

  /** The invariant of the slots: the reserved slot has a receive outstanding
      only while a huge buffer is staged in it, and it is never left idle
      while the backlog holds a request. */
  predicate PoolOk(p: Pool, nrecv: nat) {
    && |p.posted| == nrecv + 1
    && (p.posted[nrecv] ==> p.staged.Some?)
    && (p.staged.None? ==> p.hugeq == [])
  }

  /** The receive on slot `i` has completed. */
  function Complete(p: Pool, i: nat): (r: Pool)
    requires i < |p.posted|
    ensures |r.posted| == |p.posted| && !r.posted[i] && Pending(r) == Pending(p)
  {
    p.(posted := p.posted[i := false])
  }

  /** `post_pending_huge_msg`: when the reserved slot is free and the backlog
      is not empty, stage the first request, post its receive and
      acknowledge its source. */
  function StageNext(p: Pool, nrecv: nat): (r: Pool)
    requires |p.posted| == nrecv + 1
    ensures r.posted == p.posted || r.posted == p.posted[nrecv := true]
    ensures Pending(r) == Pending(p)
    ensures r.staged.None? ==> r.hugeq == []
    ensures p.staged.Some? || p.hugeq == [] ==> r == p
    ensures r != p ==> r.posted[nrecv] && r.acks == p.acks + [r.staged.value.src]
  {
    if p.staged.Some? then p
    else if p.hugeq == [] then p
    else
      var req := p.hugeq[0];
      p.(posted := p.posted[nrecv := true], hugeq := p.hugeq[1..], staged := Some(req), acks := p.acks + [req.src])
  }

  lemma StageNextKeepsPoolOk(p: Pool, nrecv: nat)
    requires |p.posted| == nrecv + 1
    requires p.posted[nrecv] ==> p.staged.Some?
    ensures PoolOk(StageNext(p, nrecv), nrecv)
  {
  }

  /** Once the invariant holds, servicing the backlog changes nothing: a
      free reserved slot means an empty backlog. */
  lemma StageNextIdle(p: Pool, nrecv: nat)
    requires PoolOk(p, nrecv)
    ensures StageNext(p, nrecv) == p
  {
  }

  /** `huge_msg_handler`, once it has read the request: append it to the
      backlog and service the backlog. */
  function HugeArrived(p: Pool, req: HugeReq, nrecv: nat): (r: Pool)
    requires PoolOk(p, nrecv)
    ensures PoolOk(r, nrecv)
    ensures Pending(r) == Pending(p) + [req]
    ensures r.staged.Some?
    ensures r.posted == p.posted || r.posted == p.posted[nrecv := true]
    ensures p.staged.Some? ==> r.posted == p.posted && r.staged == p.staged && r.acks == p.acks
  {
    var q := p.(hugeq := p.hugeq + [req]);
    assert Pending(q) == Pending(p) + [req];
    StageNext(q, nrecv)
  }

  /** `post_recv_buf(i)`: repost an ordinary slot, or release the reserved
      slot and service the backlog. A slot past the reserved one is an
      error, which the caller reports; the slots are then unchanged. */
  function PostRecv(p: Pool, nrecv: nat, i: nat): (r: Pool)
    requires |p.posted| == nrecv + 1
    ensures |r.posted| == |p.posted|
    ensures i < nrecv ==> r.posted == p.posted[i := true] && r.staged == p.staged && r.hugeq == p.hugeq && r.acks == p.acks
    ensures i > nrecv ==> r == p
    ensures i == nrecv ==> r.posted == p.posted || r.posted == p.posted[nrecv := true]
    ensures i == nrecv && p.staged.Some? ==> Pending(r) == Pending(p)[1..]
    ensures i == nrecv && !p.posted[nrecv] ==> PoolOk(r, nrecv)
    ensures i < nrecv && PoolOk(p, nrecv) ==> PoolOk(r, nrecv)
  {
    if i < nrecv then p.(posted := p.posted[i := true])
    else if i == nrecv then StageNext(p.(staged := None), nrecv)
    else p
  }

  /** `post_recv_buf` on each slot of `slots`, in order. */
  function PostAll(p: Pool, nrecv: nat, slots: seq<nat>): (r: Pool)
    requires |p.posted| == nrecv + 1
    ensures |r.posted| == |p.posted|
    decreases |slots|
  {
    if slots == [] then p
    else PostRecv(PostAll(p, nrecv, slots[..|slots| - 1]), nrecv, slots[|slots| - 1])
  }

  lemma PostAllSnoc(p: Pool, nrecv: nat, slots: seq<nat>, i: nat)
    requires |p.posted| == nrecv + 1
    ensures PostAll(p, nrecv, slots + [i]) == PostRecv(PostAll(p, nrecv, slots), nrecv, i)
  {
    assert (slots + [i])[..|slots|] == slots;
  }

  /** Reposting the slots of delivered messages: every ordinary slot of
      `slots` has a receive outstanding afterwards, every other ordinary slot
      is as it was, and the invariant holds, provided the slots are distinct
      and none of them had a receive outstanding. */
  lemma {:induction false} PostAllReposts(p: Pool, nrecv: nat, slots: seq<nat>)
    requires PoolOk(p, nrecv)
    requires forall k :: 0 <= k < |slots| ==> slots[k] <= nrecv && !p.posted[slots[k]]
    requires forall j, k :: 0 <= j < k < |slots| ==> slots[j] != slots[k]
    ensures PoolOk(PostAll(p, nrecv, slots), nrecv)
    ensures forall k :: 0 <= k < |slots| && slots[k] < nrecv ==> PostAll(p, nrecv, slots).posted[slots[k]]
    ensures forall j :: 0 <= j < nrecv && j !in slots ==> PostAll(p, nrecv, slots).posted[j] == p.posted[j]
    ensures nrecv !in slots ==> PostAll(p, nrecv, slots).posted[nrecv] == p.posted[nrecv]
    decreases |slots|
  {
    if slots != [] {
      var init := slots[..|slots| - 1];
      var i := slots[|slots| - 1];
      assert slots == init + [i];
      PostAllReposts(p, nrecv, init);
      var q := PostAll(p, nrecv, init);
      assert i !in init;
      if i == nrecv {
        assert !q.posted[nrecv];
      }
      forall k | 0 <= k < |slots| && slots[k] < nrecv ensures PostAll(p, nrecv, slots).posted[slots[k]] {
        if k < |init| { assert slots[k] == init[k] && slots[k] != i; }
      }
    }
  }

  /** Two announcements that find the reserved slot busy are served in the
      order they arrived: each release of the slot stages the oldest waiting
      request and acknowledges its source. */
  lemma BacklogServedInOrder(p: Pool, nrecv: nat, a: HugeReq, b: HugeReq)
    requires PoolOk(p, nrecv) && p.staged.Some? && p.hugeq == [] && !p.posted[nrecv]
    ensures var p2 := HugeArrived(HugeArrived(p, a, nrecv), b, nrecv);
            var p3 := PostRecv(p2, nrecv, nrecv);
            var p4 := PostRecv(Complete(p3, nrecv), nrecv, nrecv);
            && p2.staged == p.staged && p2.hugeq == [a, b] && p2.acks == p.acks
            && p3.staged == Some(a) && p3.hugeq == [b] && p3.acks == p.acks + [a.src]
            && p4.staged == Some(b) && p4.hugeq == [] && p4.acks == p.acks + [a.src, b.src]
  {
    var p1 := HugeArrived(p, a, nrecv);
    var p2 := HugeArrived(p1, b, nrecv);
    assert p1 == p.(hugeq := [a]);
    assert p2 == p.(hugeq := [a, b]);
    assert [a, b][1..] == [b];
  }
}
