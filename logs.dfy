/** The ordering guarantees, stated on the logs the model keeps: the handler
    calls on the receiving side and the sends on the sending side. */
module Logs {
  import opened Wire
  import opened Sequencer

  /** The counts of the ordered messages from `s` that were handed to their
      handlers, in the order of the handler calls. */
  function OrderedFrom(log: seq<Delivery>, s: nat): seq<Count>
    decreases |log|
  {
    if log == [] then []
    else
      var d := log[|log| - 1];
      OrderedFrom(log[..|log| - 1], s) + (if d.src == s && IsOrdered(d.attr) then [CountOf(d.attr)] else [])
  }

  /** The stamps of the ordered sends to `dest`, in the order of the sends. */
  function StampsTo(out: seq<NetEvent>, dest: nat): seq<Count>
    decreases |out|
  {
    if out == [] then []
    else
      var e := out[|out| - 1];
      StampsTo(out[..|out| - 1], dest) + (if e.Isent? && e.dest == dest && e.stamp.Some? then [e.stamp.value] else [])
  }

  /** The receiving side: the ordered messages of each source reach their
      handlers with counts 0, 1, 2, ... (modulo 2^16), and the receive
      counter of the source is the count due next. */
  ghost predicate InOrder(log: seq<Delivery>, rc: seq<Count>)
  {
    forall s :: 0 <= s < |rc| ==>
      OrderedFrom(log, s) == Run(0, |OrderedFrom(log, s)|) && rc[s] == Advance(0, |OrderedFrom(log, s)|)
  }

  /** The sending side: the ordered messages to each destination are stamped
      0, 1, 2, ... (modulo 2^16), and the send counter of the destination is
      the stamp due next. */
  ghost predicate SentInOrder(out: seq<NetEvent>, sc: seq<Count>)
  {
    forall d :: 0 <= d < |sc| ==>
      StampsTo(out, d) == Run(0, |StampsTo(out, d)|) && sc[d] == Advance(0, |StampsTo(out, d)|)
  }

  lemma InOrderStart(n: nat)
    ensures InOrder([], seq(n, _ => 0))
  {
  }

  /** Handing a message to its handler keeps the receiving side in order
      exactly when an ordered message carries the count due from its source
      and advances that source's counter. */
  lemma {:induction false} InOrderStep(log: seq<Delivery>, rc: seq<Count>, d: Delivery)
    requires InOrder(log, rc)
    requires d.src < |rc|
    requires IsOrdered(d.attr) ==> CountOf(d.attr) == rc[d.src]
    ensures InOrder(log + [d], if IsOrdered(d.attr) then rc[d.src := Inc(rc[d.src])] else rc)
  {
    var rc' := if IsOrdered(d.attr) then rc[d.src := Inc(rc[d.src])] else rc;
    assert (log + [d])[..|log|] == log;
    forall s | 0 <= s < |rc'|
      ensures OrderedFrom(log + [d], s) == Run(0, |OrderedFrom(log + [d], s)|)
      ensures rc'[s] == Advance(0, |OrderedFrom(log + [d], s)|)
    {
      var k := |OrderedFrom(log, s)|;
      if d.src == s && IsOrdered(d.attr) {
        RunSnoc(0, k);
      }
    }
  }

  /** A send keeps the sending side in order when an ordered send is stamped
      with its destination's counter and advances it. */
  lemma {:induction false} SentInOrderStep(out: seq<NetEvent>, sc: seq<Count>, e: NetEvent)
    requires SentInOrder(out, sc)
    requires e.Isent? && e.stamp.Some? ==> e.dest < |sc| && e.stamp.value == sc[e.dest]
    ensures SentInOrder(out + [e], if e.Isent? && e.stamp.Some? then sc[e.dest := Inc(sc[e.dest])] else sc)
  {
    var sc' := if e.Isent? && e.stamp.Some? then sc[e.dest := Inc(sc[e.dest])] else sc;
    assert (out + [e])[..|out|] == out;
    forall d | 0 <= d < |sc'|
      ensures StampsTo(out + [e], d) == Run(0, |StampsTo(out + [e], d)|)
      ensures sc'[d] == Advance(0, |StampsTo(out + [e], d)|)
    {
      var k := |StampsTo(out, d)|;
      if e.Isent? && e.dest == d && e.stamp.Some? {
        RunSnoc(0, k);
      }
    }
  }

  /** What the two invariants give together: each side numbers the ordered
      messages of one pair of processes 0, 1, 2, ... (modulo 2^16), so the
      k-th stamp one side logged and the k-th count the other logged are
      both `k` modulo 2^16. The logs are of different processes and are not
      connected by a model of the network. */
  lemma StampsMatchDeliveries(out: seq<NetEvent>, sc: seq<Count>, log: seq<Delivery>, rc: seq<Count>, src: nat, dest: nat, k: nat)
    requires SentInOrder(out, sc) && InOrder(log, rc)
    requires dest < |sc| && src < |rc|
    requires k < |StampsTo(out, dest)| && k < |OrderedFrom(log, src)|
    ensures OrderedFrom(log, src)[k] == StampsTo(out, dest)[k]
  {
    RunIndex(0, |StampsTo(out, dest)|, k);
    RunIndex(0, |OrderedFrom(log, src)|, k);
  }
}
