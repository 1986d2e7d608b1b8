/** The two fan-out queues agree where the lossy one is driven no faster than the
    lossless one would allow. */
module Agreement {
  import opened Ring
  import O = OverwriteModel
  import OI = OverwriteInvariant
  import OT = OverwriteTheorems
  import B = BroadcastModel
  import BT = BroadcastTheorems

  type Item = O.Item

  function ItemsOf(received: seq<O.Received>): (r: seq<Item>)
    ensures |r| == |received| && forall i :: 0 <= i < |r| ==> r[i] == received[i].item
  {
    seq(|received|, i requires 0 <= i < |received| => received[i].item)
  }

  /** Where both queues stand at the same point of the same stream, an open
      broadcast gate is the gate assumed of the overwriting producer. */
  lemma GatesAgree(o: O.State, b: B.State<Item>, c: nat, item: Item)
    requires o.capacity == b.capacity && o.writePos == b.tail
    requires O.HasReader(o, c) && c < |b.cursors| && o.consumers[c].pos == b.cursors[c] + 1
    requires BT.NaiveGateOpen(b)
    ensures OT.Gated(o, O.Publish(item), c)
  {
  }

  lemma SameCursorSameItems(o: O.State, b: B.State<Item>, c: nat, d: nat)
    requires OT.ReceivedAll(o, c) && o.consumers[c].start == 1
    requires d < |b.cursors| && d < |b.seen| && b.cursors[d] <= |b.published|
    requires b.seen[d] == b.published[..b.cursors[d]]
    requires b.published <= o.started || o.started <= b.published
    requires o.consumers[c].pos == b.cursors[d] + 1
    ensures ItemsOf(o.consumers[c].received) == b.seen[d]
  {
  }

  /** o is reached from s0 by a producer gated on consumer c, which reads from
      the first position on. */
  ghost predicate GatedRun(s0: O.State, acts: seq<O.Action>, o: O.State, c: nat) {
    && OI.Inv(s0) && OT.Lossless(s0, c) && s0.consumers[c].start == 1
    && (forall n :: 0 <= n < |acts| ==> OT.Gated(O.Run(s0, acts[..n]), acts[n], c))
    && o == O.Run(s0, acts)
  }

  /** b is reached by a broadcast queue. */
  ghost predicate BroadcastRun(consumers: nat, default: Item, acts: seq<B.Action<Item>>, b: B.State<Item>) {
    && b.capacity >= 2 && consumers >= 1
    && b == B.Run(B.Init(b.capacity, consumers, default), acts)
  }

  /** A consumer of the overwriting queue, started at position 1 and gated as the
      broadcast queue would gate it, is never lapped, misses nothing, and has been
      given exactly what a broadcast consumer at the same cursor of the same
      stream has seen. */
  lemma OverwriteAgreesWithBroadcast(
      s0: O.State, acts: seq<O.Action>, o: O.State, c: nat,
      consumers: nat, default: Item, bacts: seq<B.Action<Item>>, b: B.State<Item>, d: nat)
    requires GatedRun(s0, acts, o, c) && BroadcastRun(consumers, default, bacts, b)
    requires b.published <= o.started || o.started <= b.published
    requires O.HasReader(o, c) && d < |b.cursors| && o.consumers[c].pos == b.cursors[d] + 1
    ensures o.consumers[c].last != Some(O.Lapped) && o.consumers[c].missed == 0
    ensures d < |b.seen| && ItemsOf(o.consumers[c].received) == b.seen[d]
  {
    hide OI.Inv, O.Apply, B.Apply, O.Run, B.Run, OT.Gated, OT.ReceivedAll;
    OT.GatedConsumerLosesNothing(s0, acts, c);
    BT.EveryoneSeesEverything(b.capacity, consumers, default, bacts, d);
    StartStays(s0, acts, c);
    SameCursorSameItems(o, b, c, d);
  }

  lemma StepKeepsStart(s: O.State, a: O.Action, c: nat)
    requires O.HasReader(s, c)
    ensures O.HasReader(O.Apply(s, a), c) && O.Apply(s, a).consumers[c].start == s.consumers[c].start
  {
  }

  lemma {:induction false} StartStays(s0: O.State, acts: seq<O.Action>, c: nat)
    requires O.HasReader(s0, c)
    ensures O.HasReader(O.Run(s0, acts), c) && O.Run(s0, acts).consumers[c].start == s0.consumers[c].start
  {
    hide O.Apply;
    if acts == [] {
    } else {
      StartStays(s0, acts[..|acts| - 1], c);
      StepKeepsStart(O.Run(s0, acts[..|acts| - 1]), acts[|acts| - 1], c);
    }
  }
}
