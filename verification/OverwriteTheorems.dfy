/** What SPMCOverwriteQueue promises: no torn item, no silent loss, and a
    recovery that skips only what is gone, up to one exception. */
module OverwriteTheorems {
  import opened Ring
  import opened OverwriteModel
  import opened OverwriteInvariant

  lemma Reachable(capacity: nat, words: nat, consumers: nat, acts: seq<Action>)
    requires capacity >= 2
    ensures Inv(Run(Init(capacity, words, consumers), acts))
  {
    InitInv(capacity, words, consumers);
    RunInv(Init(capacity, words, consumers), acts);
  }

  // ------------------------------------------------------------ torn reads

  /** Orders a slot's sequence values by position, odd before even. */
  function Rank(x: nat): nat {
    2 * (x / 2) + (if x % 2 == 1 then 0 else 1)
  }

  lemma RankOrders(x: nat, y: nat)
    ensures Rank(x) == Rank(y) <==> x == y
  {
  }

  lemma RankNeverFalls(s: State, a: Action, i: nat)
    requires Inv(s) && i < s.capacity
    ensures Inv(Apply(s, a)) && Apply(s, a).capacity == s.capacity
    ensures Rank(Apply(s, a).sequence[i]) >= Rank(s.sequence[i])
  {
    ApplyInv(s, a);
    if Enabled(s, a) && a.MarkWriting? {
      assert SlotOk(s, Marked(s) + 1);
    } else if Enabled(s, a) && a.MarkStable? {
      assert SlotOk(s, Marked(s) + s.capacity);
      assert Slot(Marked(s) + s.capacity, s.capacity) == Slot(Marked(s), s.capacity);
    }
  }

  lemma {:induction false} RanksNeverFall(s: State, acts: seq<Action>, i: nat)
    requires Inv(s) && i < s.capacity
    ensures var s' := Run(s, acts);
            Inv(s') && s'.capacity == s.capacity && Rank(s'.sequence[i]) >= Rank(s.sequence[i])
  {
    if acts == [] {
    } else {
      RanksNeverFall(s, acts[..|acts| - 1], i);
      RankNeverFalls(Run(s, acts[..|acts| - 1]), acts[|acts| - 1], i);
    }
  }

  /** A slot's sequence never takes a value again once it has changed, although
      it steps down from 2p + 1 to 2p: two equal loads bracket no change. */
  lemma SequenceNeverRepeats(s: State, between: seq<Action>, after: seq<Action>, i: nat)
    requires Inv(s) && i < s.capacity
    ensures var s1 := Run(s, between);
            var s2 := Run(s1, after);
            && Shape(s1) && s1.capacity == s.capacity && Shape(s2) && s2.capacity == s.capacity
            && (s2.sequence[i] == s.sequence[i] ==> s1.sequence[i] == s.sequence[i])
  {
    RanksNeverFall(s, between, i);
    RanksNeverFall(Run(s, between), after, i);
    RankOrders(s.sequence[i], Run(s, between).sequence[i]);
  }

  /** With the payload copied word by word on both sides and interleaved at will,
      try_read answers Ok only with the whole item published at its position. */
  lemma OkIsNeverTorn(capacity: nat, words: nat, consumers: nat, acts: seq<Action>, c: nat)
    requires capacity >= 2
    requires Enabled(Run(Init(capacity, words, consumers), acts), LoadAgain(c))
    ensures var s := Run(Init(capacity, words, consumers), acts);
            var k, k' := s.consumers[c], Apply(s, LoadAgain(c)).consumers[c];
            k'.reader == RIdle ==>
              && k'.last == Some(Status.Ok) && k'.pos == k.pos + 1 && k'.missed == k.missed
              && 1 <= k.pos <= |s.started|
              && k'.received == k.received + [Received(k.pos, s.started[k.pos - 1])]
  {
    Reachable(capacity, words, consumers, acts);
    LoadAgainOk(Run(Init(capacity, words, consumers), acts), c);
  }

  // ------------------------------------------------------- loss accounting

  /** Loss is never silent: what a consumer received and what it was told it
      missed add up to the distance it moved; it received each position at most
      once, in order, each with the item published there; and it never runs
      ahead of the producer. */
  lemma LossIsAccounted(capacity: nat, words: nat, consumers: nat, acts: seq<Action>, c: nat)
    requires capacity >= 2
    requires HasReader(Run(Init(capacity, words, consumers), acts), c)
    ensures var s := Run(Init(capacity, words, consumers), acts);
            var k := s.consumers[c];
            && |k.received| + k.missed == k.pos - k.start
            && k.pos <= s.writePos + 1 && s.writePos == |s.started|
            && (forall i, j :: 0 <= i < j < |k.received| ==> k.received[i].position < k.received[j].position)
            && (forall i :: 0 <= i < |k.received| ==>
                  var r := k.received[i];
                  && 1 <= k.start <= r.position < k.pos
                  && r.position <= |s.started| && r.item == s.started[r.position - 1])
  {
    Reachable(capacity, words, consumers, acts);
    var s := Run(Init(capacity, words, consumers), acts);
    assert ConsumerOk(s, s.consumers[c]);
  }

  // ---------------------------------------------------------- lap recovery

  /** The write that overwrites position q has at least begun. */
  predicate Overwritten(s: State, q: nat) {
    q + s.capacity <= |s.marks|
  }

  ghost predicate AllOverwritten(s: State, from: nat, to: nat) {
    forall q :: from <= q < to ==> Overwritten(s, q)
  }

  /** The oldest position that the loaded published_ vouches for is no further
      than the cursor: lapped_to jumps to newest. */
  predicate FallsBack(s: State, k: Consumer, p: nat)
    requires k.Present?
  {
    p < k.pos + s.capacity
  }

  /** Recovery after a lap, for every value p that the load of published_ may
      return. The cursor moves strictly forward and not past the newest position
      begun. Unless it falls back, every skipped position has been overwritten.
      When it falls back it goes to newest; each position it skips is either
      overwritten or still whole in the ring, and the whole ones are among the
      last C - 1. */
  lemma RecoveryIsExact(s: State, c: nat, p: nat)
    requires Inv(s) && Enabled(s, LoadPublished(c, p))
    ensures var k, k' := s.consumers[c], Apply(s, LoadPublished(c, p)).consumers[c];
            && k'.Present? && k'.last == Some(Lapped) && k.pos < k'.pos <= s.writePos
            && k'.missed == k.missed + (k'.pos - k.pos) && k'.received == k.received
    ensures var k, k' := s.consumers[c], Apply(s, LoadPublished(c, p)).consumers[c];
            !FallsBack(s, k, p) ==> k'.pos == p - s.capacity + 1 && AllOverwritten(s, k.pos, k'.pos)
    ensures var k, k' := s.consumers[c], Apply(s, LoadPublished(c, p)).consumers[c];
            FallsBack(s, k, p) ==>
              && k'.pos == k.reader.newest && Overwritten(s, k.pos)
              && forall q :: k.pos <= q < k'.pos ==>
                   && (Intact(s, q) <==> !Overwritten(s, q))
                   && (Intact(s, q) ==> k'.pos < q + s.capacity)
  {
    LoadPublishedOk(s, c, p);
    assert ConsumerOk(s, s.consumers[c]);
  }

  /** The recovery falls back and the last position it skips is still there. */
  predicate SkipsIntact(s: State, k: Consumer, p: nat)
    requires k.Present? && k.reader.RLapped?
  {
    FallsBack(s, k, p) && |s.marks| < k.reader.newest - 1 + s.capacity
  }

  /** So "loses only what was genuinely overwritten" holds exactly when it does
      not do that. */
  lemma LosesOnlyOverwrittenIff(s: State, c: nat, p: nat)
    requires Inv(s) && Enabled(s, LoadPublished(c, p))
    ensures Apply(s, LoadPublished(c, p)).consumers[c].Present?
    ensures var k, k' := s.consumers[c], Apply(s, LoadPublished(c, p)).consumers[c];
            AllOverwritten(s, k.pos, k'.pos) <==> !SkipsIntact(s, k, p)
  {
    RecoveryIsExact(s, c, p);
    var k, k' := s.consumers[c], Apply(s, LoadPublished(c, p)).consumers[c];
    assert k.pos <= k'.pos - 1 < k'.pos;
    if SkipsIntact(s, k, p) {
      assert !Overwritten(s, k'.pos - 1);
    }
  }

  /** A load of published_ that is not stale leaves one case: published_ has not
      caught up with newest, which is exactly one lap ahead. Then exactly C
      positions are skipped, of which all but the first are still whole. */
  lemma CurrentLoadSkipsIntactIff(s: State, c: nat)
    requires Inv(s) && Enabled(s, LoadPublished(c, s.published))
    ensures var k, k' := s.consumers[c], Apply(s, LoadPublished(c, s.published)).consumers[c];
            && k'.Present?
            && (SkipsIntact(s, k, s.published) <==>
                  k.reader.newest == k.pos + s.capacity && s.published + 1 == k.reader.newest)
            && (SkipsIntact(s, k, s.published) ==>
                  k'.pos == k.pos + s.capacity && forall q :: k.pos < q < k'.pos ==> Intact(s, q))
  {
    RecoveryIsExact(s, c, s.published);
    assert ConsumerOk(s, s.consumers[c]);
  }

  /** An intact position can still be read: its slot shows it, whole. */
  lemma IntactIsReadable(s: State, q: nat)
    requires Inv(s) && Intact(s, q)
    ensures var i := Slot(q, s.capacity);
            s.sequence[i] == 2 * q && q <= |s.started| && s.data[i] == s.started[q - 1]
  {
    Shows(s, q);
  }

  // ------------------------------------------------------------- emptiness

  /** try_read answers Empty exactly when its position is not yet whole in the
      ring, or at that moment the slot is being rewritten for a later lap. */
  lemma EmptyIsExact(s: State, c: nat)
    requires Inv(s) && Enabled(s, LoadSequence(c))
    ensures var k, k' := s.consumers[c], Apply(s, LoadSequence(c)).consumers[c];
            && k'.Present? && k'.pos == k.pos && k'.missed == k.missed && k'.received == k.received
            && (k'.reader == RIdle <==>
                  k.pos > Stable(s)
                  || (s.writer.WWriting? && Slot(s.writer.pos, s.capacity) == Slot(k.pos, s.capacity)))
            && (k'.reader == RIdle ==> k'.last == Some(Empty))
  {
    var k := s.consumers[c];
    assert ConsumerOk(s, k);
    Shows(s, k.pos);
    if s.writer.WWriting? {
      assert Slot(Marked(s) + s.capacity, s.capacity) == Slot(Marked(s), s.capacity);
      assert SlotOk(s, Marked(s) + s.capacity);
    }
  }

  // ------------------------------------------------------------- staleness

  /** The time that has passed in a run. */
  function Elapsed(acts: seq<Action>): nat {
    if acts == [] then 0
    else
      var a := acts[|acts| - 1];
      Elapsed(acts[..|acts| - 1]) + (if a.Tick? then a.d else 0)
  }

  /** The clock shows the time that has passed. */
  lemma {:induction false} ClockIsElapsed(s: State, acts: seq<Action>)
    requires Inv(s)
    ensures Inv(Run(s, acts)) && Run(s, acts).now == s.now + Elapsed(acts)
  {
    RunInv(s, acts);
    if acts == [] {
    } else {
      hide Inv;
      ClockIsElapsed(s, acts[..|acts| - 1]);
      ClockStep(Run(s, acts[..|acts| - 1]), acts[|acts| - 1]);
    }
  }

  lemma ClockStep(s: State, a: Action)
    requires Inv(s)
    ensures Apply(s, a).now == s.now + (if a.Tick? then a.d else 0)
    ensures Enabled(s, a) && a.MarkWriting? ==> s.writer.pos == Marked(s) + 1 && Apply(s, a).marks == s.marks + [s.now]
    ensures !(Enabled(s, a) && a.MarkWriting?) ==> Apply(s, a).marks == s.marks
  {
  }

  /** And the mark of position p is the time at which the producer, having taken
      position p, stored the odd sequence. */
  lemma {:induction false} MarksAreTimes(capacity: nat, words: nat, consumers: nat, acts: seq<Action>, p: nat)
    returns (n: nat)
    requires capacity >= 2 && 1 <= p <= |Run(Init(capacity, words, consumers), acts).marks|
    ensures n < |acts| && acts[n] == MarkWriting
    ensures var s := Run(Init(capacity, words, consumers), acts[..n]);
            Enabled(s, MarkWriting) && s.writer.pos == p && |s.marks| == p - 1
    ensures Run(Init(capacity, words, consumers), acts).marks[p - 1] == Elapsed(acts[..n])
  {
    var s0 := Init(capacity, words, consumers);
    if acts == [] {
      assert false;
    } else {
      hide Inv, Apply, Enabled;
      var before, a := acts[..|acts| - 1], acts[|acts| - 1];
      var s := Run(s0, before);
      Reachable(capacity, words, consumers, before);
      ClockStep(s, a);
      if p <= |s.marks| {
        n := MarksAreTimes(capacity, words, consumers, before, p);
        assert before[..n] == acts[..n];
      } else {
        n := |before|;
        InitInv(capacity, words, consumers);
        ClockIsElapsed(s0, before);
      }
    }
  }

  /** Consecutive publishes start at most d apart, and the next is not overdue. */
  ghost predicate Paced(s: State, d: nat) {
    && (forall i :: 0 <= i < |s.marks| - 1 ==> s.marks[i + 1] - s.marks[i] <= d)
    && (|s.marks| > 0 ==> s.now - s.marks[|s.marks| - 1] <= d)
  }

  lemma {:induction false} MarksWithin(s: State, d: nat, i: nat, j: nat)
    requires Paced(s, d) && i <= j < |s.marks|
    ensures s.marks[j] - s.marks[i] <= (j - i) * d
  {
    if i == j {
    } else {
      MarksWithin(s, d, i, j - 1);
      assert (j - i) * d == (j - 1 - i) * d + d;
    }
  }

  /** Capacity is a staleness budget: an item answered Ok was begun to be
      published at most capacity * d before the load that validates it. */
  lemma StalenessBound(capacity: nat, words: nat, consumers: nat, acts: seq<Action>, c: nat, d: nat)
    requires capacity >= 2
    requires var s := Run(Init(capacity, words, consumers), acts);
             Enabled(s, LoadAgain(c)) && Paced(s, d) && Apply(s, LoadAgain(c)).consumers[c].reader == RIdle
    ensures var s := Run(Init(capacity, words, consumers), acts);
            var p := s.consumers[c].pos;
            1 <= p <= |s.marks| && s.now - s.marks[p - 1] <= capacity * d
  {
    hide Inv, Run, Paced;
    Reachable(capacity, words, consumers, acts);
    var s := Run(Init(capacity, words, consumers), acts);
    RunKeepsCapacity(Init(capacity, words, consumers), acts);
    LoadAgainOk(s, c);
    AgeOfIntact(s, s.consumers[c].pos, d);
  }

  lemma AgeOfIntact(s: State, p: nat, d: nat)
    requires Paced(s, d) && 1 <= p <= |s.marks| < p + s.capacity
    ensures s.now - s.marks[p - 1] <= s.capacity * d
  {
    var last := |s.marks| - 1;
    MarksWithin(s, d, p - 1, last);
    assert (last - (p - 1)) * d + d == (last - p + 2) * d;
    FactorMonotone(last - p + 2, s.capacity, d);
  }

  lemma FactorMonotone(a: nat, b: nat, d: nat)
    requires a <= b
    ensures a * d <= b * d
  {
  }

  lemma {:induction false} RunKeepsCapacity(s: State, acts: seq<Action>)
    ensures Run(s, acts).capacity == s.capacity
  {
    if acts == [] {
    } else {
      RunKeepsCapacity(s, acts[..|acts| - 1]);
    }
  }

  // ---------------------------------------------- under a gate on the producer

  /** The producer starts a write only while consumer c would be at most one
      capacity behind afterwards: the gate of the lossless broadcast queue. */
  predicate Gated(s: State, a: Action, c: nat) {
    Enabled(s, a) && a.Publish? && HasReader(s, c) ==> s.writePos + 1 - (s.consumers[c].pos - 1) <= s.capacity
  }

  /** Consumer c has lost nothing so far, and everything before it is in received. */
  ghost predicate Lossless(s: State, c: nat) {
    && HasReader(s, c)
    && var k := s.consumers[c];
       s.writePos < k.pos + s.capacity && k.missed == 0 && k.last != Some(Lapped) && !k.reader.RLapped?
  }

  /** A consumer starts that way, unless the published_ it was made from was
      already a whole lap old. */
  lemma FreshConsumerIsLossless(s: State, c: nat, p: nat)
    requires Inv(s) && Enabled(s, MakeConsumer(c, p))
    ensures Lossless(Apply(s, MakeConsumer(c, p)), c) <==> s.writePos <= p + s.capacity
    ensures p == s.published ==> Lossless(Apply(s, MakeConsumer(c, p)), c)
  {
    var k := Apply(s, MakeConsumer(c, p)).consumers[c];
    assert k == Present(p + 1, p + 1, 0, RIdle, None, []);
  }

  lemma GatedStepIsLossless(s: State, a: Action, c: nat)
    requires Inv(s) && Lossless(s, c) && Gated(s, a, c)
    ensures Lossless(Apply(s, a), c)
  {
    var k := s.consumers[c];
    assert ConsumerOk(s, k);
    Shows(s, k.pos);
  }

  /** Every published item from the consumer's start up to its cursor, in order. */
  ghost predicate ReceivedAll(s: State, c: nat) {
    && HasReader(s, c)
    && var k := s.consumers[c];
       && 1 <= k.start && |k.received| == k.pos - k.start && k.pos - 1 <= |s.started|
       && forall i :: 0 <= i < |k.received| ==> k.received[i] == Received(k.start + i, s.started[k.start + i - 1])
  }

  lemma LosslessReceivedAll(s: State, c: nat)
    requires Inv(s) && Lossless(s, c)
    ensures ReceivedAll(s, c)
  {
    var k := s.consumers[c];
    assert ConsumerOk(s, k);
    forall i | 0 <= i < |k.received| ensures k.received[i] == Received(k.start + i, s.started[k.start + i - 1]) {
      Contiguous(s, k, i);
    }
  }

  /** Under that gate a consumer is never lapped and misses nothing: it receives
      exactly the published items from its start up to its cursor. */
  lemma {:induction false} GatedConsumerLosesNothing(s: State, acts: seq<Action>, c: nat)
    requires Inv(s) && Lossless(s, c)
    requires forall n :: 0 <= n < |acts| ==> Gated(Run(s, acts[..n]), acts[n], c)
    ensures Inv(Run(s, acts)) && Lossless(Run(s, acts), c) && ReceivedAll(Run(s, acts), c)
  {
    hide Inv, Lossless, ReceivedAll, Gated, Apply;
    if acts == [] {
    } else {
      var before := acts[..|acts| - 1];
      forall n | 0 <= n < |before| ensures Gated(Run(s, before[..n]), before[n], c) {
        assert before[..n] == acts[..n];
      }
      GatedConsumerLosesNothing(s, before, c);
      GatedStepIsLossless(Run(s, before), acts[|acts| - 1], c);
      ApplyInv(Run(s, before), acts[|acts| - 1]);
    }
    LosslessReceivedAll(Run(s, acts), c);
  }

  /** As many distinct increasing positions as the range holds: all of them. */
  lemma Contiguous(s: State, k: Consumer, i: nat)
    requires k.Present? && ReceivedOk(s, k) && k.missed == 0 && i < |k.received|
    ensures k.received[i].position == k.start + i
  {
    AtLeast(s, k, i);
    AtMost(s, k, i);
  }

  lemma {:induction false} AtLeast(s: State, k: Consumer, i: nat)
    requires k.Present? && ReceivedOk(s, k) && i < |k.received|
    ensures k.received[i].position >= k.start + i
  {
    if i == 0 {
    } else {
      AtLeast(s, k, i - 1);
    }
  }

  lemma {:induction false} AtMost(s: State, k: Consumer, i: nat)
    requires k.Present? && ReceivedOk(s, k) && i < |k.received|
    ensures k.received[i].position + (|k.received| - i) <= k.pos
    decreases |k.received| - i
  {
    if i + 1 == |k.received| {
    } else {
      AtMost(s, k, i + 1);
    }
  }
}
