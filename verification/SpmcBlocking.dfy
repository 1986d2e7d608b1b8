/** The blocking calls of SPMCQueue: which notifications reach which sleepers,
    and how often a pop can be made to retry. */
module SpmcBlocking {
  import opened Ring
  import opened SpmcModel
  import opened SpmcInvariant
  import opened SpmcTheorems

  // ------------------------------------------------------ sleeping consumers

  /** No lost wakeup in pop_wait: a consumer suspended on position h is suspended
      on an empty queue, or the producer that published h has its notify_all
      still to do. */
  lemma NoConsumerLosesWakeup<T>(capacity: nat, consumers: nat, acts: seq<Action<T>>, c: nat)
    requires capacity >= 2
    requires var s := Run(Init<T>(capacity, consumers), acts);
             c < |s.consumers| && s.consumers[c].CParked?
    ensures var s := Run(Init<T>(capacity, consumers), acts);
            var h := s.consumers[c].h;
            || (h == s.head && s.head == |s.published|)
            || (h < |s.published| && NotifyAllPending(s, h))
  {
    Reachable(capacity, consumers, acts);
    var s := Run(Init<T>(capacity, consumers), acts);
    assert ConsumerOk(s, c);
  }

  /** And that notify_all reaches it, whatever else is parked. */
  lemma NotifyAllReachesAll<T>(s: State<T>, c: nat)
    requires Inv(s) && Enabled(s, NotifyAll)
    requires c < |s.consumers| && s.consumers[c].CParked? && s.consumers[c].h < |s.published|
    ensures Apply(s, NotifyAll).consumers[c] == CWaiting(s.consumers[c].h, s.consumers[c].seen)
    ensures s.sequence[Slot(s.consumers[c].h, s.capacity)] != s.consumers[c].seen
  {
    assert ConsumerOk(s, c);
    SequenceAt(s, s.consumers[c].h);
  }

  // ---------------------------------------------------- the sleeping producer

  /** Consumer c has released position t - C and not yet called notify_one. */
  predicate NotifyOnePending<T>(s: State<T>, c: nat, t: nat) {
    c < |s.consumers| && s.consumers[c].CReleased? && s.consumers[c].h + s.capacity == t
  }

  /** The producer sleeps in emplace_wait although its slot has been released,
      and the notify_one of that release is not on its way. */
  predicate Stranded<T>(s: State<T>) {
    && Shape(s)
    && s.producer.PParked?
    && s.sequence[Slot(s.producer.t, s.capacity)] != s.producer.seen
    && forall c :: 0 <= c < |s.consumers| ==> !NotifyOnePending(s, c, s.producer.t)
  }

  /** The action is the notify_one of the release that the producer sleeps for,
      and it wakes a consumer instead. */
  predicate Misdirected<T>(s: State<T>, a: Action<T>) {
    && Enabled(s, a) && a.NotifyOne? && a.target.TheConsumer?
    && s.producer.PParked? && NotifyOnePending(s, a.c, s.producer.t)
  }

  /** Exactly when emplace_wait loses its wakeup: the one step that strands the
      producer is a misdirected notify_one. */
  lemma StrandedExactlyByMisdirection<T>(s: State<T>, a: Action<T>)
    requires Inv(s) && !Stranded(s)
    ensures Stranded(Apply(s, a)) <==> Misdirected(s, a)
  {
    var s' := Apply(s, a);
    if Enabled(s, a) {
      if a.NotifyOne? {
        NotifyOneStrands(s, a);
      } else if s'.producer.PParked? && s.producer.PParked? {
        StillPending(s, a);
      }
    }
  }

  lemma NotifyOneStrands<T>(s: State<T>, a: Action<T>)
    requires Inv(s) && !Stranded(s) && Enabled(s, a) && a.NotifyOne?
    ensures Stranded(Apply(s, a)) <==> Misdirected(s, a)
  {
    var s' := Apply(s, a);
    if s.producer.PParked? {
      var t := s.producer.t;
      if NotifyOnePending(s, a.c, t) {
        LastNotify(s, a.c);
        assert ProducerParkedOn(s.producer, Slot(s.consumers[a.c].h, s.capacity), s.capacity);
        assert s.producer.seen < t;
        assert a.target != Nobody;
        forall d | 0 <= d < |s'.consumers| ensures !NotifyOnePending(s', d, t) {
          assert d == a.c || !NotifyOnePending(s, d, t);
        }
      } else if s'.producer.PParked? && s.sequence[Slot(t, s.capacity)] != s.producer.seen {
        var c :| 0 <= c < |s.consumers| && NotifyOnePending(s, c, t);
        assert NotifyOnePending(s', c, t);
      }
    }
  }

  /** The release the producer sleeps for was stored by one consumer only, the
      producer's sleep began before it, and the slot shows it. */
  lemma LastNotify<T>(s: State<T>, c: nat)
    requires Inv(s) && s.producer.PParked? && NotifyOnePending(s, c, s.producer.t)
    ensures Slot(s.consumers[c].h, s.capacity) == Slot(s.producer.t, s.capacity)
    ensures s.sequence[Slot(s.producer.t, s.capacity)] == s.producer.t != s.producer.seen
    ensures forall d :: 0 <= d < |s.consumers| && d != c ==> !NotifyOnePending(s, d, s.producer.t)
  {
    ReleasedSequence(s, c);
    SequenceAt(s, s.producer.t);
    forall d | 0 <= d < |s.consumers| && d != c ensures !NotifyOnePending(s, d, s.producer.t) {
      assert ConsumerOk(s, c) && ConsumerOk(s, d);
    }
  }

  /** Any other step leaves the notify_one pending while the slot is released. */
  lemma StillPending<T>(s: State<T>, a: Action<T>)
    requires Inv(s) && !Stranded(s) && Enabled(s, a) && !a.NotifyOne?
    requires s.producer.PParked? && Apply(s, a).producer.PParked?
    ensures !Stranded(Apply(s, a))
  {
    var s' := Apply(s, a);
    var t := s.producer.t;
    if s'.sequence[Slot(t, s.capacity)] != s'.producer.seen {
      if s.sequence[Slot(t, s.capacity)] == s.producer.seen {
        ReleasesForProducer(s, a);
      } else {
        var c :| 0 <= c < |s.consumers| && NotifyOnePending(s, c, t);
        assert NotifyOnePending(s', c, t);
      }
    }
  }

  /** The step that frees the slot of a sleeping producer is the release of t - C. */
  lemma ReleasesForProducer<T>(s: State<T>, a: Action<T>)
    requires Inv(s) && Enabled(s, a) && s.producer.PParked?
    requires var i := Slot(s.producer.t, s.capacity); Apply(s, a).sequence[i] != s.sequence[i]
    ensures a.Release? && NotifyOnePending(Apply(s, a), a.c, s.producer.t)
  {
    var t := s.producer.t;
    assert a.Release?;
    var h := s.consumers[a.c].h;
    assert ConsumerOk(s, a.c);
    assert h < t <= h + s.capacity;
    if t < h + s.capacity {
      SlotInjective(h, t, s.capacity);
    }
  }

  /** Consumer d went to sleep on the slot before its present value was stored. */
  predicate Rival<T>(s: State<T>, d: nat, slot: nat)
    requires Shape(s) && slot < s.capacity
  {
    d < |s.consumers| && ParkedOn(s.consumers[d], slot, s.capacity) && s.consumers[d].seen != s.sequence[slot]
  }

  /** A caller can rule it out: when the notify_one is made that the producer
      sleeps for, no consumer sleeps on the slot since before the release. */
  predicate NoRival<T>(s: State<T>, a: Action<T>) {
    Enabled(s, a) && a.NotifyOne? && s.producer.PParked? && NotifyOnePending(s, a.c, s.producer.t) ==>
      forall d :: 0 <= d < |s.consumers| ==> !Rival(s, d, Slot(s.producer.t, s.capacity))
  }

  lemma NoRivalNoStranding<T>(s: State<T>, a: Action<T>)
    requires Inv(s) && !Stranded(s) && NoRival(s, a)
    ensures !Stranded(Apply(s, a))
  {
    StrandedExactlyByMisdirection(s, a);
    if Misdirected(s, a) {
      LastNotify(s, a.c);
      assert Rival(s, a.target.c, Slot(s.producer.t, s.capacity));
    }
  }

  lemma {:induction false} NoRivalsNoStranding<T>(capacity: nat, consumers: nat, acts: seq<Action<T>>)
    requires capacity >= 2
    requires forall k :: 0 <= k < |acts| ==> NoRival(Run(Init<T>(capacity, consumers), acts[..k]), acts[k])
    ensures !Stranded(Run(Init<T>(capacity, consumers), acts))
  {
    if acts == [] {
    } else {
      hide Inv, Apply, Stranded, NoRival;
      var before := acts[..|acts| - 1];
      forall k | 0 <= k < |before|
        ensures NoRival(Run(Init<T>(capacity, consumers), before[..k]), before[k])
      {
        assert before[..k] == acts[..k];
      }
      NoRivalsNoStranding<T>(capacity, consumers, before);
      Reachable<T>(capacity, consumers, before);
      NoRivalNoStranding(Run(Init<T>(capacity, consumers), before), acts[|acts| - 1]);
    }
  }

  /** And the condition is needed: wherever a rival sleeps at that notify_one,
      the scheduler may strand the producer. */
  lemma RivalMayStrand<T>(s: State<T>, c: nat, d: nat)
    requires Inv(s) && s.producer.PParked? && NotifyOnePending(s, c, s.producer.t)
    requires Rival(s, d, Slot(s.producer.t, s.capacity))
    ensures Enabled(s, NotifyOne(c, TheConsumer(d))) && Stranded(Apply(s, NotifyOne(c, TheConsumer(d))))
  {
    LastNotify(s, c);
    StrandedExactlyByMisdirection(s, NotifyOne(c, TheConsumer(d)));
  }

  /** Where none does, that notify_one has to wake the producer. */
  lemma NoRivalWakesProducer<T>(s: State<T>, c: nat, target: Waiter)
    requires Inv(s) && s.producer.PParked? && NotifyOnePending(s, c, s.producer.t)
    requires forall d :: 0 <= d < |s.consumers| ==> !Rival(s, d, Slot(s.producer.t, s.capacity))
    ensures Enabled(s, NotifyOne(c, target)) <==> target == TheProducer
  {
    LastNotify(s, c);
    if Enabled(s, NotifyOne(c, target)) && target.TheConsumer? {
      assert Rival(s, target.c, Slot(s.producer.t, s.capacity));
    }
  }

  // It is enough to look at the release, which comes before the notify.

  /** While the producer sleeps on a slot that has been released, no consumer
      has been asleep on it since before the release. */
  ghost predicate NoRivalWaits<T>(s: State<T>) {
    Shape(s) && s.producer.PParked? && s.sequence[Slot(s.producer.t, s.capacity)] != s.producer.seen ==>
      forall d :: 0 <= d < |s.consumers| ==> !Rival(s, d, Slot(s.producer.t, s.capacity))
  }

  /** No consumer sleeps on the slot the producer sleeps on when it is released. */
  predicate AloneAtRelease<T>(s: State<T>, a: Action<T>) {
    Enabled(s, a) && a.Release? ==>
      var slot := Slot(s.consumers[a.c].h, s.capacity);
      ProducerParkedOn(s.producer, slot, s.capacity) ==>
        forall d :: 0 <= d < |s.consumers| ==> !ParkedOn(s.consumers[d], slot, s.capacity)
  }

  lemma AloneStep<T>(s: State<T>, a: Action<T>)
    requires Inv(s) && NoRivalWaits(s) && AloneAtRelease(s, a)
    ensures NoRivalWaits(Apply(s, a))
  {
    var s' := Apply(s, a);
    if Enabled(s, a) && s'.producer.PParked? {
      var i := Slot(s'.producer.t, s'.capacity);
      if s'.sequence[i] != s'.producer.seen {
        assert s.producer.PParked?;
        if s.sequence[i] != s'.sequence[i] {
          ReleasesForProducer(s, a);
        }
        forall d | 0 <= d < |s'.consumers| ensures !Rival(s', d, i) {
          assert !Rival(s, d, i) || s.sequence[i] == s.producer.seen;
        }
      }
    }
  }

  /** If no consumer is asleep on the slot at the releases, nobody is stranded. */
  lemma {:induction false} AloneAtReleasesNoStranding<T>(capacity: nat, consumers: nat, acts: seq<Action<T>>)
    requires capacity >= 2
    requires forall k :: 0 <= k < |acts| ==> AloneAtRelease(Run(Init<T>(capacity, consumers), acts[..k]), acts[k])
    ensures var s := Run(Init<T>(capacity, consumers), acts); !Stranded(s) && NoRivalWaits(s)
  {
    if acts == [] {
    } else {
      hide Inv, Apply, Stranded, NoRivalWaits, AloneAtRelease;
      var before := acts[..|acts| - 1];
      forall k | 0 <= k < |before|
        ensures AloneAtRelease(Run(Init<T>(capacity, consumers), before[..k]), before[k])
      {
        assert before[..k] == acts[..k];
      }
      AloneAtReleasesNoStranding<T>(capacity, consumers, before);
      Reachable<T>(capacity, consumers, before);
      var s := Run(Init<T>(capacity, consumers), before);
      AloneStep(s, acts[|acts| - 1]);
      NoRivalWaitsNoRival(s, acts[|acts| - 1]);
      NoRivalNoStranding(s, acts[|acts| - 1]);
    }
  }

  lemma NoRivalWaitsNoRival<T>(s: State<T>, a: Action<T>)
    requires Inv(s) && NoRivalWaits(s)
    ensures NoRival(s, a)
  {
    if Enabled(s, a) && a.NotifyOne? && s.producer.PParked? && NotifyOnePending(s, a.c, s.producer.t) {
      LastNotify(s, a.c);
    }
  }

  // ---------------------------------------------------------- lock-freedom

  /** Consumer c goes round its loop again because of another consumer: a stale
      reload, or a CAS that found head_ moved. A spurious CAS failure is no retry. */
  predicate Retries<T>(s: State<T>, a: Action<T>, c: nat) {
    && Enabled(s, a)
    && ((a.Reload? && a.c == c) || (a.CasFailure? && a.c == c && a.h != s.consumers[c].h))
  }

  predicate ClaimsForOther<T>(s: State<T>, a: Action<T>, c: nat) {
    Enabled(s, a) && a.CasSuccess? && a.c != c
  }

  function RetryCount<T>(s: State<T>, acts: seq<Action<T>>, c: nat): nat {
    if acts == [] then 0
    else
      var before := acts[..|acts| - 1];
      RetryCount(s, before, c) + (if Retries(Run(s, before), acts[|acts| - 1], c) then 1 else 0)
  }

  /** Pops whose CAS succeeded for a consumer other than c. */
  function ClaimsByOthers<T>(s: State<T>, acts: seq<Action<T>>, c: nat): nat {
    if acts == [] then 0
    else
      var before := acts[..|acts| - 1];
      ClaimsByOthers(s, before, c) + (if ClaimsForOther(Run(s, before), acts[|acts| - 1], c) then 1 else 0)
  }

  predicate InCall<T>(s: State<T>, c: nat) {
    c < |s.consumers| && !s.consumers[c].CIdle?
  }

  /** The run does not reach the end of consumer c's call. */
  predicate StaysInCall<T>(s: State<T>, acts: seq<Action<T>>, c: nat) {
    forall k :: 0 <= k <= |acts| ==> InCall(Run(s, acts[..k]), c)
  }

  predicate HasClaimed<T>(k: Consumer<T>) {
    k.CClaimed? || k.CMoved? || k.CDestroyed? || k.CReleased?
  }

  /** Lock-freedom of one pop: every retry moves its copy of head_ strictly
      forward, so it retries at most once per claim another consumer completes
      during the call, plus once per position by which its first read was stale. */
  lemma {:induction false} RetriesBoundedByClaims<T>(s: State<T>, acts: seq<Action<T>>, c: nat)
    requires Inv(s) && c < |s.consumers| && s.consumers[c].CScan?
    requires StaysInCall(s, acts, c)
    ensures InCall(Run(s, acts), c)
    ensures var s' := Run(s, acts);
            && s.consumers[c].h + RetryCount(s, acts, c) <= s'.consumers[c].h
            && s'.head == s.head + ClaimsByOthers(s, acts, c) + (if HasClaimed(s'.consumers[c]) then 1 else 0)
    ensures RetryCount(s, acts, c) <= (s.head - s.consumers[c].h) + ClaimsByOthers(s, acts, c)
  {
    RunInv(s, acts);
    assert ConsumerOk(s, c);
    assert acts[..|acts|] == acts;
    if acts == [] {
    } else {
      var before, a := acts[..|acts| - 1], acts[|acts| - 1];
      forall k | 0 <= k <= |before| ensures InCall(Run(s, before[..k]), c) {
        assert before[..k] == acts[..k];
      }
      RetriesBoundedByClaims(s, before, c);
      RunInv(s, before);
      RegisterMoves(Run(s, before), a, c);
      assert ConsumerOk(Run(s, acts), c);
    }
  }

  lemma RegisterMoves<T>(s: State<T>, a: Action<T>, c: nat)
    requires Inv(s) && InCall(s, c) && InCall(Apply(s, a), c)
    ensures var k, k' := s.consumers[c], Apply(s, a).consumers[c];
            && k'.h >= k.h + (if Retries(s, a, c) then 1 else 0)
            && Apply(s, a).head + (if HasClaimed(k) then 1 else 0) ==
               s.head + (if ClaimsForOther(s, a, c) then 1 else 0) + (if HasClaimed(k') then 1 else 0)
  {
  }
}
