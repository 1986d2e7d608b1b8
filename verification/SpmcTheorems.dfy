/** What the invariant means: SPMCQueue is a bounded FIFO, its slots are
    unambiguous, raw storage is never misused, and its answers are exact. */
module SpmcTheorems {
  import opened Ring
  import opened SpmcModel
  import opened SpmcInvariant

  lemma Reachable<T>(capacity: nat, consumers: nat, acts: seq<Action<T>>)
    requires capacity >= 2
    ensures Inv(Run(Init<T>(capacity, consumers), acts))
  {
    InitInv<T>(capacity, consumers);
    RunInv(Init<T>(capacity, consumers), acts);
  }

  // ---------------------------------------------- refinement of a bounded FIFO

  datatype FifoOp<+T> = Push(item: T) | Pop(consumer: nat)

  /** A bounded queue, with the items already popped and who got them. */
  datatype Fifo<+T> = Fifo(queue: seq<T>, taken: seq<(nat, T)>)

  function FifoStep<T>(f: Fifo<T>, capacity: nat, op: FifoOp<T>): Option<Fifo<T>> {
    match op
    case Push(item) => if |f.queue| < capacity then Some(f.(queue := f.queue + [item])) else None
    case Pop(c) =>
      if |f.queue| > 0 then Some(Fifo(f.queue[1..], f.taken + [(c, f.queue[0])])) else None
  }

  function Replay<T>(capacity: nat, ops: seq<FifoOp<T>>): Option<Fifo<T>> {
    if ops == [] then Some(Fifo([], []))
    else match Replay(capacity, ops[..|ops| - 1])
      case None => None
      case Some(f) => FifoStep(f, capacity, ops[|ops| - 1])
  }

  /** A push takes effect at the sequence store, a pop at the successful CAS. */
  function OpsOf<T>(s: State<T>, a: Action<T>): seq<FifoOp<T>> {
    if !Enabled(s, a) then []
    else match a
      case StoreSequence => [Push(s.producer.item)]
      case CasSuccess(c) => [Pop(c)]
      case _ => []
  }

  function Ops<T>(s: State<T>, acts: seq<Action<T>>): seq<FifoOp<T>> {
    if acts == [] then []
    else Ops(s, acts[..|acts| - 1]) + OpsOf(Run(s, acts[..|acts| - 1]), acts[|acts| - 1])
  }

  ghost function Abstract<T>(s: State<T>): Fifo<T>
    requires Counters(s)
  {
    Fifo(s.published[s.head..], seq(s.head, q requires 0 <= q < s.head => (s.claims[q], s.published[q])))
  }

  /** Each action is a legal FIFO operation on the abstract queue, or invisible. */
  lemma StepRefines<T>(s: State<T>, a: Action<T>)
    requires Inv(s)
    ensures Inv(Apply(s, a))
    ensures var ops := OpsOf(s, a);
            if ops == [] then Abstract(Apply(s, a)) == Abstract(s)
            else FifoStep(Abstract(s), s.capacity, ops[0]) == Some(Abstract(Apply(s, a)))
  {
    ApplyInv(s, a);
    var s' := Apply(s, a);
    if Enabled(s, a) && a.StoreSequence? {
      StoreSequenceSlots(s);
      assert s'.published[s.head..] == s.published[s.head..] + [s.producer.item];
      assert Abstract(s').taken == Abstract(s).taken;
    } else if Enabled(s, a) && a.CasSuccess? {
      assert ConsumerOk(s, a.c);
      assert s.published[s.head..][1..] == s'.published[s'.head..];
      assert Abstract(s').taken == Abstract(s).taken + [(a.c, s.published[s.head])];
    } else {
      QuietStep(s, a);
    }
  }

  lemma QuietStep<T>(s: State<T>, a: Action<T>)
    requires OpsOf(s, a) == []
    ensures var s' := Apply(s, a);
            s'.published == s.published && s'.head == s.head && s'.claims == s.claims && s'.capacity == s.capacity
  {
  }

  lemma ReplayOne<T>(capacity: nat, ops: seq<FifoOp<T>>, more: seq<FifoOp<T>>, f: Fifo<T>, f': Fifo<T>)
    requires Replay(capacity, ops) == Some(f) && |more| <= 1
    requires if more == [] then f' == f else FifoStep(f, capacity, more[0]) == Some(f')
    ensures Replay(capacity, ops + more) == Some(f')
  {
    if more == [] {
      assert ops + more == ops;
    } else {
      assert (ops + more)[..|ops + more| - 1] == ops;
    }
  }

  /** Every interleaving of one producer and any number of consumers is a run of
      a FIFO bounded by the capacity: no push meets a full queue, no pop an empty
      one, and the abstract queue and the popped items are those of the state. */
  lemma {:induction false} RefinesBoundedFifo<T>(capacity: nat, consumers: nat, acts: seq<Action<T>>)
    requires capacity >= 2
    ensures var s := Run(Init<T>(capacity, consumers), acts);
            Counters(s) && s.capacity == capacity &&
            Replay(capacity, Ops(Init<T>(capacity, consumers), acts)) == Some(Abstract(s))
  {
    var s0 := Init<T>(capacity, consumers);
    Reachable<T>(capacity, consumers, acts);
    if acts == [] {
      assert Abstract(s0) == Fifo([], []);
    } else {
      hide SlotsOk, ProducerOk, ConsumersOk, DestroyedOk, DeliveredOk, FifoStep, Enabled;
      var before, a := acts[..|acts| - 1], acts[|acts| - 1];
      RefinesBoundedFifo<T>(capacity, consumers, before);
      Reachable<T>(capacity, consumers, before);
      var s := Run(s0, before);
      StepRefines(s, a);
      StepKeepsCapacity(s, a);
      ReplayOne(capacity, Ops(s0, before), OpsOf(s, a), Abstract(s), Abstract(Apply(s, a)));
    }
  }

  lemma StepKeepsCapacity<T>(s: State<T>, a: Action<T>)
    ensures Apply(s, a).capacity == s.capacity && |OpsOf(s, a)| <= 1
  {
  }

  /** Exactly-once delivery: callers receive what the FIFO popped for them, and
      no position is received twice. */
  lemma DeliversExactlyOnce<T>(capacity: nat, consumers: nat, acts: seq<Action<T>>)
    requires capacity >= 2
    ensures var s := Run(Init<T>(capacity, consumers), acts);
            Counters(s) &&
            var taken := Abstract(s).taken;
            && (forall i :: 0 <= i < |s.delivered| ==>
                  var r := s.delivered[i];
                  r.position < |taken| && taken[r.position] == (r.consumer, r.value)
                  && r.value == s.published[r.position])
            && (forall i, j :: 0 <= i < j < |s.delivered| ==> s.delivered[i].position != s.delivered[j].position)
  {
    var s := Run(Init<T>(capacity, consumers), acts);
    Reachable(capacity, consumers, acts);
    var taken := Abstract(s).taken;
    forall i | 0 <= i < |s.delivered|
      ensures s.delivered[i].position < |taken|
      ensures taken[s.delivered[i].position] == (s.delivered[i].consumer, s.delivered[i].value)
      ensures s.delivered[i].value == s.published[s.delivered[i].position]
    {
      assert ReceiptOk(s, s.delivered[i]);
    }
  }

  predicate Quiescent<T>(s: State<T>) {
    s.producer == PIdle && forall c :: 0 <= c < |s.consumers| ==> s.consumers[c] == CIdle
  }

  /** Once no call is in progress, every popped item has been received. */
  lemma NothingLostAtRest<T>(capacity: nat, consumers: nat, acts: seq<Action<T>>, q: nat)
    requires capacity >= 2
    requires var s := Run(Init<T>(capacity, consumers), acts); Quiescent(s) && q < s.head
    ensures var s := Run(Init<T>(capacity, consumers), acts);
            Counters(s) && Receipt(q, s.claims[q], s.published[q]) in s.delivered
  {
    var s := Run(Init<T>(capacity, consumers), acts);
    Reachable(capacity, consumers, acts);
    assert !Undelivered(s, q);
    var i :| 0 <= i < |s.delivered| && s.delivered[i].position == q;
    assert ReceiptOk(s, s.delivered[i]);
  }

  // ------------------------------------------------------- the slot encoding

  datatype SlotState = Free(p: nat) | Full(p: nat) | Claimed(p: nat, c: nat)

  ghost predicate Describes<T>(s: State<T>, i: nat, d: SlotState)
    requires Shape(s) && i < s.capacity
  {
    && Slot(d.p, s.capacity) == i
    && match d
       case Free(p) => s.sequence[i] == p && |s.published| <= p < |s.published| + s.capacity
       case Full(p) => s.sequence[i] == p + 1 && s.head <= p < |s.published|
       case Claimed(p, c) =>
         s.sequence[i] == p + 1 && p < s.head && c < |s.consumers| && Holds(s.consumers[c], p)
  }

  /** The sequence number alone says which position a slot belongs to and in
      which state it is; a claimed slot has exactly one holder. */
  lemma SlotStateUnique<T>(s: State<T>, i: nat)
    requires Inv(s) && i < s.capacity
    ensures exists d :: Describes(s, i, d)
    ensures forall d, e :: Describes(s, i, d) && Describes(s, i, e) ==> d == e
  {
    var p := WindowCovers(|s.published|, i, s.capacity);
    assert SlotOk(s, p);
    if p >= s.capacity && Busy(s, p - s.capacity) {
      var q := p - s.capacity;
      assert Slot(p, s.capacity) == Slot(q, s.capacity);
      assert Describes(s, i, if q >= s.head then Full(q) else Claimed(q, s.claims[q]));
    } else {
      assert Describes(s, i, Free(p));
    }
    forall d, e | Describes(s, i, d) && Describes(s, i, e) ensures d == e {
      SlotStatesAgree(s, i, d, e);
    }
  }

  lemma SlotStatesAgree<T>(s: State<T>, i: nat, d: SlotState, e: SlotState)
    requires Inv(s) && i < s.capacity
    requires Describes(s, i, d) && Describes(s, i, e)
    ensures d == e
  {
    if d.p + 1 == e.p { SlotInjective(d.p, e.p, s.capacity); }
    if e.p + 1 == d.p { SlotInjective(e.p, d.p, s.capacity); }
    if d.Claimed? { assert ConsumerOk(s, d.c); }
    if e.Claimed? { assert ConsumerOk(s, e.c); }
  }

  /** A consumer's copy h of head_, however stale, is classified exactly: the
      loaded sequence is h + 1 while position h is published and unreleased,
      above it once h is released, and below it exactly while h is unpublished,
      which means the queue is empty at that load. */
  lemma ConsumerLoadIsExact<T>(s: State<T>, c: nat)
    requires Inv(s) && Enabled(s, ConsumerLoad(c))
    ensures var h := s.consumers[c].h;
            var seen := s.sequence[Slot(h, s.capacity)];
            && (seen == h + 1 <==> h < |s.published| && |s.published| <= h + s.capacity && Busy(s, h))
            && (seen < h + 1 <==> h == |s.published|)
            && (seen < h + 1 <==> h == s.head && s.head == |s.published|)
            && (seen > h + 1 ==> h < s.head)
  {
    assert ConsumerOk(s, c);
    SequenceAt(s, s.consumers[c].h);
  }

  /** try_pop answers nullopt exactly when the queue is empty at its sequence load. */
  lemma NulloptMeansEmpty<T>(capacity: nat, consumers: nat, acts: seq<Action<T>>, c: nat)
    requires capacity >= 2
    requires var s := Run(Init<T>(capacity, consumers), acts);
             Enabled(s, ConsumerLoad(c)) && !s.consumers[c].blocking
    ensures var s := Run(Init<T>(capacity, consumers), acts);
            Counters(s) &&
            (Apply(s, ConsumerLoad(c)).consumers[c] == CIdle <==>
               s.consumers[c].h == s.head && s.published[s.head..] == [])
  {
    Reachable(capacity, consumers, acts);
    ConsumerLoadIsExact(Run(Init<T>(capacity, consumers), acts), c);
  }

  /** The producer reads t when its slot is free and t - C + 1 otherwise, never
      more than t; so it is refused exactly while the item one lap behind has
      not been released. */
  lemma ProducerLoadIsExact<T>(s: State<T>)
    requires Inv(s) && Enabled(s, ProducerLoad)
    ensures var t, seen := s.tail, s.sequence[Slot(s.producer.t, s.capacity)];
            && t == s.producer.t == |s.published|
            && (seen == t || seen + s.capacity == t + 1)
            && (seen == t <==> t < s.capacity || !Busy(s, t - s.capacity))
            && (seen != t ==> seen < t)
  {
    SequenceAt(s, s.producer.t);
  }

  /** try_emplace is refused on a queue that is not full exactly while a consumer
      holds position t - C: it has claimed it and not yet released its slot. */
  lemma RefusedThoughNotFullIff<T>(s: State<T>)
    requires Inv(s) && Enabled(s, ProducerLoad)
    ensures (s.sequence[Slot(s.producer.t, s.capacity)] != s.producer.t && |s.published[s.head..]| < s.capacity)
              <==> (s.tail >= s.capacity && s.tail - s.capacity < s.head && Held(s, s.tail - s.capacity))
    ensures |s.published[s.head..]| == s.capacity ==> s.sequence[Slot(s.producer.t, s.capacity)] != s.producer.t
  {
    ProducerLoadIsExact(s);
  }

  /** So, when no pop is in progress, it is refused exactly on a full queue. */
  lemma RefusedMeansFull<T>(s: State<T>)
    requires Inv(s) && Enabled(s, ProducerLoad)
    requires forall c :: 0 <= c < |s.consumers| ==> s.consumers[c] == CIdle
    ensures s.sequence[Slot(s.producer.t, s.capacity)] != s.producer.t <==> |s.published[s.head..]| == s.capacity
  {
    RefusedThoughNotFullIff(s);
    if s.tail >= s.capacity {
      assert !Held(s, s.tail - s.capacity);
    }
  }

  // -------------------------------------------------------------- the counters

  /** tail_ - head_ is at most the capacity at any one instant, unless head_ has
      passed tail_: which it has, by one, exactly while the last item published
      has been claimed and its tail_ store is still to come. */
  lemma HeadPassesTailIff<T>(s: State<T>)
    requires Inv(s)
    ensures s.head > s.tail <==> s.producer.PPublished? && s.head == |s.published|
    ensures s.head > s.tail ==> s.head == s.tail + 1
    ensures s.head <= s.tail ==> s.tail - s.head <= s.capacity
  {
  }

  lemma StepCounters<T>(s: State<T>, a: Action<T>)
    requires Inv(s)
    ensures s.head <= Apply(s, a).head && s.tail <= Apply(s, a).tail && Apply(s, a).capacity == s.capacity
  {
  }

  lemma {:induction false} RunCounters<T>(s: State<T>, acts: seq<Action<T>>)
    requires Inv(s)
    ensures Inv(Run(s, acts)) && Run(s, acts).capacity == s.capacity
    ensures s.head <= Run(s, acts).head && s.tail <= Run(s, acts).tail
  {
    hide Inv, Apply;
    RunInv(s, acts);
    if acts == [] {
    } else {
      RunCounters(s, acts[..|acts| - 1]);
      StepCounters(Run(s, acts[..|acts| - 1]), acts[|acts| - 1]);
    }
  }

  /** size_approx loads head_ at s and tail_ after some more steps. Its
      subtraction wraps exactly if head_ had passed tail_ at the first load and
      tail_ has not moved since; and its answer exceeds the capacity at most by
      the number of claims between the two loads. */
  lemma SizeApproxWrapsIff<T>(s: State<T>, acts: seq<Action<T>>)
    requires Inv(s)
    ensures var s' := Run(s, acts);
            && (s'.tail < s.head <==> s.producer.PPublished? && s.head == |s.published| && s'.tail == s.tail)
            && s.head <= s'.head && s'.tail - s.head <= s.capacity + (s'.head - s.head)
  {
    hide Inv, Run;
    RunCounters(s, acts);
    HeadPassesTailIff(s);
    HeadPassesTailIff(Run(s, acts));
  }

  // ------------------------------------------------------ raw-storage safety

  /** The action would construct over an object, finish a construction that was
      disturbed, move out of a slot without a live object, or destroy one that
      was not moved from. */
  predicate Faults<T>(s: State<T>, a: Action<T>) {
    && Enabled(s, a)
    && match a
       case ConstructBegin => s.storage[Slot(s.producer.t, s.capacity)] != Raw
       case ConstructEnd => s.storage[Slot(s.producer.t, s.capacity)] != Building
       case MoveOut(c) => !s.storage[Slot(s.consumers[c].h, s.capacity)].Live?
       case Destroy(c) => s.storage[Slot(s.consumers[c].h, s.capacity)] != Husk
       case _ => false
  }

  lemma StorageIsSafe<T>(capacity: nat, consumers: nat, acts: seq<Action<T>>, a: Action<T>)
    requires capacity >= 2
    ensures !Faults(Run(Init<T>(capacity, consumers), acts), a)
  {
    Reachable(capacity, consumers, acts);
    var s := Run(Init<T>(capacity, consumers), acts);
    if Enabled(s, a) {
      match a
      case ConstructBegin => BuildSlots(s, a);
      case ConstructEnd => BuildSlots(s, a);
      case MoveOut(c) => MoveOutInv(s, c);
      case Destroy(c) => DestroyInv(s, c);
      case _ =>
    }
  }

  /** The positions the destructor's walk from pos to tail_ destroys. */
  function Walk<T>(s: State<T>, pos: nat): (r: seq<nat>)
    requires Shape(s)
    decreases s.tail - pos
  {
    if pos >= s.tail then []
    else (if s.sequence[Slot(pos, s.capacity)] == pos + 1 then [pos] else []) + Walk(s, pos + 1)
  }

  lemma {:induction false} WalkFindsAll<T>(s: State<T>, pos: nat)
    requires Inv(s) && Quiescent(s) && s.head <= pos <= s.tail
    ensures Walk(s, pos) == seq(s.tail - pos, i => pos + i)
    ensures forall q :: pos <= q < s.tail ==>
              s.sequence[Slot(q, s.capacity)] == q + 1
              && s.storage[Slot(q, s.capacity)] == Live(s.published[q])
    decreases s.tail - pos
  {
    if pos == s.tail {
    } else {
      WalkFindsAll(s, pos + 1);
      assert Slot(pos + s.capacity, s.capacity) == Slot(pos, s.capacity);
      assert SlotOk(s, pos + s.capacity);
      assert Walk(s, pos) == [pos] + Walk(s, pos + 1);
    }
  }

  /** Once no call is in progress, the destructor's walk destroys exactly the
      items never popped, each of them live; with those already destroyed by
      pops, every object ever constructed is destroyed exactly once. */
  lemma DestroyedExactlyOnce<T>(capacity: nat, consumers: nat, acts: seq<Action<T>>)
    requires capacity >= 2
    requires Quiescent(Run(Init<T>(capacity, consumers), acts))
    ensures var s := Run(Init<T>(capacity, consumers), acts);
            Inv(s) &&
            var all := s.destroyed + Walk(s, s.head);
            && Walk(s, s.head) == seq(s.tail - s.head, i => s.head + i)
            && (forall q :: s.head <= q < s.tail ==> s.storage[Slot(q, s.capacity)] == Live(s.published[q]))
            && (forall q :: q in all <==> 0 <= q < |s.published|)
            && (forall i, j :: 0 <= i < j < |all| ==> all[i] != all[j])
  {
    Reachable(capacity, consumers, acts);
    var s := Run(Init<T>(capacity, consumers), acts);
    WalkFindsAll(s, s.head);
    var walk := Walk(s, s.head);
    var all := s.destroyed + walk;
    assert forall q :: 0 <= q < s.head ==> !Undestroyed(s, q);
    forall q ensures q in all <==> 0 <= q < |s.published| {
      if s.head <= q < s.tail {
        assert walk[q - s.head] == q;
        assert all[|s.destroyed| + q - s.head] == q;
      }
    }
    forall i, j | 0 <= i < j < |all| ensures all[i] != all[j] {
      if i < |s.destroyed| <= j {
        assert all[i] in s.destroyed && all[j] == walk[j - |s.destroyed|];
      }
    }
  }

  /** A slot the walk does not visit is raw: nothing leaks. */
  lemma RestIsRaw<T>(s: State<T>, i: nat) returns (q: nat)
    requires Inv(s) && Quiescent(s) && i < s.capacity
    ensures s.storage[i] == Raw || (s.head <= q < s.tail && Slot(q, s.capacity) == i)
  {
    var p := WindowCovers(|s.published|, i, s.capacity);
    assert SlotOk(s, p);
    q := 0;
    if p >= s.capacity {
      q := p - s.capacity;
      assert Slot(p, s.capacity) == Slot(q, s.capacity);
      assert !Held(s, q);
    }
  }
}
