/** Concrete runs of SPMCQueue that show which promises fail, and on what input.
    All but one use capacity 2 and two consumers. */
module SpmcScenarios {
  import opened Ring
  import opened SpmcModel
  import opened SpmcTheorems
  import opened SpmcBlocking
  import opened SpmcWords

  /** Extends a run by one action. */
  lemma Next<T>(s0: State<T>, acts: seq<Action<T>>, s: State<T>, a: Action<T>)
    returns (acts': seq<Action<T>>, s': State<T>)
    requires Run(s0, acts) == s
    ensures acts' == acts + [a] && s' == Apply(s, a) && Run(s0, acts') == s'
  {
    acts', s' := acts + [a], Apply(s, a);
    assert acts'[..|acts'| - 1] == acts;
  }

  /** A try_emplace that finds its slot free, from call to return. */
  lemma Emplace<T>(s0: State<T>, acts: seq<Action<T>>, s: State<T>, item: T)
    returns (acts': seq<Action<T>>, s': State<T>)
    requires Run(s0, acts) == s && Shape(s) && s.producer == PIdle
    requires s.sequence[Slot(s.tail, s.capacity)] == s.tail
    requires forall c :: 0 <= c < |s.consumers| ==> !s.consumers[c].CParked?
    ensures Run(s0, acts') == s'
    ensures var i := Slot(s.tail, s.capacity);
            s' == s.(tail := s.tail + 1, sequence := s.sequence[i := s.tail + 1],
                     storage := s.storage[i := Live(item)], published := s.published + [item])
  {
    acts', s' := Build(s0, acts, s, item);
    acts', s' := Next(s0, acts', s', StoreSequence);
    acts', s' := Next(s0, acts', s', StoreTail);
    acts', s' := Wake(s0, acts', s');
  }

  /** A notify_all with nobody asleep. */
  lemma Wake<T>(s0: State<T>, acts: seq<Action<T>>, s: State<T>)
    returns (acts': seq<Action<T>>, s': State<T>)
    requires Run(s0, acts) == s && Shape(s) && s.producer.PTailStored?
    requires forall c :: 0 <= c < |s.consumers| ==> !s.consumers[c].CParked?
    ensures Run(s0, acts') == s' && s' == s.(producer := PIdle)
  {
    acts', s' := Next(s0, acts, s, NotifyAll);
    assert s'.consumers == s.consumers;
  }

  lemma Build<T>(s0: State<T>, acts: seq<Action<T>>, s: State<T>, item: T)
    returns (acts': seq<Action<T>>, s': State<T>)
    requires Run(s0, acts) == s && Shape(s) && s.producer == PIdle
    requires s.sequence[Slot(s.tail, s.capacity)] == s.tail
    ensures Run(s0, acts') == s'
    ensures s' == s.(producer := PBuilt(s.tail, item), storage := s.storage[Slot(s.tail, s.capacity) := Live(item)])
  {
    acts', s' := Next(s0, acts, s, ProducerCall(item, false));
    acts', s' := Next(s0, acts', s', ProducerLoad);
    acts', s' := Next(s0, acts', s', ConstructBegin);
    acts', s' := Next(s0, acts', s', ConstructEnd);
  }

  /** A pop up to its successful CAS. */
  lemma Claim<T>(s0: State<T>, acts: seq<Action<T>>, s: State<T>, c: nat)
    returns (acts': seq<Action<T>>, s': State<T>)
    requires Run(s0, acts) == s && Shape(s) && c < |s.consumers| && s.consumers[c] == CIdle
    requires s.sequence[Slot(s.head, s.capacity)] == s.head + 1
    ensures Run(s0, acts') == s'
    ensures s' == s.(consumers := s.consumers[c := CClaimed(s.head)], head := s.head + 1, claims := s.claims + [c])
  {
    acts', s' := Next(s0, acts, s, ConsumerCall(c, s.head, false));
    acts', s' := Next(s0, acts', s', ConsumerLoad(c));
    acts', s' := Next(s0, acts', s', CasSuccess(c));
  }

  /** The rest of a claimed pop, up to and including the release of its slot. */
  lemma Finish<T>(s0: State<T>, acts: seq<Action<T>>, s: State<T>, c: nat)
    returns (acts': seq<Action<T>>, s': State<T>)
    requires Run(s0, acts) == s && Shape(s) && c < |s.consumers| && s.consumers[c].CClaimed?
    requires s.storage[Slot(s.consumers[c].h, s.capacity)].Live?
    ensures Run(s0, acts') == s'
    ensures var h := s.consumers[c].h;
            var i := Slot(h, s.capacity);
            s' == s.(consumers := s.consumers[c := CReleased(h, s.storage[i].value)],
                     sequence := s.sequence[i := h + s.capacity], storage := s.storage[i := Raw],
                     destroyed := s.destroyed + [h])
  {
    acts', s' := Next(s0, acts, s, MoveOut(c));
    acts', s' := Next(s0, acts', s', Destroy(c));
    acts', s' := Next(s0, acts', s', Release(c));
  }

  lemma NotifyNobody<T>(s0: State<T>, acts: seq<Action<T>>, s: State<T>, c: nat)
    returns (acts': seq<Action<T>>, s': State<T>)
    requires Run(s0, acts) == s && Shape(s) && c < |s.consumers| && s.consumers[c].CReleased?
    requires !s.producer.PParked? && forall d :: 0 <= d < |s.consumers| ==> !s.consumers[d].CParked?
    ensures Run(s0, acts') == s'
    ensures s' == s.(consumers := s.consumers[c := CIdle],
                     delivered := s.delivered + [Receipt(s.consumers[c].h, c, s.consumers[c].value)])
  {
    acts', s' := Next(s0, acts, s, NotifyOne(c, Nobody));
  }

  /** Two items are published and both are claimed, neither slot released. */
  const BOTH_CLAIMED := State(2, 2, 2, [1, 2], [Live(7), Live(8)], PIdle,
                             [CClaimed(0), CClaimed(1)], [7, 8], [0, 1], [], [])

  lemma ReachBothClaimed() returns (acts: seq<Action<int>>)
    ensures Run(Init<int>(2, 2), acts) == BOTH_CLAIMED
  {
    var s0 := Init<int>(2, 2);
    assert s0.sequence == [0, 1] && s0.storage == [Raw, Raw] && s0.consumers == [CIdle, CIdle];
    acts := [];
    var s := s0;
    acts, s := Emplace(s0, acts, s, 7);
    assert s.sequence == [1, 1] && s.storage == [Live(7), Raw] && Slot(1, 2) == 1;
    acts, s := Emplace(s0, acts, s, 8);
    assert s.sequence == [1, 2] && s.storage == [Live(7), Live(8)];
    acts, s := Claim(s0, acts, s, 0);
    acts, s := Claim(s0, acts, s, 1);
    assert s.consumers == [CClaimed(0), CClaimed(1)];
  }

  /** try_emplace can be refused although every item has been claimed and head_
      equals tail_: a claimed slot is not free until it is released. */
  lemma RefusedWhileEmpty() returns (acts: seq<Action<int>>)
    ensures var s := Run(Init<int>(2, 2), acts);
            && s.head == s.tail == |s.published|
            && Enabled(s, ProducerLoad) && !s.producer.blocking
            && Apply(s, ProducerLoad).producer == PIdle
  {
    acts := ReachBothClaimed();
    var s;
    acts, s := Next(Init<int>(2, 2), acts, BOTH_CLAIMED, ProducerCall(9, false));
    assert Slot(2, 2) == 0;
  }

  /** Between the sequence store and the tail_ store an item can be claimed, so
      head_ runs one ahead of tail_; then tail_ - head_ wraps. */
  lemma HeadPassesTail() returns (acts: seq<Action<int>>)
    ensures var s := Run(Init<int>(2, 2), acts); s.head == s.tail + 1 == |s.published|
  {
    var s0 := Init<int>(2, 2);
    acts := [];
    var s := s0;
    acts, s := Build(s0, acts, s, 7);
    acts, s := Next(s0, acts, s, StoreSequence);
    acts, s := Claim(s0, acts, s, 0);
  }

  /** head_ is loaded as 0, and by the time tail_ is loaded it is 3: size_approx
      answers 3 on a queue of capacity 2, without any wrap. */
  lemma SizeApproxExceedsCapacity() returns (acts: seq<Action<int>>)
    ensures var s0 := Init<int>(2, 2); Run(s0, acts).tail - s0.head > s0.capacity
  {
    var s0 := Init<int>(2, 2);
    assert Slot(1, 2) == 1 && Slot(2, 2) == 0;
    var s;
    acts, s := PassOne(s0, [], s0);
    acts, s := Emplace(s0, acts, s, 7);
    acts, s := Emplace(s0, acts, s, 7);
  }

  /** Consumer 1 pops an item just published, on a queue otherwise empty. */
  lemma PassOne(s0: State<int>, acts: seq<Action<int>>, s: State<int>)
    returns (acts': seq<Action<int>>, s': State<int>)
    requires Run(s0, acts) == s && AtRest(s, s.head)
    ensures Run(s0, acts') == s' && AtRest(s', s.head + 1)
  {
    var n := s.head;
    acts', s' := Emplace(s0, acts, s, 7);
    acts', s' := Claim(s0, acts', s', 1);
    acts', s' := Finish(s0, acts', s', 1);
    acts', s' := NotifyNobody(s0, acts', s', 1);
    assert Slot(n + 2, 2) == Slot(n, 2);
    SlotInjective(n, n + 1, 2);
  }

  /** n items have gone through; the queue is empty and nobody is in a call. */
  predicate AtRest(s: State<int>, n: nat) {
    && Shape(s) && s.capacity == 2 && s.producer == PIdle && s.consumers == [CIdle, CIdle]
    && s.head == s.tail == |s.published| == n
    && s.sequence[Slot(n, 2)] == n && s.sequence[Slot(n + 1, 2)] == n + 1
  }

  lemma {:induction false} PassMany(n: nat) returns (acts: seq<Action<int>>, s: State<int>)
    ensures Run(Init<int>(2, 2), acts) == s && AtRest(s, n)
  {
    if n == 0 {
      acts, s := [], Init<int>(2, 2);
      assert s.consumers == [CIdle, CIdle];
    } else {
      acts, s := PassMany(n - 1);
      acts, s := PassOne(Init<int>(2, 2), acts, s);
    }
  }

  lemma FarAheadLooksEmpty()
    ensures WordVerdict(Wrap(HALF + 2), Wrap(0)) == IsEmpty && ExactVerdict(HALF + 2, 0) == IsStale
  {
    WrappedDifference(HALF + 2, 0);
  }

  lemma ReachStaleCopy(n: nat) returns (acts: seq<Action<int>>)
    ensures var s := Run(Init<int>(2, 2), acts);
            && Shape(s) && |s.consumers| > 0 && s.consumers[0] == CScan(0, false)
            && s.capacity == 2 && s.head == n < |s.published| && s.sequence[Slot(n + 1, 2)] == n + 1
  {
    var s;
    acts, s := PassMany(n);
    SlotInjective(n, n + 1, 2);
    acts, s := Emplace(Init<int>(2, 2), acts, s, 8);
    acts, s := Next(Init<int>(2, 2), acts, s, ConsumerCall(0, 0, false));
  }

  /** On words: after 2^63 + 1 items have gone through, the first load of head_
      may still return 0. There is an item in the queue, the copy of head_ is
      stale, and the test on words takes the queue for empty. */
  lemma StaleCopyLooksEmpty() returns (acts: seq<Action<int>>)
    ensures var s := Run(Init<int>(2, 2), acts);
            && Enabled(s, ConsumerLoad(0)) && s.consumers[0] == CScan(0, false)
            && s.head < |s.published|
            && var seen := s.sequence[Slot(0, 2)];
               WordVerdict(Wrap(seen), Wrap(0)) == IsEmpty && ExactVerdict(seen, 0) == IsStale
  {
    hide Run, Init, WordVerdict, ExactVerdict, Wrap, Slot;
    acts := ReachStaleCopy(HALF + 1);
    SlotIsMod(HALF + 2, 2);
    SlotIsMod(0, 2);
    FarAheadLooksEmpty();
  }

  /** Capacities below 2 are rejected for a reason. On a ring of one slot, the
      sequence 1 of an item not yet popped also means that the slot is free for
      position 1: the next try_emplace would construct over the item. */
  lemma AmbiguousAtOne() returns (acts: seq<Action<int>>)
    ensures var s := Run(Init<int>(1, 1), acts);
            && Shape(s) && s.capacity == 1
            && Describes(s, 0, Full(0)) && Describes(s, 0, Free(1))
            && Faults(Run(s, [ProducerCall(8, false), ProducerLoad]), ConstructBegin)
  {
    var s0 := Init<int>(1, 1);
    var s;
    acts, s := Emplace(s0, [], s0, 7);
    assert Slot(1, 1) == 0;
    assert Run(s, []) == s;
    var acts', s' := Next(s, [], s, ProducerCall(8, false));
    acts', s' := Next(s, acts', s', ProducerLoad);
    assert acts' == [ProducerCall(8, false), ProducerLoad];
  }

  const ASLEEP := State(2, 2, 2, [1, 3], [Live(7), Raw], PParked(2, 9, 1),
                        [CClaimed(0), CParked(2, 1)], [7, 8], [0, 1], [Receipt(1, 1, 8)], [1])

  const LAGGING := State(2, 2, 2, [1, 3], [Live(7), Raw], PIdle,
                         [CClaimed(0), CParked(2, 1)], [7, 8], [0, 1], [Receipt(1, 1, 8)], [1])

  /** Consumer 1 has popped position 1 and sleeps on the empty queue, on the
      slot of position 0, which consumer 0 has not released. */
  lemma ReachLagging() returns (acts: seq<Action<int>>)
    ensures Run(Init<int>(2, 2), acts) == LAGGING
  {
    var s0 := Init<int>(2, 2);
    acts := ReachBothClaimed();
    var s := BOTH_CLAIMED;
    assert Slot(1, 2) == 1 && Slot(2, 2) == 0;
    acts, s := Finish(s0, acts, s, 1);
    assert s.consumers == [CClaimed(0), CReleased(1, 8)];
    assert s.sequence == [1, 3] && s.storage == [Live(7), Raw];
    acts, s := NotifyNobody(s0, acts, s, 1);
    assert s.consumers == [CClaimed(0), CIdle];
    acts, s := Sleep(s0, acts, s, 1);
    assert s.consumers == [CClaimed(0), CParked(2, 1)];
  }

  /** A pop_wait that finds the queue empty and goes to sleep. */
  lemma Sleep<T>(s0: State<T>, acts: seq<Action<T>>, s: State<T>, c: nat)
    returns (acts': seq<Action<T>>, s': State<T>)
    requires Run(s0, acts) == s && Shape(s) && c < |s.consumers| && s.consumers[c] == CIdle
    requires s.sequence[Slot(s.head, s.capacity)] < s.head + 1
    ensures Run(s0, acts') == s'
    ensures s' == s.(consumers := s.consumers[c := CParked(s.head, s.sequence[Slot(s.head, s.capacity)])])
  {
    acts', s' := Next(s0, acts, s, ConsumerCall(c, s.head, true));
    acts', s' := Next(s0, acts', s', ConsumerLoad(c));
    acts', s' := Next(s0, acts', s', ConsumerCompare(c));
  }

  /** The producer joins it on the same slot. */
  lemma ReachAsleep() returns (acts: seq<Action<int>>)
    ensures Run(Init<int>(2, 2), acts) == ASLEEP
  {
    var s0 := Init<int>(2, 2);
    acts := ReachLagging();
    var s := LAGGING;
    assert Slot(2, 2) == 0;
    acts, s := Next(s0, acts, s, ProducerCall(9, true));
    acts, s := Next(s0, acts, s, ProducerLoad);
    acts, s := Next(s0, acts, s, ProducerCompare);
  }

  const WOKEN_1 := State(2, 2, 2, [2, 3], [Raw, Raw], PParked(2, 9, 1),
                        [CIdle, CWaiting(2, 1)], [7, 8], [0, 1], [Receipt(1, 1, 8), Receipt(0, 0, 7)], [1, 0])

  lemma ReachWoken1() returns (acts: seq<Action<int>>)
    ensures Run(Init<int>(2, 2), acts) == WOKEN_1
  {
    var s0 := Init<int>(2, 2);
    acts := ReachAsleep();
    var s := ASLEEP;
    assert Slot(2, 2) == 0;
    acts, s := Finish(s0, acts, s, 0);
    assert s.consumers == [CReleased(0, 7), CParked(2, 1)] && s.sequence == [2, 3];
    acts, s := Next(s0, acts, s, NotifyOne(0, TheConsumer(1)));
    assert s.consumers == [CIdle, CWaiting(2, 1)];
    assert s.storage == [Raw, Raw];
  }

  const DEADLOCKED := WOKEN_1.(consumers := [CIdle, CParked(2, 2)])

  /** emplace_wait and pop_wait together can deadlock. Consumer 0 releases the
      slot; its notify_one wakes consumer 1, which finds the queue still empty
      and goes back to sleep. Now the queue is empty, the producer's slot is
      free, every thread sleeps or is idle, and no notification is pending. */
  lemma ProducerCanBeStranded() returns (acts: seq<Action<int>>)
    ensures var s := Run(Init<int>(2, 2), acts);
            && Stranded(s)
            && s.producer.PParked? && s.sequence[Slot(s.producer.t, s.capacity)] == s.producer.t
            && s.head == |s.published|
            && s.consumers == [CIdle, CParked(2, 2)]
  {
    var s0 := Init<int>(2, 2);
    acts := ReachWoken1();
    var s := WOKEN_1;
    assert Slot(2, 2) == 0;
    acts, s := Next(s0, acts, s, ConsumerCompare(1));
    assert s.consumers == [CIdle, CScan(2, true)];
    acts, s := Next(s0, acts, s, ConsumerLoad(1));
    assert s.consumers == [CIdle, CWaiting(2, 2)];
    acts, s := Next(s0, acts, s, ConsumerCompare(1));
    assert s == DEADLOCKED;
  }
}
