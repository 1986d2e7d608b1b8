/** SPSCQueue itself: head, tail and the buffer updated in place, and the two
    operations run against an arbitrary schedule of the other thread. */
module SpscQueue {
  import opened Ring
  import opened Spsc

  predicate OfProducer<T>(a: Action<T>) {
    a.EmplaceCall? || a.LoadHead? || a.AssignBegin? || a.AssignEnd? || a.StoreTail?
  }

  /** The producer's actions among these, or the consumer's, in order. */
  ghost function Side<T>(acts: seq<Action<T>>, producer: bool): seq<Action<T>> {
    if acts == [] then []
    else
      var a := acts[|acts| - 1];
      Side(acts[..|acts| - 1], producer) + (if OfProducer(a) == producer then [a] else [])
  }

  lemma NoSteps<T>(producer: bool)
    ensures Side<T>([], producer) == []
  {
  }

  lemma SideStep<T>(acts: seq<Action<T>>, i: nat, producer: bool)
    requires i < |acts|
    ensures Side(acts[..i + 1], producer)
            == Side(acts[..i], producer) + (if OfProducer(acts[i]) == producer then [acts[i]] else [])
  {
    assert acts[..i + 1][..i] == acts[..i];
  }

  /** What every step of the class has to know about the model. */
  lemma StepIsApply<T>(s0: State<T>, acts: seq<Action<T>>, a: Action<T>)
    requires Inv(Run(s0, acts))
    ensures Run(s0, acts + [a]) == Apply(Run(s0, acts), a)
    ensures Inv(Apply(Run(s0, acts), a))
  {
    assert (acts + [a])[..|acts|] == acts;
    RunInv(Run(s0, acts), [a]);
    assert [a][..0] == [];
    assert Run(Run(s0, acts), [a]) == Apply(Run(s0, acts), a);
  }

  /** Each thread leaves the other's registers and counter alone. */
  lemma OtherSideStays<T>(s: State<T>, a: Action<T>)
    ensures OfProducer(a) ==>
              var s' := Apply(s, a);
              s'.consumer == s.consumer && s'.popped == s.popped && s'.returned == s.returned && s.pushed <= s'.pushed
    ensures !OfProducer(a) ==>
              var s' := Apply(s, a); s'.producer == s.producer && s'.pushed == s.pushed && s.popped <= s'.popped
  {
  }

  class Queue<T> {
    const capacity: nat
    const mask: nat
    ghost const exponent: nat
    const buffer: array<Cell<T>>
    var head: nat
    var tail: nat

    // The threads' registers.
    var producer: Producer<T>
    var consumer: Consumer<T>

    // The logs of the model, and every step taken so far.
    ghost var pushed: seq<T>
    ghost var popped: nat
    ghost var returned: seq<T>
    ghost var history: seq<Action<T>>

    ghost function State(): State<T>
      reads this, buffer
    {
      Spsc.State(capacity, head, tail, buffer[..], producer, consumer, pushed, popped, returned)
    }

    ghost predicate Separate()
      reads this
    {
      buffer.Length == capacity == Pow2(exponent) && mask == capacity - 1
    }

    ghost predicate Valid()
      reads this, buffer
    {
      Separate() && Inv(State()) && State() == Run(Init<T>(capacity), history)
    }

    function Next(i: nat): (r: nat)
      requires Separate()
      reads this
      ensures capacity > 0 && r == Bump(i, capacity)
    {
      MaskIsSlot(i + 1, exponent);
      And(i + 1, mask)
    }

    constructor Of(capacity: nat, ghost exponent: nat)
      requires capacity == Pow2(exponent)
      ensures Valid() && fresh(buffer) && this.capacity == capacity && history == []
    {
      this.capacity, this.mask, this.exponent := capacity, capacity - 1, exponent;
      buffer := new Cell<T>[capacity](_ => Vacant);
      head, tail, producer, consumer := 0, 0, PIdle, CIdle;
      pushed, popped, returned, history := [], 0, [], [];
      new;
      assert buffer[..] == Init<T>(capacity).buffer;
    }

    /** The public constructor: it throws unless the capacity is a power of two. */
    static method Create(requested: nat) returns (q: Option<Queue<T>>)
      ensures q.Some? <==> exists k: nat :: requested == Pow2(k)
      ensures q.Some? ==> fresh(q.value) && q.value.Valid() && q.value.capacity == requested
    {
      SingleBitIffPowerOfTwo(requested);
      if HasSingleBit(requested) {
        ghost var k := SingleBitHasExponent(requested);
        var queue := new Queue<T>.Of(requested, k);
        return Some(queue);
      }
      return None;
    }

    /** The registers index the buffer. */
    lemma InBounds()
      requires Valid()
      ensures producer != PIdle ==> producer.t < capacity
      ensures consumer != CIdle ==> consumer.h < capacity
    {
    }

    method BeginEmplace(item: T)
      requires Valid() && producer == PIdle
      modifies this`producer, this`history
      ensures Valid() && history == old(history) + [EmplaceCall(item)]
      ensures State() == Apply(old(State()), EmplaceCall(item))
      ensures producer == PLoadHead(tail, item)
    {
      hide Inv, Run;
      StepIsApply(Init<T>(capacity), history, EmplaceCall(item));
      producer := PLoadHead(tail, item);
      history := history + [EmplaceCall(item)];
    }

    method CheckFull()
      requires Valid() && producer.PLoadHead?
      modifies this`producer, this`history
      ensures Valid() && history == old(history) + [LoadHead]
      ensures State() == Apply(old(State()), LoadHead)
      ensures producer == PIdle || producer == PAssign(old(producer.t), old(producer.item))
    {
      hide Inv, Run;
      StepIsApply(Init<T>(capacity), history, LoadHead);
      producer := if Next(producer.t) == head then PIdle else PAssign(producer.t, producer.item);
      history := history + [LoadHead];
    }

    method BeginAssign()
      requires Valid() && producer.PAssign?
      modifies this`producer, this`history, buffer
      ensures Valid() && history == old(history) + [AssignBegin]
      ensures State() == Apply(old(State()), AssignBegin)
      ensures producer == PAssigning(old(producer.t), old(producer.item))
    {
      hide Inv, Run;
      StepIsApply(Init<T>(capacity), history, AssignBegin);
      InBounds();
      buffer[producer.t] := Assigning;
      producer := PAssigning(producer.t, producer.item);
      history := history + [AssignBegin];
    }

    method EndAssign()
      requires Valid() && producer.PAssigning?
      modifies this`producer, this`history, buffer
      ensures Valid() && history == old(history) + [AssignEnd]
      ensures State() == Apply(old(State()), AssignEnd)
      ensures producer == PAssigned(old(producer.t), old(producer.item))
    {
      hide Inv, Run;
      StepIsApply(Init<T>(capacity), history, AssignEnd);
      InBounds();
      buffer[producer.t] := Holds(producer.item);
      producer := PAssigned(producer.t, producer.item);
      history := history + [AssignEnd];
    }

    method StoreNewTail()
      requires Valid() && producer.PAssigned?
      modifies this`producer, this`tail, this`pushed, this`history
      ensures Valid() && history == old(history) + [StoreTail]
      ensures State() == Apply(old(State()), StoreTail)
      ensures producer == PIdle && pushed == old(pushed) + [old(producer.item)]
    {
      hide Inv, Run;
      StepIsApply(Init<T>(capacity), history, StoreTail);
      tail := Next(producer.t);
      pushed := pushed + [producer.item];
      producer := PIdle;
      history := history + [StoreTail];
    }

    method BeginPop()
      requires Valid() && consumer == CIdle
      modifies this`consumer, this`history
      ensures Valid() && history == old(history) + [PopCall]
      ensures State() == Apply(old(State()), PopCall)
      ensures consumer == CLoadTail(head)
    {
      hide Inv, Run;
      StepIsApply(Init<T>(capacity), history, PopCall);
      consumer := CLoadTail(head);
      history := history + [PopCall];
    }

    method CheckEmpty()
      requires Valid() && consumer.CLoadTail?
      modifies this`consumer, this`history
      ensures Valid() && history == old(history) + [LoadTail]
      ensures State() == Apply(old(State()), LoadTail)
      ensures consumer == CIdle || consumer == CTake(old(consumer.h))
    {
      hide Inv, Run;
      StepIsApply(Init<T>(capacity), history, LoadTail);
      consumer := if consumer.h == tail then CIdle else CTake(consumer.h);
      history := history + [LoadTail];
    }

    method TakeItem()
      requires Valid() && consumer.CTake?
      modifies this`consumer, this`history, buffer
      ensures Valid() && history == old(history) + [MoveOut]
      ensures State() == Apply(old(State()), MoveOut)
      ensures popped < |pushed| && consumer == CTaken(old(consumer.h), pushed[popped])
    {
      hide Inv, Run;
      StepIsApply(Init<T>(capacity), history, MoveOut);
      InBounds();
      TakesOldest();
      var h := consumer.h;
      consumer := CTaken(h, buffer[h].value);
      buffer[h] := Vacant;
      history := history + [MoveOut];
    }

    method StoreNewHead()
      requires Valid() && consumer.CTaken?
      modifies this`consumer, this`head, this`popped, this`returned, this`history
      ensures Valid() && history == old(history) + [StoreHead]
      ensures State() == Apply(old(State()), StoreHead)
      ensures consumer == CIdle && popped == old(popped) + 1
    {
      hide Inv, Run;
      StepIsApply(Init<T>(capacity), history, StoreHead);
      head := Next(consumer.h);
      popped := popped + 1;
      returned := returned + [consumer.value];
      consumer := CIdle;
      history := history + [StoreHead];
    }

    lemma TakesOldest()
      requires Valid() && consumer.CTake?
      ensures popped < |pushed| && consumer.h < capacity && buffer[consumer.h] == Holds(pushed[popped])
    {
    }

    lemma ExactTests()
      requires Valid()
      ensures producer.PLoadHead? && capacity > 0 ==>
                (Bump(producer.t, capacity) == head <==> |pushed| - popped == capacity - 1)
      ensures consumer.CLoadTail? ==> (consumer.h == tail <==> popped == |pushed|)
      ensures capacity > 0 && popped <= |pushed| < popped + capacity
    {
      if producer.PLoadHead? { FullTestIsExact(State()); }
      if consumer.CLoadTail? { EmptyTestIsExact(State()); }
    }

    /** Takes the step, if its thread is ready for it. */
    method Perform(a: Action<T>)
      requires Valid()
      modifies this, buffer
      ensures Valid() && history == old(history) + [a]
      ensures State() == Apply(old(State()), a)
    {
      hide Inv, Apply;
      ghost var before := history;
      StepIsApply(Init<T>(capacity), before, a);
      if OfProducer(a) {
        PerformProducer(a);
      } else {
        PerformConsumer(a);
      }
      history := before + [a];
    }

    method PerformProducer(a: Action<T>)
      requires Valid() && OfProducer(a)
      modifies this, buffer
      ensures Valid() && State() == Apply(old(State()), a)
    {
      InBounds();
      match a
      case EmplaceCall(item) => if producer.PIdle? { BeginEmplace(item); }
      case LoadHead => if producer.PLoadHead? { CheckFull(); }
      case AssignBegin => if producer.PAssign? { BeginAssign(); }
      case AssignEnd => if producer.PAssigning? { EndAssign(); }
      case StoreTail => if producer.PAssigned? { StoreNewTail(); }
      case _ =>
    }

    method PerformConsumer(a: Action<T>)
      requires Valid() && !OfProducer(a)
      modifies this, buffer
      ensures Valid() && State() == Apply(old(State()), a)
    {
      InBounds();
      match a
      case PopCall => if consumer.CIdle? { BeginPop(); }
      case LoadTail => if consumer.CLoadTail? { CheckEmpty(); }
      case MoveOut => if consumer.CTake? { TakeItem(); }
      case StoreHead => if consumer.CTaken? { StoreNewHead(); }
      case _ =>
    }

    /** All the consumer's steps among these, in order. */
    method LetConsumerRun(acts: seq<Action<T>>)
      requires Valid()
      modifies this, buffer
      ensures Valid() && history == old(history) + Side(acts, false)
      ensures producer == old(producer) && pushed == old(pushed) && old(popped) <= popped
    {
      hide Inv, Run, Apply, Side;
      NoSteps<T>(false);
      for i := 0 to |acts|
        invariant Valid() && history == old(history) + Side(acts[..i], false)
        invariant producer == old(producer) && pushed == old(pushed) && old(popped) <= popped
      {
        SideStep(acts, i, false);
        if !OfProducer(acts[i]) {
          OtherSideStays(State(), acts[i]);
          Perform(acts[i]);
        }
      }
      assert acts[..|acts|] == acts;
    }

    method LetProducerRun(acts: seq<Action<T>>)
      requires Valid()
      modifies this, buffer
      ensures Valid() && history == old(history) + Side(acts, true)
      ensures consumer == old(consumer) && popped == old(popped) && old(pushed) <= pushed
    {
      hide Inv, Run, Apply, Side;
      NoSteps<T>(true);
      for i := 0 to |acts|
        invariant Valid() && history == old(history) + Side(acts[..i], true)
        invariant consumer == old(consumer) && popped == old(popped) && old(pushed) <= pushed
      {
        SideStep(acts, i, true);
        if OfProducer(acts[i]) {
          OtherSideStays(State(), acts[i]);
          Perform(acts[i]);
        }
      }
      assert acts[..|acts|] == acts;
    }

    /** True: the item is pushed. False: nothing is, and at the load of head
        there were exactly C - 1 items, so there were no fewer at the call. The
        steps of both threads come in the order the schedule gives them. */
    method TryEmplace(item: T, env: (seq<Action<T>>, seq<Action<T>>, seq<Action<T>>)) returns (ok: bool)
      requires Valid() && producer == PIdle
      modifies this, buffer
      ensures Valid() && producer == PIdle && old(history) <= history
      ensures pushed == old(pushed) + (if ok then [item] else [])
      ensures !ok ==> |old(pushed)| - old(popped) == capacity - 1
      ensures history == old(history) + [EmplaceCall(item)] + Side(env.0, false) + [LoadHead]
                         + (if ok then [AssignBegin] + Side(env.1, false) + [AssignEnd]
                                       + Side(env.2, false) + [StoreTail]
                            else [])
    {
      hide Inv, Run, Apply, Enabled, Valid, Side;
      ExactTests();
      BeginEmplace(item);
      LetConsumerRun(env.0);
      ExactTests();
      FullMeansIdle();
      if producer == PIdle {
        return false;
      }
      BeginAssign();
      LetConsumerRun(env.1);
      EndAssign();
      LetConsumerRun(env.2);
      StoreNewTail();
      return true;
    }

    method FullMeansIdle()
      requires Valid() && producer.PLoadHead?
      modifies this`producer, this`history
      ensures Valid() && history == old(history) + [LoadHead]
      ensures producer == PIdle <==> |pushed| - popped == capacity - 1
      ensures producer == PIdle || producer == PAssign(old(producer.t), old(producer.item))
    {
      ExactTests();
      CheckFull();
    }

    /** Some: the oldest item not yet popped. None: nothing is popped, and at the
        load of tail the queue was empty, so it was empty at the call. */
    method TryPop(env: (seq<Action<T>>, seq<Action<T>>, seq<Action<T>>)) returns (r: Option<T>)
      requires Valid() && consumer == CIdle
      modifies this, buffer
      ensures Valid() && consumer == CIdle && old(history) <= history
      ensures r.Some? ==> old(popped) < |pushed| && r.value == pushed[old(popped)] && popped == old(popped) + 1
      ensures r.None? ==> popped == old(popped) == |old(pushed)|
      ensures history == old(history) + [PopCall] + Side(env.0, true) + [LoadTail]
                         + (if r.Some? then Side(env.1, true) + [MoveOut] + Side(env.2, true) + [StoreHead] else [])
    {
      hide Inv, Run, Apply, Enabled, Valid, Side;
      ExactTests();
      BeginPop();
      LetProducerRun(env.0);
      ExactTests();
      EmptyMeansIdle();
      if consumer == CIdle {
        return None;
      }
      LetProducerRun(env.1);
      TakeItem();
      r := Some(consumer.value);
      LetProducerRun(env.2);
      StoreNewHead();
    }

    method EmptyMeansIdle()
      requires Valid() && consumer.CLoadTail?
      modifies this`consumer, this`history
      ensures Valid() && history == old(history) + [LoadTail]
      ensures consumer == CIdle <==> popped == |pushed|
      ensures consumer == CIdle || consumer == CTake(old(consumer.h))
    {
      ExactTests();
      CheckEmpty();
    }
  }
}
