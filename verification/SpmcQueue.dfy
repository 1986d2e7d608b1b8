/** SPMCQueue itself: head_, tail_, the slots' sequences and raw storage updated
    in place, one method per atomic step, and the public operations with their
    retry and wait loops, run against an arbitrary schedule of the other threads. */
module SpmcQueue {
  import opened Ring
  import opened SpmcModel
  import opened SpmcInvariant
  import opened SpmcTheorems

  datatype Thread = ProducerThread | ConsumerThread(c: nat)

  function ThreadOf<T>(a: Action<T>): Thread {
    if OfProducer(a) then ProducerThread else ConsumerThread(a.c)
  }

  /** What happens between two steps of a call: the other threads' actions, and
      whether the call's next CAS fails spuriously. */
  datatype Slice<+T> = Slice(acts: seq<Action<T>>, spurious: bool)

  /** Counters and logs never go back. */
  ghost predicate Grows<T>(s: State<T>, s': State<T>) {
    && s'.capacity == s.capacity && |s'.consumers| == |s.consumers|
    && s.head <= s'.head && s.tail <= s'.tail
    && s.published <= s'.published && s.claims <= s'.claims
  }

  /** The action belongs to another thread, so it leaves this one where it is,
      except for waking it. */
  ghost predicate LeavesAlone<T>(s: State<T>, s': State<T>, me: Thread) {
    match me
    case ProducerThread =>
      && (s'.producer == s.producer || s'.producer == ProducerWoken(s.producer))
      && s'.published == s.published && s'.tail == s.tail
    case ConsumerThread(c) =>
      && c < |s.consumers| == |s'.consumers|
      && (s'.consumers[c] == s.consumers[c] || s'.consumers[c] == Woken(s.consumers[c]))
      && s.claims <= s'.claims && (forall q :: |s.claims| <= q < |s'.claims| ==> s'.claims[q] != c)
  }

  /** The actions of the threads other than me, in order. */
  ghost function Others<T>(acts: seq<Action<T>>, me: Thread): seq<Action<T>> {
    if acts == [] then []
    else
      var a := acts[|acts| - 1];
      Others(acts[..|acts| - 1], me) + (if ThreadOf(a) != me then [a] else [])
  }

  /** The other threads' steps between the first two of this thread. */
  ghost function First<T>(env: seq<Slice<T>>, me: Thread): seq<Action<T>> {
    if env == [] then [] else Others(env[0].acts, me)
  }

  ghost function AllOthers<T>(env: seq<Slice<T>>, me: Thread): seq<Action<T>> {
    if env == [] then [] else AllOthers(env[..|env| - 1], me) + Others(env[|env| - 1].acts, me)
  }

  lemma NobodyElse<T>(me: Thread)
    ensures Others<T>([], me) == []
  {
  }

  lemma OthersStep<T>(acts: seq<Action<T>>, i: nat, me: Thread)
    requires i < |acts|
    ensures Others(acts[..i + 1], me) == Others(acts[..i], me) + (if ThreadOf(acts[i]) != me then [acts[i]] else [])
  {
    assert acts[..i + 1][..i] == acts[..i];
  }

  lemma {:induction false} OthersConcat<T>(a: seq<Action<T>>, b: seq<Action<T>>, me: Thread)
    ensures Others(a + b, me) == Others(a, me) + Others(b, me)
  {
    if b == [] {
      assert a + b == a;
    } else {
      OthersConcat(a, b[..|b| - 1], me);
      assert (a + b)[..|a + b| - 1] == a + b[..|b| - 1];
    }
  }

  lemma {:induction false} OthersAgain<T>(acts: seq<Action<T>>, me: Thread)
    ensures Others(Others(acts, me), me) == Others(acts, me)
  {
    if acts == [] {
    } else {
      var before, a := acts[..|acts| - 1], acts[|acts| - 1];
      OthersAgain(before, me);
      OthersConcat(Others(before, me), if ThreadOf(a) != me then [a] else [], me);
      assert [a][..0] == [];
      assert Others([a], me) == if ThreadOf(a) != me then [a] else [];
    }
  }

  /** Since the history was this long, the other threads have taken the steps of
      the first k slices of the schedule, all of them, in order, and no others. */
  ghost predicate Took<T>(history: seq<Action<T>>, since: nat, env: seq<Slice<T>>, k: nat, me: Thread) {
    since <= |history| && k <= |env| && Others(history[since..], me) == AllOthers(env[..k], me)
  }

  /** One more step, of this thread. */
  ghost predicate OwnStep<T>(history: seq<Action<T>>, history': seq<Action<T>>, me: Thread) {
    history <= history' && |history'| == |history| + 1 && ThreadOf(history'[|history|]) == me
  }

  lemma TookOwn<T>(
      history: seq<Action<T>>, history': seq<Action<T>>, since: nat, env: seq<Slice<T>>, k: nat, me: Thread)
    requires Took(history, since, env, k, me) && OwnStep(history, history', me)
    ensures Took(history', since, env, k, me)
  {
    assert history'[since..][..|history| - since] == history[since..];
  }

  lemma TookSlice<T>(
      history: seq<Action<T>>, history': seq<Action<T>>, since: nat, env: seq<Slice<T>>, k: nat, k': nat, me: Thread)
    requires Took(history, since, env, k, me)
    requires if k < |env| then k' == k + 1 && history' == history + Others(env[k].acts, me)
             else k' == k && history' == history
    ensures Took(history', since, env, k', me)
  {
    if k < |env| {
      var more := Others(env[k].acts, me);
      assert history'[since..] == history[since..] + more;
      OthersConcat(history[since..], more, me);
      OthersAgain(env[k].acts, me);
      assert env[..k + 1][..k] == env[..k];
    }
  }

  lemma TookNothing<T>(history: seq<Action<T>>, env: seq<Slice<T>>, me: Thread)
    ensures Took(history, |history|, env, 0, me)
  {
    assert env[..0] == [] && history[|history|..] == [];
  }

  lemma AllTaken<T>(env: seq<Slice<T>>, k: nat)
    requires k == |env|
    ensures env[..k] == env
  {
  }

  lemma ApplyGrows<T>(s: State<T>, a: Action<T>)
    requires Inv(s)
    ensures Grows(s, Apply(s, a))
  {
  }

  lemma OthersLeaveAlone<T>(s: State<T>, a: Action<T>, me: Thread)
    requires ThreadOf(a) != me && (me.ConsumerThread? ==> me.c < |s.consumers|)
    ensures LeavesAlone(s, Apply(s, a), me)
  {
  }

  /** What every atomic step of the class has to know about the model. */
  lemma StepIsApply<T>(s0: State<T>, acts: seq<Action<T>>, a: Action<T>)
    requires Inv(Run(s0, acts))
    ensures Run(s0, acts + [a]) == Apply(Run(s0, acts), a)
    ensures Inv(Apply(Run(s0, acts), a))
  {
    assert (acts + [a])[..|acts|] == acts;
    ApplyInv(Run(s0, acts), a);
  }

  /** A longer history only adds to counters and logs. */
  lemma {:induction false} HistoryGrows<T>(s0: State<T>, acts: seq<Action<T>>, acts': seq<Action<T>>)
    requires Inv(s0) && acts <= acts'
    ensures Grows(Run(s0, acts), Run(s0, acts'))
  {
    if acts == acts' {
      RunInv(s0, acts);
    } else {
      var before := acts'[..|acts'| - 1];
      HistoryGrows(s0, acts, before);
      RunInv(s0, before);
      ApplyGrows(Run(s0, before), acts'[|acts'| - 1]);
    }
  }

  /** s is the state after the first `at` steps of the history. */
  ghost predicate Instant<T>(s0: State<T>, history: seq<Action<T>>, at: nat, s: State<T>) {
    at <= |history| && Run(s0, history[..at]) == s
  }

  /** An instant stays an instant of every longer history. */
  lemma InstantStays<T>(s0: State<T>, history: seq<Action<T>>, history': seq<Action<T>>, at: nat, s: State<T>)
    requires Instant(s0, history, at, s) && history <= history'
    ensures Instant(s0, history', at, s)
  {
    assert history'[..at] == history[..at];
  }

  /** How far the producer's wait loop is from rest once the others stand still. */
  ghost function WaitRank<T>(s: State<T>): nat {
    if !Shape(s) then 0
    else match s.producer
      case PWaiting(t, _, seen) => if s.sequence[Slot(t, s.capacity)] == seen then 1 else 3
      case PLoad(_, _, _) => 2
      case _ => 0
  }

  /** How far a pop's loop is from its end once the others stand still. */
  ghost function PopRank<T>(s: State<T>, c: nat): nat {
    if !Shape(s) || c >= |s.consumers| then 0
    else match s.consumers[c]
      case CScan(h, _) => if h == s.head then 2 else 5
      case CRace(h, _) => if h == s.head then 1 else 4
      case CStale(_, _) => 4
      case CWaiting(h, seen) => if s.sequence[Slot(h, s.capacity)] == seen then 1 else 6
      case _ => 0
  }

  /** How the loop of a pop ends: with a claimed position, with nullopt, or with
      the schedule run out while the consumer sleeps. */
  datatype Outcome = Won | FoundEmpty | Asleep

  class Queue<T> {
    const capacity: nat
    const mask: nat
    ghost const exponent: nat
    const sequence: array<nat>
    const storage: array<Cell<T>>
    var head: nat
    var tail: nat

    // The threads' registers.
    var producer: Producer<T>
    const consumers: array<Consumer<T>>

    // The logs of the model, and every step taken so far.
    ghost var published: seq<T>
    ghost var claims: seq<nat>
    ghost var delivered: seq<Receipt<T>>
    ghost var destroyed: seq<nat>
    ghost var history: seq<Action<T>>

    ghost function State(): State<T>
      reads this, sequence, storage, consumers
    {
      SpmcModel.State(capacity, head, tail, sequence[..], storage[..], producer, consumers[..],
                      published, claims, delivered, destroyed)
    }

    ghost predicate Separate()
      reads this
    {
      && sequence as object != storage as object && sequence as object != consumers as object
      && storage as object != consumers as object
      && sequence.Length == capacity && storage.Length == capacity
      && exponent >= 1 && capacity == Pow2(exponent) && mask == capacity - 1
    }

    ghost predicate Valid()
      reads this, sequence, storage, consumers
    {
      && Separate()
      && Inv(State())
      && State() == Run(Init<T>(capacity, consumers.Length), history)
    }

    function SlotIndex(p: nat): (i: nat)
      requires Separate()
      reads this
      ensures i == Slot(p, capacity) && i < capacity
    {
      MaskIsSlot(p, exponent);
      And(p, mask)
    }

    /** The constructor's body, for a capacity already checked and rounded. */
    constructor Of(capacity: nat, consumers: nat, ghost exponent: nat)
      requires exponent >= 1 && capacity == Pow2(exponent)
      ensures Valid() && fresh(sequence) && fresh(storage) && fresh(this.consumers)
      ensures this.capacity == capacity && this.consumers.Length == consumers && history == []
      ensures State() == Init<T>(capacity, consumers)
    {
      this.capacity, this.mask, this.exponent := capacity, capacity - 1, exponent;
      var slots := new nat[capacity];
      var cells := new Cell<T>[capacity](_ => Raw);
      var threads := new Consumer<T>[consumers](_ => CIdle);
      sequence, storage, this.consumers := slots, cells, threads;
      head, tail, producer := 0, 0, PIdle;
      published, claims, delivered, destroyed, history := [], [], [], [], [];
      new;
      for i := 0 to capacity
        invariant forall j :: 0 <= j < i ==> sequence[j] == j
        invariant sequence == slots && fresh(slots) && storage == cells && this.consumers == threads
        invariant forall j :: 0 <= j < capacity ==> storage[j] == Raw
        invariant forall j :: 0 <= j < consumers ==> this.consumers[j] == CIdle
        modifies sequence
      {
        sequence[i] := i;
      }
      assert sequence[..] == Init<T>(capacity, consumers).sequence;
      assert storage[..] == Init<T>(capacity, consumers).storage;
      assert this.consumers[..] == Init<T>(capacity, consumers).consumers;
      Pow2Monotone(1, exponent);
      InitInv<T>(capacity, consumers);
    }

    /** The public constructor: it throws on a capacity it does not accept, and
        else rounds it up to the least power of two. */
    static method Create(requested: nat, consumers: nat) returns (q: Option<Queue<T>>)
      ensures q.Some? <==> 2 <= requested <= Pow2(63)
      ensures q.Some? ==>
                && fresh(q.value) && q.value.Valid() && q.value.State() == Init<T>(q.value.capacity, consumers)
                && requested <= q.value.capacity
                && forall j: nat :: requested <= Pow2(j) ==> q.value.capacity <= Pow2(j)
    {
      CapacityIsLeastPowerOfTwo(requested, 63);
      var rounded := CheckAndRoundCapacity(requested, 63);
      if rounded.InvalidArgument? {
        q := None;
      } else {
        var capacity := rounded.value;
        ghost var e := CapacityExponent(requested, 63);
        var queue := new Queue<T>.Of(capacity, consumers, e);
        q := Some(queue);
      }
    }

    // ------------------------------------------------ the producer's steps

    method LoadTail(item: T, blocking: bool)
      requires Valid() && producer == PIdle
      modifies this
      ensures Valid() && history == old(history) + [ProducerCall(item, blocking)]
      ensures State() == Apply(old(State()), ProducerCall(item, blocking))
      ensures published == old(published) && tail == old(tail)
      ensures producer == PLoad(tail, item, blocking)
    {
      StepIsApply(Init<T>(capacity, consumers.Length), history, ProducerCall(item, blocking));
      producer := PLoad(tail, item, blocking);
      history := history + [ProducerCall(item, blocking)];
    }

    method LoadProducerSequence()
      requires Valid() && producer.PLoad?
      modifies this
      ensures Valid() && history == old(history) + [ProducerLoad]
      ensures State() == Apply(old(State()), ProducerLoad)
      ensures var p, seen := old(producer), sequence[Slot(old(producer.t), capacity)];
              producer == if seen == p.t then PClear(p.t, p.item)
                          else if p.blocking then PWaiting(p.t, p.item, seen) else PIdle
      ensures published == old(published) && tail == old(tail)
    {
      StepIsApply(Init<T>(capacity, consumers.Length), history, ProducerLoad);
      var seen := sequence[SlotIndex(producer.t)];
      if seen == producer.t {
        producer := PClear(producer.t, producer.item);
      } else if producer.blocking {
        producer := PWaiting(producer.t, producer.item, seen);
      } else {
        producer := PIdle;
      }
      history := history + [ProducerLoad];
    }

    method CompareProducerSequence()
      requires Valid() && producer.PWaiting?
      modifies this
      ensures Valid() && history == old(history) + [ProducerCompare]
      ensures State() == Apply(old(State()), ProducerCompare)
      ensures var p, seen := old(producer), sequence[Slot(old(producer.t), capacity)];
              producer == if seen == p.seen then PParked(p.t, p.item, p.seen) else PLoad(p.t, p.item, true)
      ensures published == old(published) && tail == old(tail)
    {
      hide Inv, Run;
      StepIsApply(Init<T>(capacity, consumers.Length), history, ProducerCompare);
      if sequence[SlotIndex(producer.t)] == producer.seen {
        producer := PParked(producer.t, producer.item, producer.seen);
      } else {
        producer := PLoad(producer.t, producer.item, true);
      }
      history := history + [ProducerCompare];
    }

    method WakeProducer()
      requires Valid() && producer.PParked?
      modifies this
      ensures Valid() && history == old(history) + [ProducerSpuriousWake]
      ensures State() == Apply(old(State()), ProducerSpuriousWake)
      ensures published == old(published) && tail == old(tail)
    {
      StepIsApply(Init<T>(capacity, consumers.Length), history, ProducerSpuriousWake);
      producer := PWaiting(producer.t, producer.item, producer.seen);
      history := history + [ProducerSpuriousWake];
    }

    method BeginConstruct()
      requires Valid() && producer.PClear?
      modifies this, storage
      ensures Valid() && history == old(history) + [ConstructBegin]
      ensures State() == Apply(old(State()), ConstructBegin)
      ensures published == old(published) && tail == old(tail)
      ensures producer == PBuilding(old(producer.t), old(producer.item))
    {
      StepIsApply(Init<T>(capacity, consumers.Length), history, ConstructBegin);
      storage[SlotIndex(producer.t)] := Building;
      producer := PBuilding(producer.t, producer.item);
      history := history + [ConstructBegin];
    }

    method EndConstruct()
      requires Valid() && producer.PBuilding?
      modifies this, storage
      ensures Valid() && history == old(history) + [ConstructEnd]
      ensures State() == Apply(old(State()), ConstructEnd)
      ensures published == old(published) && tail == old(tail)
      ensures producer == PBuilt(old(producer.t), old(producer.item))
    {
      StepIsApply(Init<T>(capacity, consumers.Length), history, ConstructEnd);
      storage[SlotIndex(producer.t)] := Live(producer.item);
      producer := PBuilt(producer.t, producer.item);
      history := history + [ConstructEnd];
    }

    method StoreProducerSequence()
      requires Valid() && producer.PBuilt?
      modifies this, sequence
      ensures Valid() && history == old(history) + [StoreSequence]
      ensures State() == Apply(old(State()), StoreSequence)
      ensures published == old(published) + [old(producer.item)] && tail == old(tail)
      ensures producer == PPublished(old(producer.t))
    {
      hide Inv, Run;
      StepIsApply(Init<T>(capacity, consumers.Length), history, StoreSequence);
      sequence[SlotIndex(producer.t)] := producer.t + 1;
      published := published + [producer.item];
      producer := PPublished(producer.t);
      history := history + [StoreSequence];
    }

    method StoreNewTail()
      requires Valid() && producer.PPublished?
      modifies this
      ensures Valid() && history == old(history) + [StoreTail]
      ensures State() == Apply(old(State()), StoreTail)
      ensures published == old(published) && tail == old(tail) + 1
      ensures producer == PTailStored(old(producer.t))
    {
      StepIsApply(Init<T>(capacity, consumers.Length), history, StoreTail);
      tail := producer.t + 1;
      producer := PTailStored(producer.t);
      history := history + [StoreTail];
    }

    method WakeAllWaiters()
      requires Valid() && producer.PTailStored?
      modifies this, consumers
      ensures Valid() && history == old(history) + [NotifyAll]
      ensures State() == Apply(old(State()), NotifyAll)
      ensures published == old(published) && tail == old(tail)
      ensures producer == PIdle
    {
      hide Inv, Run;
      StepIsApply(Init<T>(capacity, consumers.Length), history, NotifyAll);
      var i := SlotIndex(producer.t);
      for d := 0 to consumers.Length
        invariant forall e :: 0 <= e < d ==>
                    consumers[e] == if ParkedOn(old(consumers[e]), i, capacity)
                                    then Woken(old(consumers[e])) else old(consumers[e])
        invariant forall e :: d <= e < consumers.Length ==> consumers[e] == old(consumers[e])
        modifies consumers
      {
        if consumers[d].CParked? && SlotIndex(consumers[d].h) == i {
          consumers[d] := CWaiting(consumers[d].h, consumers[d].seen);
        }
      }
      assert consumers[..] == WakeAll(old(consumers[..]), i, capacity);
      producer := PIdle;
      history := history + [NotifyAll];
    }

    // -------------------------------------------------- a consumer's steps

    method LoadHead(c: nat, h: nat, blocking: bool)
      requires Valid() && c < consumers.Length && consumers[c] == CIdle && h <= head
      modifies this, consumers
      ensures Valid() && history == old(history) + [ConsumerCall(c, h, blocking)]
      ensures State() == Apply(old(State()), ConsumerCall(c, h, blocking))
      ensures consumers[c] == CScan(h, blocking)
      ensures claims == old(claims)
    {
      hide Inv, Run;
      StepIsApply(Init<T>(capacity, consumers.Length), history, ConsumerCall(c, h, blocking));
      consumers[c] := CScan(h, blocking);
      history := history + [ConsumerCall(c, h, blocking)];
    }

    method LoadConsumerSequence(c: nat)
      requires Valid() && c < consumers.Length && consumers[c].CScan?
      modifies this, consumers
      ensures Valid() && history == old(history) + [ConsumerLoad(c)]
      ensures State() == Apply(old(State()), ConsumerLoad(c))
      ensures var k, seen := old(consumers[c]), sequence[Slot(old(consumers[c].h), capacity)];
              consumers[c] == if seen == k.h + 1 then CRace(k.h, k.blocking)
                              else if seen > k.h + 1 then CStale(k.h, k.blocking)
                              else if k.blocking then CWaiting(k.h, seen) else CIdle
      ensures claims == old(claims) && head == old(head)
    {
      hide Inv, Run;
      StepIsApply(Init<T>(capacity, consumers.Length), history, ConsumerLoad(c));
      var k := consumers[c];
      var seen := sequence[SlotIndex(k.h)];
      if seen == k.h + 1 {
        consumers[c] := CRace(k.h, k.blocking);
      } else if seen > k.h + 1 {
        consumers[c] := CStale(k.h, k.blocking);
      } else if k.blocking {
        consumers[c] := CWaiting(k.h, seen);
      } else {
        consumers[c] := CIdle;
      }
      history := history + [ConsumerLoad(c)];
    }

    method WinCas(c: nat)
      requires Valid() && c < consumers.Length && consumers[c].CRace? && consumers[c].h == head
      modifies this, consumers
      ensures Valid() && history == old(history) + [CasSuccess(c)]
      ensures State() == Apply(old(State()), CasSuccess(c))
      ensures consumers[c] == CClaimed(|old(claims)|) && claims == old(claims) + [c]
    {
      StepIsApply(Init<T>(capacity, consumers.Length), history, CasSuccess(c));
      consumers[c] := CClaimed(head);
      head := head + 1;
      claims := claims + [c];
      history := history + [CasSuccess(c)];
    }

    method FailCas(c: nat, h: nat)
      requires Valid() && c < consumers.Length && consumers[c].CRace? && consumers[c].h <= h <= head
      modifies this, consumers
      ensures Valid() && history == old(history) + [CasFailure(c, h)]
      ensures State() == Apply(old(State()), CasFailure(c, h))
      ensures consumers[c] == CScan(h, old(consumers[c].blocking))
      ensures claims == old(claims) && head == old(head)
    {
      hide Inv, Run;
      StepIsApply(Init<T>(capacity, consumers.Length), history, CasFailure(c, h));
      consumers[c] := CScan(h, consumers[c].blocking);
      history := history + [CasFailure(c, h)];
    }

    method ReloadHead(c: nat, h: nat)
      requires Valid() && c < consumers.Length && consumers[c].CStale? && consumers[c].h < h <= head
      modifies this, consumers
      ensures Valid() && history == old(history) + [Reload(c, h)]
      ensures State() == Apply(old(State()), Reload(c, h))
      ensures consumers[c] == CScan(h, old(consumers[c].blocking))
      ensures claims == old(claims) && head == old(head)
    {
      hide Inv, Run;
      StepIsApply(Init<T>(capacity, consumers.Length), history, Reload(c, h));
      consumers[c] := CScan(h, consumers[c].blocking);
      history := history + [Reload(c, h)];
    }

    method CompareConsumerSequence(c: nat)
      requires Valid() && c < consumers.Length && consumers[c].CWaiting?
      modifies this, consumers
      ensures Valid() && history == old(history) + [ConsumerCompare(c)]
      ensures State() == Apply(old(State()), ConsumerCompare(c))
      ensures var k, seen := old(consumers[c]), sequence[Slot(old(consumers[c].h), capacity)];
              consumers[c] == if seen == k.seen then CParked(k.h, k.seen) else CScan(k.h, true)
      ensures claims == old(claims) && head == old(head)
    {
      hide Inv, Run;
      StepIsApply(Init<T>(capacity, consumers.Length), history, ConsumerCompare(c));
      var k := consumers[c];
      consumers[c] := if sequence[SlotIndex(k.h)] == k.seen then CParked(k.h, k.seen) else CScan(k.h, true);
      history := history + [ConsumerCompare(c)];
    }

    method WakeConsumer(c: nat)
      requires Valid() && c < consumers.Length && consumers[c].CParked?
      modifies this, consumers
      ensures Valid() && history == old(history) + [ConsumerSpuriousWake(c)]
      ensures State() == Apply(old(State()), ConsumerSpuriousWake(c))
    {
      hide Inv, Run;
      StepIsApply(Init<T>(capacity, consumers.Length), history, ConsumerSpuriousWake(c));
      consumers[c] := CWaiting(consumers[c].h, consumers[c].seen);
      history := history + [ConsumerSpuriousWake(c)];
    }

    method MoveItemOut(c: nat)
      requires Valid() && c < consumers.Length && consumers[c].CClaimed?
      modifies this, storage, consumers
      ensures Valid() && history == old(history) + [MoveOut(c)]
      ensures State() == Apply(old(State()), MoveOut(c))
      ensures consumers[c].CMoved? && consumers[c].h == old(consumers[c].h)
      ensures claims == old(claims)
    {
      StepIsApply(Init<T>(capacity, consumers.Length), history, MoveOut(c));
      MoveOutInv(State(), c);
      var h := consumers[c].h;
      var i := SlotIndex(h);
      consumers[c] := CMoved(h, storage[i].value);
      storage[i] := Husk;
      history := history + [MoveOut(c)];
    }

    method DestroyHusk(c: nat)
      requires Valid() && c < consumers.Length && consumers[c].CMoved?
      modifies this, storage, consumers
      ensures Valid() && history == old(history) + [Destroy(c)]
      ensures State() == Apply(old(State()), Destroy(c))
      ensures consumers[c] == CDestroyed(old(consumers[c].h), old(consumers[c].value))
      ensures claims == old(claims)
    {
      hide Inv, Run;
      StepIsApply(Init<T>(capacity, consumers.Length), history, Destroy(c));
      var k := consumers[c];
      storage[SlotIndex(k.h)] := Raw;
      consumers[c] := CDestroyed(k.h, k.value);
      destroyed := destroyed + [k.h];
      history := history + [Destroy(c)];
    }

    method ReleaseSlot(c: nat)
      requires Valid() && c < consumers.Length && consumers[c].CDestroyed?
      modifies this, sequence, consumers
      ensures Valid() && history == old(history) + [Release(c)]
      ensures State() == Apply(old(State()), Release(c))
      ensures consumers[c] == CReleased(old(consumers[c].h), old(consumers[c].value))
      ensures claims == old(claims)
    {
      hide Inv, Run;
      StepIsApply(Init<T>(capacity, consumers.Length), history, Release(c));
      var k := consumers[c];
      sequence[SlotIndex(k.h)] := k.h + capacity;
      consumers[c] := CReleased(k.h, k.value);
      history := history + [Release(c)];
    }

    method WakeOneWaiter(c: nat, target: Waiter)
      requires Valid() && c < consumers.Length && consumers[c].CReleased?
      requires MayWake(State(), consumers[c].h, target)
      modifies this, consumers
      ensures Valid() && history == old(history) + [NotifyOne(c, target)]
      ensures State() == Apply(old(State()), NotifyOne(c, target))
      ensures consumers[c] == CIdle
      ensures claims == old(claims) && published == old(published)
      ensures delivered == old(delivered) + [Receipt(old(consumers[c].h), c, old(consumers[c].value))]
    {
      hide Inv, Run;
      StepIsApply(Init<T>(capacity, consumers.Length), history, NotifyOne(c, target));
      var k := consumers[c];
      consumers[c] := CIdle;
      match target {
        case Nobody =>
        case TheProducer => producer := PWaiting(producer.t, producer.item, producer.seen);
        case TheConsumer(d) => consumers[d] := CWaiting(consumers[d].h, consumers[d].seen);
      }
      delivered := delivered + [Receipt(k.h, c, k.value)];
      history := history + [NotifyOne(c, target)];
    }

    // --------------------------------------------------- the other threads

    /** Which thread the notify_one of consumer c wakes: the wished one if it may,
        else some thread that has to be. */
    method ChooseWaiter(c: nat, wish: Waiter) returns (target: Waiter)
      requires Valid() && c < consumers.Length && consumers[c].CReleased?
      ensures MayWake(State(), consumers[c].h, target)
      ensures MayWake(State(), consumers[c].h, wish) ==> target == wish
    {
      hide Inv, Run, And, Slot;
      ReleasedSequence(State(), c);
      var slot, stored := SlotIndex(consumers[c].h), consumers[c].h + capacity;
      ghost var s := State();
      if wish.TheConsumer? && wish.c < consumers.Length && consumers[wish.c].CParked?
         && SlotIndex(consumers[wish.c].h) == slot && consumers[wish.c].seen != sequence[slot] {
        return wish;
      }
      if producer.PParked? && SlotIndex(producer.t) == slot && producer.seen != sequence[slot]
         && (wish == TheProducer || producer.seen < stored) {
        return TheProducer;
      }
      for d := 0 to consumers.Length
        invariant forall e :: 0 <= e < d && ParkedOn(consumers[e], slot, capacity) ==> consumers[e].seen >= stored
      {
        if consumers[d].CParked? && SlotIndex(consumers[d].h) == slot && consumers[d].seen < stored {
          assert ParkedOn(s.consumers[d], slot, capacity);
          return TheConsumer(d);
        }
      }
      return Nobody;
    }

    /** Takes the step, if its thread is ready for it. */
    method Perform(a: Action<T>)
      requires Valid()
      modifies this, sequence, storage, consumers
      ensures Valid() && history == old(history) + [a]
      ensures State() == Apply(old(State()), a)
    {
      hide Inv, Apply;
      ghost var before := history;
      StepIsApply(Init<T>(capacity, consumers.Length), before, a);
      if OfProducer(a) {
        PerformProducer(a);
      } else {
        PerformConsumer(a);
      }
      history := before + [a];
    }

    method PerformProducer(a: Action<T>)
      requires Valid() && OfProducer(a)
      modifies this, sequence, storage, consumers
      ensures Valid()
      ensures State() == Apply(old(State()), a)
    {
      match a
      case ProducerCall(item, blocking) => if producer.PIdle? { LoadTail(item, blocking); }
      case ProducerLoad => if producer.PLoad? { LoadProducerSequence(); }
      case ProducerCompare => if producer.PWaiting? { CompareProducerSequence(); }
      case ProducerSpuriousWake => if producer.PParked? { WakeProducer(); }
      case ConstructBegin => if producer.PClear? { BeginConstruct(); }
      case ConstructEnd => if producer.PBuilding? { EndConstruct(); }
      case StoreSequence => if producer.PBuilt? { StoreProducerSequence(); }
      case StoreTail => if producer.PPublished? { StoreNewTail(); }
      case NotifyAll => if producer.PTailStored? { WakeAllWaiters(); }
      case _ =>
    }

    method PerformConsumer(a: Action<T>)
      requires Valid() && !OfProducer(a)
      modifies this, sequence, storage, consumers
      ensures Valid()
      ensures State() == Apply(old(State()), a)
    {
      if a.c >= consumers.Length {
        return;
      }
      var k := consumers[a.c];
      match a
      case ConsumerCall(c, h, blocking) => if k.CIdle? && h <= head { LoadHead(c, h, blocking); }
      case ConsumerLoad(c) => if k.CScan? { LoadConsumerSequence(c); }
      case CasSuccess(c) => if k.CRace? && head == k.h { WinCas(c); }
      case CasFailure(c, h) => if k.CRace? && k.h <= h <= head { FailCas(c, h); }
      case Reload(c, h) => if k.CStale? && k.h < h <= head { ReloadHead(c, h); }
      case ConsumerCompare(c) => if k.CWaiting? { CompareConsumerSequence(c); }
      case ConsumerSpuriousWake(c) => if k.CParked? { WakeConsumer(c); }
      case MoveOut(c) => if k.CClaimed? { MoveItemOut(c); }
      case Destroy(c) => if k.CMoved? { DestroyHusk(c); }
      case Release(c) => if k.CDestroyed? { ReleaseSlot(c); }
      case NotifyOne(c, target) =>
        if k.CReleased? {
          var chosen := ChooseWaiter(c, target);
          if chosen == target {
            WakeOneWaiter(c, target);
          }
        }
      case _ =>
    }

    ghost predicate IsThread(me: Thread)
      reads this
    {
      me.ConsumerThread? ==> me.c < consumers.Length
    }

    /** The k-th slice of the schedule: any steps of any other threads. Past its
        end the others stand still. */
    method Yield(env: seq<Slice<T>>, k: nat, me: Thread) returns (k': nat)
      requires Valid() && IsThread(me)
      modifies this, sequence, storage, consumers
      ensures Valid() && old(history) <= history
      ensures LeavesAlone(old(State()), State(), me)
      ensures me.ProducerThread? ==>
                && (producer == old(producer) || producer == ProducerWoken(old(producer)))
                && published == old(published) && tail == old(tail)
      ensures me.ConsumerThread? ==>
                && (consumers[me.c] == old(consumers[me.c]) || consumers[me.c] == Woken(old(consumers[me.c])))
                && old(claims) <= claims && NoClaimSince(|old(claims)|, me.c)
      ensures k < |env| ==> k' == k + 1
      ensures k < |env| ==> history == old(history) + Others(env[k].acts, me)
      ensures k >= |env| ==> k' == k && State() == old(State()) && history == old(history)
    {
      k' := k;
      if k < |env| {
        LetOthersRun(env[k].acts, me);
        k' := k + 1;
      }
    }

    /** All the steps of other threads among these, in order. */
    method LetOthersRun(acts: seq<Action<T>>, me: Thread)
      requires Valid() && IsThread(me)
      modifies this, sequence, storage, consumers
      ensures Valid() && history == old(history) + Others(acts, me)
      ensures LeavesAlone(old(State()), State(), me)
    {
      hide Inv, Run, Apply, Enabled, Others;
      ghost var start := history;
      NobodyElse<T>(me);
      for i := 0 to |acts|
        invariant Valid() && history == start + Others(acts[..i], me)
        invariant LeavesAlone(old(State()), State(), me)
      {
        OthersStep(acts, i, me);
        if ThreadOf(acts[i]) != me {
          OthersLeaveAlone(State(), acts[i], me);
          Perform(acts[i]);
        }
      }
      assert acts[..|acts|] == acts;
    }

    // ------------------------------------------------- producer operations

    /** s is the state after the first `at` steps. */
    ghost predicate Now(at: nat, s: State<T>)
      reads this
    {
      Instant(Init<T>(capacity, consumers.Length), history, at, s)
    }

    /** After the first `at` steps the queue is empty. */
    ghost predicate EmptyAt(at: nat)
      reads this
    {
      at <= |history| &&
      var s := Run(Init<T>(capacity, consumers.Length), history[..at]); s.head == |s.published|
    }

    /** After the first `at` steps the item one lap behind tail_ is unreleased. */
    ghost predicate RefusingAt(at: nat)
      reads this
    {
      at <= |history| && Refusing(Run(Init<T>(capacity, consumers.Length), history[..at]))
    }

    lemma ShapeHolds()
      requires Valid()
      ensures Shape(State())
    {
    }

    lemma PresentInstant()
      requires Valid()
      ensures Now(|history|, State())
    {
      assert history[..|history|] == history;
    }

    lemma InstantMeans(at: nat, s: State<T>)
      requires Now(at, s)
      ensures s.head == |s.published| ==> EmptyAt(at)
      ensures Refusing(s) ==> RefusingAt(at)
    {
    }

    /** The slot one lap behind has not been released: the producer is refused. */
    ghost predicate Refusing(s: State<T>) {
      s.tail >= s.capacity && s.capacity > 0 && Busy(s, s.tail - s.capacity)
    }

    lemma RefusedOnlyIfBusy()
      requires Valid() && producer.PLoad?
      ensures sequence[Slot(producer.t, capacity)] != producer.t ==> Refusing(State())
    {
      ProducerLoadIsExact(State());
    }

    /** Constructs, publishes and notifies, once the slot has been found free. */
    method Fill(env: seq<Slice<T>>, k: nat)
      requires Valid() && producer.PClear?
      modifies this, sequence, storage, consumers
      ensures Valid() && producer == PIdle && old(history) <= history
      ensures published == old(published) + [old(producer.item)] && tail == old(tail) + 1
    {
      hide Inv, Run, Apply, Enabled, Valid, LeavesAlone, Others;
      BeginConstruct();
      var n := Yield(env, k, ProducerThread);
      EndConstruct();
      n := Yield(env, n, ProducerThread);
      Publish(env, n);
    }

    method Publish(env: seq<Slice<T>>, k: nat)
      requires Valid() && producer.PBuilt?
      modifies this, sequence, storage, consumers
      ensures Valid() && producer == PIdle && old(history) <= history
      ensures published == old(published) + [old(producer.item)] && tail == old(tail) + 1
    {
      hide Inv, Run, Apply, Enabled, Valid, LeavesAlone, Others;
      StoreProducerSequence();
      var n := Yield(env, k, ProducerThread);
      StoreNewTail();
      n := Yield(env, n, ProducerThread);
      WakeAllWaiters();
    }

    /** Wait-free. True: the item has been published, and nothing else by the
        producer. False: nothing has, and at the load of the sequence, the second
        and last step of the call, the item one lap behind had not been released. */
    method TryEmplace(item: T, env: seq<Slice<T>>) returns (ok: bool)
      requires Valid() && producer == PIdle
      modifies this, sequence, storage, consumers
      ensures Valid() && producer == PIdle && old(history) <= history
      ensures published == old(published) + (if ok then [item] else [])
      ensures tail == old(tail) + (if ok then 1 else 0)
      ensures var asked := old(history) + [ProducerCall(item, false)] + First(env, ProducerThread) + [ProducerLoad];
              if ok then asked <= history else history == asked && RefusingAt(|history| - 1)
    {
      hide Inv, Run, Apply, Enabled, Valid, Refusing, Instant, Others;
      LoadTail(item, false);
      var k := Yield(env, 0, ProducerThread);
      ghost var before, s := history, State();
      PresentInstant();
      RefusedOnlyIfBusy();
      LoadProducerSequence();
      InstantStays(Init<T>(capacity, consumers.Length), before, history, |before|, s);
      if producer == PIdle {
        InstantMeans(|before|, s);
        return false;
      }
      k := Yield(env, k, ProducerThread);
      Fill(env, k);
      return true;
    }

    /** Waits for the slot. Done: the item has been published. Not done: the
        others have taken every step of the schedule, and the producer sleeps. */
    method EmplaceWait(item: T, env: seq<Slice<T>>) returns (done: bool)
      requires Valid() && producer == PIdle
      modifies this, sequence, storage, consumers
      ensures Valid() && old(history) <= history
      ensures published == old(published) + (if done then [item] else [])
      ensures if done then producer == PIdle else producer.PParked? && producer.item == item
      ensures !done ==> Took(history, |old(history)|, env, |env|, ProducerThread)
      ensures old(history) + [ProducerCall(item, true)] <= history
    {
      hide Inv, Run, Apply, Enabled, Valid, LeavesAlone, Others, AllOthers, Took;
      ghost var since, before := |history|, history;
      TookNothing(before, env, ProducerThread);
      LoadTail(item, true);
      TookOwn(before, history, since, env, 0, ProducerThread);
      before := history;
      var k := Yield(env, 0, ProducerThread);
      TookSlice(before, history, since, env, 0, k, ProducerThread);
      while !producer.PClear?
        invariant Valid() && old(history) + [ProducerCall(item, true)] <= history
        invariant published == old(published)
        invariant producer.PLoad? || producer.PWaiting? || producer.PParked? || producer.PClear?
        invariant producer.item == item && (producer.PLoad? ==> producer.blocking)
        invariant k <= |env| && Took(history, since, env, k, ProducerThread)
        decreases |env| - k, WaitRank(State())
      {
        if producer.PParked? && k >= |env| {
          AllTaken(env, k);
          return false;
        }
        ghost var k0 := k;
        before := history;
        WaitStep();
        if before != history {
          TookOwn(before, history, since, env, k, ProducerThread);
        }
        before := history;
        k := Yield(env, k, ProducerThread);
        TookSlice(before, history, since, env, k0, k, ProducerThread);
      }
      Fill(env, k);
      return true;
    }

    /** One step of the wait loop, unless the producer sleeps. */
    method WaitStep()
      requires Valid() && (producer.PLoad? || producer.PWaiting? || producer.PParked?)
      requires producer.PLoad? ==> producer.blocking
      modifies this
      ensures Valid() && published == old(published)
      ensures producer.PLoad? || producer.PWaiting? || producer.PParked? || producer.PClear?
      ensures producer.item == old(producer.item) && (producer.PLoad? ==> producer.blocking)
      ensures if old(producer).PParked? then history == old(history) && producer == old(producer)
              else OwnStep(old(history), history, ProducerThread) && WaitRank(State()) < old(WaitRank(State()))
      ensures old(producer).PParked? ==> State() == old(State())
    {
      hide Inv, Run, Apply, Enabled, Valid;
      ShapeHolds();
      match producer {
        case PLoad(_, _, _) => LoadProducerSequence();
        case PWaiting(_, _, _) => CompareProducerSequence();
        case _ =>
      }
      ShapeHolds();
    }

    // ------------------------------------------------- consumer operations

    /** Since the logs were this long, consumer c has claimed nothing. */
    ghost predicate NoClaimSince(length: nat, c: nat)
      reads this
    {
      forall q :: length <= q < |claims| ==> claims[q] != c
    }

    /** Since then, it has claimed position p and no other. */
    ghost predicate OneClaimSince(length: nat, c: nat, p: nat)
      reads this
    {
      length <= p < |claims| && forall q :: length <= q < |claims| ==> (claims[q] == c <==> q == p)
    }

    lemma RegistersBounded(c: nat)
      requires Valid() && c < consumers.Length
      ensures (consumers[c].CScan? || consumers[c].CRace?) ==> consumers[c].h <= head
      ensures consumers[c].CStale? ==> consumers[c].h < head
    {
      assert ConsumerOk(State(), c);
    }

    lemma NulloptOnlyIfEmpty(c: nat)
      requires Valid() && c < consumers.Length && consumers[c].CScan?
      ensures sequence[Slot(consumers[c].h, capacity)] < consumers[c].h + 1 ==> State().head == |State().published|
    {
      ConsumerLoadIsExact(State(), c);
    }

    lemma ClaimedItem(c: nat)
      requires Valid() && c < consumers.Length && consumers[c].CReleased?
      ensures var h := consumers[c].h;
              h < |claims| && h < |published| && claims[h] == c && published[h] == consumers[c].value
    {
      assert ConsumerOk(State(), c);
    }

    ghost predicate InPopLoop(k: Consumer<T>, blocking: bool) {
      || ((k.CScan? || k.CRace? || k.CStale?) && k.blocking == blocking)
      || ((k.CWaiting? || k.CParked?) && blocking)
    }

    /** The last step is a load of the sequence by consumer c, and at that load,
        since then, the queue was empty. */
    ghost predicate FoundEmptyLast(since: nat, c: nat)
      reads this
    {
      && since < |history| && history[|history| - 1] == ConsumerLoad(c)
      && EmptyAt(|history| - 1)
    }

    /** So everything published by then has been claimed. */
    lemma EmptySince(since: nat, c: nat)
      requires Valid() && FoundEmptyLast(since, c)
      ensures var s := Run(Init<T>(capacity, consumers.Length), history[..since]); |s.published| <= head
    {
      var s0 := Init<T>(capacity, consumers.Length);
      var at := |history| - 1;
      InitInv<T>(capacity, consumers.Length);
      assert history[..since] == history[..at][..since];
      HistoryGrows(s0, history[..since], history[..at]);
      HistoryGrows(s0, history[..at], history);
    }

    /** One step of a consumer that is awake and inside the loop of a pop. */
    method PopStep(c: nat, ghost blocking: bool, spurious: bool) returns (outcome: Outcome)
      requires Valid() && c < consumers.Length
      requires InPopLoop(consumers[c], blocking) && !consumers[c].CParked?
      modifies this, consumers
      ensures Valid() && old(history) <= history && old(claims) <= claims
      ensures outcome == Won ==> consumers[c].CClaimed? && OneClaimSince(|old(claims)|, c, consumers[c].h)
      ensures outcome == FoundEmpty ==>
                !blocking && consumers[c] == CIdle && FoundEmptyLast(|old(history)|, c)
      ensures outcome != Won ==> claims == old(claims)
      ensures OwnStep(old(history), history, ConsumerThread(c))
      ensures outcome == Asleep ==> InPopLoop(consumers[c], blocking)
      ensures outcome == Asleep && !spurious ==> PopRank(State(), c) < old(PopRank(State(), c))
    {
      hide Inv, Run, Apply, Enabled, Valid, Instant;
      ShapeHolds();
      RegistersBounded(c);
      outcome := Asleep;
      if consumers[c].CScan? {
        outcome := PopScan(c, blocking);
      } else if consumers[c].CStale? {
        ReloadHead(c, head);
      } else if consumers[c].CWaiting? {
        CompareConsumerSequence(c);
      } else if spurious {
        FailCas(c, consumers[c].h);
      } else if consumers[c].h == head {
        WinCas(c);
        outcome := Won;
      } else {
        FailCas(c, head);
      }
      ShapeHolds();
      RegistersBounded(c);
    }

    method PopScan(c: nat, ghost blocking: bool) returns (outcome: Outcome)
      requires Valid() && c < consumers.Length && consumers[c].CScan? && consumers[c].blocking == blocking
      modifies this, consumers
      ensures Valid() && old(history) <= history && claims == old(claims)
      ensures outcome == FoundEmpty ==>
                !blocking && consumers[c] == CIdle && FoundEmptyLast(|old(history)|, c)
      ensures outcome == FoundEmpty || outcome == Asleep
      ensures OwnStep(old(history), history, ConsumerThread(c))
      ensures outcome == Asleep ==> InPopLoop(consumers[c], blocking)
      ensures outcome == Asleep ==> PopRank(State(), c) < old(PopRank(State(), c))
    {
      hide Inv, Run, Apply, Enabled, Valid, Instant;
      ShapeHolds();
      RegistersBounded(c);
      ghost var before, s := history, State();
      PresentInstant();
      NulloptOnlyIfEmpty(c);
      LoadConsumerSequence(c);
      InstantStays(Init<T>(capacity, consumers.Length), before, history, |before|, s);
      ShapeHolds();
      RegistersBounded(c);
      outcome := Asleep;
      if consumers[c] == CIdle {
        InstantMeans(|before|, s);
        outcome := FoundEmpty;
      }
    }

    /** The loop of try_pop and pop_wait up to the CAS that wins. The first load
        of head_ is relaxed and returned h0. */
    method Claim(c: nat, h0: nat, blocking: bool, env: seq<Slice<T>>) returns (outcome: Outcome, k: nat)
      requires Valid() && c < consumers.Length && consumers[c] == CIdle && h0 <= head
      modifies this, sequence, storage, consumers
      ensures Valid() && old(history) <= history
      ensures outcome == Won ==> consumers[c].CClaimed? && OneClaimSince(|old(claims)|, c, consumers[c].h)
      ensures outcome != Won ==> NoClaimSince(|old(claims)|, c)
      ensures outcome == FoundEmpty ==>
                !blocking && consumers[c] == CIdle && FoundEmptyLast(|old(history)|, c)
      ensures outcome == Asleep ==> blocking && consumers[c].CParked?
      ensures outcome == Asleep ==> Took(history, |old(history)|, env, |env|, ConsumerThread(c))
      ensures old(history) + [ConsumerCall(c, h0, blocking)] + First(env, ConsumerThread(c)) <= history
    {
      hide Inv, Run, Apply, Enabled, Valid, Now, LeavesAlone, Others, AllOthers, Took;
      ghost var since, before := |history|, history;
      TookNothing(before, env, ConsumerThread(c));
      LoadHead(c, h0, blocking);
      TookOwn(before, history, since, env, 0, ConsumerThread(c));
      before := history;
      k := Yield(env, 0, ConsumerThread(c));
      TookSlice(before, history, since, env, 0, k, ConsumerThread(c));
      outcome := Asleep;
      while !consumers[c].CParked? || k < |env|
        invariant Valid() && old(claims) <= claims
        invariant old(history) + [ConsumerCall(c, h0, blocking)] + First(env, ConsumerThread(c)) <= history
        invariant NoClaimSince(|old(claims)|, c) && InPopLoop(consumers[c], blocking) && outcome == Asleep
        invariant k <= |env| && Took(history, since, env, k, ConsumerThread(c))
        decreases |env| - k, PopRank(State(), c)
      {
        if !consumers[c].CParked? {
          before := history;
          outcome := PopStep(c, blocking, k < |env| && env[k].spurious);
          if outcome != Asleep {
            return;
          }
          TookOwn(before, history, since, env, k, ConsumerThread(c));
        }
        ghost var k0 := k;
        before := history;
        k := Yield(env, k, ConsumerThread(c));
        TookSlice(before, history, since, env, k0, k, ConsumerThread(c));
      }
      AllTaken(env, k);
    }

    /** Moves the claimed item out and destroys the husk. */
    method Empty(c: nat, env: seq<Slice<T>>, k: nat) returns (n: nat)
      requires Valid() && c < consumers.Length && consumers[c].CClaimed?
      modifies this, sequence, storage, consumers
      ensures Valid() && old(history) <= history
      ensures consumers[c].CDestroyed? && consumers[c].h == old(consumers[c].h)
      ensures old(claims) <= claims && NoClaimSince(|old(claims)|, c)
    {
      hide Inv, Run, Apply, Enabled, Valid, LeavesAlone, Others;
      n := Yield(env, k, ConsumerThread(c));
      MoveItemOut(c);
      n := Yield(env, n, ConsumerThread(c));
      DestroyHusk(c);
      n := Yield(env, n, ConsumerThread(c));
    }

    /** Moves the claimed item out, releases the slot and notifies. */
    method Take(c: nat, env: seq<Slice<T>>, k: nat, wish: Waiter) returns (item: T)
      requires Valid() && c < consumers.Length && consumers[c].CClaimed?
      modifies this, sequence, storage, consumers
      ensures Valid() && consumers[c] == CIdle && old(history) <= history
      ensures old(claims) <= claims && NoClaimSince(|old(claims)|, c)
      ensures var h := old(consumers[c].h);
              && h < |claims| && h < |published| && claims[h] == c && item == published[h]
              && |delivered| > 0 && delivered[|delivered| - 1] == Receipt(h, c, item)
    {
      hide Inv, Run, Apply, Enabled, Valid, LeavesAlone, Others;
      var n := Empty(c, env, k);
      ReleaseSlot(c);
      n := Yield(env, n, ConsumerThread(c));
      ClaimedItem(c);
      item := consumers[c].value;
      NotifyOneOf(c, wish);
    }

    method NotifyOneOf(c: nat, wish: Waiter)
      requires Valid() && c < consumers.Length && consumers[c].CReleased?
      modifies this, consumers
      ensures Valid() && old(history) <= history
      ensures consumers[c] == CIdle && claims == old(claims) && published == old(published)
      ensures delivered == old(delivered) + [Receipt(old(consumers[c].h), c, old(consumers[c].value))]
    {
      var target := ChooseWaiter(c, wish);
      WakeOneWaiter(c, target);
    }

    /** Lock-free. Some: exactly one position was claimed by this call, and the
        item published there is returned. None: nothing was claimed, at the last load
        of the sequence the queue was empty, and so whatever had been published
        before the call has been claimed. */
    method TryPop(c: nat, h0: nat, env: seq<Slice<T>>, wish: Waiter) returns (r: Option<T>)
      requires Valid() && c < consumers.Length && consumers[c] == CIdle && h0 <= head
      modifies this, sequence, storage, consumers
      ensures Valid() && consumers[c] == CIdle && old(history) <= history
      ensures r.Some? ==> exists p: nat :: OneClaimSince(|old(claims)|, c, p)
                                      && p < |published| && r.value == published[p]
                                      && Receipt(p, c, r.value) in delivered
      ensures r.None? ==> NoClaimSince(|old(claims)|, c)
      ensures r.None? ==> FoundEmptyLast(|old(history)|, c) && |old(published)| <= head
      ensures old(history) + [ConsumerCall(c, h0, false)] + First(env, ConsumerThread(c)) <= history
    {
      ghost var before := history;
      var outcome, k := Claim(c, h0, false, env);
      if outcome == FoundEmpty {
        assert history[..|before|] == before;
        EmptySince(|before|, c);
        return None;
      }
      ghost var p := consumers[c].h;
      var item := Take(c, env, k, wish);
      assert OneClaimSince(|old(claims)|, c, p);
      return Some(item);
    }

    /** Some: as for TryPop. None: nothing was claimed, the others have taken every
        step of the schedule, and the consumer sleeps. */
    method PopWait(c: nat, h0: nat, env: seq<Slice<T>>, wish: Waiter) returns (r: Option<T>)
      requires Valid() && c < consumers.Length && consumers[c] == CIdle && h0 <= head
      modifies this, sequence, storage, consumers
      ensures Valid() && old(history) <= history
      ensures r.Some? ==> consumers[c] == CIdle
      ensures r.Some? ==> exists p: nat :: OneClaimSince(|old(claims)|, c, p)
                                      && p < |published| && r.value == published[p]
                                      && Receipt(p, c, r.value) in delivered
      ensures r.None? ==> NoClaimSince(|old(claims)|, c) && consumers[c].CParked?
      ensures r.None? ==> Took(history, |old(history)|, env, |env|, ConsumerThread(c))
      ensures old(history) + [ConsumerCall(c, h0, true)] + First(env, ConsumerThread(c)) <= history
    {
      var outcome, k := Claim(c, h0, true, env);
      if outcome == Asleep {
        return None;
      }
      ghost var p := consumers[c].h;
      var item := Take(c, env, k, wish);
      assert OneClaimSince(|old(claims)|, c, p);
      return Some(item);
    }

    // ---------------------------------------------------------- destructor

    lemma NothingLeft(s: State<T>, cells: seq<Cell<T>>)
      requires Inv(s) && Quiescent(s) && |cells| == s.capacity
      requires forall i :: 0 <= i < s.capacity ==> cells[i] == s.storage[i] || cells[i] == Raw
      requires forall q :: s.head <= q < s.tail ==> cells[Slot(q, s.capacity)] == Raw
      ensures forall i :: 0 <= i < s.capacity ==> cells[i] == Raw
    {
      forall i | 0 <= i < s.capacity ensures cells[i] == Raw {
        var q := RestIsRaw(s, i);
      }
    }

    lemma HeadAtMostTail()
      requires Valid() && Quiescent(State())
      ensures head <= tail == |published|
    {
    }

    /** The loop of the destructor. Whatever it destroys is live, so no cell is
        destroyed twice or while raw. */
    method DestroyRemaining()
      requires Valid() && Quiescent(State())
      modifies this`destroyed, storage
      ensures destroyed == old(destroyed) + Walk(old(State()), head)
      ensures forall i :: 0 <= i < storage.Length ==>
                storage[i] == Raw || storage[i] == old(storage[i])
      ensures forall q :: head <= q < tail ==> storage[Slot(q, capacity)] == Raw
    {
      hide Inv, Run, And, SlotIndex, Quiescent, Slot, Walk;
      ghost var s := State();
      HeadAtMostTail();
      WalkFindsAll(s, head);
      var pos := head;
      while pos != tail
        invariant head <= pos <= tail
        invariant destroyed + Walk(s, pos) == s.destroyed + Walk(s, head)
        invariant forall i :: 0 <= i < storage.Length ==> storage[i] == Raw || storage[i] == s.storage[i]
        invariant forall q :: head <= q < pos ==> storage[Slot(q, capacity)] == Raw
        invariant forall q :: pos <= q < tail ==> storage[Slot(q, capacity)] == Live(published[q])
        decreases tail - pos
      {
        var i := SlotIndex(pos);
        assert sequence[i] == s.sequence[Slot(pos, s.capacity)];
        WalkStep(s, pos, destroyed);
        if sequence[i] == pos + 1 {
          assert storage[i] == Live(published[pos]);
          OthersInWindow(s, pos);
          storage[i] := Raw;
          destroyed := destroyed + [pos];
        }
        pos := pos + 1;
      }
      WalkStep(s, pos, destroyed);
    }

    lemma WalkStep(s: State<T>, pos: nat, done: seq<nat>)
      requires Shape(s) && pos <= s.tail
      ensures pos == s.tail ==> done + Walk(s, pos) == done
      ensures pos < s.tail ==>
                done + Walk(s, pos)
                == (if s.sequence[Slot(pos, s.capacity)] == pos + 1 then done + [pos] else done) + Walk(s, pos + 1)
    {
      if pos < s.tail {
        assert (done + [pos]) + Walk(s, pos + 1) == done + ([pos] + Walk(s, pos + 1));
      }
    }

    /** What the loop leaves behind once cell i is raw: the items still ahead
        are in other cells. */
    lemma OthersInWindow(s: State<T>, pos: nat)
      requires Inv(s) && Quiescent(s) && s.head <= pos < s.tail
      ensures Slot(pos, s.capacity) < s.capacity
      ensures forall q :: pos < q < s.tail ==> Slot(q, s.capacity) != Slot(pos, s.capacity)
    {
      forall q | pos < q < s.tail ensures Slot(q, s.capacity) != Slot(pos, s.capacity) {
        SlotInjective(pos, q, s.capacity);
      }
    }

    /** The destructor: it destroys every item never popped, each live in its
        slot, and leaves no object behind. */
    method Teardown()
      requires Valid() && Quiescent(State())
      modifies this`destroyed, storage
      ensures destroyed == old(destroyed) + Walk(old(State()), head)
      ensures forall q :: q in destroyed <==> 0 <= q < |published|
      ensures forall i, j :: 0 <= i < j < |destroyed| ==> destroyed[i] != destroyed[j]
      ensures forall i :: 0 <= i < storage.Length ==> storage[i] == Raw
    {
      hide Inv, Run, And, SlotIndex, Quiescent, Walk;
      ghost var s := State();
      HeadAtMostTail();
      DestroyRemaining();
      NothingLeft(s, storage[..]);
      DestroyedExactlyOnce<T>(capacity, consumers.Length, history);
    }
  }
}
