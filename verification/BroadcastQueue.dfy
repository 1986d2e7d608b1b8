/** SPMCBroadcastQueue itself: tail_, cached_min_, the slots and the cursors
    updated in place, one method per atomic step, and try_publish, try_consume
    run against an arbitrary schedule of the other threads. */
module BroadcastQueue {
  import opened Ring
  import opened BroadcastModel
  import opened BroadcastTheorems

  datatype Thread = ProducerThread | ConsumerThread(c: nat)

  function ThreadOf<T>(a: Action<T>): Thread {
    if OfProducer(a) then ProducerThread else ConsumerThread(a.c)
  }

  ghost predicate LeavesAlone<T>(s: State<T>, s': State<T>, me: Thread) {
    match me
    case ProducerThread =>
      && s'.producer == s.producer && s'.published == s.published && s'.tail == s.tail
      && s'.cachedMin == s.cachedMin
    case ConsumerThread(c) =>
      && c < |s.readers| == |s'.readers| && s'.readers[c] == s.readers[c]
      && c < |s.cursors| == |s'.cursors| && s'.cursors[c] == s.cursors[c]
      && c < |s.seen| == |s'.seen| && s'.seen[c] == s.seen[c]
      && s.published <= s'.published
  }

  lemma OthersLeaveAlone<T>(s: State<T>, a: Action<T>, me: Thread)
    requires Shape(s) && ThreadOf(a) != me && (me.ConsumerThread? ==> me.c < |s.readers|)
    ensures LeavesAlone(s, Apply(s, a), me)
  {
  }

  /** What every atomic step of the class has to know about the model. */
  lemma StepIsApply<T>(s0: State<T>, acts: seq<Action<T>>, a: Action<T>)
    requires Inv(Run(s0, acts))
    ensures Run(s0, acts + [a]) == Apply(Run(s0, acts), a)
    ensures Inv(Apply(Run(s0, acts), a))
  {
    assert (acts + [a])[..|acts|] == acts;
    ApplyInv(Run(s0, acts), a);
  }

  /** The actions of the threads other than me, in order. */
  ghost function Others<T>(acts: seq<Action<T>>, me: Thread): seq<Action<T>> {
    if acts == [] then []
    else
      var a := acts[|acts| - 1];
      Others(acts[..|acts| - 1], me) + (if ThreadOf(a) != me then [a] else [])
  }

  /** The other threads' steps between two of this thread. */
  ghost function Between<T>(env: seq<seq<Action<T>>>, k: nat, me: Thread): seq<Action<T>> {
    if k < |env| then Others(env[k], me) else []
  }

  lemma NobodyElse<T>(me: Thread)
    ensures Others<T>([], me) == []
  {
  }

  lemma OthersStep<T>(acts: seq<Action<T>>, i: nat, me: Thread)
    requires i < |acts|
    ensures Others(acts[..i + 1], me) == Others(acts[..i], me) + (if ThreadOf(acts[i]) != me then [acts[i]] else [])
  {
    assert acts[..i + 1][..i] == acts[..i];
  }

  /** At some instant since then, the slowest cursor was exactly C behind. */
  ghost predicate FullIn<T>(s0: State<T>, history: seq<Action<T>>, since: nat) {
    exists at :: since <= at <= |history| && ExactlyFull(Run(s0, history[..at]))
  }

  lemma FullInLonger<T>(s0: State<T>, history: seq<Action<T>>, history': seq<Action<T>>, since: nat)
    requires history <= history'
    ensures FullIn(s0, history, since) ==> FullIn(s0, history', since)
  {
    if FullIn(s0, history, since) {
      var at :| since <= at <= |history| && ExactlyFull(Run(s0, history[..at]));
      assert history'[..at] == history[..at];
    }
  }

  class Queue<T> {
    const capacity: nat
    const mask: nat
    ghost const exponent: nat
    ghost const default: T
    const slots: array<Cell<T>>
    const cursors: array<nat>
    var tail: nat
    var cachedMin: nat

    // The threads' registers.
    var producer: Producer<T>
    const readers: array<Reader<T>>

    // The logs of the model, and every step taken so far.
    ghost var published: seq<T>
    ghost var seen: seq<seq<T>>
    ghost var history: seq<Action<T>>

    ghost function State(): State<T>
      reads this, slots, cursors, readers
    {
      BroadcastModel.State(capacity, tail, cachedMin, slots[..], cursors[..], producer, readers[..], published, seen)
    }

    ghost function Start(): State<T> {
      Init(capacity, cursors.Length, default)
    }

    ghost predicate Separate()
      reads this
    {
      && slots as object != cursors as object && slots as object != readers as object
      && cursors as object != readers as object
      && slots.Length == capacity && cursors.Length == readers.Length == |seen|
      && exponent >= 1 && capacity == Pow2(exponent) && mask == capacity - 1
    }

    ghost predicate Valid()
      reads this, slots, cursors, readers
    {
      Separate() && Inv(State()) && State() == Run(Start(), history)
    }

    function SlotIndex(p: nat): (i: nat)
      requires Separate()
      reads this
      ensures i == Slot(p, capacity) && i < capacity
    {
      MaskIsSlot(p, exponent);
      And(p, mask)
    }

    /** The constructor's body, for a capacity already checked and rounded. */
    constructor Of(capacity: nat, consumers: nat, default: T, ghost exponent: nat)
      requires exponent >= 1 && capacity == Pow2(exponent) && consumers >= 1
      ensures Valid() && fresh(slots) && fresh(cursors) && fresh(readers)
      ensures this.capacity == capacity && cursors.Length == consumers && history == []
      ensures State() == Init(capacity, consumers, default)
    {
      this.capacity, this.mask, this.exponent, this.default := capacity, capacity - 1, exponent, default;
      slots := new Cell<T>[capacity](_ => Holds(default));
      cursors := new nat[consumers](_ => 0);
      readers := new Reader<T>[consumers](_ => CIdle);
      tail, cachedMin, producer := 0, 0, PIdle;
      published, seen, history := [], seq(consumers, i => []), [];
      new;
      assert slots[..] == Init(capacity, consumers, default).slots;
      assert cursors[..] == Init(capacity, consumers, default).cursors;
      assert readers[..] == Init(capacity, consumers, default).readers;
      Pow2Monotone(1, exponent);
      InitInv(capacity, consumers, default);
    }

    /** The public constructor: it throws on a capacity it does not accept, and
        else rounds it up to the least power of two. */
    static method Create(requested: nat, consumers: nat, default: T) returns (q: Option<Queue<T>>)
      requires consumers >= 1
      ensures q.Some? <==> 2 <= requested <= Pow2(63)
      ensures q.Some? ==>
                && fresh(q.value) && q.value.Valid() && q.value.State() == Init(q.value.capacity, consumers, default)
                && requested <= q.value.capacity
                && forall j: nat :: requested <= Pow2(j) ==> q.value.capacity <= Pow2(j)
    {
      CapacityIsLeastPowerOfTwo(requested, 63);
      var rounded := CheckAndRoundCapacity(requested, 63);
      if rounded.InvalidArgument? {
        q := None;
      } else {
        var capacity := rounded.value;
        ghost var e := CapacityExponent(requested, 63);
        var queue := new Queue<T>.Of(capacity, consumers, default, e);
        q := Some(queue);
      }
    }

    // -------------------------------------------------- the producer's steps

    method BeginPublish(item: T)
      requires Valid() && producer == PIdle
      modifies this`producer, this`history
      ensures Valid() && history == old(history) + [PublishCall(item)]
      ensures State() == Apply(old(State()), PublishCall(item))
      ensures producer == if tail - cachedMin >= capacity then PScan(tail, item, 0, 0) else PAssign(tail, item)
    {
      hide Inv, Run;
      StepIsApply(Start(), history, PublishCall(item));
      producer := if tail - cachedMin >= capacity then PScan(tail, item, 0, 0) else PAssign(tail, item);
      history := history + [PublishCall(item)];
    }

    method ScanOne()
      requires Valid() && producer.PScan? && producer.i < cursors.Length
      modifies this`producer, this`cachedMin, this`history
      ensures Valid() && history == old(history) + [ScanCursor]
      ensures State() == Apply(old(State()), ScanCursor)
      ensures var p, c := old(producer), cursors[old(producer.i)];
              var min := if p.i == 0 || c < p.min then c else p.min;
              producer == if p.i + 1 < cursors.Length then PScan(p.t, p.item, p.i + 1, min)
                          else if p.t - min >= capacity then PIdle else PAssign(p.t, p.item)
    {
      hide Inv, Run;
      StepIsApply(Start(), history, ScanCursor);
      var p := producer;
      var c := cursors[p.i];
      var min := if p.i == 0 || c < p.min then c else p.min;
      if p.i + 1 < cursors.Length {
        producer := PScan(p.t, p.item, p.i + 1, min);
      } else {
        cachedMin := min;
        producer := if p.t - cachedMin >= capacity then PIdle else PAssign(p.t, p.item);
      }
      history := history + [ScanCursor];
    }

    method BeginAssign()
      requires Valid() && producer.PAssign?
      modifies this`producer, this`history, slots
      ensures Valid() && history == old(history) + [AssignBegin]
      ensures State() == Apply(old(State()), AssignBegin)
      ensures producer == PAssigning(old(producer.t), old(producer.item))
    {
      hide Inv, Run;
      StepIsApply(Start(), history, AssignBegin);
      slots[SlotIndex(producer.t)] := Assigning;
      producer := PAssigning(producer.t, producer.item);
      history := history + [AssignBegin];
    }

    method EndAssign()
      requires Valid() && producer.PAssigning?
      modifies this`producer, this`history, slots
      ensures Valid() && history == old(history) + [AssignEnd]
      ensures State() == Apply(old(State()), AssignEnd)
      ensures producer == PAssigned(old(producer.t), old(producer.item))
    {
      hide Inv, Run;
      StepIsApply(Start(), history, AssignEnd);
      slots[SlotIndex(producer.t)] := Holds(producer.item);
      producer := PAssigned(producer.t, producer.item);
      history := history + [AssignEnd];
    }

    method StoreNewTail()
      requires Valid() && producer.PAssigned?
      modifies this`producer, this`history, this`tail, this`published
      ensures Valid() && history == old(history) + [StoreTail]
      ensures State() == Apply(old(State()), StoreTail)
      ensures producer == PIdle && published == old(published) + [old(producer.item)]
    {
      hide Inv, Run;
      StepIsApply(Start(), history, StoreTail);
      tail := producer.t + 1;
      published := published + [producer.item];
      producer := PIdle;
      history := history + [StoreTail];
    }

    // ---------------------------------------------------- a consumer's steps

    method LoadCursor(c: nat)
      requires Valid() && c < readers.Length && readers[c] == CIdle
      modifies this`history, readers
      ensures Valid() && history == old(history) + [ConsumeCall(c)]
      ensures State() == Apply(old(State()), ConsumeCall(c))
      ensures readers[c] == CLoaded(cursors[c])
    {
      hide Inv, Run;
      StepIsApply(Start(), history, ConsumeCall(c));
      readers[c] := CLoaded(cursors[c]);
      history := history + [ConsumeCall(c)];
    }

    method CheckTail(c: nat)
      requires Valid() && c < readers.Length && readers[c].CLoaded?
      modifies this`history, readers
      ensures Valid() && history == old(history) + [LoadTail(c)]
      ensures State() == Apply(old(State()), LoadTail(c))
      ensures readers[c] == if old(readers[c].pos) >= tail then CIdle else CReading(old(readers[c].pos))
    {
      hide Inv, Run;
      StepIsApply(Start(), history, LoadTail(c));
      var pos := readers[c].pos;
      readers[c] := if pos >= tail then CIdle else CReading(pos);
      history := history + [LoadTail(c)];
    }

    method FinishCallback(c: nat)
      requires Valid() && c < readers.Length && readers[c].CReading?
      modifies this`history, readers
      ensures Valid() && history == old(history) + [CallbackEnd(c)]
      ensures State() == Apply(old(State()), CallbackEnd(c))
      ensures var pos := old(readers[c].pos);
              readers[c].CRead? && readers[c].pos == pos && pos < |published| && readers[c].value == published[pos]
    {
      hide Inv, Run;
      StepIsApply(Start(), history, CallbackEnd(c));
      CallbackItem(c);
      var pos := readers[c].pos;
      readers[c] := CRead(pos, slots[SlotIndex(pos)].value);
      history := history + [CallbackEnd(c)];
    }

    method AdvanceCursor(c: nat)
      requires Valid() && c < readers.Length && readers[c].CRead?
      modifies this`history, this`seen, cursors, readers
      ensures Valid() && history == old(history) + [StoreCursor(c)]
      ensures State() == Apply(old(State()), StoreCursor(c))
      ensures var r := old(readers[c]);
              && c < |old(seen)| == |seen| && seen[c] == old(seen)[c] + [r.value]
              && cursors[c] == r.pos + 1 && readers[c] == CIdle
    {
      hide Inv, Run;
      StepIsApply(Start(), history, StoreCursor(c));
      var r := readers[c];
      cursors[c] := r.pos + 1;
      seen := seen[c := seen[c] + [r.value]];
      readers[c] := CIdle;
      history := history + [StoreCursor(c)];
    }

    lemma CallbackItem(c: nat)
      requires Valid() && c < readers.Length && readers[c].CReading?
      ensures var pos := readers[c].pos;
              pos < |published| && slots[Slot(pos, capacity)] == Holds(published[pos])
    {
      assert ReaderOk(State(), c);
      ReadableSlot(State(), c);
    }

    // --------------------------------------------------- the other threads

    /** Takes the step, if its thread is ready for it. */
    method Perform(a: Action<T>)
      requires Valid()
      modifies this, slots, cursors, readers
      ensures Valid() && history == old(history) + [a]
      ensures State() == Apply(old(State()), a)
    {
      hide Inv, Apply;
      ghost var before := history;
      StepIsApply(Start(), before, a);
      PerformIfReady(a);
      history := before + [a];
    }

    method PerformIfReady(a: Action<T>)
      requires Valid()
      modifies this, slots, cursors, readers
      ensures Valid()
      ensures State() == Apply(old(State()), a)
    {
      match a
      case PublishCall(item) => if producer.PIdle? { BeginPublish(item); }
      case ScanCursor => if producer.PScan? && producer.i < cursors.Length { ScanOne(); }
      case AssignBegin => if producer.PAssign? { BeginAssign(); }
      case AssignEnd => if producer.PAssigning? { EndAssign(); }
      case StoreTail => if producer.PAssigned? { StoreNewTail(); }
      case ConsumeCall(c) => if c < readers.Length && readers[c].CIdle? { LoadCursor(c); }
      case LoadTail(c) => if c < readers.Length && readers[c].CLoaded? { CheckTail(c); }
      case CallbackEnd(c) => if c < readers.Length && readers[c].CReading? { FinishCallback(c); }
      case StoreCursor(c) => if c < readers.Length && readers[c].CRead? { AdvanceCursor(c); }
    }

    ghost predicate IsThread(me: Thread)
      reads this
    {
      me.ConsumerThread? ==> me.c < readers.Length
    }

    /** The k-th slice of the schedule: any steps of any other threads. Past its
        end the others stand still. */
    method Yield(env: seq<seq<Action<T>>>, k: nat, me: Thread) returns (k': nat)
      requires Valid() && IsThread(me)
      modifies this, slots, cursors, readers
      ensures Valid() && old(history) <= history
      ensures me.ProducerThread? ==>
                && producer == old(producer) && published == old(published) && tail == old(tail)
                && (NaiveGateOpen(old(State())) ==> NaiveGateOpen(State()))
      ensures me.ConsumerThread? ==>
                && readers[me.c] == old(readers[me.c]) && cursors[me.c] == old(cursors[me.c])
                && me.c < |old(seen)| == |seen| && seen[me.c] == old(seen)[me.c] && old(published) <= published
      ensures k < |env| ==> k' == k + 1
      ensures k < |env| ==> history == old(history) + Others(env[k], me)
      ensures k >= |env| ==> k' == k && State() == old(State()) && history == old(history)
    {
      k' := k;
      if k < |env| {
        LetOthersRun(env[k], me);
        k' := k + 1;
      }
    }

    /** All the steps of other threads among these, in order. */
    method LetOthersRun(acts: seq<Action<T>>, me: Thread)
      requires Valid() && IsThread(me)
      modifies this, slots, cursors, readers
      ensures Valid() && history == old(history) + Others(acts, me)
      ensures LeavesAlone(old(State()), State(), me)
      ensures me.ProducerThread? && NaiveGateOpen(old(State())) ==> NaiveGateOpen(State())
    {
      hide Inv, Run, Apply, Enabled, Others, NaiveGateOpen;
      ghost var start := history;
      NobodyElse<T>(me);
      for i := 0 to |acts|
        invariant Valid() && history == start + Others(acts[..i], me)
        invariant LeavesAlone(old(State()), State(), me)
        invariant me.ProducerThread? && NaiveGateOpen(old(State())) ==> NaiveGateOpen(State())
      {
        OthersStep(acts, i, me);
        if ThreadOf(acts[i]) != me {
          ShapeHolds();
          OthersLeaveAlone(State(), acts[i], me);
          GateUnder(acts[i]);
          Perform(acts[i]);
        }
      }
      assert acts[..|acts|] == acts;
    }

    lemma ShapeHolds()
      requires Valid()
      ensures Shape(State())
    {
    }

    lemma GateUnder(a: Action<T>)
      requires Valid()
      ensures NaiveGateOpen(State()) && !OfProducer(a) ==> NaiveGateOpen(Apply(State(), a))
      ensures NaiveGateOpen(State()) && a == ScanCursor ==> NaiveGateOpen(Apply(State(), a))
      ensures NaiveGateOpen(State()) && a.PublishCall? ==> NaiveGateOpen(Apply(State(), a))
    {
      if NaiveGateOpen(State()) && !a.StoreTail? {
        GateStep(State(), a);
      }
    }

    // ----------------------------------------------------------- operations

    ghost predicate FullSince(since: nat)
      reads this
    {
      FullIn(Start(), history, since)
    }

    lemma FullNow(since: nat)
      requires Valid() && since <= |history| && ExactlyFull(State())
      ensures FullSince(since)
    {
      assert history[..|history|] == history;
    }

    /** What the next scan step will make of the cursor it loads. */
    lemma NextScan(since: nat)
      requires Valid() && producer.PScan? && producer.i < cursors.Length && since <= |history|
      ensures var p, c := producer, cursors[producer.i];
              var min := if p.i == 0 || c < p.min then c else p.min;
              && p.t - min <= capacity
              && (p.t - min == capacity ==>
                    (FullSince(since) && ExactlyFull(State())) || (p.i > 0 && p.t - p.min == capacity))
    {
      MinimumComesFromAnInstant(State());
      if ExactlyFull(State()) {
        FullNow(since);
      }
    }

    /** A scan is under way only while the cached minimum says full. */
    lemma ScanOrAssign()
      requires Valid()
      ensures producer.PScan? ==> producer.i < cursors.Length
      ensures producer.PAssign? ==> NaiveGateOpen(State())
      ensures ExactlyFull(State()) <==> !NaiveGateOpen(State())
    {
      NobodyFurtherBehind(State());
      if producer.PAssign? {
        forall c | 0 <= c < |State().cursors| ensures State().tail - State().cursors[c] < capacity {
          assert ReaderOk(State(), c);
        }
      }
    }

    /** Alone, the cursors are where they were. */
    lemma SameGate(s0: State<T>)
      requires s0.cursors == cursors[..] && s0.tail == tail && s0.capacity == capacity
      ensures NaiveGateOpen(State()) == NaiveGateOpen(s0) && ExactlyFull(State()) == ExactlyFull(s0)
    {
    }

    /** True: the item is published, to everyone. False: nothing is, and at some
        instant during the call the slowest cursor was exactly C behind. It
        succeeds whenever the naive gate is open at the call, and run alone only
        then. */
    method TryPublish(item: T, env: seq<seq<Action<T>>>) returns (ok: bool)
      requires Valid() && producer == PIdle
      modifies this, slots, cursors, readers
      ensures Valid() && producer == PIdle && old(history) <= history
      ensures published == old(published) + (if ok then [item] else [])
      ensures !ok ==> FullSince(|old(history)|)
      ensures old(history) + [PublishCall(item)] + Between(env, 0, ProducerThread) <= history
      ensures NaiveGateOpen(old(State())) ==> ok
      ensures env == [] ==> (ok <==> NaiveGateOpen(old(State())))
    {
      hide Inv, Run, Apply, Enabled, Valid, FullIn, ExactlyFull, NaiveGateOpen, Others;
      ghost var s0 := State();
      ScanOrAssign();
      GateUnder(PublishCall(item));
      BeginPublish(item);
      var k := Yield(env, 0, ProducerThread);
      ScanOrAssign();
      if env == [] {
        SameGate(s0);
      }
      while producer.PScan?
        invariant old(history) + [PublishCall(item)] + Between(env, 0, ProducerThread) <= history
        invariant Valid() && published == old(published) && tail == old(tail)
        invariant producer == PIdle || (producer.PScan? && producer.item == item && producer.i < cursors.Length)
                  || (producer.PAssign? && producer.item == item && (env == [] ==> NaiveGateOpen(s0)))
        invariant producer.PScan? && producer.i > 0 && producer.t - producer.min == capacity ==>
                    FullSince(|old(history)|) && !NaiveGateOpen(s0)
        invariant producer == PIdle ==> FullSince(|old(history)|) && !NaiveGateOpen(s0)
        invariant NaiveGateOpen(s0) ==> NaiveGateOpen(State())
        invariant env == [] ==> cursors[..] == s0.cursors
        decreases if producer.PScan? then cursors.Length - producer.i else 0
      {
        ScanOrAssign();
        NextScan(|old(history)|);
        if env == [] {
          SameGate(s0);
        }
        GateUnder(ScanCursor);
        ghost var before := history;
        ScanOne();
        FullInLonger(Start(), before, history, |old(history)|);
        ScanOrAssign();
        ghost var middle := history;
        k := Yield(env, k, ProducerThread);
        FullInLonger(Start(), middle, history, |old(history)|);
        if env == [] {
          SameGate(s0);
        }
      }
      if producer == PIdle {
        return false;
      }
      Assign(env, k);
      return true;
    }

    /** The assignment and the tail_ store, once the gate has let the producer through. */
    method Assign(env: seq<seq<Action<T>>>, k: nat)
      requires Valid() && producer.PAssign?
      modifies this, slots, cursors, readers
      ensures Valid() && producer == PIdle && old(history) <= history
      ensures published == old(published) + [old(producer.item)]
    {
      hide Inv, Run, Apply, Enabled, Valid, Others;
      BeginAssign();
      var n := Yield(env, k, ProducerThread);
      EndAssign();
      n := Yield(env, n, ProducerThread);
      StoreNewTail();
    }

    /** try_consume with a copying callback. It returns the item at the cursor,
        and always does when one had been published before the call; otherwise
        it may return nothing, and then nothing changes for this consumer. */
    method TryConsume(c: nat, env: seq<seq<Action<T>>>) returns (r: Option<T>)
      requires Valid() && c < readers.Length && readers[c] == CIdle
      modifies this, slots, cursors, readers
      ensures Valid() && readers[c] == CIdle && old(history) <= history && c < |old(seen)| == |seen|
      ensures old(cursors[c]) < |old(published)| ==> r.Some?
      ensures r.Some? ==>
                var pos := old(cursors[c]);
                && pos < |published| && r.value == published[pos]
                && cursors[c] == pos + 1 && seen[c] == old(seen)[c] + [r.value]
      ensures r.None? ==> cursors[c] == old(cursors[c]) && seen[c] == old(seen)[c]
      ensures var me := ConsumerThread(c);
              history == old(history) + [ConsumeCall(c)] + Between(env, 0, me) + [LoadTail(c)]
                         + (if r.None? then []
                            else Between(env, 1, me) + [CallbackEnd(c)] + Between(env, 2, me) + [StoreCursor(c)])
    {
      hide Inv, Run, Apply, Enabled, Valid, Others;
      LoadCursor(c);
      var k := Yield(env, 0, ConsumerThread(c));
      TailIsCount();
      CheckTail(c);
      if readers[c] == CIdle {
        return None;
      }
      r := Deliver(c, env, k);
    }

    lemma TailIsCount()
      requires Valid()
      ensures tail == |published|
    {
    }

    /** The callback, and the cursor store after it. */
    method Deliver(c: nat, env: seq<seq<Action<T>>>, k: nat) returns (r: Option<T>)
      requires Valid() && c < readers.Length && readers[c].CReading?
      modifies this, slots, cursors, readers
      ensures Valid() && readers[c] == CIdle && old(published) <= published
      ensures var me := ConsumerThread(c);
              history == old(history) + Between(env, k, me) + [CallbackEnd(c)]
                         + Between(env, if k < |env| then k + 1 else k, me) + [StoreCursor(c)]
      ensures var pos := old(readers[c].pos);
              && c < |old(seen)| == |seen| && pos < |published| && r == Some(published[pos])
              && cursors[c] == pos + 1 && seen[c] == old(seen)[c] + [published[pos]]
    {
      hide Inv, Run, Apply, Enabled, Valid, Others;
      var n := Yield(env, k, ConsumerThread(c));
      FinishCallback(c);
      n := Yield(env, n, ConsumerThread(c));
      r := Some(readers[c].value);
      AdvanceCursor(c);
    }
  }
}
