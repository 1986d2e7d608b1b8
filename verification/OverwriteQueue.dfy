/** SPMCOverwriteQueue itself: the ring, write_pos_ and published_ updated in
    place, one method per atomic step, and publish, try_read and a draining
    reader, run against an arbitrary schedule of the other threads. */
module OverwriteQueue {
  import opened Ring
  import opened OverwriteModel
  import opened OverwriteInvariant
  import opened OverwriteTheorems

  datatype Thread = Clock | WriterThread | ReaderThread(c: nat)

  function ThreadOf(a: Action): Thread {
    if a.Tick? then Clock else if OfConsumer(a) then ReaderThread(a.c) else WriterThread
  }

  ghost predicate LeavesAlone(s: State, s': State, me: Thread) {
    match me
    case Clock => true
    case WriterThread =>
      && s'.writer == s.writer && s'.started == s.started && s'.writePos == s.writePos
      && s'.published == s.published
    case ReaderThread(c) =>
      c < |s.consumers| == |s'.consumers| && s'.consumers[c] == s.consumers[c] && s.started <= s'.started
  }

  lemma OthersLeaveAlone(s: State, a: Action, me: Thread)
    requires ThreadOf(a) != me && (me.ReaderThread? ==> me.c < |s.consumers|)
    ensures LeavesAlone(s, Apply(s, a), me)
  {
  }

  /** What every atomic step of the class has to know about the model. */
  lemma StepIsApply(s0: State, acts: seq<Action>, a: Action)
    requires Inv(Run(s0, acts))
    ensures Run(s0, acts + [a]) == Apply(Run(s0, acts), a)
    ensures Inv(Apply(Run(s0, acts), a))
  {
    assert (acts + [a])[..|acts|] == acts;
    ApplyInv(Run(s0, acts), a);
  }

  /** The actions of the threads other than me, in order. */
  ghost function Others(acts: seq<Action>, me: Thread): seq<Action> {
    if acts == [] then []
    else
      var a := acts[|acts| - 1];
      Others(acts[..|acts| - 1], me) + (if ThreadOf(a) != me then [a] else [])
  }

  /** The other threads' steps between two of this thread. */
  ghost function Between(env: seq<seq<Action>>, k: nat, me: Thread): seq<Action> {
    if k < |env| then Others(env[k], me) else []
  }

  lemma NobodyElse(me: Thread)
    ensures Others([], me) == []
  {
  }

  lemma OthersStep(acts: seq<Action>, i: nat, me: Thread)
    requires i < |acts|
    ensures Others(acts[..i + 1], me) == Others(acts[..i], me) + (if ThreadOf(acts[i]) != me then [acts[i]] else [])
  {
    assert acts[..i + 1][..i] == acts[..i];
  }

  /** At some step since then, consumer c loaded its slot's sequence and there was
      nothing to read: its position was not whole in the ring yet, or the slot was
      being rewritten. */
  ghost predicate FoundNothing(s0: State, history: seq<Action>, since: nat, c: nat) {
    exists at :: since <= at < |history| && history[at] == LoadSequence(c) && NothingToRead(Run(s0, history[..at]), c)
  }

  ghost predicate NothingToRead(s: State, c: nat) {
    && Shape(s) && HasReader(s, c)
    && (s.consumers[c].pos > Stable(s)
        || (s.writer.WWriting? && Slot(s.writer.pos, s.capacity) == Slot(s.consumers[c].pos, s.capacity)))
  }

  /** At some step since then, consumer c loaded the sequence of the slot of pos,
      and it showed position newest. */
  ghost predicate Showed(s0: State, history: seq<Action>, since: nat, c: nat, pos: nat, newest: nat) {
    exists at ::
      && since <= at < |history| && (history[at] == LoadSequence(c) || history[at] == LoadAgain(c))
      && ShowsAt(Run(s0, history[..at]), pos, newest)
  }

  ghost predicate ShowsAt(s: State, pos: nat, newest: nat) {
    Shape(s) && s.sequence[Slot(pos, s.capacity)] / 2 == newest
  }

  lemma LogStays(s0: State, history: seq<Action>, history': seq<Action>, since: nat, since': nat, c: nat)
    requires history <= history' && since' <= since
    ensures FoundNothing(s0, history, since, c) ==> FoundNothing(s0, history', since', c)
    ensures forall pos, newest ::
              Showed(s0, history, since, c, pos, newest) ==> Showed(s0, history', since', c, pos, newest)
  {
    forall at: nat | at < |history| ensures history'[..at] == history[..at] {
    }
  }

  /** The producer takes no step in this schedule; the clock and the consumers may. */
  predicate Quiet(env: seq<seq<Action>>) {
    forall k, i :: 0 <= k < |env| && 0 <= i < |env[k]| ==> ThreadOf(env[k][i]) != WriterThread
  }

  /** How one call of try_read goes: the steps of the other threads, and how far
      behind the value is that it loads from published_. */
  datatype Turn = Turn(env: seq<seq<Action>>, lag: nat)

  /** Past the end of the list nobody else takes a step and nothing lags. */
  function TurnAt(turns: seq<Turn>, n: nat): Turn {
    if n < |turns| then turns[n] else Turn([], 0)
  }

  predicate AllQuiet(turns: seq<Turn>) {
    forall n :: 0 <= n < |turns| ==> Quiet(turns[n].env)
  }

  predicate AllCurrent(turns: seq<Turn>) {
    forall n :: 0 <= n < |turns| ==> turns[n].lag == 0
  }

  /** The answer of a try_read at position pos once W items have been published
      and the producer stands still. */
  function AloneAnswer(pos: nat, w: nat, capacity: nat): Status {
    if pos > w then Empty
    else if pos + capacity > w then Status.Ok
    else Lapped
  }

  /** The oldest position at or after pos that the ring still holds. */
  function FirstReadable(pos: nat, w: nat, capacity: nat): nat {
    if pos + capacity <= w then w - capacity + 1 else pos
  }

  function Repeat(status: Status, n: nat): seq<Status> {
    if n == 0 then [] else [status] + Repeat(status, n - 1)
  }

  /** Positions from..w, each with its item. */
  function Items(from: nat, w: nat, started: seq<Item>): (r: seq<Received>)
    requires 1 <= from && w <= |started|
    ensures |r| == if from <= w then w - from + 1 else 0
    ensures forall i :: 0 <= i < |r| ==> r[i] == Received(from + i, started[from + i - 1])
    decreases w - from
  {
    if from > w then [] else [Received(from, started[from - 1])] + Items(from + 1, w, started)
  }

  lemma NoneYet(first: nat, started: seq<Item>)
    requires 1 <= first <= |started| + 1
    ensures Repeat(Status.Ok, 0) == [] && Items(first, first - 1, started) == []
  {
  }

  /** One more Ok, one more item. */
  lemma OneMore(first: nat, pos: nat, started: seq<Item>)
    requires 1 <= first <= pos <= |started|
    ensures Repeat(Status.Ok, pos - first) + [Status.Ok] == Repeat(Status.Ok, pos + 1 - first)
    ensures Items(first, pos - 1, started) + [Received(pos, started[pos - 1])] == Items(first, pos, started)
  {
    hide Items, Repeat;
    RepeatOnce(Status.Ok, pos - first);
  }

  lemma {:induction false} RepeatOnce(status: Status, n: nat)
    ensures Repeat(status, n) + [status] == Repeat(status, n + 1)
  {
    if n == 0 {
    } else {
      RepeatOnce(status, n - 1);
      assert Repeat(status, n) + [status] == [status] + (Repeat(status, n - 1) + [status]);
    }
  }

  class Queue {
    const capacity: nat
    const mask: nat
    const words: nat
    ghost const exponent: nat
    const sequence: array<nat>
    const data: array<Item>
    var writePos: nat
    var published: nat

    // The threads' registers.
    var writer: Writer
    const consumers: array<Consumer>

    // The logs of the model, and every step taken so far.
    ghost var started: seq<Item>
    ghost var now: nat
    ghost var marks: seq<nat>
    ghost var history: seq<Action>

    ghost function State(): State
      reads this, sequence, data, consumers
    {
      OverwriteModel.State(capacity, words, writePos, published, sequence[..], data[..], writer, consumers[..],
                           started, now, marks)
    }

    ghost predicate Separate()
      reads this
    {
      && sequence as object != data as object && sequence as object != consumers as object
      && data as object != consumers as object
      && sequence.Length == capacity && data.Length == capacity
      && exponent >= 1 && capacity == Pow2(exponent) && mask == capacity - 1
    }

    ghost predicate Valid()
      reads this, sequence, data, consumers
    {
      && Separate()
      && Inv(State())
      && State() == Run(Init(capacity, words, consumers.Length), history)
    }

    function SlotIndex(p: nat): (i: nat)
      requires Separate()
      reads this
      ensures i == Slot(p, capacity) && i < capacity
    {
      MaskIsSlot(p, exponent);
      And(p, mask)
    }

    /** The constructor's body, for a capacity already checked and rounded. */
    constructor Of(capacity: nat, words: nat, consumers: nat, ghost exponent: nat)
      requires exponent >= 1 && capacity == Pow2(exponent)
      ensures Valid() && fresh(sequence) && fresh(data) && fresh(this.consumers)
      ensures this.capacity == capacity && this.words == words && this.consumers.Length == consumers
      ensures history == [] && State() == Init(capacity, words, consumers)
    {
      this.capacity, this.mask, this.words, this.exponent := capacity, capacity - 1, words, exponent;
      sequence := new nat[capacity](_ => 0);
      data := new Item[capacity](_ => Blank(words));
      this.consumers := new Consumer[consumers](_ => Absent);
      writePos, published, writer := 0, 0, WIdle;
      started, now, marks, history := [], 0, [], [];
      new;
      assert sequence[..] == Init(capacity, words, consumers).sequence;
      assert data[..] == Init(capacity, words, consumers).data;
      assert this.consumers[..] == Init(capacity, words, consumers).consumers;
      Pow2Monotone(1, exponent);
      InitInv(capacity, words, consumers);
    }

    /** The public constructor: it throws on a capacity it does not accept, and
        else rounds it up to the least power of two. */
    static method Create(requested: nat, words: nat, consumers: nat) returns (q: Option<Queue>)
      ensures q.Some? <==> 2 <= requested <= Pow2(62)
      ensures q.Some? ==>
                && fresh(q.value) && q.value.Valid() && q.value.State() == Init(q.value.capacity, words, consumers)
                && requested <= q.value.capacity
                && forall j: nat :: requested <= Pow2(j) ==> q.value.capacity <= Pow2(j)
    {
      CapacityIsLeastPowerOfTwo(requested, 62);
      var rounded := CheckAndRoundCapacity(requested, 62);
      if rounded.InvalidArgument? {
        q := None;
      } else {
        var capacity := rounded.value;
        ghost var e := CapacityExponent(requested, 62);
        var queue := new Queue.Of(capacity, words, consumers, e);
        q := Some(queue);
      }
    }

    // -------------------------------------------------- the producer's steps

    method AdvanceClock(ghost d: nat)
      requires Valid()
      modifies this
      ensures Valid() && history == old(history) + [Tick(d)]
      ensures State() == Apply(old(State()), Tick(d))
    {
      hide Inv, Run;
      StepIsApply(Init(capacity, words, consumers.Length), history, Tick(d));
      now := now + d;
      history := history + [Tick(d)];
    }

    method BeginPublish(item: Item)
      requires Valid() && writer == WIdle && |item| == words
      modifies this
      ensures Valid() && history == old(history) + [Publish(item)]
      ensures State() == Apply(old(State()), Publish(item))
      ensures started == old(started) + [item] && writePos == old(writePos) + 1
      ensures writer == WStarted(writePos, item)
    {
      hide Inv, Run;
      StepIsApply(Init(capacity, words, consumers.Length), history, Publish(item));
      writePos := writePos + 1;
      started := started + [item];
      writer := WStarted(writePos, item);
      history := history + [Publish(item)];
    }

    method StoreOdd()
      requires Valid() && writer.WStarted?
      modifies this, sequence
      ensures Valid() && history == old(history) + [MarkWriting]
      ensures State() == Apply(old(State()), MarkWriting)
      ensures started == old(started) && writePos == old(writePos)
      ensures writer == WWriting(old(writer.pos), old(writer.item), AllWords(words))
    {
      hide Inv, Run;
      StepIsApply(Init(capacity, words, consumers.Length), history, MarkWriting);
      sequence[SlotIndex(writer.pos)] := 2 * writer.pos + 1;
      marks := marks + [now];
      writer := WWriting(writer.pos, writer.item, AllWords(words));
      history := history + [MarkWriting];
    }

    method WriteWord(j: nat)
      requires Valid() && writer.WWriting? && j in writer.todo && j < words && j < |writer.item|
      modifies this, data
      ensures Valid() && history == old(history) + [CopyWord(j)]
      ensures State() == Apply(old(State()), CopyWord(j))
      ensures started == old(started) && writePos == old(writePos)
      ensures writer == WWriting(old(writer.pos), old(writer.item), old(writer.todo) - {j})
    {
      hide Inv, Run;
      ShapeHolds();
      StepIsApply(Init(capacity, words, consumers.Length), history, CopyWord(j));
      var i := SlotIndex(writer.pos);
      assert State().data[i] == data[i];
      data[i] := data[i][j := writer.item[j]];
      writer := WWriting(writer.pos, writer.item, writer.todo - {j});
      history := history + [CopyWord(j)];
    }

    method StoreEven()
      requires Valid() && writer.WWriting? && writer.todo == {}
      modifies this, sequence
      ensures Valid() && history == old(history) + [MarkStable]
      ensures State() == Apply(old(State()), MarkStable)
      ensures started == old(started) && writePos == old(writePos)
      ensures writer == WStable(old(writer.pos))
    {
      hide Inv, Run;
      StepIsApply(Init(capacity, words, consumers.Length), history, MarkStable);
      sequence[SlotIndex(writer.pos)] := 2 * writer.pos;
      writer := WStable(writer.pos);
      history := history + [MarkStable];
    }

    method SetPublished()
      requires Valid() && writer.WStable?
      modifies this
      ensures Valid() && history == old(history) + [StorePublished]
      ensures State() == Apply(old(State()), StorePublished)
      ensures started == old(started) && writePos == old(writePos)
      ensures writer == WIdle && published == old(writer.pos)
    {
      hide Inv, Run;
      StepIsApply(Init(capacity, words, consumers.Length), history, StorePublished);
      published := writer.pos;
      writer := WIdle;
      history := history + [StorePublished];
    }

    // ---------------------------------------------------- a consumer's steps

    method NewConsumer(c: nat, p: nat)
      requires Valid() && c < consumers.Length && consumers[c] == Absent && p <= published
      modifies this`history, consumers
      ensures Valid() && history == old(history) + [MakeConsumer(c, p)]
      ensures State() == Apply(old(State()), MakeConsumer(c, p))
      ensures consumers[c] == Present(p + 1, p + 1, 0, RIdle, None, [])
    {
      hide Inv, Run;
      StepIsApply(Init(capacity, words, consumers.Length), history, MakeConsumer(c, p));
      consumers[c] := Present(p + 1, p + 1, 0, RIdle, None, []);
      history := history + [MakeConsumer(c, p)];
    }

    method BeginRead(c: nat)
      requires Valid() && c < consumers.Length && consumers[c].Present? && consumers[c].reader == RIdle
      modifies this`history, consumers
      ensures Valid() && history == old(history) + [ReadCall(c)]
      ensures State() == Apply(old(State()), ReadCall(c))
      ensures consumers[c] == old(consumers[c]).(reader := RLoad)
    {
      hide Inv, Run;
      StepIsApply(Init(capacity, words, consumers.Length), history, ReadCall(c));
      consumers[c] := consumers[c].(reader := RLoad);
      history := history + [ReadCall(c)];
    }

    method LoadFirst(c: nat)
      requires Valid() && c < consumers.Length && consumers[c].Present? && consumers[c].reader == RLoad
      modifies this`history, consumers
      ensures Valid() && history == old(history) + [LoadSequence(c)]
      ensures State() == Apply(old(State()), LoadSequence(c))
      ensures var k, s1 := old(consumers[c]), sequence[Slot(old(consumers[c].pos), capacity)];
              consumers[c] == if s1 % 2 == 1 || s1 / 2 < k.pos then Answer(k, Empty)
                              else if s1 / 2 > k.pos then k.(reader := RLapped(s1 / 2))
                              else k.(reader := RCopy(s1, Blank(words), AllWords(words)))
    {
      hide Inv, Run;
      StepIsApply(Init(capacity, words, consumers.Length), history, LoadSequence(c));
      var k := consumers[c];
      var s1 := sequence[SlotIndex(k.pos)];
      if s1 % 2 == 1 || s1 / 2 < k.pos {
        consumers[c] := Answer(k, Empty);
      } else if s1 / 2 > k.pos {
        consumers[c] := k.(reader := RLapped(s1 / 2));
      } else {
        consumers[c] := k.(reader := RCopy(s1, Blank(words), AllWords(words)));
      }
      history := history + [LoadSequence(c)];
    }

    method CopyOut(c: nat, j: nat)
      requires Valid() && c < consumers.Length && consumers[c].Present? && consumers[c].reader.RCopy?
      requires j in consumers[c].reader.todo && j < words && j < |consumers[c].reader.out|
      modifies this`history, consumers
      ensures Valid() && history == old(history) + [ReadWord(c, j)]
      ensures State() == Apply(old(State()), ReadWord(c, j))
      ensures var k, r := old(consumers[c]), old(consumers[c].reader);
              var i := Slot(k.pos, capacity);
              i < data.Length && j < |data[i]|
              && consumers[c] == k.(reader := RCopy(r.s1, r.out[j := data[i][j]], r.todo - {j}))
    {
      hide Inv, Run;
      ShapeHolds();
      StepIsApply(Init(capacity, words, consumers.Length), history, ReadWord(c, j));
      var k := consumers[c];
      var r, i := k.reader, SlotIndex(k.pos);
      assert |State().data[i]| == words;
      consumers[c] := k.(reader := RCopy(r.s1, r.out[j := data[i][j]], r.todo - {j}));
      history := history + [ReadWord(c, j)];
    }

    method LoadSecond(c: nat)
      requires Valid() && c < consumers.Length && consumers[c].Present?
      requires consumers[c].reader.RCopy? && consumers[c].reader.todo == {}
      modifies this`history, consumers
      ensures Valid() && history == old(history) + [LoadAgain(c)]
      ensures State() == Apply(old(State()), LoadAgain(c))
      ensures var k, s2 := old(consumers[c]), sequence[Slot(old(consumers[c].pos), capacity)];
              consumers[c] == if s2 != k.reader.s1 then k.(reader := RLapped(s2 / 2))
                              else Answer(k, Status.Ok).(pos := k.pos + 1,
                                                         received := k.received + [Received(k.pos, k.reader.out)])
    {
      hide Inv, Run;
      StepIsApply(Init(capacity, words, consumers.Length), history, LoadAgain(c));
      var k := consumers[c];
      var s2 := sequence[SlotIndex(k.pos)];
      if s2 != k.reader.s1 {
        consumers[c] := k.(reader := RLapped(s2 / 2));
      } else {
        var item := Received(k.pos, k.reader.out);
        consumers[c] := Answer(k, Status.Ok).(pos := k.pos + 1, received := k.received + [item]);
      }
      history := history + [LoadAgain(c)];
    }

    /** p is the value that the load of published_ returns. */
    method Recover(c: nat, p: nat)
      requires Valid() && c < consumers.Length && consumers[c].Present? && consumers[c].reader.RLapped?
      requires p <= published
      modifies this`history, consumers
      ensures Valid() && history == old(history) + [LoadPublished(c, p)]
      ensures State() == Apply(old(State()), LoadPublished(c, p))
      ensures var k := old(consumers[c]);
              var target := Resume(k.pos, k.reader.newest, p, capacity);
              consumers[c] == if target > k.pos
                              then Answer(k, Lapped).(pos := target, missed := k.missed + (target - k.pos))
                              else Answer(k, Lapped)
    {
      hide Inv, Run;
      StepIsApply(Init(capacity, words, consumers.Length), history, LoadPublished(c, p));
      var k := consumers[c];
      var target := if p > capacity then p - capacity + 1 else 1;
      if target <= k.pos {
        target := k.reader.newest;
      }
      if target > k.pos {
        consumers[c] := Answer(k, Lapped).(pos := target, missed := k.missed + (target - k.pos));
      } else {
        consumers[c] := Answer(k, Lapped);
      }
      history := history + [LoadPublished(c, p)];
    }

    // --------------------------------------------------- the other threads

    /** Takes the step, if its thread is ready for it. */
    method Perform(a: Action)
      requires Valid()
      modifies this, sequence, data, consumers
      ensures Valid() && history == old(history) + [a]
      ensures State() == Apply(old(State()), a)
    {
      hide Inv, Apply;
      ghost var before := history;
      StepIsApply(Init(capacity, words, consumers.Length), before, a);
      if OfConsumer(a) {
        PerformConsumer(a);
      } else {
        PerformOther(a);
      }
      history := before + [a];
    }

    method PerformOther(a: Action)
      requires Valid() && !OfConsumer(a)
      modifies this, sequence, data
      ensures Valid()
      ensures State() == Apply(old(State()), a)
    {
      match a
      case Tick(d) => AdvanceClock(d);
      case Publish(item) => if writer.WIdle? && |item| == words { BeginPublish(item); }
      case MarkWriting => if writer.WStarted? { StoreOdd(); }
      case CopyWord(j) =>
        if writer.WWriting? && j in writer.todo && j < words && j < |writer.item| { WriteWord(j); }
      case MarkStable => if writer.WWriting? && writer.todo == {} { StoreEven(); }
      case StorePublished => if writer.WStable? { SetPublished(); }
      case _ =>
    }

    method PerformConsumer(a: Action)
      requires Valid() && OfConsumer(a)
      modifies this`history, consumers
      ensures Valid()
      ensures State() == Apply(old(State()), a)
    {
      if a.c >= consumers.Length {
        return;
      }
      var k := consumers[a.c];
      if a.MakeConsumer? {
        if k.Absent? && a.p <= published { NewConsumer(a.c, a.p); }
      } else if k.Present? {
        match a
        case ReadCall(c) => if k.reader.RIdle? { BeginRead(c); }
        case LoadSequence(c) => if k.reader.RLoad? { LoadFirst(c); }
        case ReadWord(c, j) =>
          if k.reader.RCopy? && j in k.reader.todo && j < words && j < |k.reader.out| { CopyOut(c, j); }
        case LoadAgain(c) => if k.reader.RCopy? && k.reader.todo == {} { LoadSecond(c); }
        case LoadPublished(c, p) => if k.reader.RLapped? && p <= published { Recover(c, p); }
        case _ =>
      }
    }

    ghost predicate IsThread(me: Thread)
      reads this
    {
      me.ReaderThread? ==> me.c < consumers.Length
    }

    /** The producer is where it was. */
    ghost predicate AtRest(w: Writer, pos: nat, items: seq<Item>)
      reads this
    {
      writer == w && writePos == pos && started == items
    }

    /** The k-th slice of the schedule: any steps of any other threads. Past its
        end the others stand still. */
    method Yield(env: seq<seq<Action>>, k: nat, me: Thread) returns (k': nat)
      requires Valid() && IsThread(me)
      modifies this, sequence, data, consumers
      ensures Valid() && old(history) <= history
      ensures me == WriterThread ==>
                writer == old(writer) && started == old(started) && writePos == old(writePos)
                && published == old(published)
      ensures me.ReaderThread? ==> consumers[me.c] == old(consumers[me.c]) && old(started) <= started
      ensures k < |env| ==> k' == k + 1
      ensures k < |env| ==> history == old(history) + Others(env[k], me)
      ensures k >= |env| ==> k' == k && State() == old(State()) && history == old(history)
      ensures Quiet(env) ==> AtRest(old(writer), old(writePos), old(started))
    {
      k' := k;
      if k < |env| {
        LetOthersRun(env[k], me, Quiet(env));
        k' := k + 1;
      }
    }

    /** All the steps of other threads among these, in order. */
    method LetOthersRun(acts: seq<Action>, me: Thread, ghost quiet: bool)
      requires Valid() && IsThread(me)
      requires quiet ==> forall i :: 0 <= i < |acts| ==> ThreadOf(acts[i]) != WriterThread
      modifies this, sequence, data, consumers
      ensures Valid() && history == old(history) + Others(acts, me)
      ensures LeavesAlone(old(State()), State(), me)
      ensures quiet ==> LeavesAlone(old(State()), State(), WriterThread)
    {
      hide Inv, Run, Apply, Enabled, Others;
      ghost var start := history;
      NobodyElse(me);
      for i := 0 to |acts|
        invariant Valid() && history == start + Others(acts[..i], me)
        invariant LeavesAlone(old(State()), State(), me)
        invariant quiet ==> LeavesAlone(old(State()), State(), WriterThread)
      {
        OthersStep(acts, i, me);
        if ThreadOf(acts[i]) != me {
          OthersLeaveAlone(State(), acts[i], me);
          if quiet {
            OthersLeaveAlone(State(), acts[i], WriterThread);
          }
          Perform(acts[i]);
        }
      }
      assert acts[..|acts|] == acts;
    }

    // ----------------------------------------------------------- operations

    /** Always succeeds and waits for nobody: the item gets the next position. */
    method PublishItem(item: Item, env: seq<seq<Action>>)
      requires Valid() && writer == WIdle && |item| == words
      modifies this, sequence, data, consumers
      ensures Valid() && writer == WIdle && old(history) <= history
      ensures started == old(started) + [item]
      ensures writePos == old(writePos) + 1 && published == writePos
      ensures old(history) + [Publish(item)] + Between(env, 0, WriterThread) + [MarkWriting] <= history
    {
      hide Inv, Run, Apply, Enabled, Valid, Others;
      BeginPublish(item);
      var k := Yield(env, 0, WriterThread);
      StoreOdd();
      k := Yield(env, k, WriterThread);
      k := CopyIn(env, k);
      StoreEven();
      k := Yield(env, k, WriterThread);
      SetPublished();
    }

    /** The word-by-word copy into the slot, in any order of the words. */
    method CopyIn(env: seq<seq<Action>>, k: nat) returns (n: nat)
      requires Valid() && writer.WWriting? && |writer.item| == words
      requires forall j :: j in writer.todo ==> j < words
      modifies this, sequence, data, consumers
      ensures Valid() && old(history) <= history
      ensures writer == WWriting(old(writer.pos), old(writer.item), {})
      ensures started == old(started) && writePos == old(writePos)
    {
      hide Inv, Run, Apply, Enabled, Valid, Others;
      n := k;
      while writer.todo != {}
        invariant Valid() && old(history) <= history
        invariant writer.WWriting? && writer == WWriting(old(writer.pos), old(writer.item), writer.todo)
        invariant forall j :: j in writer.todo ==> j < words
        invariant started == old(started) && writePos == old(writePos)
        decreases if writer.WWriting? then |writer.todo| else 0
      {
        var j :| j in writer.todo;
        WriteWord(j);
        n := Yield(env, n, WriterThread);
      }
    }

    lemma StatesAgree(c: nat)
      requires Valid() && c < consumers.Length
      ensures ConsumerOk(State(), consumers[c])
    {
      assert ConsumerOk(State(), State().consumers[c]);
    }

    /** With the producer at rest, the slot tells exactly where the ring stands. */
    lemma SlotAlone(c: nat)
      requires Valid() && c < consumers.Length && consumers[c].Present? && writer == WIdle
      ensures var pos, s1 := consumers[c].pos, sequence[Slot(consumers[c].pos, capacity)];
              && 1 <= pos <= writePos + 1 && published == writePos && s1 % 2 == 0
              && (s1 / 2 < pos <==> pos > writePos)
              && (s1 == 2 * pos <==> pos <= writePos < pos + capacity)
    {
      StatesAgree(c);
      Shows(State(), consumers[c].pos);
    }

    lemma LappedAlone(c: nat)
      requires Valid() && c < consumers.Length && consumers[c].Present? && consumers[c].reader.RLapped?
      requires writer == WIdle
      ensures var k := consumers[c];
              && k.pos + capacity <= writePos
              && Resume(k.pos, k.reader.newest, published, capacity) == writePos - capacity + 1
    {
      StatesAgree(c);
    }

    lemma RecoveryMoves(c: nat, p: nat)
      requires Valid() && c < consumers.Length && consumers[c].Present? && consumers[c].reader.RLapped?
      requires p <= published
      ensures var k := consumers[c];
              1 <= k.pos < Resume(k.pos, k.reader.newest, p, capacity) <= writePos
    {
      StatesAgree(c);
      RecoveryIsExact(State(), c, p);
    }

    lemma CopyValidates(c: nat)
      requires Valid() && c < consumers.Length && consumers[c].Present? && consumers[c].reader.RCopy?
      requires consumers[c].reader.todo == {}
      ensures var k := consumers[c];
              sequence[Slot(k.pos, capacity)] == k.reader.s1 ==>
                1 <= k.pos <= |started| && k.reader.out == started[k.pos - 1]
    {
      LoadAgainOk(State(), c);
    }

    ghost function Start(): State
      reads this
    {
      Init(capacity, words, consumers.Length)
    }

    lemma LoadFinds(c: nat)
      requires Valid() && c < consumers.Length && consumers[c].Present? && consumers[c].reader == RLoad
      ensures var pos, s1 := consumers[c].pos, sequence[Slot(consumers[c].pos, capacity)];
              s1 % 2 == 1 || s1 / 2 < pos ==> NothingToRead(State(), c)
    {
      EmptyIsExact(State(), c);
    }

    lemma StateShows(c: nat)
      requires Valid() && c < consumers.Length && consumers[c].Present?
      ensures Separate() && ShowsAt(State(), consumers[c].pos, sequence[Slot(consumers[c].pos, capacity)] / 2)
    {
    }

    /** The first load, and what the history tells of it. */
    method Look(c: nat)
      requires Valid() && c < consumers.Length && consumers[c].Present? && consumers[c].reader == RLoad
      modifies this`history, consumers
      ensures Valid() && history == old(history) + [LoadSequence(c)]
      ensures var k, s1 := old(consumers[c]), sequence[Slot(old(consumers[c].pos), capacity)];
              consumers[c] == if s1 % 2 == 1 || s1 / 2 < k.pos then Answer(k, Empty)
                              else if s1 / 2 > k.pos then k.(reader := RLapped(s1 / 2))
                              else k.(reader := RCopy(s1, Blank(words), AllWords(words)))
      ensures consumers[c].reader == RIdle ==> FoundNothing(Start(), history, |old(history)|, c)
      ensures Showed(Start(), history, |old(history)|, c, old(consumers[c].pos),
                     sequence[Slot(old(consumers[c].pos), capacity)] / 2)
    {
      hide Inv, Run, Apply, Enabled, NothingToRead;
      ghost var before := history;
      LoadFinds(c);
      StateShows(c);
      LoadFirst(c);
      assert history[..|before|] == before;
    }

    /** The first half of try_read: the first load of the slot's sequence. */
    method Scan(c: nat, env: seq<seq<Action>>) returns (k: nat)
      requires Valid() && c < consumers.Length && consumers[c].Present? && consumers[c].reader == RIdle
      modifies this, sequence, data, consumers
      ensures Valid() && old(history) <= history && old(started) <= started
      ensures var k0, k1 := old(consumers[c]), consumers[c];
              || k1 == Answer(k0, Empty)
              || (k1.Present? && k1.reader.RLapped? && k1 == k0.(reader := k1.reader))
              || k1 == k0.(reader := RCopy(2 * k0.pos, Blank(words), AllWords(words)))
      ensures history == old(history) + [ReadCall(c)] + Between(env, 0, ReaderThread(c)) + [LoadSequence(c)]
      ensures consumers[c].reader == RIdle ==> FoundNothing(Start(), history, |old(history)|, c)
      ensures consumers[c].reader.RLapped? ==>
                Showed(Start(), history, |old(history)|, c, old(consumers[c].pos), consumers[c].reader.newest)
      ensures Quiet(env) ==> AtRest(old(writer), old(writePos), old(started))
      ensures Quiet(env) && writer == WIdle ==>
                var pos, reader := old(consumers[c].pos), consumers[c].reader;
                && (reader == RIdle <==> pos > writePos)
                && (reader.RCopy? <==> pos <= writePos < pos + capacity)
    {
      hide Inv, Run, Apply, Enabled, Valid, FoundNothing, Showed, Others;
      BeginRead(c);
      k := Yield(env, 0, ReaderThread(c));
      ShapeHolds();
      if writer == WIdle {
        SlotAlone(c);
      }
      ghost var before := history;
      Look(c);
      LogStays(Start(), history, history, |before|, |old(history)|, c);
    }

    lemma ShapeHolds()
      requires Valid()
      ensures Separate()
    {
    }

    /** The consumer has everything as before the copy but the words copied. */
    ghost predicate Copying(k0: Consumer, k1: Consumer)
      requires k0.Present? && k0.reader.RCopy?
    {
      && k1.Present? && k1.reader.RCopy? && |k1.reader.out| == words
      && (forall j :: j in k1.reader.todo ==> j < words)
      && k1 == k0.(reader := RCopy(k0.reader.s1, k1.reader.out, k1.reader.todo))
    }

    /** The word-by-word copy out of the slot, in any order of the words. */
    method CopyAll(c: nat, env: seq<seq<Action>>, k: nat) returns (n: nat)
      requires Valid() && c < consumers.Length && consumers[c].Present?
      requires consumers[c].reader.RCopy? && Copying(consumers[c], consumers[c])
      modifies this, sequence, data, consumers
      ensures Valid() && old(history) <= history && old(started) <= started
      ensures Copying(old(consumers[c]), consumers[c]) && consumers[c].reader.todo == {}
      ensures Quiet(env) ==> AtRest(old(writer), old(writePos), old(started))
    {
      hide Inv, Run, Apply, Enabled, Valid, Quiet;
      n := Yield(env, k, ReaderThread(c));
      while consumers[c].reader.todo != {}
        invariant Valid() && old(history) <= history && old(started) <= started
        invariant Copying(old(consumers[c]), consumers[c])
        invariant Quiet(env) ==> AtRest(old(writer), old(writePos), old(started))
        decreases if consumers[c].Present? && consumers[c].reader.RCopy? then |consumers[c].reader.todo| else 0
      {
        var j :| j in consumers[c].reader.todo;
        CopyOut(c, j);
        n := Yield(env, n, ReaderThread(c));
      }
    }

    /** The validating load. */
    method Validate(c: nat) returns (out: Item)
      requires Valid() && c < consumers.Length && consumers[c].Present?
      requires consumers[c].reader.RCopy? && consumers[c].reader.todo == {}
      modifies this`history, consumers
      ensures Valid() && old(history) <= history
      ensures var k0, k1 := old(consumers[c]), consumers[c];
              || (k1.Present? && k1.reader.RLapped? && k1 == k0.(reader := k1.reader))
              || (1 <= k0.pos <= |started| && out == started[k0.pos - 1]
                  && k1 == Answer(k0, Status.Ok).(pos := k0.pos + 1, received := k0.received + [Received(k0.pos, out)]))
      ensures consumers[c].Present? && consumers[c].reader.RLapped? ==>
                Showed(Start(), history, |old(history)|, c, old(consumers[c].pos), consumers[c].reader.newest)
      ensures writer == WIdle && old(consumers[c].pos) <= writePos < old(consumers[c].pos) + capacity
              && old(consumers[c].reader.s1) == 2 * old(consumers[c].pos) ==>
                consumers[c].reader == RIdle
    {
      hide Inv, Run, Apply, Enabled, Valid, Others;
      out := consumers[c].reader.out;
      CopyValidates(c);
      ShapeHolds();
      if writer == WIdle {
        SlotAlone(c);
      }
      LookAgain(c);
    }

    /** The second load, and what the history tells of it. */
    method LookAgain(c: nat)
      requires Valid() && c < consumers.Length && consumers[c].Present?
      requires consumers[c].reader.RCopy? && consumers[c].reader.todo == {}
      modifies this`history, consumers
      ensures Valid() && old(history) <= history
      ensures var k, s2 := old(consumers[c]), sequence[Slot(old(consumers[c].pos), capacity)];
              consumers[c] == if s2 != k.reader.s1 then k.(reader := RLapped(s2 / 2))
                              else Answer(k, Status.Ok).(pos := k.pos + 1,
                                                         received := k.received + [Received(k.pos, k.reader.out)])
      ensures Showed(Start(), history, |old(history)|, c, old(consumers[c].pos),
                     sequence[Slot(old(consumers[c].pos), capacity)] / 2)
    {
      hide Inv, Run, Apply, Enabled;
      ghost var before := history;
      StateShows(c);
      LoadSecond(c);
      assert history[..|before|] == before;
    }

    /** Where a recovery puts the cursor, if it loaded a published_ that lagged so
        far and the slot had shown newest; and, if it did not lag, that only what
        was overwritten has been skipped, up to the one exception. */
    ghost predicate LapsTo(pos: nat, pos': nat, newest: nat, lag: nat)
      reads this, sequence, data, consumers
    {
      var p := if lag <= published then published - lag else 0;
      && pos' == (if p >= pos + capacity then p - capacity + 1 else newest)
      && (lag == 0 ==>
            || AllOverwritten(State(), pos, pos')
            || (published + 1 == newest == pos' == pos + capacity
                && forall q :: pos < q < pos' ==> Intact(State(), q)))
    }

    /** try_read. Ok: the whole item at the cursor, which moves on by one. Empty:
        nothing changes, and at its load there was nothing to read. Lapped: the
        cursor moves forward, not past the producer, to where LapsTo says, and
        missed grows by exactly the distance. While the producer stands still,
        whatever the other consumers do, the answer is that of AloneAnswer, and
        the new cursor that of FirstReadable unless the load of published_ lags. */
    method TryRead(c: nat, env: seq<seq<Action>>, lag: nat) returns (status: Status, out: Item)
      requires Valid() && c < consumers.Length && consumers[c].Present? && consumers[c].reader == RIdle
      modifies this, sequence, data, consumers
      ensures Valid() && old(history) <= history && old(started) <= started
      ensures consumers[c].Present? && consumers[c].reader == RIdle && consumers[c].last == Some(status)
      ensures consumers[c].start == old(consumers[c].start)
      ensures var k0, k1 := old(consumers[c]), consumers[c];
              match status
              case Ok =>
                && 1 <= k0.pos <= |started| && out == started[k0.pos - 1]
                && k1.pos == k0.pos + 1 && k1.missed == k0.missed
                && k1.received == k0.received + [Received(k0.pos, out)]
              case Empty => k1.pos == k0.pos && k1.missed == k0.missed && k1.received == k0.received
              case Lapped =>
                && k0.pos < k1.pos <= writePos && k1.missed == k0.missed + (k1.pos - k0.pos)
                && k1.received == k0.received
      ensures status == Empty ==> FoundNothing(Start(), history, |old(history)|, c)
      ensures var asked := old(history) + [ReadCall(c)] + Between(env, 0, ReaderThread(c)) + [LoadSequence(c)];
              if status == Empty then history == asked else asked <= history
      ensures status == Lapped ==> exists newest: nat ::
                && Showed(Start(), history, |old(history)|, c, old(consumers[c].pos), newest)
                && LapsTo(old(consumers[c].pos), consumers[c].pos, newest, lag)
      ensures Quiet(env) ==> AtRest(old(writer), old(writePos), old(started))
      ensures Quiet(env) && writer == WIdle ==>
                && status == AloneAnswer(old(consumers[c].pos), writePos, capacity)
                && (status == Lapped && lag == 0 ==>
                      consumers[c].pos == FirstReadable(old(consumers[c].pos), writePos, capacity))
    {
      hide Inv, Run, Apply, Enabled, Valid, Quiet, FoundNothing, Showed, LapsTo, Others;
      var k;
      status, out, k := Attempt(c, env);
      if status == Lapped {
        ghost var newest, before := consumers[c].reader.newest, history;
        k := Yield(env, k, ReaderThread(c));
        Reposition(c, lag);
        LogStays(Start(), before, history, |old(history)|, |old(history)|, c);
        assert Showed(Start(), history, |old(history)|, c, old(consumers[c].pos), newest);
      }
    }

    /** try_read up to its answer, or up to the load of published_. */
    method Attempt(c: nat, env: seq<seq<Action>>) returns (status: Status, out: Item, k: nat)
      requires Valid() && c < consumers.Length && consumers[c].Present? && consumers[c].reader == RIdle
      modifies this, sequence, data, consumers
      ensures Valid() && old(history) <= history && old(started) <= started
      ensures var k0, k1 := old(consumers[c]), consumers[c];
              match status
              case Ok =>
                && 1 <= k0.pos <= |started| && out == started[k0.pos - 1]
                && k1 == Answer(k0, Status.Ok).(pos := k0.pos + 1, received := k0.received + [Received(k0.pos, out)])
              case Empty => k1 == Answer(k0, Empty)
              case Lapped => k1.Present? && k1.reader.RLapped? && k1 == k0.(reader := k1.reader)
      ensures status == Empty ==> FoundNothing(Start(), history, |old(history)|, c)
      ensures var asked := old(history) + [ReadCall(c)] + Between(env, 0, ReaderThread(c)) + [LoadSequence(c)];
              if status == Empty then history == asked else asked <= history
      ensures status == Lapped ==>
                Showed(Start(), history, |old(history)|, c, old(consumers[c].pos), consumers[c].reader.newest)
      ensures Quiet(env) ==> AtRest(old(writer), old(writePos), old(started))
      ensures Quiet(env) && writer == WIdle ==> status == AloneAnswer(old(consumers[c].pos), writePos, capacity)
    {
      hide Inv, Run, Apply, Enabled, Valid, Quiet, FoundNothing, Showed, Others;
      out := [];
      k := Scan(c, env);
      if consumers[c].reader == RIdle {
        return Empty, out, k;
      }
      if consumers[c].reader.RCopy? {
        k := CopyAll(c, env, k);
        ghost var since := |history|;
        out := Validate(c);
        if consumers[c].reader == RIdle {
          return Status.Ok, out, k;
        }
        LogStays(Start(), history, history, since, |old(history)|, c);
      }
      return Lapped, out, k;
    }

    /** lapped_to, with a published_ that lags. */
    method Reposition(c: nat, lag: nat)
      requires Valid() && c < consumers.Length && consumers[c].Present? && consumers[c].reader.RLapped?
      modifies this`history, consumers
      ensures Valid() && old(history) <= history
      ensures var k0, k1 := old(consumers[c]), consumers[c];
              && k1.Present? && k0.pos < k1.pos <= writePos
              && k1 == Answer(k0, Lapped).(pos := k1.pos, missed := k0.missed + (k1.pos - k0.pos))
      ensures LapsTo(old(consumers[c].pos), consumers[c].pos, old(consumers[c].reader.newest), lag)
      ensures writer == WIdle ==>
                old(consumers[c].pos) + capacity <= writePos
                && (lag == 0 ==> consumers[c].pos == writePos - capacity + 1)
    {
      hide Inv, Run, Apply, Enabled, Valid, Intact;
      var p := if lag <= published then published - lag else 0;
      RecoveryMoves(c, p);
      if lag == 0 {
        RecoverySkips(c);
      }
      ghost var s := State();
      if writer == WIdle {
        LappedAlone(c);
      }
      Recover(c, p);
      SameRing(s);
    }

    /** With a load of published_ that is not stale. */
    lemma RecoverySkips(c: nat)
      requires Valid() && c < consumers.Length && consumers[c].Present? && consumers[c].reader.RLapped?
      ensures var pos, newest := consumers[c].pos, consumers[c].reader.newest;
              var pos' := Resume(pos, newest, published, capacity);
              || AllOverwritten(State(), pos, pos')
              || (published + 1 == newest == pos' == pos + capacity
                  && forall q :: pos < q < pos' ==> Intact(State(), q))
    {
      CurrentLoadSkipsIntactIff(State(), c);
      LosesOnlyOverwrittenIff(State(), c, published);
    }

    lemma SameRing(s: State)
      requires s.marks == marks && s.writer == writer && s.capacity == capacity
      ensures forall q: nat :: Overwritten(State(), q) == Overwritten(s, q) && Intact(State(), q) == Intact(s, q)
    {
    }

    lemma CursorBound(c: nat)
      requires Valid() && c < consumers.Length && consumers[c].Present? && writer == WIdle
      ensures 1 <= consumers[c].pos <= writePos + 1 && writePos == |started| && capacity >= 2
    {
      StatesAgree(c);
    }

    /** Being told Lapped until the position is in the ring again. */
    method DrainLaps(c: nat, turns: seq<Turn>) returns (laps: nat)
      requires Valid() && c < consumers.Length && consumers[c].Present? && consumers[c].reader == RIdle
      requires writer == WIdle && AllQuiet(turns)
      modifies this, sequence, data, consumers
      ensures Valid() && AtRest(WIdle, old(writePos), old(started))
      ensures var k0, k1 := old(consumers[c]), consumers[c];
              && k1.Present? && k1.reader == RIdle && k1.received == k0.received
              && k0.pos <= k1.pos && k1.missed == k0.missed + (k1.pos - k0.pos)
              && writePos < k1.pos + capacity
              && (laps == 0 <==> writePos < k0.pos + capacity) && (laps == 0 ==> k1 == k0)
              && (AllCurrent(turns) ==> laps <= 1 && k1.pos == FirstReadable(k0.pos, writePos, capacity))
    {
      hide Inv, Run, Apply, Enabled, Valid, Quiet;
      laps := 0;
      while consumers[c].pos + capacity <= writePos
        invariant Valid() && AtRest(WIdle, old(writePos), old(started))
        invariant consumers[c].Present? && consumers[c].reader == RIdle
        invariant consumers[c].received == old(consumers[c].received) && old(consumers[c].pos) <= consumers[c].pos
        invariant consumers[c].missed == old(consumers[c].missed) + (consumers[c].pos - old(consumers[c].pos))
        invariant laps == 0 ==> consumers[c] == old(consumers[c])
        invariant laps > 0 ==> old(consumers[c].pos) + capacity <= writePos
        invariant laps > 0 && AllCurrent(turns) ==>
                    laps == 1 && consumers[c].pos == FirstReadable(old(consumers[c].pos), writePos, capacity)
        decreases writePos - consumers[c].pos
      {
        var turn := TurnAt(turns, laps);
        QuietTurn(turns, laps);
        var status, out := TryRead(c, turn.env, turn.lag);
        laps := laps + 1;
      }
    }

    lemma QuietTurn(turns: seq<Turn>, n: nat)
      requires AllQuiet(turns)
      ensures Quiet(TurnAt(turns, n).env)
      ensures AllCurrent(turns) ==> TurnAt(turns, n).lag == 0
    {
    }

    /** Reading on from a position still in the ring: Ok up to W, then Empty. */
    method DrainRest(c: nat, turns: seq<Turn>, used: nat) returns (answers: seq<Status>)
      requires Valid() && c < consumers.Length && consumers[c].Present? && consumers[c].reader == RIdle
      requires writer == WIdle && 1 <= consumers[c].pos <= writePos + 1 == |started| + 1
      requires writePos < consumers[c].pos + capacity && AllQuiet(turns)
      modifies this, sequence, data, consumers
      ensures Valid() && AtRest(WIdle, old(writePos), old(started))
      ensures answers == Repeat(Status.Ok, writePos + 1 - old(consumers[c].pos)) + [Empty]
      ensures consumers[c].Present? && consumers[c].pos == writePos + 1 && consumers[c].reader == RIdle
              && consumers[c].missed == old(consumers[c].missed)
              && consumers[c].received == old(consumers[c].received) + Items(old(consumers[c].pos), writePos, started)
    {
      hide Inv, Run, Apply, Enabled, Valid, Repeat, Items, FirstReadable, AllQuiet;
      ghost var first, before := consumers[c].pos, consumers[c].received;
      answers := [];
      NoneYet(first, started);
      var status := Status.Ok;
      while status != Empty
        invariant Valid() && AtRest(WIdle, old(writePos), old(started))
        invariant consumers[c].Present? && consumers[c].reader == RIdle && first <= consumers[c].pos <= writePos + 1
        invariant consumers[c].missed == old(consumers[c].missed)
        invariant consumers[c].received == before + Items(first, consumers[c].pos - 1, started)
        invariant status != Empty ==> answers == Repeat(Status.Ok, consumers[c].pos - first)
        invariant status == Empty ==> consumers[c].pos == writePos + 1
                                      && answers == Repeat(Status.Ok, consumers[c].pos - first) + [Empty]
        decreases writePos + 1 - consumers[c].pos, if status == Empty then 0 else 1
      {
        ghost var pos := consumers[c].pos;
        status := ReadOne(c, turns, used + |answers|);
        answers := answers + [status];
        if status != Empty {
          OneMore(first, pos, started);
        }
      }
    }

    /** Reading on at the end of the stream: Empty every time. */
    method DrainEmpty(c: nat, turns: seq<Turn>, used: nat, more: nat) returns (answers: seq<Status>)
      requires Valid() && c < consumers.Length && consumers[c].Present? && consumers[c].reader == RIdle
      requires writer == WIdle && consumers[c].pos == writePos + 1 && AllQuiet(turns)
      modifies this, sequence, data, consumers
      ensures Valid() && AtRest(WIdle, old(writePos), old(started))
      ensures answers == Repeat(Empty, more)
      ensures consumers[c].Present? && consumers[c].pos == writePos + 1
              && consumers[c].missed == old(consumers[c].missed)
              && consumers[c].received == old(consumers[c].received)
    {
      hide Inv, Run, Apply, Enabled, Valid, AllQuiet;
      answers := [];
      while |answers| < more
        invariant Valid() && AtRest(WIdle, old(writePos), old(started))
        invariant consumers[c].Present? && consumers[c].reader == RIdle && consumers[c].pos == writePos + 1
        invariant consumers[c].missed == old(consumers[c].missed)
        invariant consumers[c].received == old(consumers[c].received)
        invariant |answers| <= more && answers == Repeat(Empty, |answers|)
      {
        var status := ReadOne(c, turns, used + |answers|);
        RepeatOnce(Empty, |answers|);
        answers := answers + [status];
      }
    }

    method ReadOne(c: nat, turns: seq<Turn>, n: nat) returns (status: Status)
      requires Valid() && c < consumers.Length && consumers[c].Present? && consumers[c].reader == RIdle
      requires writer == WIdle && writePos < consumers[c].pos + capacity && AllQuiet(turns)
      modifies this, sequence, data, consumers
      ensures Valid() && AtRest(WIdle, old(writePos), old(started))
      ensures consumers[c].Present? && consumers[c].reader == RIdle && consumers[c].missed == old(consumers[c].missed)
      ensures status == if old(consumers[c].pos) <= writePos then Status.Ok else Empty
      ensures var k := old(consumers[c]);
              if k.pos <= writePos then
                consumers[c].pos == k.pos + 1 && 1 <= k.pos <= |started|
                && consumers[c].received == k.received + [Received(k.pos, started[k.pos - 1])]
              else consumers[c].pos == k.pos && consumers[c].received == k.received
    {
      hide Inv, Run, Apply, Enabled, Valid, Quiet, AllQuiet, TurnAt;
      QuietTurn(turns, n);
      var turn := TurnAt(turns, n);
      var out;
      status, out := TryRead(c, turn.env, turn.lag);
    }

    /** Once the producer has stopped at W, a consumer that keeps reading, while
        the others do as they like, is told Lapped only if its position is gone;
        then it gets exactly the items from where that left it up to W, and from
        then on Empty, each time. While its loads of published_ are not stale it
        is told Lapped at most once, and left at the oldest readable position. */
    method Drain(c: nat, turns: seq<Turn>, more: nat) returns (answers: seq<Status>, laps: nat)
      requires Valid() && c < consumers.Length && consumers[c].Present? && consumers[c].reader == RIdle
      requires writer == WIdle && AllQuiet(turns)
      modifies this, sequence, data, consumers
      ensures Valid() && AtRest(WIdle, old(writePos), old(started)) && writePos == |started|
      ensures 1 <= old(consumers[c].pos) <= writePos + 1
      ensures consumers[c].Present? && consumers[c].pos == writePos + 1
              && consumers[c].missed >= old(consumers[c].missed)
      ensures var pos := old(consumers[c].pos);
              var first := pos + (consumers[c].missed - old(consumers[c].missed));
              && FirstReadable(pos, writePos, capacity) <= first <= writePos + 1
              && (AllCurrent(turns) ==> first == FirstReadable(pos, writePos, capacity) && laps <= 1)
              && (laps == 0 <==> writePos < pos + capacity) && (laps == 0 ==> first == pos)
              && answers == Repeat(Lapped, laps) + Repeat(Status.Ok, writePos + 1 - first) + Repeat(Empty, more + 1)
              && consumers[c].received == old(consumers[c].received) + Items(first, writePos, started)
    {
      hide Inv, Run, Apply, Enabled, Valid, Repeat, Items, AllQuiet, AllCurrent;
      CursorBound(c);
      laps := DrainLaps(c, turns);
      CursorBound(c);
      var rest := DrainRest(c, turns, laps);
      var empty := DrainEmpty(c, turns, laps + |rest|, more);
      OneEmptyMore(more);
      answers := Repeat(Lapped, laps) + rest + empty;
    }

    lemma OneEmptyMore(more: nat)
      ensures [Empty] + Repeat(Empty, more) == Repeat(Empty, more + 1)
    {
    }
  }
}
