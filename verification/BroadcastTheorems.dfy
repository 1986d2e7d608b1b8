/** The invariant of SPMCBroadcastQueue, and what it means. */
module BroadcastTheorems {
  import opened Ring
  import opened BroadcastModel

  // ------------------------------------------------------------- invariant

  /** The slot of p, the next position to be published there, still holds p - C,
      unless the producer is assigning p to it. */
  ghost predicate SlotOk<T>(s: State<T>, p: nat)
    requires Shape(s) && |s.published| <= p < |s.published| + s.capacity
  {
    var cell := s.slots[Slot(p, s.capacity)];
    if p == |s.published| && s.producer.PAssigning? then cell == Assigning
    else if p == |s.published| && s.producer.PAssigned? then cell == Holds(s.producer.item)
    else cell.Holds? && (p >= s.capacity ==> cell.value == s.published[p - s.capacity])
  }

  ghost predicate SlotsOk<T>(s: State<T>)
    requires Shape(s)
  {
    forall p :: |s.published| <= p < |s.published| + s.capacity ==> SlotOk(s, p)
  }

  ghost predicate GateOk<T>(s: State<T>) {
    && s.cachedMin <= s.tail <= s.cachedMin + s.capacity
    && s.tail == |s.published|
    && match s.producer
       case PIdle => true
       case PScan(t, _, i, min) =>
         && t == s.tail == s.cachedMin + s.capacity && i < |s.cursors|
         && (i > 0 ==>
               && s.cachedMin <= min <= s.tail
               && forall j :: 0 <= j < i && j < |s.cursors| ==> min <= s.cursors[j])
       case _ => s.producer.t == s.tail < s.cachedMin + s.capacity
  }

  ghost predicate ReaderOk<T>(s: State<T>, c: nat)
    requires Shape(s) && c < |s.readers|
  {
    && s.cachedMin <= s.cursors[c] <= s.tail && s.tail == |s.published|
    && s.seen[c] == s.published[..s.cursors[c]]
    && match s.readers[c]
       case CIdle => true
       case CLoaded(pos) => pos == s.cursors[c]
       case CReading(pos) => pos == s.cursors[c] < s.tail
       case CRead(pos, v) => pos == s.cursors[c] < s.tail && v == s.published[pos]
  }

  ghost predicate ReadersOk<T>(s: State<T>)
    requires Shape(s)
  {
    forall c :: 0 <= c < |s.readers| ==> ReaderOk(s, c)
  }

  ghost predicate Inv<T>(s: State<T>) {
    s.capacity >= 2 && |s.cursors| >= 1 && Shape(s) && SlotsOk(s) && GateOk(s) && ReadersOk(s)
  }

  lemma InitInv<T>(capacity: nat, consumers: nat, default: T)
    requires capacity >= 2 && consumers >= 1
    ensures Inv(Init(capacity, consumers, default))
  {
  }

  lemma SlotsFrame<T>(s: State<T>, s': State<T>)
    requires Shape(s) && Shape(s') && SlotsOk(s)
    requires s'.capacity == s.capacity && s'.slots == s.slots && s'.published == s.published
    requires !s.producer.PAssigning? && !s.producer.PAssigned? ==> !s'.producer.PAssigning? && !s'.producer.PAssigned?
    requires s.producer.PAssigning? || s.producer.PAssigned? ==> s'.producer == s.producer
    ensures SlotsOk(s')
  {
    forall p | |s'.published| <= p < |s'.published| + s'.capacity ensures SlotOk(s', p) {
      assert SlotOk(s, p);
    }
  }

  /** Scanning: cursors only move forward under it, so the running minimum stays
      a lower bound of every cursor already loaded. */
  lemma ScanInv<T>(s: State<T>, a: Action<T>)
    requires Inv(s) && Enabled(s, a) && (a.PublishCall? || a.ScanCursor?)
    ensures Inv(Apply(s, a))
  {
    var s' := Apply(s, a);
    SlotsFrame(s, s');
    if a.ScanCursor? {
      assert ReaderOk(s, s.producer.i);
    }
    forall c | 0 <= c < |s'.readers| ensures ReaderOk(s', c) {
      assert ReaderOk(s, c);
    }
  }

  /** The slot under assignment is free of readers: everyone is past it. */
  lemma AssignInv<T>(s: State<T>, a: Action<T>)
    requires Inv(s) && Enabled(s, a) && (a.AssignBegin? || a.AssignEnd?)
    ensures Inv(Apply(s, a))
  {
    var s' := Apply(s, a);
    var t := |s.published|;
    assert SlotOk(s, t);
    forall p | t <= p < t + s.capacity ensures SlotOk(s', p) {
      assert SlotOk(s, p);
      if p > t {
        SlotInjective(t, p, s.capacity);
      }
    }
    forall c | 0 <= c < |s'.readers| ensures ReaderOk(s', c) {
      assert ReaderOk(s, c);
    }
  }

  lemma StoreTailInv<T>(s: State<T>)
    requires Inv(s) && Enabled(s, StoreTail)
    ensures Inv(Apply(s, StoreTail))
  {
    var s' := Apply(s, StoreTail);
    var t := |s.published|;
    forall p | t + 1 <= p < t + 1 + s.capacity ensures SlotOk(s', p) {
      if p < t + s.capacity {
        assert SlotOk(s, p);
      } else {
        assert SlotOk(s, t);
        assert Slot(p, s.capacity) == Slot(t, s.capacity);
      }
    }
    forall c | 0 <= c < |s'.readers| ensures ReaderOk(s', c) {
      assert ReaderOk(s, c);
    }
  }

  /** While a position is being read its slot holds the item published there. */
  lemma ReadableSlot<T>(s: State<T>, c: nat)
    requires Inv(s) && c < |s.readers| && s.cursors[c] < s.tail
    ensures s.slots[Slot(s.cursors[c], s.capacity)] == Holds(s.published[s.cursors[c]])
    ensures (s.producer.PAssign? || s.producer.PAssigning?) ==>
              Slot(s.producer.t, s.capacity) != Slot(s.cursors[c], s.capacity)
  {
    assert ReaderOk(s, c);
    var p := s.cursors[c] + s.capacity;
    assert SlotOk(s, p);
    assert Slot(p, s.capacity) == Slot(s.cursors[c], s.capacity);
    if s.producer.PAssign? || s.producer.PAssigning? {
      SlotInjective(s.cursors[c], s.tail, s.capacity);
    }
  }

  lemma ReaderInv<T>(s: State<T>, a: Action<T>)
    requires Inv(s) && Enabled(s, a) && !OfProducer(a)
    ensures Inv(Apply(s, a))
  {
    var s' := Apply(s, a);
    assert ReaderOk(s, a.c);
    if a.CallbackEnd? {
      ReadableSlot(s, a.c);
    }
    if a.StoreCursor? {
      var pos := s.cursors[a.c];
      assert s.published[..pos + 1] == s.published[..pos] + [s.published[pos]];
    }
    SlotsFrame(s, s');
    forall c | 0 <= c < |s'.readers| ensures ReaderOk(s', c) {
      assert ReaderOk(s, c);
    }
  }

  lemma ApplyInv<T>(s: State<T>, a: Action<T>)
    requires Inv(s)
    ensures Inv(Apply(s, a))
  {
    if Enabled(s, a) {
      if a.PublishCall? || a.ScanCursor? {
        ScanInv(s, a);
      } else if a.AssignBegin? || a.AssignEnd? {
        AssignInv(s, a);
      } else if a.StoreTail? {
        StoreTailInv(s);
      } else {
        ReaderInv(s, a);
      }
    }
  }

  lemma {:induction false} RunInv<T>(s: State<T>, acts: seq<Action<T>>)
    requires Inv(s)
    ensures Inv(Run(s, acts))
  {
    if acts == [] {
    } else {
      RunInv(s, acts[..|acts| - 1]);
      ApplyInv(Run(s, acts[..|acts| - 1]), acts[|acts| - 1]);
    }
  }

  lemma Reachable<T>(capacity: nat, consumers: nat, default: T, acts: seq<Action<T>>)
    requires capacity >= 2 && consumers >= 1
    ensures Inv(Run(Init(capacity, consumers, default), acts))
  {
    InitInv(capacity, consumers, default);
    RunInv(Init(capacity, consumers, default), acts);
  }

  // ---------------------------------------------------------------- fan-out

  /** Every consumer has been given exactly the items published before its
      cursor, in order, however far apart the consumers are; and the cached
      minimum never exceeds a cursor, nor lags the producer by more than C. */
  lemma EveryoneSeesEverything<T>(capacity: nat, consumers: nat, default: T, acts: seq<Action<T>>, c: nat)
    requires capacity >= 2 && consumers >= 1
    requires c < |Run(Init(capacity, consumers, default), acts).cursors|
    ensures var s := Run(Init(capacity, consumers, default), acts);
            && Shape(s) && s.cachedMin <= s.cursors[c] <= s.tail <= s.cachedMin + s.capacity
            && s.tail == |s.published|
            && s.seen[c] == s.published[..s.cursors[c]]
  {
    Reachable(capacity, consumers, default, acts);
    assert ReaderOk(Run(Init(capacity, consumers, default), acts), c);
  }

  /** The step would assign a slot that a callback is reading, or start or end a
      callback on a slot being assigned. */
  predicate Faults<T>(s: State<T>, a: Action<T>) {
    && Enabled(s, a)
    && match a
       case AssignBegin =>
         exists c :: 0 <= c < |s.readers| && s.readers[c].CReading?
                     && Slot(s.readers[c].pos, s.capacity) == Slot(s.producer.t, s.capacity)
       case LoadTail(c) => s.readers[c].pos < s.tail && s.slots[Slot(s.readers[c].pos, s.capacity)].Assigning?
       case CallbackEnd(c) => s.slots[Slot(s.readers[c].pos, s.capacity)].Assigning?
       case _ => false
  }

  lemma ReadsAndWritesAreDisjoint<T>(capacity: nat, consumers: nat, default: T, acts: seq<Action<T>>, a: Action<T>)
    requires capacity >= 2 && consumers >= 1
    ensures !Faults(Run(Init(capacity, consumers, default), acts), a)
  {
    Reachable(capacity, consumers, default, acts);
    var s := Run(Init(capacity, consumers, default), acts);
    if Enabled(s, a) {
      if a.AssignBegin? {
        forall c | 0 <= c < |s.readers| && s.readers[c].CReading?
          ensures Slot(s.readers[c].pos, s.capacity) != Slot(s.producer.t, s.capacity)
        {
          assert ReaderOk(s, c);
          ReadableSlot(s, c);
        }
      } else if a.LoadTail? || a.CallbackEnd? {
        assert ReaderOk(s, a.c);
        if s.cursors[a.c] < s.tail {
          ReadableSlot(s, a.c);
        }
      }
    }
  }

  /** During a whole callback the slot holds the one item the callback is for. */
  lemma CallbackSeesItsItem<T>(capacity: nat, consumers: nat, default: T, acts: seq<Action<T>>, c: nat)
    requires capacity >= 2 && consumers >= 1
    requires var s := Run(Init(capacity, consumers, default), acts); c < |s.readers| && s.readers[c].CReading?
    ensures var s := Run(Init(capacity, consumers, default), acts);
            var pos := s.readers[c].pos;
            Shape(s) && pos < |s.published| && s.slots[Slot(pos, s.capacity)] == Holds(s.published[pos])
  {
    Reachable(capacity, consumers, default, acts);
    var s := Run(Init(capacity, consumers, default), acts);
    assert ReaderOk(s, c);
    ReadableSlot(s, c);
  }

  // ----------------------------------------------------------------- gating

  /** The naive gate, which looks at every cursor at one instant. */
  predicate NaiveGateOpen<T>(s: State<T>) {
    forall c :: 0 <= c < |s.cursors| ==> s.tail - s.cursors[c] < s.capacity
  }

  /** The slowest cursor is exactly C behind: nobody is further, somebody is as far. */
  predicate ExactlyFull<T>(s: State<T>) {
    && (forall c :: 0 <= c < |s.cursors| ==> s.tail - s.cursors[c] <= s.capacity)
    && (exists c :: 0 <= c < |s.cursors| && s.tail - s.cursors[c] == s.capacity)
  }

  lemma NobodyFurtherBehind<T>(s: State<T>)
    requires Inv(s)
    ensures forall c :: 0 <= c < |s.cursors| ==> s.tail - s.cursors[c] <= s.capacity
    ensures NaiveGateOpen(s) <==> !ExactlyFull(s)
  {
    forall c | 0 <= c < |s.cursors| ensures s.tail - s.cursors[c] <= s.capacity {
      assert ReaderOk(s, c);
    }
  }

  /** Whatever let the producer through, at the moment it assigns the slot the
      naive gate is open: a stale minimum never wrongly reports space. */
  lemma SpaceAtTheWrite<T>(capacity: nat, consumers: nat, default: T, acts: seq<Action<T>>)
    requires capacity >= 2 && consumers >= 1
    requires Enabled(Run(Init(capacity, consumers, default), acts), AssignBegin)
    ensures NaiveGateOpen(Run(Init(capacity, consumers, default), acts))
  {
    Reachable(capacity, consumers, default, acts);
    var s := Run(Init(capacity, consumers, default), acts);
    forall c | 0 <= c < |s.cursors| ensures s.tail - s.cursors[c] < s.capacity {
      assert ReaderOk(s, c);
    }
  }

  /** The scan's minimum is t - C only if it loaded that very value, and at the
      instant it did the slowest cursor was exactly C behind. */
  lemma MinimumComesFromAnInstant<T>(s: State<T>)
    requires Inv(s) && Enabled(s, ScanCursor)
    ensures var p := s.producer;
            var c := s.cursors[p.i];
            var min := if p.i == 0 || c < p.min then c else p.min;
            && p.t - min <= s.capacity
            && (p.t - min == s.capacity ==> ExactlyFull(s) || (p.i > 0 && p.t - p.min == s.capacity))
  {
    NobodyFurtherBehind(s);
    assert ReaderOk(s, s.producer.i);
  }

  predicate Scanning<T>(s: State<T>, acts: seq<Action<T>>) {
    forall n :: 0 <= n <= |acts| ==> Run(s, acts[..n]).producer.PScan?
  }

  ghost predicate FullAtSomeInstant<T>(s: State<T>, acts: seq<Action<T>>) {
    exists n :: 0 <= n <= |acts| && ExactlyFull(Run(s, acts[..n]))
  }

  lemma {:induction false} MinimumRemembersInstant<T>(s: State<T>, acts: seq<Action<T>>)
    requires Inv(s) && s.producer.PScan? && s.producer.i == 0 && Scanning(s, acts)
    ensures Inv(Run(s, acts)) && Run(s, acts).producer.PScan?
    ensures var s' := Run(s, acts);
            s'.producer.i > 0 && s'.producer.t - s'.producer.min == s'.capacity ==> FullAtSomeInstant(s, acts)
  {
    RunInv(s, acts);
    assert acts[..|acts|] == acts;
    if acts == [] {
    } else {
      var before, a := acts[..|acts| - 1], acts[|acts| - 1];
      forall n | 0 <= n <= |before| ensures Run(s, before[..n]).producer.PScan? {
        assert before[..n] == acts[..n];
      }
      MinimumRemembersInstant(s, before);
      var r := Run(s, before);
      if Enabled(r, a) && a.ScanCursor? {
        MinimumComesFromAnInstant(r);
        assert acts[..|before|] == before;
      }
      if FullAtSomeInstant(s, before) {
        var n :| 0 <= n <= |before| && ExactlyFull(Run(s, before[..n]));
        assert before[..n] == acts[..n];
      }
    }
  }

  /** Cursors only advance, and tail_ is the producer's own: nothing but a
      publication shuts the gate. */
  lemma GateStep<T>(s: State<T>, a: Action<T>)
    requires Inv(s) && NaiveGateOpen(s) && !a.StoreTail?
    ensures NaiveGateOpen(Apply(s, a))
  {
    if Enabled(s, a) && a.StoreCursor? {
      assert ReaderOk(s, a.c);
    }
  }

  lemma {:induction false} GateStaysOpen<T>(s: State<T>, acts: seq<Action<T>>)
    requires Inv(s) && NaiveGateOpen(s) && Scanning(s, acts)
    ensures Inv(Run(s, acts)) && NaiveGateOpen(Run(s, acts))
  {
    RunInv(s, acts);
    if acts == [] {
    } else {
      var before := acts[..|acts| - 1];
      forall n | 0 <= n <= |before| ensures Run(s, before[..n]).producer.PScan? {
        assert before[..n] == acts[..n];
      }
      GateStaysOpen(s, before);
      assert acts[..|before|] == before;
      assert Run(s, before).producer.PScan?;
      if acts[|acts| - 1].StoreTail? {
        assert Run(s, acts) == Run(s, before);
      } else {
        GateStep(Run(s, before), acts[|acts| - 1]);
      }
    }
  }

  /** So a scan that begins with the gate open lets the producer through, whatever
      the consumers do meanwhile: a refusal means the slowest cursor was exactly C
      behind already when the scan began. */
  lemma RefusedOnlyIfFullAtStart<T>(s: State<T>, acts: seq<Action<T>>)
    requires Inv(s) && s.producer.PScan? && s.producer.i == 0 && Scanning(s, acts)
    requires Enabled(Run(s, acts), ScanCursor) && Apply(Run(s, acts), ScanCursor).producer == PIdle
    ensures ExactlyFull(s)
  {
    NobodyFurtherBehind(s);
    RefusalHasAFullInstant(s, acts);
    var n :| 0 <= n <= |acts| && ExactlyFull(Run(s, acts[..n]));
    if NaiveGateOpen(s) {
      forall m | 0 <= m <= n ensures Run(s, acts[..n][..m]).producer.PScan? {
        assert acts[..n][..m] == acts[..m];
      }
      GateStaysOpen(s, acts[..n]);
      NobodyFurtherBehind(Run(s, acts[..n]));
    }
  }

  /** A refused try_publish: however the cursors moved under the scan, at some
      instant during it the slowest cursor was exactly C behind. */
  lemma RefusalHasAFullInstant<T>(s: State<T>, acts: seq<Action<T>>)
    requires Inv(s) && s.producer.PScan? && s.producer.i == 0 && Scanning(s, acts)
    requires Enabled(Run(s, acts), ScanCursor) && Apply(Run(s, acts), ScanCursor).producer == PIdle
    ensures FullAtSomeInstant(s, acts)
  {
    MinimumRemembersInstant(s, acts);
    MinimumComesFromAnInstant(Run(s, acts));
    assert acts[..|acts|] == acts;
  }
}
