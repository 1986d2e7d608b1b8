/** The invariant of SPMCQueue and its preservation by every action. */
module SpmcInvariant {
  import opened Ring
  import opened SpmcModel

  // ------------------------------------------------------- slot ownership

  /** The consumer has claimed position q and not yet released its slot. */
  ghost predicate Holds<T>(k: Consumer<T>, q: nat) {
    (k.CClaimed? || k.CMoved? || k.CDestroyed?) && k.h == q
  }

  /** The consumer has claimed position q and not yet returned its item. */
  ghost predicate InFlight<T>(k: Consumer<T>, q: nat) {
    Holds(k, q) || (k.CReleased? && k.h == q)
  }

  ghost predicate Held<T>(s: State<T>, q: nat) {
    q < |s.claims| && s.claims[q] < |s.consumers| && Holds(s.consumers[s.claims[q]], q)
  }

  /** A published position whose slot has not been released yet. */
  ghost predicate Busy<T>(s: State<T>, q: nat) {
    q >= s.head || Held(s, q)
  }

  /** What the storage of a busy position holds: the item, until its claimant
      has moved it out and then destroyed the husk. */
  ghost function BusyCell<T>(s: State<T>, q: nat): Cell<T>
    requires q < |s.published| && Busy(s, q)
  {
    if q >= s.head then Live(s.published[q])
    else match s.consumers[s.claims[q]]
      case CMoved(_, _) => Husk
      case CDestroyed(_, _) => Raw
      case _ => Live(s.published[q])
  }

  /** What the storage of the slot the producer is filling holds. */
  ghost function ProducerCell<T>(p: Producer<T>): Cell<T> {
    match p
    case PBuilding(_, _) => Building
    case PBuilt(_, item) => Live(item)
    case _ => Raw
  }

  /** The slot that position p, the next one to be published there, will use:
      either position p - C is still busy in it and the sequence is p - C + 1,
      or it is free and the sequence is p. */
  ghost predicate SlotOk<T>(s: State<T>, p: nat)
    requires Shape(s) && |s.published| <= p < |s.published| + s.capacity
  {
    var i := Slot(p, s.capacity);
    if p >= s.capacity && Busy(s, p - s.capacity) then
      s.sequence[i] == p - s.capacity + 1 && s.storage[i] == BusyCell(s, p - s.capacity)
    else
      s.sequence[i] == p && s.storage[i] == if p == |s.published| then ProducerCell(s.producer) else Raw
  }

  ghost predicate SlotsOk<T>(s: State<T>)
    requires Shape(s)
  {
    forall p :: |s.published| <= p < |s.published| + s.capacity ==> SlotOk(s, p)
  }

  // -------------------------------------------------------------- threads

  ghost predicate Counters<T>(s: State<T>) {
    && Shape(s)
    && s.capacity >= 2
    && |s.claims| == s.head
    && s.head <= |s.published| <= s.head + s.capacity
    && |s.published| == (if s.producer.PPublished? then s.tail + 1 else s.tail)
    && forall q :: 0 <= q < s.head ==> s.claims[q] < |s.consumers|
  }

  ghost predicate ProducerOk<T>(s: State<T>)
    requires Shape(s)
  {
    match s.producer
    case PIdle => true
    case PLoad(t, _, _) => t == s.tail
    case PWaiting(t, _, seen) => t == s.tail && seen + s.capacity == t + 1
    case PParked(t, _, seen) => t == s.tail && seen + s.capacity == t + 1
    case PPublished(t) => t == s.tail
    case PTailStored(t) => t + 1 == s.tail
    case PClear(t, _) => t == s.tail && s.sequence[Slot(t, s.capacity)] == t
    case PBuilding(t, _) => t == s.tail && s.sequence[Slot(t, s.capacity)] == t
    case PBuilt(t, _) => t == s.tail && s.sequence[Slot(t, s.capacity)] == t
  }

  /** The producer has stored h + 1 and not yet called notify_all. */
  ghost predicate NotifyAllPending<T>(s: State<T>, h: nat) {
    (s.producer.PPublished? || s.producer.PTailStored?) && s.producer.t == h
  }

  ghost predicate ConsumerOk<T>(s: State<T>, c: nat)
    requires c < |s.consumers|
  {
    var k := s.consumers[c];
    match k
    case CIdle => true
    case CScan(h, _) => h <= s.head
    case CRace(h, _) => h <= s.head && h < |s.published|
    case CStale(h, _) => h < s.head
    case CWaiting(h, seen) => h <= s.head && seen <= h < seen + s.capacity
    case CParked(h, seen) =>
      h <= s.head && seen <= h < seen + s.capacity && (h >= |s.published| || NotifyAllPending(s, h))
    case CClaimed(h) => Owns(s, c, h) && |s.published| <= h + s.capacity
    case CMoved(h, v) => Owns(s, c, h) && |s.published| <= h + s.capacity && v == s.published[h]
    case CDestroyed(h, v) => Owns(s, c, h) && |s.published| <= h + s.capacity && v == s.published[h]
    case CReleased(h, v) => Owns(s, c, h) && v == s.published[h]
  }

  ghost predicate Owns<T>(s: State<T>, c: nat, h: nat) {
    h < s.head && h < |s.claims| && h < |s.published| && s.claims[h] == c
  }

  ghost predicate ConsumersOk<T>(s: State<T>) {
    forall c :: 0 <= c < |s.consumers| ==> ConsumerOk(s, c)
  }

  // ----------------------------------------------------------------- logs

  /** The object of a claimed position still exists. */
  ghost predicate Undestroyed<T>(s: State<T>, q: nat) {
    q < |s.claims| && s.claims[q] < |s.consumers| &&
    var k := s.consumers[s.claims[q]]; (k.CClaimed? || k.CMoved?) && k.h == q
  }

  ghost predicate Undelivered<T>(s: State<T>, q: nat) {
    q < |s.claims| && s.claims[q] < |s.consumers| && InFlight(s.consumers[s.claims[q]], q)
  }

  /** Every claimed position's object is destroyed exactly once, by its claimant. */
  ghost predicate DestroyedOk<T>(s: State<T>) {
    && (forall i, j :: 0 <= i < j < |s.destroyed| ==> s.destroyed[i] != s.destroyed[j])
    && (forall q :: q in s.destroyed <==> 0 <= q < s.head && !Undestroyed(s, q))
  }

  ghost predicate ReceiptOk<T>(s: State<T>, r: Receipt<T>) {
    && Owns(s, r.consumer, r.position)
    && r.value == s.published[r.position]
    && !Undelivered(s, r.position)
  }

  /** Every claimed position is returned exactly once, to its claimant, with the item published there. */
  ghost predicate DeliveredOk<T>(s: State<T>) {
    && (forall i, j :: 0 <= i < j < |s.delivered| ==> s.delivered[i].position != s.delivered[j].position)
    && (forall i :: 0 <= i < |s.delivered| ==> ReceiptOk(s, s.delivered[i]))
    && (forall q :: 0 <= q < s.head && !Undelivered(s, q) ==>
          exists i :: 0 <= i < |s.delivered| && s.delivered[i].position == q)
  }

  ghost predicate Inv<T>(s: State<T>) {
    Counters(s) && SlotsOk(s) && ProducerOk(s) && ConsumersOk(s) && DestroyedOk(s) && DeliveredOk(s)
  }

  lemma InitInv<T>(capacity: nat, consumers: nat)
    requires capacity >= 2
    ensures Inv(Init<T>(capacity, consumers))
  {
    var s := Init<T>(capacity, consumers);
    forall p | 0 <= p < s.capacity ensures SlotOk(s, p) {
      assert Slot(p, s.capacity) == p;
    }
  }

  /** What the producer or a consumer finds in the slot of a position at or
      below the next one to be published. */
  lemma SequenceAt<T>(s: State<T>, h: nat)
    requires Counters(s) && SlotsOk(s)
    requires h <= |s.published|
    ensures var seen := s.sequence[Slot(h, s.capacity)];
            && (h == |s.published| && (h < s.capacity || !Busy(s, h - s.capacity)) ==> seen == h)
            && (h == |s.published| && h >= s.capacity && Busy(s, h - s.capacity) ==> seen == h - s.capacity + 1)
            && (h < |s.published| && |s.published| <= h + s.capacity && Busy(s, h) ==> seen == h + 1)
            && (h < |s.published| && (|s.published| <= h + s.capacity ==> !Busy(s, h)) ==> seen > h + 1)
  {
    var seen := s.sequence[Slot(h, s.capacity)];
    if h == |s.published| {
      assert SlotOk(s, h);
    } else {
      SequenceBehind(s, h, h);
    }
  }

  lemma {:induction false} SequenceBehind<T>(s: State<T>, h: nat, p: nat)
    requires Counters(s) && SlotsOk(s)
    requires h <= p < |s.published|
    requires Slot(p, s.capacity) == Slot(h, s.capacity)
    requires p > h ==> p >= h + s.capacity
    ensures var seen := s.sequence[Slot(h, s.capacity)];
            && (p == h && |s.published| <= h + s.capacity && Busy(s, h) ==> seen == h + 1)
            && ((|s.published| <= h + s.capacity ==> !Busy(s, h)) ==> seen > h + 1)
            && (p > h ==> seen > h + 1)
    decreases |s.published| - p
  {
    if p + s.capacity < |s.published| {
      SequenceBehind(s, h, p + s.capacity);
    } else {
      assert SlotOk(s, p + s.capacity);
    }
  }

  // --------------------------------------------------------- frame lemmas

  /** The logs stay right when no object is destroyed or returned and nobody claims. */
  lemma LogsFrame<T>(s: State<T>, s': State<T>)
    requires Counters(s) && DestroyedOk(s) && DeliveredOk(s)
    requires s'.head == s.head && s'.claims == s.claims && s'.delivered == s.delivered
    requires s'.destroyed == s.destroyed && s.published <= s'.published
    requires forall q :: 0 <= q < s.head ==> Undestroyed(s', q) == Undestroyed(s, q)
    requires forall q :: 0 <= q < s.head ==> Undelivered(s', q) == Undelivered(s, q)
    ensures DestroyedOk(s') && DeliveredOk(s')
  {
    forall i | 0 <= i < |s'.delivered| ensures ReceiptOk(s', s'.delivered[i]) {
      assert ReceiptOk(s, s.delivered[i]);
    }
  }

  /** Every consumer but c keeps its registers, and the logs only grow. */
  lemma OthersFrame<T>(s: State<T>, s': State<T>, c: nat)
    requires Counters(s) && ConsumersOk(s)
    requires s'.capacity == s.capacity && |s'.consumers| == |s.consumers|
    requires forall d :: 0 <= d < |s.consumers| && d != c ==> s'.consumers[d] == s.consumers[d]
    requires s'.head >= s.head && s.claims <= s'.claims && s.published == s'.published
    requires s'.producer == s.producer
    requires c < |s'.consumers| ==> ConsumerOk(s', c)
    ensures ConsumersOk(s')
  {
    forall d | 0 <= d < |s'.consumers| ensures ConsumerOk(s', d) {
      assert ConsumerOk(s, d);
    }
  }

  // --------------------------------------------------- consumer registers

  /** Consumer c moves between program points at which it holds no slot. */
  lemma RegistersKeepInv<T>(s: State<T>, c: nat, k: Consumer<T>)
    requires Inv(s) && c < |s.consumers|
    requires var o := s.consumers[c];
             !o.CClaimed? && !o.CMoved? && !o.CDestroyed? && !o.CReleased?
    requires !k.CClaimed? && !k.CMoved? && !k.CDestroyed? && !k.CReleased?
    requires ConsumerOk(s.(consumers := s.consumers[c := k]), c)
    ensures Inv(s.(consumers := s.consumers[c := k]))
  {
    var s' := s.(consumers := s.consumers[c := k]);
    assert forall q: nat :: Held(s', q) == Held(s, q);
    forall p | |s'.published| <= p < |s'.published| + s'.capacity ensures SlotOk(s', p) {
      assert SlotOk(s, p);
    }
    OthersFrame(s, s', c);
    LogsFrame(s, s');
  }

  lemma ConsumerLoadInv<T>(s: State<T>, c: nat)
    requires Inv(s) && Enabled(s, ConsumerLoad(c))
    ensures Inv(ConsumerStep(s, ConsumerLoad(c)))
  {
    assert ConsumerOk(s, c);
    SequenceAt(s, s.consumers[c].h);
    RegistersKeepInv(s, c, ConsumerStep(s, ConsumerLoad(c)).consumers[c]);
  }

  lemma ConsumerCompareInv<T>(s: State<T>, c: nat)
    requires Inv(s) && Enabled(s, ConsumerCompare(c))
    ensures Inv(ConsumerStep(s, ConsumerCompare(c)))
  {
    assert ConsumerOk(s, c);
    SequenceAt(s, s.consumers[c].h);
    RegistersKeepInv(s, c, ConsumerStep(s, ConsumerCompare(c)).consumers[c]);
  }

  lemma ConsumerRegisterInv<T>(s: State<T>, a: Action<T>)
    requires Inv(s) && Enabled(s, a)
    requires a.ConsumerCall? || a.CasFailure? || a.Reload? || a.ConsumerSpuriousWake?
    ensures Inv(ConsumerStep(s, a))
  {
    assert ConsumerOk(s, a.c);
    RegistersKeepInv(s, a.c, ConsumerStep(s, a).consumers[a.c]);
  }

  // --------------------------------------------------------- the producer

  /** Only the producer's registers, and possibly tail_, change. */
  lemma ProducerRegistersKeepInv<T>(s: State<T>, s': State<T>)
    requires Inv(s)
    requires s' == s.(producer := s'.producer, tail := s'.tail)
    requires Counters(s') && ProducerOk(s')
    requires ProducerCell(s.producer) == ProducerCell(s'.producer)
    requires forall h: nat :: NotifyAllPending(s, h) ==> NotifyAllPending(s', h)
    ensures Inv(s')
  {
    assert forall q: nat :: Held(s', q) == Held(s, q);
    forall p | |s'.published| <= p < |s'.published| + s'.capacity ensures SlotOk(s', p) {
      assert SlotOk(s, p);
    }
    forall d | 0 <= d < |s'.consumers| ensures ConsumerOk(s', d) {
      assert ConsumerOk(s, d);
    }
    LogsFrame(s, s');
  }

  lemma ProducerRegisterInv<T>(s: State<T>, a: Action<T>)
    requires Inv(s) && Enabled(s, a)
    requires a.ProducerCall? || a.ProducerLoad? || a.ProducerCompare? || a.ProducerSpuriousWake? || a.StoreTail?
    ensures Inv(ProducerStep(s, a))
  {
    SequenceAt(s, |s.published|);
    ProducerRegistersKeepInv(s, ProducerStep(s, a));
  }

  /** The slot under construction is free and no other position of the window uses it. */
  lemma BuildSlots<T>(s: State<T>, a: Action<T>)
    requires Inv(s) && Enabled(s, a)
    requires a.ConstructBegin? || a.ConstructEnd?
    ensures SlotsOk(ProducerStep(s, a))
    ensures s.storage[Slot(s.producer.t, s.capacity)] == if a.ConstructBegin? then Raw else Building
  {
    hide ConsumersOk, DestroyedOk, DeliveredOk;
    var s' := ProducerStep(s, a);
    var t := |s.published|;
    assert SlotOk(s, t);
    forall p | t < p < t + s.capacity ensures SlotOk(s', p) {
      BuildElsewhere(s, a, p);
    }
  }

  lemma BuildElsewhere<T>(s: State<T>, a: Action<T>, p: nat)
    requires Inv(s) && Enabled(s, a) && (a.ConstructBegin? || a.ConstructEnd?)
    requires |s.published| < p < |s.published| + s.capacity
    ensures SlotOk(ProducerStep(s, a), p)
  {
    hide ConsumersOk, DestroyedOk, DeliveredOk;
    assert SlotOk(s, p);
    assert p >= s.capacity ==> Held(ProducerStep(s, a), p - s.capacity) == Held(s, p - s.capacity);
    SlotInjective(|s.published|, p, s.capacity);
  }

  lemma BuildInv<T>(s: State<T>, a: Action<T>)
    requires Inv(s) && Enabled(s, a)
    requires a.ConstructBegin? || a.ConstructEnd?
    ensures Inv(ProducerStep(s, a))
  {
    var s' := ProducerStep(s, a);
    BuildSlots(s, a);
    forall d | 0 <= d < |s'.consumers| ensures ConsumerOk(s', d) {
      assert ConsumerOk(s, d);
    }
    LogsFrame(s, s');
  }

  /** Publication: position t becomes busy, and the window moves on by one. */
  lemma StoreSequenceSlots<T>(s: State<T>)
    requires Inv(s) && Enabled(s, StoreSequence)
    ensures SlotsOk(ProducerStep(s, StoreSequence))
    ensures |s.published| < s.head + s.capacity
    ensures !(|s.published| >= s.capacity && Busy(s, |s.published| - s.capacity))
  {
    hide ConsumersOk, DestroyedOk, DeliveredOk;
    var s' := ProducerStep(s, StoreSequence);
    var t := |s.published|;
    assert SlotOk(s, t);
    forall p | t + 1 <= p < t + 1 + s.capacity ensures SlotOk(s', p) {
      if p < t + s.capacity {
        assert SlotOk(s, p);
        SlotInjective(t, p, s.capacity);
      } else {
        assert Slot(p, s.capacity) == Slot(t, s.capacity);
      }
      assert p >= s.capacity ==> Held(s', p - s.capacity) == Held(s, p - s.capacity);
    }
  }

  lemma StoreSequenceInv<T>(s: State<T>)
    requires Inv(s) && Enabled(s, StoreSequence)
    ensures Inv(ProducerStep(s, StoreSequence))
  {
    var s' := ProducerStep(s, StoreSequence);
    StoreSequenceSlots(s);
    forall d | 0 <= d < |s'.consumers| ensures ConsumerOk(s', d) {
      assert ConsumerOk(s, d);
      assert forall q: nat ::
          q + s.capacity == |s.published| && Owns(s, d, q) && Holds(s.consumers[d], q) ==> Held(s, q);
    }
    LogsFrame(s, s');
  }

  lemma NotifyAllInv<T>(s: State<T>)
    requires Inv(s) && Enabled(s, NotifyAll)
    ensures Inv(ProducerStep(s, NotifyAll))
  {
    hide SlotsOk;
    var s' := ProducerStep(s, NotifyAll);
    assert forall q: nat :: Held(s', q) == Held(s, q);
    SameSlots(s, s');
    forall d | 0 <= d < |s'.consumers| ensures ConsumerOk(s', d) {
      assert ConsumerOk(s, d);
    }
    LogsFrame(s, s');
  }

  // ----------------------------------------------- claiming and releasing

  /** The CAS takes position head for consumer c; the slot stays busy. */
  lemma CasSuccessInv<T>(s: State<T>, c: nat)
    requires Inv(s) && Enabled(s, CasSuccess(c))
    ensures Inv(ConsumerStep(s, CasSuccess(c)))
  {
    var s' := ConsumerStep(s, CasSuccess(c));
    assert ConsumerOk(s, c);
    assert forall q: nat :: q != s.head ==> Held(s', q) == Held(s, q);
    forall p | |s.published| <= p < |s.published| + s.capacity ensures SlotOk(s', p) {
      assert SlotOk(s, p);
    }
    OthersFrame(s, s', c);
    CasSuccessLogs(s, c);
  }

  lemma CasSuccessLogs<T>(s: State<T>, c: nat)
    requires Inv(s) && Enabled(s, CasSuccess(c))
    ensures DestroyedOk(ConsumerStep(s, CasSuccess(c))) && DeliveredOk(ConsumerStep(s, CasSuccess(c)))
  {
    var s' := ConsumerStep(s, CasSuccess(c));
    assert ConsumerOk(s, c);
    assert Undestroyed(s', s.head) && Undelivered(s', s.head);
    assert forall q: nat :: q < s.head ==> Undestroyed(s', q) == Undestroyed(s, q);
    assert forall q: nat :: q < s.head ==> Undelivered(s', q) == Undelivered(s, q);
    forall i | 0 <= i < |s'.delivered| ensures ReceiptOk(s', s'.delivered[i]) {
      assert ReceiptOk(s, s.delivered[i]);
    }
  }

  /** The slot of a held position. */
  lemma HolderSlot<T>(s: State<T>, c: nat)
    requires Counters(s) && SlotsOk(s) && c < |s.consumers| && ConsumerOk(s, c)
    requires var k := s.consumers[c]; k.CClaimed? || k.CMoved? || k.CDestroyed?
    ensures var h, i := s.consumers[c].h, Slot(s.consumers[c].h, s.capacity);
            && Held(s, h) && h < |s.published| <= h + s.capacity
            && s.sequence[i] == h + 1 && s.storage[i] == BusyCell(s, h)
            && i == Slot(h + s.capacity, s.capacity)
  {
    assert SlotOk(s, s.consumers[c].h + s.capacity);
  }

  /** Consumer c changes only the slot it holds and its own registers. */
  ghost predicate OnlyHeldSlotChanges<T>(s: State<T>, s': State<T>, c: nat) {
    && Shape(s) && Shape(s') && s'.capacity == s.capacity && c < |s.consumers| == |s'.consumers|
    && s'.head == s.head && s'.published == s.published && s'.claims == s.claims && s'.producer == s.producer
    && (s.consumers[c].CClaimed? || s.consumers[c].CMoved? || s.consumers[c].CDestroyed?)
    && (forall d :: 0 <= d < |s.consumers| && d != c ==> s'.consumers[d] == s.consumers[d])
    && !s'.consumers[c].CIdle? && s'.consumers[c].h == s.consumers[c].h
    && (forall i :: 0 <= i < s.capacity && i != Slot(s.consumers[c].h, s.capacity) ==>
          s'.sequence[i] == s.sequence[i] && s'.storage[i] == s.storage[i])
  }

  lemma HolderSlotFrame<T>(s: State<T>, s': State<T>, c: nat, p: nat)
    requires Inv(s) && OnlyHeldSlotChanges(s, s', c)
    requires |s.published| <= p < |s.published| + s.capacity && p != s.consumers[c].h + s.capacity
    ensures SlotOk(s', p)
  {
    var h := s.consumers[c].h;
    assert ConsumerOk(s, c);
    assert SlotOk(s, p);
    if p < h + s.capacity {
      SlotInjective(p, h + s.capacity, s.capacity);
    } else {
      SlotInjective(h + s.capacity, p, s.capacity);
    }
    assert Slot(h + s.capacity, s.capacity) == Slot(h, s.capacity);
    if p >= s.capacity {
      assert Held(s', p - s.capacity) == Held(s, p - s.capacity);
    }
  }

  lemma HolderSlotsFrame<T>(s: State<T>, s': State<T>, c: nat)
    requires Inv(s) && OnlyHeldSlotChanges(s, s', c)
    requires |s.published| <= s.consumers[c].h + s.capacity < |s.published| + s.capacity ==>
               SlotOk(s', s.consumers[c].h + s.capacity)
    ensures SlotsOk(s')
  {
    forall p | |s.published| <= p < |s.published| + s.capacity && p != s.consumers[c].h + s.capacity
      ensures SlotOk(s', p)
    {
      HolderSlotFrame(s, s', c, p);
    }
  }

  /** The claimant finds its item live in the slot. */
  lemma MoveOutInv<T>(s: State<T>, c: nat)
    requires Inv(s) && Enabled(s, MoveOut(c))
    ensures Inv(ConsumerStep(s, MoveOut(c)))
    ensures var h := s.consumers[c].h;
            h < |s.published| && s.storage[Slot(h, s.capacity)] == Live(s.published[h])
  {
    var s' := ConsumerStep(s, MoveOut(c));
    assert ConsumerOk(s, c);
    HolderSlot(s, c);
    HolderSlotsFrame(s, s', c);
    OthersFrame(s, s', c);
    LogsFrame(s, s');
  }

  lemma DestroyInv<T>(s: State<T>, c: nat)
    requires Inv(s) && Enabled(s, Destroy(c))
    ensures Inv(ConsumerStep(s, Destroy(c)))
    ensures s.storage[Slot(s.consumers[c].h, s.capacity)] == Husk
    ensures s.consumers[c].h !in s.destroyed
  {
    var s' := ConsumerStep(s, Destroy(c));
    assert ConsumerOk(s, c);
    HolderSlot(s, c);
    HolderSlotsFrame(s, s', c);
    OthersFrame(s, s', c);
    DestroyLogs(s, c);
  }

  lemma DestroyLogs<T>(s: State<T>, c: nat)
    requires Inv(s) && Enabled(s, Destroy(c))
    ensures DestroyedOk(ConsumerStep(s, Destroy(c))) && DeliveredOk(ConsumerStep(s, Destroy(c)))
    ensures s.consumers[c].h !in s.destroyed
  {
    var s' := ConsumerStep(s, Destroy(c));
    var h := s.consumers[c].h;
    assert ConsumerOk(s, c);
    assert Undestroyed(s, h);
    assert forall q: nat :: q != h ==> Undestroyed(s', q) == Undestroyed(s, q);
    LogsFrame(s, s'.(consumers := s.consumers, destroyed := s.destroyed));
    forall i | 0 <= i < |s'.delivered| ensures ReceiptOk(s', s'.delivered[i]) {
      assert ReceiptOk(s, s.delivered[i]);
    }
    assert forall q: nat :: Undelivered(s', q) == Undelivered(s, q);
  }

  lemma ReleaseInv<T>(s: State<T>, c: nat)
    requires Inv(s) && Enabled(s, Release(c))
    ensures Inv(ConsumerStep(s, Release(c)))
  {
    hide SlotsOk;
    var s' := ConsumerStep(s, Release(c));
    assert ConsumerOk(s, c);
    ReleaseSlots(s, c);
    OthersFrame(s, s', c);
    LogsFrame(s, s');
    ReleaseProducer(s, c);
  }

  lemma ReleaseSlots<T>(s: State<T>, c: nat)
    requires Inv(s) && Enabled(s, Release(c))
    ensures SlotsOk(ConsumerStep(s, Release(c)))
  {
    hide DestroyedOk, DeliveredOk;
    assert ConsumerOk(s, c);
    HolderSlot(s, c);
    HolderSlotsFrame(s, ConsumerStep(s, Release(c)), c);
  }

  /** The producer is not filling the slot that is being released. */
  lemma ReleaseProducer<T>(s: State<T>, c: nat)
    requires Inv(s) && Enabled(s, Release(c))
    ensures ProducerOk(ConsumerStep(s, Release(c)))
  {
    assert ConsumerOk(s, c);
    HolderSlot(s, c);
    assert SlotOk(s, |s.published|);
    var h := s.consumers[c].h;
    if |s.published| != h + s.capacity {
      SlotInjective(|s.published|, h + s.capacity, s.capacity);
    }
  }

  /** Since the release of h its slot has shown h + C or more. */
  lemma ReleasedSequence<T>(s: State<T>, c: nat)
    requires Inv(s) && c < |s.consumers| && s.consumers[c].CReleased?
    ensures s.sequence[Slot(s.consumers[c].h, s.capacity)] >= s.consumers[c].h + s.capacity
  {
    var h := s.consumers[c].h;
    assert ConsumerOk(s, c);
    assert !Busy(s, h);
    assert Slot(h + s.capacity, s.capacity) == Slot(h, s.capacity);
    if h + s.capacity <= |s.published| {
      SequenceAt(s, h + s.capacity);
    } else {
      assert SlotOk(s, h + s.capacity);
    }
  }

  lemma NotifyOneInv<T>(s: State<T>, c: nat, target: Waiter)
    requires Inv(s) && Enabled(s, NotifyOne(c, target))
    ensures Inv(ConsumerStep(s, NotifyOne(c, target)))
  {
    NotifyOneSlots(s, c, target);
    NotifyOneConsumers(s, c, target);
    NotifyOneLogs(s, c, target);
  }

  lemma NotifyOneSlots<T>(s: State<T>, c: nat, target: Waiter)
    requires Inv(s) && Enabled(s, NotifyOne(c, target))
    ensures SlotsOk(ConsumerStep(s, NotifyOne(c, target)))
  {
    hide ProducerOk, ConsumersOk, DestroyedOk, DeliveredOk;
    var s' := ConsumerStep(s, NotifyOne(c, target));
    forall q: nat ensures Held(s', q) == Held(s, q) {
    }
    SameSlots(s, s');
  }

  /** Slots, counters and holders untouched: the slots stay right. */
  lemma SameSlots<T>(s: State<T>, s': State<T>)
    requires Counters(s) && SlotsOk(s)
    requires s'.capacity == s.capacity && s'.sequence == s.sequence && s'.storage == s.storage
    requires s'.published == s.published && s'.head == s.head && s'.claims == s.claims
    requires |s'.consumers| == |s.consumers|
    requires forall q: nat :: Held(s', q) == Held(s, q)
    requires forall q: nat :: Held(s, q) ==> s'.consumers[s.claims[q]] == s.consumers[s.claims[q]]
    requires ProducerCell(s'.producer) == ProducerCell(s.producer)
    ensures SlotsOk(s')
  {
    forall p | |s.published| <= p < |s.published| + s.capacity ensures SlotOk(s', p) {
      assert SlotOk(s, p);
    }
  }

  lemma NotifyOneConsumers<T>(s: State<T>, c: nat, target: Waiter)
    requires Inv(s) && Enabled(s, NotifyOne(c, target))
    ensures ConsumersOk(ConsumerStep(s, NotifyOne(c, target)))
  {
    var s' := ConsumerStep(s, NotifyOne(c, target));
    forall d | 0 <= d < |s'.consumers| ensures ConsumerOk(s', d) {
      assert ConsumerOk(s, d);
    }
  }

  lemma NotifyOneLogs<T>(s: State<T>, c: nat, target: Waiter)
    requires Inv(s) && Enabled(s, NotifyOne(c, target))
    ensures DestroyedOk(ConsumerStep(s, NotifyOne(c, target)))
    ensures DeliveredOk(ConsumerStep(s, NotifyOne(c, target)))
  {
    var s' := ConsumerStep(s, NotifyOne(c, target));
    var h := s.consumers[c].h;
    assert ConsumerOk(s, c);
    assert forall q: nat :: Undestroyed(s', q) == Undestroyed(s, q);
    assert Undelivered(s, h) && !Undelivered(s', h);
    assert forall q: nat :: q != h ==> Undelivered(s', q) == Undelivered(s, q);
    DeliveryLogged(s, s', Receipt(h, c, s.consumers[c].value));
  }

  /** The item of an in-flight position is returned and logged. */
  lemma DeliveryLogged<T>(s: State<T>, s': State<T>, r: Receipt<T>)
    requires Counters(s) && DeliveredOk(s)
    requires s'.delivered == s.delivered + [r] && s'.published == s.published
    requires s'.head == s.head && s'.claims == s.claims
    requires Owns(s, r.consumer, r.position) && r.value == s.published[r.position]
    requires Undelivered(s, r.position) && !Undelivered(s', r.position)
    requires forall q: nat :: q != r.position ==> Undelivered(s', q) == Undelivered(s, q)
    ensures DeliveredOk(s')
  {
    var before, after := s.delivered, s'.delivered;
    forall i | 0 <= i < |before| ensures ReceiptOk(s', after[i]) && before[i].position != r.position {
      assert ReceiptOk(s, before[i]);
    }
    forall q | 0 <= q < s'.head && !Undelivered(s', q)
      ensures exists i :: 0 <= i < |after| && after[i].position == q
    {
      if q == r.position {
        assert after[|before|].position == q;
      } else {
        var i :| 0 <= i < |before| && before[i].position == q;
        assert after[i].position == q;
      }
    }
  }

  // -------------------------------------------------------- every action

  lemma ApplyInv<T>(s: State<T>, a: Action<T>)
    requires Inv(s)
    ensures Inv(Apply(s, a))
  {
    if Enabled(s, a) {
      hide Inv;
      match a
      case ConstructBegin => BuildInv(s, a);
      case ConstructEnd => BuildInv(s, a);
      case StoreSequence => StoreSequenceInv(s);
      case NotifyAll => NotifyAllInv(s);
      case ConsumerLoad(c) => ConsumerLoadInv(s, c);
      case ConsumerCompare(c) => ConsumerCompareInv(s, c);
      case CasSuccess(c) => CasSuccessInv(s, c);
      case MoveOut(c) => MoveOutInv(s, c);
      case Destroy(c) => DestroyInv(s, c);
      case Release(c) => ReleaseInv(s, c);
      case NotifyOne(c, target) => NotifyOneInv(s, c, target);
      case _ =>
        if OfProducer(a) { ProducerRegisterInv(s, a); } else { ConsumerRegisterInv(s, a); }
    }
  }

  /** Every reachable state, for any capacity, number of consumers and interleaving. */
  lemma {:induction false} RunInv<T>(s: State<T>, acts: seq<Action<T>>)
    requires Inv(s)
    ensures Inv(Run(s, acts))
  {
    if acts == [] {
    } else {
      RunInv(s, acts[..|acts| - 1]);
      ApplyInv(Run(s, acts[..|acts| - 1]), acts[|acts| - 1]);
    }
  }
}
