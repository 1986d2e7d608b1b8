/** SPMCQueue as a transition system: one action per atomic load, store or CAS,
    with construction, move-out and destruction of the payload as separate steps.
    Actions interleave sequentially consistently; only the loads of head_ marked
    relaxed may return an older value. */
module SpmcModel {
  import opened Ring

  /** What a slot's raw storage holds. */
  datatype Cell<+T> =
    | Raw               // no object
    | Building          // placement-new in progress
    | Live(value: T)
    | Husk              // moved from, destructor still to run

  /** The producer's program counter and registers; t is the value of tail_ it read. */
  datatype Producer<+T> =
    | PIdle
    | PLoad(t: nat, item: T, blocking: bool)       // about to load the slot's sequence
    | PWaiting(t: nat, item: T, seen: nat)         // in sequence.wait(seen), about to compare
    | PParked(t: nat, item: T, seen: nat)          // in sequence.wait(seen), suspended
    | PClear(t: nat, item: T)                      // saw sequence == t
    | PBuilding(t: nat, item: T)
    | PBuilt(t: nat, item: T)
    | PPublished(t: nat)                           // stored t + 1 in the sequence
    | PTailStored(t: nat)                          // about to notify_all

  /** A consumer's program counter and registers; h is its copy of head_. */
  datatype Consumer<+T> =
    | CIdle
    | CScan(h: nat, blocking: bool)                // about to load the slot's sequence
    | CRace(h: nat, blocking: bool)                // saw h + 1, about to CAS head_
    | CStale(h: nat, blocking: bool)               // saw more than h + 1, about to reload head_
    | CWaiting(h: nat, seen: nat)
    | CParked(h: nat, seen: nat)
    | CClaimed(h: nat)                             // CAS succeeded
    | CMoved(h: nat, value: T)                     // payload moved out
    | CDestroyed(h: nat, value: T)                 // husk destroyed
    | CReleased(h: nat, value: T)                  // sequence stored, about to notify_one

  /** An item handed to the caller of a pop. */
  datatype Receipt<+T> = Receipt(position: nat, consumer: nat, value: T)

  /** published, claims, delivered and destroyed are logs: the items in the order
      of their sequence stores, the consumer whose CAS took each position, the
      items returned to callers, and the positions whose destructor has run. */
  datatype State<+T> = State(
    capacity: nat,
    head: nat,
    tail: nat,
    sequence: seq<nat>,
    storage: seq<Cell<T>>,
    producer: Producer<T>,
    consumers: seq<Consumer<T>>,
    published: seq<T>,
    claims: seq<nat>,
    delivered: seq<Receipt<T>>,
    destroyed: seq<nat>)

  /** Whom a notify_one wakes. */
  datatype Waiter = Nobody | TheProducer | TheConsumer(c: nat)

  datatype Action<+T> =
    | ProducerCall(item: T, blocking: bool)
    | ProducerLoad
    | ProducerCompare
    | ProducerSpuriousWake
    | ConstructBegin
    | ConstructEnd
    | StoreSequence
    | StoreTail
    | NotifyAll
    | ConsumerCall(c: nat, h: nat, blocking: bool)   // relaxed load of head_ returned h
    | ConsumerLoad(c: nat)
    | CasSuccess(c: nat)
    | CasFailure(c: nat, h: nat)                     // the CAS read h: lost, or spurious
    | Reload(c: nat, h: nat)
    | ConsumerCompare(c: nat)
    | ConsumerSpuriousWake(c: nat)
    | MoveOut(c: nat)
    | Destroy(c: nat)
    | Release(c: nat)
    | NotifyOne(c: nat, target: Waiter)

  predicate Shape<T>(s: State<T>) {
    s.capacity > 0 && |s.sequence| == s.capacity && |s.storage| == s.capacity
  }

  function Init<T>(capacity: nat, consumers: nat): State<T> {
    State(capacity, 0, 0, seq(capacity, i => i), seq(capacity, i => Raw), PIdle,
          seq(consumers, i => CIdle), [], [], [], [])
  }

  predicate ParkedOn<T>(k: Consumer<T>, slot: nat, capacity: nat)
    requires capacity > 0
  {
    k.CParked? && Slot(k.h, capacity) == slot
  }

  predicate ProducerParkedOn<T>(p: Producer<T>, slot: nat, capacity: nat)
    requires capacity > 0
  {
    p.PParked? && Slot(p.t, capacity) == slot
  }

  /** Whom the notify_one after the release of position h may wake. It must
      unblock a thread that blocked on a value older than some store preceding the
      notify, if there is one. A sleeper that saw a value older than h + C is
      certainly one, and a sleeper that saw the present value, having gone to
      sleep since, is not. Of those in between, which saw h + C or more, either may
      be the case: such a sleeper may be woken, but need not. */
  predicate MayWake<T>(s: State<T>, h: nat, target: Waiter)
    requires Shape(s)
  {
    var slot := Slot(h, s.capacity);
    match target
    case Nobody =>
      && !(ProducerParkedOn(s.producer, slot, s.capacity) && s.producer.seen < h + s.capacity)
      && forall d :: 0 <= d < |s.consumers| && ParkedOn(s.consumers[d], slot, s.capacity) ==>
           s.consumers[d].seen >= h + s.capacity
    case TheProducer =>
      ProducerParkedOn(s.producer, slot, s.capacity) && s.producer.seen != s.sequence[slot]
    case TheConsumer(d) =>
      && d < |s.consumers| && ParkedOn(s.consumers[d], slot, s.capacity)
      && s.consumers[d].seen != s.sequence[slot]
  }

  /** A compare that finds the value changed returns from wait, and the caller
      loads the sequence again; otherwise it suspends. */
  function Woken<T>(k: Consumer<T>): Consumer<T> {
    if k.CParked? then CWaiting(k.h, k.seen) else k
  }

  function ProducerWoken<T>(p: Producer<T>): Producer<T> {
    if p.PParked? then PWaiting(p.t, p.item, p.seen) else p
  }

  function WakeAll<T>(consumers: seq<Consumer<T>>, slot: nat, capacity: nat): (r: seq<Consumer<T>>)
    requires capacity > 0
    ensures |r| == |consumers|
    ensures forall d :: 0 <= d < |r| ==>
              r[d] == if ParkedOn(consumers[d], slot, capacity) then Woken(consumers[d]) else consumers[d]
  {
    seq(|consumers|, d requires 0 <= d < |consumers| =>
      if ParkedOn(consumers[d], slot, capacity) then Woken(consumers[d]) else consumers[d])
  }

  /** Whether a thread is at the program point the action belongs to. Storage is
      deliberately not consulted: that no step misuses it is a theorem. */
  predicate Enabled<T>(s: State<T>, a: Action<T>) {
    && Shape(s)
    && match a
       case ProducerCall(_, _) => s.producer.PIdle?
       case ProducerLoad => s.producer.PLoad?
       case ProducerCompare => s.producer.PWaiting?
       case ProducerSpuriousWake => s.producer.PParked?
       case ConstructBegin => s.producer.PClear?
       case ConstructEnd => s.producer.PBuilding?
       case StoreSequence => s.producer.PBuilt?
       case StoreTail => s.producer.PPublished?
       case NotifyAll => s.producer.PTailStored?
       case ConsumerCall(c, h, _) => c < |s.consumers| && s.consumers[c].CIdle? && h <= s.head
       case ConsumerLoad(c) => c < |s.consumers| && s.consumers[c].CScan?
       case CasSuccess(c) => c < |s.consumers| && s.consumers[c].CRace? && s.head == s.consumers[c].h
       case CasFailure(c, h) => c < |s.consumers| && s.consumers[c].CRace? && s.consumers[c].h <= h <= s.head
       case Reload(c, h) => c < |s.consumers| && s.consumers[c].CStale? && s.consumers[c].h < h <= s.head
       case ConsumerCompare(c) => c < |s.consumers| && s.consumers[c].CWaiting?
       case ConsumerSpuriousWake(c) => c < |s.consumers| && s.consumers[c].CParked?
       case MoveOut(c) => c < |s.consumers| && s.consumers[c].CClaimed?
       case Destroy(c) => c < |s.consumers| && s.consumers[c].CMoved?
       case Release(c) => c < |s.consumers| && s.consumers[c].CDestroyed?
       case NotifyOne(c, target) =>
         c < |s.consumers| && s.consumers[c].CReleased? && MayWake(s, s.consumers[c].h, target)
  }

  function ProducerStep<T>(s: State<T>, a: Action<T>): State<T>
    requires Enabled(s, a)
  {
    var p := s.producer;
    match a
    case ProducerCall(item, blocking) => s.(producer := PLoad(s.tail, item, blocking))
    case ProducerLoad =>
      var seen := s.sequence[Slot(p.t, s.capacity)];
      s.(producer := if seen == p.t then PClear(p.t, p.item)
                     else if p.blocking then PWaiting(p.t, p.item, seen)
                     else PIdle)
    case ProducerCompare =>
      s.(producer := if s.sequence[Slot(p.t, s.capacity)] == p.seen then PParked(p.t, p.item, p.seen)
                     else PLoad(p.t, p.item, true))
    case ProducerSpuriousWake => s.(producer := ProducerWoken(p))
    case ConstructBegin =>
      s.(producer := PBuilding(p.t, p.item), storage := s.storage[Slot(p.t, s.capacity) := Building])
    case ConstructEnd =>
      s.(producer := PBuilt(p.t, p.item), storage := s.storage[Slot(p.t, s.capacity) := Live(p.item)])
    case StoreSequence =>
      s.(producer := PPublished(p.t),
         sequence := s.sequence[Slot(p.t, s.capacity) := p.t + 1],
         published := s.published + [p.item])
    case StoreTail => s.(producer := PTailStored(p.t), tail := p.t + 1)
    case NotifyAll =>
      s.(producer := PIdle, consumers := WakeAll(s.consumers, Slot(p.t, s.capacity), s.capacity))
    case _ => s
  }

  function ConsumerStep<T>(s: State<T>, a: Action<T>): State<T>
    requires Enabled(s, a)
  {
    match a
    case ConsumerCall(c, h, blocking) => s.(consumers := s.consumers[c := CScan(h, blocking)])
    case ConsumerLoad(c) =>
      var k := s.consumers[c];
      var seen := s.sequence[Slot(k.h, s.capacity)];
      s.(consumers := s.consumers[c :=
        if seen == k.h + 1 then CRace(k.h, k.blocking)
        else if seen > k.h + 1 then CStale(k.h, k.blocking)
        else if k.blocking then CWaiting(k.h, seen)
        else CIdle])
    case CasSuccess(c) =>
      s.(consumers := s.consumers[c := CClaimed(s.consumers[c].h)], head := s.head + 1, claims := s.claims + [c])
    case CasFailure(c, h) => s.(consumers := s.consumers[c := CScan(h, s.consumers[c].blocking)])
    case Reload(c, h) => s.(consumers := s.consumers[c := CScan(h, s.consumers[c].blocking)])
    case ConsumerCompare(c) =>
      var k := s.consumers[c];
      s.(consumers := s.consumers[c :=
        if s.sequence[Slot(k.h, s.capacity)] == k.seen then CParked(k.h, k.seen) else CScan(k.h, true)])
    case ConsumerSpuriousWake(c) => s.(consumers := s.consumers[c := Woken(s.consumers[c])])
    case MoveOut(c) =>
      var h := s.consumers[c].h;
      var i := Slot(h, s.capacity);
      if s.storage[i].Live? then
        s.(consumers := s.consumers[c := CMoved(h, s.storage[i].value)], storage := s.storage[i := Husk])
      else s
    case Destroy(c) =>
      var k := s.consumers[c];
      s.(consumers := s.consumers[c := CDestroyed(k.h, k.value)],
         storage := s.storage[Slot(k.h, s.capacity) := Raw],
         destroyed := s.destroyed + [k.h])
    case Release(c) =>
      var k := s.consumers[c];
      s.(consumers := s.consumers[c := CReleased(k.h, k.value)],
         sequence := s.sequence[Slot(k.h, s.capacity) := k.h + s.capacity])
    case NotifyOne(c, target) =>
      var k := s.consumers[c];
      var woken := s.consumers[c := CIdle];
      s.(consumers := if target.TheConsumer?
                      then woken[target.c := Woken(s.consumers[target.c])] else woken,
         producer := if target.TheProducer? then ProducerWoken(s.producer) else s.producer,
         delivered := s.delivered + [Receipt(k.h, c, k.value)])
    case _ => s
  }

  predicate OfProducer<T>(a: Action<T>) {
    || a.ProducerCall? || a.ProducerLoad? || a.ProducerCompare? || a.ProducerSpuriousWake? || a.ConstructBegin?
    || a.ConstructEnd? || a.StoreSequence? || a.StoreTail? || a.NotifyAll?
  }

  /** One action; an action no thread is ready for changes nothing, so that every
      sequence of actions is a run and every run is a sequence of actions. */
  function Apply<T>(s: State<T>, a: Action<T>): State<T> {
    if !Enabled(s, a) then s
    else if OfProducer(a) then ProducerStep(s, a)
    else ConsumerStep(s, a)
  }

  function Run<T>(s: State<T>, acts: seq<Action<T>>): State<T> {
    if acts == [] then s else Apply(Run(s, acts[..|acts| - 1]), acts[|acts| - 1])
  }
}
