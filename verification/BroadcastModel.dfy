/** SPMCBroadcastQueue as a transition system: the scan loads one cursor at a
    time, and assignment to a slot and the callback reading it take time. */
module BroadcastModel {
  import opened Ring

  datatype Cell<+T> = Holds(value: T) | Assigning

  /** try_publish. t is the tail_ it loaded; i cursors have been scanned and min
      is the least of them. */
  datatype Producer<+T> =
    | PIdle
    | PScan(t: nat, item: T, i: nat, min: nat)
    | PAssign(t: nat, item: T)                    // gate passed
    | PAssigning(t: nat, item: T)
    | PAssigned(t: nat, item: T)                  // about to store tail_

  /** try_consume. */
  datatype Reader<+T> =
    | CIdle
    | CLoaded(pos: nat)                           // about to load tail_
    | CReading(pos: nat)                          // the callback is running
    | CRead(pos: nat, value: T)                   // about to store the cursor

  /** published logs the items in the order of their tail_ stores, seen the items
      each consumer's callbacks were given. */
  datatype State<+T> = State(
    capacity: nat,
    tail: nat,
    cachedMin: nat,
    slots: seq<Cell<T>>,
    cursors: seq<nat>,
    producer: Producer<T>,
    readers: seq<Reader<T>>,
    published: seq<T>,
    seen: seq<seq<T>>)

  datatype Action<+T> =
    | PublishCall(item: T)       // load tail_, test against cached_min_
    | ScanCursor
    | AssignBegin
    | AssignEnd
    | StoreTail
    | ConsumeCall(c: nat)        // load the cursor
    | LoadTail(c: nat)
    | CallbackEnd(c: nat)
    | StoreCursor(c: nat)

  function Init<T>(capacity: nat, consumers: nat, default: T): State<T> {
    State(capacity, 0, 0, seq(capacity, i => Holds(default)), seq(consumers, i => 0), PIdle,
          seq(consumers, i => CIdle), [], seq(consumers, i => []))
  }

  predicate Shape<T>(s: State<T>) {
    && s.capacity > 0 && |s.slots| == s.capacity
    && |s.cursors| == |s.readers| == |s.seen|
  }

  predicate Enabled<T>(s: State<T>, a: Action<T>) {
    && Shape(s)
    && match a
       case PublishCall(_) => s.producer.PIdle?
       case ScanCursor => s.producer.PScan? && s.producer.i < |s.cursors|
       case AssignBegin => s.producer.PAssign?
       case AssignEnd => s.producer.PAssigning?
       case StoreTail => s.producer.PAssigned?
       case ConsumeCall(c) => c < |s.readers| && s.readers[c].CIdle?
       case LoadTail(c) => c < |s.readers| && s.readers[c].CLoaded?
       case CallbackEnd(c) => c < |s.readers| && s.readers[c].CReading?
       case StoreCursor(c) => c < |s.readers| && s.readers[c].CRead?
  }

  predicate OfProducer<T>(a: Action<T>) {
    a.PublishCall? || a.ScanCursor? || a.AssignBegin? || a.AssignEnd? || a.StoreTail?
  }

  function ProducerStep<T>(s: State<T>, a: Action<T>): State<T>
    requires Enabled(s, a)
  {
    var p := s.producer;
    match a
    case PublishCall(item) =>
      s.(producer := if s.tail - s.cachedMin >= s.capacity then PScan(s.tail, item, 0, 0) else PAssign(s.tail, item))
    case ScanCursor =>
      var c := s.cursors[p.i];
      var min := if p.i == 0 || c < p.min then c else p.min;
      if p.i + 1 < |s.cursors| then s.(producer := PScan(p.t, p.item, p.i + 1, min))
      else s.(cachedMin := min, producer := if p.t - min >= s.capacity then PIdle else PAssign(p.t, p.item))
    case AssignBegin =>
      s.(producer := PAssigning(p.t, p.item), slots := s.slots[Slot(p.t, s.capacity) := Assigning])
    case AssignEnd =>
      s.(producer := PAssigned(p.t, p.item), slots := s.slots[Slot(p.t, s.capacity) := Holds(p.item)])
    case StoreTail => s.(producer := PIdle, tail := p.t + 1, published := s.published + [p.item])
    case _ => s
  }

  function ReaderStep<T>(s: State<T>, a: Action<T>): State<T>
    requires Enabled(s, a)
  {
    match a
    case ConsumeCall(c) => s.(readers := s.readers[c := CLoaded(s.cursors[c])])
    case LoadTail(c) =>
      var pos := s.readers[c].pos;
      s.(readers := s.readers[c := if pos >= s.tail then CIdle else CReading(pos)])
    case CallbackEnd(c) =>
      var pos := s.readers[c].pos;
      var cell := s.slots[Slot(pos, s.capacity)];
      if cell.Holds? then s.(readers := s.readers[c := CRead(pos, cell.value)]) else s
    case StoreCursor(c) =>
      var r := s.readers[c];
      s.(readers := s.readers[c := CIdle], cursors := s.cursors[c := r.pos + 1],
         seen := s.seen[c := s.seen[c] + [r.value]])
    case _ => s
  }

  function Apply<T>(s: State<T>, a: Action<T>): State<T> {
    if !Enabled(s, a) then s
    else if OfProducer(a) then ProducerStep(s, a)
    else ReaderStep(s, a)
  }

  function Run<T>(s: State<T>, acts: seq<Action<T>>): State<T> {
    if acts == [] then s else Apply(Run(s, acts[..|acts| - 1]), acts[|acts| - 1])
  }
}
