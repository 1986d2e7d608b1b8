/** SPSCQueue: one producer, one consumer, masked indices; one slot always stays
    unused. Loads, stores and the element assignment are separate steps. */
module Spsc {
  import opened Ring

  datatype Cell<+T> = Vacant | Assigning | Holds(value: T)

  datatype Producer<+T> =
    | PIdle
    | PLoadHead(t: nat, item: T)                // loaded tail, about to load head
    | PAssign(t: nat, item: T)
    | PAssigning(t: nat, item: T)
    | PAssigned(t: nat, item: T)                // about to store tail

  datatype Consumer<+T> =
    | CIdle
    | CLoadTail(h: nat)                         // loaded head, about to load tail
    | CTake(h: nat)
    | CTaken(h: nat, value: T)                  // about to store head

  /** pushed logs the items in the order of their tail stores, popped counts the
      head stores, returned logs what try_pop handed out. */
  datatype State<+T> = State(
    capacity: nat,
    head: nat,
    tail: nat,
    buffer: seq<Cell<T>>,
    producer: Producer<T>,
    consumer: Consumer<T>,
    pushed: seq<T>,
    popped: nat,
    returned: seq<T>)

  datatype Action<+T> =
    | EmplaceCall(item: T)
    | LoadHead
    | AssignBegin
    | AssignEnd
    | StoreTail
    | PopCall
    | LoadTail
    | MoveOut
    | StoreHead

  function Init<T>(capacity: nat): State<T> {
    State(capacity, 0, 0, seq(capacity, i => Vacant), PIdle, CIdle, [], 0, [])
  }

  /** (i + 1) & capacity_mask */
  function Bump(i: nat, capacity: nat): (r: nat)
    requires capacity > 0
    ensures r < capacity
  {
    Slot(i + 1, capacity)
  }

  predicate Shape<T>(s: State<T>) {
    s.capacity > 0 && |s.buffer| == s.capacity
  }

  predicate Enabled<T>(s: State<T>, a: Action<T>) {
    && Shape(s)
    && match a
       case EmplaceCall(_) => s.producer.PIdle?
       case LoadHead => s.producer.PLoadHead?
       case AssignBegin => s.producer.PAssign? && s.producer.t < s.capacity
       case AssignEnd => s.producer.PAssigning? && s.producer.t < s.capacity
       case StoreTail => s.producer.PAssigned?
       case PopCall => s.consumer.CIdle?
       case LoadTail => s.consumer.CLoadTail?
       case MoveOut => s.consumer.CTake? && s.consumer.h < s.capacity
       case StoreHead => s.consumer.CTaken?
  }

  function Apply<T>(s: State<T>, a: Action<T>): State<T> {
    if !Enabled(s, a) then s
    else
      var p, k := s.producer, s.consumer;
      match a
      case EmplaceCall(item) => s.(producer := PLoadHead(s.tail, item))
      case LoadHead =>
        s.(producer := if Bump(p.t, s.capacity) == s.head then PIdle else PAssign(p.t, p.item))
      case AssignBegin => s.(producer := PAssigning(p.t, p.item), buffer := s.buffer[p.t := Assigning])
      case AssignEnd => s.(producer := PAssigned(p.t, p.item), buffer := s.buffer[p.t := Holds(p.item)])
      case StoreTail =>
        s.(producer := PIdle, tail := Bump(p.t, s.capacity), pushed := s.pushed + [p.item])
      case PopCall => s.(consumer := CLoadTail(s.head))
      case LoadTail => s.(consumer := if k.h == s.tail then CIdle else CTake(k.h))
      case MoveOut =>
        if s.buffer[k.h].Holds? then
          s.(consumer := CTaken(k.h, s.buffer[k.h].value), buffer := s.buffer[k.h := Vacant])
        else s
      case StoreHead =>
        s.(consumer := CIdle, head := Bump(k.h, s.capacity), popped := s.popped + 1, returned := s.returned + [k.value])
  }

  function Run<T>(s: State<T>, acts: seq<Action<T>>): State<T> {
    if acts == [] then s else Apply(Run(s, acts[..|acts| - 1]), acts[|acts| - 1])
  }

  // ------------------------------------------------------------- invariant

  ghost predicate CountersOk<T>(s: State<T>) {
    && Shape(s)
    && s.popped <= |s.pushed| < s.popped + s.capacity
    && s.head == Slot(s.popped, s.capacity) && s.tail == Slot(|s.pushed|, s.capacity)
    && s.returned == s.pushed[..s.popped]
  }

  ghost predicate ProducerOk<T>(s: State<T>) {
    match s.producer
    case PIdle => true
    case PLoadHead(t, _) => t == s.tail
    case PAssign(t, _) => t == s.tail && |s.pushed| + 1 < s.popped + s.capacity
    case PAssigning(t, _) => t == s.tail && |s.pushed| + 1 < s.popped + s.capacity
    case PAssigned(t, _) => t == s.tail && |s.pushed| + 1 < s.popped + s.capacity
  }

  ghost predicate ConsumerOk<T>(s: State<T>) {
    match s.consumer
    case CIdle => true
    case CLoadTail(h) => h == s.head
    case CTake(h) => h == s.head && s.popped < |s.pushed|
    case CTaken(h, v) => h == s.head && s.popped < |s.pushed| && v == s.pushed[s.popped]
  }

  ghost predicate BufferOk<T>(s: State<T>)
    requires Shape(s)
  {
    && (forall q :: s.popped <= q < |s.pushed| && !(q == s.popped && s.consumer.CTaken?) ==>
          s.buffer[Slot(q, s.capacity)] == Holds(s.pushed[q]))
    && (s.producer.PAssigning? ==> s.buffer[Slot(|s.pushed|, s.capacity)] == Assigning)
    && (s.producer.PAssigned? ==> s.buffer[Slot(|s.pushed|, s.capacity)] == Holds(s.producer.item))
  }

  ghost predicate Inv<T>(s: State<T>) {
    CountersOk(s) && ProducerOk(s) && ConsumerOk(s) && BufferOk(s)
  }

  lemma {:induction false} SlotOfSlot(p: nat, c: nat)
    requires c > 0
    ensures Slot(Slot(p, c), c) == Slot(p, c) && Slot(Slot(p, c) + 1, c) == Slot(p + 1, c)
  {
    if p < c {
    } else {
      SlotOfSlot(p - c, c);
    }
  }

  /** The masked full test compares the counts: full means exactly C - 1 items. */
  lemma FullTestIsExact<T>(s: State<T>)
    requires Inv(s) && s.producer.PLoadHead?
    ensures Bump(s.producer.t, s.capacity) == s.head <==> |s.pushed| - s.popped == s.capacity - 1
  {
    SlotOfSlot(|s.pushed|, s.capacity);
    if |s.pushed| + 1 < s.popped + s.capacity {
      SlotInjective(s.popped, |s.pushed| + 1, s.capacity);
    } else {
      assert Slot(s.popped + s.capacity, s.capacity) == Slot(s.popped, s.capacity);
    }
  }

  lemma EmptyTestIsExact<T>(s: State<T>)
    requires Inv(s) && s.consumer.CLoadTail?
    ensures s.consumer.h == s.tail <==> s.popped == |s.pushed|
  {
    if s.popped < |s.pushed| {
      SlotInjective(s.popped, |s.pushed|, s.capacity);
    }
  }

  lemma ProducerInv<T>(s: State<T>, a: Action<T>)
    requires Inv(s) && Enabled(s, a)
    requires a.EmplaceCall? || a.LoadHead? || a.AssignBegin? || a.AssignEnd? || a.StoreTail?
    ensures Inv(Apply(s, a))
  {
    SlotOfSlot(|s.pushed|, s.capacity);
    if a.LoadHead? {
      FullTestIsExact(s);
    } else if a.AssignBegin? || a.AssignEnd? {
      forall q | s.popped <= q < |s.pushed| ensures Slot(q, s.capacity) != Slot(|s.pushed|, s.capacity) {
        SlotInjective(q, |s.pushed|, s.capacity);
      }
    }
  }

  lemma ConsumerInv<T>(s: State<T>, a: Action<T>)
    requires Inv(s) && Enabled(s, a) && (a.PopCall? || a.LoadTail? || a.MoveOut? || a.StoreHead?)
    ensures Inv(Apply(s, a))
  {
    SlotOfSlot(s.popped, s.capacity);
    if a.LoadTail? {
      EmptyTestIsExact(s);
    }
    if a.MoveOut? {
      forall q | s.popped < q <= |s.pushed| ensures Slot(q, s.capacity) != Slot(s.popped, s.capacity) {
        SlotInjective(s.popped, q, s.capacity);
      }
    } else if a.StoreHead? {
      assert s.pushed[..s.popped + 1] == s.pushed[..s.popped] + [s.pushed[s.popped]];
    }
  }

  lemma {:induction false} RunInv<T>(s: State<T>, acts: seq<Action<T>>)
    requires Inv(s)
    ensures Inv(Run(s, acts))
  {
    if acts != [] {
      var before, a := acts[..|acts| - 1], acts[|acts| - 1];
      RunInv(s, before);
      var r := Run(s, before);
      if Enabled(r, a) {
        if a.PopCall? || a.LoadTail? || a.MoveOut? || a.StoreHead? {
          ConsumerInv(r, a);
        } else {
          ProducerInv(r, a);
        }
      }
    }
  }

  // --------------------------------------------------------------- theorems

  /** The two-thread interleaving is a FIFO of at most C - 1 items: what try_pop
      returned is the first `popped` of the items pushed, in order. */
  lemma IsBoundedFifo<T>(capacity: nat, acts: seq<Action<T>>)
    requires capacity > 0
    ensures var s := Run(Init<T>(capacity), acts);
            && s.popped <= |s.pushed| && |s.pushed| - s.popped < s.capacity
            && s.returned == s.pushed[..s.popped]
  {
    RunInv(Init<T>(capacity), acts);
  }

  /** try_emplace is refused exactly when C - 1 items are queued at its load of
      head; try_pop finds nothing exactly when none is at its load of tail. */
  lemma AnswersAreExact<T>(capacity: nat, acts: seq<Action<T>>)
    requires capacity > 0
    ensures var s := Run(Init<T>(capacity), acts);
            && (s.producer.PLoadHead? && Shape(s) ==>
                  (Apply(s, LoadHead).producer == PIdle <==> |s.pushed| - s.popped == s.capacity - 1))
            && (s.consumer.CLoadTail? && Shape(s) ==>
                  (Apply(s, LoadTail).consumer == CIdle <==> s.popped == |s.pushed|))
  {
    RunInv(Init<T>(capacity), acts);
    var s := Run(Init<T>(capacity), acts);
    if s.producer.PLoadHead? { FullTestIsExact(s); }
    if s.consumer.CLoadTail? { EmptyTestIsExact(s); }
  }

  /** The producer assigns and the consumer moves out in different slots, and the
      consumer finds there the oldest item not yet popped. */
  lemma AccessesAreDisjoint<T>(capacity: nat, acts: seq<Action<T>>)
    requires capacity > 0
    requires Run(Init<T>(capacity), acts).consumer.CTake?
    ensures var s := Run(Init<T>(capacity), acts);
            && s.consumer.h < |s.buffer| && s.popped < |s.pushed|
            && s.buffer[s.consumer.h] == Holds(s.pushed[s.popped])
            && (s.producer.PAssign? || s.producer.PAssigning? || s.producer.PAssigned? ==> s.producer.t != s.consumer.h)
  {
    RunInv(Init<T>(capacity), acts);
    var s := Run(Init<T>(capacity), acts);
    WindowInjective(s.popped, s.capacity);
  }
}
