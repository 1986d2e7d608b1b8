/** ThreadPool as a monitor: the mutex, the condition variable with its notify
    calls outside the mutex, the workers' loop, enqueue by clients and by running
    tasks, and the destructor, which takes no mutex. No client enqueues once the
    destructor has begun, as the lifetime of the object demands. */
module PoolModel {
  import opened Ring

  datatype Thread = Worker(w: nat) | Client(c: nat)

  /** A worker's program counter; k is the place of its task in the started log. */
  datatype WorkerPc<+T> =
    | WLock                       // about to take the mutex, at the top or inside wait
    | WCheck                      // holds it, about to evaluate the predicate
    | WFalse                      // predicate was false: about to release and sleep
    | WTrue                       // predicate was true: about to return or pop
    | WParked
    | WRun(k: nat)                // runs its task, without the mutex
    | WPush(k: nat, task: T)      // its task enqueues another: wants the mutex
    | WPushing(k: nat, task: T)   // holds it
    | WNotify(k: nat)             // released it, about to notify_one
    | WExited

  datatype ClientPc<+T> = EIdle | EPush(task: T) | EPushing(task: T) | ENotify

  datatype Destructor = DIdle | DStopping(i: nat) | DNotify | DDone

  /** pushed, started and ran are logs: the tasks in the order of enqueueing, in
      the order of popping, and the places in started whose task has run; pushers
      says which thread enqueued each, runners which worker popped each. */
  datatype State<+T> = State(
    tasks: seq<T>,
    owner: Option<Thread>,
    workers: seq<WorkerPc<T>>,
    clients: seq<ClientPc<T>>,
    stops: seq<bool>,
    destructor: Destructor,
    pushed: seq<T>,
    pushers: seq<Thread>,
    started: seq<T>,
    runners: seq<nat>,
    ran: seq<nat>)

  datatype Target = Nobody | Wakes(w: nat)

  datatype Action<+T> =
    | ClientCall(c: nat, task: T)
    | ClientLock(c: nat)
    | ClientPush(c: nat)
    | ClientNotify(c: nat, target: Target)
    | WorkerLock(w: nat)
    | Evaluate(w: nat)
    | Sleep(w: nat)
    | SpuriousWake(w: nat)
    | Take(w: nat)
    | NestedCall(w: nat, task: T)
    | NestedLock(w: nat)
    | NestedPush(w: nat)
    | NestedNotify(w: nat, target: Target)
    | Finish(w: nat)
    | DestroyBegin
    | RequestStop
    | NotifyAll

  function Init<T>(threads: nat, clients: nat): State<T> {
    var n := if threads == 0 then 1 else threads;
    State([], None, seq(n, i => WLock), seq(clients, i => EIdle), seq(n, i => false), DIdle, [], [], [], [], [])
  }

  predicate IsWorker<T>(s: State<T>, w: nat) {
    w < |s.workers| && w < |s.stops|
  }

  /** notify_one wakes some sleeping worker if there is one. */
  predicate MayWake<T>(s: State<T>, target: Target) {
    match target
    case Nobody => forall w :: 0 <= w < |s.workers| ==> !s.workers[w].WParked?
    case Wakes(w) => w < |s.workers| && s.workers[w].WParked?
  }

  predicate Enabled<T>(s: State<T>, a: Action<T>) {
    match a
    case ClientCall(c, _) => c < |s.clients| && s.clients[c].EIdle? && s.destructor == DIdle
    case ClientLock(c) => c < |s.clients| && s.clients[c].EPush? && s.owner == None
    case ClientPush(c) => c < |s.clients| && s.clients[c].EPushing?
    case ClientNotify(c, target) => c < |s.clients| && s.clients[c].ENotify? && MayWake(s, target)
    case WorkerLock(w) => IsWorker(s, w) && s.workers[w].WLock? && s.owner == None
    case Evaluate(w) => IsWorker(s, w) && s.workers[w].WCheck?
    case Sleep(w) => IsWorker(s, w) && s.workers[w].WFalse?
    case SpuriousWake(w) => IsWorker(s, w) && s.workers[w].WParked?
    case Take(w) => IsWorker(s, w) && s.workers[w].WTrue?
    case NestedCall(w, _) => IsWorker(s, w) && s.workers[w].WRun?
    case NestedLock(w) => IsWorker(s, w) && s.workers[w].WPush? && s.owner == None
    case NestedPush(w) => IsWorker(s, w) && s.workers[w].WPushing?
    case NestedNotify(w, target) => IsWorker(s, w) && s.workers[w].WNotify? && MayWake(s, target)
    case Finish(w) => IsWorker(s, w) && s.workers[w].WRun?
    case DestroyBegin =>
      s.destructor == DIdle && forall c :: 0 <= c < |s.clients| ==> s.clients[c].EIdle?
    case RequestStop => s.destructor.DStopping? && s.destructor.i < |s.stops|
    case NotifyAll => s.destructor == DNotify
  }

  function Woken<T>(workers: seq<WorkerPc<T>>, target: Target): seq<WorkerPc<T>>
    requires target.Wakes? ==> target.w < |workers|
  {
    if target.Wakes? then workers[target.w := WLock] else workers
  }

  function AllWoken<T>(workers: seq<WorkerPc<T>>): (r: seq<WorkerPc<T>>)
    ensures |r| == |workers|
    ensures forall w :: 0 <= w < |r| ==> r[w] == if workers[w].WParked? then WLock else workers[w]
  {
    seq(|workers|, w requires 0 <= w < |workers| => if workers[w].WParked? then WLock else workers[w])
  }

  predicate OfWorker<T>(a: Action<T>) {
    || a.WorkerLock? || a.Evaluate? || a.Sleep? || a.SpuriousWake? || a.Take? || a.NestedCall? || a.NestedLock?
    || a.NestedPush? || a.NestedNotify? || a.Finish?
  }

  function WorkerStep<T>(s: State<T>, a: Action<T>): State<T>
    requires Enabled(s, a)
  {
    match a
    case WorkerLock(w) => s.(workers := s.workers[w := WCheck], owner := Some(Worker(w)))
    case Evaluate(w) => s.(workers := s.workers[w := if s.stops[w] || s.tasks != [] then WTrue else WFalse])
    case Sleep(w) => s.(workers := s.workers[w := WParked], owner := None)
    case SpuriousWake(w) => s.(workers := s.workers[w := WLock])
    case Take(w) =>
      if s.stops[w] && s.tasks == [] then s.(workers := s.workers[w := WExited], owner := None)
      else if s.tasks == [] then s
      else s.(workers := s.workers[w := WRun(|s.started|)], owner := None, tasks := s.tasks[1..],
              started := s.started + [s.tasks[0]], runners := s.runners + [w])
    case NestedCall(w, task) => s.(workers := s.workers[w := WPush(s.workers[w].k, task)])
    case NestedLock(w) =>
      s.(workers := s.workers[w := WPushing(s.workers[w].k, s.workers[w].task)], owner := Some(Worker(w)))
    case NestedPush(w) =>
      s.(workers := s.workers[w := WNotify(s.workers[w].k)], owner := None,
         tasks := s.tasks + [s.workers[w].task],
         pushed := s.pushed + [s.workers[w].task], pushers := s.pushers + [Worker(w)])
    case NestedNotify(w, target) =>
      s.(workers := Woken(s.workers, target)[w := WRun(s.workers[w].k)])
    case Finish(w) => s.(workers := s.workers[w := WLock], ran := s.ran + [s.workers[w].k])
    case _ => s
  }

  function OtherStep<T>(s: State<T>, a: Action<T>): State<T>
    requires Enabled(s, a)
  {
    match a
    case ClientCall(c, task) => s.(clients := s.clients[c := EPush(task)])
    case ClientLock(c) => s.(clients := s.clients[c := EPushing(s.clients[c].task)], owner := Some(Client(c)))
    case ClientPush(c) =>
      s.(clients := s.clients[c := ENotify], owner := None,
         tasks := s.tasks + [s.clients[c].task],
         pushed := s.pushed + [s.clients[c].task], pushers := s.pushers + [Client(c)])
    case ClientNotify(c, target) => s.(clients := s.clients[c := EIdle], workers := Woken(s.workers, target))
    case DestroyBegin => s.(destructor := DStopping(0))
    case RequestStop =>
      s.(stops := s.stops[s.destructor.i := true],
         destructor := if s.destructor.i + 1 < |s.stops| then DStopping(s.destructor.i + 1) else DNotify)
    case NotifyAll => s.(workers := AllWoken(s.workers), destructor := DDone)
    case _ => s
  }

  function Apply<T>(s: State<T>, a: Action<T>): State<T> {
    if !Enabled(s, a) then s
    else if OfWorker(a) then WorkerStep(s, a)
    else OtherStep(s, a)
  }

  function Run<T>(s: State<T>, acts: seq<Action<T>>): State<T> {
    if acts == [] then s else Apply(Run(s, acts[..|acts| - 1]), acts[|acts| - 1])
  }
}
