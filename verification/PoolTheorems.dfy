/** The invariant of ThreadPool, and what it means. */
module PoolTheorems {
  import opened Ring
  import opened PoolModel

  // ------------------------------------------------------------- invariant

  predicate HoldsMutex<T>(p: WorkerPc<T>) {
    p.WCheck? || p.WFalse? || p.WTrue? || p.WPushing?
  }

  /** A worker that will look at the queue again by itself. */
  predicate Awake<T>(p: WorkerPc<T>) {
    !p.WParked? && !p.WExited?
  }

  predicate Running<T>(p: WorkerPc<T>, k: nat) {
    (p.WRun? || p.WPush? || p.WPushing? || p.WNotify?) && p.k == k
  }

  ghost predicate MutexOk<T>(s: State<T>) {
    && (forall w :: 0 <= w < |s.workers| ==> (HoldsMutex(s.workers[w]) <==> s.owner == Some(Worker(w))))
    && (forall c :: 0 <= c < |s.clients| ==> (s.clients[c].EPushing? <==> s.owner == Some(Client(c))))
  }

  ghost predicate WorkerOk<T>(s: State<T>, w: nat)
    requires IsWorker(s, w)
  {
    match s.workers[w]
    case WFalse => s.tasks == []
    case WTrue => s.stops[w] || s.tasks != []
    case WExited => s.stops[w]
    case WRun(k) => k < |s.started| && k < |s.runners| && s.runners[k] == w
    case WPush(k, _) => k < |s.started| && k < |s.runners| && s.runners[k] == w
    case WPushing(k, _) => k < |s.started| && k < |s.runners| && s.runners[k] == w
    case WNotify(k) => k < |s.started| && k < |s.runners| && s.runners[k] == w
    case _ => true
  }

  ghost predicate WorkersOk<T>(s: State<T>) {
    && |s.workers| == |s.stops| && |s.workers| >= 1
    && forall w :: 0 <= w < |s.workers| ==> WorkerOk(s, w)
  }

  ghost predicate DestructorOk<T>(s: State<T>) {
    && (s.destructor == DIdle ==> forall w :: 0 <= w < |s.stops| ==> !s.stops[w])
    && (s.destructor != DIdle ==> forall c :: 0 <= c < |s.clients| ==> s.clients[c].EIdle?)
    && (s.destructor.DStopping? ==> s.destructor.i < |s.stops| && forall w :: 0 <= w < s.destructor.i ==> s.stops[w])
    && (s.destructor.DNotify? || s.destructor.DDone? ==> forall w :: 0 <= w < |s.stops| ==> s.stops[w])
  }

  predicate InProgress<T>(s: State<T>, k: nat) {
    k < |s.runners| && s.runners[k] < |s.workers| && Running(s.workers[s.runners[k]], k)
  }

  /** Tasks leave the queue in the order they entered it, and each one popped is
      either being run by the worker that popped it or has run, once. */
  ghost predicate TasksOk<T>(s: State<T>) {
    && s.pushed == s.started + s.tasks && |s.pushers| == |s.pushed|
    && |s.runners| == |s.started|
    && (forall k :: 0 <= k < |s.runners| ==> s.runners[k] < |s.workers|)
    && (forall i, j :: 0 <= i < j < |s.ran| ==> s.ran[i] != s.ran[j])
    && (forall k :: k in s.ran <==> 0 <= k < |s.started| && !InProgress(s, k))
  }

  ghost predicate SomeoneAwake<T>(s: State<T>) {
    exists w :: 0 <= w < |s.workers| && Awake(s.workers[w])
  }

  ghost predicate NotifyPending<T>(s: State<T>) {
    exists c :: 0 <= c < |s.clients| && s.clients[c].ENotify?
  }

  ghost predicate SomeoneLeft<T>(s: State<T>) {
    exists w :: 0 <= w < |s.workers| && !s.workers[w].WExited?
  }

  /** No lost wakeup: a task in the queue has a worker awake or a notify on its way. */
  ghost predicate WakeOk<T>(s: State<T>) {
    s.tasks != [] ==> SomeoneLeft(s) && (SomeoneAwake(s) || NotifyPending(s))
  }

  ghost predicate Inv<T>(s: State<T>) {
    MutexOk(s) && WorkersOk(s) && DestructorOk(s) && TasksOk(s) && WakeOk(s)
  }

  lemma InitInv<T>(threads: nat, clients: nat)
    ensures Inv(Init<T>(threads, clients))
  {
  }

  // ------------------------------------------------------- steps, by concern

  lemma MutexStep<T>(s: State<T>, a: Action<T>)
    requires Inv(s) && Enabled(s, a)
    ensures MutexOk(Apply(s, a))
  {
    hide TasksOk, WakeOk, DestructorOk, WorkersOk;
  }

  lemma WorkersStep<T>(s: State<T>, a: Action<T>)
    requires Inv(s) && Enabled(s, a)
    ensures WorkersOk(Apply(s, a))
  {
    hide WakeOk, DestructorOk, TasksOk, MutexOk;
    assert |Apply(s, a).workers| == |Apply(s, a).stops| == |s.workers|;
    forall w | 0 <= w < |s.workers| ensures WorkerOk(Apply(s, a), w) {
      if OfWorker(a) {
        OneWorkerStep(s, a, w);
      } else {
        OneOtherStep(s, a, w);
      }
    }
  }

  /** A worker's view of the queue is protected by the mutex it holds. */
  lemma OneWorkerStep<T>(s: State<T>, a: Action<T>, w: nat)
    requires Inv(s) && Enabled(s, a) && OfWorker(a) && IsWorker(s, w)
    ensures IsWorker(Apply(s, a), w) && WorkerOk(Apply(s, a), w)
  {
    hide WakeOk, DestructorOk;
    assert WorkerOk(s, w) && WorkerOk(s, a.w);
  }

  lemma OneOtherStep<T>(s: State<T>, a: Action<T>, w: nat)
    requires Inv(s) && Enabled(s, a) && !OfWorker(a) && IsWorker(s, w)
    ensures IsWorker(Apply(s, a), w) && WorkerOk(Apply(s, a), w)
  {
    hide WakeOk, DestructorOk;
    assert WorkerOk(s, w);
  }

  lemma DestructorStep<T>(s: State<T>, a: Action<T>)
    requires Inv(s) && Enabled(s, a)
    ensures DestructorOk(Apply(s, a))
  {
    hide TasksOk, WakeOk, MutexOk;
  }

  lemma TakeTasks<T>(s: State<T>, w: nat)
    requires Inv(s) && Enabled(s, Take(w))
    ensures TasksOk(Apply(s, Take(w)))
  {
    hide WakeOk, DestructorOk, MutexOk;
    var s' := Apply(s, Take(w));
    assert WorkerOk(s, w);
    assert forall k: nat :: k < |s.started| ==> InProgress(s', k) == InProgress(s, k);
    if s.tasks != [] {
      assert s.tasks == [s.tasks[0]] + s.tasks[1..];
    }
  }

  lemma FinishTasks<T>(s: State<T>, w: nat)
    requires Inv(s) && Enabled(s, Finish(w))
    ensures TasksOk(Apply(s, Finish(w)))
  {
    hide WakeOk, DestructorOk, MutexOk;
    var s' := Apply(s, Finish(w));
    assert WorkerOk(s, w);
    var k0 := s.workers[w].k;
    assert InProgress(s, k0) && !InProgress(s', k0);
    assert forall k: nat :: k != k0 ==> InProgress(s', k) == InProgress(s, k);
  }

  lemma OtherTasks<T>(s: State<T>, a: Action<T>)
    requires Inv(s) && Enabled(s, a) && !a.Take? && !a.Finish?
    ensures TasksOk(Apply(s, a))
  {
    hide WakeOk, DestructorOk, MutexOk, WorkersOk;
    var s' := Apply(s, a);
    assert forall k: nat :: InProgress(s', k) == InProgress(s, k);
  }

  /** Pushing leaves a notify pending or the pusher awake; a notify_one wakes a
      sleeper, or finds every worker that is left awake; and nobody goes to sleep
      or leaves while a task waits. */
  lemma WakeStep<T>(s: State<T>, a: Action<T>)
    requires Inv(s) && Enabled(s, a)
    ensures WakeOk(Apply(s, a))
  {
    hide TasksOk;
    var s' := Apply(s, a);
    if s'.tasks != [] {
      if OfWorker(a) {
        WorkerWakeStep(s, a);
      } else {
        OtherWakeStep(s, a);
      }
    }
  }

  lemma WorkerWakeStep<T>(s: State<T>, a: Action<T>)
    requires Inv(s) && Enabled(s, a) && OfWorker(a) && Apply(s, a).tasks != []
    ensures WakeOk(Apply(s, a))
  {
    hide TasksOk, DestructorOk, MutexOk;
    var s' := Apply(s, a);
    assert WorkerOk(s, a.w);
    assert !a.Sleep? && (a.Take? ==> s'.workers[a.w].WRun?);
    assert Awake(s'.workers[a.w]);
  }

  lemma OtherWakeStep<T>(s: State<T>, a: Action<T>)
    requires Inv(s) && Enabled(s, a) && !OfWorker(a) && Apply(s, a).tasks != []
    ensures WakeOk(Apply(s, a))
  {
    hide TasksOk, MutexOk;
    var s' := Apply(s, a);
    if a.ClientPush? {
      assert s'.clients[a.c].ENotify?;
      assert s.destructor == DIdle;
      assert WorkerOk(s, 0) && !s'.workers[0].WExited?;
    } else {
      var w :| 0 <= w < |s.workers| && !s.workers[w].WExited?;
      assert !s'.workers[w].WExited?;
      if a.ClientNotify? {
        if a.target.Wakes? {
          assert Awake(s'.workers[a.target.w]);
        } else {
          assert Awake(s'.workers[w]);
        }
      } else if a.NotifyAll? {
        assert Awake(s'.workers[w]);
      } else {
        KeepsWake(s, s', a);
      }
    }
  }

  lemma KeepsWake<T>(s: State<T>, s': State<T>, a: Action<T>)
    requires Enabled(s, a) && (a.ClientCall? || a.ClientLock? || a.DestroyBegin? || a.RequestStop?)
    requires s' == Apply(s, a) && (SomeoneAwake(s) || NotifyPending(s))
    ensures SomeoneAwake(s') || NotifyPending(s')
  {
    if SomeoneAwake(s) {
      var w :| 0 <= w < |s.workers| && Awake(s.workers[w]);
      assert Awake(s'.workers[w]);
    } else {
      var c :| 0 <= c < |s.clients| && s.clients[c].ENotify?;
      assert s'.clients[c].ENotify?;
    }
  }

  lemma ApplyInv<T>(s: State<T>, a: Action<T>)
    requires Inv(s)
    ensures Inv(Apply(s, a))
  {
    hide MutexOk, WorkersOk, DestructorOk, TasksOk, WakeOk;
    if Enabled(s, a) {
      MutexStep(s, a);
      WorkersStep(s, a);
      DestructorStep(s, a);
      WakeStep(s, a);
      if a.Take? {
        TakeTasks(s, a.w);
      } else if a.Finish? {
        FinishTasks(s, a.w);
      } else {
        OtherTasks(s, a);
      }
    }
  }

  lemma {:induction false} RunInv<T>(s: State<T>, acts: seq<Action<T>>)
    requires Inv(s)
    ensures Inv(Run(s, acts))
  {
    if acts == [] {
    } else {
      RunInv(s, acts[..|acts| - 1]);
      ApplyInv(Run(s, acts[..|acts| - 1]), acts[|acts| - 1]);
    }
  }

  lemma Reachable<T>(threads: nat, clients: nat, acts: seq<Action<T>>)
    ensures Inv(Run(Init<T>(threads, clients), acts))
  {
    InitInv<T>(threads, clients);
    RunInv(Init<T>(threads, clients), acts);
  }

  // --------------------------------------------------------------- theorems

  /** Tasks are popped in the order they were enqueued, each popped task is run
      once, and when no task is in progress every popped one has run. */
  lemma RunsEachTaskOnceInOrder<T>(threads: nat, clients: nat, acts: seq<Action<T>>)
    ensures var s := Run(Init<T>(threads, clients), acts);
            && s.started <= s.pushed && s.pushed == s.started + s.tasks
            && (forall i, j :: 0 <= i < j < |s.ran| ==> s.ran[i] != s.ran[j])
            && (forall k :: k in s.ran <==> 0 <= k < |s.started| && !InProgress(s, k))
  {
    Reachable<T>(threads, clients, acts);
  }

  // ------------------------------------------------ who enqueues what

  lemma {:induction false} RunKeepsThreads<T>(threads: nat, clients: nat, acts: seq<Action<T>>)
    ensures var s := Run(Init<T>(threads, clients), acts);
            |s.workers| == |s.stops| == (if threads == 0 then 1 else threads) && |s.clients| == clients
  {
    if acts == [] {
    } else {
      hide Init;
      RunKeepsThreads<T>(threads, clients, acts[..|acts| - 1]);
      StepKeepsThreads(Run(Init<T>(threads, clients), acts[..|acts| - 1]), acts[|acts| - 1]);
    }
  }

  lemma StepKeepsThreads<T>(s: State<T>, a: Action<T>)
    ensures var s' := Apply(s, a);
            |s'.workers| == |s.workers| && |s'.stops| == |s.stops| && |s'.clients| == |s.clients|
  {
  }

  /** The task that thread t hands to enqueue in this step. */
  function Hands<T>(s: State<T>, a: Action<T>, t: Thread): seq<T> {
    if !Enabled(s, a) then []
    else if a.ClientCall? && t == Client(a.c) then [a.task]
    else if a.NestedCall? && t == Worker(a.w) then [a.task]
    else []
  }

  /** All the tasks it hands to enqueue in a run, in order. */
  function Handed<T>(s: State<T>, acts: seq<Action<T>>, t: Thread): seq<T> {
    if acts == [] then []
    else
      var before := acts[..|acts| - 1];
      Handed(s, before, t) + Hands(Run(s, before), acts[|acts| - 1], t)
  }

  /** All the tasks that entered the queue from it, in order. */
  function Entered<T>(pushed: seq<T>, pushers: seq<Thread>, t: Thread): seq<T>
    requires |pushed| == |pushers|
  {
    if pushed == [] then []
    else
      var n := |pushed| - 1;
      Entered(pushed[..n], pushers[..n], t) + (if pushers[n] == t then [pushed[n]] else [])
  }

  /** The task of a call that has not pushed it yet. */
  function InHand<T>(s: State<T>, t: Thread): seq<T> {
    match t
    case Worker(w) =>
      if w < |s.workers| && (s.workers[w].WPush? || s.workers[w].WPushing?) then [s.workers[w].task] else []
    case Client(c) =>
      if c < |s.clients| && (s.clients[c].EPush? || s.clients[c].EPushing?) then [s.clients[c].task] else []
  }

  lemma EnteredOneMore<T>(pushed: seq<T>, pushers: seq<Thread>, x: T, u: Thread, t: Thread)
    requires |pushed| == |pushers|
    ensures Entered(pushed + [x], pushers + [u], t) == Entered(pushed, pushers, t) + (if u == t then [x] else [])
  {
    var n := |pushed|;
    assert (pushed + [x])[..n] == pushed && (pushers + [u])[..n] == pushers;
  }

  lemma HandStep<T>(s: State<T>, a: Action<T>, t: Thread)
    requires Inv(s)
    ensures var s' := Apply(s, a);
            && |s'.pushed| == |s'.pushers|
            && Entered(s.pushed, s.pushers, t) + InHand(s, t) + Hands(s, a, t)
               == Entered(s'.pushed, s'.pushers, t) + InHand(s', t)
  {
    hide Entered, MutexOk, WorkersOk, WakeOk, DestructorOk, Apply;
    if Enabled(s, a) && a.ClientPush? {
      PushStep(s, a, t);
      EnteredOneMore(s.pushed, s.pushers, s.clients[a.c].task, Client(a.c), t);
    } else if Enabled(s, a) && a.NestedPush? {
      PushStep(s, a, t);
      EnteredOneMore(s.pushed, s.pushers, s.workers[a.w].task, Worker(a.w), t);
    } else {
      NoPushStep(s, a, t);
      assert Entered(s.pushed, s.pushers, t) + InHand(s, t) + Hands(s, a, t)
          == Entered(s.pushed, s.pushers, t) + (InHand(s, t) + Hands(s, a, t));
    }
  }

  /** A push takes the task out of the thread's hand into the queue. */
  lemma PushStep<T>(s: State<T>, a: Action<T>, t: Thread)
    requires Enabled(s, a) && (a.ClientPush? || a.NestedPush?)
    ensures var u := if a.ClientPush? then Client(a.c) else Worker(a.w);
            var x := if a.ClientPush? then s.clients[a.c].task else s.workers[a.w].task;
            && Apply(s, a).pushed == s.pushed + [x] && Apply(s, a).pushers == s.pushers + [u]
            && Hands(s, a, t) == [] && InHand(s, t) == InHand(Apply(s, a), t) + (if u == t then [x] else [])
            && (u == t ==> InHand(Apply(s, a), t) == [])
  {
  }

  lemma NoPushStep<T>(s: State<T>, a: Action<T>, t: Thread)
    requires !(Enabled(s, a) && (a.ClientPush? || a.NestedPush?))
    ensures Apply(s, a).pushed == s.pushed && Apply(s, a).pushers == s.pushers
    ensures InHand(s, t) + Hands(s, a, t) == InHand(Apply(s, a), t)
  {
  }

  /** Whatever a client or a running task hands to enqueue is what enters the
      queue from it, once and in order, but for the call still in progress. */
  lemma {:induction false} EnqueueIsFaithful<T>(threads: nat, clients: nat, acts: seq<Action<T>>, t: Thread)
    ensures var s := Run(Init<T>(threads, clients), acts);
            && |s.pushed| == |s.pushers|
            && Handed(Init<T>(threads, clients), acts, t) == Entered(s.pushed, s.pushers, t) + InHand(s, t)
  {
    if acts == [] {
    } else {
      hide Inv, Apply, Enabled, Entered, InHand, Hands, Init;
      var before := acts[..|acts| - 1];
      EnqueueIsFaithful<T>(threads, clients, before, t);
      Reachable<T>(threads, clients, before);
      HandStep(Run(Init<T>(threads, clients), before), acts[|acts| - 1], t);
    }
  }

  /** The thread is at a point of its code where it holds the mutex. */
  predicate Holding<T>(s: State<T>, t: Thread) {
    match t
    case Worker(w) => w < |s.workers| && HoldsMutex(s.workers[w])
    case Client(c) => c < |s.clients| && s.clients[c].EPushing?
  }

  /** The mutex admits one thread at a time, worker or client, and a worker that
      pops while it holds the mutex finds a task. */
  lemma MutexAndPopAreSafe<T>(threads: nat, clients: nat, acts: seq<Action<T>>, t: Thread, u: Thread)
    requires Holding(Run(Init<T>(threads, clients), acts), t) && Holding(Run(Init<T>(threads, clients), acts), u)
    ensures t == u && Run(Init<T>(threads, clients), acts).owner == Some(t)
    ensures var s := Run(Init<T>(threads, clients), acts);
            t.Worker? && Enabled(s, Take(t.w)) && Apply(s, Take(t.w)).workers[t.w] != WExited ==>
              s.tasks != [] && Apply(s, Take(t.w)).started == s.started + [s.tasks[0]]
  {
    Reachable<T>(threads, clients, acts);
    var s := Run(Init<T>(threads, clients), acts);
    if t.Worker? {
      assert WorkerOk(s, t.w);
    }
  }

  /** A task in the queue never waits for nobody. */
  lemma NoTaskIsForgotten<T>(threads: nat, clients: nat, acts: seq<Action<T>>)
    requires Run(Init<T>(threads, clients), acts).tasks != []
    ensures var s := Run(Init<T>(threads, clients), acts); SomeoneAwake(s) || NotifyPending(s)
  {
    Reachable<T>(threads, clients, acts);
  }

  // ------------------------------------------------- sleepers called for tasks

  /** A worker on its way to look at the queue, or about to call one that sleeps. */
  function Comes<T>(p: WorkerPc<T>): nat {
    if p.WLock? || p.WCheck? || p.WTrue? || p.WNotify? then 1 else 0
  }

  function Coming<T>(workers: seq<WorkerPc<T>>): nat {
    if workers == [] then 0 else Coming(workers[..|workers| - 1]) + Comes(workers[|workers| - 1])
  }

  function Calls<T>(p: ClientPc<T>): nat {
    if p.ENotify? then 1 else 0
  }

  function Calling<T>(clients: seq<ClientPc<T>>): nat {
    if clients == [] then 0 else Calling(clients[..|clients| - 1]) + Calls(clients[|clients| - 1])
  }

  lemma {:induction false} ComingUpdate<T>(workers: seq<WorkerPc<T>>, w: nat, p: WorkerPc<T>)
    requires w < |workers|
    ensures Coming(workers[w := p]) + Comes(workers[w]) == Coming(workers) + Comes(p)
  {
    var n := |workers| - 1;
    if w == n {
      assert workers[w := p][..n] == workers[..n];
    } else {
      assert workers[w := p][..n] == workers[..n][w := p];
      ComingUpdate(workers[..n], w, p);
    }
  }

  lemma {:induction false} CallingUpdate<T>(clients: seq<ClientPc<T>>, c: nat, p: ClientPc<T>)
    requires c < |clients|
    ensures Calling(clients[c := p]) + Calls(clients[c]) == Calling(clients) + Calls(p)
  {
    var n := |clients| - 1;
    if c == n {
      assert clients[c := p][..n] == clients[..n];
    } else {
      assert clients[c := p][..n] == clients[..n][c := p];
      CallingUpdate(clients[..n], c, p);
    }
  }

  predicate SomeoneSleeps<T>(s: State<T>) {
    exists w :: 0 <= w < |s.workers| && s.workers[w].WParked?
  }

  /** As many workers as there are tasks are coming or being called, or nobody
      is left to call. Workers busy with a task do not count. */
  predicate EnoughCalled<T>(s: State<T>) {
    SomeoneSleeps(s) ==> |s.tasks| <= Coming(s.workers) + Calling(s.clients)
  }

  lemma CalledStep<T>(s: State<T>, a: Action<T>)
    requires Inv(s) && EnoughCalled(s) && Enabled(s, a)
    ensures EnoughCalled(Apply(s, a))
  {
    hide TasksOk, WakeOk, DestructorOk;
    if a.NestedNotify? {
      CalledNotifyStep(s, a.w, a.target);
    } else if OfWorker(a) {
      CalledWorkerStep(s, a);
    } else if a.ClientCall? || a.ClientLock? || a.ClientPush? || a.ClientNotify? {
      CalledClientStep(s, a);
    }
  }

  lemma CalledClientStep<T>(s: State<T>, a: Action<T>)
    requires EnoughCalled(s) && Enabled(s, a)
    requires a.ClientCall? || a.ClientLock? || a.ClientPush? || a.ClientNotify?
    ensures EnoughCalled(Apply(s, a))
  {
    var s' := Apply(s, a);
    CallingUpdate(s.clients, a.c, s'.clients[a.c]);
    if a.ClientNotify? && a.target.Wakes? {
      ComingUpdate(s.workers, a.target.w, WLock);
    }
    if SomeoneSleeps(s') {
      var w :| 0 <= w < |s'.workers| && s'.workers[w].WParked?;
      assert s.workers[w].WParked?;
    }
  }

  lemma CalledWorkerStep<T>(s: State<T>, a: Action<T>)
    requires Inv(s) && EnoughCalled(s) && Enabled(s, a) && OfWorker(a) && !a.NestedNotify?
    ensures EnoughCalled(Apply(s, a))
  {
    hide TasksOk, WakeOk, DestructorOk, MutexOk;
    assert WorkerOk(s, a.w);
    ComingUpdate(s.workers, a.w, Apply(s, a).workers[a.w]);
    if SomeoneSleeps(Apply(s, a)) && !a.Sleep? {
      var w :| 0 <= w < |s.workers| && Apply(s, a).workers[w].WParked?;
      assert s.workers[w].WParked?;
    }
  }

  lemma CalledNotifyStep<T>(s: State<T>, w: nat, target: Target)
    requires EnoughCalled(s) && Enabled(s, NestedNotify(w, target))
    ensures EnoughCalled(Apply(s, NestedNotify(w, target)))
  {
    if target.Wakes? {
      assert s.workers[target.w].WParked?;
      ComingUpdate(s.workers, target.w, WLock);
      ComingUpdate(s.workers[target.w := WLock], w, WRun(s.workers[w].k));
    }
  }

  lemma {:induction false} RunCalled<T>(s: State<T>, acts: seq<Action<T>>)
    requires Inv(s) && EnoughCalled(s)
    ensures Inv(Run(s, acts)) && EnoughCalled(Run(s, acts))
  {
    hide Inv, EnoughCalled, Apply, Enabled;
    RunInv(s, acts);
    if acts == [] {
    } else {
      var before, a := acts[..|acts| - 1], acts[|acts| - 1];
      RunCalled(s, before);
      if Enabled(Run(s, before), a) {
        CalledStep(Run(s, before), a);
      } else {
        NoStep(Run(s, before), a);
      }
    }
  }

  lemma NoStep<T>(s: State<T>, a: Action<T>)
    requires !Enabled(s, a)
    ensures Apply(s, a) == s
  {
  }

  /** No enqueue skips its call: while some worker sleeps, there are at least as
      many workers on their way to the queue and notifies on their way to sleepers
      as there are tasks waiting, however many workers are busy. */
  lemma SleepersAreCalled<T>(threads: nat, clients: nat, acts: seq<Action<T>>)
    requires SomeoneSleeps(Run(Init<T>(threads, clients), acts))
    ensures var s := Run(Init<T>(threads, clients), acts); |s.tasks| <= Coming(s.workers) + Calling(s.clients)
  {
    InitInv<T>(threads, clients);
    RunCalled(Init<T>(threads, clients), acts);
  }

  // ------------------------------------------------------------- shutdown

  predicate AllReturned<T>(s: State<T>) {
    forall w :: 0 <= w < |s.workers| ==> s.workers[w].WExited?
  }

  lemma DrainedWhenReturned<T>(s: State<T>)
    requires Inv(s) && AllReturned(s)
    ensures s.tasks == [] && s.pushed == s.started && forall k :: 0 <= k < |s.pushed| ==> k in s.ran
  {
    assert !SomeoneLeft(s);
    forall k | 0 <= k < |s.pushed| ensures k in s.ran {
      assert !InProgress(s, k);
    }
  }

  /** Shutdown drains: once every worker has returned, everything enqueued, also
      by tasks that ran during the shutdown, has run. */
  lemma ShutdownDrains<T>(threads: nat, clients: nat, acts: seq<Action<T>>)
    requires AllReturned(Run(Init<T>(threads, clients), acts))
    ensures var s := Run(Init<T>(threads, clients), acts);
            s.tasks == [] && s.pushed == s.started && forall k :: 0 <= k < |s.pushed| ==> k in s.ran
  {
    Reachable<T>(threads, clients, acts);
    DrainedWhenReturned(Run(Init<T>(threads, clients), acts));
  }

  // --------------------------------------------------- the missed stop signal

  /** The destructor has finished notifying and worker w sleeps all the same:
      the join that follows waits for it. */
  predicate Hung<T>(s: State<T>, w: nat) {
    IsWorker(s, w) && s.workers[w].WParked? && s.destructor == DDone
  }

  predicate HungAfter<T>(s: State<T>, acts: seq<Action<T>>, w: nat) {
    Hung(Run(s, acts), w)
  }

  /** Told to stop and notified, and neither asleep nor about to be. */
  ghost predicate Up<T>(s: State<T>, w: nat) {
    IsWorker(s, w) && s.destructor == DDone && !s.workers[w].WFalse? && !s.workers[w].WParked?
  }

  lemma UpStep<T>(s: State<T>, a: Action<T>, w: nat)
    requires Inv(s) && Up(s, w)
    ensures Up(Apply(s, a), w)
  {
    hide MutexOk, WorkersOk, TasksOk, WakeOk;
  }

  /** Such a worker never sleeps again: its predicate is true. */
  lemma {:induction false} NotifiedWorkerStaysUp<T>(s: State<T>, acts: seq<Action<T>>, w: nat)
    requires Inv(s) && Up(s, w)
    ensures Inv(Run(s, acts)) && Up(Run(s, acts), w)
  {
    hide Inv, Up, Apply;
    if acts == [] {
    } else {
      NotifiedWorkerStaysUp(s, acts[..|acts| - 1], w);
      UpStep(Run(s, acts[..|acts| - 1]), acts[|acts| - 1], w);
      ApplyInv(Run(s, acts[..|acts| - 1]), acts[|acts| - 1]);
    }
  }

  /** The stop flags are set and the notify is sent without the mutex. At the
      notify it is decided whether the join can hang on worker w: if and only if
      w, holding the mutex, has found its predicate false and is not asleep yet. */
  lemma DestructorMayHangIff<T>(s: State<T>, w: nat)
    requires Inv(s) && Enabled(s, NotifyAll) && IsWorker(s, w)
    ensures (exists acts :: HungAfter(Apply(s, NotifyAll), acts, w)) <==> s.workers[w].WFalse?
    ensures s.workers[w].WFalse? ==> s.owner == Some(Worker(w))
  {
    ApplyInv(s, NotifyAll);
    if s.workers[w].WFalse? {
      var acts := SleepHangs(s, w);
      assert HungAfter(Apply(s, NotifyAll), acts, w);
    } else {
      forall acts ensures !HungAfter(Apply(s, NotifyAll), acts, w) {
        NotifiedWorkerStaysUp(Apply(s, NotifyAll), acts, w);
      }
    }
  }

  lemma SleepHangs<T>(s: State<T>, w: nat) returns (acts: seq<Action<T>>)
    requires Enabled(s, NotifyAll) && IsWorker(s, w) && s.workers[w].WFalse?
    ensures acts == [Sleep(w)] && Hung(Run(Apply(s, NotifyAll), acts), w)
  {
    acts := [Sleep(w)];
    assert acts[..0] == [];
    assert Run(Apply(s, NotifyAll), acts) == Apply(Apply(s, NotifyAll), Sleep(w));
  }

  /** A hung worker is released only by a spurious wake, or by the notify_one of
      a task still running that enqueues another. */
  lemma HungUntilWoken<T>(s: State<T>, a: Action<T>, w: nat)
    requires Inv(s) && Hung(s, w)
    ensures Hung(Apply(s, a), w) <==>
              !(Enabled(s, a) && (a == SpuriousWake(w) || (a.NestedNotify? && a.target == Wakes(w))))
  {
  }

  lemma Next<T>(s0: State<T>, acts: seq<Action<T>>, s: State<T>, a: Action<T>)
    returns (acts': seq<Action<T>>, s': State<T>)
    requires Run(s0, acts) == s
    ensures acts' == acts + [a] && s' == Apply(s, a) && Run(s0, acts') == s'
  {
    acts', s' := acts + [a], Apply(s, a);
    assert acts'[..|acts'| - 1] == acts;
  }

  const ABOUT_TO_SLEEP: State<int> := State([], Some(Worker(0)), [WFalse], [], [false], DIdle, [], [], [], [], [])

  lemma ReachAboutToSleep() returns (acts: seq<Action<int>>)
    ensures Run(Init<int>(1, 0), acts) == ABOUT_TO_SLEEP
  {
    var s0 := Init<int>(1, 0);
    assert s0 == State([], None, [WLock], [], [false], DIdle, [], [], [], [], []);
    var s := s0;
    acts := [];
    acts, s := Next(s0, acts, s, WorkerLock(0));
    assert s == ABOUT_TO_SLEEP.(workers := [WCheck]);
    acts, s := Next(s0, acts, s, Evaluate(0));
    assert s == ABOUT_TO_SLEEP;
  }

  const STOPPED := ABOUT_TO_SLEEP.(stops := [true], destructor := DNotify)

  lemma ReachStopped() returns (acts: seq<Action<int>>)
    ensures Run(Init<int>(1, 0), acts) == STOPPED
  {
    var s0 := Init<int>(1, 0);
    acts := ReachAboutToSleep();
    var s := ABOUT_TO_SLEEP;
    acts, s := Next(s0, acts, s, DestroyBegin);
    acts, s := Next(s0, acts, s, RequestStop);
    assert s == STOPPED;
  }

  /** And it can happen: one worker, nothing enqueued. After that no step but a
      spurious wake is possible. */
  lemma DestructorCanHang() returns (acts: seq<Action<int>>)
    ensures Hung(Run(Init<int>(1, 0), acts), 0)
    ensures forall a :: Enabled(Run(Init<int>(1, 0), acts), a) ==> a == SpuriousWake(0)
  {
    var s0 := Init<int>(1, 0);
    acts := ReachStopped();
    var s := STOPPED;
    acts, s := Next(s0, acts, s, NotifyAll);
    assert s.workers == [WFalse];
    assert s == STOPPED.(destructor := DDone);
    HungAtLast(s);
    acts, s := Next(s0, acts, s, Sleep(0));
    OnlySpuriously(s);
  }

  lemma OnlySpuriously(s: State<int>)
    requires s == STOPPED.(destructor := DDone, workers := [WParked], owner := None)
    ensures forall a :: Enabled(s, a) ==> a == SpuriousWake(0)
  {
  }

  lemma HungAtLast(s: State<int>)
    requires s == STOPPED.(destructor := DDone)
    ensures Hung(Apply(s, Sleep(0)), 0)
    ensures Apply(s, Sleep(0)) == s.(workers := [WParked], owner := None)
  {
  }
}
