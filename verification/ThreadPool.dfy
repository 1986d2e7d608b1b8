/** ThreadPool itself: the task queue, the stop flags and the threads' places in
    the code, one method per step, and enqueue, the worker loop and the
    destructor run against an arbitrary schedule of the other threads. */
module ThreadPool {
  import opened Ring
  import opened PoolModel
  import opened PoolTheorems

  datatype Role = WorkerRole(w: nat) | ClientRole(c: nat) | DestructorRole

  function RoleOf<T>(a: Action<T>): Role {
    if OfWorker(a) then WorkerRole(a.w)
    else if a.ClientCall? || a.ClientLock? || a.ClientPush? || a.ClientNotify? then ClientRole(a.c)
    else DestructorRole
  }

  /** Other threads leave this one where it is, except for waking it. */
  ghost predicate LeavesAlone<T>(s: State<T>, s': State<T>, me: Role) {
    && |s.workers| == |s'.workers| && |s.clients| == |s'.clients| && |s.stops| == |s'.stops|
    && match me
       case WorkerRole(w) =>
         w < |s.workers| && (s'.workers[w] == s.workers[w] || (s.workers[w].WParked? && s'.workers[w].WLock?))
       case ClientRole(c) =>
         && c < |s.clients| && s'.clients[c] == s.clients[c]
         && s.pushed <= s'.pushed && s.pushers <= s'.pushers
         && forall q :: |s.pushers| <= q < |s'.pushers| ==> s'.pushers[q] != Client(c)
       case DestructorRole => s'.destructor == s.destructor && s'.stops == s.stops
  }

  lemma OthersLeaveAlone<T>(s: State<T>, a: Action<T>, me: Role)
    requires RoleOf(a) != me
    requires match me
             case WorkerRole(w) => w < |s.workers|
             case ClientRole(c) => c < |s.clients|
             case DestructorRole => true
    ensures LeavesAlone(s, Apply(s, a), me)
  {
  }

  /** What every step of the class has to know about the model. */
  lemma StepIsApply<T>(s0: State<T>, acts: seq<Action<T>>, a: Action<T>)
    requires Inv(Run(s0, acts))
    ensures Run(s0, acts + [a]) == Apply(Run(s0, acts), a)
    ensures Inv(Apply(Run(s0, acts), a))
  {
    assert (acts + [a])[..|acts|] == acts;
    ApplyInv(Run(s0, acts), a);
  }

  /** One of the sleepers was woken, if there was any. */
  ghost predicate WokeOne<T>(before: seq<WorkerPc<T>>, after: seq<WorkerPc<T>>) {
    if forall w :: 0 <= w < |before| ==> !before[w].WParked? then after == before
    else exists w :: 0 <= w < |before| && before[w].WParked? && after == before[w := WLock]
  }

  /** At some step since then, worker w looked, was told to stop, found the queue
      empty, and returned. */
  ghost predicate LeftOnEmpty<T>(s0: State<T>, history: seq<Action<T>>, since: nat, w: nat) {
    exists n :: since <= n < |history| && history[n] == Take(w) && ReturnsNow(Run(s0, history[..n]), w)
  }

  ghost predicate ReturnsNow<T>(s: State<T>, w: nat) {
    IsWorker(s, w) && s.workers[w].WTrue? && s.stops[w] && s.tasks == []
  }

  lemma LeftOnEmptyStays<T>(
      s0: State<T>, history: seq<Action<T>>, history': seq<Action<T>>, since: nat, since': nat, w: nat)
    requires LeftOnEmpty(s0, history, since, w) && history <= history' && since' <= since
    ensures LeftOnEmpty(s0, history', since', w)
  {
    var n :| since <= n < |history| && history[n] == Take(w) && ReturnsNow(Run(s0, history[..n]), w);
    assert history'[..n] == history[..n];
  }

  /** The other threads' steps, and what the running task enqueues meanwhile. */
  datatype Slice<+T> = Slice(acts: seq<Action<T>>, nested: Option<T>)

  /** The actions of the threads other than me, in order. */
  ghost function Others<T>(acts: seq<Action<T>>, me: Role): seq<Action<T>> {
    if acts == [] then []
    else
      var a := acts[|acts| - 1];
      Others(acts[..|acts| - 1], me) + (if RoleOf(a) != me then [a] else [])
  }

  lemma NobodyElse<T>(me: Role)
    ensures Others<T>([], me) == []
  {
  }

  lemma OthersStep<T>(acts: seq<Action<T>>, i: nat, me: Role)
    requires i < |acts|
    ensures Others(acts[..i + 1], me) == Others(acts[..i], me) + (if RoleOf(acts[i]) != me then [acts[i]] else [])
  {
    assert acts[..i + 1][..i] == acts[..i];
  }

  ghost function AllOthers<T>(env: seq<Slice<T>>, me: Role): seq<Action<T>> {
    if env == [] then [] else AllOthers(env[..|env| - 1], me) + Others(env[|env| - 1].acts, me)
  }

  lemma {:induction false} OthersConcat<T>(a: seq<Action<T>>, b: seq<Action<T>>, me: Role)
    ensures Others(a + b, me) == Others(a, me) + Others(b, me)
  {
    if b == [] {
      assert a + b == a;
    } else {
      OthersConcat(a, b[..|b| - 1], me);
      assert (a + b)[..|a + b| - 1] == a + b[..|b| - 1];
    }
  }

  lemma {:induction false} OthersAgain<T>(acts: seq<Action<T>>, me: Role)
    ensures Others(Others(acts, me), me) == Others(acts, me)
  {
    if acts == [] {
    } else {
      var before, a := acts[..|acts| - 1], acts[|acts| - 1];
      OthersAgain(before, me);
      OthersConcat(Others(before, me), if RoleOf(a) != me then [a] else [], me);
      assert [a][..0] == [];
      assert Others([a], me) == if RoleOf(a) != me then [a] else [];
    }
  }

  /** Since the history was this long, the other threads have taken the steps of
      the first k slices of the schedule, all of them, in order, and no others. */
  ghost predicate Took<T>(history: seq<Action<T>>, since: nat, env: seq<Slice<T>>, k: nat, me: Role) {
    since <= |history| && k <= |env| && Others(history[since..], me) == AllOthers(env[..k], me)
  }

  /** One more step, of this thread. */
  ghost predicate OwnStep<T>(history: seq<Action<T>>, history': seq<Action<T>>, me: Role) {
    history <= history' && |history'| == |history| + 1 && RoleOf(history'[|history|]) == me
  }

  lemma TookNothing<T>(history: seq<Action<T>>, env: seq<Slice<T>>, me: Role)
    ensures Took(history, |history|, env, 0, me)
  {
    assert env[..0] == [] && history[|history|..] == [];
  }

  lemma TookOwn<T>(history: seq<Action<T>>, history': seq<Action<T>>, since: nat, env: seq<Slice<T>>, k: nat, me: Role)
    requires Took(history, since, env, k, me) && OwnStep(history, history', me)
    ensures Took(history', since, env, k, me)
  {
    assert history'[since..][..|history| - since] == history[since..];
  }

  lemma TookSlice<T>(
      history: seq<Action<T>>, history': seq<Action<T>>, since: nat, env: seq<Slice<T>>, k: nat, k': nat, me: Role)
    requires Took(history, since, env, k, me)
    requires if k < |env| then k' == k + 1 && history' == history + Others(env[k].acts, me)
             else k' == k && history' == history
    ensures Took(history', since, env, k', me)
  {
    if k < |env| {
      var more := Others(env[k].acts, me);
      assert history'[since..] == history[since..] + more;
      OthersConcat(history[since..], more, me);
      OthersAgain(env[k].acts, me);
      assert env[..k + 1][..k] == env[..k];
    }
  }

  lemma AllOthersStep<T>(env: seq<Slice<T>>, k: nat, me: Role)
    requires k < |env|
    ensures AllOthers(env[..k + 1], me) == AllOthers(env[..k], me) + Others(env[k].acts, me)
  {
    assert env[..k + 1][..k] == env[..k];
  }

  /** How far a worker is from blocking once the schedule has run out: every
      round of its loop takes a task away. */
  function Phase<T>(p: WorkerPc<T>): nat {
    match p
    case WPush(_, _) => 9
    case WPushing(_, _) => 8
    case WNotify(_) => 7
    case WRun(_) => 6
    case WLock => 5
    case WCheck => 4
    case WFalse => 3
    case WTrue => 3
    case _ => 0
  }

  function Owed<T>(p: WorkerPc<T>): nat {
    if p.WPush? || p.WPushing? then 1 else 0
  }

  class Pool<T> {
    var tasks: seq<T>
    var owner: Option<Thread>
    var stops: seq<bool>
    var popped: nat              // numbers the tasks in the order of popping

    // The threads' places in the code.
    var workers: seq<WorkerPc<T>>
    var clients: seq<ClientPc<T>>
    var destructor: Destructor

    // The logs of the model, and every step taken so far.
    ghost const threads: nat
    ghost const callers: nat
    ghost var pushed: seq<T>
    ghost var pushers: seq<Thread>
    ghost var started: seq<T>
    ghost var runners: seq<nat>
    ghost var ran: seq<nat>
    ghost var history: seq<Action<T>>

    ghost function State(): State<T>
      reads this
    {
      PoolModel.State(tasks, owner, workers, clients, stops, destructor, pushed, pushers, started, runners, ran)
    }

    ghost function Start(): State<T> {
      Init(threads, callers)
    }

    ghost predicate Valid()
      reads this
    {
      Inv(State()) && State() == Run(Start(), history) && popped == |started|
    }

    predicate Has(w: nat)
      reads this
    {
      w < |workers| && w < |stops|
    }

    constructor (threads: nat, callers: nat)
      ensures Valid() && history == [] && State() == Init<T>(threads, callers)
      ensures this.threads == threads && this.callers == callers
      ensures |workers| == |stops| == (if threads == 0 then 1 else threads) && |clients| == callers
    {
      this.threads, this.callers := threads, callers;
      var n := if threads == 0 then 1 else threads;
      tasks, owner, destructor, popped := [], None, DIdle, 0;
      workers, stops, clients := seq(n, i => WLock), seq(n, i => false), seq(callers, i => EIdle);
      pushed, pushers, started, runners, ran, history := [], [], [], [], [], [];
      new;
      InitInv<T>(threads, callers);
    }

    // --------------------------------------------------------- clients

    method CallEnqueue(c: nat, task: T)
      requires Valid() && c < |clients| && clients[c].EIdle? && destructor == DIdle
      modifies this
      ensures Valid() && history == old(history) + [ClientCall(c, task)]
      ensures State() == Apply(old(State()), ClientCall(c, task))
      ensures clients == old(clients)[c := EPush(task)] && pushed == old(pushed) && pushers == old(pushers)
    {
      hide Inv, Run;
      StepIsApply(Start(), history, ClientCall(c, task));
      clients := clients[c := EPush(task)];
      history := history + [ClientCall(c, task)];
    }

    method LockForClient(c: nat)
      requires Valid() && c < |clients| && clients[c].EPush? && owner == None
      modifies this
      ensures Valid() && history == old(history) + [ClientLock(c)]
      ensures State() == Apply(old(State()), ClientLock(c))
      ensures clients == old(clients)[c := EPushing(old(clients)[c].task)]
      ensures pushed == old(pushed) && pushers == old(pushers)
    {
      hide Inv, Run;
      StepIsApply(Start(), history, ClientLock(c));
      clients, owner := clients[c := EPushing(clients[c].task)], Some(Client(c));
      history := history + [ClientLock(c)];
    }

    method PushForClient(c: nat)
      requires Valid() && c < |clients| && clients[c].EPushing?
      modifies this
      ensures Valid() && history == old(history) + [ClientPush(c)]
      ensures State() == Apply(old(State()), ClientPush(c))
      ensures clients == old(clients)[c := ENotify]
      ensures pushed == old(pushed) + [old(clients)[c].task] && pushers == old(pushers) + [Client(c)]
    {
      hide Inv, Run;
      StepIsApply(Start(), history, ClientPush(c));
      tasks, pushed, pushers := tasks + [clients[c].task], pushed + [clients[c].task], pushers + [Client(c)];
      clients, owner := clients[c := ENotify], None;
      history := history + [ClientPush(c)];
    }

    method NotifyForClient(c: nat, target: Target)
      requires Valid() && c < |clients| && clients[c].ENotify? && MayWake(State(), target)
      modifies this
      ensures Valid() && history == old(history) + [ClientNotify(c, target)]
      ensures State() == Apply(old(State()), ClientNotify(c, target))
      ensures clients == old(clients)[c := EIdle] && pushed == old(pushed) && pushers == old(pushers)
      ensures WokeOne(old(workers), workers)
    {
      hide Inv, Run;
      StepIsApply(Start(), history, ClientNotify(c, target));
      clients, workers := clients[c := EIdle], Woken(workers, target);
      history := history + [ClientNotify(c, target)];
    }

    // --------------------------------------------------------- workers

    method LockForWorker(w: nat)
      requires Valid() && Has(w) && workers[w].WLock? && owner == None
      modifies this
      ensures Valid() && history == old(history) + [WorkerLock(w)]
      ensures State() == Apply(old(State()), WorkerLock(w))
      ensures Has(w) && workers[w] == WCheck && tasks == old(tasks)
    {
      hide Inv, Run;
      StepIsApply(Start(), history, WorkerLock(w));
      workers, owner := workers[w := WCheck], Some(Worker(w));
      history := history + [WorkerLock(w)];
    }

    method EvaluatePredicate(w: nat)
      requires Valid() && Has(w) && workers[w].WCheck?
      modifies this
      ensures Valid() && history == old(history) + [Evaluate(w)]
      ensures State() == Apply(old(State()), Evaluate(w))
      ensures Has(w) && (workers[w] == WTrue || workers[w] == WFalse) && tasks == old(tasks)
    {
      hide Inv, Run;
      StepIsApply(Start(), history, Evaluate(w));
      workers := workers[w := if stops[w] || tasks != [] then WTrue else WFalse];
      history := history + [Evaluate(w)];
    }

    method GoToSleep(w: nat)
      requires Valid() && Has(w) && workers[w].WFalse?
      modifies this
      ensures Valid() && history == old(history) + [Sleep(w)]
      ensures State() == Apply(old(State()), Sleep(w))
      ensures Has(w) && workers[w] == WParked && tasks == old(tasks)
    {
      hide Inv, Run;
      StepIsApply(Start(), history, Sleep(w));
      workers, owner := workers[w := WParked], None;
      history := history + [Sleep(w)];
    }

    method WakeUp(w: nat)
      requires Valid() && Has(w) && workers[w].WParked?
      modifies this
      ensures Valid() && history == old(history) + [SpuriousWake(w)]
      ensures State() == Apply(old(State()), SpuriousWake(w))
      ensures Has(w) && workers[w] == WLock
    {
      hide Inv, Run;
      StepIsApply(Start(), history, SpuriousWake(w));
      workers := workers[w := WLock];
      history := history + [SpuriousWake(w)];
    }

    method TakeTask(w: nat)
      requires Valid() && Has(w) && workers[w].WTrue?
      modifies this
      ensures Valid() && history == old(history) + [Take(w)]
      ensures State() == Apply(old(State()), Take(w))
      ensures Has(w) && stops == old(stops)
      ensures if stops[w] && old(tasks) == [] then workers[w] == WExited && tasks == old(tasks)
              else workers[w].WRun? && |tasks| == |old(tasks)| - 1
    {
      hide Inv, Run, Apply;
      if stops[w] && tasks == [] {
        Return(w);
      } else {
        TaskWaiting(w);
        PopFront(w);
      }
    }

    method Return(w: nat)
      requires Valid() && Has(w) && workers[w].WTrue? && stops[w] && tasks == []
      modifies this
      ensures Valid() && history == old(history) + [Take(w)]
      ensures State() == Apply(old(State()), Take(w))
      ensures Has(w) && stops == old(stops) && workers[w] == WExited && tasks == []
    {
      hide Inv, Run;
      StepIsApply(Start(), history, Take(w));
      workers, owner := workers[w := WExited], None;
      history := history + [Take(w)];
    }

    method PopFront(w: nat)
      requires Valid() && Has(w) && workers[w].WTrue? && tasks != []
      modifies this
      ensures Valid() && history == old(history) + [Take(w)]
      ensures State() == Apply(old(State()), Take(w))
      ensures Has(w) && stops == old(stops) && workers[w] == WRun(old(popped)) && tasks == old(tasks)[1..]
      ensures started == old(started) + [old(tasks)[0]]
    {
      hide Inv, Run;
      StepIsApply(Start(), history, Take(w));
      started, runners := started + [tasks[0]], runners + [w];
      workers, owner := workers[w := WRun(popped)], None;
      tasks, popped := tasks[1..], popped + 1;
      history := history + [Take(w)];
    }

    method TakeOrReturn(w: nat)
      requires Valid() && Has(w) && workers[w].WTrue?
      modifies this
      ensures Valid() && history == old(history) + [Take(w)] && Has(w)
      ensures if stops[w] && old(tasks) == [] then workers[w] == WExited && tasks == old(tasks)
              else workers[w].WRun? && |tasks| == |old(tasks)| - 1
      ensures workers[w].WExited? ==> LeftOnEmpty(Start(), history, |old(history)|, w)
    {
      hide Inv, Run, Apply;
      ghost var before := history;
      TakeTask(w);
      assert history[..|before|] == before;
    }

    method CallNested(w: nat, task: T)
      requires Valid() && Has(w) && workers[w].WRun?
      modifies this
      ensures Valid() && history == old(history) + [NestedCall(w, task)]
      ensures State() == Apply(old(State()), NestedCall(w, task))
      ensures Has(w) && workers[w] == WPush(old(workers)[w].k, task)
    {
      hide Inv, Run;
      StepIsApply(Start(), history, NestedCall(w, task));
      workers := workers[w := WPush(workers[w].k, task)];
      history := history + [NestedCall(w, task)];
    }

    method LockForNested(w: nat)
      requires Valid() && Has(w) && workers[w].WPush? && owner == None
      modifies this
      ensures Valid() && history == old(history) + [NestedLock(w)]
      ensures State() == Apply(old(State()), NestedLock(w))
      ensures Has(w) && workers[w] == WPushing(old(workers)[w].k, old(workers)[w].task) && tasks == old(tasks)
    {
      hide Inv, Run;
      StepIsApply(Start(), history, NestedLock(w));
      workers, owner := workers[w := WPushing(workers[w].k, workers[w].task)], Some(Worker(w));
      history := history + [NestedLock(w)];
    }

    method PushForNested(w: nat)
      requires Valid() && Has(w) && workers[w].WPushing?
      modifies this
      ensures Valid() && history == old(history) + [NestedPush(w)]
      ensures State() == Apply(old(State()), NestedPush(w))
      ensures Has(w) && workers[w] == WNotify(old(workers)[w].k)
      ensures var task := old(workers)[w].task;
              && tasks == old(tasks) + [task]
              && pushed == old(pushed) + [task] && pushers == old(pushers) + [Worker(w)]
    {
      hide Inv, Run;
      StepIsApply(Start(), history, NestedPush(w));
      tasks, pushed, pushers := tasks + [workers[w].task], pushed + [workers[w].task], pushers + [Worker(w)];
      workers, owner := workers[w := WNotify(workers[w].k)], None;
      history := history + [NestedPush(w)];
    }

    method NotifyForNested(w: nat, target: Target)
      requires Valid() && Has(w) && workers[w].WNotify? && MayWake(State(), target)
      modifies this
      ensures Valid() && history == old(history) + [NestedNotify(w, target)]
      ensures State() == Apply(old(State()), NestedNotify(w, target))
      ensures Has(w) && workers[w] == WRun(old(workers)[w].k) && tasks == old(tasks)
      ensures WokeOne(old(workers), workers[w := old(workers)[w]])
    {
      hide Inv, Run;
      StepIsApply(Start(), history, NestedNotify(w, target));
      workers := Woken(workers, target)[w := WRun(workers[w].k)];
      history := history + [NestedNotify(w, target)];
    }

    method FinishTask(w: nat)
      requires Valid() && Has(w) && workers[w].WRun?
      modifies this
      ensures Valid() && history == old(history) + [Finish(w)]
      ensures State() == Apply(old(State()), Finish(w))
      ensures Has(w) && workers[w] == WLock && tasks == old(tasks)
    {
      hide Inv, Run;
      StepIsApply(Start(), history, Finish(w));
      ran := ran + [workers[w].k];
      workers := workers[w := WLock];
      history := history + [Finish(w)];
    }

    // ------------------------------------------------------ destructor

    method BeginDestroy()
      requires Valid() && destructor == DIdle && forall c :: 0 <= c < |clients| ==> clients[c].EIdle?
      modifies this
      ensures Valid() && history == old(history) + [DestroyBegin]
      ensures State() == Apply(old(State()), DestroyBegin)
      ensures destructor == DStopping(0) && stops == old(stops)
    {
      hide Inv, Run;
      StepIsApply(Start(), history, DestroyBegin);
      destructor := DStopping(0);
      history := history + [DestroyBegin];
    }

    method StopOne()
      requires Valid() && destructor.DStopping? && destructor.i < |stops|
      modifies this
      ensures Valid() && history == old(history) + [RequestStop]
      ensures State() == Apply(old(State()), RequestStop)
      ensures stops == old(stops)[old(destructor.i) := true]
      ensures destructor == if old(destructor.i) + 1 < |stops| then DStopping(old(destructor.i) + 1) else DNotify
    {
      hide Inv, Run;
      StepIsApply(Start(), history, RequestStop);
      stops := stops[destructor.i := true];
      destructor := if destructor.i + 1 < |stops| then DStopping(destructor.i + 1) else DNotify;
      history := history + [RequestStop];
    }

    method NotifyEveryone()
      requires Valid() && destructor == DNotify
      modifies this
      ensures Valid() && history == old(history) + [NotifyAll]
      ensures State() == Apply(old(State()), NotifyAll)
      ensures destructor == DDone && stops == old(stops)
    {
      hide Inv, Run;
      StepIsApply(Start(), history, NotifyAll);
      workers, destructor := AllWoken(workers), DDone;
      history := history + [NotifyAll];
    }

    /** A worker whose predicate held and who need not stop finds a task. */
    lemma TaskWaiting(w: nat)
      requires Valid() && Has(w) && workers[w].WTrue? && !(stops[w] && tasks == [])
      ensures tasks != []
    {
      assert WorkerOk(State(), w);
    }

    // --------------------------------------------------- the other threads

    method ChooseTarget(wish: Target) returns (target: Target)
      requires Valid()
      ensures MayWake(State(), target) && (MayWake(State(), wish) ==> target == wish)
    {
      if wish.Wakes? && wish.w < |workers| && workers[wish.w].WParked? {
        return wish;
      }
      for w := 0 to |workers|
        invariant forall v :: 0 <= v < w ==> !workers[v].WParked?
      {
        if workers[w].WParked? {
          return Wakes(w);
        }
      }
      return Nobody;
    }

    /** Takes the step, if its thread is ready for it. */
    method Perform(a: Action<T>)
      requires Valid()
      modifies this
      ensures Valid() && history == old(history) + [a]
      ensures State() == Apply(old(State()), a)
    {
      hide Inv, Apply;
      ghost var before := history;
      StepIsApply(Start(), before, a);
      if OfWorker(a) {
        PerformWorker(a);
      } else {
        PerformOther(a);
      }
      history := before + [a];
    }

    method PerformWorker(a: Action<T>)
      requires Valid() && OfWorker(a)
      modifies this
      ensures Valid()
      ensures State() == Apply(old(State()), a)
    {
      if a.w >= |workers| || a.w >= |stops| {
        return;
      }
      var p := workers[a.w];
      match a
      case WorkerLock(w) => if p.WLock? && owner == None { LockForWorker(w); }
      case Evaluate(w) => if p.WCheck? { EvaluatePredicate(w); }
      case Sleep(w) => if p.WFalse? { GoToSleep(w); }
      case SpuriousWake(w) => if p.WParked? { WakeUp(w); }
      case Take(w) => if p.WTrue? { TakeTask(w); }
      case NestedCall(w, task) => if p.WRun? { CallNested(w, task); }
      case NestedLock(w) => if p.WPush? && owner == None { LockForNested(w); }
      case NestedPush(w) => if p.WPushing? { PushForNested(w); }
      case NestedNotify(w, target) =>
        if p.WNotify? {
          var chosen := ChooseTarget(target);
          if chosen == target { NotifyForNested(w, target); }
        }
      case Finish(w) => if p.WRun? { FinishTask(w); }
      case _ =>
    }

    method PerformOther(a: Action<T>)
      requires Valid() && !OfWorker(a)
      modifies this
      ensures Valid()
      ensures State() == Apply(old(State()), a)
    {
      match a
      case ClientCall(c, task) => if c < |clients| && clients[c].EIdle? && destructor == DIdle { CallEnqueue(c, task); }
      case ClientLock(c) => if c < |clients| && clients[c].EPush? && owner == None { LockForClient(c); }
      case ClientPush(c) => if c < |clients| && clients[c].EPushing? { PushForClient(c); }
      case ClientNotify(c, target) =>
        if c < |clients| && clients[c].ENotify? {
          var chosen := ChooseTarget(target);
          if chosen == target { NotifyForClient(c, target); }
        }
      case DestroyBegin =>
        if destructor == DIdle && forall c :: 0 <= c < |clients| ==> clients[c].EIdle? { BeginDestroy(); }
      case RequestStop => if destructor.DStopping? && destructor.i < |stops| { StopOne(); }
      case NotifyAll => if destructor == DNotify { NotifyEveryone(); }
      case _ =>
    }

    ghost predicate IsRole(me: Role)
      reads this
    {
      match me
      case WorkerRole(w) => Has(w)
      case ClientRole(c) => c < |clients|
      case DestructorRole => true
    }

    /** The k-th slice of the schedule: any steps of any other threads. Past its
        end the others stand still. */
    method Yield(env: seq<Slice<T>>, k: nat, me: Role) returns (k': nat)
      requires Valid() && IsRole(me)
      modifies this
      ensures Valid() && old(history) <= history && IsRole(me)
      ensures me.WorkerRole? ==>
                workers[me.w] == old(workers)[me.w] || (old(workers)[me.w].WParked? && workers[me.w].WLock?)
      ensures me.ClientRole? ==>
                && |clients| == |old(clients)| && clients[me.c] == old(clients)[me.c]
                && old(pushed) <= pushed && old(pushers) <= pushers && NoPushSince(|old(pushers)|, me.c)
      ensures me.DestructorRole? ==> destructor == old(destructor) && stops == old(stops)
      ensures k < |env| ==> k' == k + 1
      ensures k < |env| ==> history == old(history) + Others(env[k].acts, me)
      ensures k >= |env| ==> k' == k && State() == old(State()) && history == old(history)
    {
      k' := k;
      if k < |env| {
        LetOthersRun(env[k].acts, me);
        k' := k + 1;
      }
    }

    /** All the steps of other threads among these, in order. */
    method LetOthersRun(acts: seq<Action<T>>, me: Role)
      requires Valid() && IsRole(me)
      modifies this
      ensures Valid() && history == old(history) + Others(acts, me) && IsRole(me)
      ensures LeavesAlone(old(State()), State(), me)
    {
      hide Inv, Run, Apply, Enabled, Others;
      ghost var start := history;
      NobodyElse<T>(me);
      for i := 0 to |acts|
        invariant Valid() && history == start + Others(acts[..i], me) && IsRole(me)
        invariant LeavesAlone(old(State()), State(), me)
      {
        OthersStep(acts, i, me);
        if RoleOf(acts[i]) != me {
          OthersLeaveAlone(State(), acts[i], me);
          Perform(acts[i]);
        }
      }
      assert acts[..|acts|] == acts;
    }

    // ----------------------------------------------------------- operations

    /** Since the logs were this long, client c has pushed nothing. */
    ghost predicate NoPushSince(length: nat, c: nat)
      reads this
    {
      forall q :: length <= q < |pushers| ==> pushers[q] != Client(c)
    }

    /** Since then, it has pushed the task at place j and nothing else. */
    ghost predicate OnePushSince(length: nat, c: nat, j: nat, task: T)
      reads this
    {
      && length <= j < |pushed| && pushed[j] == task
      && forall q :: length <= q < |pushers| ==> (pushers[q] == Client(c) <==> q == j)
    }

    /** The last step taken is client c's notify_one, and it woke a sleeper if
        there was any. */
    ghost predicate JustNotified(c: nat)
      reads this
    {
      && |history| > 0
      && var n := |history| - 1;
         && history[n].ClientNotify? && history[n].c == c
         && WokeOne(Run(Start(), history[..n]).workers, workers)
    }

    lemma LogsAgree()
      requires Valid()
      ensures |pushers| == |pushed|
    {
    }

    /** enqueue. Done: exactly this call's task has been pushed by this client,
        once, and one sleeper, if any, has been woken since. Not done: this client
        still waits for the mutex, which another thread holds, after all the
        steps the schedule has for the others. */
    method Enqueue(c: nat, task: T, env: seq<Slice<T>>, wish: Target) returns (done: bool)
      requires Valid() && c < |clients| && clients[c].EIdle? && destructor == DIdle
      modifies this
      ensures Valid() && old(history) <= history && c < |clients|
      ensures done ==> clients[c].EIdle? && JustNotified(c)
      ensures done ==> exists j: nat :: OnePushSince(|old(pushed)|, c, j, task)
      ensures !done ==> clients[c] == EPush(task) && NoPushSince(|old(pushed)|, c) && owner != None
      ensures old(history) + [ClientCall(c, task)] <= history
      ensures !done ==> history == old(history) + [ClientCall(c, task)] + AllOthers(env, ClientRole(c))
    {
      hide Inv, Run, Apply, Enabled, Valid, WokeOne, Others, AllOthers;
      LogsAgree();
      CallEnqueue(c, task);
      var k := WaitForMutex(c, task, env);
      if owner != None {
        return false;
      }
      LockForClient(c);
      k := Yield(env, k, ClientRole(c));
      ghost var j := |pushed|;
      LogsAgree();
      PushForClient(c);
      k := Yield(env, k, ClientRole(c));
      assert OnePushSince(|old(pushed)|, c, j, task);
      NotifySomeone(c, wish);
      assert OnePushSince(|old(pushed)|, c, j, task);
      return true;
    }

    /** Blocking on the mutex: the others take their steps until it is free. */
    method WaitForMutex(c: nat, task: T, env: seq<Slice<T>>) returns (k: nat)
      requires Valid() && c < |clients| && clients[c] == EPush(task)
      modifies this
      ensures Valid() && old(history) <= history && old(pushed) <= pushed && old(pushers) <= pushers
      ensures c < |clients| && clients[c] == EPush(task) && NoPushSince(|old(pushers)|, c)
      ensures k <= |env| && history == old(history) + AllOthers(env[..k], ClientRole(c))
      ensures owner != None ==> k == |env| && history == old(history) + AllOthers(env, ClientRole(c))
    {
      hide Inv, Run, Apply, Enabled, Valid, Others;
      assert env[..0] == [];
      k := Yield(env, 0, ClientRole(c));
      if |env| > 0 {
        AllOthersStep(env, 0, ClientRole(c));
      }
      while owner != None && k < |env|
        invariant Valid() && old(history) <= history && old(pushed) <= pushed && old(pushers) <= pushers
        invariant c < |clients| && clients[c] == EPush(task) && NoPushSince(|old(pushers)|, c)
        invariant k <= |env| && history == old(history) + AllOthers(env[..k], ClientRole(c))
        decreases |env| - k
      {
        AllOthersStep(env, k, ClientRole(c));
        k := Yield(env, k, ClientRole(c));
      }
      assert env[..|env|] == env;
    }

    method NotifySomeone(c: nat, wish: Target)
      requires Valid() && c < |clients| && clients[c].ENotify?
      modifies this
      ensures Valid() && old(history) <= history
      ensures clients == old(clients)[c := EIdle] && pushed == old(pushed) && pushers == old(pushers)
      ensures JustNotified(c)
    {
      hide Inv, Run, Apply, Enabled, WokeOne;
      ghost var before := history;
      var target := ChooseTarget(wish);
      NotifyForClient(c, target);
      assert history[..|before|] == before;
    }

    /** Everything this worker has popped, it has run. */
    ghost predicate NothingOwed(w: nat)
      reads this
    {
      forall k :: 0 <= k < |started| && k < |runners| && runners[k] == w ==> k in ran
    }

    lemma RunEverythingPopped(w: nat)
      requires Valid() && Has(w) && (workers[w].WExited? || workers[w].WLock? || workers[w].WParked?)
      ensures NothingOwed(w) && |runners| == |started|
      ensures workers[w].WExited? ==> stops[w]
    {
      assert WorkerOk(State(), w);
      forall k | 0 <= k < |started| && k < |runners| && runners[k] == w ensures k in ran {
        assert !InProgress(State(), k);
      }
    }

    /** One step of a worker that is not blocked. */
    method WorkerStep(w: nat, nested: Option<T>, wish: Target)
      requires Valid() && Has(w) && !workers[w].WExited? && !workers[w].WParked?
      requires (workers[w].WLock? || workers[w].WPush?) ==> owner == None
      modifies this
      ensures Valid() && old(history) <= history && Has(w)
      ensures nested == None ==>
                || |tasks| + Owed(workers[w]) < |old(tasks)| + Owed(old(workers)[w])
                || (|tasks| + Owed(workers[w]) == |old(tasks)| + Owed(old(workers)[w])
                    && Phase(workers[w]) < Phase(old(workers)[w]))
      ensures workers[w].WExited? ==> LeftOnEmpty(Start(), history, |old(history)|, w)
      ensures OwnStep(old(history), history, WorkerRole(w))
      ensures old(workers)[w].WRun? ==>
                workers[w] == if nested.Some? then WPush(old(workers)[w].k, nested.value) else WLock
    {
      hide Inv, Run, Apply, Enabled, Valid, LeftOnEmpty;
      match workers[w] {
        case WLock => LockForWorker(w);
        case WCheck => EvaluatePredicate(w);
        case WFalse => GoToSleep(w);
        case WTrue => TakeOrReturn(w);
        case WPush(_, _) => LockForNested(w);
        case WPushing(_, _) => PushForNested(w);
        case WNotify(_) =>
          var target := ChooseTarget(wish);
          NotifyForNested(w, target);
        case WRun(_) =>
          if nested.Some? {
            CallNested(w, nested.value);
          } else {
            FinishTask(w);
          }
        case _ =>
      }
    }

    /** The worker's loop. It returns only on finding, when told to stop, that
        the queue is empty; otherwise the schedule has run out while it sleeps or waits for the mutex. Whenever it
        is between tasks, all it popped has run. */
    method WorkerLoop(w: nat, env: seq<Slice<T>>, wish: Target) returns (returned: bool)
      requires Valid() && Has(w) && workers[w].WLock?
      modifies this
      ensures Valid() && old(history) <= history && Has(w)
      ensures returned ==> workers[w].WExited? && stops[w] && NothingOwed(w)
      ensures returned ==> LeftOnEmpty(Start(), history, |old(history)|, w)
      ensures !returned ==> workers[w].WParked? || ((workers[w].WLock? || workers[w].WPush?) && owner != None)
      ensures workers[w].WParked? ==> NothingOwed(w)
      ensures !returned ==> Took(history, |old(history)|, env, |env|, WorkerRole(w))
    {
      hide Inv, Run, Apply, Enabled, Valid, Phase, Owed, NothingOwed, LeftOnEmpty, Others, AllOthers, Took;
      var k := 0;
      ghost var since := |history|;
      TookNothing(history, env, WorkerRole(w));
      while !workers[w].WExited?
        invariant Valid() && old(history) <= history && Has(w)
        invariant workers[w].WExited? ==> LeftOnEmpty(Start(), history, |old(history)|, w)
        invariant k <= |env| && Took(history, since, env, k, WorkerRole(w))
        decreases |env| - k, |tasks| + Owed(workers[w]), Phase(workers[w])
      {
        if workers[w].WParked? || ((workers[w].WLock? || workers[w].WPush?) && owner != None) {
          if k >= |env| {
            if workers[w].WParked? {
              RunEverythingPopped(w);
            }
            assert k == |env|;
            return false;
          }
        } else {
          ghost var before := history;
          WorkerStep(w, if k < |env| then env[k].nested else None, wish);
          TookOwn(before, history, since, env, k, WorkerRole(w));
          if workers[w].WExited? {
            LeftOnEmptyStays(Start(), history, history, |before|, |old(history)|, w);
          }
        }
        ghost var before, k0 := history, k;
        k := Yield(env, k, WorkerRole(w));
        TookSlice(before, history, since, env, k0, k, WorkerRole(w));
        if workers[w].WExited? {
          LeftOnEmptyStays(Start(), before, history, |old(history)|, |old(history)|, w);
        }
      }
      RunEverythingPopped(w);
      return true;
    }

    lemma StopBounds()
      requires Valid() && destructor.DStopping?
      ensures destructor.i < |stops|
    {
    }

    lemma AllStopped()
      requires Valid() && destructor == DDone
      ensures forall w :: 0 <= w < |stops| ==> stops[w]
    {
    }

    /** The destructor up to the joins: every stop flag set, then one notify_all. */
    method Destroy(env: seq<Slice<T>>)
      requires Valid() && destructor == DIdle && forall c :: 0 <= c < |clients| ==> clients[c].EIdle?
      modifies this
      ensures Valid() && old(history) <= history
      ensures destructor == DDone && forall w :: 0 <= w < |stops| ==> stops[w]
    {
      hide Inv, Run, Apply, Enabled, Valid;
      BeginDestroy();
      var k := Yield(env, 0, DestructorRole);
      while destructor != DNotify
        invariant Valid() && old(history) <= history
        invariant destructor.DStopping? || destructor == DNotify
        decreases if destructor.DStopping? then |stops| - destructor.i else -1
      {
        StopBounds();
        StopOne();
        k := Yield(env, k, DestructorRole);
      }
      NotifyEveryone();
      AllStopped();
    }
  }
}
