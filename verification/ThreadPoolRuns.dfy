/** Runs of the thread pool: what holds after every schedule, and why every schedule comes to an end. */
module ThreadPoolRuns {
  import opened Bags
  import opened Options
  import opened ThreadPool

  function Run(s: State, actions: seq<Action>): Option<State> {
    if actions == [] then Some(s) else
      match Run(s, actions[..|actions| - 1])
      case Some(t) => Step(t, actions[|actions| - 1])
      case None => None
  }

  lemma InitWorkers(n: nat)
    ensures |Init(n).workers| == n
  {
  }

  /** Whatever the schedule, the invariant holds. */
  lemma {:induction false} RunInv(n: nat, actions: seq<Action>)
    requires Run(Init(n), actions).Some?
    ensures Inv(Run(Init(n), actions).value) && |Run(Init(n), actions).value.workers| == n
  {
    hide Inv, Step, Init;
    if actions == [] {
      InitInv(n);
      InitWorkers(n);
    } else {
      RunInv(n, actions[..|actions| - 1]);
      StepInv(Run(Init(n), actions[..|actions| - 1]).value, actions[|actions| - 1]);
    }
  }

  /** The tasks that a schedule passes to run_parallel, in order. */
  function Calls(actions: seq<Action>): seq<Task> {
    if actions == [] then [] else
      var a := actions[|actions| - 1];
      Calls(actions[..|actions| - 1]) + if a.Call? then [a.t] else []
  }

  /** Whether the caller has taken a task but not yet put it where the workers find it. */
  function Undispatched(c: CallerPc): seq<Task> {
    if c.Dispatching? then [c.t] else []
  }

  /** What has been dispatched is what was passed to run_parallel, but for a task that is just being dispatched. */
  lemma {:induction false} DispatchedIsCalls(n: nat, actions: seq<Action>)
    requires Run(Init(n), actions).Some?
    ensures var s := Run(Init(n), actions).value; s.dispatched + Undispatched(s.caller) == Calls(actions)
  {
    if actions != [] {
      var before, a := actions[..|actions| - 1], actions[|actions| - 1];
      DispatchedIsCalls(n, before);
      StepDispatches(Run(Init(n), before).value, a);
    }
  }

  lemma StepDispatches(s: State, a: Action)
    requires Step(s, a).Some?
    ensures var s' := Step(s, a).value;
      s'.dispatched + Undispatched(s'.caller) == s.dispatched + Undispatched(s.caller) + if a.Call? then [a.t] else []
  {
    hide WorkerStep, CallerStep;
    match a
    case CallerMoves => CallerDispatches(s);
    case WorkerMoves(i) => WorkerDispatches(s, i);
    case _ =>
  }

  lemma CallerDispatches(s: State)
    requires CallerStep(s).Some?
    ensures var s' := CallerStep(s).value;
      s'.dispatched + Undispatched(s'.caller) == s.dispatched + Undispatched(s.caller)
  {
    hide WakeAll;
  }

  lemma WorkerDispatches(s: State, i: nat)
    requires i < |s.workers| && WorkerStep(s, i).Some?
    ensures var s' := WorkerStep(s, i).value;
      s'.dispatched == s.dispatched && Undispatched(s'.caller) == Undispatched(s.caller)
  {
  }

  /** No worker ever runs a task that was not passed to run_parallel, or a stale one, or one twice, or skips one: its
      log is the list of the calls, except for at most the newest. */
  lemma LogsFollowDispatch(n: nat, actions: seq<Action>, i: nat)
    requires Run(Init(n), actions).Some? && i < n
    ensures var s, calls := Run(Init(n), actions).value, Calls(actions);
      && i < |s.workers|
      && (s.workers[i].log == calls || (calls != [] && s.workers[i].log == calls[..|calls| - 1]))
  {
    hide Run, Step, HistoryOk, StatusOk, Calls, LagList, Total, Lagging;
    RunInv(n, actions);
    var s := Run(Init(n), actions).value;
    assert WorkerOk(s, i);
    DispatchedIsCalls(n, actions);
    if s.caller.Dispatching? {
      NobodyLags(s, i);
      LogComplete(s.workers[i], s.dispatched, s.generation);
    } else {
      NewestTask(s);
      LogFollows(s.workers[i], s.dispatched, s.generation, s.task);
    }
  }

  /** Between calls, and during and after the destruction of the pool, every worker has run the tasks of all calls,
      each once and in the order of the calls; when the pool is gone, every worker has ended. */
  lemma BetweenCalls(n: nat, actions: seq<Action>, i: nat)
    requires Run(Init(n), actions).Some? && i < n
    requires var c := Run(Init(n), actions).value.caller; !InCall(c) && !c.Dispatching?
    ensures var s := Run(Init(n), actions).value; i < |s.workers| && s.workers[i].log == Calls(actions)
    ensures var s := Run(Init(n), actions).value; s.caller.Gone? ==> s.workers[i].pc.Exited?
  {
    hide Run, Step, HistoryOk, StatusOk, Calls, LagList, Total, Lagging;
    RunInv(n, actions);
    var s := Run(Init(n), actions).value;
    assert WorkerOk(s, i);
    DispatchedIsCalls(n, actions);
    NobodyLags(s, i);
    LogComplete(s.workers[i], s.dispatched, s.generation);
  }

  lemma LogComplete(w: Worker, dispatched: seq<Task>, generation: nat)
    requires HistoryOk(w, dispatched, generation) && !Lagging(w, generation)
    ensures w.log == dispatched
  {
  }

  lemma NewestTask(s: State)
    requires CallerOk(s)
    ensures |s.dispatched| == s.generation
    ensures s.dispatched != [] ==> s.dispatched[|s.dispatched| - 1] == s.task
  {
  }

  lemma LogFollows(w: Worker, dispatched: seq<Task>, generation: nat, task: Task)
    requires HistoryOk(w, dispatched, generation)
    requires dispatched != [] ==> dispatched[|dispatched| - 1] == task
    ensures w.log == dispatched || w.log + [task] == dispatched
  {
    if dispatched != [] {
      assert dispatched == dispatched[..|dispatched| - 1] + [task];
    }
  }

  /** The atomic count is the number of workers not yet past the current generation. */
  lemma CountIsLagging(n: nat, actions: seq<Action>)
    requires Run(Init(n), actions).Some?
    ensures var s := Run(Init(n), actions).value; s.activeCount == Total(LagList(s.workers, s.generation))
  {
    RunInv(n, actions);
  }

  /** run_parallel returns only when every worker has run the tasks of all calls so far, each exactly once. */
  lemma ReturnMeansDone(n: nat, actions: seq<Action>, i: nat)
    requires Run(Init(n), actions).Some? && i < n
    requires Run(Init(n), actions).value.caller.CallerTesting?
    requires CallerStep(Run(Init(n), actions).value).value.caller.Idle?
    ensures var s := Run(Init(n), actions).value; i < |s.workers| && s.workers[i].log == Calls(actions)
  {
    hide Run, HistoryOk, StatusOk, Calls, LagList, Total, Lagging;
    RunInv(n, actions);
    var s := Run(Init(n), actions).value;
    assert WorkerOk(s, i);
    DispatchedIsCalls(n, actions);
    NobodyLags(s, i);
    LogComplete(s.workers[i], s.dispatched, s.generation);
  }

  /** No lost wake-up: if the caller sleeps and the count is zero, some worker is about to wake it; if a worker
      sleeps and there is work or a shutdown, the caller is about to wake it. */
  lemma NoLostWakeup(n: nat, actions: seq<Action>)
    requires Run(Init(n), actions).Some?
    ensures var s := Run(Init(n), actions).value;
      && (s.caller.CallerWaiting? && s.activeCount == 0 ==>
            exists i :: 0 <= i < n == |s.workers| && NotifierPending(s.workers[i]))
      && forall i ::
           0 <= i < |s.workers| && s.workers[i].pc.Waiting? && (s.shutdown || s.workers[i].myGeneration < s.generation)
           ==> WillNotifyAll(s.caller)
  {
    RunInv(n, actions);
    var s := Run(Init(n), actions).value;
    hide Run, LagList, Total;
    forall i |
      0 <= i < |s.workers| && s.workers[i].pc.Waiting? && (s.shutdown || s.workers[i].myGeneration < s.generation)
      ensures WillNotifyAll(s.caller)
    {
      assert WorkerOk(s, i);
    }
  }

  // Progress.

  function WorkerRank(w: Worker, generation: nat): nat {
    var behind := if w.myGeneration < generation then 10 else 0;
    match w.pc
    case Exited => 0
    case Waiting => if behind > 0 then 14 else 0
    case Blocking => behind + 1
    case Testing => behind + 2
    case Locking => behind + 3
    case Unlocking => behind + 4
    case Notifying => behind + 8
    case NotifyLocking => behind + 9
    case Counting => 10
    case Running => 11
  }

  function CallerRank(c: CallerPc, n: nat): nat {
    match c
    case Idle => 0
    case Dispatching(_) => 5 + 17 * n
    case NotifyingAll => 4 + 3 * n
    case Relocking => 3
    case CallerTesting => 2
    case CallerBlocking => 1
    case CallerWaiting => 0
    case ShuttingDown => 3 + 3 * n
    case NotifyingShutdown => 2 + 3 * n
    case Joining => 1
    case Gone => 0
  }

  function Ranks(workers: seq<Worker>, generation: nat): seq<nat> {
    seq(|workers|, (i: int) requires 0 <= i < |workers| => WorkerRank(workers[i], generation))
  }

  /** How many moves can be left before everybody sleeps or has returned. */
  ghost function Measure(s: State): nat {
    Total(Ranks(s.workers, s.generation)) + CallerRank(s.caller, |s.workers|)
  }

  predicate IsMove(a: Action) {
    a.CallerMoves? || a.WorkerMoves?
  }

  lemma RankMoves(s: State, i: nat, w: Worker)
    requires i < |s.workers|
    ensures Total(Ranks(s.workers[i := w], s.generation))
         == Total(Ranks(s.workers, s.generation)) - WorkerRank(s.workers[i], s.generation) + WorkerRank(w, s.generation)
  {
    var ranks := Ranks(s.workers, s.generation);
    TotalUpdate(ranks, i, WorkerRank(w, s.generation));
    assert Ranks(s.workers[i := w], s.generation) == ranks[i := WorkerRank(w, s.generation)];
  }

  /** One worker step costs more rank than it can give the caller. */
  lemma WorkerRankDrops(s: State, i: nat)
    requires i < |s.workers| && WorkerOk(s, i) && WorkerStep(s, i).Some?
    ensures var s' := WorkerStep(s, i).value;
      && s'.workers == s.workers[i := s'.workers[i]] && s'.generation == s.generation
      && WorkerRank(s'.workers[i], s.generation) + CallerRank(s'.caller, |s.workers|)
         < WorkerRank(s.workers[i], s.generation) + CallerRank(s.caller, |s.workers|)
  {
    var w := s.workers[i];
    assert w.myGeneration <= s.generation && (w.pc.Running? || w.pc.Counting? ==> w.myGeneration == s.generation);
    hide HistoryOk;
  }

  lemma {:induction false} TotalAtMost(xs: seq<nat>, ys: seq<nat>, d: nat)
    requires |xs| == |ys| && forall i :: 0 <= i < |xs| ==> ys[i] <= xs[i] + d
    ensures Total(ys) <= Total(xs) + d * |xs|
  {
    if xs != [] { TotalAtMost(xs[..|xs| - 1], ys[..|ys| - 1], d); }
  }

  lemma CallerRankDrops(s: State)
    requires Inv(s) && CallerStep(s).Some?
    ensures Measure(CallerStep(s).value) < Measure(s)
  {
    hide Inv, WorkerRank, WakeAll, Total;
    var s', d := CallerStep(s).value, RankRise(s.caller);
    var xs, ys := Ranks(s.workers, s.generation), Ranks(s'.workers, s'.generation);
    CallerKeepsWorkers(s);
    forall i | 0 <= i < |s.workers| ensures ys[i] <= xs[i] + d { RankRises(s, i); }
    TotalAtMost(xs, ys, d);
  }

  /** How much a step of the caller may raise the rank of a worker. */
  function RankRise(c: CallerPc): nat {
    if c.Dispatching? then 14 else if WillNotifyAll(c) then 3 else 0
  }

  lemma CallerKeepsWorkers(s: State)
    requires CallerStep(s).Some?
    ensures |CallerStep(s).value.workers| == |s.workers|
  {
  }

  lemma RankRises(s: State, i: nat)
    requires Inv(s) && CallerStep(s).Some? && i < |s.workers|
    ensures var s' := CallerStep(s).value;
      && i < |s'.workers|
      && WorkerRank(s'.workers[i], s'.generation) <= WorkerRank(s.workers[i], s.generation) + RankRise(s.caller)
  {
    hide LagList, Total;
    assert WorkerOk(s, i);
    if s.caller.Dispatching? { NobodyLags(s, i); }
  }

  /** Every step that is not a spurious wake-up brings the pool closer to rest. */
  lemma MovesDecrease(s: State, a: Action)
    requires Inv(s) && IsMove(a) && Step(s, a).Some?
    ensures Measure(Step(s, a).value) < Measure(s)
  {
    match a {
      case CallerMoves => CallerRankDrops(s);
      case WorkerMoves(i) =>
        assert WorkerOk(s, i);
        WorkerRankDrops(s, i);
        RankMoves(s, i, WorkerStep(s, i).value.workers[i]);
        hide WorkerStep, Ranks, CallerRank, WorkerRank, WorkerOk, CallerOk;
    }
  }

  predicate CanMove(s: State) {
    CallerStep(s).Some? || exists i :: 0 <= i < |s.workers| && WorkerStep(s, i).Some?
  }

  /** No deadlock: until run_parallel has returned, or the destructor has finished, somebody can move. */
  lemma SomebodyCanMove(s: State)
    requires Inv(s) && !s.caller.Idle? && !s.caller.Gone?
    ensures CanMove(s)
  {
    if CallerStep(s).None? {
      var i := Mover(s);
      assert WorkerStep(s, i).Some?;
    }
  }

  lemma Mover(s: State) returns (i: nat)
    requires Inv(s) && !s.caller.Idle? && !s.caller.Gone? && CallerStep(s).None?
    ensures i < |s.workers| && WorkerStep(s, i).Some?
  {
    TotalZero(LagList(s.workers, s.generation));
    if s.mutex.ByWorker? {
      i := s.mutex.i;
      assert WorkerOk(s, i);
    } else if s.caller.CallerWaiting? && s.activeCount == 0 {
      i :| 0 <= i < |s.workers| && NotifierPending(s.workers[i]);
    } else if s.caller.CallerWaiting? {
      i :| 0 <= i < |s.workers| && LagList(s.workers, s.generation)[i] != 0;
      assert WorkerOk(s, i);
    } else {
      i :| 0 <= i < |s.workers| && !s.workers[i].pc.Exited?;
      assert WorkerOk(s, i);
      NobodyLags(s, i);
    }
  }

  /** A run without spurious wake-ups from s has at most Measure(s) steps, and when no move is left, run_parallel has
      returned or the pool is gone: every schedule of moves ends there. */
  lemma {:induction false} RunsEnd(s: State, actions: seq<Action>)
    requires Inv(s) && Run(s, actions).Some? && forall k :: 0 <= k < |actions| ==> IsMove(actions[k])
    ensures Inv(Run(s, actions).value) && |actions| + Measure(Run(s, actions).value) <= Measure(s)
    ensures !CanMove(Run(s, actions).value) ==> Run(s, actions).value.caller.Idle? || Run(s, actions).value.caller.Gone?
  {
    hide Inv, Step, Measure, CanMove;
    if actions != [] {
      var n := |actions| - 1;
      RunsEnd(s, actions[..n]);
      var t := Run(s, actions[..n]).value;
      StepInv(t, actions[n]);
      MovesDecrease(t, actions[n]);
    }
    var last := Run(s, actions).value;
    if !last.caller.Idle? && !last.caller.Gone? { SomebodyCanMove(last); }
  }
}
