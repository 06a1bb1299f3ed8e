/** ThreadPool: a caller dispatches tasks to n workers through a mutex, two condition variables, a generation counter
    and an atomic count.  One step is one mutex section, one atomic operation, one wake-up or one task run; steps
    interleave arbitrarily and waiters may wake up spuriously. */
module ThreadPool {
  import opened Bags
  import opened Options

  type Task = nat                               // which function was dispatched

  datatype Holder = Free | ByCaller | ByWorker(i: nat)

  /** worker_loop.  Testing evaluates the wait predicate, Blocking is about to sleep; both hold the mutex. */
  datatype WorkerPc =
    | Locking | Testing | Blocking | Waiting | Running | Counting | NotifyLocking | Notifying | Unlocking | Exited

  datatype Worker = Worker(pc: WorkerPc, myGeneration: nat, localTask: Task, log: seq<Task>)

  /** The thread that owns the pool: run_parallel, and the destructor. */
  datatype CallerPc =
    | Idle | Dispatching(t: Task) | NotifyingAll | Relocking | CallerTesting | CallerBlocking | CallerWaiting
    | ShuttingDown | NotifyingShutdown | Joining | Gone

  datatype State = State(
    workers: seq<Worker>, caller: CallerPc, mutex: Holder,
    task: Task, generation: nat, activeCount: nat, shutdown: bool,
    dispatched: seq<Task>)                      // history: every task passed to run_parallel

  datatype Action =
    | Call(t: Task) | Destroy | CallerMoves | WorkerMoves(i: nat) | CallerSpurious | WorkerSpurious(i: nat)

  function Init(n: nat): State {
    State(seq(n, i => Worker(Locking, 0, 0, [])), Idle, Free, 0, 0, 0, false, [])
  }

  function WakeAll(workers: seq<Worker>): seq<Worker> {
    seq(|workers|, (i: int) requires 0 <= i < |workers| =>
      if workers[i].pc.Waiting? then workers[i].(pc := Locking) else workers[i])
  }

  /** The next state; None if the action is not enabled. */
  function Step(s: State, a: Action): Option<State> {
    match a
    case Call(t) => if s.caller.Idle? then Some(s.(caller := Dispatching(t))) else None
    case Destroy => if s.caller.Idle? then Some(s.(caller := ShuttingDown)) else None
    case CallerMoves => CallerStep(s)
    case WorkerMoves(i) => if i < |s.workers| then WorkerStep(s, i) else None
    case CallerSpurious => if s.caller.CallerWaiting? then Some(s.(caller := Relocking)) else None
    case WorkerSpurious(i) =>
      if i < |s.workers| && s.workers[i].pc.Waiting?
      then Some(s.(workers := s.workers[i := s.workers[i].(pc := Locking)]))
      else None
  }

  function CallerStep(s: State): Option<State> {
    match s.caller
    case Dispatching(t) =>
      if s.mutex.Free? then
        Some(s.(task := t, activeCount := |s.workers|, generation := s.generation + 1, dispatched := s.dispatched + [t],
                caller := NotifyingAll))
      else None
    case NotifyingAll => Some(s.(workers := WakeAll(s.workers), caller := Relocking))
    case Relocking => if s.mutex.Free? then Some(s.(mutex := ByCaller, caller := CallerTesting)) else None
    case CallerTesting =>
      if s.activeCount == 0 then Some(s.(mutex := Free, caller := Idle)) else Some(s.(caller := CallerBlocking))
    case CallerBlocking => Some(s.(mutex := Free, caller := CallerWaiting))
    case ShuttingDown => if s.mutex.Free? then Some(s.(shutdown := true, caller := NotifyingShutdown)) else None
    case NotifyingShutdown => Some(s.(workers := WakeAll(s.workers), caller := Joining))
    case Joining => if forall i :: 0 <= i < |s.workers| ==>
      s.workers[i].pc.Exited? then Some(s.(caller := Gone)) else None
    case _ => None
  }

  function WorkerStep(s: State, i: nat): Option<State>
    requires i < |s.workers|
  {
    var w := s.workers[i];
    match w.pc
    case Locking => if s.mutex.Free? then Some(Moved(s, i, w.(pc := Testing)).(mutex := ByWorker(i))) else None
    case Testing =>
      if s.shutdown then Some(Moved(s, i, w.(pc := Exited)).(mutex := Free))
      else if s.generation > w.myGeneration then
        Some(Moved(s, i, w.(pc := Running, myGeneration := s.generation, localTask := s.task)).(mutex := Free))
      else Some(Moved(s, i, w.(pc := Blocking)))
    case Blocking => Some(Moved(s, i, w.(pc := Waiting)).(mutex := Free))
    case Running => Some(Moved(s, i, w.(pc := Counting, log := w.log + [w.localTask])))
    case Counting =>
      if s.activeCount == 0 then None
      else
        Some(Moved(s, i, w.(pc := if s.activeCount == 1 then NotifyLocking else Locking))
               .(activeCount := s.activeCount - 1))
    case NotifyLocking => if s.mutex.Free? then Some(Moved(s, i, w.(pc := Notifying)).(mutex := ByWorker(i))) else None
    case Notifying =>
      Some(Moved(s, i, w.(pc := Unlocking)).(caller := if s.caller.CallerWaiting? then Relocking else s.caller))
    case Unlocking => Some(Moved(s, i, w.(pc := Locking)).(mutex := Free))
    case _ => None
  }

  function Moved(s: State, i: nat, w: Worker): State
    requires i < |s.workers|
  {
    s.(workers := s.workers[i := w])
  }

  // The invariant.

  predicate InCall(c: CallerPc) {
    c.NotifyingAll? || c.Relocking? || c.CallerTesting? || c.CallerBlocking? || c.CallerWaiting?
  }

  predicate WillNotifyAll(c: CallerPc) {
    c.NotifyingAll? || c.NotifyingShutdown?
  }

  predicate HoldsMutex(pc: WorkerPc) {
    pc.Testing? || pc.Blocking? || pc.Notifying? || pc.Unlocking?
  }

  /** A worker that is not past the current generation. */
  predicate Lagging(w: Worker, generation: nat) {
    w.myGeneration < generation || w.pc.Running? || w.pc.Counting?
  }

  function Lag(w: Worker, generation: nat): nat {
    if Lagging(w, generation) then 1 else 0
  }

  function LagList(workers: seq<Worker>, generation: nat): seq<nat> {
    seq(|workers|, (i: int) requires 0 <= i < |workers| => Lag(workers[i], generation))
  }

  /** The worker will wake the caller. */
  predicate NotifierPending(w: Worker) {
    w.pc.NotifyLocking? || w.pc.Notifying?
  }

  ghost predicate WorkerOk(s: State, i: nat)
    requires i < |s.workers|
  {
    HistoryOk(s.workers[i], s.dispatched, s.generation) && StatusOk(s, i)
  }

  /** The worker has run the dispatched tasks, in order, each once, up to its own generation. */
  ghost predicate HistoryOk(w: Worker, dispatched: seq<Task>, generation: nat) {
    && w.myGeneration <= generation == |dispatched| && generation <= w.myGeneration + 1
    && (w.pc.Running? || w.pc.Counting? ==> w.myGeneration == generation > 0)
    && w.log == dispatched[..if w.pc.Running? then w.myGeneration - 1 else w.myGeneration]
    && (w.pc.Running? ==> w.localTask == dispatched[w.myGeneration - 1])
  }

  /** The worker goes to sleep, and stays asleep, only if there is nothing to do or a wake-up is on its way. */
  ghost predicate StatusOk(s: State, i: nat)
    requires i < |s.workers|
  {
    var w := s.workers[i];
    && (s.mutex == ByWorker(i) <==> HoldsMutex(w.pc))
    && (w.pc.Blocking? ==> !s.shutdown && w.myGeneration == s.generation)
    && (w.pc.Waiting? ==> (!s.shutdown && w.myGeneration == s.generation) || WillNotifyAll(s.caller))
    && (w.pc.Exited? ==> s.shutdown)
  }

  ghost predicate CallerOk(s: State) {
    && |s.dispatched| == s.generation && (s.dispatched != [] ==> s.task == s.dispatched[s.generation - 1])
    && (s.mutex == ByCaller <==> s.caller.CallerTesting? || s.caller.CallerBlocking?)
    && (s.mutex.ByWorker? ==> s.mutex.i < |s.workers|)
    && (s.shutdown <==> s.caller.NotifyingShutdown? || s.caller.Joining? || s.caller.Gone?)
    && (!InCall(s.caller) ==> s.activeCount == 0)
    && (s.caller.Gone? ==> forall i :: 0 <= i < |s.workers| ==> s.workers[i].pc.Exited?)
    && WakeupPending(s)
  }

  /** A caller that sleeps although the count is zero is about to be woken. */
  ghost predicate WakeupPending(s: State) {
    (s.caller.CallerBlocking? || s.caller.CallerWaiting?) && s.activeCount == 0 ==>
      exists i :: 0 <= i < |s.workers| && NotifierPending(s.workers[i])
  }

  ghost predicate Inv(s: State) {
    && CallerOk(s)
    && s.activeCount == Total(LagList(s.workers, s.generation))
    && forall i :: 0 <= i < |s.workers| ==> WorkerOk(s, i)
  }

  lemma InitInv(n: nat)
    ensures Inv(Init(n))
  {
    TotalZero(LagList(Init(n).workers, 0));
  }

  /** Count zero means that every worker is past the current generation. */
  lemma NobodyLags(s: State, i: nat)
    requires s.activeCount == Total(LagList(s.workers, s.generation)) && s.activeCount == 0 && i < |s.workers|
    ensures !Lagging(s.workers[i], s.generation)
  {
    TotalZero(LagList(s.workers, s.generation));
    assert LagList(s.workers, s.generation)[i] == 0;
  }

  lemma LagMoves(s: State, i: nat, w: Worker)
    requires i < |s.workers|
    ensures Total(LagList(s.workers[i := w], s.generation))
         == Total(LagList(s.workers, s.generation))
            - Lag(s.workers[i], s.generation) + Lag(w, s.generation)
  {
    var lags := LagList(s.workers, s.generation);
    TotalUpdate(lags, i, Lag(w, s.generation));
    assert LagList(s.workers[i := w], s.generation) == lags[i := Lag(w, s.generation)];
  }

  /** The count changes as the worker's lag does. */
  lemma WorkerLag(s: State, i: nat)
    requires i < |s.workers| && HistoryOk(s.workers[i], s.dispatched, s.generation) && WorkerStep(s, i).Some?
    ensures var s' := WorkerStep(s, i).value;
      && s'.workers == s.workers[i := s'.workers[i]] && s'.generation == s.generation
      && s'.activeCount + Lag(s.workers[i], s.generation) == s.activeCount + Lag(s'.workers[i], s.generation)
  {
    var w := s.workers[i];
    assert w.myGeneration <= s.generation && (w.pc.Running? || w.pc.Counting? ==> w.myGeneration == s.generation);
    hide HistoryOk;
  }

  lemma WorkerStepCount(s: State, i: nat)
    requires Inv(s) && i < |s.workers| && WorkerStep(s, i).Some?
    ensures var s' := WorkerStep(s, i).value; s'.activeCount == Total(LagList(s'.workers, s'.generation))
  {
    assert WorkerOk(s, i);
    WorkerLag(s, i);
    hide CallerOk, WorkerOk, WorkerStep;
    LagMoves(s, i, WorkerStep(s, i).value.workers[i]);
  }

  lemma WorkerStepHistory(s: State, i: nat)
    requires i < |s.workers| && HistoryOk(s.workers[i], s.dispatched, s.generation) && WorkerStep(s, i).Some?
    requires s.dispatched != [] ==> s.task == s.dispatched[|s.dispatched| - 1]
    ensures HistoryOk(WorkerStep(s, i).value.workers[i], s.dispatched, s.generation)
  {
    var w := s.workers[i];
    if w.pc.Running? {
      assert s.dispatched[..w.myGeneration] == s.dispatched[..w.myGeneration - 1] + [s.dispatched[w.myGeneration - 1]];
    }
  }

  lemma WorkerStepStatus(s: State, i: nat)
    requires i < |s.workers| && StatusOk(s, i) && WorkerStep(s, i).Some?
    requires s.workers[i].myGeneration <= s.generation
    ensures StatusOk(WorkerStep(s, i).value, i)
  {
  }

  lemma WorkerStepSelf(s: State, i: nat)
    requires i < |s.workers| && WorkerOk(s, i) && CallerOk(s) && WorkerStep(s, i).Some?
    ensures WorkerOk(WorkerStep(s, i).value, i)
  {
    WorkerStepHistory(s, i);
    WorkerStepStatus(s, i);
    WorkerLag(s, i);
    var s' := WorkerStep(s, i).value;
    assert s'.dispatched == s.dispatched;
  }

  lemma WorkerStepOther(s: State, i: nat, k: nat)
    requires i < |s.workers| && k < |s.workers| && k != i && WorkerOk(s, i) && WorkerOk(s, k) && WorkerStep(s, i).Some?
    ensures WorkerOk(WorkerStep(s, i).value, k)
  {
    var s', w, w' := WorkerStep(s, i).value, s.workers[k], WorkerStep(s, i).value.workers[k];
    assert w' == w && s'.generation == s.generation && s'.dispatched == s.dispatched && s'.shutdown == s.shutdown;
    assert s'.mutex == ByWorker(k) <==> s.mutex == ByWorker(k);
    hide WorkerStep, HistoryOk;
  }

  lemma WorkerStepCaller(s: State, i: nat)
    requires Inv(s) && i < |s.workers| && WorkerStep(s, i).Some?
    ensures CallerOk(WorkerStep(s, i).value)
  {
    assert WorkerOk(s, i);
    WorkerStepShape(s, i);
    WakeupStays(s, i);
    hide LagList, Total, WakeupPending, WorkerOk, WorkerStep;
  }

  /** What a worker's step leaves to the caller: it frees or takes the mutex for itself, and may wake the caller. */
  lemma WorkerStepShape(s: State, i: nat)
    requires i < |s.workers| && StatusOk(s, i) && WorkerStep(s, i).Some?
    ensures var s' := WorkerStep(s, i).value;
      && |s'.workers| == |s.workers| && s'.dispatched == s.dispatched && s'.generation == s.generation
      && s'.task == s.task && s'.shutdown == s.shutdown
      && (s'.mutex == s.mutex || (s.mutex.Free? && s'.mutex == ByWorker(i))
          || (s.mutex == ByWorker(i) && s'.mutex.Free?))
      && (s'.caller == s.caller || (s.caller.CallerWaiting? && s'.caller.Relocking?))
      && s'.activeCount <= s.activeCount && !s.workers[i].pc.Exited?
  {
  }

  lemma WakeupStays(s: State, i: nat)
    requires i < |s.workers| && StatusOk(s, i) && WakeupPending(s) && WorkerStep(s, i).Some?
    requires s.mutex == ByCaller <==> s.caller.CallerTesting? || s.caller.CallerBlocking?
    ensures WakeupPending(WorkerStep(s, i).value)
  {
    var s' := WorkerStep(s, i).value;
    if (s'.caller.CallerBlocking? || s'.caller.CallerWaiting?) && s'.activeCount == 0 {
      if s.activeCount != 0 {
        assert NotifierPending(s'.workers[i]);
      } else {
        var k :| 0 <= k < |s.workers| && NotifierPending(s.workers[k]);
        assert NotifierPending(s'.workers[k]);
      }
    }
  }

  lemma WorkerStepInv(s: State, i: nat)
    requires Inv(s) && i < |s.workers| && WorkerStep(s, i).Some?
    ensures Inv(WorkerStep(s, i).value)
  {
    WorkerStepCount(s, i);
    WorkerStepCaller(s, i);
    WorkerStepSelf(s, i);
    var s' := WorkerStep(s, i).value;
    assert |s'.workers| == |s.workers|;
    hide WorkerOk, CallerOk, LagList, Total, WorkerStep;
    forall k | 0 <= k < |s'.workers| ensures WorkerOk(s', k) {
      if k != i { WorkerStepOther(s, i, k); }
    }
  }

  /** A new task: every worker was past the old generation and is not past the new one. */
  lemma DispatchInv(s: State)
    requires Inv(s) && s.caller.Dispatching? && s.mutex.Free?
    ensures Inv(CallerStep(s).value)
  {
    var s' := CallerStep(s).value;
    forall i | 0 <= i < |s.workers| ensures WorkerOk(s', i) && Lagging(s'.workers[i], s'.generation) {
      NobodyLags(s, i);
      assert WorkerOk(s, i);
      assert s'.dispatched[..s.generation] == s.dispatched;
    }
    TotalOnes(LagList(s'.workers, s'.generation), 1);
  }

  /** notify_all on the start condition. */
  lemma NotifyAllInv(s: State)
    requires Inv(s) && WillNotifyAll(s.caller)
    ensures Inv(CallerStep(s).value)
  {
    var s' := CallerStep(s).value;
    forall i | 0 <= i < |s.workers| ensures WorkerOk(s', i) { assert WorkerOk(s, i); }
    assert LagList(s'.workers, s'.generation) == LagList(s.workers, s.generation);
    hide Total;
  }

  lemma CallerStepInv(s: State)
    requires Inv(s) && CallerStep(s).Some?
    ensures Inv(CallerStep(s).value)
  {
    hide LagList, Total, HistoryOk, WakeAll;
    if s.caller.Dispatching? {
      DispatchInv(s);
    } else if WillNotifyAll(s.caller) {
      NotifyAllInv(s);
    } else {
      var s' := CallerStep(s).value;
      assert s'.workers == s.workers;
      forall i | 0 <= i < |s.workers| ensures WorkerOk(s', i) { assert WorkerOk(s, i); }
    }
  }

  lemma WorkerWakesInv(s: State, i: nat)
    requires Inv(s) && i < |s.workers| && s.workers[i].pc.Waiting?
    ensures Inv(s.(workers := s.workers[i := s.workers[i].(pc := Locking)]))
  {
    var w := s.workers[i].(pc := Locking);
    var s' := s.(workers := s.workers[i := w]);
    LagMoves(s, i, w);
    hide LagList, Total;
    forall k | 0 <= k < |s.workers| ensures WorkerOk(s', k) { assert WorkerOk(s, k); }
    if (s.caller.CallerBlocking? || s.caller.CallerWaiting?) && s.activeCount == 0 {
      var k :| 0 <= k < |s.workers| && NotifierPending(s.workers[k]);
      assert NotifierPending(s'.workers[k]);
    }
  }

  /** The caller starts a call, starts to destroy the pool, or wakes up. */
  lemma CallerChangesInv(s: State, c: CallerPc)
    requires Inv(s)
    requires (s.caller.Idle? && (c.Dispatching? || c.ShuttingDown?)) || (s.caller.CallerWaiting? && c.Relocking?)
    ensures Inv(s.(caller := c))
  {
    hide LagList, Total, HistoryOk;
    var s' := s.(caller := c);
    forall i | 0 <= i < |s.workers| ensures WorkerOk(s', i) { assert WorkerOk(s, i); }
  }

  lemma StepInv(s: State, a: Action)
    requires Inv(s) && Step(s, a).Some?
    ensures Inv(Step(s, a).value) && |Step(s, a).value.workers| == |s.workers|
  {
    hide Inv;
    match a {
      case CallerMoves => CallerStepInv(s);
      case WorkerMoves(i) => WorkerStepInv(s, i);
      case WorkerSpurious(i) => WorkerWakesInv(s, i);
      case Call(t) => CallerChangesInv(s, Dispatching(t));
      case Destroy => CallerChangesInv(s, ShuttingDown);
      case CallerSpurious => CallerChangesInv(s, Relocking);
    }
  }
}
