/**
 The start barrier and the completion counter of mysqlslap: run_scheduler and any number of
 run_task threads, as interleaved atomic steps over two mutexes and two condition variables.
 */
module SlapScheduler {
  import opened Helpers

  /** The scheduler's next step. */
  datatype MainPc =
    | LockCounter | ZeroCounter | LockSleeper | SetWakeup | UnlockSleeper
    | CreateThread | IncrementCounter | UnlockCounter
    | LockSleeperAgain | ClearWakeup | UnlockSleeperAgain | Broadcast
    | LockCounterAgain | TestCounter | Waiting | Woken | UnlockCounterAgain | Returned

  /** A task's next step. */
  datatype TaskPc =
    | Start | TestWakeup | Sleeping | Roused | Release
    | Working(queries: nat)
    | LockToFinish | Decrement | Signal | UnlockToFinish | Done

  datatype Owner = Main | Task(i: nat)

  /** How many queries each task is going to issue; one entry per thread. */
  datatype Config = Config(work: seq<nat>)

  datatype State = State(
    main: MainPc,
    created: nat,
    tasks: seq<TaskPc>,
    counterOwner: Option<Owner>,
    sleeperOwner: Option<Owner>,
    counter: int,
    wakeup: bool)

  /** A step of the scheduler or of a task, a timeout, or a wakeup without a signal. */
  datatype Event = MainRuns | TaskRuns(i: nat) | MainTimesOut | TaskWakes(i: nat)

  predicate Initial(cfg: Config, s: State) {
    s.main == LockCounter && s.created == 0 && s.tasks == [] && s.counterOwner.None? && s.sleeperOwner.None?
  }

  predicate MainEnabled(s: State) {
    match s.main
    case LockCounter => s.counterOwner.None?
    case LockCounterAgain => s.counterOwner.None?
    case Woken => s.counterOwner.None?
    case LockSleeper => s.sleeperOwner.None?
    case LockSleeperAgain => s.sleeperOwner.None?
    case Waiting => false
    case Returned => false
    case _ => true
  }

  predicate TaskEnabled(s: State, i: nat) {
    i < |s.tasks| &&
    match s.tasks[i]
    case Start => s.sleeperOwner.None?
    case Roused => s.sleeperOwner.None?
    case LockToFinish => s.counterOwner.None?
    case Sleeping => false
    case Done => false
    case _ => true
  }

  predicate Enabled(s: State, e: Event) {
    match e
    case MainRuns => MainEnabled(s)
    case TaskRuns(i) => TaskEnabled(s, i)
    case MainTimesOut => s.main == Waiting
    case TaskWakes(i) => i < |s.tasks| && s.tasks[i] == Sleeping
  }

  function Rouse(tasks: seq<TaskPc>): seq<TaskPc> {
    seq(|tasks|, i requires 0 <= i < |tasks| => if tasks[i] == Sleeping then Roused else tasks[i])
  }

  function MainStep(cfg: Config, s: State): State
    requires MainEnabled(s)
  {
    match s.main
    case LockCounter => s.(main := ZeroCounter, counterOwner := Some(Main))
    case ZeroCounter => s.(main := LockSleeper, counter := 0)
    case LockSleeper => s.(main := SetWakeup, sleeperOwner := Some(Main))
    case SetWakeup => s.(main := UnlockSleeper, wakeup := true)
    case UnlockSleeper => s.(main := CreateThread, sleeperOwner := None)
    case CreateThread =>
      if s.created < |cfg.work| then s.(main := IncrementCounter, tasks := s.tasks + [Start])
      else s.(main := UnlockCounter)
    case IncrementCounter => s.(main := CreateThread, counter := s.counter + 1, created := s.created + 1)
    case UnlockCounter => s.(main := LockSleeperAgain, counterOwner := None)
    case LockSleeperAgain => s.(main := ClearWakeup, sleeperOwner := Some(Main))
    case ClearWakeup => s.(main := UnlockSleeperAgain, wakeup := false)
    case UnlockSleeperAgain => s.(main := Broadcast, sleeperOwner := None)
    case Broadcast => s.(main := LockCounterAgain, tasks := Rouse(s.tasks))
    case LockCounterAgain => s.(main := TestCounter, counterOwner := Some(Main))
    case TestCounter =>
      if s.counter != 0 then s.(main := Waiting, counterOwner := None) else s.(main := UnlockCounterAgain)
    case Woken => s.(main := TestCounter, counterOwner := Some(Main))
    case UnlockCounterAgain => s.(main := Returned, counterOwner := None)
  }

  function WorkOf(cfg: Config, i: nat): nat {
    if i < |cfg.work| then cfg.work[i] else 0
  }

  /** What a task does next by itself, given its queries and whether the barrier is closed. */
  function NextPc(pc: TaskPc, work: nat, wakeup: bool): TaskPc
    requires pc != Sleeping && pc != Done
  {
    match pc
    case Start => TestWakeup
    case TestWakeup => if wakeup then Sleeping else Release
    case Roused => TestWakeup
    case Release => Working(work)
    case Working(n) => if n > 0 then Working(n - 1) else LockToFinish
    case LockToFinish => Decrement
    case Decrement => Signal
    case Signal => UnlockToFinish
    case UnlockToFinish => Done
  }

  function TaskStep(cfg: Config, s: State, i: nat): State
    requires TaskEnabled(s, i)
  {
    var moved := s.(tasks := s.tasks[i := NextPc(s.tasks[i], WorkOf(cfg, i), s.wakeup)]);
    match s.tasks[i]
    case Start => moved.(sleeperOwner := Some(Task(i)))
    case TestWakeup => if s.wakeup then moved.(sleeperOwner := None) else moved
    case Roused => moved.(sleeperOwner := Some(Task(i)))
    case Release => moved.(sleeperOwner := None)
    case Working(_) => moved
    case LockToFinish => moved.(counterOwner := Some(Task(i)))
    case Decrement => moved.(counter := s.counter - 1)
    case Signal => moved.(main := if s.main == Waiting then Woken else s.main)
    case UnlockToFinish => moved.(counterOwner := None)
  }

  function Step(cfg: Config, s: State, e: Event): State
    requires Enabled(s, e)
  {
    match e
    case MainRuns => MainStep(cfg, s)
    case TaskRuns(i) => TaskStep(cfg, s, i)
    case MainTimesOut => s.(main := Woken)
    case TaskWakes(i) => s.(tasks := s.tasks[i := Roused])
  }

  ghost predicate Reaches(cfg: Config, s: State, run: seq<Event>, r: State)
    decreases |run|
  {
    if run == [] then r == s
    else Enabled(s, run[0]) && Reaches(cfg, Step(cfg, s, run[0]), run[1..], r)
  }

  // ---------- The invariant ----------

  /** The order of the scheduler's steps. */
  function Phase(pc: MainPc): nat {
    match pc
    case LockCounter => 0
    case ZeroCounter => 1
    case LockSleeper => 2
    case SetWakeup => 3
    case UnlockSleeper => 4
    case CreateThread => 5
    case IncrementCounter => 6
    case UnlockCounter => 7
    case LockSleeperAgain => 8
    case ClearWakeup => 9
    case UnlockSleeperAgain => 10
    case Broadcast => 11
    case LockCounterAgain => 12
    case TestCounter => 13
    case Waiting => 14
    case Woken => 15
    case UnlockCounterAgain => 16
    case Returned => 17
  }

  predicate MainHoldsCounter(pc: MainPc) {
    1 <= Phase(pc) <= 7 || pc == TestCounter || pc == UnlockCounterAgain
  }

  predicate MainHoldsSleeper(pc: MainPc) {
    pc == SetWakeup || pc == UnlockSleeper || pc == ClearWakeup || pc == UnlockSleeperAgain
  }

  predicate TaskHoldsCounter(pc: TaskPc) {
    pc == Decrement || pc == Signal || pc == UnlockToFinish
  }

  predicate TaskHoldsSleeper(pc: TaskPc) {
    pc == TestWakeup || pc == Release
  }

  /** Past the start barrier. */
  predicate PastBarrier(pc: TaskPc) {
    !(pc == Start || pc == TestWakeup || pc == Sleeping || pc == Roused)
  }

  /** Not yet counted out: such a task may still use the scheduler's context. */
  predicate Unfinished(pc: TaskPc) {
    !(pc == Signal || pc == UnlockToFinish || pc == Done)
  }

  function CountUnfinished(tasks: seq<TaskPc>): nat {
    if tasks == [] then 0
    else CountUnfinished(tasks[..|tasks| - 1]) + (if Unfinished(tasks[|tasks| - 1]) then 1 else 0)
  }

  predicate CounterMutex(s: State) {
    && (s.counterOwner == Some(Main) <==> MainHoldsCounter(s.main))
    && (forall i :: 0 <= i < |s.tasks| ==> (s.counterOwner == Some(Task(i)) <==> TaskHoldsCounter(s.tasks[i])))
    && (s.counterOwner.Some? && s.counterOwner.value.Task? ==> s.counterOwner.value.i < |s.tasks|)
  }

  predicate SleeperMutex(s: State) {
    && (s.sleeperOwner == Some(Main) <==> MainHoldsSleeper(s.main))
    && (forall i :: 0 <= i < |s.tasks| ==> (s.sleeperOwner == Some(Task(i)) <==> TaskHoldsSleeper(s.tasks[i])))
    && (s.sleeperOwner.Some? && s.sleeperOwner.value.Task? ==> s.sleeperOwner.value.i < |s.tasks|)
  }

  predicate Creation(cfg: Config, s: State) {
    && s.created <= |cfg.work|
    && |s.tasks| == (if s.main == IncrementCounter then s.created + 1 else s.created)
    && (s.main == IncrementCounter ==> s.created < |cfg.work|)
    && (Phase(s.main) < 5 ==> s.created == 0)
    && (Phase(s.main) > 6 ==> s.created == |cfg.work|)
  }

  predicate Barrier(s: State) {
    && (4 <= Phase(s.main) <= 9 ==> s.wakeup)
    && (Phase(s.main) > 9 ==> !s.wakeup)
    && (forall i :: 0 <= i < |s.tasks| && PastBarrier(s.tasks[i]) ==> Phase(s.main) > 9)
    && (forall i :: 0 <= i < |s.tasks| && s.tasks[i] == Sleeping ==> Phase(s.main) <= 11)
  }

  predicate Counting(s: State) {
    && (2 <= Phase(s.main) <= 6 ==> s.counter == s.created)
    && (Phase(s.main) > 6 ==> s.counter == CountUnfinished(s.tasks))
    && SignalComing(s)
    && (Phase(s.main) > 15 ==> s.counter == 0)
  }

  predicate AllDone(s: State) {
    forall i :: 0 <= i < |s.tasks| ==> s.tasks[i] == Done
  }

  /** The scheduler is past its final wait only when all tasks are done. */
  predicate Over(s: State) {
    Phase(s.main) > 15 ==> AllDone(s)
  }

  predicate Inv(cfg: Config, s: State) {
    CounterMutex(s) && SleeperMutex(s) && Creation(cfg, s) && Barrier(s) && Counting(s) && Over(s)
  }

  lemma {:induction false} CountUpdate(tasks: seq<TaskPc>, i: nat, pc: TaskPc)
    requires i < |tasks|
    ensures CountUnfinished(tasks[i := pc]) ==
            CountUnfinished(tasks) - (if Unfinished(tasks[i]) then 1 else 0) + (if Unfinished(pc) then 1 else 0)
  {
    var last := |tasks| - 1;
    if i == last {
      assert tasks[i := pc][..last] == tasks[..last];
    } else {
      assert tasks[i := pc][..last] == tasks[..last][i := pc];
      CountUpdate(tasks[..last], i, pc);
    }
  }

  lemma {:induction false} CountRouse(tasks: seq<TaskPc>)
    ensures CountUnfinished(Rouse(tasks)) == CountUnfinished(tasks)
  {
    if tasks == [] {
    } else {
      var last := |tasks| - 1;
      assert Rouse(tasks)[..last] == Rouse(tasks[..last]);
      CountRouse(tasks[..last]);
    }
  }

  lemma {:induction false} CountAll(tasks: seq<TaskPc>)
    ensures (forall i :: 0 <= i < |tasks| ==> Unfinished(tasks[i])) ==> CountUnfinished(tasks) == |tasks|
    ensures CountUnfinished(tasks) == 0 ==> forall i :: 0 <= i < |tasks| ==> !Unfinished(tasks[i])
  {
    if tasks == [] {
    } else {
      CountAll(tasks[..|tasks| - 1]);
    }
  }

  lemma MainKeepsCounterMutex(cfg: Config, s: State)
    requires CounterMutex(s) && MainEnabled(s)
    ensures CounterMutex(MainStep(cfg, s))
  {
    var r := MainStep(cfg, s);
    assert forall i :: 0 <= i < |s.tasks| ==> TaskHoldsCounter(r.tasks[i]) == TaskHoldsCounter(s.tasks[i]);
  }

  lemma MainKeepsSleeperMutex(cfg: Config, s: State)
    requires SleeperMutex(s) && MainEnabled(s)
    ensures SleeperMutex(MainStep(cfg, s))
  {
    var r := MainStep(cfg, s);
    assert forall i :: 0 <= i < |s.tasks| ==> TaskHoldsSleeper(r.tasks[i]) == TaskHoldsSleeper(s.tasks[i]);
  }

  lemma MainKeepsCreation(cfg: Config, s: State)
    requires Creation(cfg, s) && MainEnabled(s)
    ensures Creation(cfg, MainStep(cfg, s))
  {
  }

  lemma MainKeepsBarrier(cfg: Config, s: State)
    requires Creation(cfg, s) && Barrier(s) && MainEnabled(s)
    ensures Barrier(MainStep(cfg, s))
  {
    var r := MainStep(cfg, s);
    assert forall i :: 0 <= i < |s.tasks| ==> PastBarrier(r.tasks[i]) == PastBarrier(s.tasks[i]);
    assert Phase(r.main) >= Phase(s.main) || s.main == Woken || s.main == IncrementCounter;
  }

  lemma MainKeepsCount(cfg: Config, s: State)
    requires Creation(cfg, s) && Barrier(s) && Counting(s) && MainEnabled(s)
    ensures Counting(MainStep(cfg, s))
  {
    if s.main == CreateThread {
      assert forall i :: 0 <= i < |s.tasks| ==> Unfinished(s.tasks[i]);
      CountAll(s.tasks);
    } else if s.main == Broadcast {
      CountRouse(s.tasks);
    } else {
      assert MainStep(cfg, s).tasks == s.tasks;
    }
  }

  lemma MainKeepsOver(cfg: Config, s: State)
    requires CounterMutex(s) && Counting(s) && Over(s) && MainEnabled(s)
    ensures Over(MainStep(cfg, s))
  {
    if s.main == TestCounter && s.counter == 0 {
      CountAll(s.tasks);
      forall i | 0 <= i < |s.tasks|
        ensures s.tasks[i] == Done
      {
        assert !Unfinished(s.tasks[i]) && !TaskHoldsCounter(s.tasks[i]);
      }
    }
  }

  lemma TaskKeepsOver(cfg: Config, s: State, i: nat)
    requires Over(s) && TaskEnabled(s, i)
    ensures Over(TaskStep(cfg, s, i))
  {
    assert s.tasks[i] != Done;
  }

  lemma TaskKeepsCounterMutex(cfg: Config, s: State, i: nat)
    requires CounterMutex(s) && TaskEnabled(s, i)
    ensures CounterMutex(TaskStep(cfg, s, i))
  {
  }

  lemma TaskKeepsSleeperMutex(cfg: Config, s: State, i: nat)
    requires SleeperMutex(s) && TaskEnabled(s, i)
    ensures SleeperMutex(TaskStep(cfg, s, i))
  {
  }

  lemma TaskKeepsCreation(cfg: Config, s: State, i: nat)
    requires Creation(cfg, s) && TaskEnabled(s, i)
    ensures Creation(cfg, TaskStep(cfg, s, i))
  {
  }

  lemma TaskKeepsBarrier(cfg: Config, s: State, i: nat)
    requires Creation(cfg, s) && Barrier(s) && TaskEnabled(s, i)
    ensures Barrier(TaskStep(cfg, s, i))
  {
    var r := TaskStep(cfg, s, i);
    assert forall k :: 0 <= k < |s.tasks| && k != i ==> r.tasks[k] == s.tasks[k];
  }

  /** A waiting scheduler with nothing left to wait for has a signal coming. */
  predicate SignalComing(s: State) {
    s.main == Waiting && s.counter == 0 ==> exists i :: 0 <= i < |s.tasks| && s.tasks[i] == Signal
  }

  lemma TaskKeepsSignal(cfg: Config, s: State, i: nat)
    requires SignalComing(s) && TaskEnabled(s, i)
    ensures SignalComing(TaskStep(cfg, s, i))
  {
    var r := TaskStep(cfg, s, i);
    if r.main == Waiting && r.counter == 0 {
      if s.counter == 0 {
        var k :| 0 <= k < |s.tasks| && s.tasks[k] == Signal;
        assert r.tasks[k] == Signal;
      } else {
        assert r.tasks[i] == Signal;
      }
    }
  }

  lemma TaskKeepsCount(cfg: Config, s: State, i: nat)
    requires Barrier(s) && Counting(s) && TaskEnabled(s, i)
    ensures Counting(TaskStep(cfg, s, i))
  {
    TaskKeepsSignal(cfg, s, i);
    TaskCounted(cfg, s, i);
  }

  /** A task's step changes the counter and the number of unfinished tasks by the same. */
  lemma TaskCounted(cfg: Config, s: State, i: nat)
    requires TaskEnabled(s, i)
    ensures var r := TaskStep(cfg, s, i);
            r.counter - s.counter == CountUnfinished(r.tasks) - CountUnfinished(s.tasks)
    ensures s.tasks[i] != Decrement ==> TaskStep(cfg, s, i).counter == s.counter
  {
    var r := TaskStep(cfg, s, i);
    CountUpdate(s.tasks, i, r.tasks[i]);
    assert r.counter - s.counter == if s.tasks[i] == Decrement then -1 else 0;
  }

  lemma TimeoutKeepsInv(cfg: Config, s: State)
    requires Inv(cfg, s) && s.main == Waiting
    ensures Inv(cfg, s.(main := Woken))
  {
  }

  lemma WakeupKeepsInv(cfg: Config, s: State, i: nat)
    requires Inv(cfg, s) && i < |s.tasks| && s.tasks[i] == Sleeping
    ensures Inv(cfg, s.(tasks := s.tasks[i := Roused]))
  {
    var r := s.(tasks := s.tasks[i := Roused]);
    CountUpdate(s.tasks, i, Roused);
    assert CounterMutex(r) && SleeperMutex(r);
    assert Creation(cfg, r) && Barrier(r);
    assert s.main != Waiting;
  }

  lemma StepKeepsInv(cfg: Config, s: State, e: Event)
    requires Inv(cfg, s) && Enabled(s, e)
    ensures Inv(cfg, Step(cfg, s, e))
  {
    match e
    case MainRuns =>
      MainKeepsCounterMutex(cfg, s);
      MainKeepsSleeperMutex(cfg, s);
      MainKeepsCreation(cfg, s);
      MainKeepsBarrier(cfg, s);
      MainKeepsCount(cfg, s);
      MainKeepsOver(cfg, s);
    case TaskRuns(i) =>
      TaskKeepsCounterMutex(cfg, s, i);
      TaskKeepsSleeperMutex(cfg, s, i);
      TaskKeepsCreation(cfg, s, i);
      TaskKeepsBarrier(cfg, s, i);
      TaskKeepsCount(cfg, s, i);
      TaskKeepsOver(cfg, s, i);
    case MainTimesOut => TimeoutKeepsInv(cfg, s);
    case TaskWakes(i) => WakeupKeepsInv(cfg, s, i);
  }

  lemma {:induction false} RunKeepsInv(cfg: Config, s: State, run: seq<Event>, r: State)
    requires Inv(cfg, s) && Reaches(cfg, s, run, r)
    ensures Inv(cfg, r)
    decreases |run|
  {
    if run == [] {
    } else {
      StepKeepsInv(cfg, s, run[0]);
      RunKeepsInv(cfg, Step(cfg, s, run[0]), run[1..], r);
    }
  }

  // ---------- Safety, in every interleaving ----------

  /** The step issues a query. */
  predicate IssuesQuery(s: State, e: Event) {
    e.TaskRuns? && e.i < |s.tasks| && s.tasks[e.i].Working? && s.tasks[e.i].queries > 0
  }

  /** No task issues a query before all threads have been created. */
  lemma NoQueryBeforeAllCreated(cfg: Config, s: State, run: seq<Event>, r: State, e: Event)
    requires Initial(cfg, s) && Reaches(cfg, s, run, r) && Enabled(r, e) && IssuesQuery(r, e)
    ensures |r.tasks| == |cfg.work|
  {
    RunKeepsInv(cfg, s, run, r);
    assert PastBarrier(r.tasks[e.i]);
  }

  /** Once all threads are created and the mutex is free, the counter is the number of unfinished tasks. */
  lemma CounterCountsUnfinished(cfg: Config, s: State, run: seq<Event>, r: State)
    requires Initial(cfg, s) && Reaches(cfg, s, run, r)
    requires |r.tasks| == |cfg.work| && r.counterOwner.None? && r.main != LockCounter
    ensures r.counter == CountUnfinished(r.tasks)
  {
    RunKeepsInv(cfg, s, run, r);
  }

  /**
   The scheduler returns only when every task has left the mutex for good, so its stack-allocated
   context is no longer used.
   */
  lemma ReturnsAfterAllTasks(cfg: Config, s: State, run: seq<Event>, r: State)
    requires Initial(cfg, s) && Reaches(cfg, s, run, r) && r.main == Returned
    ensures |r.tasks| == |cfg.work|
    ensures forall i :: 0 <= i < |r.tasks| ==> r.tasks[i] == Done
  {
    RunKeepsInv(cfg, s, run, r);
  }

  // ---------- Progress, without timeouts and spurious wakeups ----------

  predicate Finished(s: State) {
    s.main == Returned && AllDone(s)
  }

  lemma {:induction false} SomeUnfinished(tasks: seq<TaskPc>) returns (i: nat)
    requires CountUnfinished(tasks) > 0
    ensures i < |tasks| && Unfinished(tasks[i])
  {
    var last := |tasks| - 1;
    if Unfinished(tasks[last]) {
      i := last;
    } else {
      i := SomeUnfinished(tasks[..last]);
    }
  }

  /** While the scheduler waits and no lock is held, an unfinished task can run. */
  lemma TaskCanRun(cfg: Config, s: State) returns (i: nat)
    requires Inv(cfg, s) && s.main == Waiting && s.counterOwner.None? && s.sleeperOwner.None?
    ensures TaskEnabled(s, i)
  {
    assert s.counter != 0;
    i := SomeUnfinished(s.tasks);
    assert !TaskHoldsCounter(s.tasks[i]) && !TaskHoldsSleeper(s.tasks[i]) && s.tasks[i] != Sleeping;
  }

  /** The holder of a mutex can run, unless it waits for the other one. */
  lemma HolderCanRun(cfg: Config, s: State) returns (e: Event)
    requires Inv(cfg, s) && (s.counterOwner.Some? || s.sleeperOwner.Some?)
    ensures Enabled(s, e) && (e.MainRuns? || e.TaskRuns?)
  {
    if s.sleeperOwner.Some? {
      e := if s.sleeperOwner == Some(Main) then MainRuns else TaskRuns(s.sleeperOwner.value.i);
    } else {
      e := if s.counterOwner == Some(Main) then MainRuns else TaskRuns(s.counterOwner.value.i);
    }
  }

  /** No wakeup is lost and no lock is left held: until all is over, somebody can run. */
  lemma SomebodyCanRun(cfg: Config, s: State) returns (e: Event)
    requires Inv(cfg, s) && !Finished(s)
    ensures Enabled(s, e) && (e.MainRuns? || e.TaskRuns?)
  {
    if s.counterOwner.Some? || s.sleeperOwner.Some? {
      e := HolderCanRun(cfg, s);
    } else if s.main == Waiting {
      var i := TaskCanRun(cfg, s);
      e := TaskRuns(i);
    } else {
      e := MainRuns;
    }
  }

  /** A bound on the steps a task can still take, given its queries and whether the barrier is closed. */
  function TaskRank(pc: TaskPc, work: nat, wakeup: bool): nat {
    match pc
    case Done => 0
    case UnlockToFinish => 1
    case Signal => 4
    case Decrement => 5
    case LockToFinish => 6
    case Working(n) => 7 + n
    case Release => 8 + work
    case Sleeping => 10 + work
    case TestWakeup => (if wakeup then 11 else 9) + work
    case Roused => (if wakeup then 12 else 10) + work
    case Start => (if wakeup then 12 else 10) + work
  }

  function TaskRanks(cfg: Config, tasks: seq<TaskPc>, wakeup: bool): nat {
    if tasks == [] then 0
    else
      var last := |tasks| - 1;
      TaskRanks(cfg, tasks[..last], wakeup) + TaskRank(tasks[last], WorkOf(cfg, last), wakeup)
  }

  /** What creating the remaining threads adds. */
  function CreationRank(cfg: Config, created: nat): nat
    decreases |cfg.work| - created
  {
    if created >= |cfg.work| then 0 else 15 + cfg.work[created] + CreationRank(cfg, created + 1)
  }

  function MainRank(cfg: Config, pc: MainPc, created: nat): nat {
    match pc
    case Returned => 0
    case UnlockCounterAgain => 1
    case Waiting => 2
    case TestCounter => 3
    case Woken => 4
    case LockCounterAgain => 4
    case Broadcast => 5
    case UnlockSleeperAgain => 6
    case ClearWakeup => 7
    case LockSleeperAgain => 8
    case UnlockCounter => 9
    case CreateThread => 10 + CreationRank(cfg, created)
    case IncrementCounter => 11 + CreationRank(cfg, created + 1)
    case UnlockSleeper => 11 + CreationRank(cfg, created)
    case SetWakeup => 12 + CreationRank(cfg, created)
    case LockSleeper => 13 + CreationRank(cfg, created)
    case ZeroCounter => 14 + CreationRank(cfg, created)
    case LockCounter => 15 + CreationRank(cfg, created)
  }

  function Measure(cfg: Config, s: State): nat {
    MainRank(cfg, s.main, s.created) + TaskRanks(cfg, s.tasks, s.wakeup)
  }

  lemma {:induction false} RankUpdate(cfg: Config, tasks: seq<TaskPc>, wakeup: bool, i: nat, pc: TaskPc)
    requires i < |tasks|
    ensures TaskRanks(cfg, tasks[i := pc], wakeup) + TaskRank(tasks[i], WorkOf(cfg, i), wakeup) ==
            TaskRanks(cfg, tasks, wakeup) + TaskRank(pc, WorkOf(cfg, i), wakeup)
  {
    var last := |tasks| - 1;
    if i == last {
      assert tasks[i := pc][..last] == tasks[..last];
    } else {
      assert tasks[i := pc][..last] == tasks[..last][i := pc];
      RankUpdate(cfg, tasks[..last], wakeup, i, pc);
    }
  }

  lemma {:induction false} RankRouse(cfg: Config, tasks: seq<TaskPc>)
    ensures TaskRanks(cfg, Rouse(tasks), false) == TaskRanks(cfg, tasks, false)
  {
    if tasks == [] {
    } else {
      var last := |tasks| - 1;
      assert Rouse(tasks)[..last] == Rouse(tasks[..last]);
      RankRouse(cfg, tasks[..last]);
    }
  }

  lemma {:induction false} RankOpen(cfg: Config, tasks: seq<TaskPc>)
    ensures TaskRanks(cfg, tasks, false) <= TaskRanks(cfg, tasks, true)
  {
    if tasks == [] {
    } else {
      RankOpen(cfg, tasks[..|tasks| - 1]);
    }
  }

  lemma CreateDecreases(cfg: Config, s: State)
    requires Creation(cfg, s) && Barrier(s) && s.main == CreateThread
    ensures Measure(cfg, MainStep(cfg, s)) < Measure(cfg, s)
  {
    if s.created < |cfg.work| {
      assert (s.tasks + [Start])[..|s.tasks|] == s.tasks;
      assert CreationRank(cfg, s.created) == 15 + cfg.work[s.created] + CreationRank(cfg, s.created + 1);
    }
  }

  /** Apart from creating threads, main only moves on. */
  lemma MovingOn(cfg: Config, s: State)
    requires MainEnabled(s) && s.main != CreateThread
    ensures var r := MainStep(cfg, s); MainRank(cfg, r.main, r.created) < MainRank(cfg, s.main, s.created)
  {
  }

  lemma MainDecreases(cfg: Config, s: State)
    requires Creation(cfg, s) && Barrier(s) && MainEnabled(s)
    ensures Measure(cfg, MainStep(cfg, s)) < Measure(cfg, s)
  {
    if s.main == CreateThread {
      CreateDecreases(cfg, s);
    } else {
      MovingOn(cfg, s);
      SameRanks(cfg, s);
    }
  }

  lemma SameRanks(cfg: Config, s: State)
    requires Creation(cfg, s) && Barrier(s) && MainEnabled(s) && s.main != CreateThread
    ensures var r := MainStep(cfg, s); TaskRanks(cfg, r.tasks, r.wakeup) <= TaskRanks(cfg, s.tasks, s.wakeup)
  {
    match s.main
    case ClearWakeup => RankOpen(cfg, s.tasks);
    case Broadcast => RankRouse(cfg, s.tasks);
    case _ =>
  }

  lemma NextPcRank(pc: TaskPc, work: nat, wakeup: bool)
    requires pc != Sleeping && pc != Done
    ensures TaskRank(NextPc(pc, work, wakeup), work, wakeup) + (if pc == Signal then 3 else 1) <=
            TaskRank(pc, work, wakeup)
  {
  }

  lemma TaskDecreases(cfg: Config, s: State, i: nat)
    requires TaskEnabled(s, i)
    ensures Measure(cfg, TaskStep(cfg, s, i)) < Measure(cfg, s)
  {
    var r := TaskStep(cfg, s, i);
    var pc := NextPc(s.tasks[i], WorkOf(cfg, i), s.wakeup);
    NextPcRank(s.tasks[i], WorkOf(cfg, i), s.wakeup);
    assert r.tasks == s.tasks[i := pc] && r.wakeup == s.wakeup && r.created == s.created;
    RankUpdate(cfg, s.tasks, s.wakeup, i, pc);
    assert MainRank(cfg, r.main, r.created) <=
           MainRank(cfg, s.main, s.created) + (if s.tasks[i] == Signal then 2 else 0);
  }

  lemma StepDecreases(cfg: Config, s: State, e: Event)
    requires Inv(cfg, s) && Enabled(s, e) && (e.MainRuns? || e.TaskRuns?)
    ensures Measure(cfg, Step(cfg, s, e)) < Measure(cfg, s)
  {
    if e.MainRuns? {
      MainDecreases(cfg, s);
    } else {
      TaskDecreases(cfg, s, e.i);
    }
  }

  predicate Quiet(run: seq<Event>) {
    forall k :: 0 <= k < |run| ==> run[k].MainRuns? || run[k].TaskRuns?
  }

  /** Every run without timeouts and spurious wakeups ends, within a bound known at the start. */
  lemma {:induction false} QuietRunsAreBounded(cfg: Config, s: State, run: seq<Event>, r: State)
    requires Inv(cfg, s) && Reaches(cfg, s, run, r) && Quiet(run)
    ensures |run| + Measure(cfg, r) <= Measure(cfg, s)
    decreases |run|
  {
    if run == [] {
    } else {
      StepDecreases(cfg, s, run[0]);
      StepKeepsInv(cfg, s, run[0]);
      QuietRunsAreBounded(cfg, Step(cfg, s, run[0]), run[1..], r);
    }
  }

  /** And where it cannot go on, the scheduler has returned and every task is done. */
  lemma StuckMeansFinished(cfg: Config, s: State, run: seq<Event>, r: State)
    requires Initial(cfg, s) && Reaches(cfg, s, run, r)
    requires !MainEnabled(r) && forall i :: 0 <= i < |r.tasks| ==> !TaskEnabled(r, i)
    ensures Finished(r)
  {
    RunKeepsInv(cfg, s, run, r);
    if !Finished(r) {
      var e := SomebodyCanRun(cfg, r);
      assert false;
    }
  }
}
