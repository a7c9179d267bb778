/**
 The worker pool of mysqlimport: main starts one thread per table, at most a given number at a
 time, and waits for all of them; workers report failures through a shared exit code.
 */
module ImportPool {
  import opened Helpers

  /** What becomes of a table's worker. */
  datatype Job =
    | CannotCreate          // pthread_create fails
    | CannotStart           // the thread cannot initialise its client library
    | CannotConnect         // ends the whole program
    | CannotPrepare         // ends the whole program unless --force
    | Writes(error: nat)    // write_to_table returns this

  /** At most `threads` workers at a time; `force` keeps going after errors. */
  datatype Config = Config(threads: nat, force: bool, jobs: seq<Job>)

  datatype MainPc =
    | NextTable | Lock | TestFull | Waiting | Woken | Increment | Unlock | Create
    | LockFailed | DecrementFailed | UnlockFailed
    | LockFinal | TestFinal | WaitingFinal | WokenFinal | UnlockFinal | Returned

  datatype WorkerPc =
    | Absent | Begin | Write | CheckExit | SetExit
    | LockToFinish | Decrement | Signal | UnlockToFinish | Done

  datatype Owner = Main | Worker(i: nat)

  /** Worker i serves table i; an absent worker is a thread that could not be created. */
  datatype State = State(
    main: MainPc,
    workers: seq<WorkerPc>,
    owner: Option<Owner>,
    counter: int,
    exitcode: nat,
    exited: bool)           // the program has been ended by a worker

  datatype Event = MainRuns | WorkerRuns(i: nat) | MainTimesOut

  predicate Initial(s: State) {
    s == State(NextTable, [], None, 0, 0, false)
  }

  predicate MainEnabled(s: State) {
    !s.exited &&
    match s.main
    case Lock => s.owner.None?
    case LockFailed => s.owner.None?
    case LockFinal => s.owner.None?
    case Woken => s.owner.None?
    case WokenFinal => s.owner.None?
    case Waiting => false
    case WaitingFinal => false
    case Returned => false
    case _ => true
  }

  predicate WorkerEnabled(s: State, i: nat) {
    !s.exited && i < |s.workers| &&
    match s.workers[i]
    case LockToFinish => s.owner.None?
    case Absent => false
    case Done => false
    case _ => true
  }

  predicate Enabled(s: State, e: Event) {
    match e
    case MainRuns => MainEnabled(s)
    case WorkerRuns(i) => WorkerEnabled(s, i)
    case MainTimesOut => !s.exited && (s.main == Waiting || s.main == WaitingFinal)
  }

  function JobOf(cfg: Config, i: nat): Job {
    if i < |cfg.jobs| then cfg.jobs[i] else CannotCreate
  }

  function MainStep(cfg: Config, s: State): State
    requires MainEnabled(s)
  {
    match s.main
    case NextTable => s.(main := if |s.workers| < |cfg.jobs| then Lock else LockFinal)
    case Lock => s.(main := TestFull, owner := Some(Main))
    case TestFull => if s.counter == cfg.threads then s.(main := Waiting, owner := None) else s.(main := Increment)
    case Woken => s.(main := TestFull, owner := Some(Main))
    case Increment => s.(main := Unlock, counter := s.counter + 1)
    case Unlock => s.(main := Create, owner := None)
    case Create =>
      if JobOf(cfg, |s.workers|).CannotCreate? then s.(main := LockFailed, workers := s.workers + [Absent])
      else s.(main := NextTable, workers := s.workers + [Begin])
    case LockFailed => s.(main := DecrementFailed, owner := Some(Main))
    case DecrementFailed => s.(main := UnlockFailed, counter := s.counter - 1)
    case UnlockFailed => s.(main := NextTable, owner := None)
    case LockFinal => s.(main := TestFinal, owner := Some(Main))
    case TestFinal => if s.counter != 0 then s.(main := WaitingFinal, owner := None) else s.(main := UnlockFinal)
    case WokenFinal => s.(main := TestFinal, owner := Some(Main))
    case UnlockFinal => s.(main := Returned, owner := None)
  }

  /** The worker's own next step; the shared variables it reads are parameters. */
  function NextPc(pc: WorkerPc, job: Job, exitcode: nat): WorkerPc
    requires pc != Absent && pc != Done
  {
    match pc
    case Begin => if job.Writes? then Write else LockToFinish
    case Write => if job.Writes? && job.error != 0 then CheckExit else LockToFinish
    case CheckExit => if exitcode == 0 then SetExit else LockToFinish
    case SetExit => LockToFinish
    case LockToFinish => Decrement
    case Decrement => Signal
    case Signal => UnlockToFinish
    case UnlockToFinish => Done
  }

  /** The step ends the program with a failure status. */
  predicate EndsProgram(cfg: Config, pc: WorkerPc, job: Job) {
    || (pc == Begin && (job.CannotConnect? || (job.CannotPrepare? && !cfg.force)))
    || (pc == Write && job.Writes? && job.error != 0 && !cfg.force)
  }

  function WorkerStep(cfg: Config, s: State, i: nat): State
    requires WorkerEnabled(s, i)
  {
    var pc, job := s.workers[i], JobOf(cfg, i);
    if EndsProgram(cfg, pc, job) then s.(exited := true)
    else
      var moved := s.(workers := s.workers[i := NextPc(pc, job, s.exitcode)]);
      match pc
      case SetExit => moved.(exitcode := if job.Writes? then job.error else s.exitcode)
      case LockToFinish => moved.(owner := Some(Worker(i)))
      case Decrement => moved.(counter := s.counter - 1)
      case Signal =>
        moved.(main := if s.main == Waiting then Woken else if s.main == WaitingFinal then WokenFinal else s.main)
      case UnlockToFinish => moved.(owner := None)
      case _ => moved
  }

  function Step(cfg: Config, s: State, e: Event): State
    requires Enabled(s, e)
  {
    match e
    case MainRuns => MainStep(cfg, s)
    case WorkerRuns(i) => WorkerStep(cfg, s, i)
    case MainTimesOut => s.(main := if s.main == Waiting then Woken else WokenFinal)
  }

  ghost predicate Reaches(cfg: Config, s: State, run: seq<Event>, r: State)
    decreases |run|
  {
    if run == [] then r == s
    else Enabled(s, run[0]) && Reaches(cfg, Step(cfg, s, run[0]), run[1..], r)
  }

  // ---------- The invariant ----------

  predicate MainHolds(pc: MainPc) {
    pc == TestFull || pc == Increment || pc == Unlock || pc == DecrementFailed || pc == UnlockFailed
    || pc == TestFinal || pc == UnlockFinal
  }

  predicate WorkerHolds(pc: WorkerPc) {
    pc == Decrement || pc == Signal || pc == UnlockToFinish
  }

  predicate Live(pc: WorkerPc) {
    pc == Begin || pc == Write || pc == CheckExit || pc == SetExit || pc == LockToFinish || pc == Decrement
  }

  function CountLive(workers: seq<WorkerPc>): nat {
    if workers == [] then 0
    else CountLive(workers[..|workers| - 1]) + (if Live(workers[|workers| - 1]) then 1 else 0)
  }

  /** Main has counted a thread it has not created, or not yet discounted. */
  predicate Reserved(pc: MainPc) {
    pc == Unlock || pc == Create || pc == LockFailed || pc == DecrementFailed
  }

  predicate AtFinal(pc: MainPc) {
    pc == LockFinal || pc == TestFinal || pc == WaitingFinal || pc == WokenFinal || pc == UnlockFinal || pc == Returned
  }

  predicate Mutex(s: State) {
    && (s.owner == Some(Main) <==> MainHolds(s.main))
    && (forall i :: 0 <= i < |s.workers| ==> (s.owner == Some(Worker(i)) <==> WorkerHolds(s.workers[i])))
    && (s.owner.Some? && s.owner.value.Worker? ==> s.owner.value.i < |s.workers|)
  }

  /** What the counter must come down from before a waiting main thread has reason to go on. */
  function Threshold(cfg: Config, pc: MainPc): nat {
    if pc == Waiting then cfg.threads else if pc == WaitingFinal then 1 else 0
  }

  /** A waiting main thread with reason to go on has a signal coming. */
  predicate SignalComing(cfg: Config, s: State) {
    s.counter < Threshold(cfg, s.main) ==> exists i :: 0 <= i < |s.workers| && s.workers[i] == Signal
  }

  predicate Counting(cfg: Config, s: State) {
    && s.counter == CountLive(s.workers) + (if Reserved(s.main) then 1 else 0)
    && s.counter <= cfg.threads
    && (s.main == Increment ==> s.counter < cfg.threads)
    && SignalComing(cfg, s)
    && (s.main == UnlockFinal || s.main == Returned ==> s.counter == 0)
  }

  /** Main is about to start a worker. */
  predicate Starting(pc: MainPc) {
    pc == Lock || pc == TestFull || pc == Waiting || pc == Woken || pc == Increment || pc == Unlock || pc == Create
  }

  predicate Tables(cfg: Config, s: State) {
    && |s.workers| <= |cfg.jobs|
    && (AtFinal(s.main) ==> |s.workers| == |cfg.jobs|)
    && (Starting(s.main) ==> |s.workers| < |cfg.jobs|)
  }

  predicate Fails(job: Job) {
    job.Writes? && job.error != 0
  }

  /** The worker has been through write_to_table. */
  predicate Wrote(pc: WorkerPc, job: Job) {
    job.Writes? && pc != Absent && pc != Begin && pc != Write
  }

  /** What worker i has done so far agrees with its job. */
  predicate FollowsJob(pc: WorkerPc, job: Job) {
    && (pc == Absent <==> job.CannotCreate?)
    && (pc == Write ==> job.Writes?)
    && (pc == CheckExit || pc == SetExit ==> Fails(job))
  }

  /** The worker has seen its failure and is past reporting it. */
  predicate Reported(pc: WorkerPc, job: Job) {
    Fails(job) && Wrote(pc, job) && pc != CheckExit && pc != SetExit
  }

  predicate FollowJobs(cfg: Config, s: State) {
    forall i :: 0 <= i < |s.workers| ==> FollowsJob(s.workers[i], JobOf(cfg, i))
  }

  predicate SomeFailed(cfg: Config, s: State) {
    exists i :: 0 <= i < |s.workers| && Fails(JobOf(cfg, i)) && Wrote(s.workers[i], JobOf(cfg, i))
  }

  predicate Codes(cfg: Config, s: State) {
    && FollowJobs(cfg, s)
    && (forall i :: 0 <= i < |s.workers| && Reported(s.workers[i], JobOf(cfg, i)) ==> s.exitcode != 0)
    && (s.exitcode != 0 ==> SomeFailed(cfg, s))
  }

  /** The thread has ended or was never created: it touches neither the mutex nor the counter any more. */
  predicate Gone(pc: WorkerPc) {
    pc == Done || pc == Absent
  }

  predicate AllGone(s: State) {
    forall i :: 0 <= i < |s.workers| ==> Gone(s.workers[i])
  }

  /** Main is past its final wait only when all workers are gone. */
  predicate Over(s: State) {
    s.main == UnlockFinal || s.main == Returned ==> AllGone(s)
  }

  predicate Inv(cfg: Config, s: State) {
    cfg.threads >= 1 && Mutex(s) && Counting(cfg, s) && Tables(cfg, s) && Codes(cfg, s) && Over(s)
  }

  lemma {:induction false} LiveUpdate(workers: seq<WorkerPc>, i: nat, pc: WorkerPc)
    requires i < |workers|
    ensures CountLive(workers[i := pc]) ==
            CountLive(workers) - (if Live(workers[i]) then 1 else 0) + (if Live(pc) then 1 else 0)
  {
    var last := |workers| - 1;
    if i == last {
      assert workers[i := pc][..last] == workers[..last];
    } else {
      assert workers[i := pc][..last] == workers[..last][i := pc];
      LiveUpdate(workers[..last], i, pc);
    }
  }

  lemma {:induction false} NoneLive(workers: seq<WorkerPc>)
    requires CountLive(workers) == 0
    ensures forall i :: 0 <= i < |workers| ==> !Live(workers[i])
  {
    if workers == [] {
    } else {
      NoneLive(workers[..|workers| - 1]);
    }
  }

  lemma {:induction false} SomeLive(workers: seq<WorkerPc>) returns (i: nat)
    requires CountLive(workers) > 0
    ensures i < |workers| && Live(workers[i])
  {
    var last := |workers| - 1;
    if Live(workers[last]) {
      i := last;
    } else {
      i := SomeLive(workers[..last]);
    }
  }

  lemma MainKeepsMutex(cfg: Config, s: State)
    requires Mutex(s) && MainEnabled(s)
    ensures Mutex(MainStep(cfg, s))
  {
    var r := MainStep(cfg, s);
    assert forall i :: 0 <= i < |s.workers| ==> r.workers[i] == s.workers[i];
  }

  lemma CountCreated(workers: seq<WorkerPc>, pc: WorkerPc)
    ensures CountLive(workers + [pc]) == CountLive(workers) + if Live(pc) then 1 else 0
  {
    assert (workers + [pc])[..|workers|] == workers;
  }

  lemma CreateKeepsCounting(cfg: Config, s: State, r: State, pc: WorkerPc)
    requires Counting(cfg, s) && s.main == Create && r.counter == s.counter && r.workers == s.workers + [pc]
    requires (pc == Absent && r.main == LockFailed) || (pc == Begin && r.main == NextTable)
    ensures Counting(cfg, r)
  {
    CountCreated(s.workers, pc);
  }

  lemma MainKeepsCounting(cfg: Config, s: State)
    requires cfg.threads >= 1 && Counting(cfg, s) && MainEnabled(s)
    ensures Counting(cfg, MainStep(cfg, s))
  {
    var r := MainStep(cfg, s);
    if s.main == Create {
      CreateKeepsCounting(cfg, s, r, r.workers[|s.workers|]);
    } else {
      assert r.workers == s.workers;
    }
  }

  lemma MainKeepsTables(cfg: Config, s: State)
    requires Tables(cfg, s) && MainEnabled(s)
    ensures Tables(cfg, MainStep(cfg, s))
  {
  }

  lemma MainKeepsCodes(cfg: Config, s: State)
    requires Codes(cfg, s) && MainEnabled(s)
    ensures Codes(cfg, MainStep(cfg, s))
  {
    var r := MainStep(cfg, s);
    assert forall i :: 0 <= i < |s.workers| ==> r.workers[i] == s.workers[i];
    if r.exitcode != 0 {
      var i :| 0 <= i < |s.workers| && Fails(JobOf(cfg, i)) && Wrote(s.workers[i], JobOf(cfg, i));
      assert Wrote(r.workers[i], JobOf(cfg, i));
    }
  }

  lemma MainKeepsOver(cfg: Config, s: State)
    requires Mutex(s) && Counting(cfg, s) && Over(s) && MainEnabled(s)
    ensures Over(MainStep(cfg, s))
  {
    if s.main == TestFinal && s.counter == 0 {
      NoneLive(s.workers);
      forall i | 0 <= i < |s.workers|
        ensures Gone(s.workers[i])
      {
        assert !Live(s.workers[i]) && !WorkerHolds(s.workers[i]);
      }
    }
  }

  lemma WorkerKeepsOver(cfg: Config, s: State, i: nat)
    requires Over(s) && WorkerEnabled(s, i)
    ensures Over(WorkerStep(cfg, s, i))
  {
    assert !Gone(s.workers[i]);
  }

  lemma WorkerKeepsTables(cfg: Config, s: State, i: nat)
    requires Tables(cfg, s) && WorkerEnabled(s, i)
    ensures Tables(cfg, WorkerStep(cfg, s, i))
  {
  }

  lemma WorkerKeepsMutex(cfg: Config, s: State, i: nat)
    requires Mutex(s) && WorkerEnabled(s, i)
    ensures Mutex(WorkerStep(cfg, s, i))
  {
  }

  lemma WorkerKeepsSignal(cfg: Config, s: State, i: nat)
    requires SignalComing(cfg, s) && s.counter >= 0 && WorkerEnabled(s, i)
    ensures SignalComing(cfg, WorkerStep(cfg, s, i))
  {
    var r := WorkerStep(cfg, s, i);
    if r.counter < Threshold(cfg, r.main) {
      if s.counter < Threshold(cfg, s.main) {
        var k :| 0 <= k < |s.workers| && s.workers[k] == Signal;
        assert r.workers[k] == Signal;
      } else {
        assert r.workers[i] == Signal;
      }
    }
  }

  lemma WorkerKeepsCounting(cfg: Config, s: State, i: nat)
    requires Counting(cfg, s) && WorkerEnabled(s, i)
    ensures Counting(cfg, WorkerStep(cfg, s, i))
  {
    var r := WorkerStep(cfg, s, i);
    WorkerKeepsSignal(cfg, s, i);
    LiveUpdate(s.workers, i, r.workers[i]);
    assert r.counter - s.counter == if s.workers[i] == Decrement then -1 else 0;
  }

  lemma NextFollowsJob(pc: WorkerPc, job: Job, exitcode: nat)
    requires pc != Absent && pc != Done && FollowsJob(pc, job)
    ensures FollowsJob(NextPc(pc, job, exitcode), job)
    ensures Wrote(pc, job) ==> Wrote(NextPc(pc, job, exitcode), job)
    ensures Reported(NextPc(pc, job, exitcode), job) ==> Reported(pc, job) || pc == SetExit || exitcode != 0
  {
  }

  lemma WorkerKeepsCodes(cfg: Config, s: State, i: nat)
    requires Codes(cfg, s) && WorkerEnabled(s, i)
    ensures Codes(cfg, WorkerStep(cfg, s, i))
  {
    var r := WorkerStep(cfg, s, i);
    if !r.exited {
      NextFollowsJob(s.workers[i], JobOf(cfg, i), s.exitcode);
      assert r.workers == s.workers[i := NextPc(s.workers[i], JobOf(cfg, i), s.exitcode)];
      assert s.exitcode != 0 ==> r.exitcode != 0;
      assert s.workers[i] == SetExit ==> r.exitcode != 0;
      if s.exitcode != 0 {
        var k :| 0 <= k < |s.workers| && Fails(JobOf(cfg, k)) && Wrote(s.workers[k], JobOf(cfg, k));
        assert Wrote(r.workers[k], JobOf(cfg, k));
      } else if s.workers[i] == SetExit {
        assert Wrote(r.workers[i], JobOf(cfg, i));
      }
    }
  }

  lemma TimeoutKeepsInv(cfg: Config, s: State)
    requires Inv(cfg, s) && Enabled(s, MainTimesOut)
    ensures Inv(cfg, Step(cfg, s, MainTimesOut))
  {
  }

  lemma MainKeepsInv(cfg: Config, s: State)
    requires Inv(cfg, s) && MainEnabled(s)
    ensures Inv(cfg, MainStep(cfg, s))
  {
    MainKeepsMutex(cfg, s);
    MainKeepsCounting(cfg, s);
    MainKeepsTables(cfg, s);
    MainKeepsCodes(cfg, s);
    MainKeepsOver(cfg, s);
  }

  lemma WorkerKeepsInv(cfg: Config, s: State, i: nat)
    requires Inv(cfg, s) && WorkerEnabled(s, i)
    ensures Inv(cfg, WorkerStep(cfg, s, i))
  {
    WorkerKeepsMutex(cfg, s, i);
    WorkerKeepsCounting(cfg, s, i);
    WorkerKeepsTables(cfg, s, i);
    WorkerKeepsCodes(cfg, s, i);
    WorkerKeepsOver(cfg, s, i);
  }

  lemma StepKeepsInv(cfg: Config, s: State, e: Event)
    requires Inv(cfg, s) && Enabled(s, e)
    ensures Inv(cfg, Step(cfg, s, e))
  {
    match e
    case MainRuns => MainKeepsInv(cfg, s);
    case WorkerRuns(i) => WorkerKeepsInv(cfg, s, i);
    case MainTimesOut => TimeoutKeepsInv(cfg, s);
  }

  lemma {:induction false} RunKeepsInv(cfg: Config, s: State, run: seq<Event>, r: State)
    requires Inv(cfg, s) && Reaches(cfg, s, run, r)
    ensures Inv(cfg, r)
    decreases |run|
  {
    if run == [] {
    } else {
      StepKeepsInv(cfg, s, run[0]);
      RunKeepsInv(cfg, Step(cfg, s, run[0]), run[1..], r);
    }
  }

  // ---------- Safety, in every interleaving ----------

  /** Never more live workers than asked for; the counter is their number and the one about to be created. */
  lemma AtMostSoManyWorkers(cfg: Config, s: State, run: seq<Event>, r: State)
    requires cfg.threads >= 1 && Initial(s) && Reaches(cfg, s, run, r)
    ensures r.counter == CountLive(r.workers) + (if Reserved(r.main) then 1 else 0) <= cfg.threads
  {
    RunKeepsInv(cfg, s, run, r);
  }

  /**
   Main returns only after every table has been tried and every thread has left the mutex for good,
   so it may destroy the mutex and the condition variable.
   */
  lemma ReturnsAfterAllWorkers(cfg: Config, s: State, run: seq<Event>, r: State)
    requires cfg.threads >= 1 && Initial(s) && Reaches(cfg, s, run, r) && r.main == Returned
    ensures |r.workers| == |cfg.jobs|
    ensures forall i :: 0 <= i < |r.workers| ==> r.workers[i] == Done || r.workers[i] == Absent
  {
    RunKeepsInv(cfg, s, run, r);
  }

  /**
   The status main returns is a failure exactly when some write_to_table failed, although workers
   test and set it without a lock. Tables whose worker could not even start do not count.
   */
  lemma ExitStatus(cfg: Config, s: State, run: seq<Event>, r: State)
    requires cfg.threads >= 1 && Initial(s) && Reaches(cfg, s, run, r) && r.main == Returned
    ensures r.exitcode != 0 <==> exists i :: 0 <= i < |cfg.jobs| && Fails(cfg.jobs[i])
  {
    RunKeepsInv(cfg, s, run, r);
    NoneLive(r.workers);
    if r.exitcode != 0 {
      var i :| 0 <= i < |r.workers| && Fails(JobOf(cfg, i)) && Wrote(r.workers[i], JobOf(cfg, i));
      assert Fails(cfg.jobs[i]);
    }
    if i :| 0 <= i < |cfg.jobs| && Fails(cfg.jobs[i]) {
      assert FollowsJob(r.workers[i], JobOf(cfg, i)) && !Live(r.workers[i]);
      assert Reported(r.workers[i], JobOf(cfg, i));
    }
  }

  /** Only a worker at a fatal failure ends the program early; with --force that is a failed connect. */
  lemma {:induction false} EarlyExit(cfg: Config, s: State, run: seq<Event>, r: State)
    requires !s.exited && Reaches(cfg, s, run, r) && r.exited
    ensures exists i :: 0 <= i < |r.workers| && EndsProgram(cfg, r.workers[i], JobOf(cfg, i))
    decreases |run|
  {
    var t := Step(cfg, s, run[0]);
    if t.exited {
      assert Reaches(cfg, t, run[1..], r) && forall e :: !Enabled(t, e);
      assert run[0].WorkerRuns? && EndsProgram(cfg, s.workers[run[0].i], JobOf(cfg, run[0].i));
    } else {
      EarlyExit(cfg, t, run[1..], r);
    }
  }

  // ---------- Progress, without timeouts ----------

  predicate Finished(s: State) {
    || s.exited
    || (s.main == Returned && AllGone(s))
  }

  lemma LiveWorkerCanRun(cfg: Config, s: State) returns (i: nat)
    requires Inv(cfg, s) && !s.exited && s.owner.None? && Threshold(cfg, s.main) > 0
    ensures WorkerEnabled(s, i)
  {
    assert s.counter >= Threshold(cfg, s.main);
    i := SomeLive(s.workers);
  }

  /** No signal is lost and no lock is left held: until all is over, somebody can run. */
  lemma SomebodyCanRun(cfg: Config, s: State) returns (e: Event)
    requires Inv(cfg, s) && !Finished(s)
    ensures Enabled(s, e) && !e.MainTimesOut?
  {
    if s.owner.Some? {
      e := if s.owner == Some(Main) then MainRuns else WorkerRuns(s.owner.value.i);
    } else if s.main == Waiting || s.main == WaitingFinal {
      var i := LiveWorkerCanRun(cfg, s);
      e := WorkerRuns(i);
    } else {
      e := MainRuns;
    }
  }

  /** A bound on the steps a worker can still take, with those its signal lets main take. */
  function WorkerRank(pc: WorkerPc): nat {
    match pc
    case Absent => 0
    case Done => 0
    case UnlockToFinish => 1
    case Signal => 4
    case Decrement => 5
    case LockToFinish => 6
    case SetExit => 7
    case CheckExit => 8
    case Write => 9
    case Begin => 10
  }

  function WorkerRanks(workers: seq<WorkerPc>): nat {
    if workers == [] then 0
    else WorkerRanks(workers[..|workers| - 1]) + WorkerRank(workers[|workers| - 1])
  }

  /** Tables not yet tried. */
  function Remaining(cfg: Config, s: State): nat {
    if |s.workers| < |cfg.jobs| then |cfg.jobs| - |s.workers| else 0
  }

  function MainRank(pc: MainPc, remaining: nat): nat {
    match pc
    case Returned => 0
    case UnlockFinal => 1
    case WaitingFinal => 2
    case TestFinal => 3
    case WokenFinal => 4
    case LockFinal => 4
    case NextTable => 5 + 16 * remaining
    case UnlockFailed => 6 + 16 * remaining
    case DecrementFailed => 7 + 16 * remaining
    case LockFailed => 8 + 16 * remaining
    case Create => 16 * remaining
    case Unlock => 1 + 16 * remaining
    case Increment => 2 + 16 * remaining
    case Waiting => 2 + 16 * remaining
    case TestFull => 3 + 16 * remaining
    case Woken => 4 + 16 * remaining
    case Lock => 4 + 16 * remaining
  }

  function Measure(cfg: Config, s: State): nat {
    (if s.exited then 0 else 1) + MainRank(s.main, Remaining(cfg, s)) + WorkerRanks(s.workers)
  }

  lemma {:induction false} RanksUpdate(workers: seq<WorkerPc>, i: nat, pc: WorkerPc)
    requires i < |workers|
    ensures WorkerRanks(workers[i := pc]) + WorkerRank(workers[i]) == WorkerRanks(workers) + WorkerRank(pc)
  {
    var last := |workers| - 1;
    if i == last {
      assert workers[i := pc][..last] == workers[..last];
    } else {
      assert workers[i := pc][..last] == workers[..last][i := pc];
      RanksUpdate(workers[..last], i, pc);
    }
  }

  lemma MainDecreases(cfg: Config, s: State)
    requires Tables(cfg, s) && MainEnabled(s)
    ensures Measure(cfg, MainStep(cfg, s)) < Measure(cfg, s)
  {
    if s.main == Create {
      var r := MainStep(cfg, s);
      assert r.workers[..|s.workers|] == s.workers;
    }
  }

  lemma NextPcRank(pc: WorkerPc, job: Job, exitcode: nat)
    requires pc != Absent && pc != Done
    ensures WorkerRank(NextPc(pc, job, exitcode)) + (if pc == Signal then 3 else 1) <= WorkerRank(pc)
  {
  }

  lemma WorkerDecreases(cfg: Config, s: State, i: nat)
    requires WorkerEnabled(s, i)
    ensures Measure(cfg, WorkerStep(cfg, s, i)) < Measure(cfg, s)
  {
    var r := WorkerStep(cfg, s, i);
    if !r.exited {
      NextPcRank(s.workers[i], JobOf(cfg, i), s.exitcode);
      assert r.workers == s.workers[i := NextPc(s.workers[i], JobOf(cfg, i), s.exitcode)];
      RanksUpdate(s.workers, i, r.workers[i]);
      assert MainRank(r.main, Remaining(cfg, r)) <=
             MainRank(s.main, Remaining(cfg, s)) + (if s.workers[i] == Signal then 2 else 0);
    }
  }

  predicate Quiet(run: seq<Event>) {
    forall k :: 0 <= k < |run| ==> !run[k].MainTimesOut?
  }

  /** Every run without timeouts ends, within a bound known at the start. */
  lemma {:induction false} QuietRunsAreBounded(cfg: Config, s: State, run: seq<Event>, r: State)
    requires Inv(cfg, s) && Reaches(cfg, s, run, r) && Quiet(run)
    ensures |run| + Measure(cfg, r) <= Measure(cfg, s)
    decreases |run|
  {
    if run == [] {
    } else {
      if run[0].MainRuns? {
        MainDecreases(cfg, s);
      } else {
        WorkerDecreases(cfg, s, run[0].i);
      }
      StepKeepsInv(cfg, s, run[0]);
      QuietRunsAreBounded(cfg, Step(cfg, s, run[0]), run[1..], r);
    }
  }

  /** And where it cannot go on, the program was ended, or main has returned and every worker is done. */
  lemma StuckMeansFinished(cfg: Config, s: State, run: seq<Event>, r: State)
    requires cfg.threads >= 1 && Initial(s) && Reaches(cfg, s, run, r)
    requires !MainEnabled(r) && forall i :: 0 <= i < |r.workers| ==> !WorkerEnabled(r, i)
    ensures Finished(r)
  {
    RunKeepsInv(cfg, s, run, r);
    if !Finished(r) {
      var e := SomebodyCanRun(cfg, r);
      assert false;
    }
  }
}
