/** The pool that runs database operations: worker threads and the thread that owns the
    pool share one mutex and one condition variable. Every section that holds the mutex is
    one step; a thread between two sections is at a program counter. */
module Multitasker {
  import Text

  datatype Result = Result(ok: bool, message: string)

  /** What a task does when it is run. */
  datatype Task = Returns(ok: bool, message: string) | Throws(message: string) | ThrowsUnknown

  function ResultOf(task: Task): Result {
    match task
    case Returns(ok, message) => Result(ok, message)
    case Throws(message) => Result(false, message)
    case ThrowsUnknown => Result(false, "DB operation threw an unknown exception.")
  }

  datatype Worker =
    | Checking              // wants the mutex, to test the predicate of `wait`
    | Waiting               // in the wait set
    | Running(task: Task)
    | Notifying             // has stored a result, still owes `notify_all`
    | Exited
  {
    predicate Awake() {
      Checking? || Running? || Notifying?
    }
  }

  datatype Owner =
    | Idle
    | OwesNotifyOne         // has queued a task
    | WaitChecking          // in waitForResults, wants the mutex
    | OwnerWaiting          // in waitForResults, in the wait set
    | Ready                 // waitForResults has returned, no call since
    | OwesNotifyAll         // the destructor has asked the workers to stop
    | Joining
    | Done

  /** `added` records the tasks accepted since the results were last collected. */
  datatype State = State(queue: seq<Task>, results: seq<Result>, total: nat, stop: bool,
                         workers: seq<Worker>, owner: Owner, added: seq<Task>)

  predicate Busy(s: State) {
    s.queue != [] || |s.results| < s.total
  }

  ghost predicate Init(s: State) {
    && s.queue == [] && s.results == [] && s.total == 0 && !s.stop && s.owner == Idle && s.added == []
    && forall i :: 0 <= i < |s.workers| ==> s.workers[i] == Checking
  }

  datatype Step =
    | Add(task: Task)
    | NotifyOne(woken: nat)
    | CallWait
    | OwnerCheck
    | OwnerWakes            // notified, timed out or woken for no reason
    | Collect
    | Stop
    | NotifyAll
    | Join
    | WorkerCheck(i: nat)
    | WorkerWakes(i: nat)   // woken for no reason
    | Report(i: nat)
    | WorkerNotifies(i: nat)

  /** `notify_all` moves every waiting thread out of the wait set. */
  function WakeAll(workers: seq<Worker>): seq<Worker> {
    seq(|workers|, i requires 0 <= i < |workers| => if workers[i] == Waiting then Checking else workers[i])
  }

  function WakeOwner(owner: Owner): Owner {
    if owner == OwnerWaiting then WaitChecking else owner
  }

  /** `getResults`: refuses while work is outstanding, otherwise hands out the results and
      starts a new count. */
  function GetResults(s: State): (State, bool, seq<Result>) {
    if Busy(s) then (s.(owner := Idle), false, [])
    else (s.(results := [], total := 0, added := [], owner := Idle), true, s.results)
  }

  /** `addTask` up to the notification. */
  function Added(s: State, task: Task): State {
    s.(queue := s.queue + [task], total := s.total + 1, added := s.added + [task], owner := OwesNotifyOne)
  }

  /** A worker that holds the mutex: it waits, exits or takes the first task. */
  function CheckedWorker(s: State, i: nat): State
    requires i < |s.workers|
  {
    if !s.stop && s.queue == [] then s.(workers := s.workers[i := Waiting])
    else if s.queue == [] then s.(workers := s.workers[i := Exited])
    else s.(queue := s.queue[1..], workers := s.workers[i := Running(s.queue[0])])
  }

  predicate Enabled(s: State, step: Step) {
    match step
    case Add(_) => s.owner in {Idle, Ready} && !s.stop
    case NotifyOne(woken) =>
      && s.owner == OwesNotifyOne
      && ((exists i :: 0 <= i < |s.workers| && s.workers[i] == Waiting) ==> woken < |s.workers| && s.workers[woken] == Waiting)
    case CallWait => s.owner in {Idle, Ready}
    case OwnerCheck => s.owner == WaitChecking
    case OwnerWakes => s.owner == OwnerWaiting
    case Collect => s.owner in {Idle, Ready}
    case Stop => s.owner in {Idle, Ready}
    case NotifyAll => s.owner == OwesNotifyAll
    case Join => s.owner == Joining && forall i :: 0 <= i < |s.workers| ==> s.workers[i] == Exited
    case WorkerCheck(i) => i < |s.workers| && s.workers[i] == Checking
    case WorkerWakes(i) => i < |s.workers| && s.workers[i] == Waiting
    case Report(i) => i < |s.workers| && s.workers[i].Running?
    case WorkerNotifies(i) => i < |s.workers| && s.workers[i] == Notifying
  }

  function Next(s: State, step: Step): State
    requires Enabled(s, step)
  {
    match step
    case Add(task) => Added(s, task)
    case NotifyOne(woken) =>
      s.(owner := Idle, workers := if woken < |s.workers| && s.workers[woken] == Waiting then s.workers[woken := Checking] else s.workers)
    case CallWait => s.(owner := WaitChecking)
    case OwnerCheck => s.(owner := if Busy(s) then OwnerWaiting else Ready)
    case OwnerWakes => s.(owner := WaitChecking)
    case Collect => GetResults(s).0
    case Stop => s.(stop := true, owner := OwesNotifyAll)
    case NotifyAll => s.(workers := WakeAll(s.workers), owner := Joining)
    case Join => s.(owner := Done)
    case WorkerCheck(i) => CheckedWorker(s, i)
    case WorkerWakes(i) => s.(workers := s.workers[i := Checking])
    case Report(i) => s.(results := s.results + [ResultOf(s.workers[i].task)], workers := s.workers[i := Notifying])
    case WorkerNotifies(i) => s.(workers := WakeAll(s.workers[i := Checking]), owner := WakeOwner(s.owner))
  }

  function ResultsOf(tasks: seq<Task>): seq<Result> {
    seq(|tasks|, i requires 0 <= i < |tasks| => ResultOf(tasks[i]))
  }

  function OfWorker(w: Worker): multiset<Result> {
    if w.Running? then multiset{ResultOf(w.task)} else multiset{}
  }

  /** The results that tasks in flight are going to have. */
  function InFlight(workers: seq<Worker>): multiset<Result> {
    if workers == [] then multiset{}
    else InFlight(workers[..|workers| - 1]) + OfWorker(workers[|workers| - 1])
  }

  lemma {:induction false} InFlightUpdate(workers: seq<Worker>, i: nat, w: Worker)
    requires i < |workers|
    ensures OfWorker(workers[i]) <= InFlight(workers)
    ensures InFlight(workers[i := w]) == InFlight(workers) - OfWorker(workers[i]) + OfWorker(w)
  {
    hide OfWorker;
    var n := |workers| - 1;
    if i < n {
      assert workers[i := w][..n] == workers[..n][i := w];
      InFlightUpdate(workers[..n], i, w);
    } else {
      assert workers[i := w][..n] == workers[..n];
    }
  }

  lemma {:induction false} InFlightWakeAll(workers: seq<Worker>)
    ensures InFlight(WakeAll(workers)) == InFlight(workers)
  {
    if workers != [] {
      var n := |workers| - 1;
      assert WakeAll(workers)[..n] == WakeAll(workers[..n]);
      InFlightWakeAll(workers[..n]);
    }
  }

  lemma {:induction false} InFlightEmpty(workers: seq<Worker>)
    requires forall i :: 0 <= i < |workers| ==> !workers[i].Running?
    ensures InFlight(workers) == multiset{}
  {
    if workers != [] {
      InFlightEmpty(workers[..|workers| - 1]);
    }
  }

  lemma {:induction false} InFlightSome(workers: seq<Worker>)
    ensures InFlight(workers) != multiset{} <==> exists i :: 0 <= i < |workers| && workers[i].Running?
  {
    if forall i :: 0 <= i < |workers| ==> !workers[i].Running? {
      InFlightEmpty(workers);
    } else {
      var i :| 0 <= i < |workers| && workers[i].Running?;
      InFlightUpdate(workers, i, Waiting);
      assert ResultOf(workers[i].task) in OfWorker(workers[i]);
    }
  }

  /** Every accepted task is queued, in flight or stored as a result, once. */
  predicate Conserved(s: State) {
    && s.total == |s.added|
    && multiset(s.results) + multiset(ResultsOf(s.queue)) + InFlight(s.workers) == multiset(ResultsOf(s.added))
  }

  /** Somebody is going to look at the queue. */
  ghost predicate NoLostWakeup(s: State) {
    s.queue != [] && s.workers != [] ==>
      s.owner == OwesNotifyOne || exists i :: 0 <= i < |s.workers| && s.workers[i].Awake()
  }

  /** The owner does not wait for results that are complete, unless it is about to be told. */
  ghost predicate OwnerInformed(s: State) {
    s.owner == OwnerWaiting ==> Busy(s) || exists i :: 0 <= i < |s.workers| && s.workers[i] == Notifying
  }

  ghost predicate Inv(s: State) {
    && Conserved(s)
    && NoLostWakeup(s)
    && OwnerInformed(s)
    && (s.owner == Ready ==> !Busy(s))
    && (s.stop <==> s.owner in {OwesNotifyAll, Joining, Done})
    && (forall i :: 0 <= i < |s.workers| && s.workers[i] == Exited ==> s.stop && s.queue == [])
    && (forall i :: 0 <= i < |s.workers| && s.workers[i] == Waiting ==> s.owner != Joining && s.owner != Done)
    && (forall i :: 0 <= i < |s.workers| && s.owner == Done ==> s.workers[i] == Exited)
  }

  lemma InitHolds(s: State)
    requires Init(s)
    ensures Inv(s)
  {
    InFlightEmpty(s.workers);
  }

  lemma CountsAgree(s: State)
    requires Conserved(s)
    ensures |s.queue| + |InFlight(s.workers)| + |s.results| == s.total
  {
    var m := multiset(s.results) + multiset(ResultsOf(s.queue)) + InFlight(s.workers);
    assert |m| == |s.results| + |ResultsOf(s.queue)| + |InFlight(s.workers)|;
  }

  lemma ResultsPush(tasks: seq<Task>, task: Task)
    ensures multiset(ResultsOf(tasks + [task])) == multiset(ResultsOf(tasks)) + multiset{ResultOf(task)}
  {
    assert ResultsOf(tasks + [task]) == ResultsOf(tasks) + [ResultOf(task)];
  }

  lemma ResultsPop(tasks: seq<Task>)
    requires tasks != []
    ensures multiset(ResultsOf(tasks)) == multiset(ResultsOf(tasks[1..])) + multiset{ResultOf(tasks[0])}
  {
    assert ResultsOf(tasks) == [ResultOf(tasks[0])] + ResultsOf(tasks[1..]);
  }

  lemma ConservedNext(s: State, step: Step)
    requires Conserved(s) && Enabled(s, step)
    ensures Conserved(Next(s, step))
  {
    hide Conserved, InFlight, ResultsOf, WakeAll, ResultOf;
    match step
    case Add(task) => AddConserves(s, task);
    case NotifyOne(woken) =>
      if woken < |s.workers| && s.workers[woken] == Waiting {
        IdleConserves(s, woken, Checking);
      }
      OwnerConserves(Next(s, step), s.owner);
    case Collect => CollectConserves(s);
    case NotifyAll => WakeAllConserves(s);
    case WorkerCheck(i) => CheckConserves(s, i);
    case WorkerWakes(i) => IdleConserves(s, i, Checking);
    case Report(i) => ReportConserves(s, i);
    case WorkerNotifies(i) =>
      IdleConserves(s, i, Checking);
      WakeAllConserves(s.(workers := s.workers[i := Checking]));
    case _ => OwnerConserves(Next(s, step), s.owner);
  }

  /** The owner's program counter is not part of the count. */
  lemma OwnerConserves(s: State, owner: Owner)
    ensures forall stop: bool :: Conserved(s.(owner := owner, stop := stop)) == Conserved(s)
    ensures forall other: Owner :: Conserved(s.(owner := other)) == Conserved(s)
  {
  }

  lemma AddConserves(s: State, task: Task)
    requires Conserved(s)
    ensures Conserved(Added(s, task))
  {
    hide InFlight, ResultsOf, ResultOf;
    ResultsPush(s.queue, task);
    ResultsPush(s.added, task);
  }

  lemma IdleConserves(s: State, i: nat, w: Worker)
    requires Conserved(s) && i < |s.workers| && !s.workers[i].Running? && !w.Running?
    ensures Conserved(s.(workers := s.workers[i := w]))
  {
    hide InFlight, ResultsOf;
    InFlightUpdate(s.workers, i, w);
  }

  lemma WakeAllConserves(s: State)
    requires Conserved(s)
    ensures forall owner: Owner :: Conserved(s.(workers := WakeAll(s.workers), owner := owner))
  {
    hide InFlight, ResultsOf;
    InFlightWakeAll(s.workers);
  }

  lemma CheckConserves(s: State, i: nat)
    requires Conserved(s) && i < |s.workers| && s.workers[i] == Checking
    ensures Conserved(CheckedWorker(s, i))
  {
    hide InFlight, ResultsOf, ResultOf;
    if s.queue == [] {
      IdleConserves(s, i, if s.stop then Exited else Waiting);
    } else {
      InFlightUpdate(s.workers, i, Running(s.queue[0]));
      ResultsPop(s.queue);
    }
  }

  lemma ReportConserves(s: State, i: nat)
    requires Conserved(s) && i < |s.workers| && s.workers[i].Running?
    ensures Conserved(s.(results := s.results + [ResultOf(s.workers[i].task)], workers := s.workers[i := Notifying]))
  {
    hide InFlight, ResultsOf, ResultOf;
    InFlightUpdate(s.workers, i, Notifying);
  }

  lemma CollectConserves(s: State)
    requires Conserved(s)
    ensures Conserved(GetResults(s).0)
  {
    hide InFlight;
    CountsAgree(s);
    if !Busy(s) {
      assert |InFlight(s.workers)| == 0;
      assert ResultsOf([]) == [] && s.queue == [];
    }
  }

  lemma AwakeNext(s: State, step: Step)
    requires Inv(s) && Enabled(s, step)
    ensures NoLostWakeup(Next(s, step)) && OwnerInformed(Next(s, step))
  {
    hide Conserved, InFlight, ResultsOf;
    CountsAgree(s);
    var s' := Next(s, step);
    if exists i :: 0 <= i < |s.workers| && s.workers[i].Awake() {
      var i :| 0 <= i < |s.workers| && s.workers[i].Awake();
      if s'.queue != [] {
        assert s'.workers[i].Awake();
      }
    } else if step.NotifyOne? && s.workers != [] {
      assert s.workers[0] == Waiting;
      assert s'.queue != [] ==> s'.workers[step.woken].Awake();
    } else if step.WorkerWakes? {
      assert s'.workers[step.i].Awake();
    }
    if s'.owner == OwnerWaiting && !Busy(s') {
      if step.Report? {
        assert s'.workers[step.i] == Notifying;
      } else {
        var i :| 0 <= i < |s.workers| && s.workers[i] == Notifying;
        assert s'.workers[i] == Notifying;
      }
    }
  }

  /** Every step of every thread keeps the invariant. */
  lemma InvNext(s: State, step: Step)
    requires Inv(s) && Enabled(s, step)
    ensures Inv(Next(s, step))
  {
    hide InFlight, ResultsOf, NoLostWakeup, OwnerInformed, Conserved, ResultOf;
    ConservedNext(s, step);
    AwakeNext(s, step);
    CountsAgree(s);
  }

  /** The state after a run; None when some step was not possible. */
  datatype Reached = Nowhere | At(state: State)

  function Run(s: State, steps: seq<Step>): Reached {
    if steps == [] then At(s)
    else
      match Run(s, steps[..|steps| - 1])
      case Nowhere => Nowhere
      case At(s') => if Enabled(s', steps[|steps| - 1]) then At(Next(s', steps[|steps| - 1])) else Nowhere
  }

  lemma {:induction false} InvRun(s: State, steps: seq<Step>)
    requires Init(s) && Run(s, steps).At?
    ensures Inv(Run(s, steps).state)
  {
    if steps == [] {
      InitHolds(s);
    } else {
      InvRun(s, steps[..|steps| - 1]);
      InvNext(Run(s, steps[..|steps| - 1]).state, steps[|steps| - 1]);
    }
  }

  /** In every reachable state, for every interleaving and however the tasks end, queued
      tasks, tasks in flight and results add up to the total. */
  lemma TasksConserved(s: State, steps: seq<Step>)
    requires Init(s) && Run(s, steps).At?
    ensures var r := Run(s, steps).state;
      |r.queue| + |InFlight(r.workers)| + |r.results| == r.total == |r.added|
  {
    InvRun(s, steps);
    CountsAgree(Run(s, steps).state);
  }

  /** Once waitForResults has returned, getResults cannot throw, and what it returns is one
      result for each task added since the last collection. */
  lemma ResultsComplete(s: State, steps: seq<Step>)
    requires Init(s) && Run(s, steps).At? && Run(s, steps).state.owner == Ready
    ensures var r := Run(s, steps).state;
      var (_, ok, results) := GetResults(r);
      ok && multiset(results) == multiset(ResultsOf(r.added)) && |results| == |r.added|
  {
    InvRun(s, steps);
    var r := Run(s, steps).state;
    CountsAgree(r);
    assert |InFlight(r.workers)| == 0;
    assert ResultsOf([]) == [];
  }

  /** getResults refuses exactly while a task is queued or in flight. */
  lemma GetResultsRefuses(s: State, steps: seq<Step>)
    requires Init(s) && Run(s, steps).At?
    ensures var r := Run(s, steps).state;
      !GetResults(r).1 <==> r.queue != [] || exists i :: 0 <= i < |r.workers| && r.workers[i].Running?
  {
    InvRun(s, steps);
    var r := Run(s, steps).state;
    CountsAgree(r);
    InFlightSome(r.workers);
  }

  /** With at least one worker no wakeup is lost, and no worker leaves while a task is
      queued. */
  lemma NoWakeupLost(s: State, steps: seq<Step>)
    requires Init(s) && s.workers != [] && Run(s, steps).At? && Run(s, steps).state.queue != []
    ensures var r := Run(s, steps).state;
      && (r.owner == OwesNotifyOne || exists i :: 0 <= i < |r.workers| && r.workers[i].Awake())
      && forall i :: 0 <= i < |r.workers| ==> r.workers[i] != Exited
  {
    InvRun(s, steps);
    WorkersKept(s, steps);
  }

  lemma NextKeepsWorkers(s: State, step: Step)
    requires Enabled(s, step)
    ensures |Next(s, step).workers| == |s.workers|
  {
  }

  lemma {:induction false} WorkersKept(s: State, steps: seq<Step>)
    requires Run(s, steps).At?
    ensures |Run(s, steps).state.workers| == |s.workers|
  {
    hide Next, Enabled;
    if steps != [] {
      WorkersKept(s, steps[..|steps| - 1]);
      NextKeepsWorkers(Run(s, steps[..|steps| - 1]).state, steps[|steps| - 1]);
    }
  }

  /** When the destructor has joined all workers, every accepted task has its result. */
  lemma DestructorDrains(s: State, steps: seq<Step>)
    requires Init(s) && s.workers != [] && Run(s, steps).At? && Run(s, steps).state.owner == Done
    ensures var r := Run(s, steps).state;
      r.queue == [] && !Busy(r) && multiset(r.results) == multiset(ResultsOf(r.added))
  {
    InvRun(s, steps);
    WorkersKept(s, steps);
    var r := Run(s, steps).state;
    assert r.workers[0] == Exited;
    InFlightEmpty(r.workers);
    CountsAgree(r);
    assert ResultsOf([]) == [];
  }

  /** The steps that workers take on their own, other than waking up for no reason. */
  predicate WorkerStep(step: Step) {
    step.WorkerCheck? || step.Report? || step.WorkerNotifies?
  }

  function Weight(w: Worker, n: nat): nat {
    match w
    case Checking => 1
    case Running(_) => n + 3
    case Notifying => n + 2
    case _ => 0
  }

  function Load(workers: seq<Worker>, n: nat): nat {
    if workers == [] then 0 else Load(workers[..|workers| - 1], n) + Weight(workers[|workers| - 1], n)
  }

  /** How much the workers have left to do. */
  function Work(s: State): nat {
    |s.queue| * (|s.workers| + 3) + Load(s.workers, |s.workers|)
  }

  lemma {:induction false} LoadUpdate(workers: seq<Worker>, i: nat, w: Worker, n: nat)
    requires i < |workers|
    ensures Load(workers[i := w], n) == Load(workers, n) - Weight(workers[i], n) + Weight(w, n)
  {
    var m := |workers| - 1;
    if i < m {
      assert workers[i := w][..m] == workers[..m][i := w];
      LoadUpdate(workers[..m], i, w, n);
    } else {
      assert workers[i := w][..m] == workers[..m];
    }
  }

  lemma {:induction false} LoadWakeAll(workers: seq<Worker>, n: nat)
    ensures Load(WakeAll(workers), n) <= Load(workers, n) + |workers|
  {
    if workers != [] {
      var m := |workers| - 1;
      assert WakeAll(workers)[..m] == WakeAll(workers[..m]);
      LoadWakeAll(workers[..m], n);
    }
  }

  /** Each of these steps lessens the work left, so workers cannot go on for ever between
      two actions of the owner. */
  lemma WorkDecreases(s: State, step: Step)
    requires Enabled(s, step) && WorkerStep(step)
    ensures Work(Next(s, step)) < Work(s)
  {
    hide Load;
    match step
    case WorkerCheck(i) => CheckDecreases(s, i);
    case Report(i) => LoadUpdate(s.workers, i, Notifying, |s.workers|);
    case WorkerNotifies(i) =>
      LoadUpdate(s.workers, i, Checking, |s.workers|);
      LoadWakeAll(s.workers[i := Checking], |s.workers|);
    case _ =>
  }

  lemma CheckDecreases(s: State, i: nat)
    requires i < |s.workers| && s.workers[i] == Checking
    ensures Work(CheckedWorker(s, i)) < Work(s)
  {
    hide Load;
    var n := |s.workers|;
    LoadUpdate(s.workers, i, CheckedWorker(s, i).workers[i], n);
    if s.queue != [] {
      assert |s.queue| * (n + 3) == (|s.queue| - 1) * (n + 3) + (n + 3);
    }
  }

  /** So any number of such steps in a row is bounded by the work there was. */
  lemma {:induction false} WorkBounds(s: State, steps: seq<Step>)
    requires Run(s, steps).At? && forall i :: 0 <= i < |steps| ==> WorkerStep(steps[i])
    ensures |steps| + Work(Run(s, steps).state) <= Work(s)
  {
    if steps != [] {
      WorkBounds(s, steps[..|steps| - 1]);
      WorkDecreases(Run(s, steps[..|steps| - 1]).state, steps[|steps| - 1]);
    }
  }

  /** No deadlock: when no worker can take a step, a waiting owner is awake and finds its
      results complete, and a joining owner finds every worker gone. */
  lemma QuiescentMeansDone(s: State, steps: seq<Step>)
    requires Init(s) && s.workers != [] && Run(s, steps).At?
    requires forall step: Step :: WorkerStep(step) ==> !Enabled(Run(s, steps).state, step)
    ensures var r := Run(s, steps).state;
      && (r.owner in {WaitChecking, OwnerWaiting} ==> r.owner == WaitChecking && Next(r, OwnerCheck).owner == Ready)
      && (r.owner == Joining ==> Enabled(r, Join))
  {
    InvRun(s, steps);
    WorkersKept(s, steps);
    var r := Run(s, steps).state;
    forall i | 0 <= i < |r.workers|
      ensures !r.workers[i].Awake()
    {
      assert !Enabled(r, WorkerCheck(i)) && !Enabled(r, Report(i)) && !Enabled(r, WorkerNotifies(i));
    }
    InFlightEmpty(r.workers);
    CountsAgree(r);
  }

  /** One result in the merged text; a status prints as a number. */
  function ResultText(r: Result): string {
    "{\"status\":" + (if r.ok then "1" else "0") + ",\"message\":\"" + r.message + "\"}"
  }

  function ResultLines(results: seq<Result>): string {
    if results == [] then "" else "\n" + ResultText(results[0]) + "," + ResultLines(results[1..])
  }

  function Failures(results: seq<Result>): nat {
    if results == [] then 0
    else Failures(results[..|results| - 1]) + if results[|results| - 1].ok then 0 else 1
  }

  lemma {:induction false} FailuresCount(results: seq<Result>)
    ensures Failures(results) == |set i | 0 <= i < |results| && !results[i].ok|
    ensures Failures(results) == 0 <==> forall i :: 0 <= i < |results| ==> results[i].ok
  {
    if results != [] {
      var n := |results| - 1;
      FailuresCount(results[..n]);
      var before := set i | 0 <= i < n && !results[..n][i].ok;
      var all := set i | 0 <= i < |results| && !results[i].ok;
      assert all == before + if results[n].ok then {} else {n};
    }
  }

  /** The text written when the list is done. The last character before it, meant to be the
      last comma, is overwritten. */
  function MergedText(results: seq<Result>): string {
    var open := "{\n\"results\":[" + ResultLines(results);
    open[..|open| - 1] + "\n],\n\"total\":" + Text.Decimal(|results|) + ",\"errors\":" + Text.Decimal(Failures(results)) + "\n}"
  }

  /** `getMergedResults`: success exactly when every result is one, and the text that lists
      them with their number and the number of failures. */
  method MergeResults(results: seq<Result>) returns (ok: bool, summary: string)
    ensures ok <==> forall i :: 0 <= i < |results| ==> results[i].ok
    ensures summary == MergedText(results)
  {
    hide ResultText, Text.Decimal;
    var errorCount := 0;
    for i := 0 to |results|
      invariant errorCount == Failures(results[..i])
    {
      assert results[..i + 1][..i] == results[..i];
      errorCount := errorCount + if results[i].ok then 0 else 1;
    }
    assert results[..|results|] == results;
    FailuresCount(results);
    summary := "{\n\"results\":[";
    ghost var start := summary;
    for i := 0 to |results|
      invariant summary + ResultLines(results[i..]) == start + ResultLines(results)
      invariant summary != ""
    {
      NextLine(summary, results[i..]);
      assert results[i..][1..] == results[i + 1..];
      summary := summary + "\n" + ResultText(results[i]) + ",";
    }
    assert results[|results|..] == [];
    summary := summary[..|summary| - 1];
    summary := summary + "\n],\n\"total\":" + Text.Decimal(|results|) + ",\"errors\":" + Text.Decimal(errorCount) + "\n}";
    ok := errorCount == 0;
  }

  lemma NextLine(text: string, results: seq<Result>)
    requires results != []
    ensures text + ResultLines(results) == text + "\n" + ResultText(results[0]) + "," + ResultLines(results[1..])
  {
  }

  // What the results say about the tasks.

  /** A task fails when it returns a failure or throws. */
  predicate Fails(task: Task) {
    match task
    case Returns(ok, _) => !ok
    case Throws(_) => true
    case ThrowsUnknown => true
  }

  /** A task says what it returned, what it threw, or the fixed text. */
  function Message(task: Task): string {
    match task
    case Returns(_, message) => message
    case Throws(message) => message
    case ThrowsUnknown => "DB operation threw an unknown exception."
  }

  function FailingTasks(tasks: seq<Task>): nat {
    if tasks == [] then 0
    else FailingTasks(tasks[..|tasks| - 1]) + if Fails(tasks[|tasks| - 1]) then 1 else 0
  }

  function TaskMessages(tasks: seq<Task>): seq<string> {
    seq(|tasks|, i requires 0 <= i < |tasks| => Message(tasks[i]))
  }

  function ResultMessages(results: seq<Result>): seq<string> {
    seq(|results|, i requires 0 <= i < |results| => results[i].message)
  }

  lemma {:induction false} FailuresConcat(a: seq<Result>, b: seq<Result>)
    ensures Failures(a + b) == Failures(a) + Failures(b)
    decreases |b|
  {
    if b == [] {
      assert a + b == a;
    } else {
      var n := |b| - 1;
      assert (a + b)[..|a| + n] == a + b[..n];
      FailuresConcat(a, b[..n]);
    }
  }

  function WithoutAt(b: seq<Result>, j: nat): seq<Result>
    requires j < |b|
  {
    b[..j] + b[j + 1..]
  }

  lemma TakenOut(b: seq<Result>, j: nat)
    requires j < |b|
    ensures |WithoutAt(b, j)| == |b| - 1
    ensures multiset(WithoutAt(b, j)) == multiset(b) - multiset{b[j]}
    ensures Failures(b) == Failures(WithoutAt(b, j)) + (if b[j].ok then 0 else 1)
    ensures multiset(ResultMessages(b)) == multiset(ResultMessages(WithoutAt(b, j))) + multiset{b[j].message}
  {
    var before, x, behind := b[..j], b[j], b[j + 1..];
    assert b == before + [x] + behind;
    FailuresConcat(before, behind);
    FailuresConcat(before + [x], behind);
    FailuresConcat(before, [x]);
    assert [x][..0] == [];
    assert ResultMessages(b) == ResultMessages(before) + [x.message] + ResultMessages(behind);
    assert ResultMessages(before + behind) == ResultMessages(before) + ResultMessages(behind);
  }

  /** The order of results changes neither their failures nor their messages. */
  lemma {:induction false} OrderIrrelevant(a: seq<Result>, b: seq<Result>)
    requires multiset(a) == multiset(b)
    ensures Failures(a) == Failures(b) && multiset(ResultMessages(a)) == multiset(ResultMessages(b))
    decreases |a|
  {
    hide Failures, ResultMessages, WithoutAt;
    assert |a| == |multiset(a)| && |b| == |multiset(b)|;
    if a == [] {
      assert b == [];
    } else {
      var j := SomewhereIn(b, a[0]);
      TakenOut(a, 0);
      TakenOut(b, j);
      OrderIrrelevant(WithoutAt(a, 0), WithoutAt(b, j));
    }
  }

  lemma SomewhereIn(b: seq<Result>, x: Result) returns (j: nat)
    requires x in multiset(b)
    ensures j < |b| && b[j] == x
  {
    j :| j < |b| && b[j] == x;
  }

  lemma {:induction false} ResultsOfTasks(tasks: seq<Task>)
    ensures Failures(ResultsOf(tasks)) == FailingTasks(tasks)
    ensures ResultMessages(ResultsOf(tasks)) == TaskMessages(tasks)
  {
    if tasks != [] {
      var n := |tasks| - 1;
      ResultsOfTasks(tasks[..n]);
      assert ResultsOf(tasks)[..n] == ResultsOf(tasks[..n]);
    }
  }

  lemma {:induction false} NoneFailing(tasks: seq<Task>)
    ensures FailingTasks(tasks) == 0 <==> forall i :: 0 <= i < |tasks| ==> tasks[i].Returns? && tasks[i].ok
  {
    if tasks != [] {
      var n := |tasks| - 1;
      NoneFailing(tasks[..n]);
      assert forall i :: 0 <= i < n ==> tasks[..n][i] == tasks[i];
    }
  }

  /** Whenever getResults succeeds, as many results are failures as tasks added since the last
      collection returned a failure or threw, and the messages are what these tasks returned
      or threw; so the merged status is good exactly when all of them returned success. */
  lemma CollectedResults(s: State, steps: seq<Step>)
    requires Init(s) && Run(s, steps).At? && GetResults(Run(s, steps).state).1
    ensures var r := Run(s, steps).state;
      var results := GetResults(r).2;
      && |results| == |r.added|
      && Failures(results) == FailingTasks(r.added)
      && multiset(ResultMessages(results)) == multiset(TaskMessages(r.added))
      && ((forall i :: 0 <= i < |results| ==> results[i].ok) <==>
            forall i :: 0 <= i < |r.added| ==> r.added[i].Returns? && r.added[i].ok)
  {
    hide Run, ResultOf;
    InvRun(s, steps);
    var r := Run(s, steps).state;
    CountsAgree(r);
    assert |InFlight(r.workers)| == 0;
    assert ResultsOf([]) == [];
    assert multiset(r.results) == multiset(ResultsOf(r.added));
    OrderIrrelevant(r.results, ResultsOf(r.added));
    ResultsOfTasks(r.added);
    FailuresCount(r.results);
    NoneFailing(r.added);
  }

  // In what order.

  /** The tasks that a run adds, in order. */
  function AddedBy(steps: seq<Step>): seq<Task> {
    if steps == [] then []
    else
      var last := steps[|steps| - 1];
      AddedBy(steps[..|steps| - 1]) + if last.Add? then [last.task] else []
  }

  /** The tasks that a run starts, in order: those that a worker has after holding the mutex. */
  function StartedBy(s: State, steps: seq<Step>): seq<Task> {
    if steps == [] then []
    else
      var last, end := steps[|steps| - 1], Run(s, steps);
      StartedBy(s, steps[..|steps| - 1])
      + if last.WorkerCheck? && end.At? && last.i < |end.state.workers| && end.state.workers[last.i].Running?
        then [end.state.workers[last.i].task] else []
  }

  /** Tasks are started in the order in which they are added, whatever the workers do: those
      that have been started and those still queued are the tasks added. */
  lemma {:induction false} StartedInOrder(s: State, steps: seq<Step>)
    requires Init(s) && Run(s, steps).At?
    ensures StartedBy(s, steps) + Run(s, steps).state.queue == AddedBy(steps)
  {
    if steps != [] {
      var before, last := steps[..|steps| - 1], steps[|steps| - 1];
      StartedInOrder(s, before);
      OneStarted(Run(s, before).state, last, StartedBy(s, before), AddedBy(before));
    }
  }

  lemma OneStarted(s: State, step: Step, started: seq<Task>, added: seq<Task>)
    requires Enabled(s, step) && started + s.queue == added
    ensures var s' := Next(s, step);
      var now := if step.WorkerCheck? && s'.workers[step.i].Running? then [s'.workers[step.i].task] else [];
      started + now + s'.queue == added + if step.Add? then [step.task] else []
  {
    hide WakeAll, ResultOf;
    var s' := Next(s, step);
    match step
    case Add(task) => assert started + (s.queue + [task]) == started + s.queue + [task];
    case WorkerCheck(i) =>
      if s.queue != [] {
        assert s.queue == [s.queue[0]] + s.queue[1..];
      } else {
        assert started + [] + [] == started;
      }
    case _ => assert started + [] == started && added + [] == added;
  }

  /** A result is stored behind those that are there, with what the task returned or threw. */
  lemma ReportedLast(s: State, i: nat)
    requires Enabled(s, Report(i))
    ensures var task := s.workers[i].task;
      Next(s, Report(i)).results == s.results + [Result(!Fails(task), Message(task))]
  {
  }
}
