/** Assignments run as tasks of the pool: the worker that runs a task takes the task's steps
    on the store and reports it when they are done. */
module StorePool {
  import opened Overlay
  import opened DatabaseRecord
  import opened DocumentStore
  import opened Composition
  import opened CompositionStore
  import opened GlobalConfiguration
  import Pool = Multitasker
  import Text

  /** The pool's task for a task on the store. Its result is named here before it runs;
      EndIsResult shows that the task can end with no other. */
  function Job(start: Store, tasks: seq<Task>, listing: Listing, i: nat): Pool.Task
    requires i < |tasks|
  {
    Pool.Returns(Resolved(start, tasks[i]) && listing(i), Text.Decimal(i))
  }

  function Jobs(start: Store, tasks: seq<Task>, listing: Listing): seq<Pool.Task> {
    seq(|tasks|, i requires 0 <= i < |tasks| => Job(start, tasks, listing, i))
  }

  datatype Joint = Joint(pool: Pool.State, run: Run)

  /** A step of the pool's threads, or a step on the store inside the job of a worker. */
  datatype Move = PoolStep(step: Pool.Step) | StoreStep(worker: nat, i: nat)

  predicate Ended(phase: Phase) {
    phase.Finished? || phase.Failed?
  }

  predicate MayReport(start: Store, tasks: seq<Task>, listing: Listing, phases: seq<Phase>, job: Pool.Task)
    requires |phases| == |tasks|
  {
    forall i :: 0 <= i < |tasks| && Pool.ResultOf(job) == Pool.ResultOf(Job(start, tasks, listing, i)) ==> Ended(phases[i])
  }

  /** A worker reports the result of a job only when the job is done. */
  predicate Enabled(start: Store, tasks: seq<Task>, listing: Listing, s: Joint, move: Move) {
    && |s.run.phases| == |tasks|
    && match move
       case PoolStep(step) =>
         && Pool.Enabled(s.pool, step)
         && (step.Report? ==> MayReport(start, tasks, listing, s.run.phases, s.pool.workers[step.i].task))
       case StoreStep(w, i) => w < |s.pool.workers| && i < |tasks| && s.pool.workers[w] == Pool.Running(Job(start, tasks, listing, i))
  }

  function Next(start: Store, tasks: seq<Task>, listing: Listing, s: Joint, move: Move): Joint
    requires Enabled(start, tasks, listing, s, move)
  {
    match move
    case PoolStep(step) => s.(pool := Pool.Next(s.pool, step))
    case StoreStep(_, i) =>
      var (store, phase) := StepTask(s.run.store, tasks[i], s.run.phases[i], listing(i));
      s.(run := Run(store, s.run.phases[i := phase]))
  }

  datatype Reached = Nowhere | Here(state: Joint)

  function RunJoint(start: Store, tasks: seq<Task>, listing: Listing, pool: Pool.State, moves: seq<Move>): Reached {
    if moves == [] then Here(Joint(pool, Run(start, seq(|tasks|, _ => Fresh))))
    else
      match RunJoint(start, tasks, listing, pool, moves[..|moves| - 1])
      case Nowhere => Nowhere
      case Here(s) =>
        if Enabled(start, tasks, listing, s, moves[|moves| - 1]) then Here(Next(start, tasks, listing, s, moves[|moves| - 1])) else Nowhere
  }

  function PoolSteps(moves: seq<Move>): seq<Pool.Step> {
    if moves == [] then []
    else
      var last := moves[|moves| - 1];
      PoolSteps(moves[..|moves| - 1]) + if last.PoolStep? then [last.step] else []
  }

  /** The order in which the jobs take their steps on the store. */
  function Schedule(moves: seq<Move>): seq<nat> {
    if moves == [] then []
    else
      var last := moves[|moves| - 1];
      Schedule(moves[..|moves| - 1]) + if last.StoreStep? then [last.i] else []
  }

  /** A job whose result is stored is done. */
  predicate ReportedEnded(start: Store, tasks: seq<Task>, listing: Listing, s: Joint) {
    && |s.run.phases| == |tasks|
    && forall i :: 0 <= i < |tasks| && Pool.ResultOf(Job(start, tasks, listing, i)) in s.pool.results ==> Ended(s.run.phases[i])
  }

  lemma PoolStepKeeps(start: Store, tasks: seq<Task>, listing: Listing, s: Joint, step: Pool.Step)
    requires ReportedEnded(start, tasks, listing, s) && Enabled(start, tasks, listing, s, PoolStep(step))
    ensures ReportedEnded(start, tasks, listing, Next(start, tasks, listing, s, PoolStep(step)))
  {
    hide Job;
  }

  lemma StoreStepKeeps(start: Store, tasks: seq<Task>, listing: Listing, s: Joint, w: nat, i: nat)
    requires ReportedEnded(start, tasks, listing, s) && Enabled(start, tasks, listing, s, StoreStep(w, i))
    ensures ReportedEnded(start, tasks, listing, Next(start, tasks, listing, s, StoreStep(w, i)))
  {
    hide Job, StepTask;
    EndedStays(s.run.store, tasks[i], s.run.phases[i], listing(i));
  }

  lemma PoolRunNext(pool: Pool.State, steps: seq<Pool.Step>, step: Pool.Step)
    requires Pool.Run(pool, steps).At? && Pool.Enabled(Pool.Run(pool, steps).state, step)
    ensures Pool.Run(pool, steps + [step]) == Pool.At(Pool.Next(Pool.Run(pool, steps).state, step))
  {
    hide Pool.Enabled, Pool.Next;
    assert (steps + [step])[..|steps|] == steps;
  }

  /** Seen from the pool a joint run is a run of the pool, seen from the store it is an
      interleaving; and a job whose result is stored is done. */
  lemma {:induction false} JointRun(start: Store, tasks: seq<Task>, listing: Listing, pool: Pool.State, moves: seq<Move>)
    requires pool.results == [] && RunJoint(start, tasks, listing, pool, moves).Here?
    ensures var s := RunJoint(start, tasks, listing, pool, moves).state;
      && Pool.Run(pool, PoolSteps(moves)) == Pool.At(s.pool)
      && s.run == Interleave(start, tasks, listing, Schedule(moves))
      && ReportedEnded(start, tasks, listing, s)
  {
    hide StepTask, Job, Pool.Enabled, Pool.Next, Pool.Run, Interleave, ReportedEnded;
    if moves == [] {
      NothingRun(start, tasks, listing, pool);
    } else {
      var n := |moves| - 1;
      JointRun(start, tasks, listing, pool, moves[..n]);
      var before := RunJoint(start, tasks, listing, pool, moves[..n]).state;
      match moves[n]
      case PoolStep(step) =>
        PoolRunNext(pool, PoolSteps(moves[..n]), step);
        PoolStepKeeps(start, tasks, listing, before, step);
        assert Schedule(moves[..n]) + [] == Schedule(moves[..n]);
      case StoreStep(w, i) =>
        TakesStep(start, tasks, listing, Schedule(moves[..n]), i);
        StoreStepKeeps(start, tasks, listing, before, w, i);
        assert PoolSteps(moves[..n]) + [] == PoolSteps(moves[..n]);
    }
  }

  lemma NothingRun(start: Store, tasks: seq<Task>, listing: Listing, pool: Pool.State)
    requires pool.results == []
    ensures Pool.Run(pool, []) == Pool.At(pool)
    ensures Interleave(start, tasks, listing, []) == Run(start, seq(|tasks|, _ => Fresh))
    ensures ReportedEnded(start, tasks, listing, Joint(pool, Run(start, seq(|tasks|, _ => Fresh))))
  {
  }

  lemma EndedStays(store: Store, task: Task, phase: Phase, listed: bool)
    ensures Ended(phase) ==> StepTask(store, task, phase, listed).1 == phase
  {
  }

  /** The owner has seen the pool run empty: waitForResults has returned, or the destructor
      has joined the workers. */
  predicate RunEmpty(first: Pool.State, last: Pool.State) {
    last.owner == Pool.Ready || (first.workers != [] && last.owner == Pool.Done)
  }

  /** A pool whose owner has the jobs of these tasks, and no others since the last collection,
      run empty. */
  predicate Drained(start: Store, tasks: seq<Task>, listing: Listing, pool: Pool.State, moves: seq<Move>) {
    && RunJoint(start, tasks, listing, pool, moves).Here?
    && RunEmpty(pool, RunJoint(start, tasks, listing, pool, moves).state.pool)
    && RunJoint(start, tasks, listing, pool, moves).state.pool.added == Jobs(start, tasks, listing)
  }

  /** When the pool has run empty, every task has run to its end, with exactly one result
      each; after waitForResults getResults hands these out. */
  lemma PoolCompletes(start: Store, tasks: seq<Task>, listing: Listing, pool: Pool.State, moves: seq<Move>)
    requires Pool.Init(pool) && Drained(start, tasks, listing, pool, moves)
    ensures var s := RunJoint(start, tasks, listing, pool, moves).state;
      && s.run == Interleave(start, tasks, listing, Schedule(moves)) && Complete(s.run)
      && multiset(s.pool.results) == multiset(Pool.ResultsOf(Jobs(start, tasks, listing)))
      && (s.pool.owner == Pool.Ready ==> Pool.GetResults(s.pool).1 && Pool.GetResults(s.pool).2 == s.pool.results)
  {
    hide Interleave, Job, Pool.Run, PoolSteps, RunJoint;
    JointRun(start, tasks, listing, pool, moves);
    var s := RunJoint(start, tasks, listing, pool, moves).state;
    if s.pool.owner == Pool.Ready {
      Pool.ResultsComplete(pool, PoolSteps(moves));
    } else {
      Pool.DestructorDrains(pool, PoolSteps(moves));
    }
    forall i: nat | i < |tasks|
      ensures Ended(s.run.phases[i])
    {
      var results := Pool.ResultsOf(Jobs(start, tasks, listing));
      assert results[i] == Pool.ResultOf(Job(start, tasks, listing, i));
      assert results[i] in multiset(s.pool.results);
    }
  }

  /** At every moment of every joint run, a task that has ended has ended as its job says: the
      result that is reported is the one its own steps on the store came to. */
  lemma EndIsResult(start: Store, tasks: seq<Task>, listing: Listing, pool: Pool.State, moves: seq<Move>, i: nat)
    requires Consistent(start) && DistinctTargets(tasks) && i < |tasks|
    requires Pool.Init(pool) && RunJoint(start, tasks, listing, pool, moves).Here?
    ensures var s := RunJoint(start, tasks, listing, pool, moves).state;
      Ended(s.run.phases[i]) ==>
        (Pool.ResultOf(Job(start, tasks, listing, i)).ok <==> s.run.phases[i].Succeeded())
  {
    hide Interleave, Consistent, DistinctTargets, RunJoint, Fits, Resolved, Outcome;
    JointRun(start, tasks, listing, pool, moves);
    InterleaveFits(start, tasks, listing, Schedule(moves));
    FitsAt(start, tasks, Interleave(start, tasks, listing, Schedule(moves)), i);
    ListedPhases(start, tasks, listing, Schedule(moves));
  }

  /** All results report success exactly when every task succeeded, and that is when every
      document was there and every search ended well. */
  lemma ResultsTell(start: Store, tasks: seq<Task>, listing: Listing, pool: Pool.State, moves: seq<Move>)
    requires Consistent(start) && DistinctTargets(tasks)
    requires Pool.Init(pool) && Drained(start, tasks, listing, pool, moves)
    ensures var s := RunJoint(start, tasks, listing, pool, moves).state;
      && ((forall r :: r in s.pool.results ==> r.ok) <==> forall i :: 0 <= i < |tasks| ==> s.run.phases[i].Succeeded())
      && ((forall r :: r in s.pool.results ==> r.ok) <==> AllSucceed(start, tasks, listing))
  {
    hide Interleave, Consistent, DistinctTargets, RunJoint, Fits;
    PoolCompletes(start, tasks, listing, pool, moves);
    SucceededIfComplete(start, tasks, listing, Schedule(moves));
    var s := RunJoint(start, tasks, listing, pool, moves).state;
    var results, expected := s.pool.results, Pool.ResultsOf(Jobs(start, tasks, listing));
    assert forall r :: r in results <==> r in multiset(results);
    assert forall r :: r in expected <==> r in multiset(expected);
    forall i | 0 <= i < |tasks|
      ensures expected[i].ok <==> s.run.phases[i].Succeeded()
    {
      EndIsResult(start, tasks, listing, pool, moves, i);
      assert expected[i] == Pool.ResultOf(Job(start, tasks, listing, i));
    }
    if forall r :: r in results ==> r.ok {
      forall i | 0 <= i < |tasks|
        ensures s.run.phases[i].Succeeded()
      {
        assert expected[i] in expected;
      }
    }
  }

  /** The pools of the parallel version run both groups of tasks to their ends, the second
      group on the store that the first leaves - also when a member does not validate, so that
      the second pool is not waited for but destroyed. */
  lemma PoolsComplete(store: Store, o: Order, w: Searches, pool1: Pool.State, moves1: seq<Move>, pool2: Pool.State, moves2: seq<Move>)
    requires Pool.Init(pool1) && Pool.Init(pool2)
    requires Drained(store, Unassignments(o), w.unassign, pool1, moves1)
    requires var store1 := RunJoint(store, Unassignments(o), w.unassign, pool1, moves1).state.run.store;
      Drained(store1, Assignments(o, Todo(o)[..ValidPrefix(Todo(o))]), w.assign, pool2, moves2)
    ensures Completed(store, o, w, Schedule(moves1), Schedule(moves2))
  {
    hide Interleave, RunJoint, Complete, Unassignments, Assignments, ValidPrefix;
    PoolCompletes(store, Unassignments(o), w.unassign, pool1, moves1);
    var store1 := RunJoint(store, Unassignments(o), w.unassign, pool1, moves1).state.run.store;
    PoolCompletes(store1, Assignments(o, Todo(o)[..ValidPrefix(Todo(o))]), w.assign, pool2, moves2);
  }
}
