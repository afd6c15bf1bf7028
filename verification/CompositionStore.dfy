/** The assignments of a composition, as the sequential and as the parallel interface make
    them. */
module CompositionStore {
  import opened Json
  import opened Overlay
  import opened DatabaseRecord
  import opened RecordHistory
  import opened DocumentStore
  import opened Composition

  /** One call of assign_configuration or remove_configuration: the document its search
      finds, if any, and what is done to it. */
  datatype Task = Task(target: Option<Key>, op: Op, now: string)

  /** How far a task is: it reads its document in one step and writes it back in another.
      Behind the write it searches for the composition; when that throws, the task fails with
      its document written. */
  datatype Phase = Fresh | Holds(doc: Record) | Finished(listed: bool) | Failed {
    predicate Succeeded() {
      Finished? && listed
    }
  }

  /** For each task of one run, whether the search behind its write ends well. What it finds
      depends on all documents at that moment, so every run has a listing of its own. */
  type Listing = nat -> bool

  predicate Resolved(store: Store, task: Task) {
    task.target.Some? && task.target.value in store
  }

  function StepTask(store: Store, task: Task, phase: Phase, listed: bool): (Store, Phase) {
    match phase
    case Fresh => if Resolved(store, task) then (store, Holds(store[task.target.value])) else (store, Failed)
    case Holds(doc) =>
      var doc' := Build(doc, Some(task.op), task.now);
      var written := ProviderWrite(store, Filtered(doc'.oid), doc', "", false, task.now);
      (After(store, written), if written.Some? then Finished(listed) else Failed)
    case _ => (store, phase)
  }

  datatype Run = Run(store: Store, phases: seq<Phase>)

  /** An interleaving: at each point the task whose turn it is takes its next step. */
  function Interleave(store: Store, tasks: seq<Task>, listing: Listing, schedule: seq<nat>): (r: Run)
    ensures |r.phases| == |tasks|
  {
    if schedule == [] then Run(store, seq(|tasks|, _ => Fresh))
    else
      var before := Interleave(store, tasks, listing, schedule[..|schedule| - 1]);
      var i := schedule[|schedule| - 1];
      if i >= |tasks| then before
      else
        var (store', phase) := StepTask(before.store, tasks[i], before.phases[i], listing(i));
        Run(store', before.phases[i := phase])
  }

  predicate Complete(r: Run) {
    forall i :: 0 <= i < |r.phases| ==> r.phases[i].Finished? || r.phases[i].Failed?
  }

  /** The document a task leaves behind. */
  function Outcome(store: Store, task: Task): Record
    requires Resolved(store, task)
  {
    Build(store[task.target.value], Some(task.op), task.now)
  }

  predicate Membership(task: Task) {
    task.op.AddConfiguration? || task.op.RemoveConfiguration?
  }

  /** The tasks name distinct documents. */
  predicate DistinctTargets(tasks: seq<Task>) {
    && (forall i :: 0 <= i < |tasks| ==> Membership(tasks[i]))
    && forall i, j :: 0 <= i < j < |tasks| && tasks[i].target.Some? ==> tasks[i].target != tasks[j].target
  }

  predicate PhaseFits(start: Store, store: Store, task: Task, phase: Phase) {
    if !Resolved(start, task) then phase.Fresh? || phase.Failed?
    else
      var k := task.target.value;
      && k in store && !phase.Failed?
      && store[k] == (if phase.Finished? then Outcome(start, task) else start[k])
      && (phase.Holds? ==> phase.doc == start[k])
  }

  predicate Untouched(k: Key, tasks: seq<Task>, phases: seq<Phase>)
    requires |phases| == |tasks|
  {
    forall i :: 0 <= i < |tasks| && tasks[i].target == Some(k) ==> !phases[i].Finished?
  }

  /** The store is determined by which tasks have finished. */
  ghost predicate Fits(start: Store, tasks: seq<Task>, r: Run) {
    && |r.phases| == |tasks| && r.store.Keys == start.Keys
    && (forall i :: 0 <= i < |tasks| ==> PhaseFits(start, r.store, tasks[i], r.phases[i]))
    && forall k :: k in start && Untouched(k, tasks, r.phases) ==> r.store[k] == start[k]
  }

  lemma StepFits(start: Store, tasks: seq<Task>, r: Run, i: nat, listed: bool)
    requires |r.phases| == |tasks|
    requires Consistent(start) && DistinctTargets(tasks) && Fits(start, tasks, r) && i < |tasks|
    ensures var (store', phase) := StepTask(r.store, tasks[i], r.phases[i], listed);
      Fits(start, tasks, Run(store', r.phases[i := phase]))
  {
    hide Fits, Build, ProviderWrite, Consistent, DistinctTargets;
    match r.phases[i]
    case Fresh => ReadFits(start, tasks, r, i, listed);
    case Holds(doc) => WriteFits(start, tasks, r, i, listed);
    case _ => assert r.phases[i := r.phases[i]] == r.phases;
  }

  lemma ReadFits(start: Store, tasks: seq<Task>, r: Run, i: nat, listed: bool)
    requires Fits(start, tasks, r) && i < |tasks| && r.phases[i].Fresh?
    ensures Fits(start, tasks, Run(r.store, r.phases[i := StepTask(r.store, tasks[i], Fresh, listed).1]))
  {
    hide Outcome, Untouched, ProviderWrite, Build;
    var phases' := r.phases[i := StepTask(r.store, tasks[i], Fresh, listed).1];
    assert PhaseFits(start, r.store, tasks[i], r.phases[i]);
    forall k | k in start && Untouched(k, tasks, phases')
      ensures r.store[k] == start[k]
    {
      StillUntouched(k, tasks, r.phases, phases', i);
    }
  }

  lemma StillUntouched(k: Key, tasks: seq<Task>, phases: seq<Phase>, phases': seq<Phase>, i: nat)
    requires |phases| == |tasks| && i < |tasks| && !phases[i].Finished?
    requires |phases'| == |tasks| && phases' == phases[i := phases'[i]] && Untouched(k, tasks, phases')
    ensures Untouched(k, tasks, phases)
  {
    forall j | 0 <= j < |tasks| && tasks[j].target == Some(k)
      ensures !phases[j].Finished?
    {
      assert !phases'[j].Finished?;
    }
  }

  lemma WriteFits(start: Store, tasks: seq<Task>, r: Run, i: nat, listed: bool)
    requires Consistent(start) && DistinctTargets(tasks) && Fits(start, tasks, r) && i < |tasks| && r.phases[i].Holds?
    ensures var (store', phase) := StepTask(r.store, tasks[i], r.phases[i], listed);
      Fits(start, tasks, Run(store', r.phases[i := phase]))
  {
    hide Outcome, StepTask, Consistent;
    assert PhaseFits(start, r.store, tasks[i], r.phases[i]);
    var k := tasks[i].target.value;
    StepWrites(start, r.store, tasks[i], listed);
    var store' := r.store[k := Outcome(start, tasks[i])];
    var phases' := r.phases[i := Finished(listed)];
    assert phases'[i].Finished? && tasks[i].target == Some(k);
    forall j | 0 <= j < |tasks|
      ensures PhaseFits(start, store', tasks[j], phases'[j])
    {
      assert PhaseFits(start, r.store, tasks[j], r.phases[j]);
    }
    forall l | l in start && Untouched(l, tasks, phases')
      ensures store'[l] == start[l]
    {
      StillUntouched(l, tasks, r.phases, phases', i);
    }
  }

  lemma StepWrites(start: Store, store: Store, task: Task, listed: bool)
    requires Consistent(start) && Resolved(start, task) && Membership(task)
    ensures var k := task.target.value;
      StepTask(store, task, Holds(start[k]), listed) == (store[k := Outcome(start, task)], Finished(listed))
  {
    hide Build, ProviderWrite, Consistent;
    WrittenBack(start, store, task.target.value, task.op, task.now);
  }

  /** What a task writes depends on the document it has read, not on the rest of the store. */
  lemma WrittenBack(start: Store, store: Store, k: Key, op: Op, now: string)
    requires Consistent(start) && k in start && (op.AddConfiguration? || op.RemoveConfiguration?)
    ensures var doc := Build(start[k], Some(op), now);
      ProviderWrite(store, Filtered(doc.oid), doc, "", false, now) == Some(store[k := doc])
  {
    hide Apply;
    var doc := Build(start[k], Some(op), now);
    BuildKeepsPlace(start[k], op, now);
    Placed(store, doc, doc.oid, now);
  }

  lemma {:induction false} InterleaveFits(start: Store, tasks: seq<Task>, listing: Listing, schedule: seq<nat>)
    requires Consistent(start) && DistinctTargets(tasks)
    ensures Fits(start, tasks, Interleave(start, tasks, listing, schedule))
  {
    hide Consistent, DistinctTargets, Fits, StepTask;
    if schedule == [] {
      NothingDone(start, tasks);
    } else {
      InterleaveFits(start, tasks, listing, schedule[..|schedule| - 1]);
      var i := schedule[|schedule| - 1];
      if i < |tasks| {
        StepFits(start, tasks, Interleave(start, tasks, listing, schedule[..|schedule| - 1]), i, listing(i));
      }
    }
  }

  /** A task that has written its document knows how its own search ended. */
  lemma {:induction false} ListedPhases(start: Store, tasks: seq<Task>, listing: Listing, schedule: seq<nat>)
    ensures var phases := Interleave(start, tasks, listing, schedule).phases;
      forall i :: 0 <= i < |tasks| && phases[i].Finished? ==> phases[i].listed == listing(i)
  {
    hide Resolved, Build, ProviderWrite;
    if schedule != [] {
      ListedPhases(start, tasks, listing, schedule[..|schedule| - 1]);
    }
  }

  lemma NothingDone(start: Store, tasks: seq<Task>)
    ensures Fits(start, tasks, Run(start, seq(|tasks|, _ => Fresh)))
  {
  }

  /** Two runs over the same tasks end in the same store exactly when every task that only
      one of them has finished leaves its document as it was. */
  lemma SameStore(start: Store, tasks: seq<Task>, r: Run, q: Run)
    requires DistinctTargets(tasks) && Fits(start, tasks, r) && Fits(start, tasks, q)
    ensures r.store == q.store <==> forall i :: 0 <= i < |tasks| && r.phases[i].Finished? != q.phases[i].Finished? ==>
      Resolved(start, tasks[i]) && Outcome(start, tasks[i]) == start[tasks[i].target.value]
  {
    hide Build;
    if forall i :: 0 <= i < |tasks| && r.phases[i].Finished? != q.phases[i].Finished? ==>
         Resolved(start, tasks[i]) && Outcome(start, tasks[i]) == start[tasks[i].target.value] {
      forall k | k in start
        ensures r.store[k] == q.store[k]
      {
        if i :| 0 <= i < |tasks| && tasks[i].target == Some(k) {
          assert PhaseFits(start, r.store, tasks[i], r.phases[i]) && PhaseFits(start, q.store, tasks[i], q.phases[i]);
        } else {
          assert Untouched(k, tasks, r.phases) && Untouched(k, tasks, q.phases);
        }
      }
    }
    forall i | 0 <= i < |tasks|
      ensures r.phases[i].Finished? || q.phases[i].Finished? ==> Resolved(start, tasks[i])
    {
      assert PhaseFits(start, r.store, tasks[i], r.phases[i]) && PhaseFits(start, q.store, tasks[i], q.phases[i]);
    }
  }

  /** When the tasks name distinct documents, every interleaving that completes ends in the
      same store and with the same tasks done, however the searches end; with the same ends
      of the searches, also with the same successes. */
  lemma InterleavingsAgree(start: Store, tasks: seq<Task>, listing: Listing, one: seq<nat>, listing': Listing, other: seq<nat>)
    requires Consistent(start) && DistinctTargets(tasks)
    requires Complete(Interleave(start, tasks, listing, one)) && Complete(Interleave(start, tasks, listing', other))
    ensures var r, q := Interleave(start, tasks, listing, one), Interleave(start, tasks, listing', other);
      && r.store == q.store
      && (forall i :: 0 <= i < |tasks| ==> r.phases[i].Finished? == q.phases[i].Finished?)
      && (listing == listing' ==> r == q)
  {
    hide Consistent, DistinctTargets, Outcome;
    InterleaveFits(start, tasks, listing, one);
    InterleaveFits(start, tasks, listing', other);
    ListedPhases(start, tasks, listing, one);
    ListedPhases(start, tasks, listing', other);
    var r, q := Interleave(start, tasks, listing, one), Interleave(start, tasks, listing', other);
    forall i | 0 <= i < |tasks|
      ensures r.phases[i].Finished? == q.phases[i].Finished?
      ensures listing == listing' ==> r.phases[i] == q.phases[i]
    {
      assert PhaseFits(start, r.store, tasks[i], r.phases[i]) && PhaseFits(start, q.store, tasks[i], q.phases[i]);
    }
    SameStore(start, tasks, r, q);
  }

  /** Tasks one after another; `strict` stops at the first that fails. */
  datatype Ordered = Ordered(store: Store, ok: bool)

  function InOrder(store: Store, tasks: seq<Task>, listing: Listing, strict: bool): Ordered {
    if tasks == [] then Ordered(store, true)
    else
      var n := |tasks| - 1;
      var before := InOrder(store, tasks[..n], listing, strict);
      if strict && !before.ok then before
      else
        var (store1, phase1) := StepTask(before.store, tasks[n], Fresh, listing(n));
        var (store2, phase2) := StepTask(store1, tasks[n], phase1, listing(n));
        Ordered(store2, before.ok && phase2.Succeeded())
  }

  /** The tasks that are done one after another before the first that fails. */
  function DonePhases(store: Store, tasks: seq<Task>, listing: Listing, strict: bool): (phases: seq<Phase>)
    ensures |phases| == |tasks|
  {
    if tasks == [] then []
    else
      var n := |tasks| - 1;
      DonePhases(store, tasks[..n], listing, strict)
      + [if strict && !AllSucceed(store, tasks[..n], listing) then Fresh
         else if Resolved(store, tasks[n]) then Finished(listing(n)) else Failed]
  }

  /** Every document is there, and every search behind a write ends well. */
  predicate AllSucceed(store: Store, tasks: seq<Task>, listing: Listing) {
    forall i :: 0 <= i < |tasks| ==> Resolved(store, tasks[i]) && listing(i)
  }

  lemma {:induction false} InOrderFits(start: Store, tasks: seq<Task>, listing: Listing, strict: bool)
    requires Consistent(start) && DistinctTargets(tasks)
    ensures Fits(start, tasks, Run(InOrder(start, tasks, listing, strict).store, DonePhases(start, tasks, listing, strict)))
    ensures InOrder(start, tasks, listing, strict).ok == AllSucceed(start, tasks, listing)
    decreases |tasks|
  {
    if tasks == [] {
      assert Run(start, []).phases == seq(|tasks|, _ => Fresh);
      NothingDone(start, tasks);
    } else {
      hide Consistent, Fits, Build, ProviderWrite, Outcome, PhaseFits, StepTask, Resolved, DistinctTargets, AllSucceed;
      var n := |tasks| - 1;
      FirstTasks(start, tasks, listing);
      InOrderFits(start, tasks[..n], listing, strict);
      var before := Run(InOrder(start, tasks[..n], listing, strict).store, DonePhases(start, tasks[..n], listing, strict));
      OneMore(start, tasks, before);
      if !(strict && !AllSucceed(start, tasks[..n], listing)) {
        BothSteps(start, tasks, before, listing(n));
      }
    }
  }

  lemma FirstTasks(start: Store, tasks: seq<Task>, listing: Listing)
    requires tasks != [] && DistinctTargets(tasks)
    ensures DistinctTargets(tasks[..|tasks| - 1])
    ensures AllSucceed(start, tasks, listing) <==>
      AllSucceed(start, tasks[..|tasks| - 1], listing) && Resolved(start, tasks[|tasks| - 1]) && listing(|tasks| - 1)
  {
    hide Resolved;
    assert forall i :: 0 <= i < |tasks| - 1 ==> tasks[..|tasks| - 1][i] == tasks[i];
  }

  /** A task that has its two steps in a row. */
  lemma BothSteps(start: Store, tasks: seq<Task>, before: Run, listed: bool)
    requires tasks != [] && Consistent(start) && DistinctTargets(tasks)
    requires |before.phases| == |tasks| - 1 && Fits(start, tasks, Run(before.store, before.phases + [Fresh]))
    ensures var last := tasks[|tasks| - 1];
      var (store1, phase1) := StepTask(before.store, last, Fresh, listed);
      var (store2, phase2) := StepTask(store1, last, phase1, listed);
      && phase2 == (if Resolved(start, last) then Finished(listed) else Failed)
      && Fits(start, tasks, Run(store2, before.phases + [phase2]))
  {
    hide Consistent, Fits, Build, ProviderWrite, DistinctTargets;
    var n := |tasks| - 1;
    var r0 := Run(before.store, before.phases + [Fresh]);
    SameResolved(start, tasks, r0, n);
    StepFits(start, tasks, r0, n, listed);
    var (store1, phase1) := StepTask(r0.store, tasks[n], Fresh, listed);
    assert r0.phases[n := phase1] == before.phases + [phase1];
    var r1 := Run(store1, before.phases + [phase1]);
    StepFits(start, tasks, r1, n, listed);
    var (store2, phase2) := StepTask(store1, tasks[n], phase1, listed);
    assert r1.phases[n := phase2] == before.phases + [phase2];
    FitsAt(start, tasks, Run(store2, before.phases + [phase2]), n);
  }

  lemma FitsAt(start: Store, tasks: seq<Task>, r: Run, i: nat)
    requires |r.phases| == |tasks| && Fits(start, tasks, r) && i < |tasks|
    ensures PhaseFits(start, r.store, tasks[i], r.phases[i])
  {
  }

  lemma OneMore(start: Store, tasks: seq<Task>, before: Run)
    requires tasks != [] && DistinctTargets(tasks) && Fits(start, tasks[..|tasks| - 1], before)
    ensures Fits(start, tasks, Run(before.store, before.phases + [Fresh]))
  {
    hide Build;
    var n := |tasks| - 1;
    var r := Run(before.store, before.phases + [Fresh]);
    forall i | 0 <= i < |tasks|
      ensures PhaseFits(start, r.store, tasks[i], r.phases[i])
    {
      if i < n {
        assert PhaseFits(start, before.store, tasks[..n][i], before.phases[i]);
      } else if Resolved(start, tasks[n]) {
        var k := tasks[n].target.value;
        forall j | 0 <= j < n
          ensures tasks[..n][j].target != Some(k)
        {
          assert tasks[j].target.Some? ==> tasks[j].target != tasks[n].target;
        }
        assert Untouched(k, tasks[..n], before.phases);
      }
    }
    forall k | k in start && Untouched(k, tasks, r.phases)
      ensures r.store[k] == start[k]
    {
      forall j | 0 <= j < n && tasks[..n][j].target == Some(k)
        ensures !before.phases[j].Finished?
      {
        assert tasks[j].target == Some(k) && r.phases[j] == before.phases[j];
      }
      assert Untouched(k, tasks[..n], before.phases);
    }
  }

  lemma SameResolved(start: Store, tasks: seq<Task>, r: Run, i: nat)
    requires |r.phases| == |tasks| && Fits(start, tasks, r) && i < |tasks|
    ensures Resolved(r.store, tasks[i]) == Resolved(start, tasks[i])
  {
    hide Build;
    assert tasks[i].target.Some? ==> (tasks[i].target.value in r.store.Keys <==> tasks[i].target.value in start.Keys);
  }
}
