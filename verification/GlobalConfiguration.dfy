/** Storing a global configuration as a whole: `storeGlobalConfiguration` and its
    multi-threaded version, and when they agree. */
module GlobalConfiguration {
  import opened Json
  import opened Overlay
  import opened DatabaseRecord
  import opened RecordHistory
  import opened DocumentStore
  import opened Composition
  import opened CompositionStore

  /** What the search for a composition of the name ends in: it throws, finds none, or finds
      one and loads its members; a failed load counts as no members. */
  datatype Search = SearchFailed | Absent | Present(oldMembers: seq<VersionInfo>)

  /** What both versions are called with; `resolve` is the search for the document of a
      member. */
  datatype Order = Order(name: string, members: seq<VersionInfo>, search: Search, overwrite: bool,
                         resolve: VersionInfo -> Option<Key>, now: string)

  /** What both versions refuse. */
  predicate Refused(o: Order) {
    o.members == [] || o.name == "" || (o.search.Present? && !o.overwrite)
  }

  function Difference(o: Order): Diff {
    DiffOf(if o.search.Present? && o.overwrite then o.search.oldMembers else [], o.members)
  }

  function Todo(o: Order): seq<VersionInfo> {
    if o.search.Present? && o.overwrite then Difference(o).toAssign else o.members
  }

  function Unassignments(o: Order): seq<Task> {
    var list := Difference(o).toUnassign;
    seq(|list|, i requires 0 <= i < |list| => Task(o.resolve(list[i]), RemoveConfiguration(EntryOf(o.name, o.now)), o.now))
  }

  function Assignments(o: Order, members: seq<VersionInfo>): (tasks: seq<Task>)
    ensures |tasks| == |members|
  {
    seq(|members|, i requires 0 <= i < |members| => Task(o.resolve(members[i]), AddConfiguration(EntryOf(o.name, o.now)), o.now))
  }

  /** The number of members before the first that does not validate. */
  function ValidPrefix(members: seq<VersionInfo>): (n: nat)
    ensures n <= |members|
    ensures forall i :: 0 <= i < n ==> members[i].Valid()
    ensures n < |members| ==> !members[n].Valid()
  {
    if members == [] || !members[0].Valid() then 0 else 1 + ValidPrefix(members[1..])
  }

  /** How the searches behind the writes of one call end, for both groups of tasks. */
  datatype Searches = Searches(unassign: Listing, assign: Listing)

  /** A failed search for the composition is passed on. Failed unassignments are passed over;
      all members are validated before the first assignment; assignments stop at the first
      that fails. */
  function Sequential(store: Store, o: Order, w: Searches): Ordered {
    if Refused(o) || o.search.SearchFailed? then Ordered(store, false)
    else
      var store1 := InOrder(store, Unassignments(o), w.unassign, false).store;
      if Todo(o) == [] then Ordered(store1, true)
      else if ValidPrefix(Todo(o)) < |Todo(o)| then Ordered(store1, false)
      else InOrder(store1, Assignments(o, Todo(o)), w.assign, true)
  }

  /** A failed search is logged and the composition taken for absent. All unassignments
      complete before any assignment is queued. A member that does not
      validate ends the queueing, but what was queued before it is still drained. */
  function Parallel(store: Store, o: Order, w: Searches, unassigning: seq<nat>, assigning: seq<nat>): Ordered {
    if Refused(o) then Ordered(store, false)
    else
      var store1 := Interleave(store, Unassignments(o), w.unassign, unassigning).store;
      if Todo(o) == [] then Ordered(store1, true)
      else
        var n := ValidPrefix(Todo(o));
        var r := Interleave(store1, Assignments(o, Todo(o)[..n]), w.assign, assigning);
        Ordered(r.store, n == |Todo(o)| && forall i :: 0 <= i < |r.phases| ==> r.phases[i].Succeeded())
  }

  /** The pool has run every task to its end. */
  predicate Completed(store: Store, o: Order, w: Searches, unassigning: seq<nat>, assigning: seq<nat>) {
    var r1 := Interleave(store, Unassignments(o), w.unassign, unassigning);
    Complete(r1)
    && Complete(Interleave(r1.store, Assignments(o, Todo(o)[..ValidPrefix(Todo(o))]), w.assign, assigning))
  }

  function AllListed(): Listing {
    i => true
  }

  /** The store after the unassignments, which does not depend on how their searches end. */
  function Unassigned(store: Store, o: Order): Store {
    InOrder(store, Unassignments(o), AllListed(), false).store
  }

  predicate DistinctDocuments(o: Order) {
    DistinctTargets(Unassignments(o)) && DistinctTargets(Assignments(o, Todo(o)))
  }

  /** The sequential version gets to the assignment of a member. */
  predicate Reached(store: Store, o: Order, w: Searches, i: nat)
    requires i <= |Todo(o)|
  {
    && !o.search.SearchFailed? && ValidPrefix(Todo(o)) == |Todo(o)|
    && AllSucceed(store, Assignments(o, Todo(o))[..i], w.assign)
  }

  lemma {:induction false} DonePhasesAt(store: Store, tasks: seq<Task>, listing: Listing, strict: bool, i: nat)
    requires i < |tasks|
    ensures DonePhases(store, tasks, listing, strict)[i].Finished? <==>
      Resolved(store, tasks[i]) && (strict ==> AllSucceed(store, tasks[..i], listing))
    decreases |tasks|
  {
    hide Resolved, AllSucceed;
    var n := |tasks| - 1;
    if i < n {
      DonePhasesAt(store, tasks[..n], listing, strict, i);
      assert tasks[..n][..i] == tasks[..i];
    }
  }

  lemma FinishedIfComplete(start: Store, tasks: seq<Task>, r: Run)
    requires |r.phases| == |tasks| && Fits(start, tasks, r) && Complete(r)
    ensures forall i :: 0 <= i < |tasks| ==> (r.phases[i].Finished? <==> Resolved(start, tasks[i]))
  {
    hide Outcome;
    forall i | 0 <= i < |tasks|
      ensures r.phases[i].Finished? <==> Resolved(start, tasks[i])
    {
      assert PhaseFits(start, r.store, tasks[i], r.phases[i]);
    }
  }

  /** In a complete run a task succeeds when its document is there and its search ends well. */
  lemma SucceededIfComplete(start: Store, tasks: seq<Task>, listing: Listing, schedule: seq<nat>)
    requires Consistent(start) && DistinctTargets(tasks) && Complete(Interleave(start, tasks, listing, schedule))
    ensures var phases := Interleave(start, tasks, listing, schedule).phases;
      && (forall i :: 0 <= i < |tasks| ==> (phases[i].Succeeded() <==> Resolved(start, tasks[i]) && listing(i)))
      && ((forall i :: 0 <= i < |tasks| ==> phases[i].Succeeded()) <==> AllSucceed(start, tasks, listing))
  {
    hide Consistent, DistinctTargets, Interleave, Fits, Resolved;
    InterleaveFits(start, tasks, listing, schedule);
    FinishedIfComplete(start, tasks, Interleave(start, tasks, listing, schedule));
    ListedPhases(start, tasks, listing, schedule);
  }

  lemma FitsConsistent(start: Store, tasks: seq<Task>, r: Run)
    requires Consistent(start) && DistinctTargets(tasks) && Fits(start, tasks, r)
    ensures Consistent(r.store)
  {
    hide Build;
    forall k | k in r.store
      ensures (r.store[k].collection, r.store[k].oid) == k && k.0 != ""
    {
      assert k in start.Keys;
      if i :| 0 <= i < |tasks| && tasks[i].target == Some(k) && r.phases[i].Finished? {
        assert PhaseFits(start, r.store, tasks[i], r.phases[i]);
        BuildKeepsPlace(start[k], tasks[i].op, tasks[i].now);
      } else {
        assert Untouched(k, tasks, r.phases);
      }
    }
  }

  /** Unassigning in parallel or in sequence is the same, whatever is not found and however
      the searches end. */
  lemma UnassignAgrees(store: Store, tasks: seq<Task>, listing: Listing, schedule: seq<nat>, listing': Listing)
    requires Consistent(store) && DistinctTargets(tasks) && Complete(Interleave(store, tasks, listing, schedule))
    ensures Interleave(store, tasks, listing, schedule).store == InOrder(store, tasks, listing', false).store
    ensures Consistent(InOrder(store, tasks, listing', false).store)
  {
    hide Consistent, DistinctTargets, Fits, Outcome, Resolved;
    var r := Interleave(store, tasks, listing, schedule);
    InterleaveFits(store, tasks, listing, schedule);
    InOrderFits(store, tasks, listing', false);
    FinishedIfComplete(store, tasks, r);
    var q := Run(InOrder(store, tasks, listing', false).store, DonePhases(store, tasks, listing', false));
    forall i | 0 <= i < |tasks|
      ensures r.phases[i].Finished? == q.phases[i].Finished?
    {
      DonePhasesAt(store, tasks, listing', false, i);
    }
    SameStore(store, tasks, r, q);
    FitsConsistent(store, tasks, q);
  }

  /** Assigning a configuration leaves exactly the readonly and deleted documents as they
      are: all others at least get a log entry. */
  lemma AssignmentChanges(r: Record, e: Entry, now: string)
    ensures Build(r, Some(AddConfiguration(e)), now) == r <==> r.Frozen()
  {
    AddSucceeds(r.configurations, e);
    hide AddedTo;
    var r' := Build(r, Some(AddConfiguration(e)), now);
    if !r.Frozen() {
      assert |r'.updates| == |r.updates| + 1;
    }
  }

  /** Unassignments change neither which documents there are nor which of them are frozen. */
  lemma UnassignKeepsFrozen(store: Store, o: Order, k: Key)
    requires Consistent(store) && DistinctTargets(Unassignments(o))
    ensures var store1 := Unassigned(store, o);
      store1.Keys == store.Keys && (k in store ==> store1[k].Frozen() == store[k].Frozen())
  {
    hide Consistent, DistinctTargets, InOrder, Build;
    var tasks := Unassignments(o);
    InOrderFits(store, tasks, AllListed(), false);
    var q := Run(Unassigned(store, o), DonePhases(store, tasks, AllListed(), false));
    if k in store {
      if i :| 0 <= i < |tasks| && tasks[i].target == Some(k) && q.phases[i].Finished? {
        assert PhaseFits(store, q.store, tasks[i], q.phases[i]);
        BuildKeepsPlace(store[k], tasks[i].op, tasks[i].now);
      } else {
        assert Untouched(k, tasks, q.phases);
      }
    }
  }

  /** In the store after the unassignments an assignment changes nothing exactly when its
      document was frozen to begin with. */
  lemma AssignmentVisible(store: Store, o: Order, i: nat)
    requires Consistent(store) && DistinctTargets(Unassignments(o)) && i < |Todo(o)|
    ensures var store1 := Unassigned(store, o);
      var task := Assignments(o, Todo(o))[i];
      && (Resolved(store1, task) <==> Resolved(store, task))
      && (Resolved(store, task) ==>
            (Outcome(store1, task) == store1[task.target.value] <==> store[task.target.value].Frozen()))
  {
    hide Consistent, DistinctTargets, InOrder, Build, Todo;
    var task := Assignments(o, Todo(o))[i];
    var store1 := Unassigned(store, o);
    if Resolved(store, task) || Resolved(store1, task) {
      var k := task.target.value;
      UnassignKeepsFrozen(store, o, k);
      AssignmentChanges(store1[k], EntryOf(o.name, o.now), o.now);
    }
  }

  /** The parallel version alone makes the assignment of this member, and it shows. */
  predicate OnlyParallel(store: Store, o: Order, w: Searches, i: nat)
    requires i <= |Todo(o)|
  {
    && i < ValidPrefix(Todo(o)) && !Reached(store, o, w, i)
    && var task := Assignments(o, Todo(o))[i];
       Resolved(store, task) && !store[task.target.value].Frozen()
  }

  predicate AnyOnlyParallel(store: Store, o: Order, w: Searches) {
    exists i :: 0 <= i < |Todo(o)| && OnlyParallel(store, o, w, i)
  }

  /** Every member is valid and found, and every search behind its assignment ends well. */
  predicate Assignable(store: Store, o: Order, w: Searches) {
    Todo(o) != [] ==> ValidPrefix(Todo(o)) == |Todo(o)| && AllSucceed(store, Assignments(o, Todo(o)), w.assign)
  }

  /** The two versions succeed alike but for the search for the composition, whose failure
      only the sequential one passes on, and for the searches behind the assignments, which
      end in each as they do. They end in the same store exactly when every assignment that
      only the parallel version makes - the sequential one stopped earlier, or did not start
      because its search failed - meets a readonly or deleted document. */
  lemma VersionsAgree(store: Store, o: Order, w: Searches, w': Searches, unassigning: seq<nat>, assigning: seq<nat>)
    requires Consistent(store) && DistinctDocuments(o) && Completed(store, o, w', unassigning, assigning)
    ensures var one, many := Sequential(store, o, w), Parallel(store, o, w', unassigning, assigning);
      && (one.ok <==> !Refused(o) && !o.search.SearchFailed? && Assignable(store, o, w))
      && (many.ok <==> !Refused(o) && Assignable(store, o, w'))
      && (many.store == one.store <==> Refused(o) || !AnyOnlyParallel(store, o, w))
  {
    hide Consistent, DistinctTargets, Outcome, ValidPrefix, InOrder, Interleave, Complete, Resolved, OnlyParallel, Differs, AllSucceed, Todo;
    if !Refused(o) {
      SameDifferences(store, o, w);
      if o.search.SearchFailed? {
        FailedSearch(store, o, w, w', unassigning, assigning);
      } else {
        FoundSearch(store, o, w, w', unassigning, assigning);
      }
    }
  }

  lemma SameDifferences(store: Store, o: Order, w: Searches)
    requires Consistent(store) && DistinctTargets(Unassignments(o))
    ensures !AnyOnlyParallel(store, o, w) <==> !AnyDiffers(Unassigned(store, o), o, w)
  {
    hide Consistent, DistinctTargets, Outcome, InOrder, Resolved, OnlyParallel, Differs, Todo, Unassigned;
    var store1 := Unassigned(store, o);
    forall i: nat | i < |Todo(o)|
      ensures OnlyParallel(store, o, w, i) <==> Differs(store1, o, w, i)
    {
      SameReached(store, o, w, i);
      AssignmentVisible(store, o, i);
      OneDiffers(store, store1, o, w, i);
    }
    if i: nat :| i < |Todo(o)| && OnlyParallel(store, o, w, i) {
      assert Differs(store1, o, w, i);
    }
  }

  /** The difference as it shows in the store after the unassignments. */
  predicate Differs(store1: Store, o: Order, w: Searches, i: nat)
    requires i < |Todo(o)|
  {
    && i < ValidPrefix(Todo(o)) && !Reached(store1, o, w, i)
    && var task := Assignments(o, Todo(o))[i];
       Shows(store1, task)
  }

  predicate AnyDiffers(store1: Store, o: Order, w: Searches) {
    exists i :: 0 <= i < |Todo(o)| && Differs(store1, o, w, i)
  }

  /** The task leaves its document changed. */
  predicate Shows(store: Store, task: Task) {
    Resolved(store, task) && Outcome(store, task) != store[task.target.value]
  }

  predicate NoneShows(store: Store, tasks: seq<Task>) {
    forall i: nat :: i < |tasks| ==> !Shows(store, tasks[i])
  }

  lemma SameReached(store: Store, o: Order, w: Searches, i: nat)
    requires Consistent(store) && DistinctTargets(Unassignments(o)) && i <= |Todo(o)|
    ensures Reached(Unassigned(store, o), o, w, i) <==> Reached(store, o, w, i)
  {
    hide Consistent, DistinctTargets, InOrder, Todo, ValidPrefix, Assignments;
    SameKeys(store, o);
  }

  lemma SameKeys(store: Store, o: Order)
    requires Consistent(store) && DistinctTargets(Unassignments(o))
    ensures Unassigned(store, o).Keys == store.Keys
    ensures forall tasks, listing :: AllSucceed(Unassigned(store, o), tasks, listing) == AllSucceed(store, tasks, listing)
  {
    hide Unassigned, Consistent, DistinctTargets;
    UnassignKeepsFrozen(store, o, ("", ""));
    var store1 := Unassigned(store, o);
    assert forall task: Task :: Resolved(store1, task) <==> task.target.Some? && task.target.value in store1.Keys;
  }

  lemma OneDiffers(store: Store, store1: Store, o: Order, w: Searches, i: nat)
    requires i < |Todo(o)| && (Reached(store1, o, w, i) <==> Reached(store, o, w, i))
    requires var task := Assignments(o, Todo(o))[i];
      && (Resolved(store1, task) <==> Resolved(store, task))
      && (Resolved(store, task) ==>
            (Outcome(store1, task) == store1[task.target.value] <==> store[task.target.value].Frozen()))
    ensures OnlyParallel(store, o, w, i) <==> Differs(store1, o, w, i)
  {
    hide Reached, ValidPrefix, Outcome;
  }

  /** The search succeeds: both versions go the same way up to the assignments. */
  lemma FoundSearch(store: Store, o: Order, w: Searches, w': Searches, unassigning: seq<nat>, assigning: seq<nat>)
    requires Consistent(store) && DistinctDocuments(o) && Completed(store, o, w', unassigning, assigning)
    requires !Refused(o) && !o.search.SearchFailed?
    ensures var one, many := Sequential(store, o, w), Parallel(store, o, w', unassigning, assigning);
      && (one.ok <==> Assignable(store, o, w)) && (many.ok <==> Assignable(store, o, w'))
      && (many.store == one.store <==> !AnyDiffers(Unassigned(store, o), o, w))
  {
    hide Consistent, DistinctTargets, Outcome, ValidPrefix, InOrder, Interleave, Complete, Resolved, Shows, NoneShows, AllSucceed;
    UnassignAgrees(store, Unassignments(o), w'.unassign, unassigning, AllListed());
    UnassignAgrees(store, Unassignments(o), w'.unassign, unassigning, w.unassign);
    SameKeys(store, o);
    if Todo(o) != [] {
      var store1 := Unassigned(store, o);
      var n := ValidPrefix(Todo(o));
      FirstAssignments(o, n);
      var tasks := Assignments(o, Todo(o));
      if n == |Todo(o)| {
        assert Todo(o)[..n] == Todo(o);
        AssignAgrees(store1, tasks, w.assign, w'.assign, assigning);
        assert forall i: nat :: i < |Todo(o)| ==>
          (Differs(store1, o, w, i) <==> !AllSucceed(store1, tasks[..i], w.assign) && Shows(store1, tasks[i]));
      } else {
        NoneAgrees(store1, tasks[..n], w'.assign, assigning);
        PrefixDiffers(store1, o, w);
      }
    }
  }

  /** The search fails: the sequential version does nothing, the parallel one assigns every
      member up to the first that does not validate. */
  lemma FailedSearch(store: Store, o: Order, w: Searches, w': Searches, unassigning: seq<nat>, assigning: seq<nat>)
    requires Consistent(store) && DistinctDocuments(o) && Completed(store, o, w', unassigning, assigning)
    requires !Refused(o) && o.search.SearchFailed?
    ensures var many := Parallel(store, o, w', unassigning, assigning);
      && Sequential(store, o, w) == Ordered(store, false)
      && (many.ok <==> Assignable(store, o, w'))
      && (many.store == store <==> !AnyDiffers(Unassigned(store, o), o, w))
  {
    hide Consistent, DistinctTargets, Outcome, ValidPrefix, InOrder, Interleave, Complete, Resolved, Shows, NoneShows, AllSucceed;
    UnassignAgrees(store, Unassignments(o), w'.unassign, unassigning, AllListed());
    NothingToUnassign(store, o);
    var n := ValidPrefix(o.members);
    FirstAssignments(o, n);
    var tasks := Assignments(o, o.members[..n]);
    NoneAgrees(store, tasks, w'.assign, assigning);
    PrefixDiffers(store, o, w);
    if n == |o.members| {
      assert o.members[..n] == o.members;
    }
  }

  /** Without assignments of the sequential version every one that shows is a difference. */
  lemma PrefixDiffers(store1: Store, o: Order, w: Searches)
    requires forall i: nat :: i < ValidPrefix(Todo(o)) ==> !Reached(store1, o, w, i)
    ensures var tasks := Assignments(o, Todo(o))[..ValidPrefix(Todo(o))];
      NoneShows(store1, tasks) <==> !AnyDiffers(store1, o, w)
  {
    hide Reached, ValidPrefix, Shows, Todo;
    var n, tasks := ValidPrefix(Todo(o)), Assignments(o, Todo(o));
    forall i: nat | i < n
      ensures Shows(store1, tasks[..n][i]) <==> Differs(store1, o, w, i)
    {
      assert tasks[..n][i] == tasks[i];
    }
    var first := tasks[..n];
    if NoneShows(store1, first) {
      forall i: nat | i < |Todo(o)|
        ensures !Differs(store1, o, w, i)
      {
        assert i < n ==> !Shows(store1, first[i]);
      }
    } else {
      var i: nat :| i < |first| && Shows(store1, first[i]);
      assert Differs(store1, o, w, i);
    }
  }

  lemma NothingToUnassign(store: Store, o: Order)
    requires o.search.SearchFailed?
    ensures Unassigned(store, o) == store
  {
  }

  lemma FirstAssignments(o: Order, n: nat)
    requires n <= |Todo(o)| && DistinctTargets(Assignments(o, Todo(o)))
    ensures Assignments(o, Todo(o)[..n]) == Assignments(o, Todo(o))[..n]
    ensures DistinctTargets(Assignments(o, Todo(o)[..n]))
  {
    hide Todo;
    assert forall i :: 0 <= i < n ==> Assignments(o, Todo(o))[..n][i] == Assignments(o, Todo(o))[i];
  }

  lemma AssignAgrees(store: Store, tasks: seq<Task>, listing: Listing, listing': Listing, schedule: seq<nat>)
    requires Consistent(store) && DistinctTargets(tasks) && Complete(Interleave(store, tasks, listing', schedule))
    ensures var one, r := InOrder(store, tasks, listing, true), Interleave(store, tasks, listing', schedule);
      && (one.ok <==> AllSucceed(store, tasks, listing))
      && ((forall i :: 0 <= i < |r.phases| ==> r.phases[i].Succeeded()) <==> AllSucceed(store, tasks, listing'))
      && (r.store == one.store <==>
            forall i: nat :: i < |tasks| && !AllSucceed(store, tasks[..i], listing) ==> !Shows(store, tasks[i]))
  {
    hide Consistent, DistinctTargets, Fits, Outcome, Interleave, InOrder, AllSucceed;
    var r := Interleave(store, tasks, listing', schedule);
    InterleaveFits(store, tasks, listing', schedule);
    InOrderFits(store, tasks, listing, true);
    FinishedIfComplete(store, tasks, r);
    SucceededIfComplete(store, tasks, listing', schedule);
    var q := Run(InOrder(store, tasks, listing, true).store, DonePhases(store, tasks, listing, true));
    forall i: nat | i < |tasks|
      ensures q.phases[i].Finished? <==> Resolved(store, tasks[i]) && AllSucceed(store, tasks[..i], listing)
    {
      DonePhasesAt(store, tasks, listing, true, i);
    }
    SameStore(store, tasks, r, q);
  }

  lemma NoneAgrees(store: Store, tasks: seq<Task>, listing: Listing, schedule: seq<nat>)
    requires Consistent(store) && DistinctTargets(tasks) && Complete(Interleave(store, tasks, listing, schedule))
    ensures var r := Interleave(store, tasks, listing, schedule);
      && ((forall i :: 0 <= i < |r.phases| ==> r.phases[i].Succeeded()) <==> AllSucceed(store, tasks, listing))
      && (r.store == store <==> NoneShows(store, tasks))
  {
    hide Consistent, DistinctTargets, Fits, Outcome, Interleave, AllSucceed;
    var r := Interleave(store, tasks, listing, schedule);
    InterleaveFits(store, tasks, listing, schedule);
    FinishedIfComplete(store, tasks, r);
    SucceededIfComplete(store, tasks, listing, schedule);
    NothingDone(store, tasks);
    SameStore(store, tasks, r, Run(store, seq(|tasks|, _ => Fresh)));
  }

  /** When every member validates and names a document and the searches end well, the
      parallel version ends as the sequential one does, for every interleaving of either group
      of tasks. */
  lemma ParallelIsSequential(store: Store, o: Order, w: Searches, w': Searches, unassigning: seq<nat>, assigning: seq<nat>)
    requires Consistent(store) && DistinctDocuments(o) && Completed(store, o, w', unassigning, assigning)
    requires !o.search.SearchFailed? && Assignable(store, o, w) && Assignable(store, o, w')
    ensures Parallel(store, o, w', unassigning, assigning) == Sequential(store, o, w)
  {
    hide Consistent, DistinctTargets, Outcome, InOrder, Interleave, Complete, Difference;
    VersionsAgree(store, o, w, w', unassigning, assigning);
    var tasks := Assignments(o, Todo(o));
    forall i: nat | i < |Todo(o)|
      ensures !OnlyParallel(store, o, w, i)
    {
      assert forall j :: 0 <= j < i ==> tasks[..i][j] == tasks[j];
    }
  }

  /** One call of assign_configuration or remove_configuration on the database; `listed` says
      how the search behind the write ends, which fails the call with its document written. */
  method PerformTask(db: Database, task: Task, listed: bool) returns (ok: bool)
    requires db.Valid() && task.op.Ready()
    modifies db
    ensures db.Valid() && Ordered(db.documents, ok) == OneTask(old(db.documents), task, listed)
    ensures ok ==> Resolved(old(db.documents), task) && listed
  {
    hide Build, ProviderWrite;
    if task.target.None? || task.target.value !in db.documents {
      return false;
    }
    var doc := db.Change(db.documents[task.target.value], task.op, task.now);
    ok := db.Write(Filtered(doc.oid), doc, "", false, task.now);
    ok := ok && listed;
  }

  /** Both steps of a task in a row. */
  function OneTask(store: Store, task: Task, listed: bool): Ordered {
    var (store1, phase1) := StepTask(store, task, Fresh, listed);
    var (store2, phase2) := StepTask(store1, task, phase1, listed);
    Ordered(store2, phase2.Succeeded())
  }

  lemma NextTask(store: Store, tasks: seq<Task>, listing: Listing, i: nat, strict: bool)
    requires i < |tasks|
    ensures var before := InOrder(store, tasks[..i], listing, strict);
      InOrder(store, tasks[..i + 1], listing, strict) ==
      if strict && !before.ok then before
      else
        var one := OneTask(before.store, tasks[i], listing(i));
        Ordered(one.store, before.ok && one.ok)
  {
    hide StepTask;
    assert tasks[..i + 1][..i] == tasks[..i];
  }

  /** The sequential version, loop by loop. */
  method StoreGlobalConfiguration(db: Database, o: Order, w: Searches) returns (ok: bool)
    requires db.Valid()
    modifies db
    ensures db.Valid() && Ordered(db.documents, ok) == Sequential(old(db.documents), o, w)
  {
    hide InOrder, DiffOf, OneTask;
    if o.members == [] || o.name == "" || o.search.SearchFailed? || (o.search.Present? && !o.overwrite) {
      return false;
    }
    ghost var store := db.documents;
    var oldMembers := if o.search.Present? && o.overwrite then o.search.oldMembers else [];
    var diff := ComputeCompositionDiff(oldMembers, o.members);
    var drops := diff.toUnassign;
    NoTasks(store, Unassignments(o), w.unassign, false);
    for i := 0 to |drops|
      invariant db.Valid() && db.documents == InOrder(store, Unassignments(o)[..i], w.unassign, false).store
    {
      NextTask(store, Unassignments(o), w.unassign, i, false);
      var _ := PerformTask(db, Task(o.resolve(drops[i]), RemoveConfiguration(EntryOf(o.name, o.now)), o.now), w.unassign(i));
    }
    assert Unassignments(o)[..|drops|] == Unassignments(o);
    ghost var store1 := db.documents;
    var todo := if o.search.Present? && o.overwrite then diff.toAssign else o.members;
    if todo == [] {
      return true;
    }
    for i := 0 to |todo|
      invariant ValidPrefix(todo) >= i && db.Valid() && db.documents == store1
    {
      ValidNext(todo, i);
      if !todo[i].Valid() {
        return false;
      }
    }
    ok := true;
    var n := 0;
    NoTasks(store1, Assignments(o, todo), w.assign, true);
    while ok && n < |todo|
      invariant 0 <= n <= |todo|
      invariant db.Valid() && Ordered(db.documents, ok) == InOrder(store1, Assignments(o, todo)[..n], w.assign, true)
      invariant !ok ==> InOrder(store1, Assignments(o, todo), w.assign, true) == Ordered(db.documents, false)
      decreases |todo| - n
    {
      NextTask(store1, Assignments(o, todo), w.assign, n, true);
      ok := PerformTask(db, Task(o.resolve(todo[n]), AddConfiguration(EntryOf(o.name, o.now)), o.now), w.assign(n));
      n := n + 1;
      if !ok {
        StoppedAt(store1, Assignments(o, todo), w.assign, n);
      }
    }
    assert Assignments(o, todo)[..|todo|] == Assignments(o, todo);
  }

  lemma NoTasks(store: Store, tasks: seq<Task>, listing: Listing, strict: bool)
    ensures InOrder(store, tasks[..0], listing, strict) == Ordered(store, true)
  {
  }

  lemma {:induction false} ValidNext(members: seq<VersionInfo>, i: nat)
    requires i < |members| && ValidPrefix(members) >= i
    ensures members[i].Valid() <==> ValidPrefix(members) > i
  {
  }

  /** Nothing is done after the first assignment that fails. */
  lemma {:induction false} StoppedAt(store: Store, tasks: seq<Task>, listing: Listing, n: nat)
    requires n <= |tasks| && !InOrder(store, tasks[..n], listing, true).ok
    ensures InOrder(store, tasks, listing, true) == InOrder(store, tasks[..n], listing, true)
    decreases |tasks|
  {
    hide StepTask;
    if n == |tasks| {
      assert tasks[..n] == tasks;
    } else {
      assert tasks[..|tasks| - 1][..n] == tasks[..n];
      StoppedAt(store, tasks[..|tasks| - 1], listing, n);
    }
  }

  lemma TakesStep(store: Store, tasks: seq<Task>, listing: Listing, schedule: seq<nat>, i: nat)
    requires i < |tasks|
    ensures var before := Interleave(store, tasks, listing, schedule);
      var (store', phase) := StepTask(before.store, tasks[i], before.phases[i], listing(i));
      Interleave(store, tasks, listing, schedule + [i]) == Run(store', before.phases[i := phase])
  {
    hide StepTask;
    assert (schedule + [i])[..|schedule|] == schedule;
  }

  /** Two steps in a row finish a task whose document is there. */
  lemma BothTaken(store: Store, tasks: seq<Task>, listing: Listing, schedule: seq<nat>, i: nat)
    requires Consistent(store) && DistinctTargets(tasks) && i < |tasks| && Resolved(store, tasks[i])
    requires Interleave(store, tasks, listing, schedule).phases[i].Fresh?
    ensures var before := Interleave(store, tasks, listing, schedule);
      Interleave(store, tasks, listing, schedule + [i] + [i]).phases == before.phases[i := Finished(listing(i))]
  {
    hide Consistent, DistinctTargets, Build, ProviderWrite, Interleave, Fits;
    InterleaveFits(store, tasks, listing, schedule);
    SameResolved(store, tasks, Interleave(store, tasks, listing, schedule), i);
    TakesStep(store, tasks, listing, schedule, i);
    TakesStep(store, tasks, listing, schedule + [i], i);
    InterleaveFits(store, tasks, listing, schedule + [i] + [i]);
    FitsAt(store, tasks, Interleave(store, tasks, listing, schedule + [i] + [i]), i);
  }

  function Blank(): Record {
    Record("1", "1", "c", "t", [], [], [], [], [], false, false, [], Object([]))
  }

  /** One member, a failed search: the sequential version reports a failure and does nothing,
      the parallel one assigns the member and reports success. */
  lemma FailedSearchDisagrees(now: string)
    ensures var o := Order("g", [VersionInfo("c", "1", "e")], SearchFailed, false, _ => Some(("c", "1")), now);
      var w := Searches(AllListed(), AllListed());
      var store: Store := map[("c", "1") := Blank()];
      var one, many := Sequential(store, o, w), Parallel(store, o, w, [], [0, 0]);
      && Completed(store, o, w, [], [0, 0])
      && !one.ok && one.store == store && many.ok && many.store != store
  {
    hide Build, InOrder, Interleave;
    var o := Order("g", [VersionInfo("c", "1", "e")], SearchFailed, false, _ => Some(("c", "1")), now);
    var w := Searches(AllListed(), AllListed());
    var store: Store := map[("c", "1") := Blank()];
    var tasks := Assignments(o, o.members);
    assert Unassignments(o) == [];
    assert ValidPrefix(o.members) == 1 && o.members[..1] == o.members;
    NoSteps(store, tasks, w.assign);
    NoSteps(store, [], w.unassign);
    BothTaken(store, tasks, w.assign, [], 0);
    assert [] + [0] + [0] == [0, 0];
    assert Completed(store, o, w, [], [0, 0]);
    assert OnlyParallel(store, o, w, 0);
    VersionsAgree(store, o, w, w, [], [0, 0]);
  }

  lemma NoSteps(store: Store, tasks: seq<Task>, listing: Listing)
    ensures Interleave(store, tasks, listing, []) == Run(store, seq(|tasks|, _ => Fresh))
  {
  }

  /** Two members, the first without a document: the sequential version stops there, the
      parallel one assigns the second. Both report a failure. */
  lemma MissingDocumentDisagrees(now: string)
    ensures var missing, there := VersionInfo("c", "0", "e"), VersionInfo("c", "1", "e");
      var o := Order("g", [missing, there], Absent, false, m => if m == there then Some(("c", "1")) else None, now);
      var w := Searches(AllListed(), AllListed());
      var store: Store := map[("c", "1") := Blank()];
      var one, many := Sequential(store, o, w), Parallel(store, o, w, [], [0, 1, 1]);
      && Completed(store, o, w, [], [0, 1, 1])
      && one.ok == many.ok && one.store != many.store
  {
    hide Build, InOrder, Interleave;
    var missing, there := VersionInfo("c", "0", "e"), VersionInfo("c", "1", "e");
    var o := Order("g", [missing, there], Absent, false, m => if m == there then Some(("c", "1")) else None, now);
    var w := Searches(AllListed(), AllListed());
    var store: Store := map[("c", "1") := Blank()];
    var tasks := Assignments(o, o.members);
    assert Unassignments(o) == [];
    assert o.members[1..] == [there] && ValidPrefix(o.members[1..]) == 1;
    assert ValidPrefix(o.members) == 2 && o.members[..2] == o.members;
    NoSteps(store, tasks, w.assign);
    NoSteps(store, [], w.unassign);
    TakesStep(store, tasks, w.assign, [], 0);
    assert tasks[0].target == None && tasks[1].target == Some(("c", "1"));
    assert Interleave(store, tasks, w.assign, [0]).phases == [Failed, Fresh] by {
      assert [] + [0] == [0];
    }
    BothTaken(store, tasks, w.assign, [0], 1);
    assert [0] + [1] + [1] == [0, 1, 1];
    assert Completed(store, o, w, [], [0, 1, 1]);
    assert !Resolved(store, tasks[..1][0]) && !Reached(store, o, w, 1);
    assert OnlyParallel(store, o, w, 1);
    VersionsAgree(store, o, w, w, [], [0, 1, 1]);
  }
}
