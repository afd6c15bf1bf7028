/** What storing a global configuration leaves in the documents of its members, in terms of
    the members, the name of the configuration and the names in the documents. */
module CompositionFields {
  import opened Json
  import opened Overlay
  import opened DatabaseRecord
  import opened RecordHistory
  import opened RecordFields
  import opened DocumentStore
  import opened StoreFields
  import opened Composition
  import opened CompositionStore
  import opened GlobalConfiguration

  predicate SamePlace(m: VersionInfo, m': VersionInfo) {
    m.configuration == m'.configuration && m.entity == m'.entity
  }

  /** The member is in the list, and none behind it has its configuration and entity. */
  predicate LastOf(members: seq<VersionInfo>, m: VersionInfo) {
    exists i :: 0 <= i < |members| && members[i] == m && forall j :: i < j < |members| ==> !SamePlace(members[j], m)
  }

  /** The member was in the composition and is not the last of its configuration and entity
      in the new one. */
  predicate Goes(o: Order, m: VersionInfo) {
    o.search.Present? && m in o.search.oldMembers && !LastOf(o.members, m)
  }

  /** The member is in the new composition, and the last of its configuration and entity was
      not in the old one. */
  predicate Comes(o: Order, m: VersionInfo) {
    && m in o.members
    && !(o.search.Present? && exists m' :: m' in o.search.oldMembers && SamePlace(m', m) && LastOf(o.members, m'))
  }

  /** A document that the search gives for a member that comes. */
  predicate ComesTo(o: Order, k: Key) {
    exists m :: m in o.members && Comes(o, m) && o.resolve(m) == Some(k)
  }

  predicate GoesFrom(o: Order, k: Key) {
    o.search.Present? && exists m :: m in o.search.oldMembers && Goes(o, m) && o.resolve(m) == Some(k)
  }

  /** No two members have the same configuration and entity. */
  predicate OneVersionEach(members: seq<VersionInfo>) {
    forall i, j :: 0 <= i < j < |members| ==> !SamePlace(members[i], members[j])
  }

  /** Then the members that come are the new ones, and those that go the ones left out. */
  lemma OneVersionEachMoves(o: Order, m: VersionInfo)
    requires OneVersionEach(o.members)
    ensures Comes(o, m) <==> m in o.members && !(o.search.Present? && m in o.search.oldMembers)
    ensures Goes(o, m) <==> o.search.Present? && m in o.search.oldMembers && m !in o.members
  {
    if m in o.members {
      var i :| 0 <= i < |o.members| && o.members[i] == m;
      assert forall j :: i < j < |o.members| ==> !SamePlace(o.members[j], m);
      assert LastOf(o.members, m);
      forall m' | LastOf(o.members, m') && SamePlace(m', m)
        ensures m' == m
      {
        var j :| 0 <= j < |o.members| && o.members[j] == m';
        assert !(i < j) && !(j < i);
      }
    }
  }

  lemma {:induction false} KeptIsLast(members: seq<VersionInfo>, m: VersionInfo)
    ensures Kept(m, VersionMap(members)) <==> LastOf(members, m)
  {
    if members != [] {
      var n := |members| - 1;
      KeptIsLast(members[..n], m);
      if SamePlace(members[n], m) {
        if LastOf(members, m) {
          var i :| 0 <= i < |members| && members[i] == m && forall j :: i < j < |members| ==> !SamePlace(members[j], m);
          assert i == n;
        }
      } else {
        if LastOf(members[..n], m) {
          var i :| 0 <= i < n && members[..n][i] == m && forall j :: i < j < n ==> !SamePlace(members[..n][j], m);
          assert members[i] == m;
          forall j | i < j < |members|
            ensures !SamePlace(members[j], m)
          {
            assert j < n ==> members[..n][j] == members[j];
          }
        }
        if LastOf(members, m) {
          var i :| 0 <= i < |members| && members[i] == m && forall j :: i < j < |members| ==> !SamePlace(members[j], m);
          assert i < n && members[..n][i] == m;
        }
      }
    }
  }

  /** The tasks are for the members that come and for those that go. */
  lemma TasksFor(o: Order)
    requires o.search.Present? ==> o.overwrite
    ensures forall m :: m in Todo(o) <==> Comes(o, m)
    ensures forall m :: m in Difference(o).toUnassign <==> Goes(o, m)
  {
    hide LastOf, VersionMap, Kept;
    var oldMembers := if o.search.Present? then o.search.oldMembers else [];
    var versions := VersionMap(o.members);
    forall m
      ensures Kept(m, versions) <==> LastOf(o.members, m)
    {
      KeptIsLast(o.members, m);
    }
    var same := Composition.SameKeys(oldMembers, versions);
    ToDropMembers(oldMembers, versions);
    ToAddMembers(o.members, same);
    forall m | m in o.members
      ensures m.MembershipKey() in same <==> exists m' :: m' in oldMembers && SamePlace(m', m) && LastOf(o.members, m')
    {
      if m.MembershipKey() in same {
        var m' :| m' in oldMembers && Kept(m', versions) && m'.MembershipKey() == m.MembershipKey();
        assert SamePlace(m', m);
      }
    }
  }

  /** Every task whose document is there has been done, and nothing else has. */
  ghost predicate Done(start: Store, tasks: seq<Task>, end: Store) {
    && end.Keys == start.Keys
    && (forall i :: 0 <= i < |tasks| && Resolved(start, tasks[i]) ==>
          end[tasks[i].target.value] == Outcome(start, tasks[i]))
    && forall k :: k in start && (forall i :: 0 <= i < |tasks| ==> tasks[i].target != Some(k)) ==> end[k] == start[k]
  }

  lemma FitsDone(start: Store, tasks: seq<Task>, r: Run)
    requires |r.phases| == |tasks| && Fits(start, tasks, r)
    requires forall i :: 0 <= i < |tasks| ==> (r.phases[i].Finished? <==> Resolved(start, tasks[i]))
    ensures Done(start, tasks, r.store)
  {
    hide Outcome;
    forall i | 0 <= i < |tasks| && Resolved(start, tasks[i])
      ensures r.store[tasks[i].target.value] == Outcome(start, tasks[i])
    {
      assert PhaseFits(start, r.store, tasks[i], r.phases[i]);
    }
    forall k | k in start && forall i :: 0 <= i < |tasks| ==> tasks[i].target != Some(k)
      ensures r.store[k] == start[k]
    {
      assert Untouched(k, tasks, r.phases);
    }
  }

  lemma InOrderDone(start: Store, tasks: seq<Task>, listing: Listing, strict: bool)
    requires Consistent(start) && DistinctTargets(tasks)
    requires strict ==> AllSucceed(start, tasks, listing)
    ensures Done(start, tasks, InOrder(start, tasks, listing, strict).store)
    ensures Consistent(InOrder(start, tasks, listing, strict).store)
  {
    hide Consistent, DistinctTargets, Fits, Resolved, Done;
    var r := Run(InOrder(start, tasks, listing, strict).store, DonePhases(start, tasks, listing, strict));
    InOrderFits(start, tasks, listing, strict);
    FitsConsistent(start, tasks, r);
    forall i | 0 <= i < |tasks|
      ensures r.phases[i].Finished? <==> Resolved(start, tasks[i])
    {
      DonePhasesAt(start, tasks, listing, strict, i);
      assert strict ==> forall j :: 0 <= j < i ==> tasks[..i][j] == tasks[j];
    }
    FitsDone(start, tasks, r);
  }

  lemma InterleaveDone(start: Store, tasks: seq<Task>, listing: Listing, schedule: seq<nat>)
    requires Consistent(start) && DistinctTargets(tasks) && Complete(Interleave(start, tasks, listing, schedule))
    ensures Done(start, tasks, Interleave(start, tasks, listing, schedule).store)
    ensures Consistent(Interleave(start, tasks, listing, schedule).store)
  {
    hide Consistent, DistinctTargets, Fits, Resolved, Done;
    var r := Interleave(start, tasks, listing, schedule);
    InterleaveFits(start, tasks, listing, schedule);
    FitsConsistent(start, tasks, r);
    FinishedIfComplete(start, tasks, r);
    FitsDone(start, tasks, r);
  }

  /** The documents before and after. */
  ghost predicate Memberships(store: Store, o: Order, store': Store) {
    && store'.Keys == store.Keys
    && forall k :: k in store ==> MembershipAt(o, k, store[k], store'[k])
  }

  /** A frozen document stays as it is, and so does that of a member that neither comes nor
      goes. A document of a member that comes has the name of the configuration among its
      configurations and loses none; a document of a member that goes, and of none that
      comes, loses this name and no other. Nothing but the configurations and the log changes. */
  ghost predicate MembershipAt(o: Order, k: Key, r: Record, r': Record) {
    && (!Writable(r) || (!ComesTo(o, k) && !GoesFrom(o, k)) ==> r' == r)
    && (Writable(r) && ComesTo(o, k) ==>
          forall name :: name in Names(r'.configurations) <==> name in Names(r.configurations) || name == o.name)
    && (Writable(r) && GoesFrom(o, k) && !ComesTo(o, k) ==>
          forall name :: name in Names(r'.configurations) <==> name in Names(r.configurations) && name != o.name)
    && r' == r.(configurations := r'.configurations, updates := r'.updates)
    && r.updates <= r'.updates
  }

  /** One document through the unassignments. */
  lemma Departed(store: Store, o: Order, store1: Store, k: Key)
    requires Done(store, Unassignments(o), store1) && k in store
    requires forall m :: m in Difference(o).toUnassign <==> Goes(o, m)
    ensures k in store1
    ensures var r, r1 := store[k], store1[k];
      && (!Writable(r) || !GoesFrom(o, k) ==> r1 == r)
      && (Writable(r) && GoesFrom(o, k) ==>
            forall name :: name in Names(r1.configurations) <==> name in Names(r.configurations) && name != o.name)
      && r1 == r.(configurations := r1.configurations, updates := r1.updates)
      && r.updates <= r1.updates
  {
    hide Apply, Difference, Goes, Loses, Names;
    var tasks, list := Unassignments(o), Difference(o).toUnassign;
    if GoesFrom(o, k) {
      var m :| m in o.search.oldMembers && Goes(o, m) && o.resolve(m) == Some(k);
      var i :| 0 <= i < |list| && list[i] == m;
      assert Resolved(store, tasks[i]);
      UnassignedRecord(store[k], o.name, o.now);
    } else {
      forall i | 0 <= i < |tasks|
        ensures tasks[i].target != Some(k)
      {
        assert Goes(o, list[i]);
        assert o.search.Present? && list[i] in o.search.oldMembers by {
          assert Goes(o, list[i]);
          GoesMeans(o, list[i]);
        }
      }
    }
  }

  lemma GoesMeans(o: Order, m: VersionInfo)
    requires Goes(o, m)
    ensures o.search.Present? && m in o.search.oldMembers
  {
  }

  lemma ComesMeans(o: Order, m: VersionInfo)
    requires Comes(o, m)
    ensures m in o.members
  {
  }

  lemma UnassignedRecord(r: Record, name: string, now: string)
    ensures var r' := Build(r, Some(RemoveConfiguration(Entry(name, Some(now), None))), now);
      && (!Writable(r) ==> r' == r)
      && (Writable(r) ==>
            forall other :: other in Names(r'.configurations) <==> other in Names(r.configurations) && other != name)
      && r' == r.(configurations := r'.configurations, updates := r'.updates)
      && r.updates <= r'.updates
  {
    hide Apply, Loses, Names;
    var e := Entry(name, Some(now), None);
    if Writable(r) {
      Removals(r, e, now);
      LostNames(r.configurations, Apply(r, RemoveConfiguration(e), now).0.configurations, name);
    } else {
      Refusals(r, RemoveConfiguration(e), now);
    }
  }

  lemma AssignedRecord(r: Record, name: string, now: string)
    ensures var r' := Build(r, Some(AddConfiguration(Entry(name, Some(now), None))), now);
      && (!Writable(r) ==> r' == r)
      && (Writable(r) ==>
            forall other :: other in Names(r'.configurations) <==> other in Names(r.configurations) || other == name)
      && r' == r.(configurations := r'.configurations, updates := r'.updates)
      && r.updates <= r'.updates
  {
    hide Apply, Gains, Names;
    var e := Entry(name, Some(now), None);
    if Writable(r) {
      Additions(r, e, now);
      GainedNames(r.configurations, Apply(r, AddConfiguration(e), now).0.configurations, e);
    } else {
      Refusals(r, AddConfiguration(e), now);
    }
  }

  /** One document through the assignments. */
  lemma Arrived(store1: Store, o: Order, store': Store, k: Key)
    requires Done(store1, Assignments(o, Todo(o)), store') && k in store1
    requires forall m :: m in Todo(o) <==> Comes(o, m)
    ensures k in store'
    ensures var r, r' := store1[k], store'[k];
      && (!Writable(r) || !ComesTo(o, k) ==> r' == r)
      && (Writable(r) && ComesTo(o, k) ==>
            forall name :: name in Names(r'.configurations) <==> name in Names(r.configurations) || name == o.name)
      && r' == r.(configurations := r'.configurations, updates := r'.updates)
      && r.updates <= r'.updates
  {
    hide Apply, Todo, Comes, Gains, Names;
    var tasks, list := Assignments(o, Todo(o)), Todo(o);
    if ComesTo(o, k) {
      var m :| m in o.members && Comes(o, m) && o.resolve(m) == Some(k);
      var i :| 0 <= i < |list| && list[i] == m;
      assert Resolved(store1, tasks[i]);
      AssignedRecord(store1[k], o.name, o.now);
    } else {
      forall i | 0 <= i < |tasks|
        ensures tasks[i].target != Some(k)
      {
        assert Comes(o, list[i]);
        ComesMeans(o, list[i]);
      }
    }
  }

  lemma MembershipsFrom(store: Store, o: Order, store1: Store, store': Store)
    requires o.search.Present? ==> o.overwrite
    requires Done(store, Unassignments(o), store1) && Done(store1, Assignments(o, Todo(o)), store')
    ensures Memberships(store, o, store')
  {
    hide Done, Todo, Difference, ComesTo, GoesFrom, Names, Assignments, Unassignments, Comes, Goes;
    TasksFor(o);
    forall k | k in store
      ensures k in store' && MembershipAt(o, k, store[k], store'[k])
    {
      Departed(store, o, store1, k);
      Arrived(store1, o, store', k);
    }
    SameDocuments(store, o, store1, store');
  }

  lemma SameDocuments(store: Store, o: Order, store1: Store, store': Store)
    requires Done(store, Unassignments(o), store1) && Done(store1, Assignments(o, Todo(o)), store')
    ensures store'.Keys == store.Keys
  {
  }

  /** When the sequential version succeeds, the documents are those of the new composition. */
  lemma SequentialMemberships(store: Store, o: Order, w: Searches)
    requires Consistent(store) && DistinctDocuments(o)
    requires Sequential(store, o, w).ok
    ensures Memberships(store, o, Sequential(store, o, w).store)
  {
    hide Consistent, DistinctTargets, InOrder, Done, Todo, Difference, Memberships, Assignments, Unassignments, AllSucceed;
    InOrderDone(store, Unassignments(o), w.unassign, false);
    var store1 := InOrder(store, Unassignments(o), w.unassign, false).store;
    if Todo(o) == [] {
      NoAssignments(store1, o);
    } else {
      InOrderFits(store1, Assignments(o, Todo(o)), w.assign, true);
      InOrderDone(store1, Assignments(o, Todo(o)), w.assign, true);
    }
    MembershipsFrom(store, o, store1, Sequential(store, o, w).store);
  }

  lemma NoAssignments(store: Store, o: Order)
    requires Todo(o) == []
    ensures Done(store, Assignments(o, Todo(o)), store)
  {
  }

  /** And so they are when the parallel version has run to its end and succeeds. */
  lemma ParallelMemberships(store: Store, o: Order, w: Searches, unassigning: seq<nat>, assigning: seq<nat>)
    requires Consistent(store) && DistinctDocuments(o)
    requires Completed(store, o, w, unassigning, assigning) && Parallel(store, o, w, unassigning, assigning).ok
    ensures Memberships(store, o, Parallel(store, o, w, unassigning, assigning).store)
  {
    hide Consistent, DistinctTargets, Interleave, Complete, Done, Todo, Difference, Memberships, Assignments, Unassignments, AllSucceed, ValidPrefix;
    InterleaveDone(store, Unassignments(o), w.unassign, unassigning);
    var store1 := Interleave(store, Unassignments(o), w.unassign, unassigning).store;
    if Todo(o) == [] {
      NoAssignments(store1, o);
    } else {
      assert Todo(o)[..|Todo(o)|] == Todo(o);
      InterleaveDone(store1, Assignments(o, Todo(o)), w.assign, assigning);
    }
    MembershipsFrom(store, o, store1, Parallel(store, o, w, unassigning, assigning).store);
  }

  /** A member that validates, whose document is there, and behind whose assignment the search
      ends well. */
  predicate Settled(store: Store, o: Order, m: VersionInfo, listed: bool) {
    && m.configuration != "" && m.version != "" && m.entity != ""
    && o.resolve(m).Some? && o.resolve(m).value in store && listed
  }

  lemma {:induction false} ValidToEnd(members: seq<VersionInfo>)
    ensures ValidPrefix(members) == |members| <==>
      forall i :: 0 <= i < |members| ==> members[i].configuration != "" && members[i].version != "" && members[i].entity != ""
  {
    if ValidPrefix(members) == |members| {
      assert forall i :: 0 <= i < |members| ==> members[i].Valid();
    }
  }

  predicate AllSettled(store: Store, o: Order, members: seq<VersionInfo>, w: Searches) {
    forall i :: 0 <= i < |members| ==> Settled(store, o, members[i], w.assign(i))
  }

  lemma AssignableIfSettled(store: Store, o: Order, w: Searches)
    ensures Assignable(store, o, w) <==> AllSettled(store, o, Todo(o), w)
  {
    hide Todo, ValidPrefix;
    ValidToEnd(Todo(o));
    var tasks := Assignments(o, Todo(o));
    forall i | 0 <= i < |Todo(o)|
      ensures Settled(store, o, Todo(o)[i], w.assign(i)) <==> Todo(o)[i].Valid() && Resolved(store, tasks[i]) && w.assign(i)
    {
    }
    if Todo(o) != [] && Assignable(store, o, w) {
      assert forall i :: 0 <= i < |Todo(o)| ==> Resolved(store, tasks[i]) && w.assign(i);
    }
  }

  /** What is refused, and exactly when either version succeeds. */
  lemma SucceedsExactly(store: Store, o: Order, w: Searches, unassigning: seq<nat>, assigning: seq<nat>)
    requires Consistent(store) && DistinctDocuments(o) && Completed(store, o, w, unassigning, assigning)
    ensures var one, many := Sequential(store, o, w), Parallel(store, o, w, unassigning, assigning);
      var taken := o.members != [] && o.name != "" && (o.search.Present? ==> o.overwrite);
      && (!taken ==> one == many == Ordered(store, false))
      && (one.ok <==> taken && AllSettled(store, o, Todo(o), w) && !o.search.SearchFailed?)
      && (many.ok <==> taken && AllSettled(store, o, Todo(o), w))
  {
    VersionsAgree(store, o, w, w, unassigning, assigning);
    hide Consistent, DistinctDocuments, InOrder, Interleave, Todo, Completed, ValidPrefix, AnyOnlyParallel, Assignable, AllSettled, Unassignments, Assignments;
    AssignableIfSettled(store, o, w);
  }
}
