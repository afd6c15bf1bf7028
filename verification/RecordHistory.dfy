/** What whole runs of record operations keep: the update log replays to the record, names
    stay distinct, aliases are conserved, failures change nothing and frozen records stay. */
module RecordHistory {
  import opened Json
  import opened Overlay
  import opened DatabaseRecord

  /** The part of a record that its update log describes. */
  datatype View = View(configurations: seq<string>, entities: seq<string>, runs: seq<string>, aliases: seq<string>,
                       version: string, collection: string, configurationType: string)

  function ViewOf(r: Record): View {
    View(Names(r.configurations), Names(r.entities), Names(r.runs), Names(r.active),
         r.version, r.collection, r.configurationType)
  }

  function WithName(names: seq<string>, name: string): seq<string> {
    if name in names then names else names + [name]
  }

  function WithoutName(names: seq<string>, name: string): seq<string> {
    if names == [] then []
    else
      WithoutName(names[..|names| - 1], name) + if names[|names| - 1] == name then [] else [names[|names| - 1]]
  }

  /** The effect of one log entry, read off its event and its name alone. */
  function ReplayOne(v: View, u: Update): View {
    var name := u.value.name;
    match u.event
    case AddConfigurationEvent => v.(configurations := WithName(v.configurations, name))
    case RemoveConfigurationEvent => v.(configurations := WithoutName(v.configurations, name))
    case AddEntityEvent => v.(entities := WithName(v.entities, name))
    case RemoveEntityEvent => v.(entities := WithoutName(v.entities, name))
    case AddRunEvent => v.(runs := WithName(v.runs, name))
    case AddAliasEvent => v.(aliases := WithName(v.aliases, name))
    case RemoveAliasEvent => v.(aliases := WithoutName(v.aliases, name))
    case SetVersionEvent => v.(version := name)
    case SetCollectionEvent => v.(collection := name)
    case SetConfigurationTypeEvent => v.(configurationType := name)
  }

  function Replay(v: View, updates: seq<Update>): View {
    if updates == [] then v else ReplayOne(Replay(v, updates[..|updates| - 1]), updates[|updates| - 1])
  }

  predicate DistinctLists(r: Record) {
    DistinctNames(r.configurations) && DistinctNames(r.entities) && DistinctNames(r.runs) && DistinctNames(r.active)
  }

  /** A run of operations, each with the time it is made at. */
  function RunOps(r: Record, ops: seq<(Op, string)>): Record {
    if ops == [] then r
    else Apply(RunOps(r, ops[..|ops| - 1]), ops[|ops| - 1].0, ops[|ops| - 1].1).0
  }

  lemma {:induction false} NamesOfWithout(list: seq<Entry>, name: string)
    ensures Names(Without(list, name)) == WithoutName(Names(list), name)
  {
    if list != [] {
      var n := |list| - 1;
      NamesOfWithout(list[..n], name);
      assert Names(list)[..n] == Names(list[..n]);
      var rest := Without(list[..n], name);
      assert rest + [] == rest;
      assert Names(rest + [list[n]]) == Names(rest) + [list[n].name];
    }
  }

  lemma NamesOfAdded(list: seq<Entry>, e: Entry)
    ensures Names(AddedTo(list, e).0) == WithName(Names(list), e.name)
    ensures DistinctNames(list) ==> DistinctNames(AddedTo(list, e).0)
  {
    assert HasName(list, e.name) <==> e.name in Names(list) by {
      if HasName(list, e.name) {
        var i :| 0 <= i < |list| && list[i].name == e.name;
        assert Names(list)[i] == e.name;
      }
    }
    assert Names(list + [e]) == Names(list) + [e.name];
  }

  /** A removal that reports success, ignored or not, is a removal of the name. */
  lemma NamesOfErased(list: seq<Entry>, name: string)
    ensures Names(FixedRemoved(list, name).0) == WithoutName(Names(list), name)
    ensures Names(Erased(list, name).0) == WithoutName(Names(list), name)
    ensures DistinctNames(list) ==> DistinctNames(Erased(list, name).0) && Erased(list, name).1 != Aborted
  {
    NamesOfWithout(list, name);
    if DistinctNames(list) {
      WithoutDistinct(list, name);
      DistinctOccurrences(list, name);
      ErasedCount(list, name);
    }
  }

  lemma ErasedMissing(list: seq<Entry>, name: string)
    requires Erased(list, name).1 == Failure(Missing)
    ensures Erased(list, name).0 == list
  {
    ErasedAll(list, name);
  }

  /** The operation leaves no change outside the log: it is not the wipe of a list that holds
      something, and not the removal, from a writable record, of a name that occurs twice. */
  predicate Traced(r: Record, op: Op) {
    && (op.WipeConfigurations? ==> r.configurations == [])
    && (op.WipeEntities? ==> r.entities == [])
    && ((op.RemoveConfiguration? || op.RemoveEntity? || op.RemoveAlias?) && !r.Frozen() ==>
          Occurrences(TargetOf(r, op), op.e.name) < 2)
  }

  /** Either the log grows by one entry that replays to the change, or it stays, and then the
      view stays exactly when the operation is traced. */
  lemma ApplyLogs(r: Record, op: Op, now: string)
    ensures LogsChange(r, op, now)
  {
    hide Names, WithName, WithoutName, Erased, AddedTo, HasName, FixedRemoved, Occurrences;
    match op
    case AddConfiguration(_) => AdditionLogs(r, op, now);
    case AddEntity(_) => AdditionLogs(r, op, now);
    case AddRun(_) => AdditionLogs(r, op, now);
    case AddAlias(_) => AdditionLogs(r, op, now);
    case RemoveConfiguration(_) => RemovalLogs(r, op, now);
    case RemoveEntity(_) => RemovalLogs(r, op, now);
    case RemoveAlias(_) => RemovalLogs(r, op, now);
    case WipeConfigurations => NamesLength(r.configurations);
    case WipeEntities => NamesLength(r.entities);
    case _ =>
  }

  /** What ApplyLogs states, of one operation. */
  predicate LogsChange(r: Record, op: Op, now: string) {
    var (r', reply) := Apply(r, op, now);
    && (reply == Success(Added) ==>
          && |r'.updates| == |r.updates| + 1 && r.updates <= r'.updates
          && ViewOf(r') == ReplayOne(ViewOf(r), r'.updates[|r.updates|])
          && Traced(r, op))
    && (reply != Success(Added) ==> r'.updates == r.updates && (ViewOf(r') == ViewOf(r) <==> Traced(r, op)))
  }

  lemma AdditionLogs(r: Record, op: Op, now: string)
    requires op.AddConfiguration? || op.AddEntity? || op.AddRun? || op.AddAlias?
    ensures LogsChange(r, op, now)
  {
    hide Names, WithName, WithoutName, AddedTo, Occurrences;
    match op
    case AddConfiguration(e) => AdditionReplays(r.configurations, e);
    case AddEntity(e) => AdditionReplays(r.entities, e);
    case AddRun(e) => AdditionReplays(r.runs, e);
    case AddAlias(e) => AdditionReplays(r.active, e);
  }

  lemma RemovalLogs(r: Record, op: Op, now: string)
    requires op.RemoveConfiguration? || op.RemoveEntity? || op.RemoveAlias?
    ensures LogsChange(r, op, now)
  {
    hide Names, WithName, WithoutName, Erased, FixedRemoved, Occurrences;
    match op
    case RemoveConfiguration(e) => RemovalReplays(r.configurations, e.name);
    case RemoveEntity(e) => RemovalReplays(r.entities, e.name);
    case RemoveAlias(e) => RemovalReplays(r.active, e.name);
  }

  /** One operation appends at most one entry to the log, and what it appends replays to its
      change exactly when it is traced. */
  lemma ApplyReplays(r: Record, op: Op, now: string)
    ensures var r' := Apply(r, op, now).0;
      && r.updates <= r'.updates && |r'.updates| <= |r.updates| + 1
      && (ViewOf(r') == Replay(ViewOf(r), r'.updates[|r.updates|..]) <==> Traced(r, op))
  {
    ApplyLogs(r, op, now);
    hide Apply, ViewOf, ReplayOne, Traced;
    var (r', reply) := Apply(r, op, now);
    var more := r'.updates[|r.updates|..];
    if reply == Success(Added) {
      assert more == [r'.updates[|r.updates|]] && more[..0] == [];
    } else {
      assert more == [];
    }
  }

  lemma NamesLength(list: seq<Entry>)
    ensures |Names(list)| == |list|
    ensures Names([]) == []
  {
  }

  lemma AdditionReplays(list: seq<Entry>, e: Entry)
    ensures Names(AddedTo(list, e).0) == WithName(Names(list), e.name) && AddedTo(list, e).1.Success?
  {
    NamesOfAdded(list, e);
  }

  /** A removal that is not aborted is the removal of the name; an aborted one loses entries. */
  lemma RemovalReplays(list: seq<Entry>, name: string)
    ensures Names(FixedRemoved(list, name).0) == Names(Erased(list, name).0) == WithoutName(Names(list), name)
    ensures Erased(list, name).1 in {Failure(Missing), Success(Removed), Aborted}
    ensures FixedRemoved(list, name).1 in {Erased(list, name).1, Success(Ignored)}
    ensures Erased(list, name).1 == Failure(Missing) ==> Erased(list, name).0 == list
    ensures FixedRemoved(list, name).1 == Failure(Missing) ==> FixedRemoved(list, name).0 == list
    ensures Erased(list, name).1 == Aborted <==> Occurrences(list, name) >= 2
    ensures FixedRemoved(list, name).1 == Aborted <==> Occurrences(list, name) >= 2
    ensures Occurrences(list, name) >= 2 ==> Names(Erased(list, name).0) != Names(list)
  {
    NamesOfErased(list, name);
    ErasedCount(list, name);
    NamesLength(list);
    NamesLength(Erased(list, name).0);
    if Erased(list, name).1 == Failure(Missing) {
      ErasedMissing(list, name);
    }
  }

  lemma {:induction false} ReplayConcat(v: View, us: seq<Update>, more: seq<Update>)
    ensures Replay(v, us + more) == Replay(Replay(v, us), more)
  {
    if more == [] {
      assert us + more == us;
    } else {
      var n := |more| - 1;
      assert (us + more)[..|us| + n] == us + more[..n];
      ReplayConcat(v, us, more[..n]);
    }
  }

  predicate TracedRun(r: Record, ops: seq<(Op, string)>) {
    ops != [] ==>
      var n := |ops| - 1;
      TracedRun(r, ops[..n]) && Traced(RunOps(r, ops[..n]), ops[n].0)
  }

  /** Replaying what was logged since the start over the starting record gives the names,
      in order, the version, the collection and the type of the record now, after every run
      of traced operations. */
  lemma {:induction false} LogReplays(r: Record, ops: seq<(Op, string)>)
    requires TracedRun(r, ops)
    ensures var r' := RunOps(r, ops);
      && r.updates <= r'.updates
      && ViewOf(r') == Replay(ViewOf(r), r'.updates[|r.updates|..])
  {
    hide ViewOf, ReplayOne, Apply, Traced, Replay;
    if ops == [] {
      assert r.updates[|r.updates|..] == [];
      ReplayNothing(ViewOf(r));
    } else {
      var n := |ops| - 1;
      LogReplays(r, ops[..n]);
      var before, after := RunOps(r, ops[..n]), RunOps(r, ops);
      ApplyReplays(before, ops[n].0, ops[n].1);
      var more := after.updates[|before.updates|..];
      assert after.updates[|r.updates|..] == before.updates[|r.updates|..] + more;
      ReplayConcat(ViewOf(r), before.updates[|r.updates|..], more);
    }
  }

  lemma ReplayNothing(v: View)
    ensures Replay(v, []) == v
  {
  }

  lemma ApplyKeepsDistinct(r: Record, op: Op, now: string)
    requires DistinctLists(r)
    ensures DistinctLists(Apply(r, op, now).0)
    ensures !op.Wipes() ==> Traced(r, op)
  {
    hide DistinctNames, Names, Erased, AddedTo, HasName, FixedRemoved, Occurrences;
    match op
    case AddConfiguration(e) => NamesOfAdded(r.configurations, e);
    case RemoveConfiguration(e) => DistinctRemoval(r.configurations, e.name);
    case AddEntity(e) => NamesOfAdded(r.entities, e);
    case RemoveEntity(e) => DistinctRemoval(r.entities, e.name);
    case AddRun(e) => NamesOfAdded(r.runs, e);
    case AddAlias(e) => NamesOfAdded(r.active, e);
    case RemoveAlias(e) => DistinctRemoval(r.active, e.name);
    case _ => EmptyDistinct();
  }

  lemma EmptyDistinct()
    ensures DistinctNames([])
  {
  }

  lemma DistinctRemoval(list: seq<Entry>, name: string)
    requires DistinctNames(list)
    ensures DistinctNames(FixedRemoved(list, name).0) && DistinctNames(Erased(list, name).0)
    ensures Occurrences(list, name) < 2
  {
    NamesOfErased(list, name);
    DistinctOccurrences(list, name);
  }

  /** Names that are distinct at the start stay distinct over every run, and a run from such
      a record is traced when it does not wipe. */
  lemma {:induction false} DistinctRuns(r: Record, ops: seq<(Op, string)>)
    requires DistinctLists(r)
    ensures DistinctLists(RunOps(r, ops))
    ensures (forall i :: 0 <= i < |ops| ==> !ops[i].0.Wipes()) ==> TracedRun(r, ops)
  {
    hide DistinctLists, Apply, Traced;
    if ops != [] {
      var n := |ops| - 1;
      DistinctRuns(r, ops[..n]);
      ApplyKeepsDistinct(RunOps(r, ops[..n]), ops[n].0, ops[n].1);
    }
  }

  /** A wipe is not logged, so it is the one operation that replaying cannot see. */
  lemma WipeIsNotLogged(r: Record, now: string)
    ensures var r' := Apply(r, WipeConfigurations, now).0;
      r'.updates == r.updates && (ViewOf(r') == ViewOf(r) <==> r.configurations == [])
  {
    assert |Names(r.configurations)| == |r.configurations| && Names([]) == [];
  }

  /** An operation that reports a failure leaves the record as it was, unless it is the
      aborted removal of a name that occurs twice; that one changes it without a trace. */
  lemma FailureKeepsRecord(r: Record, op: Op, now: string)
    ensures var (r', reply) := Apply(r, op, now);
      && (reply.Failure? ==> r' == r)
      && (reply == Aborted ==> r' != r && r'.updates == r.updates)
  {
    hide AddedTo;
    match op
    case RemoveConfiguration(e) => ErasedChanges(r.configurations, e.name);
    case RemoveEntity(e) => ErasedChanges(r.entities, e.name);
    case RemoveAlias(e) => ErasedChanges(r.active, e.name);
    case AddConfiguration(e) => AddSucceeds(r.configurations, e);
    case AddEntity(e) => AddSucceeds(r.entities, e);
    case AddRun(e) => AddSucceeds(r.runs, e);
    case AddAlias(e) => AddSucceeds(r.active, e);
    case _ =>
  }

  lemma AddSucceeds(list: seq<Entry>, e: Entry)
    ensures AddedTo(list, e).1.Success?
  {
  }

  lemma ErasedChanges(list: seq<Entry>, name: string)
    ensures Erased(list, name).1 == Aborted ==> Erased(list, name).0 != list
    ensures Erased(list, name).1 == Failure(Missing) ==> Erased(list, name).0 == list
  {
    if Erased(list, name).1 == Failure(Missing) {
      ErasedMissing(list, name);
    }
  }

  function TargetOf(r: Record, op: Op): seq<Entry> {
    match op
    case RemoveConfiguration(_) => r.configurations
    case RemoveEntity(_) => r.entities
    case RemoveAlias(_) => r.active
    case _ => []
  }

  /** Exactly when an operation is aborted. */
  lemma AbortedExactly(r: Record, op: Op, now: string)
    ensures Apply(r, op, now).1 == Aborted <==>
      && !r.Frozen()
      && (op.RemoveConfiguration? || op.RemoveEntity? || op.RemoveAlias?)
      && Occurrences(TargetOf(r, op), op.e.name) >= 2
  {
    match op
    case RemoveConfiguration(e) => ErasedCount(r.configurations, e.name);
    case RemoveEntity(e) => ErasedCount(r.entities, e.name);
    case RemoveAlias(e) => ErasedCount(r.active, e.name);
    case _ =>
  }

  /** A guarded operation reports a readonly record exactly when the record is frozen: the
      check inside `postUpdate` never adds a refusal of its own. */
  lemma PostUpdateNeverRefuses(r: Record, op: Op, now: string)
    ensures Apply(r, op, now).1 == Failure(Readonly) <==> op.Guarded() && r.Frozen()
  {
    hide Occurrences, Without, HasName;
  }

  /** A readonly or deleted record changes by the four unguarded operations only: marking it
      deleted, giving it a new id, and the two wipes. */
  lemma FrozenKept(r: Record, op: Op, now: string)
    requires r.Frozen()
    ensures Apply(r, op, now).0 ==
      match op
      case MarkDeleted => r.(isDeleted := true)
      case NewObjectId(oid) => r.(oid := oid)
      case WipeConfigurations => r.(configurations := [])
      case WipeEntities => r.(entities := [])
      case _ => r
  {
  }

  lemma FlagsMonotone(r: Record, op: Op, now: string)
    ensures var r' := Apply(r, op, now).0;
      && (r.isReadonly ==> r'.isReadonly) && (r.isDeleted ==> r'.isDeleted)
      && (r'.isReadonly && !r.isReadonly ==> op.MarkReadonly?) && (r'.isDeleted && !r.isDeleted ==> op.MarkDeleted?)
  {
    hide Occurrences, Without, HasName;
  }

  /** Active and past aliases together. */
  function AliasNames(r: Record): multiset<string> {
    multiset(Names(r.active)) + multiset(Names(r.history))
  }

  /** Removing an alias moves its name to the history; only adding a new one adds a name. */
  lemma AliasesConserved(r: Record, op: Op, now: string)
    requires DistinctLists(r)
    ensures var (r', reply) := Apply(r, op, now);
      AliasNames(r') == AliasNames(r)
        + if op.AddAlias? && !r.Frozen() && !HasName(r.active, op.e.name) then multiset{op.e.name} else multiset{}
  {
    hide Names, FixedRemoved, HasName, Without, DistinctNames;
    if op.AddAlias? {
      NamesAppend(r.active, op.e);
    } else if op.RemoveAlias? {
      hide Erased;
      AliasMoves(r.active, op.e.name);
      NamesAppend(r.history, op.e.(removedAt := Some(now)));
    } else {
      hide Erased, AddedTo;
    }
  }

  lemma NamesAppend(list: seq<Entry>, e: Entry)
    ensures multiset(Names(list + [e])) == multiset(Names(list)) + multiset{e.name}
  {
    assert Names(list + [e]) == Names(list) + [e.name];
  }

  lemma AliasMoves(list: seq<Entry>, name: string)
    requires DistinctNames(list)
    ensures var (rest, reply) := Erased(list, name);
      && reply in {Failure(Missing), Success(Removed)}
      && multiset(Names(list)) == multiset(Names(rest)) + if reply == Success(Removed) then multiset{name} else multiset{}
  {
    hide Names, Without;
    NamesWithout(list, name);
    DistinctOccurrences(list, name);
    ErasedCount(list, name);
    assert multiset{}[name := 1] == multiset{name};
  }
}
