/** What each operation leaves in a writable record, in terms of names and positions. */
module RecordFields {
  import opened Json
  import opened Overlay
  import opened DatabaseRecord
  import opened RecordHistory

  /** The entry comes to the end of the list, unless its name is there already. */
  predicate Gains(before: seq<Entry>, after: seq<Entry>, e: Entry) {
    after == if e.name in Names(before) then before else before + [e]
  }

  /** The entries of the name are gone, all others stay in their order. */
  ghost predicate Loses(before: seq<Entry>, after: seq<Entry>, name: string) {
    && (forall e :: e in after <==> e in before && e.name != name)
    && (name !in Names(before) ==> after == before)
    && (DistinctNames(before) ==> forall i :: 0 <= i < |before| && before[i].name == name ==>
          after == before[..i] + before[i + 1..])
  }

  lemma NameListed(list: seq<Entry>, name: string)
    ensures HasName(list, name) <==> name in Names(list)
  {
    if HasName(list, name) {
      var i :| 0 <= i < |list| && list[i].name == name;
      assert Names(list)[i] == name;
    }
  }

  lemma AddedGains(list: seq<Entry>, e: Entry)
    ensures Gains(list, AddedTo(list, e).0, e) && AddedTo(list, e).1.Success?
  {
    NameListed(list, e.name);
  }

  lemma {:induction false} WithoutPosition(list: seq<Entry>, name: string, i: nat)
    requires DistinctNames(list) && i < |list| && list[i].name == name
    ensures Without(list, name) == list[..i] + list[i + 1..]
  {
    var n := |list| - 1;
    var shorter := list[..n];
    if i < n {
      WithoutPosition(shorter, name, i);
      assert list[i].name != list[n].name;
      assert shorter[..i] == list[..i] && shorter[i + 1..] + [list[n]] == list[i + 1..];
    } else {
      assert list == shorter + [list[n]];
      DistinctSnoc(shorter, list[n]);
      WithoutNames(shorter, name);
      assert shorter + [] == shorter && list[i + 1..] == [];
    }
  }

  lemma WithoutLoses(list: seq<Entry>, name: string)
    ensures Loses(list, Without(list, name), name)
  {
    WithoutNames(list, name);
    NameListed(list, name);
    if DistinctNames(list) {
      forall i | 0 <= i < |list| && list[i].name == name
        ensures Without(list, name) == list[..i] + list[i + 1..]
      {
        WithoutPosition(list, name, i);
      }
    }
  }

  /** What a removal reports and leaves. */
  lemma ErasedLoses(list: seq<Entry>, name: string)
    ensures Loses(list, Erased(list, name).0, name) && Loses(list, FixedRemoved(list, name).0, name)
    ensures var count := multiset(Names(list))[name];
      Erased(list, name).1 == if count == 0 then Failure(Missing) else if count == 1 then Success(Removed) else Aborted
    ensures FixedRemoved(list, name).1 == if list == [] then Success(Ignored) else Erased(list, name).1
  {
    hide Loses, Without, Occurrences, Names;
    WithoutLoses(list, name);
    OccurrencesCount(list, name);
    ErasedCount(list, name);
    if list == [] {
      NothingErased(name);
    }
  }

  lemma NothingErased(name: string)
    ensures Without([], name) == []
  {
  }

  /** An addition to a writable record leaves the name in its list and is logged, also when
      the name was there. */
  lemma Additions(r: Record, e: Entry, now: string)
    requires !r.isReadonly && !r.isDeleted
    ensures var (r', reply) := Apply(r, AddConfiguration(e), now);
      && reply == Success(Added) && Gains(r.configurations, r'.configurations, e)
      && r' == r.(configurations := r'.configurations, updates := r.updates + [Update(AddConfigurationEvent, now, e)])
    ensures var (r', reply) := Apply(r, AddEntity(e), now);
      && reply == Success(Added) && Gains(r.entities, r'.entities, e)
      && r' == r.(entities := r'.entities, updates := r.updates + [Update(AddEntityEvent, now, e)])
    ensures var (r', reply) := Apply(r, AddRun(e), now);
      && reply == Success(Added) && Gains(r.runs, r'.runs, e)
      && r' == r.(runs := r'.runs, updates := r.updates + [Update(AddRunEvent, now, e)])
    ensures var (r', reply) := Apply(r, AddAlias(e), now);
      && reply == Success(Added) && Gains(r.active, r'.active, e)
      && r' == r.(active := r'.active, updates := r.updates + [Update(AddAliasEvent, now, e)])
  {
    hide AddedTo, Gains;
    AddedGains(r.configurations, e);
    AddedGains(r.entities, e);
    AddedGains(r.runs, e);
    AddedGains(r.active, e);
  }

  /** How often a list names it. */
  function Count(list: seq<Entry>, name: string): nat {
    multiset(Names(list))[name]
  }

  /** What the removal of an entry appends to the log: it is logged with the time of its
      removal when its name was there once, and as it came when the list was empty. */
  function RemovalLog(list: seq<Entry>, event: Event, e: Entry, now: string, ignoresEmpty: bool): seq<Update> {
    if Count(list, e.name) == 1 then [Update(event, now, e.(removedAt := Some(now)))]
    else if list == [] && ignoresEmpty then [Update(event, now, e)]
    else []
  }

  function RemovalReply(list: seq<Entry>, e: Entry, ignoresEmpty: bool): Reply {
    if Count(list, e.name) == 1 || (list == [] && ignoresEmpty) then Success(Added)
    else if Count(list, e.name) == 0 then Failure(Missing)
    else Aborted
  }

  /** A removal takes every entry of the name out; that of an alias also ends its history
      with the entry, marked with the time, when the name was there once. */
  lemma Removals(r: Record, e: Entry, now: string)
    requires !r.isReadonly && !r.isDeleted
    ensures var (r', reply) := Apply(r, RemoveConfiguration(e), now);
      && reply == RemovalReply(r.configurations, e, true) && Loses(r.configurations, r'.configurations, e.name)
      && r' == r.(configurations := r'.configurations,
                  updates := r.updates + RemovalLog(r.configurations, RemoveConfigurationEvent, e, now, true))
    ensures var (r', reply) := Apply(r, RemoveEntity(e), now);
      && reply == RemovalReply(r.entities, e, true) && Loses(r.entities, r'.entities, e.name)
      && r' == r.(entities := r'.entities,
                  updates := r.updates + RemovalLog(r.entities, RemoveEntityEvent, e, now, true))
    ensures var (r', reply) := Apply(r, RemoveAlias(e), now);
      && reply == RemovalReply(r.active, e, false) && Loses(r.active, r'.active, e.name)
      && r' == r.(active := r'.active,
                  history := r.history + (if Count(r.active, e.name) == 1 then [e.(removedAt := Some(now))] else []),
                  updates := r.updates + RemovalLog(r.active, RemoveAliasEvent, e, now, false))
  {
    hide Loses, Without, Erased, FixedRemoved;
    ErasedLoses(r.configurations, e.name);
    ErasedLoses(r.entities, e.name);
    ErasedLoses(r.active, e.name);
    assert Names([]) == [];
    assert r.history + [] == r.history && r.updates + [] == r.updates;
  }

  /** A text is set as it is given, an empty one as "notprovided", and logged when that
      changes it. */
  lemma Texts(r: Record, text: string, now: string)
    requires !r.isReadonly && !r.isDeleted
    ensures var given := if |text| > 0 then text else "notprovided";
      var log := Entry(given, Some(now), None);
      && Apply(r, SetVersion(text), now).0
      == r.(version := given, updates := r.updates + if r.version == given then [] else [Update(SetVersionEvent, now, log)])
      && Apply(r, SetCollection(text), now).0
      == r.(collection := given, updates := r.updates + if r.collection == given then [] else [Update(SetCollectionEvent, now, log)])
      && Apply(r, SetConfigurationType(text), now).0
      == r.(configurationType := given,
            updates := r.updates + if r.configurationType == given then [] else [Update(SetConfigurationTypeEvent, now, log)])
      && forall op :: op in {SetVersion(text), SetCollection(text), SetConfigurationType(text)} ==> Apply(r, op, now).1.Success?
  {
    assert r.updates + [] == r.updates;
  }

  /** Ids, flags and wipes, which are not logged. */
  lemma Unlogged(r: Record, text: string, now: string)
    requires !r.isReadonly && !r.isDeleted
    ensures Apply(r, SetObjectId(text), now) == Apply(r, NewObjectId(text), now) == (r.(oid := text), Success(Message.Done))
    ensures Apply(r, MarkReadonly, now) == (r.(isReadonly := true), Success(Message.Done))
    ensures Apply(r, MarkDeleted, now) == (r.(isDeleted := true), Success(Message.Done))
    ensures Apply(r, WipeConfigurations, now) == (r.(configurations := []), Success(Message.Done))
    ensures Apply(r, WipeEntities, now) == (r.(entities := []), Success(Message.Done))
  {
  }

  /** A readonly or deleted record refuses everything but a deletion mark, a new id and the
      two wipes. */
  lemma Refusals(r: Record, op: Op, now: string)
    requires r.isReadonly || r.isDeleted
    requires !op.MarkDeleted? && !op.NewObjectId? && !op.WipeConfigurations? && !op.WipeEntities?
    ensures Apply(r, op, now) == (r, Failure(Readonly))
  {
  }

  lemma StillTaken(r: Record, text: string, now: string)
    requires r.isReadonly || r.isDeleted
    ensures Apply(r, MarkDeleted, now) == (r.(isDeleted := true), Success(Message.Done))
    ensures Apply(r, NewObjectId(text), now) == (r.(oid := text), Success(Message.Done))
    ensures Apply(r, WipeConfigurations, now) == (r.(configurations := []), Success(Message.Done))
    ensures Apply(r, WipeEntities, now) == (r.(entities := []), Success(Message.Done))
  {
  }

  /** Making an overlay writes the time where one is missing, the time of removal only in a
      list that keeps a history; it changes nothing else. */
  lemma AttachWrites(e: Entry, now: string)
    ensures forall movable :: Attach(e, now, movable).name == e.name
    ensures forall movable, t :: e.assignedAt == Some(t) ==> Attach(e, now, movable).assignedAt == Some(t)
    ensures forall movable :: e.assignedAt == None ==> Attach(e, now, movable).assignedAt == Some(now)
    ensures Attach(e, now, false).removedAt == e.removedAt
    ensures Attach(e, now, true).removedAt == if e.removedAt == None then Some(now) else e.removedAt
  {
  }

  /** Gains and losses by name. */
  lemma GainedNames(before: seq<Entry>, after: seq<Entry>, e: Entry)
    requires Gains(before, after, e)
    ensures before <= after && e.name in Names(after)
    ensures forall name :: name in Names(after) <==> name in Names(before) || name == e.name
    ensures DistinctNames(before) ==> DistinctNames(after)
  {
    NameListed(before, e.name);
    NamesOfAdded(before, e);
    var names := Names(before);
    if e.name !in names {
      assert Names(after) == names + [e.name];
    }
  }

  lemma LostNames(before: seq<Entry>, after: seq<Entry>, name: string)
    requires Loses(before, after, name)
    ensures forall other :: other in Names(after) <==> other in Names(before) && other != name
  {
    forall other
      ensures other in Names(after) <==> other in Names(before) && other != name
    {
      if other in Names(after) {
        var i :| 0 <= i < |after| && Names(after)[i] == other;
        var e := after[i];
        assert e in before;
        var j :| 0 <= j < |before| && before[j] == e;
        assert Names(before)[j] == other;
      }
      if other in Names(before) && other != name {
        var i :| 0 <= i < |before| && Names(before)[i] == other;
        var e := before[i];
        assert e in after;
        var j :| 0 <= j < |after| && after[j] == e;
        assert Names(after)[j] == other;
      }
    }
  }
}
