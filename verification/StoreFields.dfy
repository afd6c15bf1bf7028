/** What each request leaves in the stored documents, in terms of names and fields. */
module StoreFields {
  import opened Json
  import opened Overlay
  import opened DatabaseRecord
  import opened RecordHistory
  import opened RecordFields
  import opened DocumentStore

  predicate Writable(r: Record) {
    !r.isReadonly && !r.isDeleted
  }

  function Given(text: string): string {
    if |text| > 0 then text else "notprovided"
  }

  /** The names come to the list, each at most once and with the time; what is there stays
      at its place. */
  ghost predicate Entered(before: seq<Entry>, after: seq<Entry>, names: seq<string>, now: string) {
    && before <= after
    && (forall name :: name in Names(after) <==> name in Names(before) || name in names)
    && (forall i :: |before| <= i < |after| ==> after[i] == Entry(after[i].name, Some(now), None))
    && (DistinctNames(before) ==> DistinctNames(after))
  }

  lemma NoneEntered(list: seq<Entry>, now: string)
    ensures Entered(list, list, [], now)
  {
  }

  lemma OneEntered(before: seq<Entry>, after: seq<Entry>, name: string, now: string)
    requires Gains(before, after, Entry(name, Some(now), None))
    ensures Entered(before, after, [name], now)
  {
    hide Names, DistinctNames;
    GainedNames(before, after, Entry(name, Some(now), None));
  }

  lemma TwoEntered(before: seq<Entry>, middle: seq<Entry>, after: seq<Entry>, one: string, other: string, now: string)
    requires Gains(before, middle, Entry(one, Some(now), None)) && Entered(middle, after, [other], now)
    ensures Entered(before, after, [one, other], now)
  {
    hide Names, DistinctNames, Gains;
    OneEntered(before, middle, one, now);
    forall i | |before| <= i < |after|
      ensures after[i] == Entry(after[i].name, Some(now), None)
    {
      assert i < |middle| ==> after[i] == middle[i];
    }
  }

  /** What the options of a store leave in a record besides its entities: their configuration
      and run come to its lists, it has their version and collection, all else stays. */
  ghost predicate ByOptions(r: Record, r': Record, o: Options, now: string) {
    && Entered(r.configurations, r'.configurations, [o.configuration], now)
    && Entered(r.runs, r'.runs, if o.run == "notprovided" then [] else [o.run], now)
    && r.updates <= r'.updates
    && r' == r.(version := Given(o.version), collection := Given(o.collection), configurations := r'.configurations,
                entities := r'.entities, runs := r'.runs, updates := r'.updates)
  }

  lemma OptionsAdd(r: Record, o: Options, now: string)
    requires Writable(r)
    ensures var r' := WithOptions(r, o, now);
      ByOptions(r, r', o, now) && Entered(r.entities, r'.entities, [o.entity], now)
  {
    hide Apply, Gains, Entered;
    var configuration, entity, run := EntryOf(o.configuration, now), EntryOf(o.entity, now), EntryOf(o.run, now);
    Additions(r, configuration, now);
    var r1 := Build(r, Some(AddConfiguration(configuration)), now);
    Texts(r1, o.version, now);
    var r2 := Build(r1, Some(SetVersion(o.version)), now);
    Texts(r2, o.collection, now);
    var r3 := Build(r2, Some(SetCollection(o.collection)), now);
    Additions(r3, entity, now);
    var r4 := Build(r3, Some(AddEntity(entity)), now);
    Additions(r4, run, now);
    OneEntered(r.configurations, r1.configurations, o.configuration, now);
    OneEntered(r.entities, r4.entities, o.entity, now);
    if o.run == "notprovided" {
      NoneEntered(r.runs, now);
    } else {
      OneEntered(r.runs, Build(r4, Some(AddRun(run)), now).runs, o.run, now);
    }
  }

  /** add_entity: the entity comes to the document's, with "notprovided" and what the other
      options add. */
  lemma EntityAdded(store: Store, k: Key, o: Options, generated: string, now: string)
    requires Consistent(store) && k in store && k.0 == o.collection && Writable(store[k])
    ensures var store' := Serve(store, AddEntityTo(k, o), generated, now);
      && k in store' && store' == store[k := store'[k]]
      && Entered(store[k].entities, store'[k].entities, [o.entity, "notprovided"], now)
      && ByOptions(store[k], store'[k], o, now)
  {
    hide Apply, WithOptions, Gains, Entered;
    var r := store[k];
    var quiet := o.(entity := "notprovided");
    Additions(r, EntryOf(o.entity, now), now);
    var doc := Build(r, Some(AddEntity(EntryOf(o.entity, now))), now);
    OptionsAdd(doc, quiet, now);
    var doc' := WithOptions(doc, quiet, now);
    TwoEntered(r.entities, doc.entities, doc'.entities, o.entity, "notprovided", now);
    Placed(store, doc', doc.oid, now);
  }

  /** remove_entity: the document's entities without the one of the options, then
      "notprovided"; so the entity is gone unless it is "notprovided". */
  lemma EntityRemoved(store: Store, k: Key, o: Options, generated: string, now: string) returns (kept: seq<Entry>)
    requires Consistent(store) && k in store && k.0 == o.collection && Writable(store[k])
    ensures var store' := Serve(store, RemoveEntityFrom(k, o), generated, now);
      && k in store' && store' == store[k := store'[k]]
      && Loses(store[k].entities, kept, o.entity) && Entered(kept, store'[k].entities, ["notprovided"], now)
      && (forall name :: name in Names(store'[k].entities) <==>
            (name in Names(store[k].entities) && name != o.entity) || name == "notprovided")
      && ByOptions(store[k], store'[k], o, now)
  {
    hide Apply, WithOptions, Loses, Entered;
    var r := store[k];
    var quiet := o.(entity := "notprovided");
    Removals(r, EntryOf(o.entity, now), now);
    var doc := Build(r, Some(RemoveEntity(EntryOf(o.entity, now))), now);
    kept := doc.entities;
    OptionsAdd(doc, quiet, now);
    var doc' := WithOptions(doc, quiet, now);
    RemovedNames(r.entities, kept, doc'.entities, o.entity, "notprovided", now);
    Placed(store, doc', doc.oid, now);
  }

  lemma RemovedNames(before: seq<Entry>, kept: seq<Entry>, after: seq<Entry>, gone: string, come: string, now: string)
    requires Loses(before, kept, gone) && Entered(kept, after, [come], now)
    ensures forall name :: name in Names(after) <==> (name in Names(before) && name != gone) || name == come
  {
    hide Names, Loses, DistinctNames;
    LostNames(before, kept, gone);
  }

  /** mark_document_readonly and mark_document_deleted set a flag and nothing else; a deleted
      document is not marked readonly. */
  lemma DocumentMarked(store: Store, k: Key, o: Options, generated: string, now: string)
    requires Consistent(store) && k in store
    ensures Serve(store, MarkReadonlyAt(k, o), generated, now)
         == if store[k].isDeleted then store else store[k := store[k].(isReadonly := true)]
    ensures Serve(store, MarkDeletedAt(k, o), generated, now) == store[k := store[k].(isDeleted := true)]
  {
    hide Apply, WithOptions;
    var r := store[k];
    var quiet := o.(entity := "notprovided");
    OverwriteMarked(store, k, quiet, MarkReadonly, generated, now);
    OverwriteMarked(store, k, quiet, MarkDeleted, generated, now);
    if Writable(r) {
      Unlogged(r, "", now);
    } else {
      StillTaken(r, "", now);
      Refusals(r, MarkReadonly, now);
      assert !r.isDeleted ==> r.(isReadonly := true) == r;
      assert store[k := r] == store;
    }
  }

  /** Assigning a configuration: its name comes to the document's, all else stays. */
  lemma ConfigurationAssigned(store: Store, k: Key, o: Options, generated: string, now: string)
    requires Consistent(store) && k in store && Writable(store[k])
    ensures var store' := Serve(store, Assign(k, o), generated, now);
      && k in store' && store' == store[k := store'[k]]
      && Entered(store[k].configurations, store'[k].configurations, [o.configuration], now)
      && store'[k] == store[k].(configurations := store'[k].configurations,
           updates := store[k].updates + [Update(AddConfigurationEvent, now, Entry(o.configuration, Some(now), None))])
  {
    hide Apply, Gains, Entered;
    var e := EntryOf(o.configuration, now);
    Reassigned(store, k, AddConfiguration(e), generated, now);
    Additions(store[k], e, now);
    OneEntered(store[k].configurations, Build(store[k], Some(AddConfiguration(e)), now).configurations, o.configuration, now);
  }

  /** Unassigning a configuration: its name goes from the document's, all else stays. */
  lemma ConfigurationUnassigned(store: Store, k: Key, o: Options, generated: string, now: string)
    requires Consistent(store) && k in store && Writable(store[k])
    ensures var store' := Serve(store, Unassign(k, o), generated, now);
      && k in store' && store' == store[k := store'[k]]
      && Loses(store[k].configurations, store'[k].configurations, o.configuration)
      && store'[k] == store[k].(configurations := store'[k].configurations, updates := store'[k].updates)
      && store[k].updates <= store'[k].updates
  {
    hide Apply, Loses;
    var e := EntryOf(o.configuration, now);
    Reassigned(store, k, RemoveConfiguration(e), generated, now);
    Removals(store[k], e, now);
  }

  /** A store in database format: a writable document comes under its id and the collection
      of the options with what the options add, a frozen one as it is under a new id. */
  lemma DbStored(store: Store, o: Options, doc: Record, generated: string, now: string)
    ensures var store' := Serve(store, StoreDb(o, doc), generated, now);
      var k := (Given(o.collection), doc.oid);
      Writable(doc) ==>
        && k in store' && store' == store[k := store'[k]]
        && Entered(doc.entities, store'[k].entities, [o.entity], now)
        && ByOptions(doc, store'[k], o, now)
    ensures !Writable(doc) && doc.collection != "" ==>
      Serve(store, StoreDb(o, doc), generated, now) == store[(doc.collection, generated) := doc.(oid := generated)]
  {
    hide Apply, WithOptions, Entered;
    if Writable(doc) {
      OptionsAdd(doc, o, now);
      Placed(store, WithOptions(doc, o, now), doc.oid, now);
    } else if doc.collection != "" {
      StillTaken(doc, generated, now);
      WithOptionsPlace(doc.(oid := generated), o, now);
      Placed(store, doc.(oid := generated), generated, now);
    }
  }

  /** A store from the GUI: always a new id, and the configuration and the entity of the
      options alone. */
  lemma GuiStored(store: Store, o: Options, doc: Record, generated: string, now: string)
    ensures var store' := Serve(store, StoreGui(o, doc), generated, now);
      var k := (Given(o.collection), generated);
      Writable(doc) ==>
        && k in store' && store' == store[k := store'[k]]
        && store'[k].configurations == [Entry(o.configuration, Some(now), None)]
        && store'[k].entities == [Entry(o.entity, Some(now), None)]
        && ByOptions(doc.(oid := generated, configurations := []), store'[k], o, now)
    ensures !Writable(doc) && doc.collection != "" ==>
      Serve(store, StoreGui(o, doc), generated, now)
      == store[(doc.collection, generated) := doc.(oid := generated, configurations := [], entities := [])]
  {
    hide Apply, WithOptions, Entered;
    var wiped := doc.(oid := generated, configurations := [], entities := []);
    GuiTarget(doc, generated, now);
    if Writable(doc) {
      OptionsAdd(wiped, o, now);
      var doc' := WithOptions(wiped, o, now);
      OnlyEntered(doc'.configurations, o.configuration, now);
      OnlyEntered(doc'.entities, o.entity, now);
      Placed(store, doc', generated, now);
    } else if doc.collection != "" {
      WithOptionsPlace(wiped, o, now);
      Placed(store, wiped, generated, now);
    }
  }

  lemma OnlyEntered(list: seq<Entry>, name: string, now: string)
    requires Entered([], list, [name], now)
    ensures list == [Entry(name, Some(now), None)]
  {
    assert Names([]) == [] && DistinctNames([]);
    assert |list| > 1 ==> list[0].name != list[1].name;
    var names := Names(list);
    assert name in [name];
    assert forall i :: 0 <= i < |list| ==> names[i] in names && names[i] == list[i].name;
    assert forall i :: 0 <= i < |list| ==> list[i].name == name;
    assert |list| > 0;
  }

  /** A request whose document is not found changes nothing. */
  lemma NothingFound(store: Store, q: Request, generated: string, now: string)
    requires !q.StoreDb? && !q.StoreGui? && q.found !in store
    ensures Serve(store, q, generated, now) == store
  {
  }

  /** Where the provider writes a writable document: under the id it is filtered by, else
      under a new one if nothing is there and no duplicate is found; in its own collection,
      else in the filter's, else in the payload's. */
  lemma ProviderWrites(store: Store, p: Payload, doc: Record, c: string, generated: string, duplicate: bool, now: string)
    requires Writable(doc) && c != ""
    requires c == doc.collection
      || (doc.collection == "" && (c == p.filterCollection || (p.filterCollection == "" && p.collection == Some(c))))
    ensures var written := ProviderWrite(store, p, doc, generated, duplicate, now);
      var oid := if p.id.Some? then p.id.value else generated;
      && (written == None <==> p.id == None && ((c, oid) in store || duplicate))
      && (written.Some? ==>
            && (c, oid) in written.value && written.value == store[(c, oid) := written.value[(c, oid)]]
            && written.value[(c, oid)] == doc.(oid := oid, collection := c, updates := written.value[(c, oid)].updates)
            && (doc.collection == c ==> written.value[(c, oid)].updates == doc.updates))
  {
    hide Apply;
    var oid := if p.id.Some? then p.id.value else generated;
    Unlogged(doc, oid, now);
    Texts(doc.(oid := oid), c, now);
    assert doc.updates + [] == doc.updates;
  }

  /** Without a name for the collection the write throws. */
  lemma ProviderRefuses(store: Store, p: Payload, doc: Record, generated: string, duplicate: bool, now: string)
    requires doc.collection == "" && p.filterCollection == "" && (p.collection == None || p.collection == Some(""))
    ensures ProviderWrite(store, p, doc, generated, duplicate, now) == None
  {
  }
}
