/** The document builder, which swallows failed record operations, and the store of documents
    with its read-modify-write operations. */
module DocumentStore {
  import opened Json
  import opened Overlay
  import opened DatabaseRecord
  import opened RecordHistory

  /** A builder operation; None stands for a payload from which no overlay can be made. A
      failure is swallowed and undoing it is a stub, so what is left is what the record
      operation left. */
  function Build(r: Record, op: Option<Op>, now: string): Record {
    if op.None? then r else Apply(r, op.value, now).0
  }

  predicate Fails(r: Record, op: Option<Op>, now: string) {
    op.None? || !Apply(r, op.value, now).1.Success?
  }

  /** A failing builder operation leaves the record unchanged, on every record whose names
      are distinct, although nothing is ever undone; in general it does so exactly when it
      is not the removal of a name that occurs twice. */
  lemma BuilderAtomic(r: Record, op: Option<Op>, now: string)
    requires Fails(r, op, now)
    ensures DistinctLists(r) ==> Build(r, op, now) == r
    ensures Build(r, op, now) != r <==>
      && op.Some? && !r.Frozen()
      && (op.value.RemoveConfiguration? || op.value.RemoveEntity? || op.value.RemoveAlias?)
      && Occurrences(TargetOf(r, op.value), op.value.e.name) >= 2
  {
    hide Apply, DistinctLists, DistinctNames, Occurrences;
    if op.Some? {
      FailureKeepsRecord(r, op.value, now);
      AbortedExactly(r, op.value, now);
      if DistinctLists(r) && Apply(r, op.value, now).1 == Aborted {
        TargetDistinct(r, op.value);
        DistinctOccurrences(TargetOf(r, op.value), op.value.e.name);
      }
    }
  }

  /** Removing "a" from a list that names it twice fails and has erased both. */
  lemma RepeatedNameErased(e: Entry, now: string)
    requires e.name == "a"
    ensures var r := Record("1", "v", "c", "t", [e, e], [], [], [], [], false, false, [], Object([]));
      var op := RemoveConfiguration(e);
      && Apply(r, op, now).1 == Aborted && Fails(r, Some(op), now)
      && Build(r, Some(op), now) == r.(configurations := [])
  {
    var list := [e, e];
    assert list[..1] == [e] && list[..1][..0] == [];
    assert Without(list[..1], "a") == [];
  }

  lemma TargetDistinct(r: Record, op: Op)
    requires DistinctLists(r)
    ensures DistinctNames(TargetOf(r, op))
  {
  }

  predicate AttachedRecord(r: Record) {
    && AllAttached(r.configurations, false) && AllAttached(r.entities, false) && AllAttached(r.runs, false)
    && AllAttached(r.active, true) && AllAttached(r.history, true)
  }

  lemma ApplyAttached(r: Record, op: Op, now: string)
    requires AttachedRecord(r) && op.Ready()
    ensures AttachedRecord(Apply(r, op, now).0)
  {
    hide Without, Occurrences;
    match op
    case RemoveConfiguration(e) => WithoutAttached(r.configurations, e.name, false);
    case RemoveEntity(e) => WithoutAttached(r.entities, e.name, false);
    case RemoveAlias(e) => WithoutAttached(r.active, e.name, true);
    case _ =>
  }

  class DocumentBuilder {
    const overlay: OverlaidRecord

    constructor (r: Record, now: string)
      requires AttachedRecord(r)
      ensures overlay.Valid() && overlay.Model() == r && fresh(overlay)
      ensures fresh(overlay.configurations) && fresh(overlay.entities) && fresh(overlay.runs) && fresh(overlay.aliases)
    {
      overlay := new OverlaidRecord(r, now);
    }

    method Perform(op: Option<Op>, now: string)
      requires overlay.Valid() && (op.Some? ==> op.value.Ready())
      modifies overlay, overlay.configurations, overlay.entities, overlay.runs, overlay.aliases
      ensures overlay.Model() == Build(old(overlay.Model()), op, now)
      ensures (op.Some? ==> Apply(old(overlay.Model()), op.value, now).1 != Aborted) ==> overlay.Valid()
    {
      if op.Some? {
        var _ := overlay.Perform(op.value, now);
      }
    }
  }

  /** A stored document is found under its collection and its object id. */
  type Key = (string, string)

  type Store = map<Key, Record>

  datatype Options = Options(configuration: string, version: string, collection: string, entity: string, run: string)

  function EntryOf(name: string, now: string): Entry {
    Entry(name, Some(now), None)
  }

  /** What `write_document` adds to a record that is not frozen. */
  function WithOptions(r: Record, o: Options, now: string): Record {
    if r.Frozen() then r
    else
      var r1 := Build(r, Some(AddConfiguration(EntryOf(o.configuration, now))), now);
      var r2 := Build(r1, Some(SetVersion(o.version)), now);
      var r3 := Build(r2, Some(SetCollection(o.collection)), now);
      var r4 := Build(r3, Some(AddEntity(EntryOf(o.entity, now))), now);
      if o.run == "notprovided" then r4 else Build(r4, Some(AddRun(EntryOf(o.run, now))), now)
  }

  /** What a document is written with besides itself: the filter's id and collection, and
      the payload's collection, which may be missing. */
  datatype Payload = Payload(id: Option<string>, filterCollection: string, collection: Option<string>)

  /** `write_document` filters by id and names the collection of its options. */
  function FilteredIn(oid: string, collection: string): Payload {
    Payload(Some(oid), "", Some(collection))
  }

  /** Assigning and unassigning filter by id and name no collection. */
  function Filtered(oid: string): Payload {
    Payload(Some(oid), "", None)
  }

  /** The document names its collection, or else the filter does, or else the payload does;
      without any name the write throws. */
  function CollectionName(doc: Record, p: Payload): Option<string> {
    if doc.collection != "" then Some(doc.collection)
    else if p.filterCollection != "" then Some(p.filterCollection)
    else if p.collection == Some("") then None
    else p.collection
  }

  /** The provider's `writeDocument`: the id of the filter is the target; without one the
      document is new, goes to a generated id and is refused when that file exists or a
      document of the same version and entity is found. */
  function ProviderWrite(store: Store, p: Payload, doc: Record, generated: string, duplicate: bool, now: string): Option<Store> {
    var collection :- CollectionName(doc, p);
    var oid := if p.id.Some? then p.id.value else generated;
    var placed := Build(Build(doc, Some(SetObjectId(oid)), now), Some(SetCollection(collection)), now);
    if p.id.None? && ((collection, oid) in store || duplicate) then None
    else Some(store[(collection, oid) := placed])
  }

  /** The store after a write that may have thrown. */
  function After(store: Store, written: Option<Store>): Store {
    if written.Some? then written.value else store
  }

  /** `write_document` for a document in database format. */
  function WriteDocument(store: Store, o: Options, overwrite: bool, doc: Record, generated: string, now: string): Store {
    var doc' := if doc.Frozen() && !overwrite then Build(doc, Some(NewObjectId(generated)), now) else doc;
    After(store, ProviderWrite(store, FilteredIn(doc'.oid, o.collection), WithOptions(doc', o, now), generated, false, now))
  }

  /** `write_document` for a document from the GUI: always a new id, no configurations and no
      entities of its own. */
  function WriteGuiDocument(store: Store, o: Options, doc: Record, generated: string, now: string): Store {
    var doc1 := Build(doc, Some(NewObjectId(generated)), now);
    var doc2 := Build(Build(doc1, Some(WipeConfigurations), now), Some(WipeEntities), now);
    After(store, ProviderWrite(store, FilteredIn(doc2.oid, o.collection), WithOptions(doc2, o, now), generated, false, now))
  }

  /** The operations on the store; `found` is the document that the search chose. */
  datatype Request =
    | AddEntityTo(found: Key, o: Options)
    | RemoveEntityFrom(found: Key, o: Options)
    | MarkReadonlyAt(found: Key, o: Options)
    | MarkDeletedAt(found: Key, o: Options)
    | Assign(found: Key, o: Options)
    | Unassign(found: Key, o: Options)
    | StoreGui(o: Options, doc: Record)
    | StoreDb(o: Options, doc: Record)
  {
    predicate Stores() {
      StoreGui? || StoreDb?
    }
  }

  /** The search runs in the collection of the options. */
  predicate InCollection(q: Request) {
    q.Stores() || q.found.0 == q.o.collection
  }

  function Serve(store: Store, q: Request, generated: string, now: string): Store {
    if q.StoreGui? then WriteGuiDocument(store, q.o, q.doc, generated, now)
    else if q.StoreDb? then WriteDocument(store, q.o, false, q.doc, generated, now)
    else if q.found !in store then store
    else
      var doc := store[q.found];
      var quiet := q.o.(entity := "notprovided");
      match q
      case AddEntityTo(_, o) =>
        WriteDocument(store, quiet, false, Build(doc, Some(AddEntity(EntryOf(o.entity, now))), now), generated, now)
      case RemoveEntityFrom(_, o) =>
        WriteDocument(store, quiet, false, Build(doc, Some(RemoveEntity(EntryOf(o.entity, now))), now), generated, now)
      case MarkReadonlyAt(_, _) => WriteDocument(store, quiet, true, Build(doc, Some(MarkReadonly), now), generated, now)
      case MarkDeletedAt(_, _) => WriteDocument(store, quiet, true, Build(doc, Some(MarkDeleted), now), generated, now)
      case Assign(_, o) =>
        var doc' := Build(doc, Some(AddConfiguration(EntryOf(o.configuration, now))), now);
        After(store, ProviderWrite(store, Filtered(doc'.oid), doc', generated, false, now))
      case Unassign(_, o) =>
        var doc' := Build(doc, Some(RemoveConfiguration(EntryOf(o.configuration, now))), now);
        After(store, ProviderWrite(store, Filtered(doc'.oid), doc', generated, false, now))
  }

  /** Every stored document carries the collection and the id it is stored under. */
  predicate Consistent(store: Store) {
    forall k :: k in store ==> (store[k].collection, store[k].oid) == k && k.0 != ""
  }

  predicate Unused(store: Store, oid: string) {
    forall k :: k in store ==> k.1 != oid
  }

  lemma BuildKeepsPlace(r: Record, op: Op, now: string)
    requires !op.SetObjectId? && !op.NewObjectId?
    ensures Build(r, Some(op), now).oid == r.oid
    ensures !op.SetCollection? ==> Build(r, Some(op), now).collection == r.collection
    ensures !op.MarkReadonly? && !op.MarkDeleted? ==>
      Build(r, Some(op), now).isReadonly == r.isReadonly && Build(r, Some(op), now).isDeleted == r.isDeleted
  {
    hide Occurrences, Without, HasName;
  }

  /** What the options add leaves the flags and the id alone, and a frozen record as it is. */
  lemma WithOptionsPlace(r: Record, o: Options, now: string)
    ensures var r' := WithOptions(r, o, now);
      && r'.oid == r.oid && r'.isReadonly == r.isReadonly && r'.isDeleted == r.isDeleted
      && (r.Frozen() ==> r' == r)
      && (!r.Frozen() ==> r'.collection == Provided(o.collection))
  {
    hide Apply;
    if !r.Frozen() {
      var r1 := Build(r, Some(AddConfiguration(EntryOf(o.configuration, now))), now);
      var r2 := Build(r1, Some(SetVersion(o.version)), now);
      var r3 := Build(r2, Some(SetCollection(o.collection)), now);
      var r4 := Build(r3, Some(AddEntity(EntryOf(o.entity, now))), now);
      BuildKeepsPlace(r, AddConfiguration(EntryOf(o.configuration, now)), now);
      BuildKeepsPlace(r1, SetVersion(o.version), now);
      BuildKeepsPlace(r2, SetCollection(o.collection), now);
      CollectionSet(r2, o.collection, now);
      BuildKeepsPlace(r3, AddEntity(EntryOf(o.entity, now)), now);
      BuildKeepsPlace(r4, AddRun(EntryOf(o.run, now)), now);
    }
  }

  lemma CollectionSet(r: Record, text: string, now: string)
    requires !r.Frozen()
    ensures Build(r, Some(SetCollection(text)), now).collection == Provided(text)
  {
  }

  /** Where the provider puts a document and what it puts there: a frozen one unchanged, any
      other with the target's id. */
  lemma Placed(store: Store, doc: Record, oid: string, now: string)
    requires doc.collection != ""
    ensures forall name: Option<string>, generated: string ::
      ProviderWrite(store, Payload(Some(oid), "", name), doc, generated, false, now)
      == Some(store[(doc.collection, oid) := if doc.Frozen() then doc else doc.(oid := oid)])
  {
    var placed := Build(doc, Some(SetObjectId(oid)), now);
    assert placed == if doc.Frozen() then doc else doc.(oid := oid);
  }

  /** A store of a readonly or deleted document goes to a new id and leaves every stored
      document as it is. */
  lemma FrozenStoreIsNew(store: Store, o: Options, doc: Record, generated: string, now: string)
    requires doc.Frozen() && doc.collection != "" && Unused(store, generated)
    ensures WriteDocument(store, o, false, doc, generated, now) == store[(doc.collection, generated) := doc.(oid := generated)]
    ensures (doc.collection, generated) !in store
  {
    hide WithOptions, Build;
    NewId(doc, generated, now);
    WithOptionsPlace(doc.(oid := generated), o, now);
    Placed(store, doc.(oid := generated), generated, now);
  }

  /** A new id is not guarded. */
  lemma NewId(doc: Record, generated: string, now: string)
    ensures Build(doc, Some(NewObjectId(generated)), now) == doc.(oid := generated)
  {
  }

  /** A store of a document that is not frozen itself replaces the stored document of the
      same id whatever that one's flags are: a stored frozen document survives a store in
      database format if and only if the new document is frozen or goes elsewhere. */
  lemma FrozenSurvivesStore(store: Store, k: Key, o: Options, doc: Record, generated: string, now: string)
    requires k in store && store[k].Frozen() && Unused(store, generated) && doc.collection != ""
    ensures var store' := WriteDocument(store, o, false, doc, generated, now);
      k in store' && (store'[k] == store[k] <==> doc.Frozen() || (Provided(o.collection), doc.oid) != k)
  {
    hide WithOptions;
    if doc.Frozen() {
      FrozenStoreIsNew(store, o, doc, generated, now);
    } else {
      WithOptionsPlace(doc, o, now);
      Placed(store, WithOptions(doc, o, now), doc.oid, now);
    }
  }

  /** A writable document on the key of a readonly one replaces it. */
  lemma ReadonlyReplaced(generated: string, now: string)
    requires generated != "1"
    ensures var doc := Record("1", "v", "c", "t", [], [], [], [], [], false, false, [], Object([]));
      var store: Store := map[("c", "1") := doc.(isReadonly := true)];
      !WriteDocument(store, Options("x", "v", "c", "e", "notprovided"), false, doc, generated, now)[("c", "1")].isReadonly
  {
    hide WithOptions;
    var doc := Record("1", "v", "c", "t", [], [], [], [], [], false, false, [], Object([]));
    var store: Store := map[("c", "1") := doc.(isReadonly := true)];
    var o := Options("x", "v", "c", "e", "notprovided");
    WithOptionsPlace(doc, o, now);
    Placed(store, WithOptions(doc, o, now), "1", now);
  }

  /** The stored document that a request may replace; None when it writes to a new id. */
  function Target(q: Request): Option<Key> {
    match q
    case StoreGui(_, _) => None
    case StoreDb(o, doc) => if doc.Frozen() then None else Some((Provided(o.collection), doc.oid))
    case _ => Some(q.found)
  }

  /** The guard of FrozenSurvivesStore: a writable document in database format does not come
      under the key of a frozen one. */
  predicate Admissible(store: Store, q: Request) {
    q.StoreDb? && Target(q).Some? && Target(q).value in store ==> !store[Target(q).value].Frozen()
  }

  /** One document is written by each request: its target, or one with a new id. A frozen
      target changes in its deleted flag only. */
  lemma ServeWrites(store: Store, q: Request, generated: string, now: string)
    requires Consistent(store) && Unused(store, generated) && InCollection(q) && q.o.collection != ""
    requires q.Stores() ==> q.doc.collection != ""
    ensures var store' := Serve(store, q, generated, now);
      && Consistent(store')
      && (forall k :: k in store ==> k in store')
      && (forall k :: k in store && Target(q) != Some(k) ==> store'[k] == store[k])
      && (Admissible(store, q) ==> forall k :: k in store && store[k].Frozen() && Target(q) == Some(k) ==>
            store'[k] == if q.MarkDeletedAt? then store[k].(isDeleted := true) else store[k])
  {
    hide Apply, WithOptions;
    if q.StoreGui? {
      GuiStoreIsNew(store, q.o, q.doc, generated, now);
    } else if q.StoreDb? {
      DbStoreWrites(store, q.o, q.doc, generated, now);
    } else if q.found in store {
      var doc := store[q.found];
      var quiet := q.o.(entity := "notprovided");
      match q
      case AddEntityTo(_, o) => StoreChanged(store, q.found, quiet, AddEntity(EntryOf(o.entity, now)), generated, now);
      case RemoveEntityFrom(_, o) => StoreChanged(store, q.found, quiet, RemoveEntity(EntryOf(o.entity, now)), generated, now);
      case MarkReadonlyAt(_, _) => OverwriteMarked(store, q.found, quiet, MarkReadonly, generated, now);
      case MarkDeletedAt(_, _) => OverwriteMarked(store, q.found, quiet, MarkDeleted, generated, now);
      case Assign(_, o) => Reassigned(store, q.found, AddConfiguration(EntryOf(o.configuration, now)), generated, now);
      case Unassign(_, o) => Reassigned(store, q.found, RemoveConfiguration(EntryOf(o.configuration, now)), generated, now);
    }
  }

  lemma DbStoreWrites(store: Store, o: Options, doc: Record, generated: string, now: string)
    requires Consistent(store) && Unused(store, generated) && o.collection != "" && doc.collection != ""
    ensures var store' := WriteDocument(store, o, false, doc, generated, now);
      && Consistent(store')
      && forall k :: k in store ==> k in store' && (doc.Frozen() || k != (o.collection, doc.oid) ==> store'[k] == store[k])
  {
    hide WithOptions, Build;
    if doc.Frozen() {
      FrozenStoreIsNew(store, o, doc, generated, now);
    } else {
      WithOptionsPlace(doc, o, now);
      Placed(store, WithOptions(doc, o, now), doc.oid, now);
    }
  }

  /** A new id and both wipes are not guarded: they change a frozen document too. */
  lemma GuiTarget(doc: Record, generated: string, now: string)
    ensures Build(Build(Build(doc, Some(NewObjectId(generated)), now), Some(WipeConfigurations), now), Some(WipeEntities), now)
         == doc.(oid := generated, configurations := [], entities := [])
  {
  }

  lemma GuiStoreIsNew(store: Store, o: Options, doc: Record, generated: string, now: string)
    requires Consistent(store) && Unused(store, generated) && o.collection != "" && doc.collection != ""
    ensures var store' := WriteGuiDocument(store, o, doc, generated, now);
      && Consistent(store')
      && forall k :: k in store ==> k in store' && store'[k] == store[k]
  {
    hide WithOptions, Build;
    GuiTarget(doc, generated, now);
    var doc2 := doc.(oid := generated, configurations := [], entities := []);
    WithOptionsPlace(doc2, o, now);
    Placed(store, WithOptions(doc2, o, now), generated, now);
  }

  /** add_entity and remove_entity. */
  lemma StoreChanged(store: Store, found: Key, o: Options, op: Op, generated: string, now: string)
    requires Consistent(store) && Unused(store, generated) && found in store && found.0 == o.collection
    requires op.AddEntity? || op.RemoveEntity?
    ensures var store' := WriteDocument(store, o, false, Build(store[found], Some(op), now), generated, now);
      && Consistent(store')
      && (forall k :: k in store ==> k in store')
      && (forall k :: k in store && (k != found || store[found].Frozen()) ==> store'[k] == store[k])
  {
    hide Apply, WithOptions;
    var doc := Build(store[found], Some(op), now);
    BuildKeepsPlace(store[found], op, now);
    if store[found].Frozen() {
      FrozenKept(store[found], op, now);
      FrozenStoreIsNew(store, o, doc, generated, now);
    } else {
      WithOptionsPlace(doc, o, now);
      Placed(store, WithOptions(doc, o, now), doc.oid, now);
    }
  }

  /** mark_document_readonly and mark_document_deleted. */
  lemma OverwriteMarked(store: Store, found: Key, o: Options, op: Op, generated: string, now: string)
    requires Consistent(store) && found in store && (op.MarkReadonly? || op.MarkDeleted?)
    ensures WriteDocument(store, o, true, Build(store[found], Some(op), now), generated, now)
         == store[found := Build(store[found], Some(op), now)]
    ensures store[found].Frozen() ==>
      Build(store[found], Some(op), now) == if op.MarkDeleted? then store[found].(isDeleted := true) else store[found]
    ensures Consistent(store[found := Build(store[found], Some(op), now)])
  {
    var doc := Build(store[found], Some(op), now);
    assert doc.Frozen() && doc.oid == found.1 && doc.collection == found.0;
    WithOptionsPlace(doc, o, now);
    Placed(store, doc, doc.oid, now);
  }

  /** assignConfiguration and removeConfiguration write back under the id of the document. */
  lemma Reassigned(store: Store, found: Key, op: Op, generated: string, now: string)
    requires Consistent(store) && found in store && (op.AddConfiguration? || op.RemoveConfiguration?)
    ensures var doc := Build(store[found], Some(op), now);
      && ProviderWrite(store, Filtered(doc.oid), doc, generated, false, now) == Some(store[found := doc])
      && Consistent(store[found := doc])
      && (store[found].Frozen() ==> doc == store[found])
  {
    hide Apply;
    var doc := Build(store[found], Some(op), now);
    BuildKeepsPlace(store[found], op, now);
    Placed(store, doc, doc.oid, now);
    if store[found].Frozen() {
      FrozenKept(store[found], op, now);
    }
  }

  /** A request with the id that is generated for it and the time it is served at. */
  datatype Call = Call(q: Request, generated: string, now: string)

  function ServeAll(store: Store, calls: seq<Call>): Store {
    if calls == [] then store
    else
      var last := calls[|calls| - 1];
      Serve(ServeAll(store, calls[..|calls| - 1]), last.q, last.generated, last.now)
  }

  /** Generated ids are unused when they are generated, searches stay in their collection. */
  predicate Orderly(store: Store, calls: seq<Call>) {
    calls != [] ==>
      var last := calls[|calls| - 1];
      && Orderly(store, calls[..|calls| - 1])
      && Unused(ServeAll(store, calls[..|calls| - 1]), last.generated)
      && InCollection(last.q) && last.q.o.collection != ""
      && (last.q.Stores() ==> last.q.doc.collection != "")
      && Admissible(ServeAll(store, calls[..|calls| - 1]), last.q)
  }

  /** Over any run of requests a stored readonly or deleted document stays stored, keeps
      every field but the deleted flag, and no flag of it is ever cleared. */
  lemma {:induction false} FrozenForever(store: Store, calls: seq<Call>, k: Key)
    requires Consistent(store) && Orderly(store, calls) && k in store && store[k].Frozen()
    ensures var store' := ServeAll(store, calls);
      && Consistent(store') && k in store'
      && store'[k] == store[k].(isDeleted := store'[k].isDeleted)
      && (store[k].isDeleted ==> store'[k].isDeleted)
  {
    if calls != [] {
      var last := calls[|calls| - 1];
      FrozenForever(store, calls[..|calls| - 1], k);
      ServeWrites(ServeAll(store, calls[..|calls| - 1]), last.q, last.generated, last.now);
    }
  }

  class Database {
    var documents: Store

    ghost predicate Valid()
      reads this
    {
      forall k :: k in documents ==> AttachedRecord(documents[k])
    }

    /** The builder is made from the document, changed and written out again. */
    method Change(doc: Record, op: Op, now: string) returns (r: Record)
      requires AttachedRecord(doc) && op.Ready()
      ensures r == Build(doc, Some(op), now) && AttachedRecord(r)
    {
      var builder := new DocumentBuilder(doc, now);
      builder.Perform(Some(op), now);
      r := Record(builder.overlay.oid, builder.overlay.version, builder.overlay.collection, builder.overlay.configurationType,
                  builder.overlay.configurations.entries, builder.overlay.entities.entries, builder.overlay.runs.entries,
                  builder.overlay.aliases.active, builder.overlay.aliases.history,
                  builder.overlay.isReadonly, builder.overlay.isDeleted, builder.overlay.updates, builder.overlay.document);
      ApplyAttached(doc, op, now);
    }

    method AddOptions(doc: Record, o: Options, now: string) returns (r: Record)
      requires AttachedRecord(doc)
      ensures r == WithOptions(doc, o, now) && AttachedRecord(r)
    {
      hide Apply;
      r := doc;
      if !doc.isReadonly && !doc.isDeleted {
        r := Change(r, AddConfiguration(EntryOf(o.configuration, now)), now);
        r := Change(r, SetVersion(o.version), now);
        r := Change(r, SetCollection(o.collection), now);
        r := Change(r, AddEntity(EntryOf(o.entity, now)), now);
        if o.run != "notprovided" {
          r := Change(r, AddRun(EntryOf(o.run, now)), now);
        }
      }
    }

    /** The provider's write, in its order: name the collection, choose the target, place id
        and collection, check a new document, store. */
    method Write(p: Payload, doc: Record, generated: string, duplicate: bool, now: string) returns (ok: bool)
      requires Valid() && AttachedRecord(doc)
      modifies this
      ensures Valid()
      ensures ok == ProviderWrite(old(documents), p, doc, generated, duplicate, now).Some?
      ensures documents == After(old(documents), ProviderWrite(old(documents), p, doc, generated, duplicate, now))
    {
      hide Apply;
      var collection := doc.collection;
      if collection == "" {
        collection := p.filterCollection;
      }
      if collection == "" {
        if p.collection.None? {
          return false;
        }
        collection := p.collection.value;
      }
      if collection == "" {
        return false;
      }
      var oid, isNew := generated, true;
      if p.id.Some? {
        oid, isNew := p.id.value, false;
      }
      var placed := Change(doc, SetObjectId(oid), now);
      placed := Change(placed, SetCollection(collection), now);
      if isNew && ((collection, oid) in documents || duplicate) {
        return false;
      }
      documents := documents[(collection, oid) := placed];
      ok := true;
    }

    method Store(o: Options, overwrite: bool, doc: Record, generated: string, now: string)
      requires Valid() && AttachedRecord(doc)
      modifies this
      ensures Valid() && documents == WriteDocument(old(documents), o, overwrite, doc, generated, now)
    {
      hide Apply, WithOptions;
      var target := doc;
      if (doc.isReadonly || doc.isDeleted) && !overwrite {
        target := Change(doc, NewObjectId(generated), now);
      }
      var filter := target.oid;
      target := AddOptions(target, o, now);
      var _ := Write(FilteredIn(filter, o.collection), target, generated, false, now);
    }

    /** Any request, as its read, change and write. */
    method Handle(q: Request, generated: string, now: string)
      requires Valid() && (q.Stores() ==> AttachedRecord(q.doc))
      modifies this
      ensures Valid() && documents == Serve(old(documents), q, generated, now)
    {
      hide Apply, WithOptions;
      if q.StoreGui? {
        var doc := Change(q.doc, NewObjectId(generated), now);
        doc := Change(doc, WipeConfigurations, now);
        doc := Change(doc, WipeEntities, now);
        var filter := doc.oid;
        doc := AddOptions(doc, q.o, now);
        var _ := Write(FilteredIn(filter, q.o.collection), doc, generated, false, now);
        return;
      }
      if q.StoreDb? {
        Store(q.o, false, q.doc, generated, now);
        return;
      }
      if q.found !in documents {
        return;
      }
      var doc := documents[q.found];
      var quiet := q.o.(entity := "notprovided");
      match q
      case AddEntityTo(_, o) =>
        doc := Change(doc, AddEntity(EntryOf(o.entity, now)), now);
        Store(quiet, false, doc, generated, now);
      case RemoveEntityFrom(_, o) =>
        doc := Change(doc, RemoveEntity(EntryOf(o.entity, now)), now);
        Store(quiet, false, doc, generated, now);
      case MarkReadonlyAt(_, _) =>
        doc := Change(doc, MarkReadonly, now);
        Store(quiet, true, doc, generated, now);
      case MarkDeletedAt(_, _) =>
        doc := Change(doc, MarkDeleted, now);
        Store(quiet, true, doc, generated, now);
      case Assign(_, o) =>
        doc := Change(doc, AddConfiguration(EntryOf(o.configuration, now)), now);
        var _ := Write(Filtered(doc.oid), doc, generated, false, now);
      case Unassign(_, o) =>
        doc := Change(doc, RemoveConfiguration(EntryOf(o.configuration, now)), now);
        var _ := Write(Filtered(doc.oid), doc, generated, false, now);
    }
  }
}
