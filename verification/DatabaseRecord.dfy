/** A database record: guarded operations that change its lists and fields and append to its
    update log. */
module DatabaseRecord {
  import opened Json
  import opened Overlay

  datatype Event =
    | AddConfigurationEvent | RemoveConfigurationEvent | AddEntityEvent | RemoveEntityEvent | AddRunEvent
    | AddAliasEvent | RemoveAliasEvent | SetVersionEvent | SetCollectionEvent | SetConfigurationTypeEvent

  datatype Update = Update(event: Event, timestamp: string, value: Entry)

  datatype Record = Record(
    oid: string, version: string, collection: string, configurationType: string,
    configurations: seq<Entry>, entities: seq<Entry>, runs: seq<Entry>, active: seq<Entry>, history: seq<Entry>,
    isReadonly: bool, isDeleted: bool, updates: seq<Update>, document: Value)
  {
    predicate Frozen() {
      isReadonly || isDeleted
    }
  }

  datatype Op =
    | AddConfiguration(e: Entry)
    | RemoveConfiguration(e: Entry)
    | AddEntity(e: Entry)
    | RemoveEntity(e: Entry)
    | AddRun(e: Entry)
    | AddAlias(e: Entry)
    | RemoveAlias(e: Entry)
    | SetVersion(text: string)
    | SetCollection(text: string)
    | SetConfigurationType(text: string)
    | SetObjectId(text: string)
    | MarkReadonly
    | MarkDeleted
    | NewObjectId(text: string)
    | WipeConfigurations
    | WipeEntities
  {
    /** The operations that refuse a readonly or deleted record. */
    predicate Guarded() {
      !MarkDeleted? && !NewObjectId? && !WipeConfigurations? && !WipeEntities?
    }

    predicate Wipes() {
      WipeConfigurations? || WipeEntities?
    }

    /** A payload overlay has its timestamps. */
    predicate Ready() {
      match this
      case AddAlias(e) => Attached(e, true)
      case RemoveAlias(e) => Attached(e, true)
      case AddConfiguration(e) => Attached(e, false)
      case RemoveConfiguration(e) => Attached(e, false)
      case AddEntity(e) => Attached(e, false)
      case RemoveEntity(e) => Attached(e, false)
      case AddRun(e) => Attached(e, false)
      case _ => true
    }
  }

  /** An empty text is replaced when its overlay is made. */
  function Provided(text: string): string {
    if text == "" then "notprovided" else text
  }

  /** `postUpdate`, with its own check of the readonly flag. */
  function PostUpdate(r: Record, event: Event, e: Entry, now: string): (Record, Reply) {
    if r.isReadonly then (r, Failure(Readonly))
    else (r.(updates := r.updates + [Update(event, now, e)]), Success(Added))
  }

  /** A list operation is logged whenever it reports success, ignored or not. */
  function Logged(r: Record, reply: Reply, event: Event, e: Entry, now: string): (Record, Reply) {
    if reply.Success? then PostUpdate(r, event, e, now) else (r, reply)
  }

  function Marked(e: Entry, reply: Reply, now: string): Entry {
    if reply == Success(Removed) then e.(removedAt := Some(now)) else e
  }

  /** One operation on the record: the record after it and what it reports. */
  function Apply(r: Record, op: Op, now: string): (Record, Reply) {
    if op.Guarded() && r.Frozen() then (r, Failure(Readonly))
    else
      match op
      case AddConfiguration(e) =>
        var (list, reply) := AddedTo(r.configurations, e);
        Logged(r.(configurations := list), reply, AddConfigurationEvent, e, now)
      case RemoveConfiguration(e) =>
        var (list, reply) := FixedRemoved(r.configurations, e.name);
        Logged(r.(configurations := list), reply, RemoveConfigurationEvent, Marked(e, reply, now), now)
      case AddEntity(e) =>
        var (list, reply) := AddedTo(r.entities, e);
        Logged(r.(entities := list), reply, AddEntityEvent, e, now)
      case RemoveEntity(e) =>
        var (list, reply) := FixedRemoved(r.entities, e.name);
        Logged(r.(entities := list), reply, RemoveEntityEvent, Marked(e, reply, now), now)
      case AddRun(e) =>
        var (list, reply) := AddedTo(r.runs, e);
        Logged(r.(runs := list), reply, AddRunEvent, e, now)
      case AddAlias(e) =>
        var (list, reply) := AddedTo(r.active, e);
        Logged(r.(active := list), reply, AddAliasEvent, e, now)
      case RemoveAlias(e) =>
        var (list, reply) := Erased(r.active, e.name);
        var history := if reply == Success(Removed) then r.history + [Marked(e, reply, now)] else r.history;
        Logged(r.(active := list, history := history), reply, RemoveAliasEvent, Marked(e, reply, now), now)
      case SetVersion(text) =>
        if r.version == Provided(text) then (r, Success(Ignored))
        else PostUpdate(r.(version := Provided(text)), SetVersionEvent, Entry(Provided(text), Some(now), None), now)
      case SetCollection(text) =>
        if r.collection == Provided(text) then (r, Success(Ignored))
        else PostUpdate(r.(collection := Provided(text)), SetCollectionEvent, Entry(Provided(text), Some(now), None), now)
      case SetConfigurationType(text) =>
        if r.configurationType == Provided(text) then (r, Success(Ignored))
        else PostUpdate(r.(configurationType := Provided(text)), SetConfigurationTypeEvent, Entry(Provided(text), Some(now), None), now)
      case SetObjectId(text) => (r.(oid := text), Success(Message.Done))
      case MarkReadonly => (r.(isReadonly := true), Success(Message.Done))
      case MarkDeleted => (r.(isDeleted := true), Success(Message.Done))
      case NewObjectId(text) => (r.(oid := text), Success(Message.Done))
      case WipeConfigurations => (r.(configurations := []), Success(Message.Done))
      case WipeEntities => (r.(entities := []), Success(Message.Done))
  }

  class OverlaidRecord {
    const configurations: FixedList
    const entities: FixedList
    const runs: FixedList
    const aliases: MovableList
    var oid: string
    var version: string
    var collection: string
    var configurationType: string
    var isReadonly: bool
    var isDeleted: bool
    var updates: seq<Update>
    var document: Value

    /** All lists mirror their part of the tree. */
    ghost predicate Valid()
      reads this, configurations, entities, runs, aliases
    {
      && configurations != entities && configurations != runs && entities != runs
      && configurations.Valid() && entities.Valid() && runs.Valid() && aliases.Valid()
    }

    ghost function Model(): Record
      reads this, configurations, entities, runs, aliases
    {
      Record(oid, version, collection, configurationType, configurations.entries, entities.entries, runs.entries,
             aliases.active, aliases.history, isReadonly, isDeleted, updates, document)
    }

    constructor (r: Record, now: string)
      requires AllAttached(r.configurations, false) && AllAttached(r.entities, false) && AllAttached(r.runs, false)
      requires AllAttached(r.active, true) && AllAttached(r.history, true)
      ensures Valid() && Model() == r
      ensures fresh(configurations) && fresh(entities) && fresh(runs) && fresh(aliases)
    {
      configurations := new FixedList(r.configurations, now);
      entities := new FixedList(r.entities, now);
      runs := new FixedList(r.runs, now);
      aliases := new MovableList(r.active, r.history);
      oid, version, collection, configurationType := r.oid, r.version, r.collection, r.configurationType;
      isReadonly, isDeleted, updates, document := r.isReadonly, r.isDeleted, r.updates, r.document;
    }

    predicate IsReadonlyOrDeleted()
      reads this
    {
      isReadonly || isDeleted
    }

    method Post(event: Event, e: Entry, now: string) returns (reply: Reply)
      modifies this`updates
      ensures (Model(), reply) == PostUpdate(old(Model()), event, e, now)
    {
      if isReadonly {
        return Failure(Readonly);
      }
      updates := updates + [Update(event, now, e)];
      reply := Success(Added);
    }

    /** Any operation, by its own method of the record: it does what `Apply` says, and unless
        it is aborted the overlays mirror the tree afterwards. */
    method Perform(op: Op, now: string) returns (reply: Reply)
      requires Valid() && op.Ready()
      modifies this, configurations, entities, runs, aliases
      ensures (Model(), reply) == Apply(old(Model()), op, now)
      ensures reply != Aborted ==> Valid()
    {
      match op
      case AddConfiguration(e) => reply := Add(configurations, AddConfigurationEvent, e, now);
      case RemoveConfiguration(e) => reply := Remove(configurations, RemoveConfigurationEvent, e, now);
      case AddEntity(e) => reply := Add(entities, AddEntityEvent, e, now);
      case RemoveEntity(e) => reply := Remove(entities, RemoveEntityEvent, e, now);
      case AddRun(e) => reply := Add(runs, AddRunEvent, e, now);
      case AddAlias(e) => reply := DoAddAlias(e, now);
      case RemoveAlias(e) => reply := DoRemoveAlias(e, now);
      case MarkDeleted =>
        isDeleted := true;
        reply := Success(Message.Done);
      case NewObjectId(text) =>
        oid := text;
        reply := Success(Message.Done);
      case WipeConfigurations =>
        configurations.Wipe(now);
        reply := Success(Message.Done);
      case WipeEntities =>
        entities.Wipe(now);
        reply := Success(Message.Done);
      case _ => reply := SetField(op, now);
    }

    /** addConfiguration, addEntity and addRun: guard, list, log. */
    method Add(list: FixedList, event: Event, e: Entry, now: string) returns (reply: Reply)
      requires Valid() && Attached(e, false)
      requires (list, event) in [(configurations, AddConfigurationEvent), (entities, AddEntityEvent), (runs, AddRunEvent)]
      modifies this`updates, list
      ensures (Model(), reply) == Apply(old(Model()),
        if event == AddConfigurationEvent then AddConfiguration(e) else if event == AddEntityEvent then AddEntity(e) else AddRun(e), now)
      ensures Valid()
    {
      if IsReadonlyOrDeleted() {
        return Failure(Readonly);
      }
      reply := list.Add(e, now);
      if reply.Success? {
        reply := Post(event, e, now);
      }
    }

    method Remove(list: FixedList, event: Event, e: Entry, now: string) returns (reply: Reply)
      requires Valid() && Attached(e, false)
      requires (list, event) in [(configurations, RemoveConfigurationEvent), (entities, RemoveEntityEvent)]
      modifies this`updates, list
      ensures (Model(), reply) == Apply(old(Model()),
        if event == RemoveConfigurationEvent then RemoveConfiguration(e) else RemoveEntity(e), now)
      ensures reply != Aborted ==> Valid()
    {
      if IsReadonlyOrDeleted() {
        return Failure(Readonly);
      }
      var marked;
      reply, marked := list.Remove(e, now);
      if reply.Success? {
        reply := Post(event, marked, now);
      }
    }

    method DoAddAlias(e: Entry, now: string) returns (reply: Reply)
      requires Valid() && Attached(e, true)
      modifies this`updates, aliases
      ensures (Model(), reply) == Apply(old(Model()), AddAlias(e), now) && Valid()
    {
      if IsReadonlyOrDeleted() {
        return Failure(Readonly);
      }
      reply := aliases.Add(e);
      if reply.Success? {
        reply := Post(AddAliasEvent, e, now);
      }
    }

    method DoRemoveAlias(e: Entry, now: string) returns (reply: Reply)
      requires Valid() && Attached(e, true)
      modifies this`updates, aliases
      ensures (Model(), reply) == Apply(old(Model()), RemoveAlias(e), now)
      ensures reply != Aborted ==> Valid()
    {
      if IsReadonlyOrDeleted() {
        return Failure(Readonly);
      }
      var marked;
      reply, marked := aliases.Remove(e, now);
      if reply.Success? {
        reply := Post(RemoveAliasEvent, marked, now);
      }
    }

    /** The guarded operations on single fields; the three texts are swapped only when they
        differ, and then logged. */
    method SetField(op: Op, now: string) returns (reply: Reply)
      requires Valid()
      requires op.SetVersion? || op.SetCollection? || op.SetConfigurationType? || op.SetObjectId? || op.MarkReadonly?
      modifies this
      ensures (Model(), reply) == Apply(old(Model()), op, now) && Valid()
    {
      if IsReadonlyOrDeleted() {
        return Failure(Readonly);
      }
      if op.MarkReadonly? {
        isReadonly := true;
        return Success(Message.Done);
      } else if op.SetObjectId? {
        oid := op.text;
        return Success(Message.Done);
      }
      var text := Provided(op.text);
      var current := if op.SetVersion? then version else if op.SetCollection? then collection else configurationType;
      if current == text {
        return Success(Ignored);
      }
      var event;
      if op.SetVersion? {
        version, event := text, SetVersionEvent;
      } else if op.SetCollection? {
        collection, event := text, SetCollectionEvent;
      } else {
        configurationType, event := text, SetConfigurationTypeEvent;
      }
      reply := Post(event, Entry(text, Some(now), None), now);
    }
  }
}
