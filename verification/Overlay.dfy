/** The lists of a database record: each is an array of the record's JSON tree together with
    a list of overlays that refer into that array and are rebuilt after every change. */
module Overlay {
  import opened Json

  /** A named entry with its timestamps; a timestamp may be missing in the JSON tree. */
  datatype Entry = Entry(name: string, assignedAt: Option<string>, removedAt: Option<string>)

  datatype Message = Ignored | Added | Removed | Missing | Readonly | Done

  /** The outcome of an operation on a list or a record; Aborted stands for a failed internal
      check after the tree has been changed. */
  datatype Reply = Success(message: Message) | Failure(message: Message) | Aborted

  /** Constructing an overlay writes the timestamps that are missing. */
  function Attach(e: Entry, now: string, movable: bool): Entry {
    e.(assignedAt := if e.assignedAt.None? then Some(now) else e.assignedAt,
       removedAt := if movable && e.removedAt.None? then Some(now) else e.removedAt)
  }

  predicate Attached(e: Entry, movable: bool) {
    e.assignedAt.Some? && (movable ==> e.removedAt.Some?)
  }

  predicate AllAttached(list: seq<Entry>, movable: bool) {
    forall i :: 0 <= i < |list| ==> Attached(list[i], movable)
  }

  predicate HasName(list: seq<Entry>, name: string) {
    exists i :: 0 <= i < |list| && list[i].name == name
  }

  predicate DistinctNames(list: seq<Entry>) {
    forall i, j :: 0 <= i < j < |list| ==> list[i].name != list[j].name
  }

  function Names(list: seq<Entry>): seq<string> {
    seq(|list|, i requires 0 <= i < |list| => list[i].name)
  }

  /** The entries with another name, in order. */
  function Without(list: seq<Entry>, name: string): (r: seq<Entry>)
    ensures |r| <= |list|
  {
    if list == [] then []
    else
      Without(list[..|list| - 1], name) + if list[|list| - 1].name == name then [] else [list[|list| - 1]]
  }

  function AddedTo(list: seq<Entry>, e: Entry): (seq<Entry>, Reply) {
    if HasName(list, e.name) then (list, Success(Ignored)) else (list + [e], Success(Added))
  }

  /** Removal by name. The count is checked only after the entries are erased. */
  function Erased(list: seq<Entry>, name: string): (seq<Entry>, Reply) {
    var rest := Without(list, name);
    (rest, if |rest| == |list| then Failure(Missing) else if |rest| + 1 == |list| then Success(Removed) else Aborted)
  }

  /** A fixed list ignores a removal when it is empty. */
  function FixedRemoved(list: seq<Entry>, name: string): (seq<Entry>, Reply) {
    if list == [] then (list, Success(Ignored)) else Erased(list, name)
  }

  lemma {:induction false} WithoutNames(list: seq<Entry>, name: string)
    ensures forall e :: e in Without(list, name) <==> e in list && e.name != name
    ensures !HasName(list, name) ==> Without(list, name) == list
  {
    if list != [] {
      var n := |list| - 1;
      WithoutNames(list[..n], name);
      assert list == list[..n] + [list[n]];
      assert HasName(list[..n], name) ==> HasName(list, name) by {
        if HasName(list[..n], name) {
          var i :| 0 <= i < n && list[..n][i].name == name;
          assert list[i].name == name;
        }
      }
    }
  }

  lemma HasNameSnoc(list: seq<Entry>, e: Entry, name: string)
    ensures HasName(list + [e], name) <==> HasName(list, name) || e.name == name
  {
    if HasName(list, name) {
      var i :| 0 <= i < |list| && list[i].name == name;
      assert (list + [e])[i].name == name;
    }
    assert (list + [e])[|list|] == e;
  }

  lemma {:induction false} WithoutHas(list: seq<Entry>, name: string, other: string)
    ensures HasName(Without(list, name), other) <==> other != name && HasName(list, other)
  {
    if list != [] {
      var n := |list| - 1;
      WithoutHas(list[..n], name, other);
      assert list == list[..n] + [list[n]];
      HasNameSnoc(list[..n], list[n], other);
      HasNameSnoc(Without(list[..n], name), list[n], other);
      assert Without(list[..n], name) + [] == Without(list[..n], name);
    }
  }

  lemma DistinctSnoc(list: seq<Entry>, e: Entry)
    ensures DistinctNames(list + [e]) <==> DistinctNames(list) && !HasName(list, e.name)
  {
    var longer := list + [e];
    if DistinctNames(longer) {
      assert forall i :: 0 <= i < |list| ==> longer[i] == list[i] && longer[|list|] == e;
    }
  }

  lemma {:induction false} WithoutDistinct(list: seq<Entry>, name: string)
    requires DistinctNames(list)
    ensures DistinctNames(Without(list, name)) && !HasName(Without(list, name), name)
  {
    hide HasName, DistinctNames;
    WithoutHas(list, name, name);
    if list == [] {
    } else {
      var n := |list| - 1;
      assert list == list[..n] + [list[n]];
      DistinctSnoc(list[..n], list[n]);
      WithoutDistinct(list[..n], name);
      WithoutHas(list[..n], name, list[n].name);
      DistinctSnoc(Without(list[..n], name), list[n]);
      assert Without(list[..n], name) + [] == Without(list[..n], name);
    }
  }

  /** How often a name occurs. */
  function Occurrences(list: seq<Entry>, name: string): nat {
    if list == [] then 0
    else Occurrences(list[..|list| - 1], name) + if list[|list| - 1].name == name then 1 else 0
  }

  /** Erasing removes every occurrence, so the check after it fails exactly when there are
      two or more. */
  lemma {:induction false} ErasedCount(list: seq<Entry>, name: string)
    ensures |Without(list, name)| + Occurrences(list, name) == |list|
    ensures Erased(list, name).1 == Aborted <==> Occurrences(list, name) >= 2
    ensures Erased(list, name).1 == Failure(Missing) <==> Occurrences(list, name) == 0
  {
    if list != [] {
      ErasedCount(list[..|list| - 1], name);
    }
  }

  /** Distinct names occur at most once, so the check never fails on them. */
  lemma {:induction false} DistinctOccurrences(list: seq<Entry>, name: string)
    requires DistinctNames(list)
    ensures Occurrences(list, name) == if HasName(list, name) then 1 else 0
  {
    if list != [] {
      var n := |list| - 1;
      DistinctOccurrences(list[..n], name);
      if HasName(list[..n], name) {
        var i :| 0 <= i < n && list[..n][i].name == name;
        assert list[i].name == name;
      }
      assert list[n].name == name ==> HasName(list, name);
      if HasName(list, name) && list[n].name != name {
        var i :| 0 <= i <= n && list[i].name == name;
        assert list[..n][i].name == name;
      }
    }
  }

  lemma {:induction false} OccurrencesCount(list: seq<Entry>, name: string)
    ensures Occurrences(list, name) == multiset(Names(list))[name]
  {
    if list != [] {
      var n := |list| - 1;
      OccurrencesCount(list[..n], name);
      assert Names(list) == Names(list[..n]) + [list[n].name];
    }
  }

  lemma {:induction false} OccurrencesWithout(list: seq<Entry>, name: string, other: string)
    ensures Occurrences(Without(list, name), other) == if other == name then 0 else Occurrences(list, other)
  {
    if list != [] {
      var n := |list| - 1;
      OccurrencesWithout(list[..n], name, other);
      var rest := Without(list[..n], name);
      assert rest + [] == rest && (rest + [list[n]])[..|rest|] == rest;
    }
  }

  lemma NamesWithout(list: seq<Entry>, name: string)
    ensures multiset(Names(list)) == multiset(Names(Without(list, name))) + multiset{}[name := Occurrences(list, name)]
  {
    hide Names, Without;
    var all, kept := multiset(Names(list)), multiset(Names(Without(list, name)));
    forall other: string
      ensures all[other] == kept[other] + if other == name then Occurrences(list, name) else 0
    {
      OccurrencesCount(list, other);
      OccurrencesCount(Without(list, name), other);
      OccurrencesWithout(list, name, other);
    }
  }

  lemma WithoutAttached(list: seq<Entry>, name: string, movable: bool)
    requires AllAttached(list, movable)
    ensures AllAttached(Without(list, name), movable)
  {
    WithoutNames(list, name);
    var rest := Without(list, name);
    forall i | 0 <= i < |rest|
      ensures Attached(rest[i], movable)
    {
      assert rest[i] in list;
    }
  }

  lemma {:induction false} ErasedAll(list: seq<Entry>, name: string)
    requires |Without(list, name)| == |list|
    ensures Without(list, name) == list
  {
    if list != [] {
      ErasedAll(list[..|list| - 1], name);
    }
  }

  class FixedList {
    var entries: seq<Entry>   // in the JSON tree
    var list: seq<Entry>      // the overlays

    /** The overlays mirror the tree. */
    ghost predicate Valid()
      reads this
    {
      list == entries && AllAttached(entries, false)
    }

    constructor (tree: seq<Entry>, now: string)
      ensures Valid() && |entries| == |tree| && (AllAttached(tree, false) ==> entries == tree)
      ensures Names(entries) == Names(tree)
      ensures forall k :: 0 <= k < |tree| ==> entries[k] == Attach(tree[k], now, false)
    {
      entries := tree;
      new;
      MakeList(now);
    }

    /** `make_list`: an overlay for every element; an element without a timestamp gets one. */
    method MakeList(now: string)
      modifies this
      ensures Valid() && Names(entries) == Names(old(entries)) && |entries| == |old(entries)|
      ensures forall k :: 0 <= k < |entries| ==> entries[k] == Attach(old(entries)[k], now, false)
      ensures AllAttached(old(entries), false) ==> entries == old(entries)
    {
      list := [];
      var i := 0;
      ghost var start := entries;
      while i < |entries|
        invariant 0 <= i <= |entries| == |start| && |list| == i
        invariant forall k :: 0 <= k < i ==> list[k] == entries[k] == Attach(start[k], now, false)
        invariant forall k :: i <= k < |start| ==> entries[k] == start[k]
      {
        entries := entries[i := Attach(entries[i], now, false)];
        list := list + [entries[i]];
        i := i + 1;
      }
      if AllAttached(start, false) {
        assert forall k :: 0 <= k < |start| ==> entries[k] == start[k];
      }
    }

    method Wipe(now: string)
      modifies this
      ensures Valid() && entries == []
    {
      entries := [];
      MakeList(now);
    }

    method Add(e: Entry, now: string) returns (r: Reply)
      requires Valid() && Attached(e, false)
      modifies this
      ensures Valid() && (entries, r) == AddedTo(old(entries), e)
    {
      for i := 0 to |list|
        invariant !HasName(list[..i], e.name)
      {
        if list[i].name == e.name {
          return Success(Ignored);
        }
        assert list[..i + 1] == list[..i] + [list[i]];
      }
      assert list[..|list|] == list;
      entries := entries + [e];
      MakeList(now);
      r := Success(Added);
    }

    /** Returns the entry as it is after the call: marked when it was removed. After an
        aborted removal the overlays no longer mirror the tree. */
    method Remove(e: Entry, now: string) returns (r: Reply, marked: Entry)
      requires Valid()
      modifies this
      ensures (entries, r) == FixedRemoved(old(entries), e.name)
      ensures r != Aborted ==> Valid()
      ensures marked == if r == Success(Removed) then e.(removedAt := Some(now)) else e
    {
      marked := e;
      if list == [] {
        return Success(Ignored), marked;
      }
      var oldCount := |entries|;
      EraseName(e.name);
      if oldCount == |entries| {
        ErasedAll(old(entries), e.name);
        return Failure(Missing), marked;
      }
      if oldCount != |entries| + 1 {
        return Aborted, marked;
      }
      marked := e.(removedAt := Some(now));
      WithoutAttached(old(entries), e.name, false);
      MakeList(now);
      r := Success(Removed);
    }

    /** `erase(remove_if(...))` */
    method EraseName(name: string)
      modifies this`entries
      ensures entries == Without(old(entries), name)
    {
      var kept := [];
      for i := 0 to |entries|
        invariant kept == Without(entries[..i], name)
      {
        assert entries[..i + 1][..i] == entries[..i];
        if entries[i].name != name {
          kept := kept + [entries[i]];
        }
      }
      assert entries[..|entries|] == entries;
      entries := kept;
    }
  }

  class MovableList {
    var active: seq<Entry>
    var history: seq<Entry>
    var activeList: seq<Entry>
    var historyList: seq<Entry>

    ghost predicate Valid()
      reads this
    {
      && activeList == active && historyList == history
      && AllAttached(active, true) && AllAttached(history, true)
    }

    constructor (active: seq<Entry>, history: seq<Entry>)
      requires AllAttached(active, true) && AllAttached(history, true)
      ensures Valid() && this.active == active && this.history == history
    {
      this.active, this.history := active, history;
      activeList, historyList := active, history;
    }

    method Add(e: Entry) returns (r: Reply)
      requires Valid() && Attached(e, true)
      modifies this
      ensures Valid() && (active, r) == AddedTo(old(active), e) && history == old(history)
    {
      for i := 0 to |activeList|
        invariant !HasName(activeList[..i], e.name)
      {
        if activeList[i].name == e.name {
          return Success(Ignored);
        }
        assert activeList[..i + 1] == activeList[..i] + [activeList[i]];
      }
      assert activeList[..|activeList|] == activeList;
      active := active + [e];
      activeList := active;
      r := Success(Added);
    }

    /** A removal from an empty list is not ignored here: the early success is computed but
        not returned. */
    method Remove(e: Entry, now: string) returns (r: Reply, marked: Entry)
      requires Valid() && Attached(e, true)
      modifies this
      ensures (active, r) == Erased(old(active), e.name)
      ensures marked == if r == Success(Removed) then e.(removedAt := Some(now)) else e
      ensures history == if r == Success(Removed) then old(history) + [marked] else old(history)
      ensures r != Aborted ==> Valid()
    {
      marked := e;
      var kept := [];
      for i := 0 to |active|
        invariant kept == Without(active[..i], e.name)
      {
        assert active[..i + 1][..i] == active[..i];
        if active[i].name != e.name {
          kept := kept + [active[i]];
        }
      }
      assert active[..|active|] == active;
      WithoutNames(active, e.name);
      var oldCount := |active|;
      active := kept;
      if oldCount == |active| {
        ErasedAll(old(active), e.name);
        return Failure(Missing), marked;
      }
      if oldCount - 1 != |active| {
        return Aborted, marked;
      }
      activeList := active;
      marked := e.(removedAt := Some(now));
      history := history + [marked];
      historyList := history;
      r := Success(Removed);
    }
  }
}
