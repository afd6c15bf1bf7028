/** The FHiCL conversions as they run: loops with an index counter that append to a data
    tree and a metadata tree, or to a syntax tree. */
module FhiclConvert {
  import opened Json
  import opened Text
  import opened Escape
  import opened Fhicl

  /** A pair of trees under construction. */
  class PairNode {
    var items: seq<Value>
    var members: Table
    var meta: Table

    constructor ()
      ensures items == [] && members == [] && meta == []
    {
      items, members, meta := [], [], [];
    }
  }

  method Fcl2Json(key: string, v: FclValue, comments: Comments, opts: Options) returns (r: Option<Pair>)
    ensures r == ToJson(key, v, comments, opts)
    decreases v, 1
  {
    if key == "" || comments == map[] || (!PoundInclude(key) && v.info.line < 1) {
      return None;
    }
    var meta := OwnMeta(key, v, comments);
    match v
    case Atom(kind, raw, _) =>
      var text := raw;
      if kind == StringAtom {
        text := ToJsonString(Dequote(raw));
      }
      r := Some(Pair(Str(text), meta));
    case Sequence(elements, _) =>
      var node := new PairNode();
      var ok := Fcl2JsonElements(elements, comments, opts, node);
      if !ok {
        return None;
      }
      r := Some(Pair(Array(node.items), meta + [Member("children", Object(node.meta))]));
    case FclTable(members, _) =>
      var node := new PairNode();
      var ok := Fcl2JsonMembers(members, comments, opts, node);
      if !ok {
        return None;
      }
      r := Some(Pair(Object(node.members), meta + [Member("children", Object(node.meta))]));
  }

  method Fcl2JsonElements(elements: seq<FclValue>, comments: Comments, opts: Options, node: PairNode) returns (ok: bool)
    requires node.items == [] && node.meta == []
    modifies node
    ensures ok == ElementsToJson(elements, comments, opts).Some?
    ensures ok ==> ElementsToJson(elements, comments, opts) == Some(Listed(node.items, node.meta))
    decreases elements, 0
  {
    var idx := 0;
    while idx < |elements|
      invariant 0 <= idx <= |elements|
      invariant ElementsToJson(elements[..idx], comments, opts) == Some(Listed(node.items, node.meta))
    {
      PrefixElements(elements, comments, opts, idx + 1);
      assert elements[..idx + 1][..idx] == elements[..idx];
      var name := Text.Decimal(idx);
      var pair := Fcl2Json(name, elements[idx], comments, opts);
      if pair.None? {
        return false;
      }
      node.items := node.items + [pair.value.data];
      node.meta := node.meta + [Member(name, Object(pair.value.meta))];
      idx := idx + 1;
    }
    assert elements[..idx] == elements;
    ok := true;
  }

  lemma {:induction false} PrefixElements(elements: seq<FclValue>, comments: Comments, opts: Options, i: nat)
    requires i <= |elements|
    ensures ElementsToJson(elements[..i], comments, opts).None? ==> ElementsToJson(elements, comments, opts).None?
  {
    hide ToJson;
    if i < |elements| {
      var n := |elements| - 1;
      PrefixElements(elements[..n], comments, opts, i);
      assert elements[..n][..i] == elements[..i];
    } else {
      assert elements[..i] == elements;
    }
  }

  method Fcl2JsonMembers(members: seq<FclMember>, comments: Comments, opts: Options, node: PairNode) returns (ok: bool)
    requires node.members == [] && node.meta == []
    modifies node
    ensures ok == MembersToJson(members, comments, opts).Some?
    ensures ok ==> MembersToJson(members, comments, opts) == Some(Tabled(node.members, node.meta))
    decreases members, 0
  {
    for i := 0 to |members|
      invariant MembersToJson(members[..i], comments, opts) == Some(Tabled(node.members, node.meta))
    {
      PrefixMembers(members, comments, opts, i + 1);
      assert members[..i + 1][..i] == members[..i];
      if Selected(members[i].value.info, opts) {
        var pair := Fcl2Json(members[i].key, members[i].value, comments, opts);
        if pair.None? {
          return false;
        }
        node.members := node.members + [Member(members[i].key, pair.value.data)];
        node.meta := node.meta + [Member(members[i].key, Object(pair.value.meta))];
      }
    }
    assert members[..|members|] == members;
    ok := true;
  }

  lemma {:induction false} PrefixMembers(members: seq<FclMember>, comments: Comments, opts: Options, i: nat)
    requires i <= |members|
    ensures MembersToJson(members[..i], comments, opts).None? ==> MembersToJson(members, comments, opts).None?
  {
    hide ToJson;
    if i < |members| {
      var n := |members| - 1;
      PrefixMembers(members[..n], comments, opts, i);
      assert members[..n][..i] == members[..i];
    } else {
      assert members[..i] == members;
    }
  }

  /** The loop over the elements of a JSON array: it ends at the first child that has no
      metadata, or whose own conversion ends in the swallowed error. */
  method Json2FclItems(items: seq<Value>, children: Table) returns (failed: bool, sequence: seq<AstItem>)
    ensures failed == CollectItems(items, children).Broken?
    ensures !failed ==> sequence == CollectItems(items, children).items
  {
    hide ToItem, At;
    sequence := [];
    var idx := 0;
    while idx < |items|
      invariant 0 <= idx <= |items|
      invariant CollectItems(items[..idx], children) == Going(sequence)
    {
      assert items[..idx + 1][..idx] == items[..idx];
      LaterItems(items, children, idx + 1);
      var child := At(children, Text.Decimal(idx));
      var next := if child.None? then Missing else ToItem(Text.Decimal(idx), items[idx], child.value);
      if next.Missing? {
        return false, sequence;
      } else if next.Failed? {
        return true, [];
      }
      sequence := sequence + [next.value];
      idx := idx + 1;
    }
    assert items[..idx] == items;
    failed := false;
  }

  /** Once a loop has stopped or failed, the remaining children change nothing. */
  lemma {:induction false} LaterItems(items: seq<Value>, children: Table, i: nat)
    requires i <= |items|
    ensures !CollectItems(items[..i], children).Going? ==> CollectItems(items, children) == CollectItems(items[..i], children)
  {
    hide ToItem, At;
    if i < |items| {
      var n := |items| - 1;
      LaterItems(items[..n], children, i);
      assert items[..n][..i] == items[..i];
    } else {
      assert items[..i] == items;
    }
  }

  method Json2FclAtoms(members: Table, children: Table) returns (failed: bool, table: seq<AstAtom>)
    ensures failed == CollectAtoms(members, children).Broken?
    ensures !failed ==> table == CollectAtoms(members, children).items
  {
    hide ToAtom, At;
    table := [];
    for i := 0 to |members|
      invariant CollectAtoms(members[..i], children) == Going(table)
    {
      assert members[..i + 1][..i] == members[..i];
      LaterAtoms(members, children, i + 1);
      var child := At(children, members[i].key);
      var next := if child.None? then Missing else ToAtom(members[i].key, members[i].value, child.value);
      if next.Missing? {
        return false, table;
      } else if next.Failed? {
        return true, [];
      }
      table := table + [next.value];
    }
    assert members[..|members|] == members;
    failed := false;
  }

  lemma {:induction false} LaterAtoms(members: Table, children: Table, i: nat)
    requires i <= |members|
    ensures !CollectAtoms(members[..i], children).Going? ==> CollectAtoms(members, children) == CollectAtoms(members[..i], children)
  {
    hide ToAtom, At;
    if i < |members| {
      var n := |members| - 1;
      LaterAtoms(members[..n], children, i);
      assert members[..n][..i] == members[..i];
    } else {
      assert members[..i] == members;
    }
  }
}
