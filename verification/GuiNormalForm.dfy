/** A second trip through the GUI view: the metadata that the first trip returns is looked
    up again through the two places of `child`, wherever the entry was put. What the second
    trip keeps is decided by the data and the original metadata alone. */
module GuiNormalForm {
  import opened Json
  import opened Text
  import opened GuiView
  import opened GuiRoundTrip

  lemma {:induction false} CoherentMemberAt(members: Table, meta: Meta, i: nat)
    requires CoherentMembers(members, meta) && i < |members|
    ensures ChildOf(meta, members[i].key).Some?
    ensures Coherent(members[i].value, ChildOf(meta, members[i].key).value)
  {
    hide Coherent, ChildOf;
    if i < |members| - 1 {
      CoherentMemberAt(members[..|members| - 1], meta, i);
    }
  }

  lemma {:induction false} CoherentItemAt(items: seq<Value>, meta: Meta, i: nat)
    requires CoherentItems(items, meta) && i < |items|
    ensures Coherent(items[i], ItemMeta(meta, i))
  {
    hide Coherent, ChildOf;
    if i < |items| - 1 {
      CoherentItemAt(items[..|items| - 1], meta, i);
    }
  }

  function ItemEntry(items: seq<Value>, meta: Meta, i: nat): Table
    requires CoherentItems(items, meta) && i < |items|
  {
    CoherentItemAt(items, meta, i);
    NormalOf(items[i], ItemMeta(meta, i))
  }

  lemma {:induction false} CoherentFound(members: Table, meta: Meta, key: string)
    requires CoherentMembers(members, meta) && At(members, key).Some?
    ensures ChildOf(meta, key).Some? && Coherent(At(members, key).value, ChildOf(meta, key).value)
  {
    hide Coherent, ChildOf;
    var n := |members| - 1;
    AtAppend(members[..n], [members[n]], key);
    LookupOne(members[n], key);
    assert members == members[..n] + [members[n]];
    if At(members[..n], key).Some? {
      CoherentFound(members[..n], meta, key);
    }
  }

  /** The rebuilt entry of a key is the normal metadata of the first member with the key. */
  lemma {:induction false} NormalMembersLookup(members: Table, meta: Meta, key: string)
    requires CoherentMembers(members, meta)
    ensures At(members, key).None? ==> At(NormalMembers(members, meta), key) == None
    ensures At(members, key).Some? ==>
      && ChildOf(meta, key).Some? && Coherent(At(members, key).value, ChildOf(meta, key).value)
      && At(NormalMembers(members, meta), key) == Some(Object(NormalOf(At(members, key).value, ChildOf(meta, key).value)))
  {
    hide Coherent, ChildOf, NormalOf, At;
    if members == [] {
      AtFinds([], key);
    } else {
      var n := |members| - 1;
      var last := Member(members[n].key, Object(NormalOf(members[n].value, ChildOf(meta, members[n].key).value)));
      NormalMembersLookup(members[..n], meta, key);
      AtAppend(members[..n], [members[n]], key);
      AtAppend(NormalMembers(members[..n], meta), [last], key);
      LookupOne(members[n], key);
      LookupOne(last, key);
      assert members == members[..n] + [members[n]];
    }
  }

  /** Both places of the lookup, for the node of a sequence: an index below the length is
      found with its entry, an index from the length on is in neither place. */
  lemma {:induction false} ItemsLookup(items: seq<Value>, meta: Meta, i: nat)
    requires Comment(meta).Some? && CoherentItems(items, meta)
    ensures var node := NormalItems(items, meta);
      && At(node, "type") == Some(Str("sequence")) && At(node, "comment") == Some(Str(Comment(meta).value))
      && (i < |items| ==> Child(node, Text.Decimal(i)) == Some(ItemEntry(items, meta, i)))
      && (i >= |items| ==>
            At(node, Text.Decimal(i)) == None && NotUnderChildren(node, Text.Decimal(i)))
    decreases |items|
  {
    hide At, NormalOf, Coherent, AddToChildren;
    var d := Text.Decimal(i);
    assert IsDigit(d[0]);
    assert d != "children" && d != "type" && d != "comment" && d != "annotation" by {
      assert !IsDigit("children"[0]) && !IsDigit("type"[0]) && !IsDigit("comment"[0]) && !IsDigit("annotation"[0]);
    }
    assert "type"[0] != "children"[0] && "comment"[1] != "children"[1] && "type"[0] != "comment"[0];
    if items == [] {
      var node := SequenceMeta(Comment(meta).value, "");
      LookupThree(node, "type");
      LookupThree(node, "comment");
      LookupThree(node, "children");
      LookupThree(node, d);
    } else {
      var n := |items| - 1;
      var before := NormalItems(items[..n], meta);
      ItemsLookup(items[..n], meta, i);
      DecimalInjective(i, n);
      var name := Text.Decimal(n);
      var entry := NormalOf(items[n], ItemMeta(meta, n));
      EntryLookup(before, name, items[n], entry, d);
      EntryLookup(before, name, items[n], entry, "type");
      EntryLookup(before, name, items[n], entry, "comment");
      EntryLookup(before, name, items[n], entry, "children");
    }
  }

  predicate NotUnderChildren(node: Table, key: string)
    requires ChildrenOk(node)
  {
    At(node, "children").Some? ==> At(At(node, "children").value.members, key) == None
  }

  /** One more entry, in either place, is found under its name and hides no other. */
  lemma EntryLookup(node: Table, name: string, value: Value, entry: Table, key: string)
    requires ChildrenOk(node) && name != "" && IsDigit(name[0])
    ensures key != name && key != "children" ==> At(AddEntry(true, node, name, value, entry), key) == At(node, key)
    ensures key != name && key != "children" ==> Child(AddEntry(true, node, name, value, entry), key) == Child(node, key)
    ensures key != name && NotUnderChildren(node, key) ==> NotUnderChildren(AddEntry(true, node, name, value, entry), key)
    ensures At(node, name) == None && NotUnderChildren(node, name) ==>
      Child(AddEntry(true, node, name, value, entry), name) == Some(entry)
  {
    hide At, AddToChildren;
    assert !IsDigit("children"[0]);
    var m := Member(name, Object(entry));
    assert At([m], name) == Some(Object(entry)) && (key != name ==> At([m], key) == None) by { LookupOne(m, name); LookupOne(m, key); }
    assert At([m], "children") == None by { LookupOne(m, "children"); }
    assert At([], name) == None && At([], key) == None by { AtFinds([], name); AtFinds([], key); }
    if value.Scalar() {
      AddToChildrenAt(node, name, entry, key);
      AddToChildrenAt(node, name, entry, name);
      var children := if At(node, "children").Some? then At(node, "children").value.members else [];
      AtAppend(children, [m], key);
      AtAppend(children, [m], name);
    } else {
      AtAppend(node, [m], key);
      AtAppend(node, [m], name);
      AtAppend(node, [m], "children");
    }
  }

  /** Where the rebuilt metadata of a table stands: nowhere, when the table that the
      metadata was rebuilt from had no such member; at the top of a document; or under
      `children` of a table's own metadata. */
  datatype Place = Nowhere | Top(table: Table) | Nested(table: Table)

  function Known(place: Place, key: string): Option<Value> {
    if place.Nowhere? then None else At(place.table, key)
  }

  /** Below the top, the key `children` leads to the list of all entries, not to one of them. */
  predicate KeyAllowed(place: Place, key: string) {
    place.Nowhere? || (key != "" && (place.Nested? ==> key != "children"))
  }

  predicate Fits(place: Place, meta: Meta) {
    place.Nowhere? || CoherentMembers(place.table, meta)
  }

  function PlaceOf(first: Option<Value>): Place
    requires first.Some? ==> first.value.Object?
  {
    if first.None? then Nowhere else Nested(first.value.members)
  }

  function ElementsOf(first: Option<Value>): seq<Value>
    requires first.Some? ==> first.value.Array?
  {
    if first.None? then [] else first.value.items
  }

  function Element(items: seq<Value>, i: nat): Option<Value> {
    if i < |items| then Some(items[i]) else None
  }

  /** Two values under one key share the original metadata, but after the first trip the
      later one is looked up and gets what was rebuilt for the first. This is enough for it
      when the two are of one kind and their members serve each other in turn, or when the
      later one is a text with a blank annotation behind a table. A value for which nothing
      was rebuilt has to do with the defaults. */
  predicate Serves(first: Option<Value>, later: Value, meta: Meta)
    requires first.Some? ==> Coherent(first.value, meta)
    requires Coherent(later, meta)
    decreases later, 1
  {
    match later
    case Object(members) =>
      && (if first.None? then Comment(meta) == Some(" ") else first.value.Object?)
      && ServesMembers(PlaceOf(first), members, meta)
    case Array(items) =>
      && (if first.None? then Comment(meta) == Some(" ") else first.value.Array?)
      && ServesItems(ElementsOf(first), items, meta)
    case _ =>
      match first
      case None => ScalarType(meta) == "string" && Comment(meta) == Some(" ") && Annotate(Annotation(meta).value) == ""
      case Some(Object(_)) => Annotate(Annotation(meta).value) == ""
      case Some(Array(_)) => false
      case _ => true
  }

  predicate ServesMembers(place: Place, members: Table, meta: Meta)
    requires Fits(place, meta) && CoherentMembers(members, meta)
    decreases members, 0
  {
    members != [] ==>
      var n := |members| - 1;
      ServesMembers(place, members[..n], meta) && ServesMember(place, members[n], meta)
  }

  predicate ServesMember(place: Place, m: Member, meta: Meta)
    requires Fits(place, meta) && ChildOf(meta, m.key).Some? && Coherent(m.value, ChildOf(meta, m.key).value)
    decreases m, 2
  {
    && KeyAllowed(place, m.key)
    && (assert Known(place, m.key).Some? ==> Coherent(Known(place, m.key).value, ChildOf(meta, m.key).value) by {
          if Known(place, m.key).Some? { CoherentFound(place.table, meta, m.key); }
        }
        Serves(Known(place, m.key), m.value, ChildOf(meta, m.key).value))
  }

  predicate ServesItems(first: seq<Value>, items: seq<Value>, meta: Meta)
    requires CoherentItems(first, meta) && CoherentItems(items, meta)
    decreases items, 0
  {
    items != [] ==>
      var n := |items| - 1;
      && ServesItems(first, items[..n], meta)
      && (assert n < |first| ==> Coherent(first[n], ItemMeta(meta, n)) by {
            if n < |first| { CoherentItemAt(first, meta, n); }
          }
          Serves(Element(first, n), items[n], ItemMeta(meta, n)))
  }

  /** What is rebuilt for a value. */
  function Rebuilt(first: Option<Value>, meta: Meta): Meta
    requires first.Some? ==> Coherent(first.value, meta)
  {
    if first.None? then None else Some(NormalOf(first.value, meta))
  }

  function NodeAt(place: Place, meta: Meta): Meta
    requires Fits(place, meta) && (place.Nested? ==> Comment(meta).Some?)
  {
    match place
    case Nowhere => None
    case Top(table) => Some(NormalMembers(table, meta))
    case Nested(table) => Some(TableMeta(Comment(meta).value, NormalMembers(table, meta)))
  }

  /** From its node, every allowed key leads to what was rebuilt for the first member with
      the key, and a key that is not allowed leads to nothing or to no metadata. */
  lemma NodeLookup(place: Place, meta: Meta, key: string)
    requires Fits(place, meta) && (place.Nested? ==> Comment(meta).Some?)
    requires place.Top? ==> At(place.table, key).Some?
    ensures Known(place, key).Some? ==> ChildOf(meta, key).Some? && Coherent(Known(place, key).value, ChildOf(meta, key).value)
    ensures KeyAllowed(place, key) ==>
      ChildOf(NodeAt(place, meta), key) ==
      Some(if Known(place, key).None? then None else Rebuilt(Known(place, key), ChildOf(meta, key).value))
    ensures !KeyAllowed(place, key) ==>
      var child := ChildOf(NodeAt(place, meta), key);
      child.None? || Comment(child.value).None?
  {
    hide At, NormalMembers, CoherentMembers, Coherent, NormalOf;
    if !place.Nowhere? {
      NormalMembersLookup(place.table, meta, key);
      if place.Nested? {
        var node := NodeAt(place, meta).value;
        assert "type"[0] != "children"[0] && "comment"[1] != "children"[1];
        LookupThree(node, "children");
        LookupThree(node, key);
        if key == "children" {
          CommentOfEntries(place.table, meta);
        }
      }
    }
  }

  /** The list of entries is no metadata: it has no comment text. */
  lemma CommentOfEntries(members: Table, meta: Meta)
    requires CoherentMembers(members, meta)
    ensures Comment(Some(NormalMembers(members, meta))).None?
  {
    hide NormalMembers;
    NormalMembersLookup(members, meta, "comment");
  }

  lemma ElementLookup(first: seq<Value>, meta: Meta, i: nat)
    requires Comment(meta).Some? && CoherentItems(first, meta)
    ensures i < |first| ==> Coherent(first[i], ItemMeta(meta, i))
    ensures ItemMeta(Some(NormalItems(first, meta)), i) ==
      if i < |first| then CoherentItemAt(first, meta, i); Rebuilt(Some(first[i]), ItemMeta(meta, i)) else None
  {
    hide NormalItems, CoherentItems, Coherent, NormalOf, At;
    ItemsLookup(first, meta, i);
    if i < |first| {
      CoherentItemAt(first, meta, i);
    }
  }

  /** Serving is exactly what the second trip needs: the later value is coherent with what
      was rebuilt for the first, and gets the same normal metadata from it. */
  lemma {:induction false} ServesNormal(first: Option<Value>, later: Value, meta: Meta)
    requires first.Some? ==> Coherent(first.value, meta)
    requires Coherent(later, meta)
    ensures Serves(first, later, meta) <==>
      Coherent(later, Rebuilt(first, meta)) && NormalOf(later, Rebuilt(first, meta)) == NormalOf(later, meta)
    decreases later, 2
  {
    match later
    case Object(members) => TableNormal(first, members, meta);
    case Array(items) => SequenceNormal(first, items, meta);
    case _ => TextNormal(first, later, meta);
  }

  /** What the three kinds of rebuilt metadata say about themselves. */
  lemma RebuiltFields(first: Value, meta: Meta)
    requires Coherent(first, meta)
    ensures var node := Some(NormalOf(first, meta));
      && Comment(node) == Comment(meta)
      && TypeName(node, "") == Some(if first.Object? then "table" else if first.Array? then "sequence" else ScalarType(meta))
      && (first.Object? ==> Annotation(node) == Some(""))
      && (first.Scalar() ==> Annotation(node) == Some(Annotate(Annotation(meta).value)))
      && (first.Scalar() ==> !TableType(ScalarType(meta)) && !SequenceType(ScalarType(meta)))
  {
    hide At, NormalMembers, NormalItems, CoherentMembers, CoherentItems, Annotate;
    var node := NormalOf(first, meta);
    DefaultTypes();
    assert "type"[0] != "comment"[0] && "type"[0] != "annotation"[0] && "comment"[0] != "annotation"[0];
    assert "children"[1] != "comment"[1] && "children" != "type" && "children" != "annotation";
    if first.Array? {
      ItemsLookup(first.items, meta, 0);
    } else {
      LookupThree(node, "type");
      LookupThree(node, "comment");
      LookupThree(node, "annotation");
    }
  }

  lemma TextNormal(first: Option<Value>, later: Value, meta: Meta)
    requires first.Some? ==> Coherent(first.value, meta)
    requires Coherent(later, meta) && later.Scalar()
    ensures Serves(first, later, meta) <==>
      Coherent(later, Rebuilt(first, meta)) && NormalOf(later, Rebuilt(first, meta)) == NormalOf(later, meta)
  {
    hide Annotate, NormalMembers, NormalItems, CoherentMembers, CoherentItems;
    DefaultTypes();
    BlankAnnotation();
    if first.Some? {
      RebuiltFields(first.value, meta);
      AnnotateIdempotent(Annotation(meta).value);
    }
    var node := Rebuilt(first, meta);
    if Coherent(later, node) {
      hide NormalOf;
      TextMeta(later, node);
      TextMeta(later, meta);
    }
  }

  lemma TextMeta(value: Value, meta: Meta)
    requires Coherent(value, meta) && value.Scalar()
    ensures forall t: string, c: string, a: string ::
      NormalOf(value, meta) == ScalarMeta(t, c, a) <==>
        t == ScalarType(meta) && Comment(meta) == Some(c) && a == Annotate(Annotation(meta).value)
    ensures NormalOf(value, meta) == ScalarMeta(ScalarType(meta), Comment(meta).value, Annotate(Annotation(meta).value))
  {
    hide Annotate;
    forall t: string, c: string, a: string
      ensures NormalOf(value, meta) == ScalarMeta(t, c, a) <==>
        t == ScalarType(meta) && Comment(meta) == Some(c) && a == Annotate(Annotation(meta).value)
    {
      var m, m' := NormalOf(value, meta), ScalarMeta(t, c, a);
      assert m'[0].value == Str(t) && m'[1].value == Str(c) && m'[2].value == Str(a);
    }
  }

  lemma BlankAnnotation()
    ensures Annotate("") == ""
  {
  }

  lemma {:induction false} TableNormal(first: Option<Value>, members: Table, meta: Meta)
    requires first.Some? ==> Coherent(first.value, meta)
    requires Coherent(Object(members), meta)
    ensures var later := Object(members);
      Serves(first, later, meta) <==>
      Coherent(later, Rebuilt(first, meta)) && NormalOf(later, Rebuilt(first, meta)) == NormalOf(later, meta)
    decreases members, 2
  {
    hide NormalMembers, NormalItems, CoherentMembers, CoherentItems, ServesMembers;
    DefaultTypes();
    var later, node := Object(members), Rebuilt(first, meta);
    if first.Some? {
      RebuiltFields(first.value, meta);
    }
    if first.None? || first.value.Object? {
      MembersNormal(PlaceOf(first), members, meta);
      assert node == NodeAt(PlaceOf(first), meta);
      if CoherentMembers(members, node) {
        assert NormalOf(later, meta) == TableMeta(Comment(meta).value, NormalMembers(members, meta));
        assert NormalOf(later, node) == TableMeta(Comment(node).value, NormalMembers(members, node));
        TableMetaEqual(Comment(meta).value, NormalMembers(members, meta), Comment(node).value, NormalMembers(members, node));
      }
    }
  }

  lemma TableMetaEqual(c: string, t: Table, c': string, t': Table)
    ensures TableMeta(c, t) == TableMeta(c', t') <==> c == c' && t == t'
  {
    var m, m' := TableMeta(c, t), TableMeta(c', t');
    assert m[1].value == Str(c) && m'[1].value == Str(c') && m[2].value == Object(t) && m'[2].value == Object(t');
  }

  lemma {:induction false} MembersNormal(place: Place, members: Table, meta: Meta)
    requires Fits(place, meta) && CoherentMembers(members, meta) && (place.Nested? ==> Comment(meta).Some?)
    requires place.Top? ==> forall i :: 0 <= i < |members| ==> At(place.table, members[i].key).Some?
    ensures var node := NodeAt(place, meta);
      ServesMembers(place, members, meta) <==>
      CoherentMembers(members, node) && NormalMembers(members, node) == NormalMembers(members, meta)
    decreases members, 1
  {
    hide Coherent, NormalOf, Serves, ChildOf, NodeAt, At;
    if members != [] {
      var n := |members| - 1;
      var node := NodeAt(place, meta);
      MembersNormal(place, members[..n], meta);
      MemberNormal(place, members[n], meta);
      if CoherentMembers(members, node) {
        var init := members[..n];
        LastApart(NormalMembers(init, node), NormalMembers(init, meta),
                  NormalMember(members[n], node), NormalMember(members[n], meta));
      }
    }
  }

  function NormalMember(m: Member, meta: Meta): Member
    requires ChildOf(meta, m.key).Some? && Coherent(m.value, ChildOf(meta, m.key).value)
  {
    Member(m.key, Object(NormalOf(m.value, ChildOf(meta, m.key).value)))
  }

  lemma {:induction false} MemberNormal(place: Place, m: Member, meta: Meta)
    requires Fits(place, meta) && (place.Nested? ==> Comment(meta).Some?)
    requires place.Top? ==> At(place.table, m.key).Some?
    requires ChildOf(meta, m.key).Some? && Coherent(m.value, ChildOf(meta, m.key).value)
    ensures var node := NodeAt(place, meta);
      ServesMember(place, m, meta) <==>
      && ChildOf(node, m.key).Some? && Coherent(m.value, ChildOf(node, m.key).value)
      && NormalMember(m, node) == NormalMember(m, meta)
    decreases m, 3
  {
    hide NormalOf, Serves, ChildOf, NodeAt, At, CoherentMembers, CoherentItems;
    NodeLookup(place, meta, m.key);
    if KeyAllowed(place, m.key) {
      ServesNormal(Known(place, m.key), m.value, ChildOf(meta, m.key).value);
    }
  }

  lemma LastApart<T>(s: seq<T>, t: seq<T>, x: T, y: T)
    ensures s + [x] == t + [y] <==> s == t && x == y
  {
    if s + [x] == t + [y] {
      assert |s + [x]| == |t + [y]|;
      assert s == (s + [x])[..|s|] && x == (s + [x])[|s|];
    }
  }

  lemma {:induction false} SequenceNormal(first: Option<Value>, items: seq<Value>, meta: Meta)
    requires first.Some? ==> Coherent(first.value, meta)
    requires Coherent(Array(items), meta)
    ensures var later := Array(items);
      Serves(first, later, meta) <==>
      Coherent(later, Rebuilt(first, meta)) && NormalOf(later, Rebuilt(first, meta)) == NormalOf(later, meta)
    decreases items, 3
  {
    hide NormalMembers, NormalItems, CoherentMembers, CoherentItems, ServesItems, ItemMeta;
    DefaultTypes();
    var later, node := Array(items), Rebuilt(first, meta);
    if first.Some? {
      RebuiltFields(first.value, meta);
    }
    if first.None? || first.value.Array? {
      ItemsPaired(first, meta);
      if Comment(node) == Comment(meta) {
        ItemsNormal(ElementsOf(first), items, meta, node);
      } else if CoherentItems(items, node) {
        ItemsLookup(items, meta, 0);
        ItemsLookup(items, node, 0);
      }
    }
  }

  /** The node of a sequence leads every index to what was rebuilt for that element. */
  ghost predicate Paired(first: seq<Value>, meta: Meta, node: Meta) {
    && CoherentItems(first, meta)
    && forall i: nat ::
         && (i < |first| ==> Coherent(first[i], ItemMeta(meta, i)))
         && ItemMeta(node, i) == if i < |first| then Rebuilt(Some(first[i]), ItemMeta(meta, i)) else None
  }

  lemma ItemsPaired(first: Option<Value>, meta: Meta)
    requires first.Some? ==> first.value.Array? && Coherent(first.value, meta)
    ensures Paired(ElementsOf(first), meta, Rebuilt(first, meta))
  {
    hide NormalItems, ItemMeta;
    var elements, node := ElementsOf(first), Rebuilt(first, meta);
    assert CoherentItems(elements, meta);
    forall i: nat
      ensures i < |elements| ==> Coherent(elements[i], ItemMeta(meta, i))
      ensures ItemMeta(node, i) == if i < |elements| then Rebuilt(Some(elements[i]), ItemMeta(meta, i)) else None
    {
      if first.Some? {
        ElementLookup(elements, meta, i);
      } else {
        NothingRebuilt(i);
      }
    }
  }

  lemma NothingRebuilt(i: nat)
    ensures ItemMeta(None, i) == None
  {
  }

  lemma {:induction false} ItemsNormal(first: seq<Value>, items: seq<Value>, meta: Meta, node: Meta)
    requires Comment(meta).Some? && Comment(node) == Comment(meta) && CoherentItems(items, meta)
    requires Paired(first, meta, node)
    ensures ServesItems(first, items, meta) <==>
      CoherentItems(items, node) && NormalItems(items, node) == NormalItems(items, meta)
    decreases items, 2
  {
    hide Coherent, NormalOf, Serves, NormalItems, ServesItems, CoherentItems, ItemMeta;
    if ServesItems(first, items, meta) {
      ServedSame(first, items, meta, node);
    } else if CoherentItems(items, node) && NormalItems(items, node) == NormalItems(items, meta) {
      forall i: nat | i < |items|
        ensures ItemEntry(items, node, i) == ItemEntry(items, meta, i)
      {
        ItemsLookup(items, meta, i);
        ItemsLookup(items, node, i);
      }
      SameServed(first, items, meta, node);
    }
  }

  lemma {:induction false} ServedSame(first: seq<Value>, items: seq<Value>, meta: Meta, node: Meta)
    requires Comment(meta).Some? && Comment(node) == Comment(meta) && CoherentItems(items, meta)
    requires Paired(first, meta, node) && ServesItems(first, items, meta)
    ensures CoherentItems(items, node) && NormalItems(items, node) == NormalItems(items, meta)
    decreases items, 1
  {
    hide Coherent, NormalOf, Serves, AddEntry;
    if items != [] {
      var n := |items| - 1;
      ServedSame(first, items[..n], meta, node);
      ServesNormal(Element(first, n), items[n], ItemMeta(meta, n));
    }
  }

  lemma {:induction false} SameServed(first: seq<Value>, items: seq<Value>, meta: Meta, node: Meta)
    requires CoherentItems(items, meta) && CoherentItems(items, node) && Paired(first, meta, node)
    requires forall i: nat :: i < |items| ==> ItemEntry(items, node, i) == ItemEntry(items, meta, i)
    ensures ServesItems(first, items, meta)
    decreases items, 1
  {
    hide Coherent, NormalOf, Serves;
    if items != [] {
      var n := |items| - 1;
      var init := items[..n];
      forall i: nat | i < n
        ensures ItemEntry(init, node, i) == ItemEntry(init, meta, i)
      {
        assert ItemEntry(init, meta, i) == ItemEntry(items, meta, i);
        assert ItemEntry(init, node, i) == ItemEntry(items, node, i);
      }
      SameServed(first, init, meta, node);
      assert ItemEntry(items, node, n) == ItemEntry(items, meta, n);
      ServesNormal(Element(first, n), items[n], ItemMeta(meta, n));
    }
  }

  /** Metadata as the GUI writes it: kinds named `table` and `sequence`, no text typed as a
      table, annotations in annotated form. Behind a table under the same key a text is
      shown with that table's type and no annotation, so these are what it has to have. */
  predicate Canonical(first: Option<Value>, later: Value, meta: Meta)
    requires first.Some? ==> Coherent(first.value, meta)
    requires Coherent(later, meta) && Serves(first, later, meta)
    decreases later, 1
  {
    match later
    case Object(members) => TypeName(meta, "table") == Some("table") && CanonicalMembers(PlaceOf(first), members, meta)
    case Array(items) => TypeName(meta, "sequence") == Some("sequence") && CanonicalItems(ElementsOf(first), items, meta)
    case _ =>
      if first.Some? && first.value.Object? then meta.Some? && Annotation(meta) == Some("")
      else TypeName(meta, "string") != Some("table") && Annotate(Annotation(meta).value) == Annotation(meta).value
  }

  predicate CanonicalMembers(place: Place, members: Table, meta: Meta)
    requires Fits(place, meta) && CoherentMembers(members, meta) && ServesMembers(place, members, meta)
    decreases members, 0
  {
    members != [] ==>
      var n := |members| - 1;
      && CanonicalMembers(place, members[..n], meta)
      && (assert ServesMember(place, members[n], meta);
          assert Known(place, members[n].key).Some? ==>
              Coherent(Known(place, members[n].key).value, ChildOf(meta, members[n].key).value) by {
            if Known(place, members[n].key).Some? { CoherentFound(place.table, meta, members[n].key); }
          }
          Canonical(Known(place, members[n].key), members[n].value, ChildOf(meta, members[n].key).value))
  }

  predicate CanonicalItems(first: seq<Value>, items: seq<Value>, meta: Meta)
    requires CoherentItems(first, meta) && CoherentItems(items, meta) && ServesItems(first, items, meta)
    decreases items, 0
  {
    items != [] ==>
      var n := |items| - 1;
      && CanonicalItems(first, items[..n], meta)
      && (assert n < |first| ==> Coherent(first[n], ItemMeta(meta, n)) by {
            if n < |first| { CoherentItemAt(first, meta, n); }
          }
          Canonical(Element(first, n), items[n], ItemMeta(meta, n)))
  }

  /** The row shown with the rebuilt metadata is the row shown before, exactly when the
      metadata was canonical. */
  lemma {:induction false} SameRow(name: string, first: Option<Value>, later: Value, meta: Meta)
    requires first.Some? ==> Coherent(first.value, meta)
    requires Coherent(later, meta) && Serves(first, later, meta)
    ensures RowOf(name, later, meta).Some? && RowOf(name, later, Rebuilt(first, meta)).Some?
    ensures RowOf(name, later, Rebuilt(first, meta)) == RowOf(name, later, meta) <==> Canonical(first, later, meta)
    decreases later, 2
  {
    match later
    case Object(members) => SameTableRow(name, first, members, meta);
    case Array(items) => SameSequenceRow(name, first, items, meta);
    case _ => SameTextRow(name, first, later, meta);
  }

  lemma {:induction false} SameTableRow(name: string, first: Option<Value>, members: Table, meta: Meta)
    requires first.Some? ==> Coherent(first.value, meta)
    requires var later := Object(members); Coherent(later, meta) && Serves(first, later, meta)
    ensures var later := Object(members);
      && RowOf(name, later, meta).Some? && RowOf(name, later, Rebuilt(first, meta)).Some?
      && (RowOf(name, later, Rebuilt(first, meta)) == RowOf(name, later, meta) <==> Canonical(first, later, meta))
    decreases members, 2
  {
    hide NormalMembers, CoherentMembers, CoherentItems, MemberRows, CanonicalMembers, ServesMembers, TreeRow;
    var node := Rebuilt(first, meta);
    DefaultTypes();
    if first.Some? {
      RebuiltFields(first.value, meta);
    }
    assert node == NodeAt(PlaceOf(first), meta);
    SameMemberRows(PlaceOf(first), members, meta);
    SameTreeRow(TypeName(meta, "table").value, TypeName(node, "table").value, name, Comment(meta).value,
                MemberRows(members, meta).value, MemberRows(members, node).value);
  }

  lemma {:induction false} SameSequenceRow(name: string, first: Option<Value>, items: seq<Value>, meta: Meta)
    requires first.Some? ==> Coherent(first.value, meta)
    requires var later := Array(items); Coherent(later, meta) && Serves(first, later, meta)
    ensures var later := Array(items);
      && RowOf(name, later, meta).Some? && RowOf(name, later, Rebuilt(first, meta)).Some?
      && (RowOf(name, later, Rebuilt(first, meta)) == RowOf(name, later, meta) <==> Canonical(first, later, meta))
    decreases items, 2
  {
    hide NormalItems, CoherentItems, CoherentMembers, ItemRows, CanonicalItems, ServesItems, TreeRow;
    var node := Rebuilt(first, meta);
    DefaultTypes();
    if first.Some? {
      RebuiltFields(first.value, meta);
    }
    ItemsPaired(first, meta);
    SameItemRows(ElementsOf(first), items, meta, node);
    SameTreeRow(TypeName(meta, "sequence").value, TypeName(node, "sequence").value, name, Comment(meta).value,
                ItemRows(items, meta).value, ItemRows(items, node).value);
  }

  lemma SameTextRow(name: string, first: Option<Value>, later: Value, meta: Meta)
    requires first.Some? ==> Coherent(first.value, meta)
    requires Coherent(later, meta) && later.Scalar() && Serves(first, later, meta)
    ensures RowOf(name, later, meta).Some? && RowOf(name, later, Rebuilt(first, meta)).Some?
    ensures RowOf(name, later, Rebuilt(first, meta)) == RowOf(name, later, meta) <==> Canonical(first, later, meta)
  {
    hide Annotate, ScalarRow, NormalOf, CoherentMembers, CoherentItems;
    var node := Rebuilt(first, meta);
    DefaultTypes();
    BlankAnnotation();
    if first.Some? {
      RebuiltFields(first.value, meta);
    }
    SameScalarRow(TypeName(meta, "string").value, TypeName(node, "string").value, name, Comment(meta).value, later,
                  Annotation(meta).value, Annotation(node).value);
  }

  lemma SameTreeRow(t: string, u: string, name: string, comment: string, rows: seq<Value>, rows': seq<Value>)
    ensures TreeRow(t, name, comment, rows) == TreeRow(u, name, comment, rows') <==> t == u && rows == rows'
  {
    var a, b := TreeRow(t, name, comment, rows), TreeRow(u, name, comment, rows');
    assert a[0].value == Str(t) && b[0].value == Str(u) && a[3].value == Array(rows) && b[3].value == Array(rows');
  }

  lemma SameScalarRow(t: string, u: string, name: string, comment: string, value: Value, annotation: string, annotation': string)
    ensures ScalarRow(t, name, comment, value, annotation) == ScalarRow(u, name, comment, value, annotation')
       <==> t == u && annotation == annotation'
  {
    var a, b := ScalarRow(t, name, comment, value, annotation), ScalarRow(u, name, comment, value, annotation');
    assert a[0].value == Str(t) && b[0].value == Str(u) && a[4].value == Str(annotation) && b[4].value == Str(annotation');
  }

  lemma {:induction false} SameMemberRows(place: Place, members: Table, meta: Meta)
    requires Fits(place, meta) && CoherentMembers(members, meta) && (place.Nested? ==> Comment(meta).Some?)
    requires place.Top? ==> forall i :: 0 <= i < |members| ==> At(place.table, members[i].key).Some?
    requires ServesMembers(place, members, meta)
    ensures var node := NodeAt(place, meta);
      && MemberRows(members, meta).Some? && MemberRows(members, node).Some?
      && (MemberRows(members, node) == MemberRows(members, meta) <==> CanonicalMembers(place, members, meta))
    decreases members, 1
  {
    hide Coherent, NormalOf, RowOf, Canonical, Serves, ChildOf, NodeAt, At;
    if members != [] {
      var n := |members| - 1;
      var node := NodeAt(place, meta);
      SameMemberRows(place, members[..n], meta);
      assert ServesMember(place, members[n], meta);
      NodeLookup(place, meta, members[n].key);
      SameRow(members[n].key, Known(place, members[n].key), members[n].value, ChildOf(meta, members[n].key).value);
      LastApart(MemberRows(members[..n], node).value, MemberRows(members[..n], meta).value,
                MemberRows(members, node).value[n], MemberRows(members, meta).value[n]);
    }
  }

  lemma {:induction false} SameItemRows(first: seq<Value>, items: seq<Value>, meta: Meta, node: Meta)
    requires CoherentItems(items, meta) && Paired(first, meta, node) && ServesItems(first, items, meta)
    ensures ItemRows(items, meta).Some? && ItemRows(items, node).Some?
    ensures ItemRows(items, node) == ItemRows(items, meta) <==> CanonicalItems(first, items, meta)
    decreases items, 1
  {
    hide Coherent, NormalOf, RowOf, Canonical, Serves;
    if items != [] {
      var n := |items| - 1;
      SameItemRows(first, items[..n], meta, node);
      SameRow(Text.Decimal(n), Element(first, n), items[n], ItemMeta(meta, n));
      LastApart(ItemRows(items[..n], node).value, ItemRows(items[..n], meta).value,
                ItemRows(items, node).value[n], ItemRows(items, meta).value[n]);
    }
  }

  /** A document is settled when every member is served by the first member with its key. */
  predicate Settled(data: Table, meta: Table)
    requires CoherentMembers(data, Some(meta))
  {
    ServesMembers(Top(data), data, Some(meta))
  }

  lemma KeysFound(t: Table)
    ensures forall i :: 0 <= i < |t| ==> At(t, t[i].key).Some?
  {
    forall i | 0 <= i < |t| ensures At(t, t[i].key).Some? {
      AtFinds(t, t[i].key);
    }
  }

  /** The trip through the GUI view is idempotent on data and metadata exactly on settled
      documents, and on these the view of the result is the view of the original exactly
      when the original metadata is canonical. */
  lemma RoundTripIdempotent(data: Table, meta: Table)
    requires CoherentMembers(data, Some(meta))
    ensures var normal := NormalMembers(data, Some(meta));
      var rows := DbToGui(data, normal);
      && DbToGui(data, meta).Some? && GuiToDb(DbToGui(data, meta).value) == Some(Built(Object(data), normal))
      && (rows.Some? && GuiToDb(rows.value) == Some(Built(Object(data), normal)) <==> Settled(data, meta))
      && (Settled(data, meta) ==> (rows == DbToGui(data, meta) <==> CanonicalMembers(Top(data), data, Some(meta))))
  {
    hide CoherentMembers, NormalMembers, ServesMembers, CanonicalMembers, GuiToDb, MemberRows;
    DataRoundTrip(data, meta);
    var normal := NormalMembers(data, Some(meta));
    KeysFound(data);
    MembersNormal(Top(data), data, Some(meta));
    DataRoundTrip(data, normal);
    if Settled(data, meta) {
      SameMemberRows(Top(data), data, Some(meta));
    }
  }

  /** Every table below has distinct, non-empty keys and none is named `children`. */
  predicate Plain(value: Value) {
    match value
    case Object(members) =>
      && DistinctKeys(members)
      && forall i :: 0 <= i < |members| ==>
           members[i].key != "" && members[i].key != "children" && Plain(members[i].value)
    case Array(items) => forall i :: 0 <= i < |items| ==> Plain(items[i])
    case _ => true
  }

  predicate PlainDocument(data: Table) {
    && DistinctKeys(data)
    && forall i :: 0 <= i < |data| ==> data[i].key != "" && Plain(data[i].value)
  }

  lemma AtDistinct(t: Table, i: nat)
    requires DistinctKeys(t) && i < |t|
    ensures At(t, t[i].key) == Some(t[i].value)
  {
    AtFinds(t, t[i].key);
  }

  /** Distinct keys, none of them `children` below the top, settle a document. */
  lemma PlainSettled(data: Table, meta: Table)
    requires CoherentMembers(data, Some(meta)) && PlainDocument(data)
    ensures Settled(data, meta)
  {
    hide At, CoherentMembers, Plain, Serves, ServesMembers;
    forall i | 0 <= i < |data| ensures At(data, data[i].key) == Some(data[i].value) {
      AtDistinct(data, i);
    }
    PlainMembers(Top(data), data, Some(meta));
  }

  lemma {:induction false} PlainServes(value: Value, meta: Meta)
    requires Coherent(value, meta) && Plain(value)
    ensures Serves(Some(value), value, meta)
    decreases value, 1
  {
    hide At, CoherentMembers, CoherentItems, ServesMembers, ServesItems;
    match value
    case Object(members) =>
      forall i | 0 <= i < |members| ensures At(members, members[i].key) == Some(members[i].value) {
        AtDistinct(members, i);
      }
      PlainMembers(Nested(members), members, meta);
    case Array(items) => PlainItems(items, items, meta);
    case _ =>
  }

  lemma {:induction false} PlainMembers(place: Place, members: Table, meta: Meta)
    requires Fits(place, meta) && CoherentMembers(members, meta) && !place.Nowhere?
    requires forall i :: 0 <= i < |members| ==>
      && KeyAllowed(place, members[i].key) && Plain(members[i].value)
      && At(place.table, members[i].key) == Some(members[i].value)
    ensures ServesMembers(place, members, meta)
    decreases members, 0
  {
    hide Coherent, Plain, Serves, At, ChildOf;
    if members != [] {
      var n := |members| - 1;
      PlainMembers(place, members[..n], meta);
      PlainServes(members[n].value, ChildOf(meta, members[n].key).value);
    }
  }

  lemma {:induction false} PlainItems(first: seq<Value>, items: seq<Value>, meta: Meta)
    requires CoherentItems(first, meta) && CoherentItems(items, meta) && items <= first
    requires forall i :: 0 <= i < |items| ==> Plain(items[i])
    ensures ServesItems(first, items, meta)
    decreases items, 0
  {
    hide Coherent, Plain, Serves;
    if items != [] {
      var n := |items| - 1;
      PlainItems(first, items[..n], meta);
      PlainServes(items[n], ItemMeta(meta, n));
    }
  }

  /** Distinct keys are needed: a text and a table under one key, with no metadata, come
      back from the first trip, but the second trip reads the table with the text's type. */
  lemma DuplicateKeysBreak()
    ensures var data := [Member("a", Str("x")), Member("a", Object([]))];
      CoherentMembers(data, Some([])) && !CoherentMembers(data, Some(NormalMembers(data, Some([]))))
  {
    var data := [Member("a", Str("x")), Member("a", Object([]))];
    assert data[..1] == [data[0]] && data[..1][..0] == [];
    DefaultTypes();
    assert Child([], "a") == None;
    assert ChildOf(Some([]), "a") == Some(None);
    assert Coherent(Str("x"), None) && Coherent(Object([]), None);
    assert CoherentMembers(data[..1], Some([]));
    var normal := NormalMembers(data, Some([]));
    var entry := ScalarMeta("string", " ", Annotate(""));
    assert NormalMembers(data[..1], Some([])) == [Member("a", Object(entry))];
    assert normal[0] == Member("a", Object(entry));
    assert Child(normal, "a") == Some(entry);
    LookupThree(entry, "type");
    assert !TableType("string") by { assert "string"[0] != "table"[0] && "string"[0] != "object"[0]; }
  }

  /** A table and then a text under one key, with no metadata, are settled, but the second
      view shows the text with the table's type. */
  lemma RepeatedKeyChangesView()
    ensures var data := [Member("a", Object([])), Member("a", Str("x"))];
      && CoherentMembers(data, Some([])) && Settled(data, [])
      && DbToGui(data, NormalMembers(data, Some([]))) != DbToGui(data, [])
  {
    var data := [Member("a", Object([])), Member("a", Str("x"))];
    assert data[..1] == [data[0]] && data[..1][..0] == [];
    assert ChildOf(Some([]), "a") == Some(None);
    assert Coherent(Str("x"), None) && Coherent(Object([]), None);
    assert CoherentMembers(data[..1], Some([])) && CoherentMembers(data, Some([]));
    assert Known(Top(data), "a") == Some(Object([]));
    assert Serves(Some(Object([])), Object([]), None) && Serves(Some(Object([])), Str("x"), None);
    assert ServesMembers(Top(data), data[..1][..0], Some([])) && ServesMember(Top(data), data[0], Some([]));
    assert ServesMembers(Top(data), data[..1], Some([]));
    assert !Canonical(Some(Object([])), Str("x"), None);
    RoundTripIdempotent(data, []);
  }

  /** Two texts under one key are settled. */
  lemma RepeatedTextSettled()
    ensures var data := [Member("a", Str("x")), Member("a", Str("y"))];
      CoherentMembers(data, Some([])) && Settled(data, []) && CanonicalMembers(Top(data), data, Some([]))
  {
    var data := [Member("a", Str("x")), Member("a", Str("y"))];
    assert data[..1] == [data[0]] && data[..1][..0] == [];
    assert ChildOf(Some([]), "a") == Some(None);
    assert Coherent(Str("x"), None) && Coherent(Str("y"), None);
    assert CoherentMembers(data[..1], Some([])) && CoherentMembers(data, Some([]));
    assert Known(Top(data), "a") == Some(Str("x"));
    assert Serves(Some(Str("x")), Str("x"), None) && Serves(Some(Str("x")), Str("y"), None);
    assert ServesMembers(Top(data), data[..1][..0], Some([])) && ServesMember(Top(data), data[0], Some([]));
    assert ServesMembers(Top(data), data[..1], Some([]));
    assert "string"[0] != "table"[0];
    BlankAnnotation();
    assert Canonical(Some(Str("x")), Str("x"), None);
    assert CanonicalMembers(Top(data), data[..1][..0], Some([]));
    assert CanonicalMembers(Top(data), data[..1], Some([]));
  }
}
