/** The document comes back from its GUI view: exactly when the metadata agrees with the
    shape of the data, and with the metadata in a normal form. */
module GuiRoundTrip {
  import opened Json
  import opened Text
  import opened GuiView

  /** Metadata agrees with the data: wherever a metadata node is found it has a comment and
      a type, the type is that of the value's kind, and an annotation of a scalar is a
      string. A missing node agrees with everything. */
  predicate Coherent(value: Value, meta: Meta)
    decreases value, 1
  {
    && Comment(meta).Some?
    && (meta.Some? ==> TypeName(meta, "").Some?)
    && match value
       case Object(members) => (meta.Some? ==> TableType(TypeName(meta, "").value)) && CoherentMembers(members, meta)
       case Array(items) => (meta.Some? ==> SequenceType(TypeName(meta, "").value)) && CoherentItems(items, meta)
       case _ =>
         && (meta.Some? ==> !SequenceType(TypeName(meta, "").value) && TypeName(meta, "").value != "object")
         && Annotation(meta).Some?
  }

  predicate CoherentMembers(members: Table, meta: Meta)
    decreases members, 0
  {
    members != [] ==>
      var n := |members| - 1;
      && CoherentMembers(members[..n], meta)
      && ChildOf(meta, members[n].key).Some?
      && Coherent(members[n].value, ChildOf(meta, members[n].key).value)
  }

  predicate CoherentItems(items: seq<Value>, meta: Meta)
    decreases items, 0
  {
    items != [] ==>
      var n := |items| - 1;
      && CoherentItems(items[..n], meta)
      && Coherent(items[n], ChildOf(meta, Text.Decimal(n)).value)
  }

  predicate ChildrenOk(meta: Table) {
    At(meta, "children").Some? ==> At(meta, "children").value.Object?
  }

  /** The metadata node a value gets back. A scalar keeps type and comment and has its
      annotation in annotated form; a table lists its members under `children`; a sequence
      loses its annotation and keeps its scalars under `children` but its tables and
      sequences directly. */
  function NormalOf(value: Value, meta: Meta): Table
    requires Coherent(value, meta)
    decreases value, 1
  {
    match value
    case Object(members) => TableMeta(Comment(meta).value, NormalMembers(members, meta))
    case Array(items) => NormalItems(items, meta)
    case _ => ScalarMeta(ScalarType(meta), Comment(meta).value, Annotate(Annotation(meta).value))
  }

  function ScalarType(meta: Meta): string
    requires TypeName(meta, "string").Some?
  {
    var typeName := TypeName(meta, "string").value;
    if typeName == "table" then "string" else typeName
  }

  function NormalMembers(members: Table, meta: Meta): Table
    requires CoherentMembers(members, meta)
    decreases members, 0
  {
    if members == [] then []
    else
      var n := |members| - 1;
      NormalMembers(members[..n], meta)
      + [Member(members[n].key, Object(NormalOf(members[n].value, ChildOf(meta, members[n].key).value)))]
  }

  function NormalItems(items: seq<Value>, meta: Meta): (r: Table)
    requires Comment(meta).Some? && CoherentItems(items, meta)
    ensures ChildrenOk(r)
    decreases items, 0
  {
    if items == [] then
      SequenceMetaLookup(Comment(meta).value, "", "children");
      SequenceMeta(Comment(meta).value, "")
    else
      var n := |items| - 1;
      assert IsDigit(Text.Decimal(n)[0]) && !IsDigit("children"[0]);
      AddEntry(true, NormalItems(items[..n], meta), Text.Decimal(n), items[n], NormalOf(items[n], ItemMeta(meta, n)))
  }

  lemma SequenceMetaLookup(comment: string, annotation: string, key: string)
    ensures key !in ["type", "comment", "annotation"] ==> At(SequenceMeta(comment, annotation), key) == None
  {
    LookupThree(SequenceMeta(comment, annotation), key);
  }

  function ItemMeta(meta: Meta, i: nat): Meta {
    ChildOf(meta, Text.Decimal(i)).value
  }

  /** Where an entry goes: under `children` for a scalar inside a sequence, at the end of
      the node otherwise. */
  function AddEntry(inSequence: bool, meta: Table, name: string, value: Value, entry: Table): (r: Table)
    requires ChildrenOk(meta) || !inSequence || !value.Scalar()
    ensures ChildrenOk(meta) && name != "children" ==> ChildrenOk(r)
  {
    if inSequence && value.Scalar() then
      AddToChildrenAt(meta, name, entry, "");
      AddToChildren(meta, name, entry).value
    else
      AtAppend(meta, [Member(name, Object(entry))], "children");
      meta + [Member(name, Object(entry))]
  }

  lemma AddToChildrenAt(meta: Table, name: string, entry: Table, other: string)
    requires ChildrenOk(meta)
    ensures AddToChildren(meta, name, entry).Some?
    ensures var r := AddToChildren(meta, name, entry).value;
      && At(r, "children") == Some(Object(
        (if At(meta, "children").Some? then At(meta, "children").value.members else []) + [Member(name, Object(entry))]))
      && (other != "children" ==> At(r, other) == At(meta, other))
  {
    AtAppend(meta, [Member("children", Object([]))], "children");
    AtAppend(meta, [Member("children", Object([]))], other);
    var meta' := if At(meta, "children").None? then meta + [Member("children", Object([]))] else meta;
    var children := At(meta', "children").value.members;
    AtPut(meta', "children", Object(children + [Member(name, Object(entry))]), other);
  }

  lemma TreeRowFields(typeName: string, name: string, comment: string, rows: seq<Value>)
    ensures var row := TreeRow(typeName, name, comment, rows);
      && Count(row, "type") == 1 && RowType(row) == Some(typeName)
      && StringAt(row, "name") == Some(name) && StringAt(row, "comment") == Some(comment)
      && ArrayAt(row, "children") == Some(rows)
      && At(row, "value") == None && At(row, "annotation") == None
  {
    hide At, Count;
    var row := TreeRow(typeName, name, comment, rows);
    assert "type"[0] != "name"[0];
    LookupFour(row, "type");
    LookupFour(row, "name");
    LookupFour(row, "comment");
    LookupFour(row, "children");
    LookupFour(row, "value");
    LookupFour(row, "annotation");
  }

  lemma ScalarRowFields(typeName: string, name: string, comment: string, value: Value, annotation: string)
    ensures var row := ScalarRow(typeName, name, comment, value, annotation);
      && Count(row, "type") == 1
      && RowType(row) == Some(if typeName == "table" then "string" else typeName)
      && StringAt(row, "name") == Some(name) && StringAt(row, "comment") == Some(comment)
      && At(row, "value") == Some(value) && StringAt(row, "annotation") == Some(annotation)
      && ArrayAt(row, "children") == None
  {
    hide At, Count;
    var row := ScalarRow(typeName, name, comment, value, annotation);
    assert "type"[0] != "name"[0];
    LookupFive(row, "type");
    LookupFive(row, "name");
    LookupFive(row, "comment");
    LookupFive(row, "value");
    LookupFive(row, "annotation");
    LookupFive(row, "children");
  }

  lemma LookupFive(t: Table, key: string)
    requires |t| == 5
    ensures At(t, key) == if t[0].key == key then Some(t[0].value) else
      if t[1].key == key then Some(t[1].value) else if t[2].key == key then Some(t[2].value)
      else if t[3].key == key then Some(t[3].value) else if t[4].key == key then Some(t[4].value) else None
    ensures Count(t, key) == (if t[0].key == key then 1 else 0) + (if t[1].key == key then 1 else 0)
      + (if t[2].key == key then 1 else 0) + (if t[3].key == key then 1 else 0) + (if t[4].key == key then 1 else 0)
  {
    LookupFour(t[1..], key);
  }

  function TakenTree(typeName: string, name: string, comment: string, rows: seq<Value>, b: Built): Option<Built> {
    if SequenceType(typeName) then
      var inner :- TakeRows(rows, Built(Array([]), SequenceMeta(comment, "")));
      var data :- Push(b.data, name, inner.data);
      Some(Built(data, b.meta + [Member(name, Object(inner.meta))]))
    else if TableType(typeName) then
      var inner :- TakeRows(rows, Built(Object([]), []));
      var data :- Push(b.data, name, inner.data);
      Some(Built(data, b.meta + [Member(name, Object(TableMeta(comment, inner.meta)))]))
    else None
  }

  function TakenScalar(typeName: string, name: string, comment: string, value: Value, annotation: string, b: Built): Option<Built> {
    if SequenceType(typeName) || typeName == "object" then None
    else
      var entry := ScalarMeta(if typeName == "table" then "string" else typeName, comment, Annotate(annotation));
      var data :- Push(b.data, name, value);
      if b.data.Array? then
        var meta :- AddToChildren(b.meta, name, entry);
        Some(Built(data, meta))
      else
        Some(Built(data, b.meta + [Member(name, Object(entry))]))
  }

  /** The types given to members without metadata are those of their kind. */
  lemma DefaultTypes()
    ensures !SequenceType("string") && "string" != "object" && "string" != "table"
    ensures TableType("table") && !SequenceType("table") && !SequenceType("object")
    ensures SequenceType("sequence") && !TableType("sequence") && !TableType("array")
  {
    assert "string"[0] != "object"[0] && "table"[0] != "array"[0];
  }

  /** How the rows that `db2gui` writes are read: by their type alone. */
  lemma TakeTreeRow(typeName: string, name: string, comment: string, rows: seq<Value>, b: Built)
    ensures TakeRow(Object(TreeRow(typeName, name, comment, rows)), b) == TakenTree(typeName, name, comment, rows, b)
  {
    hide TakeRows, AddToChildren, TreeRow, RowType, At, Count, Annotate;
    TreeRowFields(typeName, name, comment, rows);
  }

  lemma TakeScalarRow(typeName: string, name: string, comment: string, value: Value, annotation: string, b: Built)
    ensures TakeRow(Object(ScalarRow(typeName, name, comment, value, annotation)), b)
         == TakenScalar(typeName, name, comment, value, annotation, b)
  {
    hide TakeRows, AddToChildren, ScalarRow, RowType, At, Count, Annotate;
    ScalarRowFields(typeName, name, comment, value, annotation);
  }

  function Added(b: Built, name: string, value: Value, entry: Table): Built
    requires b.data.Object? || (b.data.Array? && ChildrenOk(b.meta))
  {
    Built(Push(b.data, name, value).value, AddEntry(b.data.Array?, b.meta, name, value, entry))
  }

  /** Forward: the row of a coherent member, taken back, adds that member and its normal
      metadata and nothing else. */
  lemma {:induction false} RowForward(name: string, value: Value, meta: Meta, b: Built)
    requires Coherent(value, meta)
    requires b.data.Object? || (b.data.Array? && ChildrenOk(b.meta))
    ensures RowOf(name, value, meta).Some?
    ensures TakeRow(RowOf(name, value, meta).value, b) == Some(Added(b, name, value, NormalOf(value, meta)))
    decreases value, 1
  {
    hide TakeRow, TakeRows, AddToChildren, StringAt, Annotate, At;
    DefaultTypes();
    var comment := Comment(meta).value;
    match value
    case Object(members) =>
      MembersForward(members, meta);
      TakeTreeRow(TypeName(meta, "table").value, name, comment, MemberRows(members, meta).value, b);
    case Array(items) =>
      ItemsForward(items, meta);
      TakeTreeRow(TypeName(meta, "sequence").value, name, comment, ItemRows(items, meta).value, b);
    case _ =>
      if b.data.Array? {
        AddToChildrenAt(b.meta, name, NormalOf(value, meta), "");
      }
      TakeScalarRow(TypeName(meta, "string").value, name, comment, value, Annotation(meta).value, b);
  }

  lemma {:induction false} MembersForward(members: Table, meta: Meta)
    requires CoherentMembers(members, meta)
    ensures MemberRows(members, meta).Some?
    ensures TakeRows(MemberRows(members, meta).value, Built(Object([]), []))
         == Some(Built(Object(members), NormalMembers(members, meta)))
    decreases members, 0
  {
    hide RowOf, TakeRow, ChildOf, Coherent, NormalOf, AddToChildren;
    if members != [] {
      var n := |members| - 1;
      MembersForward(members[..n], meta);
      RowForward(members[n].key, members[n].value, ChildOf(meta, members[n].key).value,
                 Built(Object(members[..n]), NormalMembers(members[..n], meta)));
      var rows := MemberRows(members, meta).value;
      assert rows[..n] == MemberRows(members[..n], meta).value;
      assert members[..n] + [Member(members[n].key, members[n].value)] == members;
    }
  }

  lemma {:induction false} ItemsForward(items: seq<Value>, meta: Meta)
    requires Comment(meta).Some? && CoherentItems(items, meta)
    ensures ItemRows(items, meta).Some?
    ensures TakeRows(ItemRows(items, meta).value, Built(Array([]), SequenceMeta(Comment(meta).value, "")))
         == Some(Built(Array(items), NormalItems(items, meta)))
    decreases items, 0
  {
    hide RowOf, TakeRow, Child, Coherent, NormalOf, AddToChildren;
    if items != [] {
      var n := |items| - 1;
      ItemsForward(items[..n], meta);
      RowForward(Text.Decimal(n), items[n], ItemMeta(meta, n),
                 Built(Array(items[..n]), NormalItems(items[..n], meta)));
      var rows := ItemRows(items, meta).value;
      assert rows[..n] == ItemRows(items[..n], meta).value;
      assert items[..n] + [items[n]] == items;
    }
  }

  /** Every row that is taken adds exactly one element. */
  lemma TakeRowAddsOne(row: Value, b: Built)
    requires TakeRow(row, b).Some?
    ensures var data := TakeRow(row, b).value.data;
      || (b.data.Object? && data.Object? && |data.members| == |b.data.members| + 1 && b.data.members <= data.members)
      || (b.data.Array? && data.Array? && |data.items| == |b.data.items| + 1 && b.data.items <= data.items)
  {
    hide TakeRows, AddToChildren, RowType, StringAt, ArrayAt, At, Count, Annotate;
  }

  lemma {:induction false} TakeRowsKeepsKind(rows: seq<Value>, b: Built)
    requires TakeRows(rows, b).Some?
    ensures var data := TakeRows(rows, b).value.data;
      data.Object? == b.data.Object? && data.Array? == b.data.Array?
  {
    hide TakeRow;
    if rows != [] {
      var n := |rows| - 1;
      TakeRowsKeepsKind(rows[..n], b);
      TakeRowAddsOne(rows[n], TakeRows(rows[..n], b).value);
    }
  }

  lemma TreeKind(typeName: string, name: string, comment: string, rows: seq<Value>, b: Built, value: Value)
    requires b.data.Object? || b.data.Array?
    requires TakenTree(typeName, name, comment, rows, b).Some?
    requires Some(TakenTree(typeName, name, comment, rows, b).value.data) == Push(b.data, name, value)
    ensures value.Array? ==>
      && SequenceType(typeName)
      && TakeRows(rows, Built(Array([]), SequenceMeta(comment, ""))).Some?
      && TakeRows(rows, Built(Array([]), SequenceMeta(comment, ""))).value.data == value
    ensures value.Object? ==>
      && TableType(typeName)
      && TakeRows(rows, Built(Object([]), [])).Some?
      && TakeRows(rows, Built(Object([]), [])).value.data == value
  {
    hide TakeRows;
    LastPushed(b.data, name, value);
    if SequenceType(typeName) {
      TakeRowsKeepsKind(rows, Built(Array([]), SequenceMeta(comment, "")));
    } else {
      TakeRowsKeepsKind(rows, Built(Object([]), []));
    }
  }

  /** Backward: a row that comes back as the member it was made from shows that the
      metadata was coherent there. */
  lemma {:induction false} RowBackward(name: string, value: Value, meta: Meta, b: Built)
    requires b.data.Object? || b.data.Array?
    requires RowOf(name, value, meta).Some?
    requires TakeRow(RowOf(name, value, meta).value, b).Some?
    requires Some(TakeRow(RowOf(name, value, meta).value, b).value.data) == Push(b.data, name, value)
    ensures Coherent(value, meta)
    decreases value, 1
  {
    hide TakeRow, TakeRows, AddToChildren, StringAt, Annotate, At;
    DefaultTypes();
    var comment := Comment(meta).value;
    match value
    case Object(members) =>
      var rows := MemberRows(members, meta).value;
      TakeTreeRow(TypeName(meta, "table").value, name, comment, rows, b);
      TreeKind(TypeName(meta, "table").value, name, comment, rows, b, value);
      MembersBackward(members, meta);
    case Array(items) =>
      var rows := ItemRows(items, meta).value;
      TakeTreeRow(TypeName(meta, "sequence").value, name, comment, rows, b);
      TreeKind(TypeName(meta, "sequence").value, name, comment, rows, b, value);
      ItemsBackward(items, meta, SequenceMeta(comment, ""));
    case _ =>
      TakeScalarRow(TypeName(meta, "string").value, name, comment, value, Annotation(meta).value, b);
  }

  lemma LastPushed(data: Value, name: string, value: Value)
    requires data.Object? || data.Array?
    ensures forall other :: Push(data, name, value) == Push(data, name, other) ==> value == other
  {
    forall other | Push(data, name, value) == Push(data, name, other)
      ensures value == other
    {
      match data
      case Object(members) =>
        assert (members + [Member(name, value)])[|members|] == (members + [Member(name, other)])[|members|];
      case Array(items) =>
        assert (items + [value])[|items|] == (items + [other])[|items|];
      case _ =>
    }
  }

  lemma {:induction false} MembersBackward(members: Table, meta: Meta)
    requires MemberRows(members, meta).Some?
    requires TakeRows(MemberRows(members, meta).value, Built(Object([]), [])).Some?
    requires TakeRows(MemberRows(members, meta).value, Built(Object([]), [])).value.data == Object(members)
    ensures CoherentMembers(members, meta)
    decreases members, 0
  {
    hide TakeRow, RowOf, ChildOf;
    if members != [] {
      var n := |members| - 1;
      var rows := MemberRows(members, meta).value;
      assert rows[..n] == MemberRows(members[..n], meta).value;
      var before := TakeRows(rows[..n], Built(Object([]), [])).value;
      TakeRowAddsOne(rows[n], before);
      assert before.data == Object(members[..n]);
      MembersBackward(members[..n], meta);
      assert members[..n] + [Member(members[n].key, members[n].value)] == members;
      RowBackward(members[n].key, members[n].value, ChildOf(meta, members[n].key).value, before);
    }
  }

  lemma {:induction false} ItemsBackward(items: seq<Value>, meta: Meta, start: Table)
    requires ItemRows(items, meta).Some?
    requires TakeRows(ItemRows(items, meta).value, Built(Array([]), start)).Some?
    requires TakeRows(ItemRows(items, meta).value, Built(Array([]), start)).value.data == Array(items)
    ensures CoherentItems(items, meta)
    decreases items, 0
  {
    hide TakeRow, RowOf, ChildOf;
    if items != [] {
      var n := |items| - 1;
      var rows := ItemRows(items, meta).value;
      assert rows[..n] == ItemRows(items[..n], meta).value;
      var before := TakeRows(rows[..n], Built(Array([]), start)).value;
      TakeRowAddsOne(rows[n], before);
      assert before.data == Array(items[..n]);
      ItemsBackward(items[..n], meta, start);
      assert items[..n] + [items[n]] == items;
      RowBackward(Text.Decimal(n), items[n], ItemMeta(meta, n), before);
    }
  }

  /** The round trip of a document: keys, order, duplicates, nesting and scalar kinds come
      back exactly if and only if the metadata is coherent with the data, and then the
      metadata that comes back is the normal form. */
  lemma DataRoundTrip(data: Table, meta: Table)
    ensures CoherentMembers(data, Some(meta)) <==>
      var rows := DbToGui(data, meta);
      rows.Some? && GuiToDb(rows.value).Some? && GuiToDb(rows.value).value.data == Object(data)
    ensures CoherentMembers(data, Some(meta)) ==>
      GuiToDb(DbToGui(data, meta).value) == Some(Built(Object(data), NormalMembers(data, Some(meta))))
  {
    if CoherentMembers(data, Some(meta)) {
      MembersForward(data, Some(meta));
    }
    var rows := DbToGui(data, meta);
    if rows.Some? && GuiToDb(rows.value).Some? && GuiToDb(rows.value).value.data == Object(data) {
      MembersBackward(data, Some(meta));
    }
  }
}
