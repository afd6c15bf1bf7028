/** The two conversions as they run: recursive visitors that append to an output node, and
    the wrappers that pick the parts of a document to convert. */
module GuiConvert {
  import opened Json
  import opened Text
  import opened GuiView
  import opened GuiRoundTrip

  /** A reference to a JSON value under construction. */
  class JsonNode {
    var value: Value

    constructor (v: Value)
      ensures value == v
    {
      value := v;
    }

    method Assign(key: string, v: Value)
      requires value.Object?
      modifies this
      ensures value == Object(Put(old(value.members), key, v))
    {
      value := Object(Put(value.members, key, v));
    }

    method PushBack(key: string, v: Value)
      requires value.Object?
      modifies this
      ensures value == Object(old(value.members) + [Member(key, v)])
    {
      value := Object(value.members + [Member(key, v)]);
    }

    method Append(v: Value)
      requires value.Array?
      modifies this
      ensures value == Array(old(value.items) + [v])
    {
      value := Array(value.items + [v]);
    }

    method MakeChild(name: string, child: Value)
      requires value.Object? || value.Array?
      modifies this
      ensures Some(value) == Push(old(value), name, child)
    {
      if value.Object? {
        PushBack(name, child);
      } else {
        Append(child);
      }
    }

    /** Fails, like the original, when `children` is there and not an object. */
    method MakeChildOfChildren(name: string, entry: Table) returns (ok: bool)
      requires value.Object?
      modifies this
      ensures ok == AddToChildren(old(value.members), name, entry).Some?
      ensures ok ==> value == Object(AddToChildren(old(value.members), name, entry).value)
      ensures !ok ==> value == old(value)
    {
      if At(value.members, "children").None? {
        AtAppend(value.members, [Member("children", Object([]))], "children");
        PushBack("children", Object([]));
      }
      var children := At(value.members, "children").value;
      if !children.Object? {
        return false;
      }
      Assign("children", Object(children.members + [Member(name, Object(entry))]));
      ok := true;
    }
  }

  function Head(name: string, comment: string): Table {
    [Member("type", Str("unknown")), Member("name", Str(name)), Member("comment", Str(comment))]
  }

  lemma HeadRow(name: string, comment: string)
    ensures Put(Put(Put([], "type", Str("unknown")), "name", Str(name)), "comment", Str(comment)) == Head(name, comment)
  {
    assert "type"[0] != "name"[0];
    PutMissing([], "type", Str("unknown"));
    PutMissing([Member("type", Str("unknown"))], "name", Str(name));
    LookupTwo([Member("type", Str("unknown")), Member("name", Str(name))], "comment");
    PutMissing([Member("type", Str("unknown")), Member("name", Str(name))], "comment", Str(comment));
  }

  lemma ScalarFields(name: string, comment: string, value: Value, annotation: string)
    ensures Put(Put(Head(name, comment), "value", value), "annotation", Str(annotation))
         == ScalarRow("unknown", name, comment, value, annotation)
  {
    var head := Head(name, comment);
    LookupThree(head, "value");
    PutMissing(head, "value", value);
    LookupFour(head + [Member("value", value)], "annotation");
    PutMissing(head + [Member("value", value)], "annotation", Str(annotation));
  }

  /** The last assignment replaces the provisional type. */
  lemma TreeTyped(typeName: string, name: string, comment: string, rows: seq<Value>)
    ensures Head(name, comment) + [Member("children", Array(rows))] == TreeRow("unknown", name, comment, rows)
    ensures Put(TreeRow("unknown", name, comment, rows), "type", Str(typeName)) == TreeRow(typeName, name, comment, rows)
  {
  }

  lemma ScalarTyped(typeName: string, name: string, comment: string, value: Value, annotation: string)
    ensures Put(ScalarRow("unknown", name, comment, value, annotation), "type", Str(typeName))
         == ScalarRow(typeName, name, comment, value, annotation)
  {
  }

  /** `db2gui` on one member: the row is assembled field by field, with a provisional type
      that the last assignment replaces. */
  method Db2GuiRow(name: string, value: Value, meta: Meta, gui: JsonNode) returns (ok: bool)
    requires gui.value.Array?
    modifies gui
    ensures ok == RowOf(name, value, meta).Some?
    ensures ok ==> gui.value == Array(old(gui.value.items) + [RowOf(name, value, meta).value])
    ensures !ok ==> gui.value == old(gui.value)
    decreases value, 1
  {
    var row := new JsonNode(Object([]));
    row.Assign("type", Str("unknown"));
    row.Assign("name", Str(name));
    var comment := Comment(meta);
    if comment.None? {
      return false;
    }
    row.Assign("comment", Str(comment.value));
    HeadRow(name, comment.value);
    hide Put, At, Head, TreeRow, ScalarRow;
    var typeName;
    ghost var fields: Table;
    if value.Object? || value.Array? {
      var children := new JsonNode(Array([]));
      if value.Object? {
        ok := Db2GuiMembers(value.members, meta, children);
        typeName := TypeName(meta, "table");
      } else {
        ok := Db2GuiItems(value.items, meta, children);
        typeName := TypeName(meta, "sequence");
      }
      if !ok || typeName.None? {
        return false;
      }
      row.PushBack("children", children.value);
      fields := TreeRow("unknown", name, comment.value, children.value.items);
      TreeTyped(typeName.value, name, comment.value, children.value.items);
    } else {
      typeName := TypeName(meta, "string");
      var annotation := Annotation(meta);
      if typeName.None? || annotation.None? {
        return false;
      }
      ScalarFields(name, comment.value, value, annotation.value);
      row.Assign("value", value);
      row.Assign("annotation", Str(annotation.value));
      fields := ScalarRow("unknown", name, comment.value, value, annotation.value);
      ScalarTyped(typeName.value, name, comment.value, value, annotation.value);
    }
    assert row.value.members == fields;
    row.Assign("type", Str(typeName.value));
    gui.Append(row.value);
    ok := true;
  }

  method Db2GuiMembers(members: Table, meta: Meta, gui: JsonNode) returns (ok: bool)
    requires gui.value == Array([])
    modifies gui
    ensures ok == MemberRows(members, meta).Some?
    ensures ok ==> gui.value == Array(MemberRows(members, meta).value)
    decreases members, 0
  {
    for i := 0 to |members|
      invariant MemberRows(members[..i], meta).Some? && gui.value == Array(MemberRows(members[..i], meta).value)
    {
      PrefixRows(members, meta, i + 1);
      assert members[..i + 1][..i] == members[..i];
      var child := ChildOf(meta, members[i].key);
      if child.None? {
        return false;
      }
      ok := Db2GuiRow(members[i].key, members[i].value, child.value, gui);
      if !ok {
        return;
      }
    }
    assert members[..|members|] == members;
    ok := true;
  }

  /** The first row that fails makes the whole list fail. */
  lemma {:induction false} PrefixRows(members: Table, meta: Meta, i: nat)
    requires i <= |members|
    ensures MemberRows(members[..i], meta).None? ==> MemberRows(members, meta).None?
  {
    if i < |members| {
      var n := |members| - 1;
      PrefixRows(members[..n], meta, i);
      assert members[..n][..i] == members[..i];
    } else {
      assert members[..i] == members;
    }
  }

  method Db2GuiItems(items: seq<Value>, meta: Meta, gui: JsonNode) returns (ok: bool)
    requires gui.value == Array([])
    modifies gui
    ensures ok == ItemRows(items, meta).Some?
    ensures ok ==> gui.value == Array(ItemRows(items, meta).value)
    decreases items, 0
  {
    for i := 0 to |items|
      invariant ItemRows(items[..i], meta).Some? && gui.value == Array(ItemRows(items[..i], meta).value)
    {
      PrefixItemRows(items, meta, i + 1);
      assert items[..i + 1][..i] == items[..i];
      var name := Text.Decimal(i);
      var child := ChildOf(meta, name);
      if child.None? {
        return false;
      }
      ok := Db2GuiRow(name, items[i], child.value, gui);
      if !ok {
        return;
      }
    }
    assert items[..|items|] == items;
    ok := true;
  }

  lemma {:induction false} PrefixItemRows(items: seq<Value>, meta: Meta, i: nat)
    requires i <= |items|
    ensures ItemRows(items[..i], meta).None? ==> ItemRows(items, meta).None?
  {
    if i < |items| {
      var n := |items| - 1;
      PrefixItemRows(items[..n], meta, i);
      assert items[..n][..i] == items[..i];
    } else {
      assert items[..i] == items;
    }
  }

  /** `gui2db`: the rows are taken one by one into a data node and a metadata node. */
  method Gui2Db(rows: seq<Value>, data: JsonNode, meta: JsonNode) returns (ok: bool)
    requires data != meta && (data.value.Object? || data.value.Array?) && meta.value.Object?
    modifies data, meta
    ensures ok == TakeRows(rows, Built(old(data.value), old(meta.value.members))).Some?
    ensures ok ==> meta.value.Object? && TakeRows(rows, Built(old(data.value), old(meta.value.members))) == Some(Built(data.value, meta.value.members))
    decreases rows, 0
  {
    ghost var start := Built(data.value, meta.value.members);
    for i := 0 to |rows|
      invariant (data.value.Object? || data.value.Array?) && meta.value.Object?
      invariant TakeRows(rows[..i], start) == Some(Built(data.value, meta.value.members))
    {
      PrefixTaken(rows, start, i + 1);
      assert rows[..i + 1][..i] == rows[..i];
      ghost var before := Built(data.value, meta.value.members);
      ok := Gui2DbRow(rows[i], data, meta);
      if !ok {
        return;
      }
      TakeRowAddsOne(rows[i], before);
    }
    assert rows[..|rows|] == rows;
    ok := true;
  }

  lemma {:induction false} PrefixTaken(rows: seq<Value>, b: Built, i: nat)
    requires i <= |rows|
    ensures TakeRows(rows[..i], b).None? ==> TakeRows(rows, b).None?
  {
    hide TakeRow;
    if i < |rows| {
      var n := |rows| - 1;
      PrefixTaken(rows[..n], b, i);
      assert rows[..n][..i] == rows[..i];
    } else {
      assert rows[..i] == rows;
    }
  }

  method Gui2DbRow(row: Value, data: JsonNode, meta: JsonNode) returns (ok: bool)
    requires data != meta && (data.value.Object? || data.value.Array?) && meta.value.Object?
    modifies data, meta
    ensures ok == TakeRow(row, Built(old(data.value), old(meta.value.members))).Some?
    ensures ok ==> meta.value.Object? && TakeRow(row, Built(old(data.value), old(meta.value.members))) == Some(Built(data.value, meta.value.members))
    decreases row, 1
  {
    hide TakeRows, AddToChildren, At, Count, Annotate, RowType, StringAt;
    if !row.Object? || Count(row.members, "type") == 0 {
      if !data.value.Array? {
        return false;
      }
      data.Append(row);
      return true;
    }
    var child := row.members;
    var typeName := RowType(child);
    var name := StringAt(child, "name");
    var comment := StringAt(child, "comment");
    if typeName.None? || name.None? || comment.None? {
      return false;
    }
    if SequenceType(typeName.value) || TableType(typeName.value) {
      var rows := ArrayAt(child, "children");
      if rows.None? {
        return false;
      }
      ok := Gui2DbTree(typeName.value, name.value, comment.value, StringAt(child, "annotation"), rows.value, data, meta);
    } else {
      var value := At(child, "value");
      var annotation := StringAt(child, "annotation");
      if value.None? || annotation.None? {
        return false;
      }
      var entry := ScalarMeta(typeName.value, comment.value, Annotate(annotation.value));
      if data.value.Array? {
        ok := meta.MakeChildOfChildren(name.value, entry);
        if !ok {
          return;
        }
      } else {
        meta.MakeChild(name.value, Object(entry));
      }
      data.MakeChild(name.value, value.value);
      ok := true;
    }
  }

  /** A row with children: its own nodes are filled first and then hung under the given ones. */
  method Gui2DbTree(typeName: string, name: string, comment: string, annotation: Option<string>, rows: seq<Value>,
                    data: JsonNode, meta: JsonNode) returns (ok: bool)
    requires data != meta && (data.value.Object? || data.value.Array?) && meta.value.Object?
    requires SequenceType(typeName) || TableType(typeName)
    modifies data, meta
    ensures
      var annotated := match annotation case Some(a) => Annotate(a) case None => "";
      var inner := if SequenceType(typeName) then TakeRows(rows, Built(Array([]), SequenceMeta(comment, annotated)))
                   else TakeRows(rows, Built(Object([]), []));
      && ok == inner.Some?
      && (ok ==>
            var entry := if SequenceType(typeName) then inner.value.meta else TableMeta(comment, inner.value.meta);
            && Some(data.value) == Push(old(data.value), name, inner.value.data)
            && meta.value == Object(old(meta.value.members) + [Member(name, Object(entry))]))
    decreases rows, 1
  {
    hide TakeRows, Annotate, At;
    var childData, childMeta;
    if SequenceType(typeName) {
      var annotated := match annotation case Some(a) => Annotate(a) case None => "";
      childData := new JsonNode(Array([]));
      childMeta := new JsonNode(Object(SequenceMeta(comment, annotated)));
      ok := Gui2Db(rows, childData, childMeta);
    } else {
      childData := new JsonNode(Object([]));
      childMeta := new JsonNode(Object([]));
      ok := Gui2Db(rows, childData, childMeta);
      if ok {
        childMeta.value := Object(TableMeta(comment, childMeta.value.members));
      }
    }
    if ok {
      data.MakeChild(name, childData.value);
      meta.MakeChild(name, childMeta.value);
    }
  }

  /** `json_db_to_gui` between the reader and the writer: the document's data and metadata
      become `document.converted`, with the changelog beside the rows when it is a text. */
  function DocumentToGui(ast: Table): Option<Table> {
    var document :- ObjectAt(ast, "document");
    var data :- ObjectAt(document, "data");
    var meta :- ObjectAt(document, "metadata");
    var rows :- DbToGui(data, meta);
    var gui := [Member("guidata", Array(rows))];
    var gui' := if StringAt(ast, "changelog").Some? then Put(gui, "changelog", Str(StringAt(ast, "changelog").value)) else gui;
    Some(Put(ast, "document", Object(Put(document, "converted", Object(gui')))))
  }

  /** `json_gui_to_db` between the reader and the writer. */
  function DocumentToDb(ast: Table): Option<Table> {
    var document :- ObjectAt(ast, "document");
    var converted :- ObjectAt(document, "converted");
    var rows :- ArrayAt(converted, "guidata");
    var built :- GuiToDb(rows);
    var ast' := if StringAt(converted, "changelog").Some? then Put(ast, "changelog", Str(StringAt(converted, "changelog").value)) else ast;
    var oldData :- ObjectAt(document, "data");
    var oldMeta :- ObjectAt(document, "metadata");
    var document' := Put(Put(Put(document, "data", built.data), "metadata", Object(built.meta)), "converted", Object([]));
    Some(Put(ast', "document", Object(document')))
  }

  /** A whole document that goes to the GUI and comes back: everything outside
      `document.metadata` and `document.converted` is as it was, the metadata is in normal
      form and the converted part is empty. */
  lemma DocumentRoundTrip(ast: Table, document: Table, data: Table, meta: Table)
    requires ObjectAt(ast, "document") == Some(document)
    requires ObjectAt(document, "data") == Some(data) && ObjectAt(document, "metadata") == Some(meta)
    requires CoherentMembers(data, Some(meta))
    ensures DocumentToGui(ast).Some?
    ensures DocumentToDb(DocumentToGui(ast).value) == Some(Put(ast, "document", Object(
      Put(Put(document, "metadata", Object(NormalMembers(data, Some(meta)))), "converted", Object([])))))
  {
    hide NormalMembers, CoherentMembers, At, Put, Count, Coherent;
    DataRoundTrip(data, meta);
    var rows := DbToGui(data, meta).value;
    var gui := [Member("guidata", Array(rows))];
    var converted := if StringAt(ast, "changelog").Some? then Put(gui, "changelog", Str(StringAt(ast, "changelog").value)) else gui;
    var empty := Object([]);
    var normal := Object(NormalMembers(data, Some(meta)));
    assert "document"[0] != "changelog"[0] && "document"[0] != "guidata"[0] && "guidata"[0] != "changelog"[0];
    assert "data"[0] != "metadata"[0] && "data"[0] != "converted"[0] && "metadata"[0] != "converted"[0];

    var shown := Put(document, "converted", Object(converted));
    AtPut(document, "converted", Object(converted), "data");
    AtPut(document, "converted", Object(converted), "metadata");
    var ast1 := Put(ast, "document", Object(shown));
    AtPut(ast, "document", Object(shown), "changelog");
    LookupOne(gui[0], "guidata");
    LookupOne(gui[0], "changelog");
    if StringAt(ast, "changelog").Some? {
      AtPut(gui, "changelog", Str(StringAt(ast, "changelog").value), "guidata");
      PutSame(ast1, "changelog");
    }
    PutSame(shown, "data");
    PutCommutes(document, "converted", Object(converted), "metadata", normal);
    PutTwice(Put(document, "metadata", normal), "converted", Object(converted), empty);
    PutTwice(ast, "document", Object(shown), Object(Put(Put(document, "metadata", normal), "converted", empty)));
  }
}
