/** What the conversions put where, field by field. */
module GuiFields {
  import opened Json
  import opened Text
  import opened GuiView
  import opened GuiRoundTrip
  import opened GuiConvert

  /** The metadata of a name: an object under the name itself, or else an object under
      `children` and there under the name, and nothing else. */
  lemma ChildPlaces(meta: Table, name: string, entry: Table)
    ensures var own, inner := At(meta, name), At(meta, "children");
      Child(meta, name) == Some(entry) <==>
      || own == Some(Object(entry))
      || ((own.None? || !own.value.Object?) && inner.Some? && inner.value.Object? && At(inner.value.members, name) == Some(Object(entry)))
  {
  }

  /** Without metadata there is none for any name; with it, the empty name is refused. */
  lemma ChildAsked(meta: Table, name: string)
    ensures ChildOf(None, name) == Some(None)
    ensures ChildOf(Some(meta), name) == if name == "" then None else Some(Child(meta, name))
  {
  }

  /** A text's row without metadata. */
  lemma BareTextRow(name: string, value: Value)
    requires value.Scalar()
    ensures RowOf(name, value, None) == Some(Object([
      Member("type", Str("string")), Member("name", Str(name)), Member("comment", Str(" ")),
      Member("value", value), Member("annotation", Str(""))]))
  {
  }

  /** A text's row with metadata: type and comment are required, the annotation is not. */
  lemma TextRow(name: string, value: Value, meta: Table, typeName: string, comment: string, annotation: string)
    requires value.Scalar()
    requires At(meta, "type") == Some(Str(typeName)) && At(meta, "comment") == Some(Str(comment))
    requires At(meta, "annotation") == (if annotation == "" then None else Some(Str(annotation)))
      || At(meta, "annotation") == Some(Str(annotation))
    ensures RowOf(name, value, Some(meta)) == Some(Object([
      Member("type", Str(typeName)), Member("name", Str(name)), Member("comment", Str(comment)),
      Member("value", value), Member("annotation", Str(annotation))]))
  {
  }

  /** Metadata without a type text or a comment text stops the conversion. */
  lemma RowNeedsFields(name: string, value: Value, meta: Table)
    requires StringAt(meta, "type").None? || StringAt(meta, "comment").None?
    ensures RowOf(name, value, Some(meta)).None?
  {
  }

  /** And so does an annotation of a text that is not a text itself. */
  lemma RowAnnotation(name: string, value: Value, meta: Table)
    requires value.Scalar() && At(meta, "annotation").Some? && !At(meta, "annotation").value.Str?
    ensures RowOf(name, value, Some(meta)).None?
  {
  }

  /** Nothing else stops it: a text with its fields has a row, and a table or a sequence does
      when all of its parts do. */
  lemma RowThere(name: string, value: Value, meta: Meta)
    requires meta.Some? ==> StringAt(meta.value, "type").Some? && StringAt(meta.value, "comment").Some?
    requires value.Scalar() && meta.Some? ==> At(meta.value, "annotation").None? || StringAt(meta.value, "annotation").Some?
    ensures value.Scalar() ==> RowOf(name, value, meta).Some?
    ensures value.Object? ==> (RowOf(name, value, meta).Some? <==> MemberRows(value.members, meta).Some?)
    ensures value.Array? ==> (RowOf(name, value, meta).Some? <==> ItemRows(value.items, meta).Some?)
  {
    hide MemberRows, ItemRows;
  }

  predicate HasRow(name: string, value: Value, meta: Meta) {
    var child := ChildOf(meta, name);
    child.Some? && RowOf(name, value, child.value).Some?
  }

  lemma {:induction false} AllMemberRows(members: Table, meta: Meta)
    ensures MemberRows(members, meta).Some? <==>
      forall i :: 0 <= i < |members| ==> HasRow(members[i].key, members[i].value, meta)
    decreases |members|
  {
    hide RowOf, ChildOf;
    if members != [] {
      var n := |members| - 1;
      AllMemberRows(members[..n], meta);
      assert forall i :: 0 <= i < n ==> members[..n][i] == members[i];
    }
  }

  lemma {:induction false} AllItemRows(items: seq<Value>, meta: Meta)
    ensures ItemRows(items, meta).Some? <==>
      forall i :: 0 <= i < |items| ==> HasRow(Text.Decimal(i), items[i], meta)
    decreases |items|
  {
    hide RowOf, ChildOf, Text.Decimal;
    if items != [] {
      var n := |items| - 1;
      AllItemRows(items[..n], meta);
      assert forall i :: 0 <= i < n ==> (HasRow(Text.Decimal(i), items[..n][i], meta) <==> HasRow(Text.Decimal(i), items[i], meta));
      assert ItemRows(items, meta).Some? <==> ItemRows(items[..n], meta).Some? && HasRow(Text.Decimal(n), items[n], meta);
    }
  }

  /** The row of a table or a sequence lists the rows of its parts, in order. */
  lemma TreeRows(name: string, value: Value, meta: Meta)
    requires !value.Scalar() && RowOf(name, value, meta).Some?
    ensures var rows := if value.Object? then MemberRows(value.members, meta) else ItemRows(value.items, meta);
      var kind := if value.Object? then "table" else "sequence";
      && rows.Some?
      && RowOf(name, value, meta) == Some(Object([
           Member("type", if meta.Some? then At(meta.value, "type").value else Str(kind)), Member("name", Str(name)),
           Member("comment", if meta.Some? then At(meta.value, "comment").value else Str(" ")),
           Member("children", Array(rows.value))]))
  {
    hide MemberRows, ItemRows;
  }

  lemma {:induction false} MemberRowAt(members: Table, meta: Meta, i: nat)
    requires MemberRows(members, meta).Some? && i < |members|
    ensures ChildOf(meta, members[i].key).Some?
    ensures Some(MemberRows(members, meta).value[i]) == RowOf(members[i].key, members[i].value, ChildOf(meta, members[i].key).value)
    decreases |members|
  {
    hide RowOf, ChildOf;
    var n := |members| - 1;
    if i < n {
      MemberRowAt(members[..n], meta, i);
    }
  }

  lemma {:induction false} ItemRowAt(items: seq<Value>, meta: Meta, i: nat)
    requires ItemRows(items, meta).Some? && i < |items|
    ensures ChildOf(meta, Text.Decimal(i)).Some?
    ensures Some(ItemRows(items, meta).value[i]) == RowOf(Text.Decimal(i), items[i], ChildOf(meta, Text.Decimal(i)).value)
    decreases |items|
  {
    hide RowOf, ChildOf;
    var n := |items| - 1;
    if i < n {
      ItemRowAt(items[..n], meta, i);
    }
  }

  /** What the fields of a row with a type, a name and a comment say. */
  predicate RowSays(row: Table, typeName: string, name: string, comment: string) {
    && At(row, "type") == Some(Str(typeName)) && At(row, "name") == Some(Str(name)) && At(row, "comment") == Some(Str(comment))
  }

  /** A row of a text, taken back: the value under the name, and type, comment and the
      annotation in annotated form, in this order. A text that is typed as a table is typed as
      a string. */
  lemma TextTaken(row: Table, typeName: string, name: string, comment: string, value: Value, annotation: string,
                  left: string, core: string, right: string, members: Table, meta: Table)
    requires RowSays(row, typeName, name, comment)
    requires At(row, "value") == Some(value) && At(row, "annotation") == Some(Str(annotation))
    requires typeName !in {"sequence", "array", "object"}
    requires typeName == "table" ==> Count(row, "value") == 1 && Count(row, "children") == 0
    requires Around(annotation, left, core, right)
    ensures var entry := [
        Member("type", Str(if typeName == "table" then "string" else typeName)), Member("comment", Str(comment)),
        Member("annotation", Str(if core == "" then "" else if core[0] == '#' then core else ['#'] + core))];
      TakeRow(Object(row), Built(Object(members), meta)) ==
        Some(Built(Object(members + [Member(name, value)]), meta + [Member(name, Object(entry))]))
  {
    hide Annotate, Count, At;
    AnnotateCore(annotation, left, core, right);
    CountZero(row, "type");
    DefaultTypes();
  }

  /** The same inside a sequence: the value becomes the next element, and its metadata goes to
      the end of `children`. */
  lemma TextTakenInSequence(row: Table, typeName: string, name: string, comment: string, value: Value, annotation: string,
                            left: string, core: string, right: string, items: seq<Value>, meta: Table, children: Table)
    requires RowSays(row, typeName, name, comment)
    requires At(row, "value") == Some(value) && At(row, "annotation") == Some(Str(annotation))
    requires typeName !in {"sequence", "array", "object", "table"}
    requires Around(annotation, left, core, right)
    requires At(meta, "children") == (if children == [] then None else Some(Object(children)))
      || At(meta, "children") == Some(Object(children))
    ensures var entry := [
        Member("type", Str(typeName)), Member("comment", Str(comment)),
        Member("annotation", Str(if core == "" then "" else if core[0] == '#' then core else ['#'] + core))];
      var taken := TakeRow(Object(row), Built(Array(items), meta));
      && taken.Some? && taken.value.data == Array(items + [value])
      && At(taken.value.meta, "children") == Some(Object(children + [Member(name, Object(entry))]))
      && forall key :: key != "children" ==> At(taken.value.meta, key) == At(meta, key)
  {
    hide Annotate, Count, At, AddToChildren;
    AnnotateCore(annotation, left, core, right);
    CountZero(row, "type");
    DefaultTypes();
    var entry := ScalarMeta(typeName, comment, Annotate(annotation));
    assert ChildrenOk(meta);
    AddToChildrenAt(meta, name, entry, "");
    forall key | key != "children"
      ensures At(AddToChildren(meta, name, entry).value, key) == At(meta, key)
    {
      AddToChildrenAt(meta, name, entry, key);
    }
  }

  /** A row of a table or a sequence, taken back: the parts in a new node under the name, with
      metadata of this form. */
  lemma TreeTaken(row: Table, typeName: string, name: string, comment: string, rows: seq<Value>, members: Table, meta: Table)
    requires RowSays(row, typeName, name, comment) && At(row, "children") == Some(Array(rows))
    ensures typeName in {"table", "object"} ==>
      var inner := TakeRows(rows, Built(Object([]), []));
      TakeRow(Object(row), Built(Object(members), meta)) ==
        if inner.None? then None
        else Some(Built(Object(members + [Member(name, inner.value.data)]), meta + [Member(name, Object([
          Member("type", Str("table")), Member("comment", Str(comment)), Member("children", Object(inner.value.meta))]))]))
    ensures typeName in {"sequence", "array"} && StringAt(row, "annotation").None? ==>
      var inner := TakeRows(rows, Built(Array([]), [
        Member("type", Str("sequence")), Member("comment", Str(comment)), Member("annotation", Str(""))]));
      TakeRow(Object(row), Built(Object(members), meta)) ==
        if inner.None? then None
        else Some(Built(Object(members + [Member(name, inner.value.data)]), meta + [Member(name, Object(inner.value.meta))]))
  {
    hide Annotate, Count, At, TakeRows;
    CountZero(row, "type");
    CountZero(row, "children");
    DefaultTypes();
  }

  /** The annotation of a row of a sequence, taken back, is annotated like that of a text. */
  lemma SequenceAnnotated(row: Table, typeName: string, name: string, comment: string, annotation: string, rows: seq<Value>,
                          left: string, core: string, right: string, members: Table, meta: Table)
    requires RowSays(row, typeName, name, comment) && At(row, "children") == Some(Array(rows))
    requires typeName in {"sequence", "array"} && At(row, "annotation") == Some(Str(annotation))
    requires Around(annotation, left, core, right)
    ensures var inner := TakeRows(rows, Built(Array([]), [
        Member("type", Str("sequence")), Member("comment", Str(comment)),
        Member("annotation", Str(if core == "" then "" else if core[0] == '#' then core else ['#'] + core))]));
      TakeRow(Object(row), Built(Object(members), meta)) ==
        if inner.None? then None
        else Some(Built(Object(members + [Member(name, inner.value.data)]), meta + [Member(name, Object(inner.value.meta))]))
  {
    hide Annotate, Count, At, TakeRows;
    AnnotateCore(annotation, left, core, right);
    CountZero(row, "type");
    DefaultTypes();
  }

  /** A table or a sequence inside a sequence becomes its next element; its metadata goes
      beside `children`, not into it. */
  lemma TreeTakenInSequence(row: Table, typeName: string, name: string, comment: string, rows: seq<Value>,
                            items: seq<Value>, members: Table, meta: Table)
    requires RowSays(row, typeName, name, comment) && At(row, "children") == Some(Array(rows))
    requires typeName in {"table", "object", "sequence", "array"}
    ensures var inside, outside := TakeRow(Object(row), Built(Array(items), meta)), TakeRow(Object(row), Built(Object(members), meta));
      && (inside.Some? <==> outside.Some?)
      && (inside.Some? ==>
            exists part: Value ::
              && outside.value.data == Object(members + [Member(name, part)])
              && inside.value == Built(Array(items + [part]), outside.value.meta))
  {
    hide Annotate, Count, At, TakeRows;
    CountZero(row, "type");
    CountZero(row, "children");
    DefaultTypes();
    var outside := TakeRow(Object(row), Built(Object(members), meta));
    if outside.Some? {
      var part := outside.value.data.members[|members|].value;
      assert outside.value.data == Object(members + [Member(name, part)]);
    }
  }

  /** Which rows with a type are taken into a table. */
  lemma RowTaken(row: Table, members: Table, meta: Table)
    requires At(row, "type").Some?
    ensures var taken := TakeRow(Object(row), Built(Object(members), meta));
      var typeName := At(row, "type").value;
      (!typeName.Str? || StringAt(row, "name").None? || StringAt(row, "comment").None? ==> taken.None?)
      && (typeName.Str? && StringAt(row, "name").Some? && StringAt(row, "comment").Some? ==>
            && (typeName.text !in {"sequence", "array", "table", "object"} ==>
                  (taken.Some? <==> At(row, "value").Some? && StringAt(row, "annotation").Some?))
            && (typeName.text in {"sequence", "array", "object"} && ArrayAt(row, "children").None? ==> taken.None?))
  {
    hide Annotate, Count, At, TakeRows;
    CountZero(row, "type");
    DefaultTypes();
  }

  /** A row without a type cannot stand in a table. */
  lemma UntypedRefused(row: Value, members: Table, meta: Table)
    requires row.Object? ==> At(row.members, "type").None?
    ensures TakeRow(row, Built(Object(members), meta)) == None
  {
    hide Count, At;
    if row.Object? {
      CountZero(row.members, "type");
    }
  }

  /** What has no type is an element of a sequence, as it is. */
  lemma UntypedTaken(row: Value, items: seq<Value>, meta: Table)
    requires row.Object? ==> At(row.members, "type").None?
    ensures TakeRow(row, Built(Array(items), meta)) == Some(Built(Array(items + [row]), meta))
  {
    hide Count, At;
    if row.Object? {
      CountZero(row.members, "type");
    }
  }

  // Documents.

  /** Which documents are converted to the GUI form. */
  lemma ShownDocuments(ast: Table)
    ensures DocumentToGui(ast).Some? <==>
      exists document: Table, data: Table, meta: Table ::
        && At(ast, "document") == Some(Object(document))
        && At(document, "data") == Some(Object(data)) && At(document, "metadata") == Some(Object(meta))
        && DbToGui(data, meta).Some?
  {
    hide At, Put, MemberRows;
    TypedLookups(ast, "document");
    if ObjectAt(ast, "document").Some? {
      var document := ObjectAt(ast, "document").value;
      TypedLookups(document, "data");
      TypedLookups(document, "metadata");
    }
  }

  /** And which are converted back. */
  lemma TakenDocuments(ast: Table)
    ensures DocumentToDb(ast).Some? <==>
      exists document: Table, converted: Table, rows: seq<Value> ::
        && At(ast, "document") == Some(Object(document)) && At(document, "converted") == Some(Object(converted))
        && At(converted, "guidata") == Some(Array(rows)) && GuiToDb(rows).Some?
        && ObjectAt(document, "data").Some? && ObjectAt(document, "metadata").Some?
  {
    hide At, Put, TakeRows;
    TypedLookups(ast, "document");
    if ObjectAt(ast, "document").Some? {
      var document := ObjectAt(ast, "document").value;
      TypedLookups(document, "converted");
      if ObjectAt(document, "converted").Some? {
        TypedLookups(ObjectAt(document, "converted").value, "guidata");
      }
    }
  }

  /** To the GUI: the rows and the change log are under `converted`, everything else stays. */
  lemma GuiDocument(ast: Table, key: string)
    requires DocumentToGui(ast).Some?
    ensures var gui := DocumentToGui(ast).value;
      var document, document' := ObjectAt(ast, "document"), ObjectAt(gui, "document");
      && document.Some? && document'.Some? && ObjectAt(document'.value, "converted").Some?
      && ObjectAt(document.value, "data").Some? && ObjectAt(document.value, "metadata").Some?
      && var converted := ObjectAt(document'.value, "converted").value;
         && ArrayAt(converted, "guidata")
              == DbToGui(ObjectAt(document.value, "data").value, ObjectAt(document.value, "metadata").value)
         && StringAt(converted, "changelog") == StringAt(ast, "changelog")
         && (key != "document" ==> At(gui, key) == At(ast, key))
         && (key != "converted" ==> At(document'.value, key) == At(document.value, key))
  {
    hide At, Put, MemberRows;
    assert "guidata"[0] != "changelog"[0];
    var document := ObjectAt(ast, "document").value;
    var rows := DbToGui(ObjectAt(document, "data").value, ObjectAt(document, "metadata").value).value;
    var first := Member("guidata", Array(rows));
    LookupOne(first, "guidata");
    LookupOne(first, "changelog");
    var log := StringAt(ast, "changelog");
    if log.Some? {
      AtPut([first], "changelog", Str(log.value), "changelog");
      AtPut([first], "changelog", Str(log.value), "guidata");
    }
    var converted := if log.Some? then Put([first], "changelog", Str(log.value)) else [first];
    AtPut(document, "converted", Object(converted), "converted");
    AtPut(document, "converted", Object(converted), key);
    var document' := Put(document, "converted", Object(converted));
    AtPut(ast, "document", Object(document'), "document");
    AtPut(ast, "document", Object(document'), key);
  }

  /** From the GUI: data and metadata are rebuilt from the rows, the change log is the one
      that the GUI form holds, `converted` is emptied, everything else stays. */
  lemma DbDocument(ast: Table, key: string)
    requires DocumentToDb(ast).Some?
    ensures var db := DocumentToDb(ast).value;
      var document, document' := ObjectAt(ast, "document"), ObjectAt(db, "document");
      && document.Some? && document'.Some? && ObjectAt(document.value, "converted").Some?
      && var converted := ObjectAt(document.value, "converted").value;
         var rows := ArrayAt(converted, "guidata");
         && rows.Some? && GuiToDb(rows.value).Some?
         && At(document'.value, "data") == Some(GuiToDb(rows.value).value.data)
         && At(document'.value, "metadata") == Some(Object(GuiToDb(rows.value).value.meta))
         && At(document'.value, "converted") == Some(Object([]))
         && (key !in {"data", "metadata", "converted"} ==> At(document'.value, key) == At(document.value, key))
         && At(db, "changelog") ==
              (if StringAt(converted, "changelog").Some? then At(converted, "changelog") else At(ast, "changelog"))
         && (key !in {"document", "changelog"} ==> At(db, key) == At(ast, key))
  {
    hide At, Put, TakeRows;
    assert "data"[0] != "metadata"[0] && "data"[0] != "converted"[0] && "metadata"[0] != "converted"[0];
    assert "document"[0] != "changelog"[0];
    var document := ObjectAt(ast, "document").value;
    var converted := ObjectAt(document, "converted").value;
    var built := GuiToDb(ArrayAt(converted, "guidata").value).value;
    var log := StringAt(converted, "changelog");
    var ast' := if log.Some? then Put(ast, "changelog", Str(log.value)) else ast;
    if log.Some? {
      AtPut(ast, "changelog", Str(log.value), "changelog");
      AtPut(ast, "changelog", Str(log.value), key);
    }
    ThreePuts(document, built.data, Object(built.meta), key);
    var document' := Put(Put(Put(document, "data", built.data), "metadata", Object(built.meta)), "converted", Object([]));
    AtPut(ast', "document", Object(document'), "document");
    AtPut(ast', "document", Object(document'), "changelog");
    AtPut(ast', "document", Object(document'), key);
  }

  lemma ThreePuts(document: Table, data: Value, meta: Value, key: string)
    ensures var document' := Put(Put(Put(document, "data", data), "metadata", meta), "converted", Object([]));
      && At(document', "data") == Some(data) && At(document', "metadata") == Some(meta)
      && At(document', "converted") == Some(Object([]))
      && (key !in {"data", "metadata", "converted"} ==> At(document', key) == At(document, key))
  {
    hide At, Put;
    assert "data"[0] != "metadata"[0] && "data"[0] != "converted"[0] && "metadata"[0] != "converted"[0];
    var one := Put(document, "data", data);
    var two := Put(one, "metadata", meta);
    AtPut(document, "data", data, "data");
    AtPut(document, "data", data, key);
    AtPut(one, "metadata", meta, "data");
    AtPut(one, "metadata", meta, "metadata");
    AtPut(one, "metadata", meta, key);
    AtPut(two, "converted", Object([]), "data");
    AtPut(two, "converted", Object([]), "metadata");
    AtPut(two, "converted", Object([]), "converted");
    AtPut(two, "converted", Object([]), key);
  }

  /** A change log that was edited in the GUI is the document's afterwards. */
  lemma ChangelogEdited(ast: Table, text: string)
    requires DocumentToDb(ast).Some?
    requires StringAt(ObjectAt(ObjectAt(ast, "document").value, "converted").value, "changelog") == Some(text)
    ensures At(DocumentToDb(ast).value, "changelog") == Some(Str(text))
  {
    DbDocument(ast, "");
  }
}
