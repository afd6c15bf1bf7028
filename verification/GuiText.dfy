/** The two conversions of a document on texts: reader, visitors and writer together. */
module GuiText {
  import opened Json
  import opened Text
  import opened GuiView
  import opened GuiRoundTrip
  import opened GuiConvert
  import opened JsonGrammar
  import opened JsonGrammarRoundTrip

  /** Strings of complete escapes, 64-bit integers and no decimals, at every depth. */
  predicate Clean(v: Value) {
    CompleteValue(v) && NoDecimals(v)
  }

  predicate CleanTable(t: Table) {
    Clean(Object(t))
  }

  predicate CleanMeta(meta: Meta) {
    meta.Some? ==> CleanTable(meta.value)
  }

  /** What the GUI form of the document is, so that it can be printed here. */
  predicate Showable(text: string) {
    var ast := Read(text);
    ast.Some? && DocumentToGui(ast.value).Some? ==> NoDecimalMembers(DocumentToGui(ast.value).value)
  }

  predicate Savable(text: string) {
    var ast := Read(text);
    ast.Some? && DocumentToDb(ast.value).Some? ==> NoDecimalMembers(DocumentToDb(ast.value).value)
  }

  /** `json_db_to_gui` on documents without decimals. */
  function DbToGuiText(text: string): Option<string>
    requires Showable(text)
  {
    var ast :- Read(text);
    var gui :- DocumentToGui(ast);
    Write(gui)
  }

  /** `json_gui_to_db` on documents without decimals. */
  function GuiToDbText(text: string): Option<string>
    requires Savable(text)
  {
    var ast :- Read(text);
    var db :- DocumentToDb(ast);
    Write(db)
  }

  // Texts.

  lemma {:induction false} PlainComplete(s: string)
    requires '"' !in s && '\\' !in s
    ensures Complete(s)
  {
    if s != [] {
      PlainComplete(s[1..]);
    }
  }

  lemma RowWords()
    ensures Complete("type") && Complete("name") && Complete("comment") && Complete("children") && Complete("value")
    ensures Complete("annotation") && Complete("table") && Complete("sequence") && Complete("string") && Complete(" ")
    ensures Complete("")
  {
    hide Complete;
    PlainComplete("type");
    PlainComplete("name");
    PlainComplete("comment");
    PlainComplete("children");
    PlainComplete("value");
    PlainComplete("annotation");
    PlainComplete("table");
    PlainComplete("sequence");
    PlainComplete("string");
    PlainComplete(" ");
    PlainComplete("");
  }

  lemma DocumentWords()
    ensures Complete("document") && Complete("data") && Complete("metadata") && Complete("converted")
    ensures Complete("guidata") && Complete("changelog")
  {
    hide Complete;
    PlainComplete("document");
    PlainComplete("data");
    PlainComplete("metadata");
    PlainComplete("converted");
    PlainComplete("guidata");
    PlainComplete("changelog");
  }

  lemma IndexComplete(n: nat)
    ensures Complete(Text.Decimal(n))
  {
    hide Complete;
    var s := Text.Decimal(n);
    assert forall i :: 0 <= i < |s| ==> IsDigit(s[i]);
    PlainComplete(s);
  }

  /** A blank at the end of a text of complete escapes is no part of an escape. */
  lemma {:induction false} LastBlank(s: string)
    requires Complete(s) && s != [] && IsSpace(s[|s| - 1])
    ensures Complete(s[..|s| - 1])
  {
    var n := |s| - 1;
    if StartsWithEscape(s) {
      assert !IsSpace(s[1]) by { EscapeNotSpace(s[1]); }
      LastBlank(s[2..]);
      assert s[..n][2..] == s[2..][..n - 2];
    } else if n > 0 {
      LastBlank(s[1..]);
      assert s[..n][1..] == s[1..][..n - 1];
    }
  }

  lemma EscapeNotSpace(c: char)
    requires IsEscape(c)
    ensures !IsSpace(c)
  {
  }

  lemma {:induction false} TrimEndComplete(s: string)
    requires Complete(s)
    ensures Complete(TrimEnd(s))
    decreases |s|
  {
    hide Complete, IsSpace;
    if s != [] && IsSpace(s[|s| - 1]) {
      LastBlank(s);
      TrimEndComplete(s[..|s| - 1]);
    }
  }

  lemma {:induction false} TrimStartComplete(s: string)
    requires Complete(s)
    ensures Complete(TrimStart(s))
  {
    if s != [] && IsSpace(s[0]) {
      TrimStartComplete(s[1..]);
    }
  }

  /** Annotating keeps complete escapes complete. */
  lemma AnnotateComplete(s: string)
    requires Complete(s)
    ensures Complete(Annotate(s))
  {
    hide TrimStart, TrimEnd;
    TrimStartComplete(s);
    TrimEndComplete(TrimStart(s));
    assert Complete("") && ("#" + Trim(s))[1..] == Trim(s);
  }

  /** Complete escapes are needed: a closed text whose last backslash stands before a blank
      can no longer be delimited once the blank is trimmed. */
  lemma TrimmedBackslash()
    ensures Closed("\\ ") && !Closed(Annotate("\\ "))
  {
    var s := "\\ ";
    assert s[1..] == " " && s[..1] == "\\";
    assert TrimStart(s) == s && TrimEnd(s[..1]) == s[..1];
    assert Trim(s) == "\\";
    assert ("#" + "\\")[1..] == "\\";
  }

  // Tables.

  lemma CleanMembers(t: Table)
    ensures CleanTable(t) <==> forall i :: 0 <= i < |t| ==> Complete(t[i].key) && Clean(t[i].value)
  {
    hide Complete;
  }

  lemma CleanItems(items: seq<Value>)
    ensures Clean(Array(items)) <==> forall i :: 0 <= i < |items| ==> Clean(items[i])
  {
    hide Complete;
  }

  lemma CleanAppend(t: Table, u: Table)
    requires CleanTable(t) && CleanTable(u)
    ensures CleanTable(t + u)
  {
    hide Clean, Complete;
    CleanMembers(t);
    CleanMembers(u);
    CleanMembers(t + u);
  }

  lemma CleanOne(key: string, v: Value)
    requires Complete(key) && Clean(v)
    ensures CleanTable([Member(key, v)])
  {
    hide Clean, Complete;
    CleanMembers([Member(key, v)]);
  }

  lemma CleanAt(t: Table, key: string)
    requires CleanTable(t) && At(t, key).Some?
    ensures Clean(At(t, key).value)
  {
    hide Clean, Complete;
    CleanMembers(t);
    AtFinds(t, key);
  }

  lemma {:induction false} CleanPut(t: Table, key: string, v: Value)
    requires CleanTable(t) && Complete(key) && Clean(v)
    ensures CleanTable(Put(t, key, v))
    decreases |t|
  {
    hide Clean, Complete;
    CleanMembers(t);
    CleanOne(key, v);
    if t != [] {
      CleanMembers(t[1..]);
      if t[0].key == key {
        CleanAppend([Member(key, v)], t[1..]);
      } else {
        CleanMembers([t[0]]);
        CleanPut(t[1..], key, v);
        CleanAppend([t[0]], Put(t[1..], key, v));
      }
    }
  }

  /** What the visitors take from metadata is clean. */
  lemma CleanFields(meta: Meta, name: string)
    requires CleanMeta(meta)
    ensures forall text: string :: Complete(text) && TypeName(meta, text).Some? ==> Complete(TypeName(meta, text).value)
    ensures Comment(meta).Some? ==> Complete(Comment(meta).value)
    ensures Annotation(meta).Some? ==> Complete(Annotation(meta).value)
    ensures ChildOf(meta, name).Some? ==> CleanMeta(ChildOf(meta, name).value)
    ensures name != "" ==> ChildOf(meta, name).Some?
  {
    hide Complete;
    RowWords();
    if meta.Some? {
      CleanString(meta.value, "type");
      CleanString(meta.value, "comment");
      CleanString(meta.value, "annotation");
      CleanChild(meta.value, name);
    }
  }

  lemma CleanString(t: Table, key: string)
    requires CleanTable(t)
    ensures StringAt(t, key).Some? ==> Complete(StringAt(t, key).value)
  {
    hide Complete;
    if At(t, key).Some? {
      CleanAt(t, key);
    }
  }

  lemma CleanChild(t: Table, name: string)
    requires CleanTable(t)
    ensures CleanMeta(Child(t, name))
  {
    hide Complete, Clean, At;
    if At(t, name).Some? {
      CleanAt(t, name);
    }
    if At(t, "children").Some? {
      CleanAt(t, "children");
      match At(t, "children").value
      case Object(children) =>
        if At(children, name).Some? {
          CleanAt(children, name);
        }
      case _ =>
    }
  }

  // The GUI form.

  lemma TreeRowClean(typeName: string, name: string, comment: string, rows: seq<Value>)
    requires Complete(typeName) && Complete(name) && Complete(comment) && Clean(Array(rows))
    ensures Clean(Object(TreeRow(typeName, name, comment, rows)))
  {
    hide Complete;
    RowWords();
    CleanMembers(TreeRow(typeName, name, comment, rows));
  }

  lemma ScalarRowClean(typeName: string, name: string, comment: string, value: Value, annotation: string)
    requires Complete(typeName) && Complete(name) && Complete(comment) && Clean(value) && Complete(annotation)
    ensures Clean(Object(ScalarRow(typeName, name, comment, value, annotation)))
  {
    hide Complete;
    RowWords();
    CleanMembers(ScalarRow(typeName, name, comment, value, annotation));
  }

  lemma {:induction false} RowClean(name: string, value: Value, meta: Meta)
    requires Complete(name) && Clean(value) && CleanMeta(meta) && RowOf(name, value, meta).Some?
    ensures Clean(RowOf(name, value, meta).value)
    decreases value, 1
  {
    hide Complete, Clean, CleanMeta, TypeName, Comment, Annotation, TreeRow, ScalarRow;
    RowWords();
    CleanFields(meta, "");
    var comment := Comment(meta).value;
    match value
    case Object(members) =>
      MemberRowsClean(members, meta);
      TreeRowClean(TypeName(meta, "table").value, name, comment, MemberRows(members, meta).value);
    case Array(items) =>
      ItemRowsClean(items, meta);
      TreeRowClean(TypeName(meta, "sequence").value, name, comment, ItemRows(items, meta).value);
    case _ =>
      ScalarRowClean(TypeName(meta, "string").value, name, comment, value, Annotation(meta).value);
  }

  lemma {:induction false} MemberRowsClean(members: Table, meta: Meta)
    requires CleanTable(members) && CleanMeta(meta) && MemberRows(members, meta).Some?
    ensures Clean(Array(MemberRows(members, meta).value))
    decreases members, 0
  {
    hide Complete, Clean, CleanMeta, ChildOf, RowOf;
    if members == [] {
      CleanItems([]);
    } else {
      var n := |members| - 1;
      CleanMembers(members);
      CleanMembers(members[..n]);
      MemberRowsClean(members[..n], meta);
      CleanFields(meta, members[n].key);
      var child := ChildOf(meta, members[n].key).value;
      RowClean(members[n].key, members[n].value, child);
      ItemAdded(MemberRows(members[..n], meta).value, RowOf(members[n].key, members[n].value, child).value);
    }
  }

  lemma ItemAdded(items: seq<Value>, item: Value)
    requires Clean(Array(items)) && Clean(item)
    ensures Clean(Array(items + [item]))
  {
    hide Clean;
    CleanItems(items);
    CleanItems(items + [item]);
  }

  lemma {:induction false} ItemRowsClean(items: seq<Value>, meta: Meta)
    requires Clean(Array(items)) && CleanMeta(meta) && ItemRows(items, meta).Some?
    ensures Clean(Array(ItemRows(items, meta).value))
    decreases items, 0
  {
    hide Complete, Clean, CleanMeta, ChildOf, RowOf;
    CleanItems(items);
    if items != [] {
      var n := |items| - 1;
      CleanItems(items[..n]);
      ItemRowsClean(items[..n], meta);
      IndexComplete(n);
      CleanFields(meta, Text.Decimal(n));
      var child := ChildOf(meta, Text.Decimal(n)).value;
      RowClean(Text.Decimal(n), items[n], child);
      ItemAdded(ItemRows(items[..n], meta).value, RowOf(Text.Decimal(n), items[n], child).value);
    }
  }

  // The normal metadata.

  lemma ScalarMetaClean(typeName: string, comment: string, annotation: string)
    requires Complete(typeName) && Complete(comment) && Complete(annotation)
    ensures CleanTable(ScalarMeta(typeName, comment, annotation))
  {
    hide Complete;
    RowWords();
    CleanMembers(ScalarMeta(typeName, comment, annotation));
  }

  lemma TableMetaClean(comment: string, children: Table)
    requires Complete(comment) && CleanTable(children)
    ensures CleanTable(TableMeta(comment, children))
  {
    hide Complete;
    RowWords();
    CleanMembers(TableMeta(comment, children));
  }

  lemma {:induction false} NormalClean(value: Value, meta: Meta)
    requires Coherent(value, meta) && Clean(value) && CleanMeta(meta)
    ensures CleanTable(NormalOf(value, meta))
    decreases value, 1
  {
    hide Complete, Clean, CleanMeta, Comment, Annotation, Annotate, CoherentMembers, CoherentItems, NormalMembers, NormalItems;
    RowWords();
    CleanFields(meta, "");
    match value
    case Object(members) =>
      NormalMembersClean(members, meta);
      TableMetaClean(Comment(meta).value, NormalMembers(members, meta));
    case Array(items) => NormalItemsClean(items, meta);
    case _ =>
      AnnotateComplete(Annotation(meta).value);
      ScalarMetaClean(ScalarType(meta), Comment(meta).value, Annotate(Annotation(meta).value));
  }

  lemma {:induction false} NormalMembersClean(members: Table, meta: Meta)
    requires CoherentMembers(members, meta) && CleanTable(members) && CleanMeta(meta)
    ensures CleanTable(NormalMembers(members, meta))
    decreases members, 0
  {
    hide Complete, Clean, CleanMeta, ChildOf, Coherent, NormalOf;
    CleanMembers(members);
    if members == [] {
      CleanMembers([]);
    } else {
      var n := |members| - 1;
      CleanMembers(members[..n]);
      NormalMembersClean(members[..n], meta);
      CleanFields(meta, members[n].key);
      var entry := NormalOf(members[n].value, ChildOf(meta, members[n].key).value);
      NormalClean(members[n].value, ChildOf(meta, members[n].key).value);
      CleanOne(members[n].key, Object(entry));
      CleanAppend(NormalMembers(members[..n], meta), [Member(members[n].key, Object(entry))]);
    }
  }

  lemma {:induction false} NormalItemsClean(items: seq<Value>, meta: Meta)
    requires Comment(meta).Some? && CoherentItems(items, meta) && Clean(Array(items)) && CleanMeta(meta)
    ensures CleanTable(NormalItems(items, meta))
    decreases items, 0
  {
    hide Complete, Clean, CleanMeta, ChildOf, Coherent, NormalOf, AddEntry, Comment;
    CleanItems(items);
    if items == [] {
      RowWords();
      CleanFields(meta, "");
      ScalarMetaClean("sequence", Comment(meta).value, "");
    } else {
      var n := |items| - 1;
      var name := Text.Decimal(n);
      CleanItems(items[..n]);
      NormalItemsClean(items[..n], meta);
      IndexComplete(n);
      CleanFields(meta, name);
      NormalClean(items[n], ItemMeta(meta, n));
      EntryClean(NormalItems(items[..n], meta), name, items[n], NormalOf(items[n], ItemMeta(meta, n)));
    }
  }

  lemma EntryClean(node: Table, name: string, value: Value, entry: Table)
    requires ChildrenOk(node) && CleanTable(node) && Complete(name) && CleanTable(entry)
    ensures CleanTable(AddEntry(true, node, name, value, entry))
  {
    hide Complete, Clean, At, Put;
    RowWords();
    var m := [Member(name, Object(entry))];
    CleanOne(name, Object(entry));
    if value.Scalar() {
      CleanMembers([]);
      CleanOne("children", Object([]));
      var node' := if At(node, "children").None? then node + [Member("children", Object([]))] else node;
      if At(node, "children").None? {
        CleanAppend(node, [Member("children", Object([]))]);
      }
      AddToChildrenAt(node, name, entry, "");
      AtAppend(node, [Member("children", Object([]))], "children");
      LookupOne(Member("children", Object([])), "children");
      CleanAt(node', "children");
      var children := At(node', "children").value.members;
      CleanAppend(children, m);
      CleanPut(node', "children", Object(children + m));
    } else {
      CleanAppend(node, m);
    }
  }

  // Documents.

  lemma GuiClean(ast: Table, document: Table, data: Table, meta: Table)
    requires CleanTable(ast) && ObjectAt(ast, "document") == Some(document)
    requires ObjectAt(document, "data") == Some(data) && ObjectAt(document, "metadata") == Some(meta)
    requires DocumentToGui(ast).Some?
    ensures CleanTable(DocumentToGui(ast).value)
  {
    hide Complete, Clean, At, Put, MemberRows;
    DocumentWords();
    CleanAt(ast, "document");
    CleanAt(document, "data");
    CleanAt(document, "metadata");
    MemberRowsClean(data, Some(meta));
    var rows := DbToGui(data, meta).value;
    var gui := [Member("guidata", Array(rows))];
    CleanOne("guidata", Array(rows));
    CleanString(ast, "changelog");
    var log := StringAt(ast, "changelog");
    if log.Some? {
      CleanAt(ast, "changelog");
      CleanPut(gui, "changelog", Str(log.value));
    }
    var gui' := if log.Some? then Put(gui, "changelog", Str(log.value)) else gui;
    CleanPut(document, "converted", Object(gui'));
    CleanPut(ast, "document", Object(Put(document, "converted", Object(gui'))));
  }

  /** The document that both conversions together leave. */
  function Normalised(ast: Table, document: Table, data: Table, meta: Table): Table
    requires CoherentMembers(data, Some(meta))
  {
    Put(ast, "document", Object(
      Put(Put(document, "metadata", Object(NormalMembers(data, Some(meta)))), "converted", Object([]))))
  }

  lemma NormalisedClean(ast: Table, document: Table, data: Table, meta: Table)
    requires CleanTable(ast) && ObjectAt(ast, "document") == Some(document)
    requires ObjectAt(document, "data") == Some(data) && ObjectAt(document, "metadata") == Some(meta)
    requires CoherentMembers(data, Some(meta))
    ensures CleanTable(Normalised(ast, document, data, meta))
  {
    hide Complete, Clean, At, Put, CoherentMembers, NormalMembers;
    DocumentWords();
    CleanAt(ast, "document");
    CleanAt(document, "data");
    CleanAt(document, "metadata");
    NormalMembersClean(data, Some(meta));
    var normal := Object(NormalMembers(data, Some(meta)));
    CleanPut(document, "metadata", normal);
    CleanMembers([]);
    CleanPut(Put(document, "metadata", normal), "converted", Object([]));
    CleanPut(ast, "document", Object(Put(Put(document, "metadata", normal), "converted", Object([]))));
  }

  lemma NormalisedSome(ast: Table, document: Table, data: Table, meta: Table)
    requires CoherentMembers(data, Some(meta))
    ensures Normalised(ast, document, data, meta) != []
  {
    hide CoherentMembers, NormalMembers;
  }

  /** A clean document survives printing and reading. */
  lemma CleanTrip(t: Table)
    requires CleanTable(t) && t != []
    ensures NoDecimalMembers(t) && Read(Write(t).value) == Some(t)
  {
    hide CompleteValue, PrintObject, ParseObject, Complete;
    assert NoDecimalMembers(t);
    CompleteWriteRead(t, "");
    assert PrintObject(t) + "" == PrintObject(t);
  }

  /** Any text that reads as a clean, coherent document, converted to the GUI form, printed,
      read, converted back and printed: the new text is the printed form of the same document
      with normal metadata and an empty converted part, and reads as that document. */
  lemma TextRoundTrip(text: string, ast: Table, document: Table, data: Table, meta: Table)
    requires Read(text) == Some(ast) && CleanTable(ast)
    requires ObjectAt(ast, "document") == Some(document)
    requires ObjectAt(document, "data") == Some(data) && ObjectAt(document, "metadata") == Some(meta)
    requires CoherentMembers(data, Some(meta))
    ensures Showable(text) && DbToGuiText(text).Some?
    ensures var gui := DbToGuiText(text).value;
      var normal := Normalised(ast, document, data, meta);
      && Savable(gui) && NoDecimalMembers(normal)
      && GuiToDbText(gui) == Write(normal) && GuiToDbText(gui).Some?
      && Read(GuiToDbText(gui).value) == Some(normal)
  {
    hide Clean, At, Put, DocumentToGui, DocumentToDb, CoherentMembers, NormalMembers, NoDecimals, PrintObject, ParseObject, Read;
    DocumentRoundTrip(ast, document, data, meta);
    var gui := DocumentToGui(ast).value;
    GuiClean(ast, document, data, meta);
    GuiSome(ast);
    CleanTrip(gui);
    var normal := Normalised(ast, document, data, meta);
    NormalisedClean(ast, document, data, meta);
    NormalisedSome(ast, document, data, meta);
    CleanTrip(normal);
  }

  lemma GuiSome(ast: Table)
    requires DocumentToGui(ast).Some?
    ensures DocumentToGui(ast).value != []
  {
    hide DbToGui;
  }
}
