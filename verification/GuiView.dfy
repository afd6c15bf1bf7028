/** The GUI view of a document and its way back: what the two visitors `db2gui` and
    `gui2db` compute, stated on values. None stands for an exception that leaves the
    conversion. */
module GuiView {
  import opened Json
  import opened Text

  /** A metadata node: Some(table) for an object, None for a node that is not set. */
  type Meta = Option<Table>

  /** `metadata_node_t::child`: the node is looked up under its own name first and under
      `children` second; in both places only an object counts. */
  function Child(meta: Table, name: string): Meta {
    match At(meta, name)
    case Some(Object(child)) => Some(child)
    case _ =>
      match At(meta, "children")
      case Some(Object(children)) =>
        (match At(children, name)
         case Some(Object(child)) => Some(child)
         case _ => None)
      case _ => None
  }

  /** The lookup as the visitors call it: a missing metadata node has no children, and an
      empty name is refused. */
  function ChildOf(meta: Meta, name: string): Option<Meta> {
    if meta.None? then Some(None)
    else if name == "" then None
    else Some(Child(meta.value, name))
  }

  function TypeName(meta: Meta, default: string): Option<string> {
    if meta.None? then Some(default) else StringAt(meta.value, "type")
  }

  function Comment(meta: Meta): Option<string> {
    if meta.None? then Some(" ") else StringAt(meta.value, "comment")
  }

  /** A missing annotation reads as empty; one that is not a string is an error. */
  function Annotation(meta: Meta): Option<string> {
    if meta.None? || At(meta.value, "annotation").None? then Some("")
    else StringAt(meta.value, "annotation")
  }

  /** The row a member becomes, by the kind of its value. */
  function TreeRow(typeName: string, name: string, comment: string, rows: seq<Value>): Table {
    [Member("type", Str(typeName)), Member("name", Str(name)), Member("comment", Str(comment)),
     Member("children", Array(rows))]
  }

  function ScalarRow(typeName: string, name: string, comment: string, value: Value, annotation: string): Table {
    [Member("type", Str(typeName)), Member("name", Str(name)), Member("comment", Str(comment)),
     Member("value", value), Member("annotation", Str(annotation))]
  }

  function RowOf(name: string, value: Value, meta: Meta): Option<Value>
    decreases value, 1
  {
    var comment :- Comment(meta);
    match value
    case Object(members) =>
      var rows :- MemberRows(members, meta);
      var typeName :- TypeName(meta, "table");
      Some(Object(TreeRow(typeName, name, comment, rows)))
    case Array(items) =>
      var rows :- ItemRows(items, meta);
      var typeName :- TypeName(meta, "sequence");
      Some(Object(TreeRow(typeName, name, comment, rows)))
    case _ =>
      var typeName :- TypeName(meta, "string");
      var annotation :- Annotation(meta);
      Some(Object(ScalarRow(typeName, name, comment, value, annotation)))
  }

  function MemberRows(members: Table, meta: Meta): (r: Option<seq<Value>>)
    ensures r.Some? ==> |r.value| == |members|
    decreases members, 0
  {
    if members == [] then Some([])
    else
      var n := |members| - 1;
      var rows :- MemberRows(members[..n], meta);
      var child :- ChildOf(meta, members[n].key);
      var row :- RowOf(members[n].key, members[n].value, child);
      Some(rows + [row])
  }

  /** The elements of a sequence are named by their index. */
  function ItemRows(items: seq<Value>, meta: Meta): (r: Option<seq<Value>>)
    ensures r.Some? ==> |r.value| == |items|
    decreases items, 0
  {
    if items == [] then Some([])
    else
      var n := |items| - 1;
      var rows :- ItemRows(items[..n], meta);
      var child :- ChildOf(meta, Text.Decimal(n));
      var row :- RowOf(Text.Decimal(n), items[n], child);
      Some(rows + [row])
  }

  /** What `gui2db` has built so far: a data node, which is an object or an array, and the
      object that collects the metadata. */
  datatype Built = Built(data: Value, meta: Table)

  /** `makeChild` on a data node: an object gets a named member, an array an element. */
  function Push(data: Value, name: string, value: Value): Option<Value> {
    match data
    case Object(members) => Some(Object(members + [Member(name, value)]))
    case Array(items) => Some(Array(items + [value]))
    case _ => None
  }

  /** `makeChildOfChildren`: the entry goes under `children`, which is created when it is
      missing and must be an object when it is not. */
  function AddToChildren(meta: Table, name: string, entry: Table): Option<Table> {
    var meta' := if At(meta, "children").None? then meta + [Member("children", Object([]))] else meta;
    match At(meta', "children")
    case Some(Object(children)) =>
      Some(Put(meta', "children", Object(children + [Member(name, Object(entry))])))
    case _ => None
  }

  function ScalarMeta(typeName: string, comment: string, annotation: string): Table {
    [Member("type", Str(typeName)), Member("comment", Str(comment)), Member("annotation", Str(annotation))]
  }

  function SequenceMeta(comment: string, annotation: string): Table {
    ScalarMeta("sequence", comment, annotation)
  }

  function TableMeta(comment: string, children: Table): Table {
    [Member("type", Str("table")), Member("comment", Str(comment)), Member("children", Object(children))]
  }

  /** The type a row is read back with: a row typed as a table that holds a value and no
      children is a string. */
  function RowType(row: Table): Option<string> {
    var typeName :- StringAt(row, "type");
    Some(if typeName == "table" && Count(row, "value") == 1 && Count(row, "children") == 0 then "string" else typeName)
  }

  predicate SequenceType(typeName: string) {
    typeName == "sequence" || typeName == "array"
  }

  predicate TableType(typeName: string) {
    typeName == "table" || typeName == "object"
  }

  function PlainRow(row: Value, b: Built): Option<Built> {
    if b.data.Array? then Some(b.(data := Array(b.data.items + [row]))) else None
  }

  function TakeRow(row: Value, b: Built): Option<Built>
    decreases row, 1
  {
    if !row.Object? || Count(row.members, "type") == 0 then PlainRow(row, b)
    else
      var child := row.members;
      var typeName :- RowType(child);
      var name :- StringAt(child, "name");
      var comment :- StringAt(child, "comment");
      if SequenceType(typeName) then
        var rows :- ArrayAt(child, "children");
        var annotation := match StringAt(child, "annotation") case Some(a) => Annotate(a) case None => "";
        var inner :- TakeRows(rows, Built(Array([]), SequenceMeta(comment, annotation)));
        var data :- Push(b.data, name, inner.data);
        Some(Built(data, b.meta + [Member(name, Object(inner.meta))]))
      else if TableType(typeName) then
        var rows :- ArrayAt(child, "children");
        var inner :- TakeRows(rows, Built(Object([]), []));
        var data :- Push(b.data, name, inner.data);
        Some(Built(data, b.meta + [Member(name, Object(TableMeta(comment, inner.meta)))]))
      else
        var value :- At(child, "value");
        var annotation :- StringAt(child, "annotation");
        var entry := ScalarMeta(typeName, comment, Annotate(annotation));
        var data :- Push(b.data, name, value);
        if b.data.Array? then
          var meta :- AddToChildren(b.meta, name, entry);
          Some(Built(data, meta))
        else
          Some(Built(data, b.meta + [Member(name, Object(entry))]))
  }

  function TakeRows(rows: seq<Value>, b: Built): Option<Built>
    decreases rows, 0
  {
    if rows == [] then Some(b)
    else
      var n := |rows| - 1;
      var built :- TakeRows(rows[..n], b);
      TakeRow(rows[n], built)
  }

  /** The two conversions of a document's data and metadata. */
  function DbToGui(data: Table, meta: Table): Option<seq<Value>> {
    MemberRows(data, Some(meta))
  }

  function GuiToDb(rows: seq<Value>): Option<Built> {
    TakeRows(rows, Built(Object([]), []))
  }
}
