/** FHiCL values, their JSON form (a data tree and a parallel metadata tree) and the FHiCL
    syntax tree that is written from it. */
module Fhicl {
  import opened Json
  import opened Text
  import opened Escape

  datatype Protection = Unprotected | ProtectIgnore | ProtectError

  datatype AtomKind = UnknownAtom | Nil | Bool | Number | Complex | TableId | StringAtom

  /** What the FHiCL parser knows of a value besides its contents. */
  datatype Info = Info(protection: Protection, inProlog: bool, line: int)

  datatype FclMember = FclMember(key: string, value: FclValue)

  datatype FclValue =
    | Atom(kind: AtomKind, raw: string, info: Info)
    | Sequence(elements: seq<FclValue>, info: Info)
    | FclTable(members: seq<FclMember>, info: Info)

  datatype Options = Options(readProlog: bool, readMain: bool)

  type Comments = map<int, string>

  const INCLUDE := "fhicl_pound_include"

  function KindName(kind: AtomKind): string {
    match kind
    case UnknownAtom => "unknown"
    case Nil => "nil"
    case Bool => "bool"
    case Number => "number"
    case Complex => "complex"
    case TableId => "tableid"
    case StringAtom => "string"
  }

  function ProtectionName(protection: Protection): string {
    match protection
    case Unprotected => "@none"
    case ProtectIgnore => "@protect_ignore"
    case ProtectError => "@protect_error"
  }

  predicate Contains(s: string, part: string) {
    exists i :: 0 <= i <= |s| && part <= s[i..]
  }

  predicate StartsWith(s: string, part: string) {
    part <= s
  }

  function AnnotationAt(comments: Comments, line: int): string {
    if line < 1 || line !in comments then "" else comments[line]
  }

  /** The text above a value counts as its comment unless it starts with a slash or is an
      include directive. */
  function CommentAt(comments: Comments, line: int): string {
    var text := AnnotationAt(comments, line);
    if text != "" && text[0] != '/' && !Contains(text, "#include ") then text else ""
  }

  predicate PoundInclude(key: string) {
    Contains(key, INCLUDE + "_")
  }

  function OwnComment(key: string, info: Info, comments: Comments): string {
    if PoundInclude(key) then "" else CommentAt(comments, info.line - 1)
  }

  function OwnAnnotation(key: string, info: Info, comments: Comments): string {
    if PoundInclude(key) then "" else AnnotationAt(comments, info.line)
  }

  function StringType(raw: string): string {
    match QuotationType(raw)
    case NoQuotes => "string_unquoted"
    case SingleQuotes => "string_singlequoted"
    case DoubleQuotes => "string_doublequoted"
  }

  function TypeOf(v: FclValue): string {
    match v
    case Atom(kind, raw, _) => if kind == StringAtom then StringType(raw) else KindName(kind)
    case Sequence(_, _) => "sequence"
    case FclTable(_, _) => "table"
  }

  function Optional(key: string, text: Option<string>): Table {
    if text.Some? then [Member(key, Str(text.value))] else []
  }

  /** The metadata of a value before its children: type, comment, annotation (which a table
      does not have, except under an include key) and protection. */
  function OwnMeta(key: string, v: FclValue, comments: Comments): Table {
    [Member("type", Str(TypeOf(v))), Member("comment", Str(Escaped(OwnComment(key, v.info, comments))))]
    + Optional("annotation", if v.FclTable? && !PoundInclude(key) then None else Some(Escaped(OwnAnnotation(key, v.info, comments))))
    + Optional("protection", if v.info.protection == Unprotected then None else Some(ProtectionName(v.info.protection)))
  }

  /** Both trees of a value. */
  datatype Pair = Pair(data: Value, meta: Table)

  datatype Listed = Listed(items: seq<Value>, meta: Table)

  datatype Tabled = Tabled(members: Table, meta: Table)

  predicate Selected(info: Info, opts: Options) {
    (info.inProlog && opts.readProlog) || (!info.inProlog && opts.readMain)
  }

  /** A value is refused when its key is empty, when no comments were collected or when its
      line is not known. */
  predicate Accepted(key: string, info: Info, comments: Comments) {
    key != "" && comments != map[] && (PoundInclude(key) || info.line >= 1)
  }

  /** `fcl2jsondb`; None stands for an exception. */
  function ToJson(key: string, v: FclValue, comments: Comments, opts: Options): Option<Pair>
    decreases v, 1
  {
    if !Accepted(key, v.info, comments) then None
    else
      var own := OwnMeta(key, v, comments);
      match v
      case Atom(kind, raw, _) =>
        Some(Pair(Str(if kind == StringAtom then Escaped(Dequote(raw)) else raw), own))
      case Sequence(elements, _) =>
        var listed :- ElementsToJson(elements, comments, opts);
        Some(Pair(Array(listed.items), own + [Member("children", Object(listed.meta))]))
      case FclTable(members, _) =>
        var tabled :- MembersToJson(members, comments, opts);
        Some(Pair(Object(tabled.members), own + [Member("children", Object(tabled.meta))]))
  }

  function ElementsToJson(elements: seq<FclValue>, comments: Comments, opts: Options): Option<Listed>
    decreases elements, 0
  {
    if elements == [] then Some(Listed([], []))
    else
      var n := |elements| - 1;
      var before :- ElementsToJson(elements[..n], comments, opts);
      var pair :- ToJson(Text.Decimal(n), elements[n], comments, opts);
      Some(Listed(before.items + [pair.data], before.meta + [Member(Text.Decimal(n), Object(pair.meta))]))
  }

  function MembersToJson(members: seq<FclMember>, comments: Comments, opts: Options): Option<Tabled>
    decreases members, 0
  {
    if members == [] then Some(Tabled([], []))
    else
      var n := |members| - 1;
      var before :- MembersToJson(members[..n], comments, opts);
      if !Selected(members[n].value.info, opts) then Some(before)
      else
        var pair :- ToJson(members[n].key, members[n].value, comments, opts);
        Some(Tabled(before.members + [Member(members[n].key, pair.data)],
                    before.meta + [Member(members[n].key, Object(pair.meta))]))
  }

  /** The syntax tree that is written as FHiCL text. */
  datatype AstValue =
    | AstTable(atoms: seq<AstAtom>)
    | AstSequence(items: seq<AstItem>)
    | AstText(text: string)
    | AstDecimal(decimal: real)
    | AstInteger(integer: int)
    | AstBoolean(flag: bool)

  datatype AstItem = AstItem(value: AstValue, annotation: Option<string>)

  datatype AstAtom = AstAtom(name: string, comment: string, item: AstItem)

  /** A conversion back can end in std::out_of_range, which the loops over children catch,
      or in another exception, which they do not. */
  datatype Outcome<+T> = Ok(value: T) | Missing | Failed {
    predicate IsFailure() {
      !Ok?
    }

    function PropagateFailure<U>(): Outcome<U>
      requires !Ok?
    {
      if Missing? then Missing else Failed
    }

    function Extract(): T
      requires Ok?
    {
      value
    }
  }

  /** What a loop over children has collected; it stops, without an error, at the first
      missing child. */
  datatype Collected<+T> = Going(items: seq<T>) | Stopped(items: seq<T>) | Broken

  function Step<T>(before: Collected<T>, next: Outcome<T>): Collected<T> {
    match before
    case Going(items) =>
      (match next
       case Ok(item) => Going(items + [item])
       case Missing => Stopped(items)
       case Failed => Broken)
    case _ => before
  }

  predicate NeedQuotes(s: string) {
    exists i :: 0 <= i < |s| && s[i] in " .%()/-\\"
  }

  function StringOf(t: Table, key: string): Outcome<string> {
    match At(t, key)
    case None => Missing
    case Some(Str(s)) => Ok(s)
    case Some(_) => Failed
  }

  function MaybeQuoted(s: string): string {
    if NeedQuotes(s) then Quoted(s, '"') else s
  }

  function StringByType(typeName: string, s: string): string {
    if typeName == "string_unquoted" then s
    else if typeName == "string_singlequoted" then Quoted(s, '\'')
    else if typeName == "string_doublequoted" then Quoted(s, '"')
    else MaybeQuoted(s)
  }

  predicate StringTypeName(typeName: string) {
    typeName == "string" || typeName == "string_unquoted" || typeName == "string_singlequoted" || typeName == "string_doublequoted"
  }

  predicate TextTypeName(typeName: string) {
    typeName == "nil" || typeName == "complex" || typeName == "tableid"
  }

  /** `operator atom_t`: a value under a key. A text typed as a table is read as a string,
      and an include key turns into a directive. */
  function ToAtom(key: string, data: Value, metadata: Value): Outcome<AstAtom>
    decreases data, 3
  {
    if !metadata.Object? then Failed
    else
      var meta := metadata.members;
      var declared :- StringOf(meta, "type");
      var overridden := declared == "table" && data.Str?;
      var typeName := if overridden then "string" else declared;
      if StartsWith(key, INCLUDE) then
        if data.Str? then Ok(AstAtom("#include", " ", AstItem(AstText(Quoted(data.text, '"')), Some("")))) else Failed
      else
        var value :- ValueByType(typeName, data, meta);
        var name :- AtomName(key, meta);
        var comment :- AtomComment(meta);
        if typeName == "table" || overridden then Ok(AstAtom(name, comment, AstItem(value, None)))
        else
          var annotation :- StringOf(meta, "annotation");
          Ok(AstAtom(name, comment, AstItem(value, Some(Unescaped(annotation)))))
  }

  function AtomName(key: string, meta: Table): Outcome<string> {
    if Count(meta, "protection") != 1 then Ok(key)
    else
      var protection :- StringOf(meta, "protection");
      Ok(if protection == "@none" then key else key + " " + protection)
  }

  function AtomComment(meta: Table): Outcome<string> {
    var comment :- StringOf(meta, "comment");
    Ok(if Contains(Unescaped(comment), "#include ") then "" else Unescaped(comment))
  }

  function ValueByType(typeName: string, data: Value, meta: Table): Outcome<AstValue>
    decreases data, 2
  {
    if StringTypeName(typeName) then
      if data.Str? then Ok(AstText(StringByType(typeName, Unescaped(data.text)))) else Failed
    else if typeName == "bool" then
      if data.Str? then Ok(AstText(data.text)) else if data.Boolean? then Ok(AstBoolean(data.flag)) else Failed
    else if typeName == "number" then
      if data.Str? then Ok(AstText(data.text)) else if data.Integer? then Ok(AstInteger(data.integer))
      else if data.Decimal? then Ok(AstDecimal(data.decimal)) else Failed
    else if TextTypeName(typeName) then
      if data.Str? then Ok(AstText(data.text)) else Failed
    else if typeName == "sequence" then
      if !data.Array? then Failed
      else if At(meta, "children").None? then Ok(AstSequence([]))
      else if !At(meta, "children").value.Object? then Failed
      else
        var collected := CollectItems(data.items, At(meta, "children").value.members);
        if collected.Broken? then Failed else Ok(AstSequence(collected.items))
    else if typeName == "table" then
      if !data.Object? then Failed
      else if At(meta, "children").None? then Ok(AstTable([]))
      else if !At(meta, "children").value.Object? then Failed
      else
        var collected := CollectAtoms(data.members, At(meta, "children").value.members);
        if collected.Broken? then Failed else Ok(AstTable(collected.items))
    else Failed
  }

  function CollectItems(items: seq<Value>, children: Table): Collected<AstItem>
    decreases items, 0
  {
    if items == [] then Going([])
    else
      var n := |items| - 1;
      var child := At(children, Text.Decimal(n));
      Step(CollectItems(items[..n], children),
           if child.None? then Missing else ToItem(Text.Decimal(n), items[n], child.value))
  }

  function CollectAtoms(members: Table, children: Table): Collected<AstAtom>
    decreases members, 0
  {
    if members == [] then Going([])
    else
      var n := |members| - 1;
      var child := At(children, members[n].key);
      Step(CollectAtoms(members[..n], children),
           if child.None? then Missing else ToAtom(members[n].key, members[n].value, child.value))
  }

  /** `operator value_t`: an element of a sequence. */
  function ToItem(key: string, data: Value, metadata: Value): Outcome<AstItem>
    decreases data, 4
  {
    match data
    case Boolean(flag) => Ok(AstItem(AstBoolean(flag), None))
    case Integer(integer) => Ok(AstItem(AstInteger(integer), None))
    case Decimal(decimal) => Ok(AstItem(AstDecimal(decimal), None))
    case Str(text) =>
      if !metadata.Object? then Failed
      else
        var typeName :- StringOf(metadata.members, "type");
        Ok(AstItem(AstText(if typeName == "number" then Unescaped(text) else StringByType(typeName, Unescaped(text))), None))
    case _ =>
      var atom :- ToAtom(key, data, metadata);
      Ok(atom.item)
  }
}
