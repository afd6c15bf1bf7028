/** A FHiCL value comes back from its JSON form: keys, protections, nesting, order and the
    raw text of every atom, and apart from these the comments and annotations, each with an
    exact account of what does not. */
module FhiclRoundTrip {
  import opened Json
  import opened Text
  import opened Escape
  import opened Fhicl

  /** What a FHiCL text says at one place: the name with its protection, the text on the line
      above, the text behind the value, and the value. An element of a sequence is named by
      its index. */
  datatype Node = Node(name: string, above: string, behind: string, content: Content)

  datatype Content = Raw(text: string) | List(nodes: seq<Node>) | Block(nodes: seq<Node>) | Typed

  // The reference: everything that the parser has read, the same for members and elements.
  // With `texts` false it is the data alone. With `texts` true a text belongs to every value
  // on its line and to every value on the line below, but an element on the line of its
  // sequence has no texts of its own: they are the sequence's.

  function FullName(key: string, protection: Protection): string {
    if protection == Unprotected then key else key + " " + ProtectionName(protection)
  }

  /** The members that are asked for: those of the prolog, those of the main part, or both. */
  predicate Asked(info: Info, opts: Options) {
    if info.inProlog then opts.readProlog else opts.readMain
  }

  predicate OwnTexts(v: FclValue, line: int, texts: bool) {
    texts && v.info.line != line
  }

  function FullNode(key: string, v: FclValue, comments: Comments, opts: Options, texts: bool, own: bool): Node
    decreases v, 2
  {
    Node(FullName(key, v.info.protection),
         if own then AnnotationAt(comments, v.info.line - 1) else "",
         if own then AnnotationAt(comments, v.info.line) else "",
         FullContent(v, comments, opts, texts))
  }

  function FullContent(v: FclValue, comments: Comments, opts: Options, texts: bool): Content
    decreases v, 1
  {
    match v
    case Atom(_, raw, _) => Raw(raw)
    case Sequence(elements, info) => List(FullElements(elements, info.line, comments, opts, texts))
    case FclTable(members, _) => Block(FullMembers(members, comments, opts, texts))
  }

  function FullElements(elements: seq<FclValue>, line: int, comments: Comments, opts: Options, texts: bool): (r: seq<Node>)
    ensures |r| == |elements|
    decreases elements, 0
  {
    if elements == [] then []
    else
      var n := |elements| - 1;
      FullElements(elements[..n], line, comments, opts, texts)
      + [FullNode(Text.Decimal(n), elements[n], comments, opts, texts, OwnTexts(elements[n], line, texts))]
  }

  function FullMembers(members: seq<FclMember>, comments: Comments, opts: Options, texts: bool): seq<Node>
    decreases members, 0
  {
    if members == [] then []
    else
      var n := |members| - 1;
      FullMembers(members[..n], comments, opts, texts)
      + if Asked(members[n].value.info, opts) then [FullNode(members[n].key, members[n].value, comments, opts, texts, texts)]
        else []
  }

  // What the syntax tree, and with it the written text, says. An element of a sequence has
  // a place for an annotation, but none for a comment or a protection. An empty annotation
  // counts as none.

  function SeenNode(name: string, above: string, item: AstItem, texts: bool): Node
    decreases item, 2
  {
    Node(name, if texts then above else "", if texts && item.annotation.Some? then item.annotation.value else "",
         SeenContent(item.value, texts))
  }

  function SeenAtom(a: AstAtom, texts: bool): Node {
    SeenNode(a.name, a.comment, a.item, texts)
  }

  function SeenContent(v: AstValue, texts: bool): Content
    decreases v, 1
  {
    match v
    case AstText(text) => Raw(text)
    case AstSequence(items) => List(SeenItems(items, texts))
    case AstTable(atoms) => Block(SeenAtoms(atoms, texts))
    case _ => Typed
  }

  function SeenItems(items: seq<AstItem>, texts: bool): (r: seq<Node>)
    ensures |r| == |items|
    decreases items, 0
  {
    if items == [] then []
    else
      var n := |items| - 1;
      SeenItems(items[..n], texts) + [SeenNode(Text.Decimal(n), "", items[n], texts)]
  }

  function SeenAtoms(atoms: seq<AstAtom>, texts: bool): (r: seq<Node>)
    ensures |r| == |atoms|
    decreases atoms, 0
  {
    if atoms == [] then []
    else
      var n := |atoms| - 1;
      SeenAtoms(atoms[..n], texts) + [SeenNode(atoms[n].name, atoms[n].comment, atoms[n].item, texts)]
  }

  /** FHiCL tables are maps: the keys of every table are distinct. */
  predicate MapKeys(v: FclValue) {
    match v
    case Atom(_, _, _) => true
    case Sequence(elements, _) => forall i :: 0 <= i < |elements| ==> MapKeys(elements[i])
    case FclTable(members, _) =>
      && (forall i, j :: 0 <= i < j < |members| ==> members[i].key != members[j].key)
      && forall i :: 0 <= i < |members| ==> MapKeys(members[i].value)
  }

  /** The text above survives: there is none, or it is no directive and no slash comment and
      the key does not hold the name of an include directive. */
  predicate AboveKept(key: string, info: Info, comments: Comments) {
    var text := AnnotationAt(comments, info.line - 1);
    text == "" || (!PoundInclude(key) && text[0] != '/' && !Contains(text, "#include "))
  }

  /** The text behind survives: there is none, or the value is no table and the key does not
      hold the name of an include directive. */
  predicate BehindKept(key: string, v: FclValue, comments: Comments) {
    AnnotationAt(comments, v.info.line) == "" || (!v.FclTable? && !PoundInclude(key))
  }

  /** The texts around an element survive: one on the line of its sequence has none, but a
      sequence there is written with the text of the line once more; any other has no text
      above, and text behind only if it is a sequence. */
  predicate ElementTextsKept(v: FclValue, line: int, comments: Comments) {
    if v.info.line == line then v.Sequence? ==> AnnotationAt(comments, line) == ""
    else
      && AnnotationAt(comments, v.info.line - 1) == ""
      && (v.Sequence? || AnnotationAt(comments, v.info.line) == "")
  }

  /** The values that survive under a key: no atom of unknown kind, no string that is one
      lone quote, no key that reads as an include directive, and the same below. With their
      texts: also none around them that is not kept. */
  predicate Faithful(key: string, v: FclValue, comments: Comments, opts: Options, texts: bool)
    decreases v, 1
  {
    && !StartsWith(key, INCLUDE)
    && (texts ==> AboveKept(key, v.info, comments) && BehindKept(key, v, comments))
    && match v
       case Atom(kind, raw, _) => kind != UnknownAtom && (kind == StringAtom ==> !LoneQuote(raw))
       case Sequence(elements, info) => FaithfulElements(elements, info.line, comments, opts, texts)
       case FclTable(members, _) => FaithfulMembers(members, comments, opts, texts)
  }

  /** Inside a sequence there is no protection; every text is unescaped, and every text but a
      string or a number is quoted when it has a character that asks for quotes. */
  predicate FaithfulItem(v: FclValue, line: int, comments: Comments, opts: Options, texts: bool)
    decreases v, 2
  {
    && v.info.protection == Unprotected
    && (texts ==> ElementTextsKept(v, line, comments))
    && match v
       case Atom(kind, raw, _) =>
         if kind == StringAtom then !LoneQuote(raw) else if kind == Number then '\\' !in raw else !NeedQuotes(raw)
       case Sequence(elements, info) => FaithfulElements(elements, info.line, comments, opts, texts)
       case FclTable(members, _) => FaithfulMembers(members, comments, opts, texts)
  }

  predicate FaithfulElements(elements: seq<FclValue>, line: int, comments: Comments, opts: Options, texts: bool)
    decreases elements, 0
  {
    elements != [] ==>
      var n := |elements| - 1;
      FaithfulElements(elements[..n], line, comments, opts, texts) && FaithfulItem(elements[n], line, comments, opts, texts)
  }

  predicate FaithfulMembers(members: seq<FclMember>, comments: Comments, opts: Options, texts: bool)
    decreases members, 0
  {
    members != [] ==>
      var n := |members| - 1;
      FaithfulMembers(members[..n], comments, opts, texts)
      && (Asked(members[n].value.info, opts) ==> Faithful(members[n].key, members[n].value, comments, opts, texts))
  }

  /** The metadata of a value with its children, if it has any. */
  function FullMeta(key: string, v: FclValue, comments: Comments, children: Option<Table>): Table {
    OwnMeta(key, v, comments) + if children.Some? then [Member("children", Object(children.value))] else []
  }

  lemma FieldsDiffer()
    ensures "type" != "comment" && "type" != "annotation" && "type" != "protection" && "type" != "children"
    ensures "comment" != "annotation" && "comment" != "protection" && "comment" != "children"
    ensures "annotation" != "protection" && "annotation" != "children" && "protection" != "children"
  {
    assert "annotation"[0] != "protection"[0];
  }

  lemma MetaLookup(key: string, v: FclValue, comments: Comments, children: Option<Table>)
    ensures var m := FullMeta(key, v, comments, children);
      && At(m, "type") == Some(Str(TypeOf(v)))
      && At(m, "comment") == Some(Str(Escaped(OwnComment(key, v.info, comments))))
      && (!v.FclTable? ==> At(m, "annotation") == Some(Str(Escaped(OwnAnnotation(key, v.info, comments)))))
      && Count(m, "protection") == (if v.info.protection == Unprotected then 0 else 1)
      && (v.info.protection != Unprotected ==> At(m, "protection") == Some(Str(ProtectionName(v.info.protection))))
      && At(m, "children") == if children.Some? then Some(Object(children.value)) else None
  {
    hide At, Count, PoundInclude;
    FieldsDiffer();
    MetaField(key, v, comments, children, "type");
    MetaField(key, v, comments, children, "comment");
    MetaField(key, v, comments, children, "annotation");
    MetaField(key, v, comments, children, "protection");
    MetaField(key, v, comments, children, "children");
  }

  lemma MetaField(key: string, v: FclValue, comments: Comments, children: Option<Table>, field: string)
    ensures var m := FullMeta(key, v, comments, children);
      var annotated := !v.FclTable? || PoundInclude(key);
      var protected := v.info.protection != Unprotected;
      && At(m, field) == (
        if field == "type" then Some(Str(TypeOf(v)))
        else if field == "comment" then Some(Str(Escaped(OwnComment(key, v.info, comments))))
        else if field == "annotation" && annotated then Some(Str(Escaped(OwnAnnotation(key, v.info, comments))))
        else if field == "protection" && protected then Some(Str(ProtectionName(v.info.protection)))
        else if field == "children" && children.Some? then Some(Object(children.value))
        else None)
      && (field == "protection" ==> Count(m, field) == if protected then 1 else 0)
  {
    hide At, Count, PoundInclude, TypeOf, Escaped, OwnComment, OwnAnnotation, ProtectionName;
    FieldsDiffer();
    var base := [Member("type", Str(TypeOf(v))), Member("comment", Str(Escaped(OwnComment(key, v.info, comments))))];
    var annotation := if v.FclTable? && !PoundInclude(key) then None else Some(Escaped(OwnAnnotation(key, v.info, comments)));
    var protection := if v.info.protection == Unprotected then None else Some(ProtectionName(v.info.protection));
    var last := if children.Some? then [Member("children", Object(children.value))] else [];
    LookupTwo(base, field);
    OptionalLookup("annotation", annotation, field);
    OptionalLookup("protection", protection, field);
    if children.Some? {
      LookupOne(Member("children", Object(children.value)), field);
    } else {
      EmptyLookup(field);
    }
    AtAppend(base, Optional("annotation", annotation), field);
    CountAppend(base, Optional("annotation", annotation), field);
    AtAppend(base + Optional("annotation", annotation), Optional("protection", protection), field);
    CountAppend(base + Optional("annotation", annotation), Optional("protection", protection), field);
    AtAppend(OwnMeta(key, v, comments), last, field);
    CountAppend(OwnMeta(key, v, comments), last, field);
  }

  lemma EmptyLookup(field: string)
    ensures At([], field) == None && Count([], field) == 0
  {
  }

  lemma OptionalLookup(key: string, text: Option<string>, field: string)
    ensures At(Optional(key, text), field) == if key == field && text.Some? then Some(Str(text.value)) else None
    ensures Count(Optional(key, text), field) == if key == field && text.Some? then 1 else 0
  {
  }

  /** The type names that metadata is written with select the branch of the kind they name. */
  lemma TypeDispatch(data: Value, meta: Table)
    ensures forall kind: AtomKind | kind != StringAtom && data.Str? ::
      ValueByType(KindName(kind), data, meta) == if kind == UnknownAtom then Failed else Ok(AstText(data.text))
    ensures forall raw: string | data.Str? ::
      ValueByType(StringType(raw), data, meta) == Ok(AstText(Requote(Unescaped(data.text), QuotationType(raw))))
    ensures forall kind: AtomKind :: KindName(kind) != "table"
    ensures forall raw: string :: StringType(raw) != "table"
  {
    hide Unescaped, CollectAtoms, CollectItems, NeedQuotes, At, QuotationType;
    assert "string_singlequoted"[7] != "string_doublequoted"[7];
    assert "string_singlequoted"[7] != "string_unquoted"[7] && "string_doublequoted"[7] != "string_unquoted"[7];
    assert "unknown"[0] != "complex"[0] && "unknown"[0] != "tableid"[0];
    assert "number"[0] != "string"[0] && |"complex"| == |"tableid"| == 7;
    forall raw: string
      ensures StringTypeName(StringType(raw)) && StringType(raw) != "table"
      ensures forall s: string :: StringByType(StringType(raw), s) == Requote(s, QuotationType(raw))
    {
    }
    forall kind: AtomKind | kind != StringAtom
      ensures !StringTypeName(KindName(kind)) && KindName(kind) != "sequence" && KindName(kind) != "table"
    {
    }
  }

  lemma TreeDispatch(data: Value, meta: Table, children: Table)
    requires At(meta, "children") == Some(Object(children))
    ensures data.Array? ==>
      var collected := CollectItems(data.items, children);
      ValueByType("sequence", data, meta) == if collected.Broken? then Failed else Ok(AstSequence(collected.items))
    ensures data.Object? ==>
      var collected := CollectAtoms(data.members, children);
      ValueByType("table", data, meta) == if collected.Broken? then Failed else Ok(AstTable(collected.items))
  {
    hide CollectAtoms, CollectItems, At;
  }

  lemma CommentClean(key: string, info: Info, comments: Comments)
    ensures !Contains(OwnComment(key, info, comments), "#include ")
  {
    assert !Contains("", "#include ") by {
      assert |"#include "| == 9;
    }
  }

  /** Inside a sequence, the text of an atom that is no string and no number is written as
      it was exactly when nothing in it asks for quotes. */
  lemma ItemText(raw: string)
    ensures MaybeQuoted(Unescaped(raw)) == raw <==> !NeedQuotes(raw)
  {
    UnescapedLength(raw);
    if '\\' in raw {
      var i :| 0 <= i < |raw| && raw[i] == '\\';
      assert raw[i] in " .%()/-\\" by {
        assert " .%()/-\\"[7] == '\\';
      }
      assert NeedQuotes(raw);
      if MaybeQuoted(Unescaped(raw)) == raw {
        QuotedIsNotUnescaped(raw, FirstBackslash(raw));
      }
    }
  }

  function FirstBackslash(s: string): (k: nat)
    requires '\\' in s
    ensures k < |s| && s[k] == '\\' && '\\' !in s[..k]
  {
    if s[0] == '\\' then 0
    else
      assert s == [s[0]] + s[1..];
      var k := 1 + FirstBackslash(s[1..]);
      assert s[..k] == [s[0]] + s[1..][..k - 1];
      k
  }

  lemma QuotedIsNotUnescaped(raw: string, k: nat)
    requires k < |raw| && raw[k] == '\\' && '\\' !in raw[..k]
    ensures Quoted(Unescaped(raw), '"') != raw
  {
    UnescapedPrefix(raw, k);
  }

  lemma MetaOfJson(key: string, v: FclValue, comments: Comments, opts: Options)
    requires ToJson(key, v, comments, opts).Some?
    ensures ToJson(key, v, comments, opts).value.meta == FullMeta(key, v, comments, ChildrenOf(v, comments, opts))
  {
    if v.Atom? {
      assert OwnMeta(key, v, comments) + [] == OwnMeta(key, v, comments);
    }
  }

  function ChildrenOf(v: FclValue, comments: Comments, opts: Options): Option<Table> {
    match v
    case Atom(_, _, _) => None
    case Sequence(elements, _) =>
      var listed :- ElementsToJson(elements, comments, opts);
      Some(listed.meta)
    case FclTable(members, _) =>
      var tabled :- MembersToJson(members, comments, opts);
      Some(tabled.meta)
  }

  /** The atom built from the metadata of a value. */
  lemma AtomFields(key: string, v: FclValue, data: Value, comments: Comments, children: Option<Table>)
    requires !StartsWith(key, INCLUDE) && (TypeOf(v) == "table" <==> v.FclTable?) && (v.FclTable? ==> !data.Str?)
    ensures var meta := FullMeta(key, v, comments, children);
      var value := ValueByType(TypeOf(v), data, meta);
      ToAtom(key, data, Object(meta)) ==
        if value.Ok? then Ok(AstAtom(
          FullName(key, v.info.protection),
          OwnComment(key, v.info, comments),
          AstItem(value.value, if v.FclTable? then None else Some(OwnAnnotation(key, v.info, comments)))))
        else if value.Missing? then Missing else Failed
  {
    hide At, Count, ValueByType, FullMeta, OwnComment, OwnAnnotation, Contains, Escaped, Unescaped, StartsWith, TypeOf;
    MetaLookup(key, v, comments, children);
    EscapeRoundTrip(OwnComment(key, v.info, comments));
    EscapeRoundTrip(OwnAnnotation(key, v.info, comments));
    CommentClean(key, v.info, comments);
    assert "@none" != "@protect_ignore" && "@none" != "@protect_error";
  }

  /** The atom says what was read, with or without the texts. */
  predicate AtomAgrees(atom: Outcome<AstAtom>, node: Node, texts: bool) {
    atom.Ok? && SeenAtom(atom.value, texts) == node
  }

  predicate ItemAgrees(item: Outcome<AstItem>, i: nat, node: Node, texts: bool) {
    item.Ok? && SeenNode(Text.Decimal(i), "", item.value, texts) == node
  }

  lemma AroundKept(key: string, v: FclValue, comments: Comments)
    ensures OwnComment(key, v.info, comments) == AnnotationAt(comments, v.info.line - 1) <==> AboveKept(key, v.info, comments)
    ensures (if v.FclTable? then "" else OwnAnnotation(key, v.info, comments)) == AnnotationAt(comments, v.info.line) <==>
      BehindKept(key, v, comments)
  {
    hide Contains, AnnotationAt;
  }

  lemma IndexKey(i: nat)
    ensures !StartsWith(Text.Decimal(i), INCLUDE) && !PoundInclude(Text.Decimal(i))
  {
    var key := Text.Decimal(i);
    assert INCLUDE[0] == 'f' && (INCLUDE + "_")[0] == 'f';
    forall j | 0 <= j <= |key|
      ensures !(INCLUDE + "_" <= key[j..])
    {
      assert j < |key| ==> key[j..][0] == key[j] && IsDigit(key[j]);
    }
  }

  lemma NameKept(key: string, protection: Protection)
    ensures FullName(key, protection) == key <==> protection == Unprotected
  {
    assert |FullName(key, protection)| == |key| <==> protection == Unprotected;
  }

  /** The round trip of one value under a key; it never ends in the error that the loops
      swallow. */
  lemma {:induction false} AtomTrip(key: string, v: FclValue, comments: Comments, opts: Options, texts: bool)
    requires ToJson(key, v, comments, opts).Some? && MapKeys(v)
    ensures var p := ToJson(key, v, comments, opts).value;
      var atom := ToAtom(key, p.data, Object(p.meta));
      && !atom.Missing?
      && (AtomAgrees(atom, FullNode(key, v, comments, opts, texts, texts), texts) <==> Faithful(key, v, comments, opts, texts))
    decreases v, 2
  {
    hide At, FullMeta, OwnMeta, OwnComment, OwnAnnotation, ToAtom, ValueByType, StartsWith, FullName, AboveKept, BehindKept,
         AnnotationAt, FullContent, SeenContent, ToJson, FaithfulElements, FaithfulMembers;
    var p := ToJson(key, v, comments, opts).value;
    MetaOfJson(key, v, comments, opts);
    var children := ChildrenOf(v, comments, opts);
    if StartsWith(key, INCLUDE) {
      IncludeKey(key, v, p.data, comments, opts, texts, children);
    } else {
      AroundKept(key, v, comments);
      TreeTypes(v);
      DataKind(key, v, comments, opts);
      AtomFields(key, v, p.data, comments, children);
      ContentTrip(key, v, comments, opts, texts);
    }
  }

  lemma DataKind(key: string, v: FclValue, comments: Comments, opts: Options)
    requires ToJson(key, v, comments, opts).Some?
    ensures var data := ToJson(key, v, comments, opts).value.data;
      && (v.Atom? <==> data.Str?) && (v.Sequence? <==> data.Array?) && (v.FclTable? <==> data.Object?)
  {
    hide Escaped, OwnMeta;
  }

  /** The content of a value under a key. */
  lemma {:induction false} ContentTrip(key: string, v: FclValue, comments: Comments, opts: Options, texts: bool)
    requires ToJson(key, v, comments, opts).Some? && MapKeys(v)
    ensures var p := ToJson(key, v, comments, opts).value;
      var value := ValueByType(TypeOf(v), p.data, p.meta);
      && !value.Missing?
      && (value.Ok? && SeenContent(value.value, texts) == FullContent(v, comments, opts, texts) <==>
            match v
            case Atom(kind, raw, _) => kind != UnknownAtom && (kind == StringAtom ==> !LoneQuote(raw))
            case Sequence(elements, info) => FaithfulElements(elements, info.line, comments, opts, texts)
            case FclTable(members, _) => FaithfulMembers(members, comments, opts, texts))
    decreases v, 1
  {
    hide At, FullMeta, OwnMeta, OwnComment, OwnAnnotation, ToAtom, ValueByType, Accepted, Escaped, Unescaped,
         SeenItems, SeenAtoms, FullElements, FullMembers, FaithfulElements, FaithfulMembers;
    var p := ToJson(key, v, comments, opts).value;
    MetaOfJson(key, v, comments, opts);
    var children := ChildrenOf(v, comments, opts);
    MetaLookup(key, v, comments, children);
    match v
    case Atom(kind, raw, _) =>
      TypeDispatch(p.data, p.meta);
      EscapeRoundTrip(Dequote(raw));
      RequoteDequote(raw);
    case Sequence(elements, info) =>
      TreeDispatch(p.data, p.meta, children.value);
      ElementsServed(elements, comments, opts);
      ElementsTrip(elements, info.line, children.value, comments, opts, texts);
    case FclTable(members, _) =>
      TreeDispatch(p.data, p.meta, children.value);
      MembersServed(members, comments, opts);
      MembersTrip(members, children.value, comments, opts, texts);
  }

  lemma IncludeKey(key: string, v: FclValue, data: Value, comments: Comments, opts: Options, texts: bool, children: Option<Table>)
    requires StartsWith(key, INCLUDE)
    ensures var atom := ToAtom(key, data, Object(FullMeta(key, v, comments, children)));
      !atom.Missing? && !AtomAgrees(atom, FullNode(key, v, comments, opts, texts, texts), texts)
  {
    hide At, ValueByType, FullMeta, OwnMeta, OwnComment, OwnAnnotation, FullContent, SeenContent, AnnotationAt;
    MetaLookup(key, v, comments, children);
    assert key[0] == 'f' && "#include"[0] == '#';
    assert FullName(key, v.info.protection)[0] == key[0];
  }

  lemma {:induction false} ItemTrip(i: nat, v: FclValue, line: int, comments: Comments, opts: Options, texts: bool)
    requires ToJson(Text.Decimal(i), v, comments, opts).Some? && MapKeys(v)
    ensures var p := ToJson(Text.Decimal(i), v, comments, opts).value;
      var item := ToItem(Text.Decimal(i), p.data, Object(p.meta));
      && !item.Missing?
      && (ItemAgrees(item, i, FullNode(Text.Decimal(i), v, comments, opts, texts, OwnTexts(v, line, texts)), texts) <==>
            FaithfulItem(v, line, comments, opts, texts))
    decreases v, 4
  {
    NameKept(Text.Decimal(i), v.info.protection);
    if v.Atom? {
      TextItemTrip(i, v, line, comments, opts, texts);
    } else {
      TreeItemTrip(i, v, line, comments, opts, texts);
    }
  }

  lemma TextItemTrip(i: nat, v: FclValue, line: int, comments: Comments, opts: Options, texts: bool)
    requires v.Atom? && ToJson(Text.Decimal(i), v, comments, opts).Some?
    requires FullName(Text.Decimal(i), v.info.protection) == Text.Decimal(i) <==> v.info.protection == Unprotected
    ensures var p := ToJson(Text.Decimal(i), v, comments, opts).value;
      var item := ToItem(Text.Decimal(i), p.data, Object(p.meta));
      && !item.Missing?
      && (ItemAgrees(item, i, FullNode(Text.Decimal(i), v, comments, opts, texts, OwnTexts(v, line, texts)), texts) <==>
            FaithfulItem(v, line, comments, opts, texts))
  {
    hide At, FullMeta, OwnMeta, OwnComment, OwnAnnotation, Escaped, Unescaped, Accepted, NeedQuotes, AnnotationAt, FullName;
    var key := Text.Decimal(i);
    var p := ToJson(key, v, comments, opts).value;
    MetaOfJson(key, v, comments, opts);
    MetaLookup(key, v, comments, None);
    EscapeRoundTrip(Dequote(v.raw));
    RequoteDequote(v.raw);
    ItemText(v.raw);
    UnescapedLength(v.raw);
    AtomItem(v.kind, v.raw, Unescaped(p.data.text));
    var item := ToItem(key, p.data, Object(p.meta));
    assert item.Ok? && item.value.annotation.None? && item.value.value.AstText?;
    assert SeenNode(key, "", item.value, texts) == Node(key, "", "", Raw(item.value.value.text));
    assert FullContent(v, comments, opts, texts) == Raw(v.raw);
    assert item.value.value.text == v.raw <==>
      if v.kind == StringAtom then !LoneQuote(v.raw) else if v.kind == Number then '\\' !in v.raw else !NeedQuotes(v.raw);
  }

  lemma {:induction false} TreeItemTrip(i: nat, v: FclValue, line: int, comments: Comments, opts: Options, texts: bool)
    requires !v.Atom? && ToJson(Text.Decimal(i), v, comments, opts).Some? && MapKeys(v)
    requires FullName(Text.Decimal(i), v.info.protection) == Text.Decimal(i) <==> v.info.protection == Unprotected
    ensures var p := ToJson(Text.Decimal(i), v, comments, opts).value;
      var item := ToItem(Text.Decimal(i), p.data, Object(p.meta));
      && !item.Missing?
      && (ItemAgrees(item, i, FullNode(Text.Decimal(i), v, comments, opts, texts, OwnTexts(v, line, texts)), texts) <==>
            FaithfulItem(v, line, comments, opts, texts))
    decreases v, 3
  {
    hide At, FullMeta, OwnMeta, OwnComment, ToAtom, ValueByType, AnnotationAt, FullName, StartsWith, PoundInclude,
         SeenContent, FullContent, FaithfulElements, FaithfulMembers, ToJson;
    var key := Text.Decimal(i);
    var p := ToJson(key, v, comments, opts).value;
    IndexKey(i);
    MetaOfJson(key, v, comments, opts);
    TreeTypes(v);
    DataKind(key, v, comments, opts);
    AtomFields(key, v, p.data, comments, ChildrenOf(v, comments, opts));
    ContentTrip(key, v, comments, opts, texts);
  }

  lemma TreeTypes(v: FclValue)
    ensures TypeOf(v) == "table" <==> v.FclTable?
  {
    TypeDispatch(Str(""), []);
  }

  lemma AtomItem(kind: AtomKind, raw: string, text: string)
    ensures var typeName := if kind == StringAtom then StringType(raw) else KindName(kind);
      (if typeName == "number" then text else StringByType(typeName, text)) ==
      if kind == StringAtom then Requote(text, QuotationType(raw)) else if kind == Number then text else MaybeQuoted(text)
  {
    hide QuotationType, NeedQuotes;
    assert "string_singlequoted"[7] != "string_doublequoted"[7];
    assert "string_singlequoted"[7] != "string_unquoted"[7] && "string_doublequoted"[7] != "string_unquoted"[7];
    assert "number"[0] != "string"[0];
  }

  /** Children are found under the names they were stored with. */
  ghost predicate ServesElements(children: Table, elements: seq<FclValue>, comments: Comments, opts: Options) {
    forall i: nat :: i < |elements| ==>
      var p := ToJson(Text.Decimal(i), elements[i], comments, opts);
      p.Some? && At(children, Text.Decimal(i)) == Some(Object(p.value.meta))
  }

  ghost predicate ServesMembers(children: Table, members: seq<FclMember>, comments: Comments, opts: Options) {
    forall i: nat :: i < |members| && Asked(members[i].value.info, opts) ==>
      var p := ToJson(members[i].key, members[i].value, comments, opts);
      p.Some? && At(children, members[i].key) == Some(Object(p.value.meta))
  }

  lemma {:induction false} ElementsServed(elements: seq<FclValue>, comments: Comments, opts: Options)
    requires ElementsToJson(elements, comments, opts).Some?
    ensures var listed := ElementsToJson(elements, comments, opts).value;
      && ServesElements(listed.meta, elements, comments, opts)
      && |listed.items| == |elements|
      && forall i: nat :: i >= |elements| ==> At(listed.meta, Text.Decimal(i)) == None
    decreases |elements|
  {
    hide At, ToJson;
    var listed := ElementsToJson(elements, comments, opts).value;
    if elements == [] {
      forall i: nat ensures At(listed.meta, Text.Decimal(i)) == None {
        EmptyLookup(Text.Decimal(i));
      }
    } else {
      var n := |elements| - 1;
      ElementsServed(elements[..n], comments, opts);
      var before := ElementsToJson(elements[..n], comments, opts).value;
      var last := Member(Text.Decimal(n), Object(ToJson(Text.Decimal(n), elements[n], comments, opts).value.meta));
      forall i: nat
        ensures i < n ==> At(listed.meta, Text.Decimal(i)) == At(before.meta, Text.Decimal(i)) && elements[..n][i] == elements[i]
        ensures i == n ==> At(listed.meta, Text.Decimal(i)) == Some(last.value)
        ensures i > n ==> At(listed.meta, Text.Decimal(i)) == None
      {
        AtAppend(before.meta, [last], Text.Decimal(i));
        LookupOne(last, Text.Decimal(i));
        DecimalInjective(i, n);
        if i < n {
          var p := ToJson(Text.Decimal(i), elements[..n][i], comments, opts);
          assert At(before.meta, Text.Decimal(i)) == Some(Object(p.value.meta));
        }
      }
    }
  }

  lemma {:induction false} MembersServed(members: seq<FclMember>, comments: Comments, opts: Options)
    requires MembersToJson(members, comments, opts).Some?
    requires forall i, j :: 0 <= i < j < |members| ==> members[i].key != members[j].key
    ensures var tabled := MembersToJson(members, comments, opts).value;
      && ServesMembers(tabled.meta, members, comments, opts)
      && forall key: string :: (forall i :: 0 <= i < |members| ==> members[i].key != key) ==> At(tabled.meta, key) == None
    decreases |members|
  {
    hide At, ToJson;
    var tabled := MembersToJson(members, comments, opts).value;
    if members == [] {
      forall key: string ensures At(tabled.meta, key) == None {
        EmptyLookup(key);
      }
    } else {
      var n := |members| - 1;
      MembersServed(members[..n], comments, opts);
      var before := MembersToJson(members[..n], comments, opts).value;
      assert forall i :: 0 <= i < n ==> members[..n][i] == members[i];
      if Asked(members[n].value.info, opts) {
        var last := Member(members[n].key, Object(ToJson(members[n].key, members[n].value, comments, opts).value.meta));
        forall key: string
          ensures At(tabled.meta, key) ==
            if At(before.meta, key).Some? then At(before.meta, key) else if key == members[n].key then Some(last.value) else None
        {
          AtAppend(before.meta, [last], key);
          LookupOne(last, key);
        }
        assert At(before.meta, members[n].key) == None;
      }
    }
  }

  lemma {:induction false} ElementsTrip(elements: seq<FclValue>, line: int, children: Table, comments: Comments, opts: Options, texts: bool)
    requires ElementsToJson(elements, comments, opts).Some? && ServesElements(children, elements, comments, opts)
    requires forall i :: 0 <= i < |elements| ==> MapKeys(elements[i])
    ensures var collected := CollectItems(ElementsToJson(elements, comments, opts).value.items, children);
      && !collected.Stopped?
      && (collected.Going? && SeenItems(collected.items, texts) == FullElements(elements, line, comments, opts, texts) <==>
            FaithfulElements(elements, line, comments, opts, texts))
    decreases elements, 0
  {
    hide At, ToJson, ToItem, FullNode, SeenNode, FaithfulItem, MapKeys, SeenItems, ItemAgrees;
    if elements != [] {
      var n := |elements| - 1;
      ElementsServed(elements, comments, opts);
      assert ServesElements(children, elements[..n], comments, opts);
      ElementsTrip(elements[..n], line, children, comments, opts, texts);
      ItemTrip(n, elements[n], line, comments, opts, texts);
      var items := ElementsToJson(elements, comments, opts).value.items;
      ElementsServed(elements[..n], comments, opts);
      assert items[..n] == ElementsToJson(elements[..n], comments, opts).value.items;
      var before, next := CollectItems(items[..n], children), ToItem(Text.Decimal(n), items[n], At(children, Text.Decimal(n)).value);
      ItemStep(before, next, FullElements(elements[..n], line, comments, opts, texts),
               FullNode(Text.Decimal(n), elements[n], comments, opts, texts, OwnTexts(elements[n], line, texts)), texts);
    }
  }

  lemma LastApart(s: seq<Node>, t: seq<Node>, x: Node, y: Node)
    ensures s + [x] == t + [y] <==> s == t && x == y
  {
    if s + [x] == t + [y] {
      assert (s + [x])[|s|] == (t + [y])[|t|] && (s + [x])[..|s|] == (t + [y])[..|t|];
    }
  }

  lemma ItemStep(before: Collected<AstItem>, next: Outcome<AstItem>, nodes: seq<Node>, node: Node, texts: bool)
    requires !before.Stopped? && !next.Missing?
    ensures var after := Step(before, next);
      && !after.Stopped?
      && (after.Going? && SeenItems(after.items, texts) == nodes + [node] <==>
            before.Going? && SeenItems(before.items, texts) == nodes && ItemAgrees(next, |nodes|, node, texts))
  {
    hide SeenNode;
    if before.Going? && next.Ok? {
      var n := |before.items|;
      assert (before.items + [next.value])[..n] == before.items;
      LastApart(SeenItems(before.items, texts), nodes, SeenNode(Text.Decimal(n), "", next.value, texts), node);
    }
  }

  lemma MemberStep(before: Collected<AstAtom>, next: Outcome<AstAtom>, nodes: seq<Node>, node: Node, texts: bool)
    requires !before.Stopped? && !next.Missing?
    ensures var after := Step(before, next);
      && !after.Stopped?
      && (after.Going? && SeenAtoms(after.items, texts) == nodes + [node] <==>
            before.Going? && SeenAtoms(before.items, texts) == nodes && AtomAgrees(next, node, texts))
  {
    hide SeenNode;
    if before.Going? && next.Ok? {
      var n := |before.items|;
      assert (before.items + [next.value])[..n] == before.items;
      LastApart(SeenAtoms(before.items, texts), nodes, SeenAtom(next.value, texts), node);
    }
  }

  lemma {:induction false} MembersTrip(members: seq<FclMember>, children: Table, comments: Comments, opts: Options, texts: bool)
    requires MembersToJson(members, comments, opts).Some? && ServesMembers(children, members, comments, opts)
    requires forall i :: 0 <= i < |members| ==> MapKeys(members[i].value)
    ensures var collected := CollectAtoms(MembersToJson(members, comments, opts).value.members, children);
      && !collected.Stopped?
      && (collected.Going? && SeenAtoms(collected.items, texts) == FullMembers(members, comments, opts, texts) <==>
            FaithfulMembers(members, comments, opts, texts))
    decreases members, 0
  {
    hide At, ToJson, ToAtom, FullNode, SeenNode, Faithful, MapKeys;
    if members != [] {
      var n := |members| - 1;
      assert ServesMembers(children, members[..n], comments, opts);
      MembersTrip(members[..n], children, comments, opts, texts);
      var before := MembersToJson(members[..n], comments, opts).value.members;
      if Asked(members[n].value.info, opts) {
        AtomTrip(members[n].key, members[n].value, comments, opts, texts);
        var data := MembersToJson(members, comments, opts).value.members;
        assert data[..|data| - 1] == before;
        MemberStep(CollectAtoms(before, children), ToAtom(members[n].key, data[|data| - 1].value, At(children, members[n].key).value),
                   FullMembers(members[..n], comments, opts, texts), FullNode(members[n].key, members[n].value, comments, opts, texts, texts), texts);
      } else {
        assert FullMembers(members[..n], comments, opts, texts) + [] == FullMembers(members[..n], comments, opts, texts);
      }
    }
  }

  /** The round trip of a FHiCL value, twice an equivalence. The data - names with their
      protections, nesting, order and raw text with its quotes - comes back if and only if
      every part is faithful without regard to texts; data and texts come back if and only if
      every part is faithful with its texts. */
  lemma FhiclRoundTrip(key: string, v: FclValue, comments: Comments, opts: Options, texts: bool)
    requires ToJson(key, v, comments, opts).Some? && MapKeys(v)
    ensures var p := ToJson(key, v, comments, opts).value;
      AtomAgrees(ToAtom(key, p.data, Object(p.meta)), FullNode(key, v, comments, opts, texts, texts), texts) <==>
      Faithful(key, v, comments, opts, texts)
  {
    AtomTrip(key, v, comments, opts, texts);
  }

  /** Data and metadata of a table list the same keys in the same order, and the metadata
      of a sequence lists the indices, so no child is ever missing on the way back. */
  lemma {:induction false} ParallelMembers(members: seq<FclMember>, comments: Comments, opts: Options)
    requires MembersToJson(members, comments, opts).Some?
    ensures var tabled := MembersToJson(members, comments, opts).value;
      && |tabled.members| == |tabled.meta|
      && forall i :: 0 <= i < |tabled.meta| ==> tabled.members[i].key == tabled.meta[i].key && tabled.meta[i].value.Object?
  {
    hide ToJson;
    if members != [] {
      ParallelMembers(members[..|members| - 1], comments, opts);
    }
  }

  lemma {:induction false} ParallelElements(elements: seq<FclValue>, comments: Comments, opts: Options)
    requires ElementsToJson(elements, comments, opts).Some?
    ensures var listed := ElementsToJson(elements, comments, opts).value;
      && |listed.items| == |listed.meta| == |elements|
      && forall i: nat :: i < |listed.meta| ==> listed.meta[i].key == Text.Decimal(i) && listed.meta[i].value.Object?
  {
    hide ToJson;
    if elements != [] {
      ParallelElements(elements[..|elements| - 1], comments, opts);
    }
  }

  /** An atom of unknown kind throws on the way back. */
  lemma UnknownLost(info: Info, comments: Comments, opts: Options, texts: bool)
    requires Accepted("a", info, comments)
    ensures var v := Atom(UnknownAtom, "x", info);
      var p := ToJson("a", v, comments, opts);
      && p.Some?
      && !AtomAgrees(ToAtom("a", p.value.data, Object(p.value.meta)), FullNode("a", v, comments, opts, texts, texts), texts)
  {
    var v := Atom(UnknownAtom, "x", info);
    FhiclRoundTrip("a", v, comments, opts, texts);
  }

  /** A string of one double quote comes back as two. */
  lemma LoneQuoteLost(info: Info, comments: Comments, opts: Options, texts: bool)
    requires Accepted("a", info, comments)
    ensures var v := Atom(StringAtom, "\"", info);
      var p := ToJson("a", v, comments, opts);
      && p.Some?
      && !AtomAgrees(ToAtom("a", p.value.data, Object(p.value.meta)), FullNode("a", v, comments, opts, texts, texts), texts)
  {
    var v := Atom(StringAtom, "\"", info);
    FhiclRoundTrip("a", v, comments, opts, texts);
  }

  /** A dotted table id inside a sequence comes back in quotes. */
  lemma DottedIdLost(info: Info, comments: Comments, opts: Options, texts: bool)
    requires Accepted("a", info, comments) && Accepted("0", info, comments)
    ensures var v := Sequence([Atom(TableId, "x.y", info)], info);
      var p := ToJson("a", v, comments, opts);
      && p.Some?
      && !AtomAgrees(ToAtom("a", p.value.data, Object(p.value.meta)), FullNode("a", v, comments, opts, texts, texts), texts)
  {
    var element := Atom(TableId, "x.y", info);
    var elements := [element];
    var v := Sequence(elements, info);
    assert ToJson("0", element, comments, opts).Some?;
    OneElement(element, comments, opts);
    assert "x.y"[1] in " .%()/-\\" && NeedQuotes("x.y");
    assert !FaithfulItem(element, info.line, comments, opts, texts);
    OneFaithful(element, info.line, comments, opts, texts);
    FhiclRoundTrip("a", v, comments, opts, texts);
  }

  lemma OneElement(element: FclValue, comments: Comments, opts: Options)
    requires ToJson("0", element, comments, opts).Some?
    ensures var p := ToJson("0", element, comments, opts).value;
      ElementsToJson([element], comments, opts) == Some(Listed([p.data], [Member("0", Object(p.meta))]))
  {
    hide ToJson;
    var elements := [element];
    var p := ToJson("0", element, comments, opts).value;
    assert elements[..0] == [] && Text.Decimal(0) == "0";
    var before := ElementsToJson(elements[..0], comments, opts).value;
    var last := Member("0", Object(p.meta));
    assert before.items + [p.data] == [p.data] && before.meta + [last] == [last];
  }

  lemma OneFaithful(element: FclValue, line: int, comments: Comments, opts: Options, texts: bool)
    ensures FaithfulElements([element], line, comments, opts, texts) <==> FaithfulItem(element, line, comments, opts, texts)
  {
    hide FaithfulItem;
    assert [element][..0] == [];
  }

  lemma ShortKeys()
    ensures !PoundInclude("a") && !PoundInclude("0") && !StartsWith("a", INCLUDE)
  {
    assert |INCLUDE + "_"| > 1;
  }

  /** A sequence of one number, with one text. */
  function OneNumber(line: int): FclValue {
    Sequence([Atom(Number, "1", Info(Unprotected, false, line))], Info(Unprotected, false, 1))
  }

  /** A text behind an element on a line of its own: the data comes back, the text, which is
      in the metadata, does not. */
  lemma ElementAnnotationLost(opts: Options)
    ensures var v, comments := OneNumber(2), map[2 := "# first"];
      var p := ToJson("a", v, comments, opts);
      && p.Some? && Faithful("a", v, comments, opts, false) && !Faithful("a", v, comments, opts, true)
      && ToAtom("a", p.value.data, Object(p.value.meta)) ==
           Ok(AstAtom("a", "", AstItem(AstSequence([AstItem(AstText("1"), None)]), Some(""))))
    ensures var element, comments := OneNumber(2).elements[0], map[2 := "# first"];
      var p := ToJson("0", element, comments, opts);
      p.Some? && At(p.value.meta, "annotation") == Some(Str(Escaped("# first")))
  {
    hide PoundInclude, Escaped, Contains, ToAtom, Faithful, ToJson;
    var v, comments: Comments := OneNumber(2), map[2 := "# first"];
    ShortKeys();
    OneNumberJson(2, comments, opts);
    MetaOfJson("0", v.elements[0], comments, opts);
    MetaLookup("0", v.elements[0], comments, None);
    OneNumberFaithful(2, comments, opts, true);
    OneNumberFaithful(2, comments, opts, false);
    OneNumberBack(2, comments, opts);
  }

  /** The same text on the line of the whole sequence comes back behind the sequence. */
  lemma OneLineAnnotationKept(opts: Options)
    ensures var v, comments := OneNumber(1), map[1 := "# first"];
      var p := ToJson("a", v, comments, opts);
      && p.Some? && Faithful("a", v, comments, opts, true)
      && ToAtom("a", p.value.data, Object(p.value.meta)) ==
           Ok(AstAtom("a", "", AstItem(AstSequence([AstItem(AstText("1"), None)]), Some("# first"))))
  {
    hide PoundInclude, Contains, ToAtom, Faithful, ToJson;
    var v, comments: Comments := OneNumber(1), map[1 := "# first"];
    ShortKeys();
    OneNumberJson(1, comments, opts);
    OneNumberFaithful(1, comments, opts, true);
    OneNumberBack(1, comments, opts);
  }

  /** What comes back of it. */
  lemma OneNumberBack(line: int, comments: Comments, opts: Options)
    requires ToJson("0", OneNumber(line).elements[0], comments, opts).Some? && ToJson("a", OneNumber(line), comments, opts).Some?
    ensures var v := OneNumber(line);
      var p := ToJson("a", v, comments, opts).value;
      ToAtom("a", p.data, Object(p.meta)) ==
        Ok(AstAtom("a", OwnComment("a", v.info, comments),
                   AstItem(AstSequence([AstItem(AstText("1"), None)]), Some(OwnAnnotation("a", v.info, comments)))))
  {
    hide PoundInclude, Escaped, Contains, ToAtom, OwnMeta, OwnComment, OwnAnnotation, CollectItems, ValueByType, Accepted;
    ShortKeys();
    var v := OneNumber(line);
    var element := v.elements[0];
    OneElement(element, comments, opts);
    var p, q := ToJson("a", v, comments, opts).value, ToJson("0", element, comments, opts).value;
    var children := [Member("0", Object(q.meta))];
    MetaOfJson("a", v, comments, opts);
    MetaLookup("a", v, comments, Some(children));
    TreeTypes(v);
    AtomFields("a", v, p.data, comments, Some(children));
    TreeDispatch(p.data, p.meta, children);
    OneItem(line, children, comments, opts);
  }

  lemma OneItem(line: int, children: Table, comments: Comments, opts: Options)
    requires var element := OneNumber(line).elements[0];
      && ToJson("0", element, comments, opts).Some?
      && children == [Member("0", Object(ToJson("0", element, comments, opts).value.meta))]
    ensures CollectItems([Str("1")], children) == Going([AstItem(AstText("1"), None)])
  {
    hide PoundInclude, Escaped;
    var element := OneNumber(line).elements[0];
    var items := [Str("1")];
    MetaOfJson("0", element, comments, opts);
    MetaLookup("0", element, comments, None);
    assert items[..0] == [] && Text.Decimal(0) == "0";
    UnescapedLength("1");
  }

  lemma OneNumberJson(line: int, comments: Comments, opts: Options)
    requires line in comments && line >= 1
    ensures ToJson("0", OneNumber(line).elements[0], comments, opts).Some? && ToJson("a", OneNumber(line), comments, opts).Some?
    ensures MapKeys(OneNumber(line))
  {
    hide PoundInclude, OwnMeta;
    OneElement(OneNumber(line).elements[0], comments, opts);
  }

  lemma OneNumberFaithful(line: int, comments: Comments, opts: Options, texts: bool)
    requires comments.Keys == {line} && line >= 1 && comments[line] != ""
    ensures Faithful("a", OneNumber(line), comments, opts, texts) <==> !texts || line == 1
  {
    hide PoundInclude, Contains;
    ShortKeys();
    var element := OneNumber(line).elements[0];
    OneFaithful(element, 1, comments, opts, texts);
  }

  /** A comment that starts with a slash is not kept, the data below it is. */
  lemma SlashCommentLost(opts: Options)
    ensures var v := Atom(Number, "1", Info(Unprotected, false, 2));
      var comments := map[1 := "// first"];
      var p := ToJson("a", v, comments, opts);
      && p.Some?
      && AtomAgrees(ToAtom("a", p.value.data, Object(p.value.meta)), FullNode("a", v, comments, opts, false, false), false)
      && !AtomAgrees(ToAtom("a", p.value.data, Object(p.value.meta)), FullNode("a", v, comments, opts, true, true), true)
  {
    var v := Atom(Number, "1", Info(Unprotected, false, 2));
    var comments: Comments := map[1 := "// first"];
    assert 1 in comments;
    FhiclRoundTrip("a", v, comments, opts, true);
    FhiclRoundTrip("a", v, comments, opts, false);
  }
}
