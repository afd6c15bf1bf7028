/** What the FHiCL conversions write where: which members they take, the names of types and
    protections, what they refuse, and what becomes of values that FHiCL text does not give. */
module FhiclFields {
  import opened Json
  import opened Text
  import opened Escape
  import opened Fhicl
  import opened FhiclRoundTrip

  // Which members are taken.

  function Keys(t: Table): seq<string> {
    seq(|t|, i requires 0 <= i < |t| => t[i].key)
  }

  function AllKeys(members: seq<FclMember>): seq<string> {
    seq(|members|, i requires 0 <= i < |members| => members[i].key)
  }

  /** The keys of the members of the prolog, or of those of the main part, in order. */
  function PartKeys(members: seq<FclMember>, prolog: bool): seq<string> {
    if members == [] then []
    else
      var n := |members| - 1;
      PartKeys(members[..n], prolog) + if members[n].value.info.inProlog == prolog then [members[n].key] else []
  }

  /** The default mode takes the main part, the prolog mode the prolog, the combined mode both;
      without either nothing is taken. Data and metadata have the same keys. */
  lemma {:induction false} MembersTaken(members: seq<FclMember>, comments: Comments, opts: Options)
    requires MembersToJson(members, comments, opts).Some?
    ensures var tabled := MembersToJson(members, comments, opts).value;
      && Keys(tabled.members) == Keys(tabled.meta)
      && (opts.readMain && !opts.readProlog ==> Keys(tabled.members) == PartKeys(members, false))
      && (opts.readProlog && !opts.readMain ==> Keys(tabled.members) == PartKeys(members, true))
      && (opts.readMain && opts.readProlog ==> Keys(tabled.members) == AllKeys(members))
      && (!opts.readMain && !opts.readProlog ==> Keys(tabled.members) == [])
  {
    hide ToJson;
    if members != [] {
      var n := |members| - 1;
      MembersTaken(members[..n], comments, opts);
      var tabled, before := MembersToJson(members, comments, opts).value, MembersToJson(members[..n], comments, opts).value;
      assert AllKeys(members) == AllKeys(members[..n]) + [members[n].key];
      if |tabled.members| > |before.members| {
        assert Keys(tabled.members) == Keys(before.members) + [members[n].key];
        assert Keys(tabled.meta) == Keys(before.meta) + [members[n].key];
      }
    }
  }

  // Names.

  /** The type names that metadata is written with. */
  lemma TypeNames(raw: string, elements: seq<FclValue>, members: seq<FclMember>, info: Info)
    ensures TypeOf(Atom(Nil, raw, info)) == "nil" && TypeOf(Atom(Bool, raw, info)) == "bool"
    ensures TypeOf(Atom(Number, raw, info)) == "number" && TypeOf(Atom(Complex, raw, info)) == "complex"
    ensures TypeOf(Atom(TableId, raw, info)) == "tableid" && TypeOf(Atom(UnknownAtom, raw, info)) == "unknown"
    ensures TypeOf(Sequence(elements, info)) == "sequence" && TypeOf(FclTable(members, info)) == "table"
    ensures var kind := TypeOf(Atom(StringAtom, raw, info));
      if raw != "" && raw[0] == raw[|raw| - 1] == '"' then kind == "string_doublequoted"
      else if raw != "" && raw[0] == raw[|raw| - 1] == '\'' then kind == "string_singlequoted"
      else kind == "string_unquoted"
  {
  }

  /** Quotes are part of a string's type and not of its data. */
  lemma StringData(s: string, q: char, info: Info, key: string, comments: Comments, opts: Options)
    requires (q == '"' || q == '\'') && Accepted(key, info, comments)
    ensures ToJson(key, Atom(StringAtom, [q] + s + [q], info), comments, opts).value.data == Str(Escaped(s))
  {
    hide Escaped, OwnMeta;
    var raw := [q] + s + [q];
    assert raw[1..|raw| - 1] == s;
  }

  /** Every other atom is its raw text. */
  lemma AtomData(kind: AtomKind, raw: string, info: Info, key: string, comments: Comments, opts: Options)
    requires kind != StringAtom && Accepted(key, info, comments)
    ensures ToJson(key, Atom(kind, raw, info), comments, opts).value.data == Str(raw)
  {
    hide OwnMeta;
  }

  /** A protection is a field of the metadata, and on the way back a suffix of the name. */
  lemma ProtectionFields(key: string, v: FclValue, comments: Comments, children: Option<Table>)
    ensures var meta := FullMeta(key, v, comments, children);
      match v.info.protection
      case Unprotected => Count(meta, "protection") == 0 && FullName(key, Unprotected) == key
      case ProtectIgnore =>
        At(meta, "protection") == Some(Str("@protect_ignore")) && FullName(key, ProtectIgnore) == key + " @protect_ignore"
      case ProtectError =>
        At(meta, "protection") == Some(Str("@protect_error")) && FullName(key, ProtectError) == key + " @protect_error"
  {
    hide At, Count, FullMeta;
    MetaLookup(key, v, comments, children);
    assert key + " " + "@protect_ignore" == key + " @protect_ignore";
    assert key + " " + "@protect_error" == key + " @protect_error";
  }

  predicate IsComment(text: string) {
    text != "" && text[0] != '/' && !Contains(text, "#include ")
  }

  /** The texts of a value: the one above and the one behind it, as they are in the comment map. */
  lemma TextFields(key: string, v: FclValue, comments: Comments, children: Option<Table>)
    requires !PoundInclude(key)
    ensures var meta := FullMeta(key, v, comments, children);
      var above, behind := v.info.line - 1, v.info.line;
      && (above >= 1 && above in comments && IsComment(comments[above]) ==>
            At(meta, "comment") == Some(Str(Escaped(comments[above]))))
      && (above < 1 || above !in comments ==> At(meta, "comment") == Some(Str("")))
      && (!v.FclTable? && behind >= 1 && behind in comments ==>
            At(meta, "annotation") == Some(Str(Escaped(comments[behind]))))
      && (!v.FclTable? && (behind < 1 || behind !in comments) ==> At(meta, "annotation") == Some(Str("")))
      && (v.FclTable? ==> At(meta, "annotation") == None)
  {
    hide At, Count, FullMeta, PoundInclude, Contains;
    MetaLookup(key, v, comments, children);
    MetaField(key, v, comments, children, "annotation");
    FieldsDiffer();
    assert Escaped("") == "";
  }

  /** The characters that ask for quotes. */
  lemma QuoteCharacters(s: string)
    ensures NeedQuotes(s) <==>
      exists i :: 0 <= i < |s| && s[i] in {' ', '.', '%', '(', ')', '/', '-', '\\'}
  {
    var asking := " .%()/-\\";
    assert asking[0] == ' ' && asking[1] == '.' && asking[2] == '%' && asking[3] == '(' && asking[4] == ')'
      && asking[5] == '/' && asking[6] == '-' && asking[7] == '\\' && |asking| == 8;
    forall c: char
      ensures c in asking <==> c in {' ', '.', '%', '(', ')', '/', '-', '\\'}
    {
    }
  }

  // What is refused.

  /** A value with a key is taken when the key is not empty, the comment map is not empty, and
      its line is at least 1 - or the key holds the name of an include directive. */
  predicate Takable(key: string, info: Info, comments: Comments) {
    && key != "" && |comments| > 0
    && (info.line >= 1 || exists i :: 0 <= i <= |key| && "fhicl_pound_include_" <= key[i..])
  }

  /** The conversion throws unless this holds of the value and everything below it that is
      asked for. */
  predicate Convertible(key: string, v: FclValue, comments: Comments, opts: Options)
    decreases v, 1
  {
    && Takable(key, v.info, comments)
    && match v
       case Atom(_, _, _) => true
       case Sequence(elements, _) => ConvertibleElements(elements, comments, opts)
       case FclTable(members, _) => ConvertibleMembers(members, comments, opts)
  }

  predicate ConvertibleElements(elements: seq<FclValue>, comments: Comments, opts: Options)
    decreases elements, 0
  {
    elements != [] ==>
      var n := |elements| - 1;
      ConvertibleElements(elements[..n], comments, opts) && Convertible(Text.Decimal(n), elements[n], comments, opts)
  }

  predicate ConvertibleMembers(members: seq<FclMember>, comments: Comments, opts: Options)
    decreases members, 0
  {
    members != [] ==>
      var n := |members| - 1;
      ConvertibleMembers(members[..n], comments, opts)
      && (Asked(members[n].value.info, opts) ==> Convertible(members[n].key, members[n].value, comments, opts))
  }

  lemma TakableAccepted(key: string, info: Info, comments: Comments)
    ensures Takable(key, info, comments) <==> Accepted(key, info, comments)
  {
    assert INCLUDE + "_" == "fhicl_pound_include_";
    assert |comments| > 0 <==> comments != map[];
  }

  lemma {:induction false} Converts(key: string, v: FclValue, comments: Comments, opts: Options)
    ensures ToJson(key, v, comments, opts).Some? <==> Convertible(key, v, comments, opts)
    decreases v, 1
  {
    hide OwnMeta, Takable, Accepted;
    TakableAccepted(key, v.info, comments);
    match v
    case Atom(_, _, _) =>
    case Sequence(elements, _) => ElementsConvert(elements, comments, opts);
    case FclTable(members, _) => MembersConvert(members, comments, opts);
  }

  lemma {:induction false} ElementsConvert(elements: seq<FclValue>, comments: Comments, opts: Options)
    ensures ElementsToJson(elements, comments, opts).Some? <==> ConvertibleElements(elements, comments, opts)
    decreases elements, 0
  {
    hide ToJson, Convertible;
    if elements != [] {
      var n := |elements| - 1;
      ElementsConvert(elements[..n], comments, opts);
      Converts(Text.Decimal(n), elements[n], comments, opts);
    }
  }

  lemma {:induction false} MembersConvert(members: seq<FclMember>, comments: Comments, opts: Options)
    ensures MembersToJson(members, comments, opts).Some? <==> ConvertibleMembers(members, comments, opts)
    decreases members, 0
  {
    hide ToJson, Convertible;
    if members != [] {
      var n := |members| - 1;
      MembersConvert(members[..n], comments, opts);
      if Asked(members[n].value.info, opts) {
        Converts(members[n].key, members[n].value, comments, opts);
      }
    }
  }

  // The way back, for what does not come from FHiCL text.

  /** A key that starts with the name of an include directive becomes the directive, with its
      text in quotes, whatever its type. */
  lemma IncludeDirective(key: string, text: string, meta: Table, typeName: string)
    requires "fhicl_pound_include" <= key && At(meta, "type") == Some(Str(typeName))
    ensures ToAtom(key, Str(text), Object(meta)) ==
      Ok(AstAtom("#include", " ", AstItem(AstText(['"'] + text + ['"']), Some(""))))
  {
  }

  /** Numbers and booleans that JSON has as such stay what they are, under a key and inside a
      sequence; with another type they are refused under a key. */
  lemma TypedValues(n: int, d: real, flag: bool, meta: Table, metadata: Value, key: string)
    ensures ValueByType("number", Integer(n), meta) == Ok(AstInteger(n))
    ensures ValueByType("number", Value.Decimal(d), meta) == Ok(AstDecimal(d))
    ensures ValueByType("bool", Boolean(flag), meta) == Ok(AstBoolean(flag))
    ensures ValueByType("number", Boolean(flag), meta) == Failed && ValueByType("bool", Integer(n), meta) == Failed
    ensures ToItem(key, Integer(n), metadata) == Ok(AstItem(AstInteger(n), None))
    ensures ToItem(key, Value.Decimal(d), metadata) == Ok(AstItem(AstDecimal(d), None))
    ensures ToItem(key, Boolean(flag), metadata) == Ok(AstItem(AstBoolean(flag), None))
  {
    assert "number"[0] != "string"[0] && "bool"[0] != "number"[0];
  }

  /** A text typed as a string without a quotation is quoted on demand. */
  lemma StringText(text: string, meta: Table)
    ensures ValueByType("string", Str(text), meta) ==
      Ok(AstText(if NeedQuotes(Unescaped(text)) then ['"'] + Unescaped(text) + ['"'] else Unescaped(text)))
  {
    hide NeedQuotes, Unescaped;
    assert "string" != "string_unquoted" && "string" != "string_singlequoted" && "string" != "string_doublequoted";
  }

  /** A text typed as a table is such a string, and has no annotation. */
  lemma TextTypedAsTable(key: string, text: string, meta: Table, comment: string)
    requires !StartsWith(key, INCLUDE)
    requires At(meta, "type") == Some(Str("table")) && At(meta, "comment") == Some(Str(comment)) && Count(meta, "protection") == 0
    ensures ToAtom(key, Str(text), Object(meta)) ==
      Ok(AstAtom(key, if Contains(Unescaped(comment), "#include ") then "" else Unescaped(comment),
        AstItem(AstText(if NeedQuotes(Unescaped(text)) then ['"'] + Unescaped(text) + ['"'] else Unescaped(text)), None)))
  {
    hide NeedQuotes, Unescaped, Contains, StartsWith, At, Count, ValueByType;
    StringText(text, meta);
  }

  /** A protection of any text but "@none" becomes a suffix. */
  lemma ProtectionSuffix(key: string, meta: Table, protection: string)
    requires Count(meta, "protection") == 1 && At(meta, "protection") == Some(Str(protection))
    ensures AtomName(key, meta) == Ok(if protection == "@none" then key else key + " " + protection)
  {
  }

  /** A text inside a sequence: a number is what its escaped text stands for, without quotes,
      strings have the quotes of their type, every other type has quotes on demand. */
  lemma ItemTexts(key: string, text: string, meta: Table, typeName: string)
    requires At(meta, "type") == Some(Str(typeName))
    ensures var plain := Unescaped(text);
      ToItem(key, Str(text), Object(meta)) == Ok(AstItem(AstText(
        if typeName == "number" || typeName == "string_unquoted" then plain
        else if typeName == "string_singlequoted" then ['\''] + plain + ['\'']
        else if typeName == "string_doublequoted" then ['"'] + plain + ['"']
        else if NeedQuotes(plain) then ['"'] + plain + ['"'] else plain), None))
  {
    hide NeedQuotes, Unescaped, At;
    assert "number" != "string_unquoted" && "string_singlequoted"[7] != "string_doublequoted"[7];
  }

  /** A text under a key is unescaped for the four string types only. */
  lemma KeyedTexts(text: string, meta: Table)
    ensures ValueByType("number", Str(text), meta) == ValueByType("bool", Str(text), meta) == Ok(AstText(text))
    ensures ValueByType("nil", Str(text), meta) == ValueByType("complex", Str(text), meta)
         == ValueByType("tableid", Str(text), meta) == Ok(AstText(text))
    ensures ValueByType("string_unquoted", Str(text), meta) == Ok(AstText(Unescaped(text)))
    ensures ValueByType("string_singlequoted", Str(text), meta) == Ok(AstText(['\''] + Unescaped(text) + ['\'']))
    ensures ValueByType("string_doublequoted", Str(text), meta) == Ok(AstText(['"'] + Unescaped(text) + ['"']))
    ensures ValueByType("unknown", Str(text), meta) == Failed
  {
    hide Unescaped, NeedQuotes;
    assert "number"[0] == 'n' && "bool"[0] == 'b' && "nil"[0] == 'n' && "complex"[0] == 'c' && "tableid"[0] == 't' && "unknown"[0] == 'u';
    assert "string"[0] == 's' && "sequence"[0] == 's' && "string_unquoted"[0] == 's' && "table"[0] == 't';
    assert "string_singlequoted"[0] == 's' && "string_doublequoted"[0] == 's';
    assert "string_singlequoted"[7] == 's' && "string_doublequoted"[7] == 'd';
  }

  // The loops over children.

  function ItemOutcome(items: seq<Value>, children: Table, i: nat): Outcome<AstItem>
    requires i < |items|
  {
    if At(children, Text.Decimal(i)).None? then Missing
    else ToItem(Text.Decimal(i), items[i], At(children, Text.Decimal(i)).value)
  }

  function AtomOutcome(members: Table, children: Table, i: nat): Outcome<AstAtom>
    requires i < |members|
  {
    if At(children, members[i].key).None? then Missing
    else ToAtom(members[i].key, members[i].value, At(children, members[i].key).value)
  }

  /** The elements in front of the first one that is not converted are kept. When that one has
      no metadata, or lacks a field, the sequence ends there without an error; otherwise the
      conversion fails. */
  lemma {:induction false} ItemsCollected(items: seq<Value>, children: Table, k: nat)
    requires k <= |items| && forall i :: 0 <= i < k ==> ItemOutcome(items, children, i).Ok?
    requires k < |items| ==> !ItemOutcome(items, children, k).Ok?
    ensures var collected := CollectItems(items, children);
      && (collected.Broken? <==> k < |items| && ItemOutcome(items, children, k).Failed?)
      && (collected.Going? <==> k == |items|)
      && (!collected.Broken? ==>
            |collected.items| == k && forall i :: 0 <= i < k ==> Ok(collected.items[i]) == ItemOutcome(items, children, i))
    decreases |items|
  {
    hide ToItem, At, Text.Decimal;
    if items != [] {
      var n := |items| - 1;
      assert forall i :: 0 <= i < n ==> ItemOutcome(items[..n], children, i) == ItemOutcome(items, children, i);
      ItemsCollected(items[..n], children, if k <= n then k else n);
      assert CollectItems(items, children) == Step(CollectItems(items[..n], children), ItemOutcome(items, children, n));
      assert k < n ==> ItemOutcome(items[..n], children, k) == ItemOutcome(items, children, k);
    }
  }

  /** The same for the members of a table. */
  lemma {:induction false} AtomsCollected(members: Table, children: Table, k: nat)
    requires k <= |members| && forall i :: 0 <= i < k ==> AtomOutcome(members, children, i).Ok?
    requires k < |members| ==> !AtomOutcome(members, children, k).Ok?
    ensures var collected := CollectAtoms(members, children);
      && (collected.Broken? <==> k < |members| && AtomOutcome(members, children, k).Failed?)
      && (collected.Going? <==> k == |members|)
      && (!collected.Broken? ==>
            |collected.items| == k && forall i :: 0 <= i < k ==> Ok(collected.items[i]) == AtomOutcome(members, children, i))
    decreases |members|
  {
    hide ToAtom, At;
    if members != [] {
      var n := |members| - 1;
      assert forall i :: 0 <= i < n ==> AtomOutcome(members[..n], children, i) == AtomOutcome(members, children, i);
      AtomsCollected(members[..n], children, if k <= n then k else n);
      assert CollectAtoms(members, children) == Step(CollectAtoms(members[..n], children), AtomOutcome(members, children, n));
      assert k < n ==> AtomOutcome(members[..n], children, k) == AtomOutcome(members, children, k);
    }
  }

  /** What is in a sequence or a table then makes its value. */
  lemma TreesCollected(items: seq<Value>, members: Table, meta: Table, children: Table)
    requires At(meta, "children") == Some(Object(children))
    ensures ValueByType("sequence", Array(items), meta)
         == if CollectItems(items, children).Broken? then Failed else Ok(AstSequence(CollectItems(items, children).items))
    ensures ValueByType("table", Object(members), meta)
         == if CollectAtoms(members, children).Broken? then Failed else Ok(AstTable(CollectAtoms(members, children).items))
  {
    hide CollectItems, CollectAtoms, At;
    TreeDispatch(Array(items), meta, children);
    TreeDispatch(Object(members), meta, children);
  }

  /** Metadata without children makes both empty; metadata that is no object is refused. */
  lemma NoChildren(key: string, data: Value, items: seq<Value>, members: Table, meta: Table, metadata: Value)
    requires At(meta, "children") == None
    ensures ValueByType("sequence", Array(items), meta) == Ok(AstSequence([]))
    ensures ValueByType("table", Object(members), meta) == Ok(AstTable([]))
    ensures !metadata.Object? ==> ToAtom(key, data, metadata) == Failed
  {
    hide At;
    assert "sequence"[0] == 's' && "table"[0] == 't' && "string"[1] == 't' && "sequence"[1] == 'e';
    assert "number"[0] == 'n' && "bool"[0] == 'b' && "nil"[0] == 'n' && "complex"[0] == 'c' && "tableid"[5] == 'i';
  }
}
