/** Printing and reading a JSON tree are inverse to each other on exactly the trees whose
    strings the grammar can delimit. */
module JsonGrammarRoundTrip {
  import opened Json
  import opened Text
  import opened JsonGrammar
  import Escape

  // Strings.

  /** No bare quote, and no backslash at the end that would escape the closing quote. */
  predicate Closed(s: string) {
    if StartsWithEscape(s) then Closed(s[2..])
    else s == [] || (s[0] != '"' && s != "\\" && Closed(s[1..]))
  }

  /** A closed string is one whose closing quote the grammar finds where it was printed. */
  lemma {:induction false} ScanClosed(s: string, rest: string)
    ensures Closed(s) <==> Scan(s + "\"" + rest) == |s|
  {
    var t := s + "\"" + rest;
    if StartsWithEscape(s) {
      assert t[2..] == s[2..] + "\"" + rest;
      ScanClosed(s[2..], rest);
    } else if s == "\\" {
      assert StartsWithEscape(t);
    } else if s != [] && s[0] != '"' {
      assert t[1..] == s[1..] + "\"" + rest;
      ScanClosed(s[1..], rest);
    }
  }

  /** A closed string is read back from between its quotes. */
  lemma StringTrip(s: string, rest: string)
    requires Closed(s)
    ensures ParseString("\"" + s + "\"" + rest) == Some((s, rest))
  {
    var text := s + "\"" + rest;
    assert "\"" + s + "\"" + rest == "\"" + text;
    ScanClosed(s, rest);
    assert text[..|s|] == s && text[|s| + 1..] == rest;
  }

  /** Every string that was read is closed. */
  lemma ParsedStringClosed(s: string)
    ensures var r := ParseString(s); r.Some? ==> Closed(r.value.0)
  {
    var t := Lit('"', s);
    if t.Some? && Scan(t.value) < |t.value| {
      var n := Scan(t.value);
      assert t.value == t.value[..n] + "\"" + t.value[n + 1..];
      ScanClosed(t.value[..n], t.value[n + 1..]);
    }
  }

  lemma EscapedCharClosed(c: char, t: string)
    requires Closed(t)
    ensures Closed(Escape.EscapeChar(c) + t)
  {
    var e := Escape.EscapeChar(c);
    assert (e + t)[|e|..] == t;
  }

  lemma {:induction false} EscapedClosedBefore(s: string, t: string)
    requires Closed(t)
    ensures Closed(Escape.Escaped(s) + t)
    decreases |s|
  {
    hide Closed, Escape.EscapeChar;
    if s == [] {
      assert Escape.Escaped(s) + t == t;
    } else {
      var n := |s| - 1;
      var e := Escape.EscapeChar(s[n]);
      EscapedCharClosed(s[n], t);
      EscapedClosedBefore(s[..n], e + t);
      assert Escape.Escaped(s) + t == Escape.Escaped(s[..n]) + (e + t);
    }
  }

  /** The escape codec produces closed strings from all texts. */
  lemma EscapedIsClosed(s: string)
    ensures Closed(Escape.Escaped(s))
  {
    EscapedClosedBefore(s, "");
    assert Escape.Escaped(s) + "" == Escape.Escaped(s);
  }

  // Numbers.

  /** What may stand behind an integer: no further digit and no point. */
  predicate Stop(s: string) {
    (s == [] || !IsDigit(s[0])) && Lit('.', s).None?
  }

  lemma {:induction false} DigitsRead(p: string, rest: string)
    requires forall i :: 0 <= i < |p| ==> IsDigit(p[i])
    requires rest == [] || !IsDigit(rest[0])
    ensures Digits(p + rest) == p
  {
    if p == [] {
      assert p + rest == rest;
    } else {
      assert (p + rest)[1..] == p[1..] + rest;
      DigitsRead(p[1..], rest);
    }
  }

  lemma LongTrip(n: int, rest: string)
    requires MIN_LONG <= n <= MAX_LONG && (rest == [] || !IsDigit(rest[0]))
    ensures ParseLong(PrintInteger(n) + rest) == Some((n, rest))
  {
    hide DigitsValue, Text.Decimal, Digits;
    var m: nat := if n < 0 then -n else n;
    var p := Text.Decimal(m);
    var t := p + rest;
    DigitsRead(p, rest);
    DecimalValue(m);
    assert IsDigit(p[0]);
    assert t[|p|..] == rest;
    var s := PrintInteger(n) + rest;
    if n < 0 {
      assert s == "-" + t;
      assert TrimStart(s) == s && s[1..] == t;
    } else {
      assert s == t && s[0] == p[0] && TrimStart(s) == s;
    }
  }

  lemma IntegerTrip(n: int, rest: string)
    requires MIN_LONG <= n <= MAX_LONG && Stop(rest)
    ensures ParseNumber(PrintInteger(n) + rest) == Some((Integer(n), rest))
  {
    LongTrip(n, rest);
    hide ParseLong, ParseDouble, PrintInteger;
  }

  // Values.

  /** The strings are closed and the integers have 64 bits. */
  predicate Readable(v: Value) {
    match v
    case Object(members) => forall i :: 0 <= i < |members| ==> Closed(members[i].key) && Readable(members[i].value)
    case Array(items) => forall i :: 0 <= i < |items| ==> Readable(items[i])
    case Str(s) => Closed(s)
    case Integer(n) => MIN_LONG <= n <= MAX_LONG
    case _ => true
  }

  predicate ReadableMembers(t: Table) {
    forall i :: 0 <= i < |t| ==> Closed(t[i].key) && Readable(t[i].value)
  }

  predicate ReadableItems(items: seq<Value>) {
    forall i :: 0 <= i < |items| ==> Readable(items[i])
  }

  /** The first character decides the ordered choice. */
  lemma Choice(s: string)
    requires s != [] && !IsSpace(s[0])
    ensures ParseValue(s) ==
      if s[0] == '{' then
        var r := ParseObject(s);
        if r.Some? then Some((Object(r.value.0), r.value.1)) else None
      else if s[0] == '[' then
        var r := ParseArray(s);
        if r.Some? then Some((Array(r.value.0), r.value.1)) else None
      else if s[0] == '"' then
        var r := ParseString(s);
        if r.Some? then Some((Str(r.value.0), r.value.1)) else None
      else if s[0] == 't' || s[0] == 'f' then ParseBool(s)
      else ParseNumber(s)
  {
    if s[0] in "{[\"tf" {
      NoNumber(s);
    }
    FirstCharacter(s);
    hide ParseObject, ParseArray, ParseString, ParseNumber, ParseBool, IsSpace;
  }

  lemma FirstCharacter(s: string)
    requires s != [] && !IsSpace(s[0])
    ensures ParseObject(s).Some? ==> s[0] == '{'
    ensures ParseArray(s).Some? ==> s[0] == '['
    ensures ParseString(s).Some? ==> s[0] == '"'
    ensures ParseBool(s).Some? ==> s[0] == 't' || s[0] == 'f'
  {
    hide ParseMembers, ParseItems, Scan;
  }

  lemma NoNumber(s: string)
    requires s != [] && !IsSpace(s[0]) && s[0] in "{[\"tf"
    ensures ParseNumber(s).None?
  {
    hide DigitsValue, PowerOfTen;
    assert TrimStart(s) == s && Sign(s) == (false, s);
    assert !IsDigit(s[0]) && Digits(s) == [];
    assert s[0..] == s;
  }

  lemma SkipLit(c: char, s: string)
    requires IsSpace(c)
    ensures TrimStart([c] + s) == TrimStart(s)
    ensures forall q :: Lit(q, [c] + s) == Lit(q, s)
  {
    assert ([c] + s)[1..] == s;
  }

  lemma SkipNumber(c: char, s: string)
    requires IsSpace(c)
    ensures ParseLong([c] + s) == ParseLong(s)
    ensures ParseDouble([c] + s) == ParseDouble(s)
  {
    SkipLit(c, s);
    hide Lit, TrimStart, LongHere, DoubleHere;
  }

  lemma SkipWord(c: char, s: string)
    requires IsSpace(c)
    ensures ParseNumber([c] + s) == ParseNumber(s)
    ensures ParseBool([c] + s) == ParseBool(s)
  {
    SkipLit(c, s);
    SkipNumber(c, s);
    assert Word("true", [c] + s) == Word("true", s) && Word("false", [c] + s) == Word("false", s);
    hide Lit, TrimStart, IsSpace, ParseLong, ParseDouble, Word;
  }

  lemma SkipStructure(c: char, s: string)
    requires IsSpace(c)
    ensures ParseString([c] + s) == ParseString(s)
    ensures ParseObject([c] + s) == ParseObject(s)
    ensures ParseArray([c] + s) == ParseArray(s)
  {
    SkipLit(c, s);
    hide Lit, TrimStart, IsSpace, Scan, ParseMembers, ParseItems;
  }

  /** White space in front of a value is skipped. */
  lemma SkipSpace(c: char, s: string)
    requires IsSpace(c)
    ensures TrimStart([c] + s) == TrimStart(s)
    ensures forall q :: Lit(q, [c] + s) == Lit(q, s)
    ensures ParseString([c] + s) == ParseString(s)
    ensures ParseValue([c] + s) == ParseValue(s)
  {
    SkipLit(c, s);
    SkipWord(c, s);
    SkipStructure(c, s);
    hide Lit, TrimStart, IsSpace, ParseString, ParseObject, ParseArray, ParseNumber, ParseBool;
  }

  lemma LitHere(q: char, s: string)
    requires !IsSpace(q)
    ensures Lit(q, [q] + s) == Some(s)
  {
    assert ([q] + s)[1..] == s;
  }

  lemma StopAt(s: string)
    requires s != [] && !IsSpace(s[0]) && !IsDigit(s[0]) && s[0] != '.'
    ensures Stop(s) && Stop("\n" + s)
  {
    SkipSpace('\n', s);
    assert "\n" + s == ['\n'] + s;
  }

  lemma PrintedStart(v: Value)
    requires NoDecimals(v)
    ensures PrintValue(v) != [] && !IsSpace(PrintValue(v)[0])
  {
    hide Text.Decimal;
  }

  lemma ScalarTrip(v: Value, rest: string)
    requires NoDecimals(v) && Readable(v) && Stop(rest) && v.Scalar()
    ensures ParseValue(PrintValue(v) + rest) == Some((v, rest))
  {
    hide Text.Decimal, ParseNumber, ParseString;
    var s := PrintValue(v) + rest;
    PrintedStart(v);
    Choice(s);
    match v
    case Str(t) => StringTrip(t, rest);
    case Integer(n) => IntegerTrip(n, rest);
    case Boolean(b) =>
      assert TrimStart(s) == s && s[|PrintValue(v)|..] == rest;
      assert b ==> "true" <= s;
      assert !b ==> s[0] == 'f' && "false" <= s;
  }

  lemma {:induction false} ValueTrip(v: Value, rest: string)
    requires NoDecimals(v) && Readable(v) && Stop(rest)
    ensures ParseValue(PrintValue(v) + rest) == Some((v, rest))
    decreases v, 1
  {
    hide ParseNumber, ParseString, ParseMembers, ParseItems, PrintMembers, PrintItems;
    match v
    case Object(members) =>
      ObjectTrip(members, rest);
      Choice(PrintValue(v) + rest);
    case Array(items) =>
      var tail := "\n]" + rest;
      ItemsTrip(items, rest);
      var s := PrintValue(v) + rest;
      assert s == "[" + ("\n" + PrintItems(items) + tail);
      LitHere('[', "\n" + PrintItems(items) + tail);
      Choice(s);
    case _ => ScalarTrip(v, rest);
  }

  /** The text of an object is read up to its closing brace, whatever stands behind it. */
  lemma {:induction false} ObjectTrip(t: Table, rest: string)
    requires NoDecimalMembers(t) && ReadableMembers(t)
    ensures ParseObject(PrintObject(t) + rest) == Some((t, rest))
    decreases t, 1
  {
    hide ParseMembers, PrintMembers;
    var body := "\n" + PrintMembers(t) + ("\n}" + rest);
    MembersTrip(t, rest);
    assert PrintObject(t) + rest == "{" + body;
    LitHere('{', body);
  }

  lemma {:induction false} MemberTrip(m: Member, rest: string)
    requires NoDecimals(m.value) && Closed(m.key) && Readable(m.value) && Stop(rest)
    ensures ParseMember("\n" + PrintMember(m) + rest) == Some((m, rest))
    decreases m, 2
  {
    hide ParseString, ParseValue, PrintValue;
    var value := PrintValue(m.value) + rest;
    var text := "\"" + m.key + "\"" + (" : " + value);
    assert "\n" + PrintMember(m) + rest == ['\n'] + text;
    SkipSpace('\n', text);
    StringTrip(m.key, " : " + value);
    assert " : " + value == [' '] + ([':'] + ([' '] + value));
    SkipSpace(' ', [':'] + ([' '] + value));
    LitHere(':', [' '] + value);
    SkipSpace(' ', value);
    ValueTrip(m.value, rest);
  }

  /** The members of an object are read up to its closing brace. */
  lemma {:induction false} MembersTrip(t: Table, rest: string)
    requires NoDecimalMembers(t) && ReadableMembers(t)
    ensures var (members, u) := ParseMembers("\n" + PrintMembers(t) + ("\n}" + rest));
      members == t && Lit('}', u) == Some(rest)
    decreases t, 0
  {
    hide ParseMember, PrintMember, ParseString, ParseMembers, TrimStart, Lit;
    var tail := "\n}" + rest;
    Closing('}', rest);
    var s := "\n" + PrintMembers(t) + tail;
    if t == [] {
      assert s == ['\n'] + tail;
      SkipSpace('\n', tail);
      NoMember(s);
    } else if |t| == 1 {
      MemberTrip(t[0], tail);
      assert s == "\n" + PrintMember(t[0]) + tail;
      MembersStep(s);
    } else {
      var next := "\n" + PrintMembers(t[1..]) + tail;
      assert s == "\n" + PrintMember(t[0]) + ("," + next);
      Comma(next);
      MemberTrip(t[0], "," + next);
      MembersTrip(t[1..], rest);
      MembersStep(s);
    }
  }

  /** A list ends in front of its closing bracket. */
  lemma Closing(q: char, rest: string)
    requires q == '}' || q == ']'
    ensures var tail := ['\n', q] + rest;
      && Lit(q, tail) == Some(rest) && Lit(',', tail).None? && Stop(tail)
      && TrimStart(tail) == [q] + rest
  {
    var close := [q] + rest;
    assert ['\n', q] + rest == ['\n'] + close;
    SkipLit('\n', close);
    LitHere(q, rest);
    assert TrimStart(close) == close;
  }

  lemma Comma(next: string)
    ensures Stop("," + next) && Lit(',', "," + next) == Some(next)
  {
    LitHere(',', next);
    StopAt("," + next);
  }

  lemma MembersStep(s: string)
    requires ParseMember(s).Some?
    ensures var (m, u) := ParseMember(s).value;
      && (Lit(',', u).None? ==> ParseMembers(s) == ([m], u))
      && (Lit(',', u).Some? ==>
            var more := ParseMembers(Lit(',', u).value);
            more.0 != [] ==> ParseMembers(s) == ([m] + more.0, more.1))
  {
    hide ParseMember, Lit;
  }

  lemma ItemsStep(s: string)
    requires ParseValue(s).Some?
    ensures var (v, u) := ParseValue(s).value;
      && (Lit(',', u).None? ==> ParseItems(s) == ([v], u))
      && (Lit(',', u).Some? ==>
            var more := ParseItems(Lit(',', u).value);
            more.0 != [] ==> ParseItems(s) == ([v] + more.0, more.1))
  {
    hide ParseValue, Lit;
  }

  lemma NoMember(s: string)
    requires TrimStart(s) != [] && TrimStart(s)[0] != '"'
    ensures ParseMember(s).None? && ParseMembers(s) == ([], s)
  {
  }

  /** The elements of a list are read up to its closing bracket. */
  lemma {:induction false} ItemsTrip(items: seq<Value>, rest: string)
    requires NoDecimalItems(items) && ReadableItems(items)
    ensures var (read, u) := ParseItems("\n" + PrintItems(items) + ("\n]" + rest));
      read == items && Lit(']', u) == Some(rest)
    decreases items, 0
  {
    hide ParseValue, PrintValue, ParseItems, TrimStart, Lit;
    var tail := "\n]" + rest;
    Closing(']', rest);
    var s := "\n" + PrintItems(items) + tail;
    if items == [] {
      assert s == ['\n'] + tail;
      SkipSpace('\n', tail);
      assert tail == ['\n'] + ("]" + rest);
      SkipSpace('\n', "]" + rest);
      NoValue(s, "]" + rest);
    } else if |items| == 1 {
      var text := PrintValue(items[0]) + tail;
      assert s == ['\n'] + text;
      SkipSpace('\n', text);
      ValueTrip(items[0], tail);
      ItemsStep(s);
    } else {
      var next := "\n" + PrintItems(items[1..]) + tail;
      var text := PrintValue(items[0]) + ("," + next);
      assert s == ['\n'] + text;
      SkipSpace('\n', text);
      Comma(next);
      ValueTrip(items[0], "," + next);
      ItemsTrip(items[1..], rest);
      ItemsStep(s);
    }
  }

  lemma NoValue(s: string, close: string)
    requires close != [] && close[0] == ']' && ParseValue(s) == ParseValue(close)
    ensures ParseItems(s) == ([], s)
  {
    hide DigitsValue, PowerOfTen;
    Choice(close);
    assert TrimStart(close) == close && Sign(close) == (false, close);
    assert Digits(close) == [] && close[0..] == close;
  }

  /** Whatever was read has closed strings and 64-bit integers, at every depth. */
  lemma {:induction false} ParsedReadable(s: string)
    ensures ParseValue(s).Some? ==> Readable(ParseValue(s).value.0)
    decreases |s|, 2
  {
    hide ParseObject, ParseArray, ParseString, ParseNumber, ParseBool, Closed;
    ParsedObjectReadable(s);
    ParsedArrayReadable(s);
    ParsedStringClosed(s);
  }

  lemma {:induction false} ParsedObjectReadable(s: string)
    ensures ParseObject(s).Some? ==> ReadableMembers(ParseObject(s).value.0)
    decreases |s|, 1
  {
    hide ParseMembers, Closed, Readable;
    var t := Lit('{', s);
    if t.Some? {
      ParsedMembersReadable(t.value);
    }
  }

  lemma {:induction false} ParsedMembersReadable(s: string)
    ensures ReadableMembers(ParseMembers(s).0)
    decreases |s|, 1
  {
    hide ParseValue, ParseString, Closed, Readable, Lit;
    var first := ParseMember(s);
    if first.Some? {
      ParsedStringClosed(s);
      var u := Lit(':', ParseString(s).value.1);
      ParsedReadable(u.value);
      var comma := Lit(',', first.value.1);
      if comma.Some? {
        ParsedMembersReadable(comma.value);
      }
    }
  }

  lemma {:induction false} ParsedArrayReadable(s: string)
    ensures ParseArray(s).Some? ==> ReadableItems(ParseArray(s).value.0)
    decreases |s|, 1
  {
    hide ParseItems, Closed, Readable;
    var t := Lit('[', s);
    if t.Some? {
      ParsedItemsReadable(t.value);
    }
  }

  lemma {:induction false} ParsedItemsReadable(s: string)
    ensures ReadableItems(ParseItems(s).0)
    decreases |s|, 3
  {
    hide ParseValue, Closed, Readable, Lit;
    ParsedReadable(s);
    var first := ParseValue(s);
    if first.Some? {
      var comma := Lit(',', first.value.1);
      if comma.Some? {
        ParsedItemsReadable(comma.value);
      }
    }
  }

  // The laws.

  /** What is written is read back, if and only if its strings are closed and its integers
      have 64 bits; what follows the document makes no difference. */
  lemma WriteRead(t: Table, rest: string)
    requires t != [] && NoDecimalMembers(t)
    ensures Read(Write(t).value + rest) == Some(t) <==> ReadableMembers(t)
  {
    hide ParseObject, PrintMembers, Closed, Readable, NoDecimals;
    var s := Write(t).value + rest;
    ParsedObjectReadable(s);
    if ReadableMembers(t) {
      ObjectTrip(t, rest);
    }
  }

  /** Every document that was read can be written and read again. */
  lemma ReadWriteRead(s: string)
    ensures var r := Read(s);
      r.Some? && r.value != [] && NoDecimalMembers(r.value) ==> Read(Write(r.value).value) == r
  {
    hide ParseObject, PrintObject, Closed, Readable, NoDecimals;
    ParsedObjectReadable(s);
    var r := Read(s);
    if r.Some? && r.value != [] && NoDecimalMembers(r.value) {
      WriteRead(r.value, "");
      assert PrintObject(r.value) + "" == PrintObject(r.value);
    }
  }

  /** Different documents that can be read back are written as different texts, and neither
      text starts the other. */
  lemma WriteInjective(t: Table, u: Table)
    requires t != [] && NoDecimalMembers(t) && ReadableMembers(t)
    requires u != [] && NoDecimalMembers(u) && ReadableMembers(u)
    ensures Write(t).value <= Write(u).value ==> t == u
  {
    hide ParseObject, PrintObject, Closed, Readable, NoDecimals;
    var a, b := Write(t).value, Write(u).value;
    if a <= b {
      WriteRead(t, b[|a|..]);
      WriteRead(u, "");
      assert b + "" == b && a + b[|a|..] == b;
    }
  }

  // Strings of complete escapes, for which it makes no difference what the parser library
  // does with a backslash that starts no escape.

  /** Every backslash starts a complete escape, and there is no bare quote. */
  predicate Complete(s: string) {
    || s == []
    || (StartsWithEscape(s) && Complete(s[2..]))
    || (s[0] != '"' && s[0] != '\\' && Complete(s[1..]))
  }

  lemma {:induction false} CompleteClosed(s: string)
    requires Complete(s)
    ensures Closed(s)
  {
    if StartsWithEscape(s) {
      CompleteClosed(s[2..]);
    } else if s != [] {
      CompleteClosed(s[1..]);
    }
  }

  lemma EscapedCharComplete(c: char, t: string)
    requires Complete(t)
    ensures Complete(Escape.EscapeChar(c) + t)
  {
    var e := Escape.EscapeChar(c);
    assert (e + t)[|e|..] == t;
  }

  lemma {:induction false} EscapedComplete(s: string, t: string)
    requires Complete(t)
    ensures Complete(Escape.Escaped(s) + t)
    decreases |s|
  {
    hide Complete, Escape.EscapeChar;
    if s == [] {
      assert Escape.Escaped(s) + t == t;
    } else {
      var n := |s| - 1;
      var e := Escape.EscapeChar(s[n]);
      EscapedCharComplete(s[n], t);
      EscapedComplete(s[..n], e + t);
      assert Escape.Escaped(s) + t == Escape.Escaped(s[..n]) + (e + t);
    }
  }

  predicate CompleteValue(v: Value) {
    match v
    case Object(members) => forall i :: 0 <= i < |members| ==> Complete(members[i].key) && CompleteValue(members[i].value)
    case Array(items) => forall i :: 0 <= i < |items| ==> CompleteValue(items[i])
    case Str(s) => Complete(s)
    case Integer(n) => MIN_LONG <= n <= MAX_LONG
    case _ => true
  }

  lemma {:induction false} CompleteReadable(v: Value)
    requires CompleteValue(v)
    ensures Readable(v)
  {
    match v
    case Object(members) =>
      forall i | 0 <= i < |members|
        ensures Closed(members[i].key) && Readable(members[i].value)
      {
        CompleteClosed(members[i].key);
        CompleteReadable(members[i].value);
      }
    case Array(items) =>
      forall i | 0 <= i < |items|
        ensures Readable(items[i])
      {
        CompleteReadable(items[i]);
      }
    case Str(s) => CompleteClosed(s);
    case _ =>
  }

  /** A non-empty document whose strings have only complete escapes and no bare quote is read
      back from its printed form. */
  lemma CompleteWriteRead(t: Table, rest: string)
    requires t != [] && NoDecimalMembers(t) && CompleteValue(Object(t))
    ensures Read(Write(t).value + rest) == Some(t)
  {
    hide Complete, Closed, Readable, CompleteValue, Read, Write;
    CompleteReadable(Object(t));
    ReadableObject(t);
    WriteRead(t, rest);
  }

  lemma ReadableObject(t: Table)
    ensures Readable(Object(t)) <==> ReadableMembers(t)
  {
  }

  // Numbers.

  /** A sign and digits that stand for a 64-bit integer. */
  predicate Spells(negative: bool, sign: string, p: string, n: int) {
    && sign in (if negative then {"-"} else {"", "+"})
    && p != [] && (forall i :: 0 <= i < |p| ==> IsDigit(p[i]))
    && n == (if negative then -(DigitsValue(p) as int) else DigitsValue(p))
    && -9_223_372_036_854_775_808 <= n <= 9_223_372_036_854_775_807
  }

  /** A number is read as an integer exactly when, behind white space, it is spelled by an
      optional sign and all the digits there are, and no point follows. */
  lemma IntegerExactly(s: string, n: int, rest: string)
    ensures ParseNumber(s) == Some((Integer(n), rest)) <==>
      && Stop(rest)
      && exists negative: bool, sign: string, p: string ::
           Spells(negative, sign, p, n) && TrimStart(s) == sign + p + rest
  {
    hide Spells, ParseNumber, Stop, TrimStart;
    if ParseNumber(s) == Some((Integer(n), rest)) {
      var negative, sign, p := IntegerSpelling(s, n, rest);
    }
    if Stop(rest) && exists negative: bool, sign: string, p: string ::
         Spells(negative, sign, p, n) && TrimStart(s) == sign + p + rest {
      var negative: bool, sign: string, p: string :| Spells(negative, sign, p, n) && TrimStart(s) == sign + p + rest;
      IntegerRead(s, negative, sign, p, n, rest);
    }
  }

  lemma IntegerSpelling(s: string, n: int, rest: string) returns (negative: bool, sign: string, p: string)
    requires ParseNumber(s) == Some((Integer(n), rest))
    ensures Stop(rest) && Spells(negative, sign, p, n) && TrimStart(s) == sign + p + rest
  {
    hide DigitsValue, ParseDouble, Digits, TrimStart;
    var t := TrimStart(s);
    var u;
    negative, u := Sign(t).0, Sign(t).1;
    p := Digits(u);
    sign := if u == t then "" else [t[0]];
    assert t == sign + u && u == p + rest;
    assert t == sign + p + rest;
  }

  lemma IntegerRead(s: string, negative: bool, sign: string, p: string, n: int, rest: string)
    requires Stop(rest) && Spells(negative, sign, p, n) && TrimStart(s) == sign + p + rest
    ensures ParseNumber(s) == Some((Integer(n), rest))
  {
    SpelledLong(s, negative, sign, p, n, rest);
    hide ParseLong, ParseDouble, Spells, TrimStart;
  }

  lemma SpelledLong(s: string, negative: bool, sign: string, p: string, n: int, rest: string)
    requires Spells(negative, sign, p, n) && TrimStart(s) == sign + p + rest && (rest == [] || !IsDigit(rest[0]))
    ensures ParseLong(s) == Some((n, rest))
  {
    hide DigitsValue, Digits, TrimStart;
    var t, u := TrimStart(s), p + rest;
    DigitsRead(p, rest);
    assert t == sign + u;
    assert IsDigit(u[0]);
    if sign == "" {
      assert t == u;
    } else {
      assert t[1..] == u;
    }
    assert Sign(t) == (negative, u);
    assert u[|p|..] == rest;
  }

  /** An optional exponent: a letter, an optional sign and digits. */
  datatype Exponent = NoExponent | Exponent(letter: char, negative: bool, sign: string, digits: string) {
    predicate Spelled() {
      Exponent? ==>
        && (letter == 'e' || letter == 'E') && sign in (if negative then {"-"} else {"", "+"})
        && digits != [] && forall i :: 0 <= i < |digits| ==> IsDigit(digits[i])
    }

    function Text(): string {
      if NoExponent? then "" else [letter] + sign + digits
    }

    /** What may stand behind. */
    predicate Ends(rest: string) {
      rest == [] || (!IsDigit(rest[0]) && (NoExponent? ==> rest[0] != 'e' && rest[0] != 'E'))
    }
  }

  /** What is read as a double: a sign, digits, a point, more digits, an exponent. */
  function Spelling(sign: string, whole: string, fraction: string, e: Exponent): string {
    sign + whole + "." + fraction + e.Text()
  }

  predicate SpelledDouble(negative: bool, sign: string, whole: string, fraction: string, e: Exponent) {
    && sign in (if negative then {"-"} else {"", "+"}) && whole + fraction != [] && e.Spelled()
    && (forall i :: 0 <= i < |whole| ==> IsDigit(whole[i])) && forall i :: 0 <= i < |fraction| ==> IsDigit(fraction[i])
  }

  /** The value has all digits in front of its point when it is multiplied by ten for every
      digit of the fraction and the exponent is taken back. */
  predicate HasValue(v: real, negative: bool, whole: string, fraction: string, e: Exponent)
    requires forall i :: 0 <= i < |whole + fraction| ==> IsDigit((whole + fraction)[i])
    requires e.Spelled()
  {
    var all := DigitsValue(whole + fraction) as real;
    var signed := if negative then -all else all;
    match e
    case NoExponent => v * PowerOfTen(|fraction|) == signed
    case Exponent(_, true, _, digits) => v * PowerOfTen(DigitsValue(digits)) * PowerOfTen(|fraction|) == signed
    case Exponent(_, false, _, digits) => v * PowerOfTen(|fraction|) == signed * PowerOfTen(DigitsValue(digits))
  }

  lemma SignRead(negative: bool, sign: string, t: string)
    requires sign in (if negative then {"-"} else {"", "+"})
    requires t != [] && t[0] != '-' && t[0] != '+'
    ensures Sign(sign + t) == (negative, t)
  {
    if sign == "" {
      assert sign + t == t;
    } else {
      assert (sign + t)[1..] == t;
    }
  }

  /** What the value is computed as. */
  function Computed(negative: bool, whole: string, fraction: string, e: Exponent): real
    requires forall i :: 0 <= i < |whole + fraction| ==> IsDigit((whole + fraction)[i])
    requires e.Spelled()
  {
    var mantissa := DigitsValue(whole + fraction) as real / PowerOfTen(|fraction|);
    var signed := if negative then -mantissa else mantissa;
    if e.NoExponent? then signed
    else
      var scale := PowerOfTen(DigitsValue(e.digits));
      if e.negative then signed / scale else signed * scale
  }

  lemma ComputedValue(negative: bool, whole: string, fraction: string, e: Exponent)
    requires forall i :: 0 <= i < |whole + fraction| ==> IsDigit((whole + fraction)[i])
    requires e.Spelled()
    ensures HasValue(Computed(negative, whole, fraction, e), negative, whole, fraction, e)
  {
    hide DigitsValue, PowerOfTen;
    var all, power := DigitsValue(whole + fraction) as real, PowerOfTen(|fraction|);
    var mantissa := all / power;
    assert mantissa * power == all;
    var signed := if negative then -mantissa else mantissa;
    var signedAll := if negative then -all else all;
    assert signed * power == signedAll;
    if e.Exponent? {
      var scale := PowerOfTen(DigitsValue(e.digits));
      Scaled(signed, scale, power);
    }
  }

  lemma Scaled(x: real, scale: real, power: real)
    requires scale > 0.0
    ensures x / scale * scale * power == x * power && x * scale * power == x * power * scale
  {
    assert x / scale * scale == x;
  }

  lemma MantissaParts(negative: bool, sign: string, whole: string, fraction: string, behind: string)
    requires sign in (if negative then {"-"} else {"", "+"})
    requires (forall i :: 0 <= i < |whole| ==> IsDigit(whole[i])) && forall i :: 0 <= i < |fraction| ==> IsDigit(fraction[i])
    requires behind == [] || !IsDigit(behind[0])
    ensures var point := "." + (fraction + behind);
      && Sign(sign + (whole + point)) == (negative, whole + point)
      && Digits(whole + point) == whole && (whole + point)[|whole|..] == point
      && Digits(point[1..]) == fraction && point[1 + |fraction|..] == behind
  {
    hide Digits, Sign;
    var point := "." + (fraction + behind);
    SignRead(negative, sign, whole + point);
    DigitsRead(whole, point);
    assert point[1..] == fraction + behind;
    DigitsRead(fraction, behind);
  }

  lemma ExponentParts(e: Exponent, rest: string)
    requires e.Spelled() && e.Exponent? && (rest == [] || !IsDigit(rest[0]))
    ensures var behind, u := e.Text() + rest, e.digits + rest;
      && behind != [] && behind[0] == e.letter && Sign(behind[1..]) == (e.negative, u)
      && Digits(u) == e.digits && u[|e.digits|..] == rest
  {
    hide Digits;
    var behind, u := e.Text() + rest, e.digits + rest;
    assert behind[1..] == e.sign + u;
    SignRead(e.negative, e.sign, u);
    DigitsRead(e.digits, rest);
  }

  lemma NoDigits()
    ensures Digits([]) == []
  {
  }

  /** The reader's steps, with what each of them finds. */
  lemma DoubleSteps(s: string, negative: bool, t: string, whole: string, point: string, fraction: string, behind: string,
                    e: Exponent, u: string, rest: string)
    requires Sign(s) == (negative, t) && Digits(t) == whole && t[|whole|..] == point && point != [] && point[0] == '.'
    requires Digits(point[1..]) == fraction && point[1 + |fraction|..] == behind && (whole != [] || fraction != [])
    requires forall i :: 0 <= i < |whole + fraction| ==> IsDigit((whole + fraction)[i])
    requires e.Spelled() && e.Ends(rest)
    requires e.NoExponent? ==> behind == rest
    requires e.Exponent? ==>
      && behind != [] && behind[0] == e.letter && Sign(behind[1..]) == (e.negative, u)
      && Digits(u) == e.digits && u[|e.digits|..] == rest
    ensures DoubleHere(s) == Some((Computed(negative, whole, fraction, e), rest))
  {
    hide DigitsValue, Digits, PowerOfTen, Sign;
    NoDigits();
    var afterWhole := t[|whole|..];
    var dot := afterWhole != [] && afterWhole[0] == '.';
    var afterMantissa := if dot then afterWhole[1 + |fraction|..] else afterWhole;
    assert afterMantissa == behind;
    var ee := afterMantissa != [] && (afterMantissa[0] == 'e' || afterMantissa[0] == 'E');
    assert ee == e.Exponent?;
    var (small, v) := if ee then Sign(afterMantissa[1..]) else (false, []);
    assert e.Exponent? ==> Digits(v) == e.digits;
    assert e.NoExponent? ==> Digits(v) == [];
    assert whole + fraction != [];
    assert DoubleHere(s).Some?;
    assert DoubleHere(s).value.1 == rest;
    assert e.NoExponent? ==> DoubleHere(s).value.0 == Computed(negative, whole, fraction, e);
    assert e.Exponent? ==> DoubleHere(s).value.0 == Computed(negative, whole, fraction, e);
  }

  lemma Reassociated(sign: string, whole: string, fraction: string, e: Exponent, rest: string)
    ensures Spelling(sign, whole, fraction, e) + rest == sign + (whole + ("." + (fraction + (e.Text() + rest))))
  {
    var a, b, c, d := sign + whole, ".", fraction, e.Text();
    assert a + b + c + d + rest == a + (b + (c + (d + rest)));
  }

  lemma DoubleRead(negative: bool, sign: string, whole: string, fraction: string, e: Exponent, rest: string)
    requires SpelledDouble(negative, sign, whole, fraction, e) && e.Ends(rest)
    ensures forall i :: 0 <= i < |whole + fraction| ==> IsDigit((whole + fraction)[i])
    ensures DoubleHere(Spelling(sign, whole, fraction, e) + rest) == Some((Computed(negative, whole, fraction, e), rest))
  {
    hide DoubleHere, Computed, Digits, Sign, Spelling, Exponent.Text;
    Reassociated(sign, whole, fraction, e, rest);
    var behind := e.Text() + rest;
    var point := "." + (fraction + behind);
    BehindStarts(e, rest);
    MantissaParts(negative, sign, whole, fraction, behind);
    var u := if e.Exponent? then e.digits + rest else "";
    if e.Exponent? {
      ExponentParts(e, rest);
    }
    DoubleSteps(sign + (whole + point), negative, whole + point, whole, point, fraction, behind, e, u, rest);
  }

  lemma BehindStarts(e: Exponent, rest: string)
    requires e.Spelled() && e.Ends(rest)
    ensures var behind := e.Text() + rest;
      (behind == [] || !IsDigit(behind[0])) && (e.NoExponent? ==> behind == rest)
  {
  }

  /** Digits with a point behind them are no integer. */
  lemma NoIntegerAtPoint(s: string, negative: bool, sign: string, whole: string, behind: string)
    requires sign in (if negative then {"-"} else {"", "+"})
    requires forall i :: 0 <= i < |whole| ==> IsDigit(whole[i])
    requires TrimStart(s) == sign + (whole + ("." + behind))
    ensures ParseLong(s).Some? ==> Lit('.', ParseLong(s).value.1).Some?
  {
    hide DigitsValue, Digits;
    var point := "." + behind;
    SignRead(negative, sign, whole + point);
    DigitsRead(whole, point);
    assert (whole + point)[|whole|..] == point;
    LitHere('.', behind);
  }

  /** A number with a point in it is read as a decimal, with the value that it spells. */
  lemma DecimalSpelled(s: string, negative: bool, sign: string, whole: string, fraction: string, e: Exponent, rest: string)
    returns (v: real)
    requires SpelledDouble(negative, sign, whole, fraction, e) && e.Ends(rest)
    requires TrimStart(s) == Spelling(sign, whole, fraction, e) + rest
    ensures forall i :: 0 <= i < |whole + fraction| ==> IsDigit((whole + fraction)[i])
    ensures ParseNumber(s) == Some((Value.Decimal(v), rest)) && HasValue(v, negative, whole, fraction, e)
  {
    hide Digits, TrimStart, DoubleHere, ParseLong, ParseNumber, Lit, HasValue, Computed, Spelling, Exponent.Text;
    DoubleRead(negative, sign, whole, fraction, e, rest);
    Reassociated(sign, whole, fraction, e, rest);
    NoIntegerAtPoint(s, negative, sign, whole, fraction + (e.Text() + rest));
    ComputedValue(negative, whole, fraction, e);
    v := Computed(negative, whole, fraction, e);
    ReadAsDouble(s);
  }

  lemma ReadAsDouble(s: string)
    requires ParseLong(s).Some? ==> Lit('.', ParseLong(s).value.1).Some?
    requires DoubleHere(TrimStart(s)).Some?
    ensures var double := DoubleHere(TrimStart(s)).value;
      ParseNumber(s) == Some((Value.Decimal(double.0), double.1))
  {
    hide DoubleHere, LongHere, Lit;
  }

  // Texts written out.

  lemma TwoDigits(a: char, b: char)
    requires IsDigit(a) && IsDigit(b)
    ensures DigitsValue([a]) == (a - '0') as nat && DigitsValue([a, b]) == 10 * (a - '0') as nat + (b - '0') as nat
  {
    assert [a][..0] == [] && [a, b][..1] == [a];
  }

  /** One and a half, and minus one quarter with an exponent and text around it. */
  lemma OneAndAHalf()
    ensures ParseNumber("1.5") == Some((Value.Decimal(1.5), ""))
  {
    hide ParseNumber, DigitsValue;
    TwoDigits('1', '5');
    assert "1" + "5" == ['1', '5'];
    assert PowerOfTen(1) == 10.0;
    assert Spelling("", "1", "5", NoExponent) + "" == "1.5" && TrimStart("1.5") == "1.5";
    var v := DecimalSpelled("1.5", false, "", "1", "5", NoExponent, "");
  }

  lemma MinusOneQuarter()
    ensures ParseNumber(" -2.5E-1,") == Some((Value.Decimal(-0.25), ","))
  {
    hide ParseNumber, DigitsValue;
    TwoDigits('2', '5');
    TwoDigits('1', '0');
    assert "2" + "5" == ['2', '5'];
    assert PowerOfTen(1) == 10.0;
    var e := Exponent('E', true, "-", "1");
    assert Spelling("-", "2", "5", e) + "," == "-2.5E-1,";
    assert " -2.5E-1,"[1..] == "-2.5E-1,";
    var v := DecimalSpelled(" -2.5E-1,", true, "-", "2", "5", e, ",");
  }

  /** What the printer writes of an object: a key, a colon between spaces and a value, every
      member on a line of its own. */
  lemma PrintedMembers(k: string, v: Value, l: string, w: Value)
    requires NoDecimals(v) && NoDecimals(w)
    ensures Write([]) == None && PrintValue(Object([])) == "{\n\n}"
    ensures Write([Member(k, v)]) == Some("{\n" + ("\"" + k + "\" : " + PrintValue(v)) + "\n}")
    ensures Write([Member(k, v), Member(l, w)])
         == Some("{\n" + (("\"" + k + "\" : " + PrintValue(v)) + ",\n" + ("\"" + l + "\" : " + PrintValue(w))) + "\n}")
  {
    hide PrintValue, NoDecimals;
    var a, b := Member(k, v), Member(l, w);
    assert [a, b][1..] == [b];
    KeyAndValue(a);
    KeyAndValue(b);
    hide PrintMember;
    EmptyPrinted();
    assert PrintMembers([a]) == PrintMember(a) && PrintMembers([b]) == PrintMember(b);
    assert PrintMembers([a, b]) == PrintMember(a) + ",\n" + PrintMember(b);
  }

  lemma KeyAndValue(m: Member)
    requires NoDecimals(m.value)
    ensures PrintMember(m) == "\"" + m.key + "\" : " + PrintValue(m.value)
  {
    hide PrintValue;
    assert "\"" + " : " == "\" : ";
  }

  lemma EmptyPrinted()
    ensures PrintValue(Object([])) == "{\n\n}" && PrintValue(Array([])) == "[\n\n]"
  {
  }

  /** Of an array and of scalars. */
  lemma PrintedItems(v: Value, w: Value, s: string)
    requires NoDecimals(v) && NoDecimals(w)
    ensures PrintValue(Array([])) == "[\n\n]" && PrintValue(Array([v])) == "[\n" + PrintValue(v) + "\n]"
    ensures PrintValue(Array([v, w])) == "[\n" + (PrintValue(v) + ",\n" + PrintValue(w)) + "\n]"
    ensures PrintValue(Str(s)) == "\"" + s + "\""
    ensures PrintValue(Boolean(true)) == "true" && PrintValue(Boolean(false)) == "false"
    ensures PrintValue(Integer(10)) == "10" && PrintValue(Integer(-1)) == "-1"
  {
    assert [v, w][1..] == [w];
    EmptyPrinted();
    assert PrintItems([v]) == PrintValue(v) && PrintItems([w]) == PrintValue(w);
    assert PrintItems([v, w]) == PrintValue(v) + ",\n" + PrintValue(w);
    assert Text.Decimal(10) == "10" && Text.Decimal(1) == "1";
  }

  /** The characters that a backslash escapes; a solidus and a code point are not among them. */
  lemma EscapeCharacters(s: string)
    ensures StartsWithEscape(s) <==> |s| > 1 && s[0] == '\\' && s[1] in {'\\', '"', 'b', 'f', 'n', 'r', 't'}
  {
    var escapes := "\\\"bfnrt";
    assert |escapes| == 7 && escapes[0] == '\\' && escapes[1] == '"' && escapes[2] == 'b' && escapes[3] == 'f'
      && escapes[4] == 'n' && escapes[5] == 'r' && escapes[6] == 't';
  }

  /** A comma that no member follows is not part of the object, which therefore does not end. */
  lemma TrailingComma(m: Member, rest: string)
    requires NoDecimals(m.value) && Closed(m.key) && Readable(m.value)
    ensures ParseObject("{" + ("\n" + PrintMember(m) + (",}" + rest))) == None
  {
    hide PrintMember, ParseMember, Readable, Stop;
    var behind := ",}" + rest;
    var body := "\n" + PrintMember(m) + behind;
    assert behind == "," + ("}" + rest);
    Comma("}" + rest);
    MemberTrip(m, behind);
    NoMember("}" + rest);
    assert ParseMembers(body) == ([m], behind);
    LitHere('{', body);
    assert Lit('}', behind).None?;
  }
}
