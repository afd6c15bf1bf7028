/** The JSON printer and the JSON grammar. The grammar is a parsing expression grammar:
    choices are ordered, repetitions are greedy, white space is skipped in front of every
    token and never inside a string, and escapes stay as they are written. It reads a
    subset of what sections 4, 5 and 7 of RFC 8259 describe. */
module JsonGrammar {
  import opened Json
  import opened Text

  const MIN_LONG: int := -0x8000_0000_0000_0000
  const MAX_LONG: int := 0x7fff_ffff_ffff_ffff

  // The printer.

  /** Decimals are printed with a fixed number of digits, which this model leaves out. */
  predicate NoDecimals(v: Value) {
    match v
    case Object(members) => forall i :: 0 <= i < |members| ==> NoDecimals(members[i].value)
    case Array(items) => forall i :: 0 <= i < |items| ==> NoDecimals(items[i])
    case Decimal(_) => false
    case _ => true
  }

  predicate NoDecimalMembers(t: Table) {
    forall i :: 0 <= i < |t| ==> NoDecimals(t[i].value)
  }

  predicate NoDecimalItems(items: seq<Value>) {
    forall i :: 0 <= i < |items| ==> NoDecimals(items[i])
  }

  function PrintInteger(n: int): string {
    if n < 0 then "-" + Text.Decimal(-n) else Text.Decimal(n)
  }

  function PrintValue(v: Value): string
    requires NoDecimals(v)
    decreases v, 1
  {
    match v
    case Object(members) => PrintObject(members)
    case Array(items) => "[\n" + PrintItems(items) + "\n]"
    case Str(s) => "\"" + s + "\""
    case Integer(n) => PrintInteger(n)
    case Boolean(b) => if b then "true" else "false"
  }

  function PrintObject(t: Table): string
    requires NoDecimalMembers(t)
    decreases t, 1
  {
    "{\n" + PrintMembers(t) + "\n}"
  }

  function PrintMember(m: Member): string
    requires NoDecimals(m.value)
    decreases m
  {
    "\"" + m.key + "\"" + " : " + PrintValue(m.value)
  }

  function PrintMembers(t: Table): string
    requires NoDecimalMembers(t)
    decreases t, 0
  {
    if t == [] then ""
    else if |t| == 1 then PrintMember(t[0])
    else PrintMember(t[0]) + ",\n" + PrintMembers(t[1..])
  }

  function PrintItems(items: seq<Value>): string
    requires NoDecimalItems(items)
    decreases items, 0
  {
    if items == [] then ""
    else if |items| == 1 then PrintValue(items[0])
    else PrintValue(items[0]) + ",\n" + PrintItems(items[1..])
  }

  /** `JsonWriter::write`: an empty document is refused. */
  function Write(t: Table): Option<string>
    requires NoDecimalMembers(t)
  {
    if t == [] then None else Some(PrintObject(t))
  }

  // The grammar. A parser takes the text from its position on and returns what it read with
  // the text behind it.

  function Lit(c: char, s: string): (r: Option<string>)
    ensures r.Some? ==> |r.value| < |s|
  {
    var t := TrimStart(s);
    if t != [] && t[0] == c then Some(t[1..]) else None
  }

  function Word(w: string, s: string): (r: Option<string>)
    requires w != []
    ensures r.Some? ==> |r.value| < |s|
  {
    var t := TrimStart(s);
    if w <= t then Some(t[|w|..]) else None
  }

  predicate IsEscape(c: char) {
    c in "\\\"bfnrt"
  }

  predicate StartsWithEscape(s: string) {
    |s| > 1 && s[0] == '\\' && IsEscape(s[1])
  }

  /** How far the greedy repetition of escapes and characters other than the quote goes. */
  function Scan(s: string): (n: nat)
    ensures n <= |s| && (n < |s| ==> s[n] == '"')
  {
    if StartsWithEscape(s) then 2 + Scan(s[2..])
    else if s == [] || s[0] == '"' then 0
    else 1 + Scan(s[1..])
  }

  function ParseString(s: string): (r: Option<(string, string)>)
    ensures r.Some? ==> |r.value.1| < |s|
  {
    var t :- Lit('"', s);
    var n := Scan(t);
    if n < |t| then Some((t[..n], t[n + 1..])) else None
  }

  function Sign(s: string): (r: (bool, string))
    ensures |r.1| <= |s|
  {
    if s != [] && s[0] == '-' then (true, s[1..])
    else if s != [] && s[0] == '+' then (false, s[1..])
    else (false, s)
  }

  function Digits(s: string): (p: string)
    ensures p <= s && forall i :: 0 <= i < |p| ==> IsDigit(p[i])
    ensures |p| < |s| ==> !IsDigit(s[|p|])
  {
    if s != [] && IsDigit(s[0]) then [s[0]] + Digits(s[1..]) else []
  }

  /** A sign, digits, and a value of 64 bits. */
  function ParseLong(s: string): (r: Option<(int, string)>)
    ensures r.Some? ==> |r.value.1| < |s| && MIN_LONG <= r.value.0 <= MAX_LONG
  {
    LongHere(TrimStart(s))
  }

  function LongHere(s: string): (r: Option<(int, string)>)
    ensures r.Some? ==> |r.value.1| < |s| && MIN_LONG <= r.value.0 <= MAX_LONG
  {
    var (negative, t) := Sign(s);
    var p := Digits(t);
    var magnitude: int := DigitsValue(p);
    var n := if negative then -magnitude else magnitude;
    if p == [] || n < MIN_LONG || MAX_LONG < n then None else Some((n, t[|p|..]))
  }

  function PowerOfTen(n: nat): (r: real)
    ensures r > 0.0
  {
    if n == 0 then 1.0 else 10.0 * PowerOfTen(n - 1)
  }

  /** A sign, digits with an optional point anywhere among them, and an optional exponent. */
  function ParseDouble(s: string): (r: Option<(real, string)>)
    ensures r.Some? ==> |r.value.1| < |s|
  {
    DoubleHere(TrimStart(s))
  }

  function DoubleHere(s: string): (r: Option<(real, string)>)
    ensures r.Some? ==> |r.value.1| < |s|
  {
    var (negative, t) := Sign(s);
    var whole := Digits(t);
    var afterWhole := t[|whole|..];
    var dot := afterWhole != [] && afterWhole[0] == '.';
    var fraction := if dot then Digits(afterWhole[1..]) else [];
    if whole == [] && fraction == [] then None
    else
      var afterMantissa := if dot then afterWhole[1 + |fraction|..] else afterWhole;
      var mantissa := DigitsValue(whole + fraction) as real / PowerOfTen(|fraction|);
      var signed := if negative then -mantissa else mantissa;
      var e := afterMantissa != [] && (afterMantissa[0] == 'e' || afterMantissa[0] == 'E');
      var (small, u) := if e then Sign(afterMantissa[1..]) else (false, []);
      var exponent := Digits(u);
      if exponent == [] then Some((signed, afterMantissa))
      else
        var scale := PowerOfTen(DigitsValue(exponent));
        Some((if small then signed / scale else signed * scale, u[|exponent|..]))
  }

  /** An integer is a long that no point follows; anything else numeric is a double. */
  function ParseNumber(s: string): (r: Option<(Value, string)>)
    ensures r.Some? ==> |r.value.1| < |s|
    ensures r.Some? ==> r.value.0.Decimal? || (r.value.0.Integer? && MIN_LONG <= r.value.0.integer <= MAX_LONG)
  {
    var long := ParseLong(s);
    if long.Some? && Lit('.', long.value.1).None? then Some((Integer(long.value.0), long.value.1))
    else
      var double :- ParseDouble(s);
      Some((Value.Decimal(double.0), double.1))
  }

  function ParseBool(s: string): (r: Option<(Value, string)>)
    ensures r.Some? ==> |r.value.1| < |s| && r.value.0.Boolean?
  {
    var yes, no := Word("true", s), Word("false", s);
    if yes.Some? then Some((Boolean(true), yes.value))
    else if no.Some? then Some((Boolean(false), no.value))
    else None
  }

  /** The ordered choice of a value. */
  function ParseValue(s: string): (r: Option<(Value, string)>)
    ensures r.Some? ==> |r.value.1| < |s|
    decreases |s|, 2
  {
    var table := ParseObject(s);
    if table.Some? then Some((Object(table.value.0), table.value.1))
    else
      var list := ParseArray(s);
      if list.Some? then Some((Array(list.value.0), list.value.1))
      else
        var text := ParseString(s);
        if text.Some? then Some((Str(text.value.0), text.value.1))
        else
          var number := ParseNumber(s);
          if number.Some? then number else ParseBool(s)
  }

  function ParseObject(s: string): (r: Option<(Table, string)>)
    ensures r.Some? ==> |r.value.1| < |s|
    decreases |s|, 1
  {
    var t :- Lit('{', s);
    var (members, u) := ParseMembers(t);
    var rest :- Lit('}', u);
    Some((members, rest))
  }

  function ParseMember(s: string): (r: Option<(Member, string)>)
    ensures r.Some? ==> |r.value.1| < |s|
    decreases |s|, 0
  {
    var (key, t) :- ParseString(s);
    var u :- Lit(':', t);
    var (value, rest) :- ParseValue(u);
    Some((Member(key, value), rest))
  }

  /** An optional list of members: a comma that no member follows is not consumed. */
  function ParseMembers(s: string): (r: (Table, string))
    ensures |r.1| <= |s|
    decreases |s|, 1
  {
    var first := ParseMember(s);
    if first.None? then ([], s)
    else
      var comma := Lit(',', first.value.1);
      var more := if comma.Some? then ParseMembers(comma.value) else ([], []);
      if more.0 == [] then ([first.value.0], first.value.1) else ([first.value.0] + more.0, more.1)
  }

  function ParseArray(s: string): (r: Option<(seq<Value>, string)>)
    ensures r.Some? ==> |r.value.1| < |s|
    decreases |s|, 1
  {
    var t :- Lit('[', s);
    var (items, u) := ParseItems(t);
    var rest :- Lit(']', u);
    Some((items, rest))
  }

  function ParseItems(s: string): (r: (seq<Value>, string))
    ensures |r.1| <= |s|
    decreases |s|, 3
  {
    var first := ParseValue(s);
    if first.None? then ([], s)
    else
      var comma := Lit(',', first.value.1);
      var more := if comma.Some? then ParseItems(comma.value) else ([], []);
      if more.0 == [] then ([first.value.0], first.value.1) else ([first.value.0] + more.0, more.1)
  }

  /** `JsonReader::read`: an empty text is refused, text behind the object is not looked at. */
  function Read(s: string): Option<Table> {
    if s == "" then None
    else
      var (members, _) :- ParseObject(s);
      Some(members)
  }
}
