/** The merged text of a pool's results, read back by the JSON grammar. */
module MergedResults {
  import opened Json
  import opened Text
  import opened JsonGrammar
  import opened JsonGrammarRoundTrip
  import Pool = Multitasker

  function ResultValue(r: Pool.Result): Value {
    Object([Member("status", Integer(if r.ok then 1 else 0)), Member("message", Str(r.message))])
  }

  function ResultValues(results: seq<Pool.Result>): seq<Value> {
    if results == [] then [] else [ResultValue(results[0])] + ResultValues(results[1..])
  }

  /** What the merged text stands for. */
  function Summary(results: seq<Pool.Result>): Table {
    [Member("results", Array(ResultValues(results))), Member("total", Integer(|results|)),
     Member("errors", Integer(Pool.Failures(results)))]
  }

  predicate ClosedMessages(results: seq<Pool.Result>) {
    forall i :: 0 <= i < |results| ==> Closed(results[i].message)
  }

  function Keyed(key: string, s: string): string {
    "\"" + key + "\":" + s
  }

  lemma KeyText(key: string, spelled: string, s: string)
    requires spelled == "\"" + key + "\":"
    ensures Keyed(key, s) == spelled + s
  {
  }

  /** How the text spells its keys. */
  lemma ResultKeys()
    ensures "\"status\":" == "\"" + "status" + "\":" && "\"message\":" == "\"" + "message" + "\":"
  {
  }

  lemma SummaryKeys()
    ensures "\"results\":" == "\"" + "results" + "\":"
    ensures "\"total\":" == "\"" + "total" + "\":" && "\"errors\":" == "\"" + "errors" + "\":"
  {
  }

  lemma KeyTrip(key: string, s: string)
    requires Closed(key) && ParseValue(s).Some?
    ensures ParseMember(Keyed(key, s)) == Some((Member(key, ParseValue(s).value.0), ParseValue(s).value.1))
  {
    hide ParseString, ParseValue, Closed;
    assert Keyed(key, s) == "\"" + key + "\"" + (":" + s);
    StringTrip(key, ":" + s);
    LitHere(':', s);
  }

  lemma SpaceMember(s: string)
    ensures ParseMember("\n" + s) == ParseMember(s)
  {
    hide ParseString, ParseValue;
    SkipSpace('\n', s);
    assert "\n" + s == ['\n'] + s;
  }

  lemma KeysClosed()
    ensures Closed("status") && Closed("message") && Closed("results") && Closed("total") && Closed("errors")
  {
    hide Closed;
    Plain("status");
    Plain("message");
    Plain("results");
    Plain("total");
    Plain("errors");
  }

  lemma {:induction false} Plain(s: string)
    requires '"' !in s && '\\' !in s
    ensures Closed(s)
  {
    if s != [] {
      Plain(s[1..]);
    }
  }

  lemma NumberTrip(n: nat, rest: string)
    requires n <= MAX_LONG && Stop(rest)
    ensures ParseValue(Text.Decimal(n) + rest) == Some((Integer(n), rest))
  {
    assert PrintValue(Integer(n)) == Text.Decimal(n);
    ScalarTrip(Integer(n), rest);
  }

  lemma StringValueTrip(s: string, rest: string)
    requires Closed(s)
    ensures ParseValue("\"" + s + "\"" + rest) == Some((Str(s), rest))
  {
    hide ParseString, Closed;
    StringTrip(s, rest);
    Choice("\"" + s + "\"" + rest);
  }

  /** One result is read back from its line. */
  lemma ResultTrip(r: Pool.Result, rest: string)
    requires Closed(r.message)
    ensures ParseValue(Pool.ResultText(r) + rest) == Some((ResultValue(r), rest))
  {
    hide ParseMember, ParseMembers, ParseValue, Closed, Text.Decimal, Lit, Keyed, Pool.ResultText;
    KeysClosed();
    var close := "}" + rest;
    var message := "\"" + r.message + "\"" + close;
    var second := Keyed("message", message);
    var n := if r.ok then 1 else 0;
    var status := Text.Decimal(n) + ("," + second);
    var first := Keyed("status", status);
    LitHere('{', first);
    LitHere('}', rest);
    LitHere(',', second);
    NoComma(close);
    StringValueTrip(r.message, close);
    KeyTrip("message", message);
    MembersStep(second);
    StopAt("," + second);
    NumberTrip(n, "," + second);
    KeyTrip("status", status);
    MembersStep(first);
    assert ParseMembers(second) == ([Member("message", Str(r.message))], close);
    assert ParseMembers(first) == ([Member("status", Integer(n))] + [Member("message", Str(r.message))], close);
    assert ParseObject("{" + first).Some?;
    assert ParseObject("{" + first).value.1 == rest;
    assert Object(ParseObject("{" + first).value.0) == ResultValue(r);
    ResultShape(r, rest);
    Choice("{" + first);
  }

  lemma ResultShape(r: Pool.Result, rest: string)
    ensures var message := "\"" + r.message + "\"" + ("}" + rest);
      var status := Text.Decimal(if r.ok then 1 else 0) + ("," + Keyed("message", message));
      Pool.ResultText(r) + rest == "{" + Keyed("status", status)
  {
    hide Keyed, Text.Decimal, Pool.ResultText;
    var message := "\"" + r.message + "\"" + ("}" + rest);
    var digit := if r.ok then "1" else "0";
    OneDigit();
    ResultKeys();
    KeyText("message", "\"message\":", message);
    KeyText("status", "\"status\":", digit + ("," + ("\"message\":" + message)));
    ResultTextParts(r, digit);
    ResultPieces("{", "\"status\":", digit, ",", "\"message\":", "\"", r.message, "\"", "}", rest);
  }

  lemma ResultTextParts(r: Pool.Result, digit: string)
    requires digit == if r.ok then "1" else "0"
    ensures Pool.ResultText(r) == ("{" + "\"status\":") + digit + ("," + "\"message\":" + "\"") + r.message + ("\"" + "}")
  {
    assert "{\"status\":" == "{" + "\"status\":";
    assert ",\"message\":\"" == "," + "\"message\":" + "\"";
    assert "\"}" == "\"" + "}";
  }

  /** The pieces of a result's line, grouped as they are written and as they are read. */
  lemma ResultPieces(brace: string, statusKey: string, status: string, comma: string, messageKey: string,
                     quote: string, message: string, endQuote: string, endBrace: string, rest: string)
    ensures (brace + statusKey) + status + (comma + messageKey + quote) + message + (endQuote + endBrace) + rest
         == brace + (statusKey + (status + (comma + (messageKey + (quote + message + endQuote + (endBrace + rest))))))
  {
  }

  lemma OneDigit()
    ensures Text.Decimal(0) == "0" && Text.Decimal(1) == "1"
  {
  }

  lemma NoComma(s: string)
    requires s != [] && (s[0] == '}' || s[0] == ']')
    ensures Lit(',', s).None?
  {
  }

  /** The lines without the last comma. */
  function Listed(results: seq<Pool.Result>): string
    requires results != []
  {
    "\n" + Pool.ResultText(results[0]) + if |results| == 1 then "" else "," + Listed(results[1..])
  }

  lemma {:induction false} CommaDropped(results: seq<Pool.Result>)
    requires results != []
    ensures Pool.ResultLines(results) == Listed(results) + ","
  {
    hide Pool.ResultText;
    if |results| == 1 {
      assert Pool.ResultLines(results[1..]) == "";
    } else {
      CommaDropped(results[1..]);
    }
  }

  lemma {:induction false} ListTrip(results: seq<Pool.Result>, rest: string)
    requires results != [] && ClosedMessages(results)
    ensures ParseItems(Listed(results) + ("\n]" + rest)) == (ResultValues(results), "\n]" + rest)
  {
    hide Pool.ResultText, ResultValue, ParseValue, Closed, ParseItems, Lit;
    var tail := "\n]" + rest;
    var s := Listed(results) + tail;
    Closing(']', rest);
    assert ['\n', ']'] + rest == tail;
    if |results| == 1 {
      var text := Pool.ResultText(results[0]) + tail;
      assert s == ['\n'] + text;
      SkipSpace('\n', text);
      ResultTrip(results[0], tail);
      ItemsStep(s);
      assert ParseItems(s) == ([ResultValue(results[0])], tail);
      assert ResultValues(results) == [ResultValue(results[0])];
    } else {
      var next := Listed(results[1..]) + tail;
      var text := Pool.ResultText(results[0]) + ("," + next);
      assert s == ['\n'] + text;
      SkipSpace('\n', text);
      ResultTrip(results[0], "," + next);
      LitHere(',', next);
      ListTrip(results[1..], rest);
      ItemsStep(s);
    }
  }

  /** The text behind the list. */
  function TotalText(results: seq<Pool.Result>): string {
    Keyed("total", Text.Decimal(|results|) + ("," + ErrorsText(results)))
  }

  function ErrorsText(results: seq<Pool.Result>): string {
    Keyed("errors", Text.Decimal(Pool.Failures(results)) + "\n}")
  }

  lemma FailuresBound(results: seq<Pool.Result>)
    ensures Pool.Failures(results) <= |results|
  {
  }

  lemma ErrorsTrip(results: seq<Pool.Result>)
    requires |results| <= MAX_LONG
    ensures ParseMembers(ErrorsText(results)) == ([Member("errors", Integer(Pool.Failures(results)))], "\n}")
  {
    hide ParseMember, ParseMembers, ParseValue, Closed, Text.Decimal, Lit, Keyed;
    KeysClosed();
    FailuresBound(results);
    Closing('}', "");
    assert ['\n', '}'] + "" == "\n}";
    NumberTrip(Pool.Failures(results), "\n}");
    KeyTrip("errors", Text.Decimal(Pool.Failures(results)) + "\n}");
    MembersStep(ErrorsText(results));
  }

  lemma NumberMember(key: string, n: nat, rest: string)
    requires Closed(key) && n <= MAX_LONG && Stop(rest)
    ensures ParseMember(Keyed(key, Text.Decimal(n) + rest)) == Some((Member(key, Integer(n)), rest))
  {
    hide ParseMember, ParseValue, Closed, Text.Decimal, Keyed, Stop;
    NumberTrip(n, rest);
    KeyTrip(key, Text.Decimal(n) + rest);
  }

  lemma TotalMember(results: seq<Pool.Result>)
    requires |results| <= MAX_LONG
    ensures ParseMember("\n" + TotalText(results)) == Some((Member("total", Integer(|results|)), "," + ErrorsText(results)))
  {
    hide ParseMember, Closed, Text.Decimal, ErrorsText, Keyed, Stop;
    KeysClosed();
    Comma(ErrorsText(results));
    NumberMember("total", |results|, "," + ErrorsText(results));
    SpaceMember(TotalText(results));
  }

  lemma TotalTrip(results: seq<Pool.Result>)
    requires |results| <= MAX_LONG
    ensures ParseMembers("\n" + TotalText(results)) ==
      ([Member("total", Integer(|results|)), Member("errors", Integer(Pool.Failures(results)))], "\n}")
  {
    hide ParseMember, ParseMembers, Lit, TotalText, ErrorsText, Pool.Failures, Stop;
    var m, errors := Member("total", Integer(|results|)), ErrorsText(results);
    TotalMember(results);
    ErrorsTrip(results);
    Comma(errors);
    OneMoreMember("\n" + TotalText(results), m, "," + errors, errors);
    assert [m] + [Member("errors", Integer(Pool.Failures(results)))] == [m, Member("errors", Integer(Pool.Failures(results)))];
  }

  /** A member, a comma and more members. */
  lemma OneMoreMember(s: string, m: Member, rest: string, next: string)
    requires ParseMember(s) == Some((m, rest)) && Lit(',', rest) == Some(next) && ParseMembers(next).0 != []
    ensures ParseMembers(s) == ([m] + ParseMembers(next).0, ParseMembers(next).1)
  {
    hide ParseMember, Lit;
    MembersStep(s);
  }

  /** The merged text of some results reads as their summary. */
  lemma SummaryTrip(results: seq<Pool.Result>)
    requires results != [] && ClosedMessages(results) && |results| <= MAX_LONG
    ensures Read(Pool.MergedText(results)) == Some(Summary(results))
  {
    hide ParseMember, ParseMembers, ParseItems, ParseValue, Closed, Text.Decimal, Lit, Pool.ResultText, ResultValue, TotalText, Pool.ResultLines, Listed, Keyed, ResultValues;
    KeysClosed();
    var after := ",\n" + TotalText(results);
    var list := Listed(results) + ("\n]" + after);
    CommaDropped(results);
    MergedShape(results, list);
    ListTrip(results, after);
    Closing(']', after);
    assert ['\n', ']'] + after == "\n]" + after;
    LitHere('[', list);
    Choice("[" + list);
    KeyTrip("results", "[" + list);
    SpaceMember(Keyed("results", "[" + list));
    assert after == [','] + ("\n" + TotalText(results));
    LitHere(',', "\n" + TotalText(results));
    TotalTrip(results);
    var total := [Member("total", Integer(|results|)), Member("errors", Integer(Pool.Failures(results)))];
    var body := "\n" + Keyed("results", "[" + list);
    OneMoreMember(body, Member("results", Array(ResultValues(results))), after, "\n" + TotalText(results));
    assert [Member("results", Array(ResultValues(results)))] + total == Summary(results);
    LitHere('{', body);
    Closing('}', "");
    assert ['\n', '}'] + "" == "\n}";
  }

  /** The pieces behind the list. */
  lemma TailPieces(totalKey: string, total: string, comma: string, errorsKey: string, errors: string, close: string)
    ensures totalKey + (total + (comma + (errorsKey + (errors + close))))
         == totalKey + total + (comma + errorsKey) + errors + close
  {
  }

  lemma TailShape(results: seq<Pool.Result>)
    ensures TotalText(results) ==
      "\"total\":" + Text.Decimal(|results|) + ",\"errors\":" + Text.Decimal(Pool.Failures(results)) + "\n}"
  {
    hide Text.Decimal, Keyed, Pool.Failures;
    SummaryKeys();
    CommaKey();
    ShapeOfTail("\"total\":", "\"errors\":", ",\"errors\":", Text.Decimal(|results|), Text.Decimal(Pool.Failures(results)));
  }

  lemma CommaKey()
    ensures ",\"errors\":" == "," + "\"errors\":"
  {
  }

  lemma ShapeOfTail(total: string, errors: string, comma: string, n: string, k: string)
    requires total == "\"" + "total" + "\":" && errors == "\"" + "errors" + "\":" && comma == "," + errors
    ensures Keyed("total", n + ("," + Keyed("errors", k + "\n}"))) == total + n + comma + k + "\n}"
  {
    hide Keyed;
    KeyText("errors", errors, k + "\n}");
    KeyText("total", total, n + ("," + (errors + (k + "\n}"))));
    TailPieces(total, n, ",", errors, k, "\n}");
  }

  /** What stands behind the overwritten character. */
  lemma BehindList(results: seq<Pool.Result>, open: string)
    requires open != "" && open == "{\n\"results\":[" + Pool.ResultLines(results)
    ensures Pool.MergedText(results) == open[..|open| - 1] + ("\n]" + (",\n" + TotalText(results)))
  {
    hide Pool.ResultText, Pool.ResultLines, Text.Decimal, TotalText, Pool.Failures;
    TailShape(results);
    var total, failed := Text.Decimal(|results|), Text.Decimal(Pool.Failures(results));
    assert "\n],\n\"total\":" == "\n]" + (",\n" + "\"total\":");
    SummaryPieces(open[..|open| - 1], "\n]", ",\n", "\"total\":", total, ",\"errors\":", failed, "\n}");
  }

  /** The pieces from the overwritten character on. */
  lemma SummaryPieces(lines: string, bracket: string, comma: string, totalKey: string, total: string,
                      errorsKey: string, errors: string, close: string)
    ensures lines + (bracket + (comma + (totalKey + total + errorsKey + errors + close)))
         == lines + (bracket + (comma + totalKey)) + total + errorsKey + errors + close
  {
    assert bracket + (comma + (totalKey + total + errorsKey + errors + close))
        == (bracket + (comma + totalKey)) + total + errorsKey + errors + close;
  }

  lemma MergedShape(results: seq<Pool.Result>, list: string)
    requires results != [] && Pool.ResultLines(results) == Listed(results) + ","
    requires list == Listed(results) + ("\n]" + (",\n" + TotalText(results)))
    ensures Pool.MergedText(results) == "{" + ("\n" + Keyed("results", "[" + list))
  {
    hide Pool.ResultLines, Listed, TotalText, Keyed, Pool.MergedText;
    var open := "{\n\"results\":[" + Pool.ResultLines(results);
    assert open[..|open| - 1] == "{\n\"results\":[" + Listed(results);
    BehindList(results, open);
    SummaryKeys();
    KeyText("results", "\"results\":", "[" + list);
    assert "{\n\"results\":[" == "{" + ("\n" + ("\"results\":" + "["));
    OpeningPieces("{", "\n", "\"results\":", "[", Listed(results), "\n]" + (",\n" + TotalText(results)));
  }

  /** The pieces up to the end of the lines and what follows. */
  lemma OpeningPieces(brace: string, newline: string, key: string, bracket: string, lines: string, rest: string)
    ensures (brace + (newline + (key + bracket))) + lines + rest
         == brace + (newline + (key + (bracket + (lines + rest))))
  {
  }

  /** Without results it is the opening bracket that is overwritten, and the text cannot be
      read. */
  lemma NothingMerged()
    ensures Read(Pool.MergedText([])).None?
  {
    hide ParseMembers, ParseValue, Text.Decimal, Lit, Closed;
    var rest := "]" + (",\n" + TotalText([]));
    var body := "\n" + Keyed("results", "\n" + rest);
    EmptyShape(body);
    LitHere('{', body);
    assert ParseMembers(body) == ([], body) by {
      KeysClosed();
      SpaceMember(Keyed("results", "\n" + rest));
      SkipSpace('\n', rest);
      assert "\n" + rest == ['\n'] + rest;
      NotAValue(rest);
      NoKeyValue("results", "\n" + rest);
      NoMembers(body);
    }
    NoBrace(body);
  }

  lemma EmptyShape(body: string)
    requires body == "\n" + Keyed("results", "\n" + ("]" + (",\n" + TotalText([]))))
    ensures Pool.MergedText([]) == "{" + body
  {
    hide TotalText, Keyed, Pool.MergedText;
    var open := "{\n\"results\":[" + Pool.ResultLines([]);
    assert open == "{\n\"results\":[";
    assert open[..|open| - 1] == "{\n\"results\":";
    BehindList([], open);
    SummaryKeys();
    KeyText("results", "\"results\":", "\n" + ("]" + (",\n" + TotalText([]))));
    assert "{\n\"results\":" == "{" + ("\n" + ("\"results\":" + ""));
    OpeningPieces("{", "\n", "\"results\":", "", "", "\n]" + (",\n" + TotalText([])));
    assert "\n]" + (",\n" + TotalText([])) == "\n" + ("]" + (",\n" + TotalText([])));
  }

  lemma NotAValue(s: string)
    requires s != [] && s[0] == ']'
    ensures ParseValue(s).None?
  {
    hide DigitsValue, PowerOfTen;
    Choice(s);
    assert TrimStart(s) == s && Sign(s) == (false, s);
    assert Digits(s) == [] && s[0..] == s;
  }

  lemma NoKeyValue(key: string, s: string)
    requires Closed(key) && ParseValue(s).None?
    ensures ParseMember(Keyed(key, s)).None?
  {
    hide ParseString, ParseValue, Closed;
    assert Keyed(key, s) == "\"" + key + "\"" + (":" + s);
    StringTrip(key, ":" + s);
    LitHere(':', s);
  }

  lemma NoMembers(s: string)
    requires ParseMember(s).None?
    ensures ParseMembers(s) == ([], s)
  {
    hide ParseMember;
  }

  lemma NoBrace(s: string)
    requires |s| > 1 && s[0] == '\n' && s[1] == '"'
    ensures Lit('}', s).None?
  {
    assert TrimStart(s) == s[1..];
  }

  /** The merged text reads as the summary of the results if and only if there are results
      and no message has a bare quote or a backslash at its end. */
  lemma MergedRead(results: seq<Pool.Result>)
    requires |results| <= MAX_LONG
    ensures Read(Pool.MergedText(results)) == Some(Summary(results)) <==> results != [] && ClosedMessages(results)
  {
    hide ParseObject, Closed, Pool.MergedText, ResultValue;
    if results == [] {
      NothingMerged();
    } else if ClosedMessages(results) {
      SummaryTrip(results);
    } else {
      ParsedObjectReadable(Pool.MergedText(results));
      if Read(Pool.MergedText(results)) == Some(Summary(results)) {
        assert Readable(Summary(results)[0].value);
        ReadableMessages(results);
      }
    }
  }

  lemma {:induction false} ReadableMessages(results: seq<Pool.Result>)
    requires forall i :: 0 <= i < |ResultValues(results)| ==> Readable(ResultValues(results)[i])
    ensures ClosedMessages(results)
  {
    hide Closed;
    if results != [] {
      var values := ResultValues(results);
      assert values[1..] == ResultValues(results[1..]);
      forall i | 0 <= i < |values[1..]|
        ensures Readable(values[1..][i])
      {
        assert values[1..][i] == values[i + 1];
      }
      ReadableMessages(results[1..]);
      assert Readable(values[0]);
      assert ResultValue(results[0]).members[1] == Member("message", Str(results[0].message));
      assert Readable(Str(results[0].message));
    }
  }
}
