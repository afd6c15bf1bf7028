/** The escape codec that carries comments, annotations and strings inside JSON text. */
module Escape {

  function EscapeChar(c: char): string {
    match c
    case '"' => "\\\""
    case '\\' => "\\\\"
    case '\U{08}' => "\\b"
    case '\U{0C}' => "\\f"
    case '\n' => "\\n"
    case '\r' => "\\r"
    case '\t' => "\\t"
    case _ => [c]
  }

  /** `to_json_string`. */
  function Escaped(s: string): string {
    if s == [] then [] else Escaped(s[..|s| - 1]) + EscapeChar(s[|s| - 1])
  }

  /** The character after a backslash; any other character, and the end of the text, gives
      nothing. */
  function UnescapeChar(c: char): string {
    match c
    case '\\' => "\\"
    case '"' => "\""
    case 'b' => "\U{08}"
    case 'f' => "\U{0C}"
    case 'n' => "\n"
    case 'r' => "\r"
    case 't' => "\t"
    case _ => ""
  }

  /** `from_json_string`. */
  function Unescaped(s: string): string {
    if s == [] then []
    else if s[0] != '\\' then [s[0]] + Unescaped(s[1..])
    else if |s| == 1 then []
    else UnescapeChar(s[1]) + Unescaped(s[2..])
  }

  method ToJsonString(s: string) returns (out: string)
    ensures out == Escaped(s)
  {
    out := "";
    for i := 0 to |s|
      invariant out == Escaped(s[..i])
    {
      assert s[..i + 1][..i] == s[..i];
      out := out + EscapeChar(s[i]);
    }
    assert s[..|s|] == s;
  }

  lemma UnescapedAt(s: string, pos: nat)
    requires pos < |s|
    ensures Unescaped(s[pos..]) ==
      if s[pos] != '\\' then [s[pos]] + Unescaped(s[pos + 1..])
      else if pos + 1 == |s| then ""
      else UnescapeChar(s[pos + 1]) + Unescaped(s[pos + 2..])
  {
    hide UnescapeChar;
    assert s[pos..][1..] == s[pos + 1..];
    assert pos + 1 < |s| ==> s[pos..][2..] == s[pos + 2..];
  }

  method FromJsonString(s: string) returns (out: string)
    ensures out == Unescaped(s)
  {
    hide UnescapeChar;
    out := "";
    var pos := 0;
    assert s[0..] == s;
    while pos < |s|
      invariant 0 <= pos <= |s| + 1
      invariant pos <= |s| ==> out + Unescaped(s[pos..]) == Unescaped(s)
      invariant pos > |s| ==> out == Unescaped(s)
    {
      UnescapedAt(s, pos);
      if s[pos] != '\\' {
        out := out + [s[pos]];
      } else {
        pos := pos + 1;
        if pos < |s| {
          out := out + UnescapeChar(s[pos]);
        }
      }
      pos := pos + 1;
    }
  }

  lemma {:induction false} UnescapedConcat(s: string, c: char, rest: string)
    requires s == EscapeChar(c)
    ensures Unescaped(s + rest) == [c] + Unescaped(rest)
  {
    var t := s + rest;
    assert t[|s|..] == rest;
    assert c != '\\' && |s| == 1 ==> t[0] == c;
    assert |s| == 2 ==> t[0] == '\\' && t[1] == s[1] && UnescapeChar(s[1]) == [c];
  }

  /** Unescaping undoes escaping, for every text and in front of every text. */
  lemma {:induction false} UnescapedEscaped(s: string, rest: string)
    ensures Unescaped(Escaped(s) + rest) == s + Unescaped(rest)
    decreases |s|
  {
    hide EscapeChar, UnescapeChar, Unescaped;
    if s == [] {
      assert Escaped(s) + rest == rest;
    } else {
      var n := |s| - 1;
      assert Escaped(s) + rest == Escaped(s[..n]) + (EscapeChar(s[n]) + rest);
      UnescapedEscaped(s[..n], EscapeChar(s[n]) + rest);
      UnescapedConcat(EscapeChar(s[n]), s[n], rest);
      assert s == s[..n] + [s[n]];
    }
  }

  lemma EscapeRoundTrip(s: string)
    ensures Unescaped(Escaped(s)) == s
  {
    UnescapedEscaped(s, []);
    assert Escaped(s) + [] == Escaped(s);
  }

  /** Unescaping copies a text up to its first backslash. */
  lemma {:induction false} UnescapedPrefix(s: string, k: nat)
    requires k <= |s| && '\\' !in s[..k]
    ensures Unescaped(s) == s[..k] + Unescaped(s[k..])
  {
    if k == 0 {
      assert s[0..] == s;
    } else {
      assert s[0] == s[..k][0];
      assert s[1..][..k - 1] == s[..k][1..];
      UnescapedPrefix(s[1..], k - 1);
      assert s[1..][k - 1..] == s[k..];
      assert s[..k] == [s[0]] + s[1..][..k - 1];
    }
  }

  /** Unescaping is the identity exactly on texts without a backslash, and shortens all
      others. */
  lemma {:induction false} UnescapedLength(s: string)
    ensures '\\' !in s ==> Unescaped(s) == s
    ensures '\\' in s ==> |Unescaped(s)| < |s|
    ensures |Unescaped(s)| <= |s|
  {
    if s == [] {
    } else if s[0] != '\\' {
      UnescapedLength(s[1..]);
      assert s == [s[0]] + s[1..];
    } else if |s| > 1 {
      UnescapedLength(s[2..]);
    }
  }

  /** Escaping changes seven characters and no others. */
  lemma EscapeTable(c: char)
    ensures EscapeChar('"') == "\\\"" && EscapeChar('\\') == "\\\\" && EscapeChar('\n') == "\\n" && EscapeChar('\r') == "\\r"
    ensures EscapeChar('\t') == "\\t" && EscapeChar('\U{08}') == "\\b" && EscapeChar('\U{0C}') == "\\f"
    ensures c !in {'"', '\\', '\n', '\r', '\t', '\U{08}', '\U{0C}'} ==> EscapeChar(c) == [c]
  {
  }

  /** A text is escaped character by character. */
  lemma {:induction false} EscapedConcat(s: string, t: string)
    ensures Escaped(s + t) == Escaped(s) + Escaped(t)
    decreases |t|
  {
    hide EscapeChar;
    if t == [] {
      assert s + t == s;
    } else {
      var n := |t| - 1;
      assert (s + t)[..|s| + n] == s + t[..n];
      EscapedConcat(s, t[..n]);
    }
  }

  /** No escaped text holds a quote without a backslash before it, or a character that JSON
      does not allow in a string among those with an escape of their own. */
  lemma {:induction false} EscapedPrintable(s: string)
    ensures forall i :: 0 <= i < |Escaped(s)| ==> Escaped(s)[i] !in {'\n', '\r', '\t', '\U{08}', '\U{0C}'}
  {
    if s != [] {
      EscapedPrintable(s[..|s| - 1]);
    }
  }

  /** A backslash with a character that is no escape, and a backslash at the end, are dropped;
      the text goes on behind them. */
  lemma UnknownEscape(c: char, rest: string)
    requires c !in {'\\', '"', 'b', 'f', 'n', 'r', 't'}
    ensures Unescaped(['\\', c] + rest) == Unescaped(rest)
    ensures Unescaped("\\") == ""
  {
    assert (['\\', c] + rest)[2..] == rest;
  }
}
