/** String helpers shared by the converters: blank trimming, annotations, quotes and
    decimal numerals. */
module Text {

  predicate IsSpace(c: char) {
    c == ' ' || c == '\t' || c == '\n' || c == '\r' || c == '\U{0B}' || c == '\U{0C}'
  }

  function TrimStart(s: string): (r: string)
    ensures |r| <= |s|
    ensures r == [] || !IsSpace(r[0])
  {
    if s != [] && IsSpace(s[0]) then TrimStart(s[1..]) else s
  }

  function TrimEnd(s: string): (r: string)
    ensures r == [] || !IsSpace(r[|r| - 1])
    ensures r <= s
  {
    if s != [] && IsSpace(s[|s| - 1]) then TrimEnd(s[..|s| - 1]) else s
  }

  function Trim(s: string): string {
    TrimEnd(TrimStart(s))
  }

  /** A trimmed text that is not empty starts with '#'. */
  function Annotate(s: string): string {
    var t := Trim(s);
    if t != [] && t[0] == '#' then t
    else if t == [] then ""
    else "#" + t
  }

  /** The blanks of the "C" locale. */
  lemma SpaceCharacters(c: char)
    ensures IsSpace(c) <==> c in {' ', '\t', '\n', '\U{0B}', '\U{0C}', '\r'}
  {
  }

  /** A text is blanks, a core that is empty or has no blank at either end, and blanks. */
  predicate Around(s: string, left: string, core: string, right: string) {
    && s == left + core + right
    && (forall i :: 0 <= i < |left| ==> IsSpace(left[i])) && (forall i :: 0 <= i < |right| ==> IsSpace(right[i]))
    && (core != "" ==> !IsSpace(core[0]) && !IsSpace(core[|core| - 1]))
  }

  lemma {:induction false} TrimStartCore(s: string) returns (left: string)
    ensures s == left + TrimStart(s) && forall i :: 0 <= i < |left| ==> IsSpace(left[i])
  {
    if s != [] && IsSpace(s[0]) {
      var rest := TrimStartCore(s[1..]);
      left := [s[0]] + rest;
      assert s == [s[0]] + s[1..];
    } else {
      left := [];
    }
  }

  lemma {:induction false} TrimEndCore(s: string) returns (right: string)
    ensures s == TrimEnd(s) + right && forall i :: 0 <= i < |right| ==> IsSpace(right[i])
    ensures TrimEnd(s) != "" ==> TrimEnd(s)[0] == s[0]
  {
    if s != [] && IsSpace(s[|s| - 1]) {
      var rest := TrimEndCore(s[..|s| - 1]);
      right := rest + [s[|s| - 1]];
      assert s == s[..|s| - 1] + [s[|s| - 1]];
    } else {
      right := [];
    }
  }

  /** What annotating does: the blanks around the core are dropped, and a core that does not
      start with '#' gets one in front. */
  lemma AnnotateMeaning(s: string) returns (left: string, core: string, right: string)
    ensures Around(s, left, core, right)
    ensures Annotate(s) == if core == "" then "" else if core[0] == '#' then core else ['#'] + core
  {
    left := TrimStartCore(s);
    right := TrimEndCore(TrimStart(s));
    core := Trim(s);
    assert s == left + (core + right) == left + core + right;
  }

  /** There is only one core, so the annotation is determined by it. */
  lemma AnnotateCore(s: string, left: string, core: string, right: string)
    requires Around(s, left, core, right)
    ensures Annotate(s) == if core == "" then "" else if core[0] == '#' then core else ['#'] + core
  {
    var l, c, r := AnnotateMeaning(s);
    OneCore(s, left, core, right, l, c, r);
  }

  /** The same, by positions. */
  lemma CorePlaces(s: string, left: string, core: string, right: string)
    requires Around(s, left, core, right)
    ensures var lo, hi := |left|, |left| + |core|;
      && hi <= |s| && s[lo..hi] == core
      && (forall i :: 0 <= i < lo ==> IsSpace(s[i])) && (forall i :: hi <= i < |s| ==> IsSpace(s[i]))
      && (lo < hi ==> !IsSpace(s[lo]) && !IsSpace(s[hi - 1]))
  {
    assert forall i :: 0 <= i < |left| ==> s[i] == left[i];
    assert forall i :: |left| + |core| <= i < |s| ==> s[i] == right[i - |left| - |core|];
  }

  lemma OneCore(s: string, left: string, core: string, right: string, left': string, core': string, right': string)
    requires Around(s, left, core, right) && Around(s, left', core', right')
    ensures core == core'
  {
    hide IsSpace, Around;
    CorePlaces(s, left, core, right);
    CorePlaces(s, left', core', right');
  }

  /** An annotation already in annotated form is left alone, so annotating twice is
      annotating once. */
  lemma AnnotateIdempotent(s: string)
    ensures Annotate(Annotate(s)) == Annotate(s)
    ensures Annotate(s) == "" || Annotate(s)[0] == '#'
  {
    var a := Annotate(s);
    var t := Trim(s);
    if a != "" {
      assert a[0] == '#' && !IsSpace(a[|a| - 1]) by {
        if t[0] != '#' {
          assert a[|a| - 1] == t[|t| - 1];
        }
      }
      assert TrimStart(a) == a && TrimEnd(a) == a;
    }
  }

  datatype Quotation = NoQuotes | SingleQuotes | DoubleQuotes

  function Quoted(s: string, q: char): string {
    [q] + s + [q]
  }

  function QuotationType(s: string): Quotation {
    if s != [] && s[0] == '"' && s[|s| - 1] == '"' then DoubleQuotes
    else if s != [] && s[0] == '\'' && s[|s| - 1] == '\'' then SingleQuotes
    else NoQuotes
  }

  /** `substr(1, length - 2)`: for a lone quote the length wraps around and the rest of the
      text, which is empty, is taken. */
  function Dequote(s: string): string {
    if QuotationType(s) == NoQuotes then s
    else if |s| == 1 then ""
    else s[1..|s| - 1]
  }

  function Requote(s: string, q: Quotation): string {
    match q
    case NoQuotes => s
    case SingleQuotes => Quoted(s, '\'')
    case DoubleQuotes => Quoted(s, '"')
  }

  predicate LoneQuote(s: string) {
    s == "\"" || s == "'"
  }

  /** Putting the quotes back undoes removing them, except on a text that is one lone
      quote, which opens and closes itself. */
  lemma RequoteDequote(s: string)
    ensures Requote(Dequote(s), QuotationType(s)) == s <==> !LoneQuote(s)
  {
    if QuotationType(s) != NoQuotes && |s| > 1 {
      assert s == [s[0]] + s[1..|s| - 1] + [s[|s| - 1]];
    } else if LoneQuote(s) {
      assert |Requote(Dequote(s), QuotationType(s))| == 2;
    }
  }

  predicate IsDigit(c: char) {
    '0' <= c <= '9'
  }

  function Digit(n: nat): (c: char)
    requires n < 10
    ensures IsDigit(c)
  {
    '0' + n as char
  }

  /** `std::to_string` of a non-negative number. */
  function Decimal(n: nat): (s: string)
    ensures s != [] && forall i :: 0 <= i < |s| ==> IsDigit(s[i])
  {
    if n < 10 then [Digit(n)] else Decimal(n / 10) + [Digit(n % 10)]
  }

  function DigitsValue(s: string): nat
    requires forall i :: 0 <= i < |s| ==> IsDigit(s[i])
  {
    if s == [] then 0
    else
      assert IsDigit(s[|s| - 1]);
      DigitsValue(s[..|s| - 1]) * 10 + (s[|s| - 1] - '0') as nat
  }

  lemma {:induction false} DecimalValue(n: nat)
    ensures DigitsValue(Decimal(n)) == n
  {
    var s := Decimal(n);
    if n >= 10 {
      assert s[..|s| - 1] == Decimal(n / 10);
      DecimalValue(n / 10);
    } else {
      assert s[..0] == [];
    }
  }

  /** Different numbers print differently. */
  lemma DecimalInjective(m: nat, n: nat)
    ensures Decimal(m) == Decimal(n) ==> m == n
  {
    DecimalValue(m);
    DecimalValue(n);
  }
}
