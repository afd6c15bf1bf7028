/** The base64 codec, against the 24-bit input groups of section 4 of RFC 4648. */
module Base64 {

  const ALPHABET: string := "ABCDEFGHIJKLMNOPQRSTUVWXYZ" + "abcdefghijklmnopqrstuvwxyz" + "0123456789+/"

  /** What `std::string::find` gives for a missing character, cut to a byte. */
  const NOT_FOUND: bv8 := 255

  predicate IsBase64(c: char) {
    'A' <= c <= 'Z' || 'a' <= c <= 'z' || '0' <= c <= '9' || c == '+' || c == '/'
  }

  lemma AlphabetAt(k: nat)
    requires k < 64
    ensures |ALPHABET| == 64
    ensures k < 26 ==> ALPHABET[k] == 'A' + k as char
    ensures 26 <= k < 52 ==> ALPHABET[k] == 'a' + (k - 26) as char
    ensures 52 <= k < 62 ==> ALPHABET[k] == '0' + (k - 52) as char
    ensures k == 62 ==> ALPHABET[k] == '+'
    ensures k == 63 ==> ALPHABET[k] == '/'
  {
  }

  lemma AlphabetIndex(c: char) returns (k: nat)
    requires IsBase64(c)
    ensures k < |ALPHABET| == 64 && ALPHABET[k] == c
  {
    k := if 'A' <= c <= 'Z' then (c - 'A') as nat
    else if 'a' <= c <= 'z' then (c - 'a') as nat + 26
    else if '0' <= c <= '9' then (c - '0') as nat + 52
    else if c == '+' then 62 else 63;
    AlphabetAt(k);
  }

  predicate IsSymbolValue(v: bv8) {
    v < 64
  }

  /** The alphabet's character for a six-bit value. */
  function Symbol(v: bv8): (c: char)
    requires IsSymbolValue(v)
    ensures IsBase64(c)
  {
    AlphabetAt(v as nat);
    ALPHABET[v as nat]
  }

  /** The position of a character in a text, searched from `k` on; the length when it is not
      there. */
  function Position(text: string, c: char, k: nat): (p: nat)
    requires k <= |text|
    ensures k <= p <= |text|
    ensures p < |text| ==> text[p] == c
    ensures forall j :: k <= j < p ==> text[j] != c
    decreases |text| - k
  {
    if k == |text| || text[k] == c then k else Position(text, c, k + 1)
  }

  function Find(c: char): bv8 {
    AlphabetAt(0);
    var p := Position(ALPHABET, c, 0);
    if p == |ALPHABET| then NOT_FOUND else p as bv8
  }

  /** Searching the alphabet inverts printing a six-bit value, and finds nothing but its characters. */
  lemma FindSymbol(v: bv8)
    requires IsSymbolValue(v)
    ensures Find(Symbol(v)) == v
  {
    AlphabetAt(v as nat);
    var p := Position(ALPHABET, Symbol(v), 0);
    AlphabetAt(p);
    assert p == v as nat;
  }

  lemma SymbolFind(c: char)
    ensures IsBase64(c) ==> IsSymbolValue(Find(c)) && Symbol(Find(c)) == c
    ensures !IsBase64(c) ==> Find(c) == NOT_FOUND
  {
    AlphabetAt(0);
    var p := Position(ALPHABET, c, 0);
    if IsBase64(c) {
      var k := AlphabetIndex(c);
      assert p <= k;
      ByteTrip(p);
    } else if p < 64 {
      AlphabetAt(p);
    }
  }

  lemma ByteTrip(p: nat)
    requires p < 128
    ensures (p as bv8) as nat == p && (p < 64 ==> (p as bv8) < 64)
  {
  }

  // The reference: three bytes form a 24-bit input group, cut into four six-bit values.

  function InputGroup(a: bv8, b: bv8, c: bv8): bv24 {
    ((a as bv24) << 16) | ((b as bv24) << 8) | (c as bv24)
  }

  function SixBits(n: bv24, k: nat): (v: bv8)
    requires k < 4
    ensures IsSymbolValue(v)
  {
    var v: bv24 := if k == 0 then n >> 18 else if k == 1 then n >> 12 else if k == 2 then n >> 6 else n;
    (v & 63) as bv8
  }

  function OutputGroup(x0: bv8, x1: bv8, x2: bv8, x3: bv8): bv24 {
    ((x0 as bv24) << 18) | ((x1 as bv24) << 12) | ((x2 as bv24) << 6) | (x3 as bv24)
  }

  function EightBits(n: bv24, k: nat): bv8
    requires k < 3
  {
    var v: bv24 := if k == 0 then n >> 16 else if k == 1 then n >> 8 else n;
    (v & 255) as bv8
  }

  lemma GroupTrip(a: bv8, b: bv8, c: bv8)
    ensures var n := InputGroup(a, b, c);
      OutputGroup(SixBits(n, 0), SixBits(n, 1), SixBits(n, 2), SixBits(n, 3)) == n
    ensures var n := InputGroup(a, b, c);
      && EightBits(n, 0) == a && EightBits(n, 1) == b && EightBits(n, 2) == c
  {
  }

  lemma EncodeBits(a: bv8, b: bv8, c: bv8)
    ensures (a & 0xfc) >> 2 == SixBits(InputGroup(a, b, c), 0)
    ensures ((a & 0x03) << 4) + ((b & 0xf0) >> 4) == SixBits(InputGroup(a, b, c), 1)
    ensures ((b & 0x0f) << 2) + ((c & 0xc0) >> 6) == SixBits(InputGroup(a, b, c), 2)
    ensures c & 0x3f == SixBits(InputGroup(a, b, c), 3)
  {
  }

  lemma DecodeBits(x0: bv8, x1: bv8, x2: bv8, x3: bv8)
    requires x0 < 64 && x1 < 64 && x2 < 64 && x3 < 64
    ensures (x0 << 2) + ((x1 & 0x30) >> 4) == EightBits(OutputGroup(x0, x1, x2, x3), 0)
    ensures ((x1 & 0xf) << 4) + ((x2 & 0x3c) >> 2) == EightBits(OutputGroup(x0, x1, x2, x3), 1)
    ensures ((x2 & 0x3) << 6) + x3 == EightBits(OutputGroup(x0, x1, x2, x3), 2)
  {
  }

  // The reference for texts: whole groups, then a last short one.

  function Padding(missing: nat): string {
    if missing == 0 then "" else "=" + Padding(missing - 1)
  }

  function EncodedSymbols(g: seq<bv8>): (r: string)
    requires 1 <= |g| <= 3
    ensures |r| == |g| + 1 && AllBase64(r)
  {
    var n := InputGroup(g[0], if |g| > 1 then g[1] else 0, if |g| > 2 then g[2] else 0);
    [Symbol(SixBits(n, 0)), Symbol(SixBits(n, 1)), Symbol(SixBits(n, 2)), Symbol(SixBits(n, 3))][..|g| + 1]
  }

  function Encoded(s: seq<bv8>): string {
    if s == [] then ""
    else if |s| <= 3 then EncodedSymbols(s) + Padding(3 - |s|)
    else EncodedSymbols(s[..3]) + Encoded(s[3..])
  }

  predicate AllBase64(t: string) {
    forall i :: 0 <= i < |t| ==> IsBase64(t[i])
  }

  /** The characters in front of the first one outside the alphabet. */
  function Prefix(t: string): (p: string)
    ensures AllBase64(p) && p <= t
  {
    if t == [] || !IsBase64(t[0]) then [] else [t[0]] + Prefix(t[1..])
  }

  function DecodedBytes(g: string): (r: seq<bv8>)
    requires 1 <= |g| <= 4
    ensures |r| == |g| - 1
  {
    var n := OutputGroup(Find(g[0]), if |g| > 1 then Find(g[1]) else 0,
                         if |g| > 2 then Find(g[2]) else 0, if |g| > 3 then Find(g[3]) else 0);
    [EightBits(n, 0), EightBits(n, 1), EightBits(n, 2)][..|g| - 1]
  }

  function DecodedSymbols(p: string): seq<bv8> {
    if p == [] then []
    else if |p| <= 4 then DecodedBytes(p)
    else DecodedBytes(p[..4]) + DecodedSymbols(p[4..])
  }

  function Decoded(t: string): seq<bv8> {
    DecodedSymbols(Prefix(t))
  }

  // The loops.

  /** The four six-bit values of the three bytes. */
  method Sextets(three: array<bv8>, four: array<bv8>)
    requires three.Length == 3 && four.Length == 4 && three != four
    modifies four
    ensures var n := InputGroup(three[0], three[1], three[2]);
      forall k :: 0 <= k < 4 ==> four[k] == SixBits(n, k)
  {
    four[0] := (three[0] & 0xfc) >> 2;
    four[1] := ((three[0] & 0x03) << 4) + ((three[1] & 0xf0) >> 4);
    four[2] := ((three[1] & 0x0f) << 2) + ((three[2] & 0xc0) >> 6);
    four[3] := three[2] & 0x3f;
    EncodeBits(three[0], three[1], three[2]);
  }

  lemma EncodedStep(g: seq<bv8>, rest: seq<bv8>)
    requires |g| == 3 || (1 <= |g| <= 3 && rest == [])
    ensures Encoded(g + rest) == EncodedSymbols(g) + Padding(3 - |g|) + Encoded(rest)
  {
    hide EncodedSymbols;
    if rest == [] {
      assert g + rest == g;
    } else {
      assert (g + rest)[..3] == g && (g + rest)[3..] == rest;
    }
  }

  /** The first `i` bytes, with zeros after them, are printed as `i + 1` symbols. */
  method EmitGroup(three: array<bv8>, four: array<bv8>, i: nat, ret: string) returns (out: string)
    requires three.Length == 3 && four.Length == 4 && three != four && 1 <= i <= 3
    requires forall k :: i <= k < 3 ==> three[k] == 0
    modifies four
    ensures out == ret + EncodedSymbols(three[..i])
  {
    hide InputGroup, SixBits, Symbol;
    Sextets(three, four);
    out := ret;
    var j := 0;
    while j < i + 1
      invariant 0 <= j <= i + 1
      invariant out == ret + EncodedSymbols(three[..i])[..j]
    {
      out := out + [Symbol(four[j])];
      j := j + 1;
    }
  }

  /** A short last group: zero bytes complete it, and pads stand for the symbols left out. */
  method EmitLast(three: array<bv8>, four: array<bv8>, i: nat, ret: string) returns (out: string)
    requires three.Length == 3 && four.Length == 4 && three != four && 1 <= i <= 3
    modifies three, four
    ensures out == ret + EncodedSymbols(old(three[..i])) + Padding(3 - i)
  {
    hide EncodedSymbols;
    var j := i;
    while j < 3
      invariant i <= j <= 3
      invariant three[..i] == old(three[..i])
      invariant forall k :: i <= k < j ==> three[k] == 0
    {
      three[j] := 0;
      j := j + 1;
    }
    out := EmitGroup(three, four, i, ret);
    ghost var symbols := out;
    j := i;
    while j < 3
      invariant i <= j <= 3
      invariant out + Padding(3 - j) == symbols + Padding(3 - i)
    {
      out := out + "=";
      j := j + 1;
    }
  }

  lemma EncodedAt(bytes: seq<bv8>, lo: nat, hi: nat)
    requires lo < hi <= |bytes| && (hi == lo + 3 || (hi < lo + 3 && hi == |bytes|))
    ensures Encoded(bytes[lo..]) == EncodedSymbols(bytes[lo..hi]) + Padding(3 - (hi - lo)) + Encoded(bytes[hi..])
    ensures hi == lo + 3 ==> Encoded(bytes[lo..]) == EncodedSymbols(bytes[lo..hi]) + Encoded(bytes[hi..])
    ensures hi == |bytes| ==> Encoded(bytes[hi..]) == ""
  {
    hide EncodedSymbols, Encoded;
    EncodedStep(bytes[lo..hi], bytes[hi..]);
    EncodedEmpty();
    assert bytes[lo..hi] + bytes[hi..] == bytes[lo..];
  }

  method Encode(bytes: seq<bv8>) returns (ret: string)
    ensures ret == Encoded(bytes)
  {
    hide EncodedSymbols, Encoded;
    var three, four := new bv8[3], new bv8[4];
    ret := "";
    var i, pos := 0, 0;
    assert bytes[0..] == bytes;
    while pos < |bytes|
      invariant 0 <= i < 3 && i <= pos <= |bytes|
      invariant three[..i] == bytes[pos - i..pos]
      invariant ret + Encoded(bytes[pos - i..]) == Encoded(bytes)
    {
      three[i] := bytes[pos];
      i, pos := i + 1, pos + 1;
      assert three[..i] == bytes[pos - i..pos];
      if i == 3 {
        ret := EmitGroup(three, four, 3, ret);
        EncodedAt(bytes, pos - 3, pos);
        i := 0;
      }
    }
    if i != 0 {
      ret := EmitLast(three, four, i, ret);
      EncodedAt(bytes, pos - i, pos);
    } else {
      EncodedEmpty();
      assert bytes[pos..] == [];
    }
  }

  lemma EncodedEmpty()
    ensures Encoded([]) == ""
  {
  }

  /** A character of a byte string stored in an unsigned byte. */
  function AsByte(c: char): bv8 {
    if c as int < 256 then c as bv8 else 0
  }

  lemma CharTrip(c: char)
    requires IsBase64(c)
    ensures AsByte(c) as char == c
  {
    ByteTrip(c as nat);
  }

  /** The symbols are replaced by their values; a slot without a symbol holds 0, for which
      the search gives 255. */
  method LookUp(four: array<bv8>, i: nat, ghost g: string)
    requires four.Length == 4 && 1 <= i <= 4 && |g| == i && AllBase64(g)
    requires forall k :: 0 <= k < 4 ==> four[k] == if k < i then AsByte(g[k]) else 0
    modifies four
    ensures forall k :: 0 <= k < 4 ==> four[k] == if k < i then Find(g[k]) else NOT_FOUND
  {
    hide Find, AsByte;
    var j := 0;
    while j < 4
      invariant 0 <= j <= 4
      invariant forall k :: 0 <= k < j ==> four[k] == if k < i then Find(g[k]) else NOT_FOUND
      invariant forall k :: j <= k < 4 ==> four[k] == if k < i then AsByte(g[k]) else 0
    {
      if j < i {
        CharTrip(g[j]);
      } else {
        SymbolFind('\0');
      }
      four[j] := Find(four[j] as char);
      j := j + 1;
    }
  }

  /** The bytes of the slots: those that are printed are the bytes of the symbols, whatever
      the other slots hold. */
  method Triplet(four: array<bv8>, three: array<bv8>, i: nat, ghost g: string)
    requires three.Length == 3 && four.Length == 4 && three != four && 1 <= i <= 4
    requires |g| == i && AllBase64(g)
    requires forall k :: 0 <= k < i ==> four[k] == Find(g[k])
    modifies three
    ensures forall k :: 0 <= k < i - 1 ==> three[k] == DecodedBytes(g)[k]
  {
    hide Find, DecodedBytes, AllBase64;
    var x0, x1, x2, x3 := four[0], four[1], four[2], four[3];
    BytesOfGroup(g, x0, x1, x2, x3);
    three[0] := (x0 << 2) + ((x1 & 0x30) >> 4);
    three[1] := ((x1 & 0xf) << 4) + ((x2 & 0x3c) >> 2);
    three[2] := ((x2 & 0x3) << 6) + x3;
  }

  /** The bytes printed are those of a group with zero bits in the slots without a symbol:
      the 255 there reaches none of them. */
  method EmitBytes(four: array<bv8>, three: array<bv8>, i: nat, ghost g: string, ret: seq<bv8>) returns (out: seq<bv8>)
    requires three.Length == 3 && four.Length == 4 && three != four && 1 <= i <= 4
    requires |g| == i && AllBase64(g)
    requires forall k :: 0 <= k < 4 ==> four[k] == if k < i then AsByte(g[k]) else 0
    modifies four, three
    ensures out == ret + DecodedBytes(g)
  {
    hide Find, AsByte, DecodedBytes, AllBase64;
    LookUp(four, i, g);
    Triplet(four, three, i, g);
    ghost var x := DecodedBytes(g);
    out := ret;
    var j := 0;
    while j < i - 1
      invariant 0 <= j <= i - 1
      invariant out == ret + x[..j]
    {
      out := out + [three[j]];
      j := j + 1;
    }
  }

  /** The bytes of a short group do not depend on the values in its empty slots. */
  lemma BytesOfGroup(g: string, x0: bv8, x1: bv8, x2: bv8, x3: bv8)
    requires 1 <= |g| <= 4 && AllBase64(g)
    requires x0 == Find(g[0])
    requires |g| > 1 ==> x1 == Find(g[1])
    requires |g| > 2 ==> x2 == Find(g[2])
    requires |g| > 3 ==> x3 == Find(g[3])
    ensures |g| > 1 ==> DecodedBytes(g)[0] == (x0 << 2) + ((x1 & 0x30) >> 4)
    ensures |g| > 2 ==> DecodedBytes(g)[1] == ((x1 & 0xf) << 4) + ((x2 & 0x3c) >> 2)
    ensures |g| > 3 ==> DecodedBytes(g)[2] == ((x2 & 0x3) << 6) + x3
  {
    hide Find, EightBits, OutputGroup;
    forall k | 0 <= k < |g| ensures Find(g[k]) < 64 {
      SymbolFind(g[k]);
    }
    var y1, y2, y3 := if |g| > 1 then x1 else 0, if |g| > 2 then x2 else 0, if |g| > 3 then x3 else 0;
    DecodeBits(x0, y1, y2, y3);
    var n := OutputGroup(x0, y1, y2, y3);
    assert DecodedBytes(g) == [EightBits(n, 0), EightBits(n, 1), EightBits(n, 2)][..|g| - 1];
  }

  lemma DecodedStep(g: string, rest: string)
    requires |g| == 4 || (1 <= |g| <= 4 && rest == [])
    ensures DecodedSymbols(g + rest) == DecodedBytes(g) + DecodedSymbols(rest)
  {
    hide DecodedBytes;
    if rest == [] {
      assert g + rest == g;
    } else {
      assert (g + rest)[..4] == g && (g + rest)[4..] == rest;
    }
  }

  lemma DecodedEmpty()
    ensures AllBase64([]) && DecodedSymbols([]) == []
  {
  }

  lemma {:induction false} PrefixExtends(p: string, rest: string)
    requires AllBase64(p)
    ensures Prefix(p + rest) == p + Prefix(rest)
  {
    if p == [] {
      assert p + rest == rest;
    } else {
      assert (p + rest)[1..] == p[1..] + rest;
      PrefixExtends(p[1..], rest);
    }
  }

  /** The loop ends at the first character outside the alphabet. */
  method Decode(text: string) returns (ret: seq<bv8>)
    ensures ret == Decoded(text)
  {
    hide DecodedBytes, DecodedSymbols, Prefix, IsBase64, AsByte, AllBase64;
    var three, four := new bv8[3], new bv8[4];
    ret := [];
    var i, pos := 0, 0;
    ghost var p := Prefix(text);
    PrefixSymbols(text);
    assert p[0..] == p;
    while pos < |text| && text[pos] != '=' && IsBase64(text[pos])
      invariant 0 <= i < 4 && i <= pos <= |p|
      invariant forall k :: 0 <= k < i ==> four[k] == AsByte(text[pos - i + k])
      invariant ret + DecodedSymbols(p[pos - i..]) == DecodedSymbols(p)
    {
      four[i] := AsByte(text[pos]);
      i, pos := i + 1, pos + 1;
      if i == 4 {
        ghost var g := p[pos - 4..pos];
        SymbolsWithin(p, pos - 4, pos);
        ret := EmitBytes(four, three, 4, g, ret);
        DecodedStep(g, p[pos..]);
        assert g + p[pos..] == p[pos - 4..];
        i := 0;
      }
    }
    DecodedEmpty();
    if i != 0 {
      var j := i;
      while j < 4
        invariant i <= j <= 4
        invariant forall k :: 0 <= k < i ==> four[k] == AsByte(text[pos - i + k])
        invariant forall k :: i <= k < j ==> four[k] == 0
      {
        four[j] := 0;
        j := j + 1;
      }
      ghost var g := p[pos - i..pos];
      SymbolsWithin(p, pos - i, pos);
      ret := EmitBytes(four, three, i, g, ret);
      DecodedStep(g, []);
      assert g + [] == p[pos - i..];
    }
  }

  /** The prefix goes up to the first character outside the alphabet, and `=` is outside. */
  lemma {:induction false} PrefixSymbols(t: string)
    ensures forall n :: 0 <= n < |Prefix(t)| ==> t[n] == Prefix(t)[n] && t[n] != '=' && IsBase64(t[n])
    ensures |Prefix(t)| < |t| ==> !IsBase64(t[|Prefix(t)|])
  {
    if t != [] && IsBase64(t[0]) {
      PrefixSymbols(t[1..]);
    }
  }

  lemma SymbolsWithin(t: string, lo: nat, hi: nat)
    requires lo <= hi <= |t| && AllBase64(t)
    ensures AllBase64(t[lo..hi])
  {
  }

  lemma PrefixStops(t: string)
    requires t == [] || t[0] == '=' || !IsBase64(t[0])
    ensures Prefix(t) == []
  {
  }

  // The laws.

  lemma PaddingLength(n: nat)
    ensures |Padding(n)| == n && forall i :: 0 <= i < n ==> Padding(n)[i] == '='
  {
  }

  /** One group: its bytes come back from its symbols. */
  lemma GroupRoundTrip(g: seq<bv8>)
    requires 1 <= |g| <= 3
    ensures DecodedBytes(EncodedSymbols(g)) == g
  {
    hide EightBits, OutputGroup, Find, Symbol, InputGroup, SixBits;
    var a, b, c := g[0], if |g| > 1 then g[1] else 0, if |g| > 2 then g[2] else 0;
    var n := InputGroup(a, b, c);
    FindSymbol(SixBits(n, 0));
    FindSymbol(SixBits(n, 1));
    FindSymbol(SixBits(n, 2));
    FindSymbol(SixBits(n, 3));
    GroupTrip(a, b, c);
    SpareBits(a, b);
  }

  /** The symbols left out of a short group are zero. */
  lemma SpareBits(a: bv8, b: bv8)
    ensures SixBits(InputGroup(a, b, 0), 3) == 0
    ensures SixBits(InputGroup(a, 0, 0), 2) == 0
  {
  }

  lemma {:induction false} EncodedLength(s: seq<bv8>)
    ensures |Encoded(s)| == 4 * ((|s| + 2) / 3)
  {
    hide EncodedSymbols, Padding;
    if |s| > 3 {
      EncodedLength(s[3..]);
    } else if s != [] {
      PaddingLength(3 - |s|);
    }
  }

  /** The last group of section 4 of RFC 4648: four symbols, or three and one pad, or two and
      two pads; the bits of the last symbol that no byte uses are zero (section 3.5). */
  predicate CanonicalGroup(g: string)
    requires |g| == 4
  {
    || AllBase64(g)
    || (AllBase64(g[..3]) && g[3..] == "=" && Find(g[2]) & 0x3 == 0)
    || (AllBase64(g[..2]) && g[2..] == "==" && Find(g[1]) & 0xf == 0)
  }

  predicate Canonical(t: string) {
    || t == ""
    || (|t| == 4 && CanonicalGroup(t))
    || (|t| > 4 && AllBase64(t[..4]) && Canonical(t[4..]))
  }

  lemma LastBits(a: bv8, b: bv8)
    ensures SixBits(InputGroup(a, 0, 0), 1) & 0xf == 0
    ensures SixBits(InputGroup(a, b, 0), 2) & 0x3 == 0
  {
  }

  lemma LastSymbol(g: seq<bv8>)
    requires 1 <= |g| <= 2
    ensures |g| == 1 ==> Find(EncodedSymbols(g)[1]) & 0xf == 0
    ensures |g| == 2 ==> Find(EncodedSymbols(g)[2]) & 0x3 == 0
  {
    hide Find, Symbol, SixBits, InputGroup;
    var a, b := g[0], if |g| > 1 then g[1] else 0;
    FindSymbol(SixBits(InputGroup(a, 0, 0), 1));
    FindSymbol(SixBits(InputGroup(a, b, 0), 2));
    LastBits(a, b);
  }

  lemma PaddingTexts()
    ensures Padding(0) == "" && Padding(1) == "=" && Padding(2) == "=="
  {
  }

  lemma PrefixOfPadded(p: string, n: nat)
    requires AllBase64(p)
    ensures Prefix(p + Padding(n)) == p
  {
    hide Prefix, IsBase64;
    PrefixExtends(p, Padding(n));
    PrefixStops(Padding(n));
    assert p + [] == p;
  }

  lemma LastGroupCanonical(g: seq<bv8>)
    requires 1 <= |g| <= 3
    ensures |EncodedSymbols(g) + Padding(3 - |g|)| == 4
    ensures CanonicalGroup(EncodedSymbols(g) + Padding(3 - |g|))
  {
    hide Find, EncodedSymbols, IsBase64, Padding;
    var p, pad := EncodedSymbols(g), Padding(3 - |g|);
    PaddingTexts();
    assert (p + pad)[..|g| + 1] == p && (p + pad)[|g| + 1..] == pad;
    if |g| < 3 {
      LastSymbol(g);
    } else {
      assert p + pad == p;
    }
  }

  /** Decoding undoes encoding on every byte string, and what encoding prints is canonical. */
  lemma {:induction false} EncodeDecode(s: seq<bv8>)
    ensures Decoded(Encoded(s)) == s
    ensures Canonical(Encoded(s))
  {
    hide EncodedSymbols, DecodedBytes, CanonicalGroup, Padding, Prefix, DecodedSymbols;
    if s == [] {
      PrefixStops("");
      DecodedEmpty();
    } else if |s| <= 3 {
      GroupRoundTrip(s);
      LastGroupCanonical(s);
      PrefixOfPadded(EncodedSymbols(s), 3 - |s|);
      DecodedStep(EncodedSymbols(s), []);
      DecodedEmpty();
      assert EncodedSymbols(s) + [] == EncodedSymbols(s);
    } else {
      var g, rest := EncodedSymbols(s[..3]), Encoded(s[3..]);
      EncodeDecode(s[3..]);
      GroupRoundTrip(s[..3]);
      PrefixExtends(g, rest);
      DecodedStep(g, Prefix(rest));
      assert (g + rest)[..4] == g && (g + rest)[4..] == rest;
      EncodedNonEmpty(s[3..]);
    }
  }

  lemma EncodedNonEmpty(s: seq<bv8>)
    requires s != []
    ensures Encoded(s) != ""
  {
  }

  lemma SymbolsOfBytes(g: string)
    requires 2 <= |g| <= 4 && AllBase64(g)
    requires |g| == 2 ==> Find(g[1]) & 0xf == 0
    requires |g| == 3 ==> Find(g[2]) & 0x3 == 0
    ensures EncodedSymbols(DecodedBytes(g)) == g
  {
    hide Find, Symbol, InputGroup, OutputGroup, SixBits, EightBits;
    forall k | 0 <= k < |g| ensures Find(g[k]) < 64 && Symbol(Find(g[k])) == g[k] {
      SymbolFind(g[k]);
    }
    var x0, x1, x2, x3 := Find(g[0]), Find(g[1]), if |g| > 2 then Find(g[2]) else 0, if |g| > 3 then Find(g[3]) else 0;
    BitsTrip(x0, x1, x2, x3);
    OutputTrip(OutputGroup(x0, x1, x2, x3));
    if |g| < 4 {
      ShortTrip(x0, x1, x2);
    }
  }

  lemma BitsTrip(x0: bv8, x1: bv8, x2: bv8, x3: bv8)
    requires x0 < 64 && x1 < 64 && x2 < 64 && x3 < 64
    ensures var n := OutputGroup(x0, x1, x2, x3);
      && SixBits(n, 0) == x0 && SixBits(n, 1) == x1 && SixBits(n, 2) == x2 && SixBits(n, 3) == x3
  {
  }

  lemma OutputTrip(n: bv24)
    ensures InputGroup(EightBits(n, 0), EightBits(n, 1), EightBits(n, 2)) == n
  {
  }

  lemma ShortTrip(x0: bv8, x1: bv8, x2: bv8)
    requires x0 < 64 && x1 < 64 && x2 < 64
    ensures x1 & 0xf == 0 ==> EightBits(OutputGroup(x0, x1, 0, 0), 1) == EightBits(OutputGroup(x0, x1, 0, 0), 2) == 0
    ensures x2 & 0x3 == 0 ==> EightBits(OutputGroup(x0, x1, x2, 0), 2) == 0
  {
  }

  lemma PaddedDecoded(p: string)
    requires 2 <= |p| <= 4 && AllBase64(p)
    requires |p| == 2 ==> Find(p[1]) & 0xf == 0
    requires |p| == 3 ==> Find(p[2]) & 0x3 == 0
    ensures Encoded(Decoded(p + Padding(4 - |p|))) == p + Padding(4 - |p|)
  {
    hide Find, Prefix, EncodedSymbols, DecodedBytes, DecodedSymbols, Encoded;
    PrefixOfPadded(p, 4 - |p|);
    SymbolsOfBytes(p);
    DecodedStep(p, []);
    DecodedEmpty();
    EncodedStep(DecodedBytes(p), []);
    EncodedEmpty();
    assert p + [] == p && DecodedBytes(p) + [] == DecodedBytes(p);
  }

  lemma LastGroupDecoded(t: string)
    requires |t| == 4 && CanonicalGroup(t)
    ensures Encoded(Decoded(t)) == t
  {
    hide Find, IsBase64, Decoded, Encoded, Padding;
    PaddingTexts();
    if AllBase64(t) {
      PaddedDecoded(t);
      assert t + Padding(0) == t;
    } else if t[3..] == "=" && AllBase64(t[..3]) && Find(t[2]) & 0x3 == 0 {
      PaddedDecoded(t[..3]);
      assert t == t[..3] + "=";
    } else {
      PaddedDecoded(t[..2]);
      assert t == t[..2] + "==";
    }
  }

  /** Encoding undoes decoding exactly on the canonical texts. */
  lemma {:induction false} DecodeEncode(t: string)
    ensures Encoded(Decoded(t)) == t <==> Canonical(t)
  {
    hide CanonicalGroup, EncodedSymbols, DecodedBytes, Find, Prefix, IsBase64, DecodedSymbols;
    EncodeDecode(Decoded(t));
    if t == "" {
      PrefixStops("");
      DecodedEmpty();
    } else if |t| == 4 && Canonical(t) {
      LastGroupDecoded(t);
    } else if Canonical(t) {
      var g, rest := t[..4], t[4..];
      DecodeEncode(rest);
      PrefixExtends(g, rest);
      DecodedStep(g, Prefix(rest));
      SymbolsOfBytes(g);
      EncodedStep(DecodedBytes(g), Decoded(rest));
      assert t == g + rest;
    }
  }
}
