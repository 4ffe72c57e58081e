/** JSON strings as cjson.c reads and writes them, and the UTF-8 form of \u escapes. */
module JsonString {
  import opened Common
  import opened CText
  import opened Numerals

  // ---------- hexadecimal ----------

  /** `parse_hex4`: four digits, or 0 as soon as one of them is not a digit. */
  function ParseHex4(text: string, p: nat): (h: nat)
    ensures h < 0x1_0000
  {
    var a, b, c, d := HexVal(At(text, p)), HexVal(At(text, p + 1)), HexVal(At(text, p + 2)), HexVal(At(text, p + 3));
    if a.None? || b.None? || c.None? || d.None? then 0
    else a.value * 4096 + b.value * 256 + c.value * 16 + d.value
  }

  /** The value of the four digits, of either case. */
  lemma Hex4IsNumber(text: string, p: nat)
    ensures ParseHex4(text, p) ==
      if p + 4 <= |text| && AllHex(text[p..p + 4]) then HexNumber(text[p..p + 4]) else 0
  {
    if p + 4 <= |text| {
      var s := text[p..p + 4];
      assert s[0] == text[p] && s[1] == text[p + 1] && s[2] == text[p + 2] && s[3] == text[p + 3];
      if AllHex(s) {
        FourHex(s);
      }
    } else {
      assert At(text, p + 3) == NUL;
    }
  }

  lemma FourHex(s: string)
    requires |s| == 4 && AllHex(s)
    ensures HexNumber(s) ==
      4096 * HexVal(s[0]).value + 256 * HexVal(s[1]).value + 16 * HexVal(s[2]).value + HexVal(s[3]).value
  {
    assert s[..1][..0] == "" && HexNumber(s[..1]) == HexVal(s[0]).value;
    assert s[..2][..1] == s[..1] && HexNumber(s[..2]) == 16 * HexNumber(s[..1]) + HexVal(s[1]).value;
    assert s[..3][..2] == s[..2] && HexNumber(s[..3]) == 16 * HexNumber(s[..2]) + HexVal(s[2]).value;
  }

  // ---------- UTF-8 ----------

  /** The bytes the switch on `len` writes, last byte first, for a code point `uc`. */
  function Utf8(uc: nat): (bytes: string)
    requires uc < 0x11_0000
    ensures 1 <= |bytes| <= 4
    ensures forall i :: 0 <= i < |bytes| ==> bytes[i] < 256 as char
  {
    if uc < 0x80 then [uc as char]
    else if uc < 0x800 then
      [(0xC0 + uc / 64) as char, (0x80 + uc % 64) as char]
    else if uc < 0x1_0000 then
      [(0xE0 + uc / 4096) as char, (0x80 + uc / 64 % 64) as char, (0x80 + uc % 64) as char]
    else
      [(0xF0 + uc / 262144) as char, (0x80 + uc / 4096 % 64) as char,
       (0x80 + uc / 64 % 64) as char, (0x80 + uc % 64) as char]
  }

  predicate Continuation(c: char) {
    0x80 as char <= c <= 0xBF as char
  }

  /**
    The code point that a byte sequence spells under the bit layout of RFC 3629 section 3,
    with no demand that the sequence be the shortest one.
    */
  function Utf8Value(bytes: string): Option<nat> {
    if |bytes| == 1 && bytes[0] < 0x80 as char then
      Some(bytes[0] as nat)
    else if |bytes| == 2 && 0xC0 as char <= bytes[0] <= 0xDF as char && Continuation(bytes[1]) then
      Some((bytes[0] as nat - 0xC0) * 64 + (bytes[1] as nat - 0x80))
    else if |bytes| == 3 && 0xE0 as char <= bytes[0] <= 0xEF as char
            && Continuation(bytes[1]) && Continuation(bytes[2]) then
      Some((bytes[0] as nat - 0xE0) * 4096 + (bytes[1] as nat - 0x80) * 64 + (bytes[2] as nat - 0x80))
    else if |bytes| == 4 && 0xF0 as char <= bytes[0] <= 0xF7 as char
            && Continuation(bytes[1]) && Continuation(bytes[2]) && Continuation(bytes[3]) then
      Some((bytes[0] as nat - 0xF0) * 262144 + (bytes[1] as nat - 0x80) * 4096
           + (bytes[2] as nat - 0x80) * 64 + (bytes[3] as nat - 0x80))
    else None
  }

  /** Base-64 digits are determined by the number they spell. */
  lemma Base64Digits(q: nat, r: nat)
    requires r < 64
    ensures (q * 64 + r) / 64 == q && (q * 64 + r) % 64 == r
  {
  }

  lemma Utf8Decodes(uc: nat)
    requires uc < 0x11_0000
    ensures Utf8Value(Utf8(uc)) == Some(uc)
  {
    assert uc / 64 / 64 == uc / 4096 && uc / 4096 / 64 == uc / 262144;
  }

  /** Four base-64 digits, the leading one unbounded, are the digits of their number. */
  lemma FourDigits(a: nat, b: nat, c: nat, d: nat, n: nat)
    requires b < 64 && c < 64 && d < 64 && n == a * 262144 + b * 4096 + c * 64 + d
    ensures n % 64 == d && n / 64 % 64 == c && n / 4096 % 64 == b && n / 262144 == a
  {
    Base64Digits(a * 4096 + b * 64 + c, d);
    Base64Digits(a * 64 + b, c);
    Base64Digits(a, b);
    assert n / 64 == a * 4096 + b * 64 + c && n / 4096 == a * 64 + b;
  }

  lemma Utf8Unique(uc: nat, other: string)
    requires uc < 0x11_0000
    requires Utf8Value(other) == Some(uc) && |other| == |Utf8(uc)|
    ensures other == Utf8(uc)
  {
    var n := |other|;
    if n == 2 {
      Base64Digits(other[0] as nat - 0xC0, other[1] as nat - 0x80);
    } else if n == 3 {
      FourDigits(0, other[0] as nat - 0xE0, other[1] as nat - 0x80, other[2] as nat - 0x80, uc);
    } else if n == 4 {
      FourDigits(other[0] as nat - 0xF0, other[1] as nat - 0x80, other[2] as nat - 0x80, other[3] as nat - 0x80, uc);
    }
  }

  /** The encoder is right, and no other sequence at most as long spells `uc`. */
  lemma Utf8IsShortest(uc: nat, other: string)
    requires uc < 0x11_0000
    ensures Utf8Value(Utf8(uc)) == Some(uc)
    ensures Utf8Value(other) == Some(uc) && |other| <= |Utf8(uc)| ==> other == Utf8(uc)
  {
    Utf8Decodes(uc);
    if Utf8Value(other) == Some(uc) && |other| <= |Utf8(uc)| {
      assert |other| == |Utf8(uc)|;
      Utf8Unique(uc, other);
    }
  }

  /** The code point of a surrogate pair (RFC 2781 section 2.2), as the parser joins it. */
  function JoinSurrogates(hi: nat, lo: nat): (uc: nat)
    requires 0xD800 <= hi <= 0xDBFF && 0xDC00 <= lo <= 0xDFFF
    ensures 0x1_0000 <= uc < 0x11_0000
    ensures hi == 0xD800 + (uc - 0x1_0000) / 0x400 && lo == 0xDC00 + (uc - 0x1_0000) % 0x400
  {
    0x1_0000 + (hi % 0x400) * 0x400 + lo % 0x400
  }

  // ---------- printing ----------

  predicate NeedsEscape(c: char) {
    c < ' ' || c == '"' || c == '\\'
  }

  /** The letter after the backslash, for the characters that have one. */
  function ShortEscape(c: char): Option<char> {
    if c == '\\' then Some('\\')
    else if c == '"' then Some('"')
    else if c == 8 as char then Some('b')
    else if c == 12 as char then Some('f')
    else if c == '\n' then Some('n')
    else if c == '\r' then Some('r')
    else if c == '\t' then Some('t')
    else None
  }

  function EscapeChar(c: char): (e: string)
    ensures 1 <= |e| <= 6 && e[0] > NUL
  {
    if !NeedsEscape(c) then [c]
    else if ShortEscape(c).Some? then ['\\', ShortEscape(c).value]
    else ['\\', 'u', '0', '0', HexDigit(c as nat / 16), HexDigit(c as nat % 16)]
  }

  function Escape(x: string): string {
    if x == "" then "" else EscapeChar(x[0]) + Escape(x[1..])
  }

  function Quote(x: string): string {
    "\"" + Escape(x) + "\""
  }

  lemma {:induction false} EscapeAppend(x: string, c: char)
    ensures Escape(x + [c]) == Escape(x) + EscapeChar(c)
  {
    if x == "" {
      assert [c][1..] == "";
    } else {
      assert (x + [c])[1..] == x[1..] + [c];
      EscapeAppend(x[1..], c);
    }
  }

  lemma {:induction false} EscapeNulFree(x: string)
    ensures NulFree(Escape(x)) && NulFree(Quote(x)) && |Escape(x)| >= |x|
  {
    if x != "" {
      EscapeNulFree(x[1..]);
    }
  }

  // ---------- parsing ----------

  /** The end of a string body: the closing quote, or the end of the input. */
  predicate AtEnd(text: string, p: nat) {
    At(text, p) == '"' || At(text, p) == NUL
  }

  /** What the counting pass finds: where it stops and how many bytes it reserves. */
  datatype Scan = Scan(end: nat, count: nat)

  /** The counting pass over a string body; None for a final backslash. */
  function ScanString(text: string, p: nat): (r: Option<Scan>)
    requires p <= |text|
    ensures r.Some? ==> p <= r.value.end <= |text| && r.value.count <= r.value.end - p
    decreases |text| - p
  {
    if AtEnd(text, p) then Some(Scan(p, 0))
    else if text[p] == '\\' && At(text, p + 1) == NUL then None
    else Counted(1, ScanString(text, if text[p] == '\\' then p + 2 else p + 1))
  }

  function Counted(n: nat, r: Option<Scan>): Option<Scan> {
    if r.None? then None else Some(Scan(r.value.end, n + r.value.count))
  }

  /** One escape sequence, from after its backslash: its bytes and how much text it takes. */
  datatype Unit = Unit(bytes: string, width: nat)

  function UnescapeUnicode(text: string, p: nat): (r: Option<Unit>)
    requires p < |text|
    ensures r.Some? ==> 1 <= |r.value.bytes| < r.value.width <= |text| - p
  {
    var uc := ParseHex4(text, p + 1);
    if uc == 0 || 0xDC00 <= uc <= 0xDFFF then None
    else if !(0xD800 <= uc <= 0xDBFF) then Some(Unit(Utf8(uc), 5))
    else if At(text, p + 5) != '\\' || At(text, p + 6) != 'u' then None
    else
      var uc2 := ParseHex4(text, p + 7);
      if !(0xDC00 <= uc2 <= 0xDFFF) then None
      else Some(Unit(Utf8(JoinSurrogates(uc, uc2)), 11))
  }

  function UnescapeOne(text: string, p: nat): (r: Option<Unit>)
    requires p < |text|
    ensures r.Some? ==> 1 <= |r.value.bytes| <= r.value.width <= |text| - p
  {
    match text[p]
    case 'b' => Some(Unit([8 as char], 1))
    case 'f' => Some(Unit([12 as char], 1))
    case 'n' => Some(Unit("\n", 1))
    case 'r' => Some(Unit("\r", 1))
    case 't' => Some(Unit("\t", 1))
    case 'u' => UnescapeUnicode(text, p)
    case _ => Some(Unit([text[p]], 1))
  }

  /** A backslash, `u`, and four digits for the number. */
  predicate IsEscapeOf(s: string, n: nat) {
    |s| == 6 && s[0] == '\\' && s[1] == 'u' && AllHex(s[2..]) && HexNumber(s[2..]) == n
  }

  lemma EscapeNumber(text: string, p: nat, s: string, n: nat)
    requires Reads(text, p, s) && IsEscapeOf(s, n)
    ensures p + 6 <= |text| && text[p] == '\\' && text[p + 1] == 'u' && ParseHex4(text, p + 2) == n
  {
    ReadsAt(text, p, s, 0);
    ReadsAt(text, p, s, 1);
    assert s == s[..2] + s[2..];
    ReadsSplit(text, p, s[..2], p + 2, s[2..]);
    ReadsSlice(text, p + 2, s[2..]);
    Hex4IsNumber(text, p + 2);
  }

  lemma ReadsSlice(text: string, p: nat, s: string)
    requires Reads(text, p, s)
    ensures text[p..p + |s|] == s
  {
    forall i | 0 <= i < |s| ensures text[p..p + |s|][i] == s[i] {
      ReadsAt(text, p, s, i);
    }
  }

  /** A code point of the basic plane is decoded from its escape. */
  lemma CodePointDecoded(text: string, p: nat, s: string, uc: nat)
    requires 0 < uc < 0x1_0000 && !(0xD800 <= uc <= 0xDFFF)
    requires Reads(text, p, s) && IsEscapeOf(s, uc)
    ensures UnescapeOne(text, p + 1) == Some(Unit(Utf8(uc), 5))
  {
    EscapeNumber(text, p, s, uc);
  }

  /** The two halves of a surrogate pair (RFC 2781 section 2.1). */
  function HighSurrogate(uc: nat): nat
    requires 0x1_0000 <= uc < 0x11_0000
  {
    0xD800 + (uc - 0x1_0000) / 0x400
  }

  function LowSurrogate(uc: nat): nat
    requires 0x1_0000 <= uc < 0x11_0000
  {
    0xDC00 + (uc - 0x1_0000) % 0x400
  }

  /** Every other code point is decoded from the escapes of its two surrogates. */
  lemma PairDecoded(text: string, p: nat, hi: string, lo: string, uc: nat)
    requires 0x1_0000 <= uc < 0x11_0000 && Reads(text, p, hi) && Reads(text, p + 6, lo)
    requires IsEscapeOf(hi, HighSurrogate(uc)) && IsEscapeOf(lo, LowSurrogate(uc))
    ensures UnescapeOne(text, p + 1) == Some(Unit(Utf8(uc), 11))
  {
    EscapeNumber(text, p, hi, HighSurrogate(uc));
    EscapeNumber(text, p + 6, lo, LowSurrogate(uc));
    assert JoinSurrogates(HighSurrogate(uc), LowSurrogate(uc)) == uc;
  }

  datatype Decoded = Decoded(value: string, end: nat)

  /**
    The single-pass reading of a string body: the decoded text and where the body ends.
    No bound from a counting pass is used.
    */
  function Unescape(text: string, p: nat): (r: Option<Decoded>)
    requires p <= |text|
    ensures r.Some? ==> p <= r.value.end <= |text|
    decreases |text| - p
  {
    if AtEnd(text, p) then Some(Decoded("", p))
    else if text[p] != '\\' then Prepend([text[p]], Unescape(text, p + 1))
    else if At(text, p + 1) == NUL then None
    else
      var u := UnescapeOne(text, p + 1);
      if u.None? then None else Prepend(u.value.bytes, Unescape(text, p + 1 + u.value.width))
  }

  function Prepend(s: string, r: Option<Decoded>): Option<Decoded> {
    if r.None? then None else Some(Decoded(s + r.value.value, r.value.end))
  }

  /** Success and where the parse stopped, or failure and what `*ep` was set to, if anything. */
  datatype Parsed<+T> = Ok(value: T, end: nat) | Err(ep: Option<nat>)

  /** `parse_string`: the opening quote, the counting pass, the decoding pass, the closing quote. */
  function ParseString(text: string, p: nat): (r: Parsed<string>)
    requires p <= |text|
    ensures r.Ok? ==> p < r.end <= |text|
  {
    if At(text, p) != '"' then Err(Some(p))
    else if ScanString(text, p + 1).None? then Err(None)
    else
      match Unescape(text, p + 1)
      case None => Err(Some(p))
      case Some(Decoded(value, end)) => Ok(value, if At(text, end) == '"' then end + 1 else end)
  }

  // ---------- the two scans agree ----------

  lemma Hex4Plain(text: string, p: nat)
    requires ParseHex4(text, p) != 0
    ensures p + 4 <= |text|
    ensures forall i :: p <= i < p + 4 ==> text[i] != '"' && text[i] != '\\' && text[i] != NUL
  {
    assert IsHex(At(text, p)) && IsHex(At(text, p + 1)) && IsHex(At(text, p + 2)) && IsHex(At(text, p + 3));
  }

  /** Plain characters are counted one by one. */
  lemma {:induction false} ScanPlain(text: string, p: nat, k: nat)
    requires p + k <= |text|
    requires forall i :: p <= i < p + k ==> text[i] != '"' && text[i] != '\\' && text[i] != NUL
    ensures ScanString(text, p) == Counted(k, ScanString(text, p + k))
    decreases k
  {
    if k > 0 {
      ScanPlain(text, p + 1, k - 1);
    }
  }

  lemma ScanHex4(text: string, p: nat)
    requires p <= |text| && ParseHex4(text, p) != 0
    ensures p + 4 <= |text| && ScanString(text, p) == Counted(4, ScanString(text, p + 4))
  {
    Hex4Plain(text, p);
    ScanPlain(text, p, 4);
  }

  /** A backslash and the letter behind it are counted as one. */
  lemma ScanPair(text: string, p: nat)
    requires p + 1 < |text| && text[p] == '\\' && text[p + 1] != NUL
    ensures ScanString(text, p) == Counted(1, ScanString(text, p + 2))
  {
  }

  lemma ScanUnicode(text: string, p: nat)
    requires p + 1 < |text| && text[p] == '\\' && text[p + 1] == 'u' && ParseHex4(text, p + 2) != 0
    ensures p + 6 <= |text| && ScanString(text, p) == Counted(5, ScanString(text, p + 6))
  {
    ScanHex4(text, p + 2);
    ScanPair(text, p);
  }

  /** Over one escape sequence the counting pass moves as far as the decoder and reserves enough. */
  lemma ScanEscape(text: string, p: nat) returns (n: nat)
    requires p + 1 < |text| && text[p] == '\\' && text[p + 1] != NUL && UnescapeOne(text, p + 1).Some?
    ensures n >= |UnescapeOne(text, p + 1).value.bytes|
    ensures ScanString(text, p) == Counted(n, ScanString(text, p + 1 + UnescapeOne(text, p + 1).value.width))
  {
    if text[p + 1] != 'u' {
      ScanPair(text, p);
      n := 1;
    } else {
      n := ScanCodePoint(text, p);
    }
  }

  lemma ScanCodePoint(text: string, p: nat) returns (n: nat)
    requires p + 1 < |text| && text[p] == '\\' && text[p + 1] == 'u' && UnescapeOne(text, p + 1).Some?
    ensures n >= |UnescapeOne(text, p + 1).value.bytes|
    ensures ScanString(text, p) == Counted(n, ScanString(text, p + 1 + UnescapeOne(text, p + 1).value.width))
  {
    var u := UnescapeOne(text, p + 1).value;
    ScanUnicode(text, p);
    n := 5;
    if u.width == 11 {
      ScanUnicode(text, p + 6);
      n := 10;
    }
  }

  /**
    The two passes of `parse_string` agree on every input: when decoding succeeds it stops
    exactly where the counting pass stopped, and writes no more than that pass counted.
    */
  lemma {:induction false} ScansAgree(text: string, p: nat)
    requires p <= |text| && Unescape(text, p).Some?
    ensures ScanString(text, p).Some?
    ensures Unescape(text, p).value.end == ScanString(text, p).value.end
    ensures AtEnd(text, Unescape(text, p).value.end)
    ensures |Unescape(text, p).value.value| <= ScanString(text, p).value.count
    decreases |text| - p
  {
    if AtEnd(text, p) {
    } else if text[p] != '\\' {
      ScansAgree(text, p + 1);
    } else {
      var _ := ScanEscape(text, p);
      ScansAgree(text, p + 1 + UnescapeOne(text, p + 1).value.width);
    }
  }

  // ---------- reading back what was printed ----------

  lemma ControlEscape(text: string, p: nat, c: char)
    requires NUL < c < ' ' && ShortEscape(c).None?
    requires Reads(text, p, EscapeChar(c))
    ensures UnescapeOne(text, p + 1) == Some(Unit([c], 5))
  {
    var e := EscapeChar(c);
    assert Look(1) && Look(2) && Look(3) && Look(4) && Look(5);
    assert ParseHex4(text, p + 2) == c as nat;
  }

  lemma EscapeUnescaped(text: string, p: nat, c: char)
    requires c != NUL && NeedsEscape(c) && Reads(text, p, EscapeChar(c))
    ensures p + 1 < |text| && text[p] == '\\' && text[p + 1] != NUL
    ensures UnescapeOne(text, p + 1) == Some(Unit([c], |EscapeChar(c)| - 1))
  {
    var e := EscapeChar(c);
    ReadsHead(text, p, e);
    ReadsAt(text, p, e, 1);
    if ShortEscape(c).None? {
      ControlEscape(text, p, c);
    }
  }

  lemma UnescapeChar(text: string, p: nat, c: char, q: nat)
    requires c != NUL && Reads(text, p, EscapeChar(c)) && q == p + |EscapeChar(c)|
    ensures Unescape(text, p) == Prepend([c], Unescape(text, q))
  {
    if NeedsEscape(c) {
      EscapeUnescaped(text, p, c);
    } else {
      ReadsHead(text, p, EscapeChar(c));
    }
  }

  lemma EscapeParts(text: string, p: nat, x: string, q: nat)
    requires x != "" && NulFree(x) && Reads(text, p, Escape(x)) && q == p + |EscapeChar(x[0])|
    ensures Reads(text, p, EscapeChar(x[0])) && Reads(text, q, Escape(x[1..]))
    ensures NulFree(x[1..]) && [x[0]] + x[1..] == x
    ensures |Escape(x)| == |EscapeChar(x[0])| + |Escape(x[1..])|
  {
    ReadsSplit(text, p, EscapeChar(x[0]), q, Escape(x[1..]));
  }

  lemma {:induction false} UnescapeEscape(text: string, p: nat, x: string, end: nat)
    requires NulFree(x) && Reads(text, p, Escape(x)) && end == p + |Escape(x)| && At(text, end) == '"'
    ensures Unescape(text, p) == Some(Decoded(x, end))
    decreases |x|
  {
    if x != "" {
      var next := p + |EscapeChar(x[0])|;
      assert Unescape(text, next) == Some(Decoded(x[1..], end)) && [x[0]] + x[1..] == x by {
        EscapeParts(text, p, x, next);
        UnescapeEscape(text, next, x[1..], end);
      }
      assert Unescape(text, p) == Prepend([x[0]], Unescape(text, next)) by {
        EscapeParts(text, p, x, next);
        UnescapeChar(text, p, x[0], next);
      }
    }
  }

  /** Every string survives printing and parsing, wherever it stands and whatever follows it. */
  lemma StringRoundTrip(text: string, p: nat, x: string)
    requires NulFree(x) && Reads(text, p, Quote(x))
    ensures ParseString(text, p) == Ok(x, p + |Quote(x)|)
  {
    var end := p + 1 + |Escape(x)|;
    assert Reads(text, p, "\"") && Reads(text, p + 1, Escape(x)) && Reads(text, end, "\"") by {
      ReadsSplit(text, p, "\"" + Escape(x), end, "\"");
      ReadsSplit(text, p, "\"", p + 1, Escape(x));
    }
    ReadsHead(text, p, "\"");
    ReadsHead(text, end, "\"");
    UnescapeEscape(text, p + 1, x, end);
    ScansAgree(text, p + 1);
  }
}
