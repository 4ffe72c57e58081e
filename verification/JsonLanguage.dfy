/** The grammar of the texts that the JSON parser accepts. */
module JsonLanguage {
  import opened Common
  import opened CText
  import opened JsonString
  import opened JsonValue
  import opened Numerals

  // ---------- strings ----------

  function Letter(c: char): char {
    match c
    case 'b' => 8 as char
    case 'f' => 12 as char
    case 'n' => '\n'
    case 'r' => '\r'
    case 't' => '\t'
    case _ => c
  }

  predicate IsSurrogate(uc: nat) {
    0xD800 <= uc <= 0xDFFF
  }

  /** One character of a string, or one escape, and its bytes. */
  ghost predicate SpelledUnit(text: string, a: nat, c: nat, bytes: string) {
    a < c <= |text| && (
      || (c == a + 1 && text[a] != '"' && text[a] != '\\' && bytes == [text[a]])
      || (c == a + 2 && text[a] == '\\' && text[a + 1] != 'u' && bytes == [Letter(text[a + 1])])
      || (exists uc: nat :: 0 < uc < 0x1_0000 && !IsSurrogate(uc) && IsEscapeOf(text[a..c], uc) && bytes == Utf8(uc))
      || (c == a + 12 && exists uc: nat ::
            && 0x1_0000 <= uc < 0x11_0000 && bytes == Utf8(uc)
            && IsEscapeOf(text[a..a + 6], HighSurrogate(uc)) && IsEscapeOf(text[a + 6..c], LowSurrogate(uc))))
  }

  ghost predicate SpelledBody(text: string, a: nat, b: nat, s: string)
    decreases b - a, 1
  {
    if a >= b then a == b <= |text| && s == ""
    else exists c: nat, bytes :: CutBody(text, a, c, bytes, b, s)
  }

  ghost predicate CutBody(text: string, a: nat, c: nat, bytes: string, b: nat, s: string)
    decreases b - a, 0
  {
    c <= b && SpelledUnit(text, a, c, bytes) && bytes <= s && SpelledBody(text, c, b, s[|bytes|..])
  }

  /** Between quotes; the end of the text serves as the closing one. */
  ghost predicate SpelledString(text: string, p: nat, end: nat, s: string) {
    && p < end <= |text| && text[p] == '"'
    && ((p + 1 < end && text[end - 1] == '"' && SpelledBody(text, p + 1, end - 1, s))
        || (end == |text| && SpelledBody(text, p + 1, end, s)))
  }

  // ---------- numbers ----------

  /** What stands behind the letter `e`. */
  datatype ExpText = ExpText(letter: char, sign: string, digits: string) {
    predicate Valid() {
      (letter == 'e' || letter == 'E') && (sign == "" || sign == "+" || sign == "-") && AllDigits(digits)
    }

    function Text(): string {
      [letter] + (sign + digits)
    }

    function Value(): int
      requires Valid()
    {
      if sign == "-" then -(DecNumber(digits) as int) else DecNumber(digits)
    }
  }

  /** The parts of a number; empty digits of the fraction stand for no fraction. */
  datatype NumberText = NumberText(neg: bool, zero: bool, whole: string, fraction: string, exp: Option<ExpText>) {
    predicate Valid() {
      && (neg || zero || whole != "") && AllDigits(whole) && (whole != "" ==> whole[0] != '0')
      && AllDigits(fraction) && (exp.Some? ==> exp.value.Valid())
    }

    function WholeText(): string {
      (if neg then "-" else "") + ((if zero then "0" else "") + whole)
    }

    function FractionText(): string {
      if fraction == "" then "" else "." + fraction
    }

    function ExponentText(): string {
      if exp.None? then "" else exp.value.Text()
    }

    function Text(): string {
      WholeText() + (FractionText() + ExponentText())
    }

    function Value(): Json
      requires Valid()
    {
      var n: int := DecNumber(whole + fraction);
      Number(if neg then -n else n, (if exp.None? then 0 else exp.value.Value()) - |fraction|)
    }
  }

  /** A number, read as far as any number reaches. */
  ghost predicate SpelledNumber(text: string, p: nat, end: nat, v: Json) {
    && (exists n: NumberText :: n.Valid() && Reads(text, p, n.Text()) && end == p + |n.Text()| && n.Value() == v)
    && (forall m: NumberText :: m.Valid() && Reads(text, p, m.Text()) ==> p + |m.Text()| <= end)
  }

  // ---------- values ----------

  ghost predicate Blanks(text: string, a: nat, b: nat) {
    a <= b <= |text| && forall i :: a <= i < b ==> text[i] <= ' '
  }

  /** A value, without blanks around it. */
  ghost predicate Spelled(text: string, p: nat, end: nat, v: Json)
    decreases v, 1
  {
    && p < end <= |text|
    && match v
       case Null => text[p..end] == "null"
       case False => text[p..end] == "false"
       case True => text[p..end] == "true"
       case Number(_, _) => SpelledNumber(text, p, end, v)
       case String(s) => SpelledString(text, p, end, s)
       case Array(items) =>
         && p + 1 < end && text[p] == '[' && text[end - 1] == ']'
         && (if items == [] then Blanks(text, p + 1, end - 1) else SpelledItems(text, p + 1, end - 1, items))
       case Object(ms) =>
         && p + 1 < end && text[p] == '{' && text[end - 1] == '}'
         && (if ms == [] then Blanks(text, p + 1, end - 1) else SpelledMembers(text, p + 1, end - 1, ms))
  }

  /** A value and the blanks around it. */
  ghost predicate SpelledBetween(text: string, a: nat, b: nat, v: Json)
    decreases v, 3
  {
    exists i: nat, j: nat :: InBlanks(text, a, i, j, b, v)
  }

  ghost predicate InBlanks(text: string, a: nat, i: nat, j: nat, b: nat, v: Json)
    decreases v, 2
  {
    Blanks(text, a, i) && Spelled(text, i, j, v) && Blanks(text, j, b)
  }

  ghost predicate SpelledItems(text: string, a: nat, b: nat, items: seq<Json>)
    requires items != []
    decreases items, 1
  {
    if |items| == 1 then SpelledBetween(text, a, b, items[0]) else exists c: nat :: CutItems(text, a, c, b, items)
  }

  /** The first comma of a list that belongs to the list itself. */
  ghost predicate CutItems(text: string, a: nat, c: nat, b: nat, items: seq<Json>)
    requires |items| > 1
    decreases items, 0
  {
    && c < b <= |text| && text[c] == ','
    && SpelledBetween(text, a, c, items[0]) && SpelledItems(text, c + 1, b, items[1..])
  }

  ghost predicate SpelledMember(text: string, a: nat, b: nat, m: Member)
    decreases m, 5
  {
    exists i: nat, j: nat, k: nat :: CutMember(text, a, i, j, k, b, m)
  }

  /** The key, the colon, and the value. */
  ghost predicate CutMember(text: string, a: nat, i: nat, j: nat, k: nat, b: nat, m: Member)
    decreases m, 4
  {
    && k < b <= |text| && text[k] == ':' && Blanks(text, a, i) && SpelledString(text, i, j, m.key)
    && Blanks(text, j, k) && SpelledBetween(text, k + 1, b, m.value)
  }

  ghost predicate SpelledMembers(text: string, a: nat, b: nat, ms: seq<Member>)
    requires ms != []
    decreases ms, 1
  {
    if |ms| == 1 then SpelledMember(text, a, b, ms[0]) else exists c: nat :: CutMembers(text, a, c, b, ms)
  }

  ghost predicate CutMembers(text: string, a: nat, c: nat, b: nat, ms: seq<Member>)
    requires |ms| > 1
    decreases ms, 0
  {
    && c < b <= |text| && text[c] == ','
    && SpelledMember(text, a, c, ms[0]) && SpelledMembers(text, c + 1, b, ms[1..])
  }

  // ---------- strings are read as they are spelled ----------

  lemma SliceReads(text: string, p: nat, end: nat)
    requires p <= end <= |text|
    ensures Reads(text, p, text[p..end])
  {
  }

  lemma UnitRead(text: string, a: nat, c: nat, bytes: string)
    requires NulFree(text) && SpelledUnit(text, a, c, bytes)
    ensures !AtEnd(text, a) && bytes != "" && Unescape(text, a) == Prepend(bytes, Unescape(text, c))
  {
    if c == a + 1 {
    } else if c == a + 2 && text[a] == '\\' && text[a + 1] != 'u' {
    } else if c == a + 12 {
      PairRead(text, a, bytes);
    } else {
      EscapeRead(text, a, c, bytes);
    }
  }

  lemma EscapeRead(text: string, a: nat, c: nat, bytes: string)
    requires a < c <= |text|
    requires exists uc: nat :: 0 < uc < 0x1_0000 && !IsSurrogate(uc) && IsEscapeOf(text[a..c], uc) && bytes == Utf8(uc)
    ensures c == a + 6 && text[a] == '\\' && text[a + 1] == 'u' && bytes != ""
    ensures UnescapeOne(text, a + 1) == Some(Unit(bytes, 5))
  {
    var uc: nat :| 0 < uc < 0x1_0000 && !IsSurrogate(uc) && IsEscapeOf(text[a..c], uc) && bytes == Utf8(uc);
    SliceReads(text, a, c);
    assert text[a..c][0] == text[a] && text[a..c][1] == text[a + 1];
    CodePointDecoded(text, a, text[a..c], uc);
  }

  lemma PairRead(text: string, a: nat, bytes: string)
    requires a + 12 <= |text| && SpelledUnit(text, a, a + 12, bytes)
    ensures text[a] == '\\' && text[a + 1] == 'u' && bytes != ""
    ensures UnescapeOne(text, a + 1) == Some(Unit(bytes, 11))
  {
    var c := a + 12;
    var uc: nat :| 0x1_0000 <= uc < 0x11_0000 && bytes == Utf8(uc) &&
      IsEscapeOf(text[a..a + 6], HighSurrogate(uc)) && IsEscapeOf(text[a + 6..c], LowSurrogate(uc));
    SliceReads(text, a, a + 6);
    SliceReads(text, a + 6, c);
    assert text[a..a + 6][0] == text[a] && text[a..a + 6][1] == text[a + 1];
    PairDecoded(text, a, text[a..a + 6], text[a + 6..c], uc);
  }

  lemma {:induction false} BodyRead(text: string, a: nat, b: nat, s: string)
    requires NulFree(text) && SpelledBody(text, a, b, s) && b <= |text| && AtEnd(text, b)
    ensures a <= b && Unescape(text, a) == Some(Decoded(s, b))
    decreases b - a
  {
    if a < b {
      var c: nat, bytes :| CutBody(text, a, c, bytes, b, s);
      UnitRead(text, a, c, bytes);
      BodyRead(text, c, b, s[|bytes|..]);
      assert bytes + s[|bytes|..] == s;
    }
  }

  lemma StringRead(text: string, p: nat, end: nat, s: string)
    requires NulFree(text) && SpelledString(text, p, end, s)
    ensures ParseString(text, p) == Ok(s, end)
  {
    if p + 1 < end && text[end - 1] == '"' && SpelledBody(text, p + 1, end - 1, s) {
      BodyRead(text, p + 1, end - 1, s);
    } else {
      BodyRead(text, p + 1, end, s);
    }
    ScansAgree(text, p + 1);
  }

  // ---------- strings that are read are spelled ----------

  lemma UnitSpelled(text: string, a: nat) returns (c: nat, bytes: string)
    requires NulFree(text) && a < |text| && !AtEnd(text, a) && Unescape(text, a).Some?
    ensures SpelledUnit(text, a, c, bytes) && Unescape(text, a) == Prepend(bytes, Unescape(text, c))
  {
    if text[a] != '\\' {
      c, bytes := a + 1, [text[a]];
    } else {
      var u := UnescapeOne(text, a + 1).value;
      c, bytes := a + 1 + u.width, u.bytes;
      if text[a + 1] == 'u' {
        EscapeSpelled(text, a, c, bytes);
      }
    }
  }

  lemma EscapeSpelled(text: string, a: nat, c: nat, bytes: string)
    requires a + 1 < |text| && text[a] == '\\' && text[a + 1] == 'u' && a + 1 < c
    requires UnescapeUnicode(text, a + 1) == Some(Unit(bytes, c - a - 1))
    ensures SpelledUnit(text, a, c, bytes)
  {
    EscapeAt(text, a);
    var uc := ParseHex4(text, a + 2);
    if c == a + 6 {
      assert IsEscapeOf(text[a..c], uc) && bytes == Utf8(uc);
    } else {
      EscapeAt(text, a + 6);
      var pair := JoinSurrogates(uc, ParseHex4(text, a + 8));
      assert HighSurrogate(pair) == uc && LowSurrogate(pair) == ParseHex4(text, a + 8);
      assert IsEscapeOf(text[a..a + 6], HighSurrogate(pair)) && IsEscapeOf(text[a + 6..c], LowSurrogate(pair));
    }
  }

  lemma EscapeAt(text: string, a: nat)
    requires a + 1 < |text| && text[a] == '\\' && text[a + 1] == 'u' && ParseHex4(text, a + 2) != 0
    ensures a + 6 <= |text| && IsEscapeOf(text[a..a + 6], ParseHex4(text, a + 2))
  {
    Hex4IsNumber(text, a + 2);
    assert text[a..a + 6][2..] == text[a + 2..a + 6];
  }

  lemma {:induction false} BodySpelled(text: string, a: nat)
    requires NulFree(text) && a <= |text| && Unescape(text, a).Some?
    ensures var r := Unescape(text, a).value; SpelledBody(text, a, r.end, r.value) && AtEnd(text, r.end)
    decreases |text| - a
  {
    if !AtEnd(text, a) {
      var c, bytes := UnitSpelled(text, a);
      BodySpelled(text, c);
      var rest, r := Unescape(text, c).value, Unescape(text, a).value;
      assert r.value == bytes + rest.value && r.value[|bytes|..] == rest.value;
      assert CutBody(text, a, c, bytes, r.end, r.value);
    }
  }

  lemma StringSpelled(text: string, p: nat)
    requires NulFree(text) && p <= |text| && ParseString(text, p).Ok?
    ensures SpelledString(text, p, ParseString(text, p).end, ParseString(text, p).value)
  {
    BodySpelled(text, p + 1);
  }

  // ---------- printed strings are spelled shortest ----------

  /** No raw control character, as RFC 8259 section 7 demands. */
  predicate Clean(s: string) {
    forall i :: 0 <= i < |s| ==> s[i] >= ' '
  }

  /** What is printed for a character spells it, with lower-case digits. */
  lemma EscapeIsSpelled(c: char)
    requires c != NUL
    ensures var e := EscapeChar(c);
      SpelledUnit(e, 0, |e|, [c]) && Clean(e) && (|e| == 6 ==> forall i :: 2 <= i < 6 ==> !('A' <= e[i] <= 'F'))
  {
    var e := EscapeChar(c);
    if NeedsEscape(c) && ShortEscape(c).None? {
      assert ParseHex4(e, 2) == c as nat;
      EscapeAt(e, 0);
      assert e[0..6] == e;
    }
  }

  /** Nothing shorter does. */
  lemma EscapeIsShortest(c: char, s: string)
    requires c != NUL && SpelledUnit(s, 0, |s|, [c]) && Clean(s)
    ensures |EscapeChar(c)| <= |s|
  {
    if |s| > 2 {
      assert |s| >= 6;
    }
  }

  // ---------- numbers ----------

  lemma {:induction false} DigitRun(text: string, p: nat, before: string, s: string, end: nat)
    requires AllDigits(before) && AllDigits(s) && Reads(text, p, s) && end == p + |s|
    ensures ParseDigits(text, p, DecNumber(before)) == ParseDigits(text, end, DecNumber(before + s))
    decreases |s|
  {
    if s == "" {
      assert before + s == before;
    } else {
      var more := before + [s[0]];
      assert s == [s[0]] + s[1..] && more[..|before|] == before && more + s[1..] == before + s;
      ReadsHead(text, p, s);
      ReadsSplit(text, p, [s[0]], p + 1, s[1..]);
      DigitRun(text, p + 1, more, s[1..], end);
    }
  }

  /** Digits are read as long as there are any, whatever has been read before them. */
  lemma {:induction false} DigitsStop(text: string, p: nat, acc: nat)
    requires p <= |text|
    ensures var e := ParseDigits(text, p, acc).end;
      AllDigits(text[p..e]) && !IsDigit(At(text, e)) && (e == p <==> !IsDigit(At(text, p)))
    decreases |text| - p
  {
    if IsDigit(At(text, p)) {
      var next := acc * 10 + (text[p] as nat - '0' as nat);
      DigitsStop(text, p + 1, next);
      var e := ParseDigits(text, p, acc).end;
      assert text[p..e] == [text[p]] + text[p + 1..e];
    }
  }

  /** The digits behind `before`, all of them, and their value. */
  lemma DigitsSliced(text: string, p: nat, before: string) returns (s: string)
    requires p <= |text| && AllDigits(before)
    ensures var r := ParseDigits(text, p, DecNumber(before));
      && s == text[p..r.end] && AllDigits(s) && r.value == DecNumber(before + s) && (s == "" <==> !IsDigit(At(text, p)))
  {
    var e := ParseDigits(text, p, DecNumber(before)).end;
    s := text[p..e];
    DigitsStop(text, p, DecNumber(before));
    SliceReads(text, p, e);
    DigitRun(text, p, before, s, e);
  }

  /** Some digits that stand there are not more than those that are read; if they are all, the value is theirs. */
  lemma DigitsCompared(text: string, p: nat, before: string, s: string, end: nat)
    requires AllDigits(before) && AllDigits(s) && Reads(text, p, s) && end == p + |s|
    ensures var r := ParseDigits(text, p, DecNumber(before));
      && end <= r.end && (end < r.end ==> IsDigit(At(text, end))) && (end == r.end ==> r.value == DecNumber(before + s))
  {
    DigitRun(text, p, before, s, end);
    DigitsStop(text, end, DecNumber(before + s));
  }

  // ---------- a number that stands there, and the number that is read ----------

  /** Where the parts of a number end. */
  lemma NumberParts(text: string, p: nat, n: NumberText, w: nat, f: nat, end: nat)
    requires n.Valid() && Reads(text, p, n.Text()) && w == p + |n.WholeText()|
    requires f == w + |n.FractionText()| && end == f + |n.ExponentText()|
    ensures Reads(text, p, n.WholeText()) && Reads(text, w, n.FractionText()) && Reads(text, f, n.ExponentText())
    ensures end == p + |n.Text()| <= |text|
  {
    ReadsSplit3(text, p, n.WholeText(), w, n.FractionText(), f, n.ExponentText());
  }

  function AfterSign(text: string, p: nat): nat {
    if At(text, p) == '-' then p + 1 else p
  }

  lemma WholeParts(text: string, p: nat, n: NumberText, q: nat, d: nat, w: nat)
    requires p < |text| && n.Valid() && Reads(text, p, n.WholeText())
    requires q == p + (if n.neg then 1 else 0) && d == q + (if n.zero then 1 else 0) && w == d + |n.whole|
    ensures w == p + |n.WholeText()| && q == AfterSign(text, p) && n.neg == (text[p] == '-')
    ensures n.zero ==> At(text, q) == '0'
    ensures Reads(text, d, n.whole) && (n.whole != "" ==> '1' <= At(text, d) <= '9')
  {
    var sign, zero := if n.neg then "-" else "", if n.zero then "0" else "";
    assert Reads(text, p, sign) && Reads(text, q, zero) && Reads(text, d, n.whole) by {
      ReadsSplit3(text, p, sign, q, zero, d, n.whole);
    }
    if n.neg {
      ReadsHead(text, p, sign);
    }
    if n.zero {
      ReadsHead(text, q, zero);
    }
    if n.whole != "" {
      ReadsHead(text, d, n.whole);
    }
  }

  lemma WholeCompared(text: string, p: nat, n: NumberText, w: nat)
    requires p < |text| && n.Valid() && Reads(text, p, n.WholeText()) && w == p + |n.WholeText()|
    ensures AfterSign(text, p) <= |text| && n.neg == (text[p] == '-')
    ensures var r := ParseWhole(text, AfterSign(text, p));
      && w <= r.end && (w < r.end ==> IsDigit(At(text, w))) && (w == r.end ==> r.value == DecNumber(n.whole))
  {
    var q := p + if n.neg then 1 else 0;
    var d := q + if n.zero then 1 else 0;
    WholeParts(text, p, n, q, d, w);
    if n.whole != "" {
      DigitsCompared(text, d, "", n.whole, w);
      assert "" + n.whole == n.whole;
    }
  }

  lemma FractionCompared(text: string, n: NumberText, w: nat, f: nat, whole: Numeral)
    requires n.Valid() && Reads(text, w, n.FractionText()) && f == w + |n.FractionText()|
    requires w == whole.end && whole.value == DecNumber(n.whole)
    ensures var r := ParseFraction(text, whole);
      && f <= r.end && (f < r.end ==> At(text, f) == '.' || IsDigit(At(text, f)))
      && (f == r.end ==> r.value == DecNumber(n.whole + n.fraction))
  {
    if n.fraction == "" {
      assert n.whole + n.fraction == n.whole;
    } else {
      ReadsSplit(text, w, ".", w + 1, n.fraction);
      ReadsHead(text, w, ".");
      ReadsHead(text, w + 1, n.fraction);
      DigitsCompared(text, w + 1, n.whole, n.fraction, f);
    }
  }

  /** Where the digits of an exponent begin, behind its sign if there is one. */
  function ExponentDigits(text: string, p: nat): nat {
    if At(text, p + 1) == '+' || At(text, p + 1) == '-' then p + 2 else p + 1
  }

  lemma ExponentUnfolded(text: string, p: nat, q: nat, d: Numeral)
    requires p < |text| && (text[p] == 'e' || text[p] == 'E')
    requires q == ExponentDigits(text, p) && d == ParseDigits(text, q, 0)
    ensures ParseExponent(text, p) == Exponent(if At(text, p + 1) == '-' then -(d.value as int) else d.value, d.end)
  {
  }

  lemma ExpTextParts(text: string, p: nat, e: ExpText, q: nat)
    requires e.Valid() && Reads(text, p, e.Text()) && q == p + 1 + |e.sign|
    ensures p < |text| && text[p] == e.letter && Reads(text, q, e.digits)
    ensures e.sign != "" ==> At(text, p + 1) == e.sign[0]
    ensures e.sign == "" && e.digits != "" ==> IsDigit(At(text, p + 1))
  {
    assert Reads(text, p, [e.letter]) && Reads(text, p + 1, e.sign) && Reads(text, q, e.digits) by {
      ReadsSplit3(text, p, [e.letter], p + 1, e.sign, q, e.digits);
    }
    ReadsHead(text, p, [e.letter]);
    if e.sign != "" {
      ReadsHead(text, p + 1, e.sign);
    } else if e.digits != "" {
      ReadsHead(text, q, e.digits);
    }
  }

  lemma ExpTextCompared(text: string, p: nat, e: ExpText, end: nat)
    requires e.Valid() && Reads(text, p, e.Text()) && end == p + |e.Text()|
    ensures var r := ParseExponent(text, p); end <= r.end && (end == r.end ==> r.value == e.Value())
  {
    var q, d := p + 1 + |e.sign|, ExponentDigits(text, p);
    ExpTextParts(text, p, e, q);
    ExponentUnfolded(text, p, d, ParseDigits(text, d, 0));
    if d == q {
      DigitsCompared(text, q, "", e.digits, end);
      assert "" + e.digits == e.digits;
    }
  }

  lemma ExponentCompared(text: string, n: NumberText, f: nat, end: nat)
    requires n.Valid() && f <= |text| && Reads(text, f, n.ExponentText()) && end == f + |n.ExponentText()|
    ensures var r := ParseExponent(text, f);
      end <= r.end && (end == r.end ==> r.value == if n.exp.None? then 0 else n.exp.value.Value())
  {
    if n.exp.Some? {
      ExpTextCompared(text, f, n.exp.value, end);
    }
  }

  /** No number that stands there is longer than the one read, and one that is as long has its value. */
  lemma NumberCompared(text: string, p: nat, n: NumberText)
    requires p < |text| && n.Valid() && Reads(text, p, n.Text())
    ensures var r := ParseNumber(text, p);
      p + |n.Text()| <= r.end && (p + |n.Text()| == r.end ==> r.value == n.Value())
  {
    var w := p + |n.WholeText()|;
    var f := w + |n.FractionText()|;
    var end := f + |n.ExponentText()|;
    NumberParts(text, p, n, w, f, end);
    var whole := ParseWhole(text, AfterSign(text, p));
    assert w <= whole.end && (w < whole.end ==> IsDigit(At(text, w))) by {
      WholeCompared(text, p, n, w);
    }
    if w < whole.end {
      NothingBehind(text, n, w, f, end);
    } else {
      assert n.neg == (text[p] == '-') && whole.value == DecNumber(n.whole) by {
        WholeCompared(text, p, n, w);
      }
      RestCompared(text, n, w, f, end, whole);
      var all := ParseFraction(text, whole);
      if end == ParseExponent(text, all.end).end {
        NumberUnfolded(text, p, n, whole, all, ParseExponent(text, all.end));
      }
    }
  }

  /** The same from the fraction on. */
  lemma RestCompared(text: string, n: NumberText, w: nat, f: nat, end: nat, whole: Numeral)
    requires n.Valid() && w == whole.end <= |text| && whole.value == DecNumber(n.whole)
    requires Reads(text, w, n.FractionText()) && f == w + |n.FractionText()|
    requires Reads(text, f, n.ExponentText()) && end == f + |n.ExponentText()|
    ensures var all := ParseFraction(text, whole);
      var exp := ParseExponent(text, all.end);
      && end <= exp.end
      && (end == exp.end ==>
            && all.value == DecNumber(n.whole + n.fraction)
            && (if n.fraction == "" then all == whole else all.end == w + 1 + |n.fraction|)
            && exp.value == if n.exp.None? then 0 else n.exp.value.Value())
  {
    var all := ParseFraction(text, whole);
    FractionCompared(text, n, w, f, whole);
    if f < all.end {
      NoExponent(text, n, f, end);
    } else {
      ExponentCompared(text, n, f, end);
    }
  }

  lemma NoExponent(text: string, n: NumberText, f: nat, end: nat)
    requires n.Valid() && Reads(text, f, n.ExponentText()) && end == f + |n.ExponentText()|
    requires At(text, f) != 'e' && At(text, f) != 'E'
    ensures end == f
  {
    if n.exp.Some? {
      ReadsHead(text, f, n.ExponentText());
    }
  }

  lemma NothingBehind(text: string, n: NumberText, w: nat, f: nat, end: nat)
    requires n.Valid() && Reads(text, w, n.FractionText()) && f == w + |n.FractionText()|
    requires Reads(text, f, n.ExponentText()) && end == f + |n.ExponentText()| && IsDigit(At(text, w))
    ensures end == w
  {
    if n.fraction != "" {
      ReadsHead(text, w, n.FractionText());
    }
    NoExponent(text, n, f, end);
  }

  // ---------- the number that is read stands there ----------

  lemma Glued(text: string, p: nat, q: nat, r: nat, end: nat)
    requires p <= q <= r <= end <= |text|
    ensures text[p..end] == text[p..q] + (text[q..r] + text[r..end])
  {
  }

  /** One character, or none. */
  lemma OneSliced(text: string, p: nat, q: nat, c: char)
    requires p <= q <= |text| && (q == p || (q == p + 1 && text[p] == c))
    ensures text[p..q] == if q == p + 1 then [c] else ""
  {
  }

  lemma WholeFound(text: string, p: nat) returns (neg: bool, zero: bool, whole: string)
    requires p < |text| && (text[p] == '-' || IsDigit(text[p]))
    ensures neg == (text[p] == '-') && AllDigits(whole) && (neg || zero || whole != "")
    ensures whole != "" ==> whole[0] != '0'
    ensures var r := ParseWhole(text, AfterSign(text, p));
      text[p..r.end] == (if neg then "-" else "") + ((if zero then "0" else "") + whole) && r.value == DecNumber(whole)
  {
    var q := AfterSign(text, p);
    neg, zero := text[p] == '-', At(text, q) == '0';
    var d := if zero then q + 1 else q;
    whole := WholeDigits(text, q, d);
    OneSliced(text, p, q, '-');
    OneSliced(text, q, d, '0');
    Glued(text, p, q, d, ParseWhole(text, q).end);
  }

  lemma WholeDigits(text: string, q: nat, d: nat) returns (whole: string)
    requires q <= |text| && d == if At(text, q) == '0' then q + 1 else q
    ensures var r := ParseWhole(text, q);
      && d <= r.end && whole == text[d..r.end] && AllDigits(whole) && r.value == DecNumber(whole)
      && (whole != "" ==> '1' <= text[d] <= '9') && (whole == "" ==> !('1' <= At(text, d) <= '9'))
  {
    whole := "";
    if '1' <= At(text, d) <= '9' {
      whole := DigitsSliced(text, d, "");
      assert "" + whole == whole;
    }
  }

  lemma FractionFound(text: string, whole: string, w: Numeral) returns (fraction: string)
    requires w.end <= |text| && AllDigits(whole) && w.value == DecNumber(whole)
    ensures var r := ParseFraction(text, w);
      && AllDigits(fraction) && r.value == DecNumber(whole + fraction)
      && (if fraction == "" then r == w else r.end == w.end + 1 + |fraction|)
      && text[w.end..r.end] == if fraction == "" then "" else "." + fraction
  {
    if At(text, w.end) == '.' && IsDigit(At(text, w.end + 1)) {
      fraction := DigitsSliced(text, w.end + 1, whole);
    } else {
      fraction := "";
      assert whole + fraction == whole;
    }
  }

  lemma ExpTextFound(text: string, p: nat) returns (e: ExpText)
    requires p < |text| && (text[p] == 'e' || text[p] == 'E')
    ensures var r := ParseExponent(text, p); e.Valid() && r.value == e.Value() && text[p..r.end] == e.Text()
  {
    var q := ExponentDigits(text, p);
    var digits := DigitsSliced(text, q, "");
    assert "" + digits == digits;
    ExponentUnfolded(text, p, q, ParseDigits(text, q, 0));
    Glued(text, p, p + 1, q, ParseDigits(text, q, 0).end);
    OneSliced(text, p + 1, q, At(text, p + 1));
    e := ExpText(text[p], text[p + 1..q], digits);
    assert text[p..p + 1] == [text[p]];
  }

  lemma ExponentFound(text: string, p: nat) returns (exp: Option<ExpText>)
    requires p <= |text|
    ensures exp.Some? ==> exp.value.Valid()
    ensures var r := ParseExponent(text, p);
      && r.value == (if exp.None? then 0 else exp.value.Value())
      && text[p..r.end] == if exp.None? then "" else exp.value.Text()
  {
    if At(text, p) != 'e' && At(text, p) != 'E' {
      exp := None;
    } else {
      var e := ExpTextFound(text, p);
      exp := Some(e);
    }
  }

  /** The three parts behind one another. */
  lemma NumberGlued(text: string, p: nat, w: nat, f: nat, end: nat, n: NumberText)
    requires p <= w <= f <= end <= |text| && n.WholeText() == text[p..w]
    requires n.FractionText() == text[w..f] && n.ExponentText() == text[f..end]
    ensures n.Text() == text[p..end]
  {
    Glued(text, p, w, f, end);
  }

  lemma NumberUnfolded(text: string, p: nat, n: NumberText, w: Numeral, all: Numeral, exp: Exponent)
    requires p < |text| && n.Valid() && n.neg == (text[p] == '-') && w == ParseWhole(text, AfterSign(text, p))
    requires all == ParseFraction(text, w) && exp == ParseExponent(text, all.end)
    requires all.value == DecNumber(n.whole + n.fraction)
    requires if n.fraction == "" then all == w else all.end == w.end + 1 + |n.fraction|
    requires exp.value == if n.exp.None? then 0 else n.exp.value.Value()
    ensures ParseNumber(text, p) == Ok(n.Value(), exp.end)
  {
  }

  lemma NumberFound(text: string, p: nat) returns (n: NumberText)
    requires p < |text| && (text[p] == '-' || IsDigit(text[p]))
    ensures var r := ParseNumber(text, p); n.Valid() && n.Text() == text[p..r.end] && n.Value() == r.value
  {
    var w := ParseWhole(text, AfterSign(text, p));
    var all := ParseFraction(text, w);
    var neg, zero, whole := WholeFound(text, p);
    var fraction := FractionFound(text, whole, w);
    var exp := ExponentFound(text, all.end);
    n := NumberText(neg, zero, whole, fraction, exp);
    NumberGlued(text, p, w.end, all.end, ParseExponent(text, all.end).end, n);
    NumberUnfolded(text, p, n, w, all, ParseExponent(text, all.end));
  }

  lemma NumberSpelled(text: string, p: nat)
    requires p < |text| && (text[p] == '-' || IsDigit(text[p]))
    ensures SpelledNumber(text, p, ParseNumber(text, p).end, ParseNumber(text, p).value)
  {
    var n := NumberFound(text, p);
    SliceReads(text, p, ParseNumber(text, p).end);
    assert n.Valid() && Reads(text, p, n.Text());
    forall m: NumberText | m.Valid() && Reads(text, p, m.Text()) ensures p + |m.Text()| <= ParseNumber(text, p).end {
      NumberCompared(text, p, m);
    }
  }

  lemma NumberRead(text: string, p: nat, end: nat, v: Json)
    requires SpelledNumber(text, p, end, v) && p < |text|
    ensures (text[p] == '-' || IsDigit(text[p])) && ParseNumber(text, p) == Ok(v, end) && p < end
  {
    var n: NumberText :| n.Valid() && Reads(text, p, n.Text()) && end == p + |n.Text()| && n.Value() == v;
    NumberStarts(text, p, n);
    var r := ParseNumber(text, p);
    assert end <= r.end && (end == r.end ==> r.value == v) by {
      NumberCompared(text, p, n);
    }
    assert r.end <= end by {
      NoneLonger(text, p, end, v);
    }
  }

  /** The number that is read stands there too, so it is not longer than the longest. */
  lemma NoneLonger(text: string, p: nat, end: nat, v: Json)
    requires SpelledNumber(text, p, end, v) && p < |text| && (text[p] == '-' || IsDigit(text[p]))
    ensures ParseNumber(text, p).end <= end
  {
    var m := NumberFound(text, p);
    SliceReads(text, p, ParseNumber(text, p).end);
    assert m.Valid() && Reads(text, p, m.Text());
  }

  lemma NumberStarts(text: string, p: nat, n: NumberText)
    requires n.Valid() && Reads(text, p, n.Text())
    ensures p < |text| && n.Text() != "" && (text[p] == '-' || IsDigit(text[p]))
  {
    ReadsHead(text, p, n.Text());
  }

  // ---------- values are read as they are spelled ----------

  lemma {:induction false} BlanksSkipped(text: string, a: nat, b: nat)
    requires NulFree(text) && Blanks(text, a, b) && !(NUL < At(text, b) <= ' ')
    ensures Skip(text, a) == b
    decreases b - a
  {
    if a < b {
      BlanksSkipped(text, a + 1, b);
    }
  }

  lemma {:induction false} SkippedBlanks(text: string, a: nat)
    requires a <= |text|
    ensures Blanks(text, a, Skip(text, a)) && !(NUL < At(text, Skip(text, a)) <= ' ')
    decreases |text| - a
  {
    if NUL < At(text, a) <= ' ' {
      SkippedBlanks(text, a + 1);
    }
  }

  predicate IsWord(text: string, p: nat, end: nat, word: string) {
    p <= end <= |text| && text[p..end] == word
  }

  lemma WordRead(text: string, p: nat, end: nat, word: string)
    requires IsWord(text, p, end, word) && |word| >= 4
    ensures Word4(text, p, word[0], word[1], word[2], word[3]) && (|word| > 4 ==> At(text, p + 4) == word[4])
    ensures end == p + |word|
  {
    forall i | 0 <= i < |word| ensures text[p + i] == word[i] {
      assert text[p..end][i] == text[p + i];
    }
  }

  /** A value begins with a character that is no blank. */
  lemma SpelledStarts(text: string, p: nat, end: nat, v: Json)
    requires NulFree(text) && Spelled(text, p, end, v)
    ensures p < |text| && text[p] > ' '
  {
    if v.Number? {
      NumberRead(text, p, end, v);
    } else if v.Null? {
      WordRead(text, p, end, "null");
    } else if v.False? {
      WordRead(text, p, end, "false");
    } else if v.True? {
      WordRead(text, p, end, "true");
    }
  }

  /** Which function reads a value is decided by its first character. */
  lemma ValueBegins(text: string, p: nat)
    requires p < |text|
    ensures text[p] == '"' && ParseString(text, p).Ok? ==>
      ParseValue(text, p) == Ok(String(ParseString(text, p).value), ParseString(text, p).end)
    ensures text[p] == '-' || IsDigit(text[p]) ==> ParseValue(text, p) == ParseNumber(text, p)
    ensures text[p] == '[' ==> ParseValue(text, p) == ParseArray(text, p)
    ensures text[p] == '{' ==> ParseValue(text, p) == ParseObject(text, p)
  {
  }

  lemma WordParsed(text: string, p: nat, end: nat, v: Json)
    requires (v.Null? || v.False? || v.True?) && Spelled(text, p, end, v)
    ensures ParseValue(text, p) == Ok(v, end)
  {
    match v
    case Null => WordRead(text, p, end, "null");
    case False => WordRead(text, p, end, "false");
    case True => WordRead(text, p, end, "true");
  }

  lemma {:induction false} SpelledIsParsed(text: string, p: nat, end: nat, v: Json)
    requires NulFree(text) && Spelled(text, p, end, v)
    ensures ParseValue(text, p) == Ok(v, end)
    decreases v, 1
  {
    ValueBegins(text, p);
    match v
    case Number(_, _) => NumberRead(text, p, end, v);
    case String(s) => StringRead(text, p, end, s);
    case Array(items) => ArrayIsParsed(text, p, end, items);
    case Object(ms) => ObjectIsParsed(text, p, end, ms);
    case _ => WordParsed(text, p, end, v);
  }

  lemma {:induction false} ArrayIsParsed(text: string, p: nat, end: nat, items: seq<Json>)
    requires NulFree(text) && p + 1 < end <= |text| && text[p] == '[' && text[end - 1] == ']'
    requires if items == [] then Blanks(text, p + 1, end - 1) else SpelledItems(text, p + 1, end - 1, items)
    ensures ParseArray(text, p) == Ok(Array(items), end)
    decreases items, 2
  {
    if items == [] {
      BlanksSkipped(text, p + 1, end - 1);
    } else {
      ItemsAreParsed(text, p + 1, end - 1, items);
      ItemsSkip(text, p + 1, Skip(text, p + 1));
    }
  }

  lemma {:induction false} ObjectIsParsed(text: string, p: nat, end: nat, ms: seq<Member>)
    requires NulFree(text) && p + 1 < end <= |text| && text[p] == '{' && text[end - 1] == '}'
    requires if ms == [] then Blanks(text, p + 1, end - 1) else SpelledMembers(text, p + 1, end - 1, ms)
    ensures ParseObject(text, p) == Ok(Object(ms), end)
    decreases ms, 2
  {
    if ms == [] {
      BlanksSkipped(text, p + 1, end - 1);
    } else {
      MembersAreParsed(text, p + 1, end - 1, ms);
      var q := Skip(text, p + 1);
      MembersSkip(text, p + 1, q, ParseMembers(text, q));
    }
  }

  lemma SkipTwice(text: string, a: nat, q: nat)
    requires a <= |text| && q == Skip(text, a)
    ensures Skip(text, q) == q
  {
    SkippedBlanks(text, a);
  }

  /** The first element is what comes behind the blanks. */
  lemma ItemsSkip(text: string, a: nat, q: nat)
    requires a <= |text| && q == Skip(text, a)
    ensures ParseItems(text, a) == ParseItems(text, q)
  {
    SkipTwice(text, a, q);
  }

  lemma MemberSkip(text: string, a: nat, q: nat)
    requires a <= |text| && q == Skip(text, a)
    ensures ParseMember(text, a) == ParseMember(text, q)
  {
    SkipTwice(text, a, q);
  }

  lemma MembersSkip(text: string, a: nat, q: nat, r: Parsed<seq<Member>>)
    requires a <= |text| && q == Skip(text, a) && r == ParseMembers(text, q)
    ensures ParseMembers(text, a) == r
  {
    MemberSkip(text, a, q);
  }

  /** A value with blanks around it, in front of a comma or a bracket. */
  lemma {:induction false} BetweenIsParsed(text: string, a: nat, b: nat, v: Json) returns (i: nat, j: nat)
    requires NulFree(text) && SpelledBetween(text, a, b, v) && b < |text| && text[b] > ' '
    ensures a <= i < |text| && i == Skip(text, a) && text[i] > ' '
    ensures ParseValue(text, i) == Ok(v, j) && Skip(text, j) == b
    decreases v, 3
  {
    i, j :| InBlanks(text, a, i, j, b, v);
    SpelledStarts(text, i, j, v);
    BlanksSkipped(text, a, i);
    SpelledIsParsed(text, i, j, v);
    BlanksSkipped(text, j, b);
  }

  lemma LastItem(text: string, a: nat, v: Json, j: nat, b: nat)
    requires a <= |text| && ParseValue(text, Skip(text, a)) == Ok(v, j) && b == Skip(text, j) && At(text, b) != ','
    ensures ParseItems(text, a) == Ok([v], b)
  {
    ItemStep(text, a, v, j, b);
  }

  lemma NextItem(text: string, a: nat, v: Json, j: nat, c: nat, next: nat, more: seq<Json>, b: nat)
    requires a <= |text| && ParseValue(text, Skip(text, a)) == Ok(v, j) && c == Skip(text, j) && At(text, c) == ','
    requires next == c + 1 <= |text| && ParseItems(text, next) == Ok(more, b)
    ensures ParseItems(text, a) == Ok([v] + more, b)
  {
    ItemStep(text, a, v, j, c);
  }

  lemma {:induction false} ItemsAreParsed(text: string, a: nat, b: nat, items: seq<Json>)
    requires NulFree(text) && items != [] && SpelledItems(text, a, b, items) && b < |text| && text[b] == ']'
    ensures a <= |text| && ParseItems(text, a) == Ok(items, b) && At(text, Skip(text, a)) != ']'
    decreases items, 1
  {
    if |items| == 1 {
      var i, j := BetweenIsParsed(text, a, b, items[0]);
      NoBracket(text, i, j, items[0]);
      LastItem(text, a, items[0], j, b);
      assert items == [items[0]];
    } else {
      var c: nat :| CutItems(text, a, c, b, items);
      MoreItemsParsed(text, a, c, c + 1, b, items, items[0], items[1..]);
    }
  }

  lemma {:induction false} MoreItemsParsed(text: string, a: nat, c: nat, next: nat, b: nat, items: seq<Json>,
                                           v: Json, more: seq<Json>)
    requires NulFree(text) && |items| > 1 && v == items[0] && more == items[1..] && next == c + 1
    requires c < b < |text| && text[c] == ',' && text[b] == ']'
    requires SpelledBetween(text, a, c, v) && SpelledItems(text, next, b, more)
    ensures a <= |text| && ParseItems(text, a) == Ok(items, b) && At(text, Skip(text, a)) != ']'
    decreases items, 0
  {
    var i, j := BetweenIsParsed(text, a, c, v);
    assert At(text, Skip(text, a)) != ']' by {
      NoBracket(text, i, j, v);
    }
    assert ParseItems(text, next) == Ok(more, b) by {
      ItemsAreParsed(text, next, b, more);
    }
    NextItem(text, a, v, j, c, next, more, b);
    assert items == [v] + more;
  }

  /** No value begins with a closing bracket. */
  lemma NoBracket(text: string, i: nat, j: nat, v: Json)
    requires i < |text| && ParseValue(text, i) == Ok(v, j)
    ensures text[i] != ']' && text[i] != '}'
  {
  }

  lemma MemberFrom(text: string, a: nat, i: nat, key: string, j: nat, k: nat, v: Json, end: nat)
    requires a <= |text| && i == Skip(text, a) && ParseString(text, i) == Ok(key, j) && k == Skip(text, j)
    requires At(text, k) == ':' && k < |text| && ParseValue(text, Skip(text, k + 1)) == Ok(v, end)
    ensures ParseMember(text, a) == Ok(Member(key, v), end)
  {
  }

  lemma {:induction false} MemberIsParsed(text: string, a: nat, b: nat, m: Member) returns (end: nat)
    requires NulFree(text) && SpelledMember(text, a, b, m) && b < |text| && text[b] > ' '
    ensures a <= |text| && ParseMember(text, a) == Ok(m, end) && Skip(text, end) == b && At(text, Skip(text, a)) == '"'
    decreases m, 5
  {
    var i: nat, j: nat, k: nat :| CutMember(text, a, i, j, k, b, m);
    KeyIsParsed(text, a, i, j, k, m.key);
    var v;
    v, end := BetweenIsParsed(text, k + 1, b, m.value);
    MemberFrom(text, a, i, m.key, j, k, m.value, end);
  }

  lemma KeyIsParsed(text: string, a: nat, i: nat, j: nat, k: nat, key: string)
    requires NulFree(text) && k < |text| && text[k] == ':' && Blanks(text, a, i)
    requires SpelledString(text, i, j, key) && Blanks(text, j, k)
    ensures i == Skip(text, a) && ParseString(text, i) == Ok(key, j) && k == Skip(text, j)
  {
    BlanksSkipped(text, a, i);
    StringRead(text, i, j, key);
    BlanksSkipped(text, j, k);
  }

  lemma LastMember(text: string, a: nat, m: Member, j: nat, b: nat)
    requires a <= |text| && ParseMember(text, a) == Ok(m, j) && b == Skip(text, j) && At(text, b) != ','
    ensures ParseMembers(text, a) == Ok([m], b)
  {
    MemberStep(text, a, m, j, b);
  }

  lemma NextMember(text: string, a: nat, m: Member, j: nat, c: nat, next: nat, more: seq<Member>, b: nat)
    requires a <= |text| && ParseMember(text, a) == Ok(m, j) && c == Skip(text, j) && At(text, c) == ','
    requires next == c + 1 <= |text| && ParseMembers(text, next) == Ok(more, b)
    ensures ParseMembers(text, a) == Ok([m] + more, b)
  {
    MemberStep(text, a, m, j, c);
  }

  lemma {:induction false} MembersAreParsed(text: string, a: nat, b: nat, ms: seq<Member>)
    requires NulFree(text) && ms != [] && SpelledMembers(text, a, b, ms) && b < |text| && text[b] == '}'
    ensures a <= |text| && ParseMembers(text, a) == Ok(ms, b) && At(text, Skip(text, a)) != '}'
    decreases ms, 1
  {
    if |ms| == 1 {
      var end := MemberIsParsed(text, a, b, ms[0]);
      LastMember(text, a, ms[0], end, b);
      assert ms == [ms[0]];
    } else {
      var c: nat :| CutMembers(text, a, c, b, ms);
      MoreMembersParsed(text, a, c, c + 1, b, ms, ms[0], ms[1..]);
    }
  }

  lemma {:induction false} MoreMembersParsed(text: string, a: nat, c: nat, next: nat, b: nat, ms: seq<Member>,
                                             m: Member, more: seq<Member>)
    requires NulFree(text) && |ms| > 1 && m == ms[0] && more == ms[1..] && next == c + 1
    requires c < b < |text| && text[c] == ',' && text[b] == '}'
    requires SpelledMember(text, a, c, m) && SpelledMembers(text, next, b, more)
    ensures a <= |text| && ParseMembers(text, a) == Ok(ms, b) && At(text, Skip(text, a)) != '}'
    decreases ms, 0
  {
    var end := MemberIsParsed(text, a, c, m);
    assert ParseMembers(text, next) == Ok(more, b) by {
      MembersAreParsed(text, next, b, more);
    }
    NextMember(text, a, m, end, c, next, more, b);
    assert ms == [m] + more;
  }

  // ---------- values that are read are spelled ----------

  lemma WordFound(text: string, p: nat, word: string)
    requires 4 <= |word| <= 5 && NUL !in word && Word4(text, p, word[0], word[1], word[2], word[3])
    requires |word| == 5 ==> At(text, p + 4) == word[4]
    ensures IsWord(text, p, p + |word|, word)
  {
    assert At(text, p + |word| - 1) == word[|word| - 1];
    assert text[p..p + |word|] == word;
  }

  lemma {:induction false} ParsedIsSpelled(text: string, p: nat)
    requires NulFree(text) && p <= |text| && ParseValue(text, p).Ok?
    ensures Spelled(text, p, ParseValue(text, p).end, ParseValue(text, p).value)
    decreases |text| - p, 0
  {
    var v := ParseValue(text, p).value;
    match v
    case Null => WordFound(text, p, "null");
    case False => WordFound(text, p, "false");
    case True => WordFound(text, p, "true");
    case Number(_, _) => NumberSpelled(text, p);
    case String(_) => StringSpelled(text, p);
    case Array(_) => ArrayIsSpelled(text, p);
    case Object(_) => ObjectIsSpelled(text, p);
  }

  lemma {:induction false} ArrayIsSpelled(text: string, p: nat)
    requires NulFree(text) && p < |text| && ParseArray(text, p).Ok?
    ensures Spelled(text, p, ParseArray(text, p).end, ParseArray(text, p).value)
    decreases |text| - p - 1, 5
  {
    var a := p + 1;
    var q := Skip(text, a);
    SkippedBlanks(text, a);
    if At(text, q) != ']' {
      assert ParseItems(text, a) == ParseItems(text, q) by {
        ItemsSkip(text, a, q);
      }
      ItemsAreSpelled(text, a);
    }
  }

  lemma {:induction false} ObjectIsSpelled(text: string, p: nat)
    requires NulFree(text) && p < |text| && ParseObject(text, p).Ok?
    ensures Spelled(text, p, ParseObject(text, p).end, ParseObject(text, p).value)
    decreases |text| - p - 1, 5
  {
    var a := p + 1;
    var q := Skip(text, a);
    SkippedBlanks(text, a);
    if At(text, q) != '}' {
      assert ParseMembers(text, a) == ParseMembers(text, q) by {
        MembersSkip(text, a, q, ParseMembers(text, q));
      }
      MembersAreSpelled(text, a);
    }
  }

  lemma {:induction false} BetweenSpelled(text: string, a: nat)
    requires NulFree(text) && a <= |text| && ParseValue(text, Skip(text, a)).Ok?
    ensures var r := ParseValue(text, Skip(text, a)); SpelledBetween(text, a, Skip(text, r.end), r.value)
    decreases |text| - a, 1
  {
    var r := ParseValue(text, Skip(text, a));
    SkippedBlanks(text, a);
    ParsedIsSpelled(text, Skip(text, a));
    SkippedBlanks(text, r.end);
    assert InBlanks(text, a, Skip(text, a), r.end, Skip(text, r.end), r.value);
  }

  lemma {:induction false} ItemsAreSpelled(text: string, a: nat)
    requires NulFree(text) && a <= |text| && ParseItems(text, a).Ok?
    ensures var r := ParseItems(text, a); r.value != [] && SpelledItems(text, a, r.end, r.value)
    decreases |text| - a, 3
  {
    var v := ParseValue(text, Skip(text, a));
    var c := Skip(text, v.end);
    assert SpelledBetween(text, a, c, v.value) by {
      BetweenSpelled(text, a);
    }
    if At(text, c) != ',' {
      LastItem(text, a, v.value, v.end, c);
    } else {
      NextItemsSpelled(text, a, v.value, v.end, c, c + 1, ParseItems(text, a));
    }
  }

  lemma {:induction false} NextItemsSpelled(text: string, a: nat, v: Json, j: nat, c: nat, next: nat,
                                            all: Parsed<seq<Json>>)
    requires NulFree(text) && a <= |text| && ParseValue(text, Skip(text, a)) == Ok(v, j)
    requires all == ParseItems(text, a) && all.Ok?
    requires c == Skip(text, j) && At(text, c) == ',' && next == c + 1 && a < next <= |text|
    requires SpelledBetween(text, a, c, v)
    ensures all.value != [] && SpelledItems(text, a, all.end, all.value)
    decreases |text| - a, 2
  {
    var more := ParseItems(text, next);
    assert more.Ok? && all == Ok([v] + more.value, more.end) by {
      ItemStep(text, a, v, j, c);
    }
    assert more.value != [] && SpelledItems(text, next, more.end, more.value) by {
      ItemsAreSpelled(text, next);
    }
    MoreItemsSpelled(text, a, c, next, more.end, v, more.value);
  }

  lemma MoreItemsSpelled(text: string, a: nat, c: nat, next: nat, b: nat, v: Json, more: seq<Json>)
    requires c < b <= |text| && text[c] == ',' && next == c + 1 && SpelledBetween(text, a, c, v)
    requires more != [] && SpelledItems(text, next, b, more)
    ensures SpelledItems(text, a, b, [v] + more)
  {
    assert ([v] + more)[1..] == more;
    assert CutItems(text, a, c, b, [v] + more);
  }

  lemma {:induction false} MemberIsSpelled(text: string, a: nat)
    requires NulFree(text) && a <= |text| && ParseMember(text, a).Ok?
    ensures var r := ParseMember(text, a); SpelledMember(text, a, Skip(text, r.end), r.value)
    decreases |text| - a, 2
  {
    var i := Skip(text, a);
    var key := ParseString(text, i);
    var k := Skip(text, key.end);
    SkippedBlanks(text, a);
    StringSpelled(text, i);
    SkippedBlanks(text, key.end);
    BetweenSpelled(text, k + 1);
    assert CutMember(text, a, i, key.end, k, Skip(text, ParseMember(text, a).end), ParseMember(text, a).value);
  }

  lemma {:induction false} MembersAreSpelled(text: string, a: nat)
    requires NulFree(text) && a <= |text| && ParseMembers(text, a).Ok?
    ensures var r := ParseMembers(text, a); r.value != [] && SpelledMembers(text, a, r.end, r.value)
    decreases |text| - a, 4
  {
    var m := ParseMember(text, a);
    var c := Skip(text, m.end);
    assert SpelledMember(text, a, c, m.value) by {
      MemberIsSpelled(text, a);
    }
    if At(text, c) != ',' {
      LastMember(text, a, m.value, m.end, c);
    } else {
      NextMembersSpelled(text, a, m.value, m.end, c, c + 1, ParseMembers(text, a));
    }
  }

  lemma MembersFollow(text: string, a: nat, m: Member, j: nat, c: nat, more: Parsed<seq<Member>>,
                      all: Parsed<seq<Member>>)
    requires a <= |text| && ParseMember(text, a) == Ok(m, j) && c == Skip(text, j) && At(text, c) == ','
    requires more == ParseMembers(text, c + 1) && all == ParseMembers(text, a) && all.Ok?
    ensures more.Ok? && all == Ok([m] + more.value, more.end)
  {
    MemberStep(text, a, m, j, c);
  }

  lemma {:induction false} NextMembersSpelled(text: string, a: nat, m: Member, j: nat, c: nat, next: nat,
                                              all: Parsed<seq<Member>>)
    requires NulFree(text) && a <= |text| && ParseMember(text, a) == Ok(m, j)
    requires all == ParseMembers(text, a) && all.Ok?
    requires c == Skip(text, j) && At(text, c) == ',' && next == c + 1 && a < next <= |text|
    requires SpelledMember(text, a, c, m)
    ensures all.value != [] && SpelledMembers(text, a, all.end, all.value)
    decreases |text| - a, 3
  {
    var more := ParseMembers(text, next);
    MembersFollow(text, a, m, j, c, more, all);
    assert more.value != [] && SpelledMembers(text, next, more.end, more.value) by {
      MembersAreSpelled(text, next);
    }
    MoreMembersSpelled(text, a, c, next, more.end, m, more.value);
  }

  lemma MoreMembersSpelled(text: string, a: nat, c: nat, next: nat, b: nat, m: Member, more: seq<Member>)
    requires c < b <= |text| && text[c] == ',' && next == c + 1 && SpelledMember(text, a, c, m)
    requires more != [] && SpelledMembers(text, next, b, more)
    ensures SpelledMembers(text, a, b, [m] + more)
  {
    assert ([m] + more)[1..] == more;
    assert CutMembers(text, a, c, b, [m] + more);
  }

  // ---------- the accepted language ----------

  /** A value is read from a position on if and only if it is spelled from there to the end that is returned. */
  lemma ReadIffSpelled(text: string, p: nat, end: nat, v: Json)
    requires NulFree(text) && p <= |text|
    ensures ParseValue(text, p) == Ok(v, end) <==> Spelled(text, p, end, v)
  {
    if ParseValue(text, p).Ok? {
      ParsedIsSpelled(text, p);
    }
    if Spelled(text, p, end, v) {
      SpelledIsParsed(text, p, end, v);
    }
  }

  /** A value behind blanks; if nothing else is allowed, only blanks behind it. */
  ghost predicate SpelledDocument(text: string, alone: bool, end: nat, v: Json) {
    exists i, j :: Blanks(text, 0, i) && Spelled(text, i, j, v) &&
      if alone then end == |text| && Blanks(text, j, end) else end == j
  }

  /** Exactly the spelled documents are accepted, as the values that they spell. */
  lemma AcceptedIffSpelled(text: string, alone: bool, end: nat, v: Json)
    requires NulFree(text)
    ensures Parse(text, alone) == Ok(v, end) <==> SpelledDocument(text, alone, end, v)
  {
    var i := Skip(text, 0);
    var r := ParseValue(text, i);
    SkippedBlanks(text, 0);
    if r.Ok? {
      ReadIffSpelled(text, i, r.end, r.value);
      SkippedBlanks(text, r.end);
    }
    if SpelledDocument(text, alone, end, v) {
      DocumentRead(text, alone, end, v);
    }
  }

  lemma DocumentRead(text: string, alone: bool, end: nat, v: Json)
    requires NulFree(text) && SpelledDocument(text, alone, end, v)
    ensures Parse(text, alone) == Ok(v, end)
  {
    var i, j :| Blanks(text, 0, i) && Spelled(text, i, j, v) &&
      if alone then end == |text| && Blanks(text, j, end) else end == j;
    SpelledStarts(text, i, j, v);
    BlanksSkipped(text, 0, i);
    SpelledIsParsed(text, i, j, v);
    if alone {
      BlanksSkipped(text, j, end);
    }
  }
}
