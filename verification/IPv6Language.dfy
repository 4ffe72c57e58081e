/** The grammar of the texts that `evutil_inet_pton` accepts as IPv6 addresses. */
module IPv6Language {
  import opened Common
  import opened CText
  import opened Numerals
  import opened IPv6
  import opened IPv6RoundTrip

  // ---------- words ----------

  predicate Prefixed(t: string) {
    |t| > 2 && t[0] == '0' && (t[1] == 'x' || t[1] == 'X') && AllHex(t[2..])
  }

  /** A word: at most four characters, which are hex digits, or `0x` and hex digits. */
  predicate IsToken(t: string) {
    1 <= |t| <= 4 && (AllHex(t) || Prefixed(t))
  }

  function TokenValue(t: string): Word
    requires IsToken(t)
  {
    assert Pow16(4) == 16 * Pow16(3) == 256 * Pow16(2) == 4096 * Pow16(1) == 65536;
    HexNumber(if Prefixed(t) then t[2..] else t)
  }

  predicate AllTokens(ts: seq<string>) {
    forall i :: 0 <= i < |ts| ==> IsToken(ts[i])
  }

  function Values(ts: seq<string>): (ws: seq<Word>)
    requires AllTokens(ts)
    ensures |ws| == |ts|
  {
    if ts == [] then [] else [TokenValue(ts[0])] + Values(ts[1..])
  }

  /** Words with a colon behind each. */
  function Spell(ts: seq<string>): string {
    if ts == [] then "" else ts[0] + (":" + Spell(ts[1..]))
  }

  // ---------- numbers ----------

  predicate IsBlank(c: char) {
    c == ' ' || '\t' <= c <= '\r'
  }

  /** What `%d` takes for a number. */
  datatype Number = Number(blanks: string, sign: string, digits: string) {
    predicate Valid() {
      && (forall i :: 0 <= i < |blanks| ==> IsBlank(blanks[i]))
      && (sign == "" || sign == "+" || sign == "-")
      && digits != "" && AllDigits(digits)
    }

    function Text(): string {
      blanks + (sign + digits)
    }

    function Value(): int
      requires Valid()
    {
      if sign == "-" then 0 - DecNumber(digits) else DecNumber(digits)
    }
  }

  // ---------- addresses ----------

  /**
    How an address is written: words in front of the gap, words behind it, all with their colons, a last
    word without a colon, and the four numbers of the dotted part. The empty text and the empty sequence
    stand for no last word and no dotted part.
    */
  datatype Spelling = Spelling(front: seq<string>, gap: bool, back: seq<string>, last: string, dotted: seq<Number>) {
    predicate ValidWords() {
      AllTokens(front) && AllTokens(back) && (last == "" || IsToken(last)) && (!gap ==> back == [])
    }

    /** Four bytes; only the first number must be without blanks and sign. The dotted part follows a colon. */
    predicate ValidDotted() {
      dotted == [] || (
        |dotted| == 4 && AreBytes(dotted) && last == "" && dotted[0].blanks == "" && dotted[0].sign == "")
    }

    /** How many of the eight words are spelled out. */
    function Count(): nat {
      |front| + |back| + (if last == "" then 0 else 1) + (if dotted == [] then 0 else 2)
    }

    /** The rules: a gap stands for at least one word, and without a gap there are eight. */
    predicate Valid() {
      ValidWords() && ValidDotted() && (if gap then Count() < 8 else Count() == 8)
    }

    function Mark(): string {
      if !gap then "" else if front == [] then "::" else ":"
    }

    function WordsText(): string {
      Spell(front) + (Mark() + (Spell(back) + last))
    }

    function Text(): string
      requires ValidDotted()
    {
      WordsText() + DottedText(dotted)
    }

    /** The words that are spelled as words. */
    function Plain(): seq<Word>
      requires ValidWords()
    {
      Values(front) + Values(back) + (if last == "" then [] else [TokenValue(last)])
    }

    function Address(): (addr: seq<Byte>)
      requires Valid()
      ensures |addr| == 16
    {
      var behind := Plain()[|front|..] + DottedWords(dotted);
      Bytes(Values(front) + ZeroWords(8 - Count()) + behind)
    }
  }

  function DottedText(ns: seq<Number>): string
    requires ns == [] || |ns| == 4
  {
    if ns == [] then ""
    else ns[0].Text() + ("." + (ns[1].Text() + ("." + (ns[2].Text() + ("." + ns[3].Text())))))
  }

  predicate AreBytes(ns: seq<Number>) {
    forall i :: 0 <= i < |ns| ==> ns[i].Valid() && IsByte(ns[i].Value())
  }

  function WordOf(hi: Number, lo: Number): Word
    requires AreBytes([hi, lo])
  {
    assert [hi, lo][0] == hi && [hi, lo][1] == lo;
    hi.Value() * 256 + lo.Value()
  }

  function DottedWords(ns: seq<Number>): (ws: seq<Word>)
    requires (ns == [] || |ns| == 4) && AreBytes(ns)
    ensures |ws| == if ns == [] then 0 else 2
  {
    if ns == [] then [] else [WordOf(ns[0], ns[1]), WordOf(ns[2], ns[3])]
  }

  // ---------- spelled words are parsed ----------

  lemma {:induction false} HexRun(text: string, p: nat, s: string, end: nat)
    requires Reads(text, p, s) && AllHex(s) && end == p + |s|
    ensures ParseHex(text, p, 0) == ParseHex(text, end, HexNumber(s))
    decreases |s|
  {
    if s != "" {
      var k := |s| - 1;
      assert s == s[..k] + [s[k]];
      ReadsSplit(text, p, s[..k], end - 1, [s[k]]);
      ReadsHead(text, end - 1, [s[k]]);
      HexRun(text, p, s[..k], end - 1);
    }
  }

  /** A word is read whole when no hex digit and no `x` follows it. */
  lemma TokenParsed(text: string, p: nat, t: string, end: nat)
    requires IsToken(t) && Reads(text, p, t) && end == p + |t|
    requires !IsHex(At(text, end)) && At(text, end) != 'x' && At(text, end) != 'X'
    ensures p < |text| && IsHex(text[p]) && Strtol16(text, p) == Numeral(TokenValue(t), end)
  {
    ReadsHead(text, p, t);
    if Prefixed(t) {
      assert t == t[..2] + t[2..];
      ReadsSplit(text, p, t[..2], p + 2, t[2..]);
      ReadsAt(text, p, t, 1);
      ReadsAt(text, p, t, 2);
      HexRun(text, p + 2, t[2..], end);
    } else {
      if |t| > 1 {
        ReadsAt(text, p, t, 1);
      }
      HexRun(text, p, t, end);
    }
  }

  /** One word, in front of a colon or at the end, is appended to the words. */
  lemma WordAppended(text: string, p: nat, t: string, end: nat, eow: nat, g: Groups)
    requires eow <= |text| && -1 <= g.gap <= |g.words| <= 7
    requires IsToken(t) && Reads(text, p, t) && end == p + |t| <= eow && WordEnds(text, end, eow)
    ensures ParseGroups(text, p, eow, g) == ParseGroups(text, end + 1, eow, Groups(g.words + [TokenValue(t)], g.gap))
  {
    TokenParsed(text, p, t, end);
  }

  lemma {:induction false} SpellParsed(text: string, p: nat, ts: seq<string>, s: string, end: nat, eow: nat, g: Groups)
    requires eow <= |text| && -1 <= g.gap <= |g.words|
    requires AllTokens(ts) && |g.words| + |ts| <= 8 && s == Spell(ts)
    requires Reads(text, p, s) && end == p + |s| <= eow
    ensures ParseGroups(text, p, eow, g) == ParseGroups(text, end, eow, Groups(g.words + Values(ts), g.gap))
    decreases |ts|
  {
    if ts == [] {
      assert g.words + [] == g.words;
    } else {
      var rest := Spell(ts[1..]);
      var q := p + |ts[0]|;
      var next := Groups(g.words + [TokenValue(ts[0])], g.gap);
      SpellParts(text, p, ts, s, q, rest);
      assert ParseGroups(text, p, eow, g) == ParseGroups(text, q + 1, eow, next) by {
        WordAppended(text, p, ts[0], q, eow, g);
      }
      SpellParsed(text, q + 1, ts[1..], rest, end, eow, next);
      ValuesBehind(g.words, ts);
    }
  }

  lemma SpellParts(text: string, p: nat, ts: seq<string>, s: string, q: nat, rest: string)
    requires ts != [] && s == Spell(ts) && rest == Spell(ts[1..]) && q == p + |ts[0]| && Reads(text, p, s)
    ensures Reads(text, p, ts[0]) && text[q] == ':' && Reads(text, q + 1, rest) && p + |s| == q + 1 + |rest|
  {
    ReadsSplit3(text, p, ts[0], q, ":", q + 1, rest);
    ReadsHead(text, q, ":");
  }

  lemma ValuesBehind(words: seq<Word>, ts: seq<string>)
    requires ts != [] && AllTokens(ts)
    ensures words + [TokenValue(ts[0])] + Values(ts[1..]) == words + Values(ts)
  {
  }

  lemma MarkParsed(text: string, p: nat, end: nat, eow: nat, s: Spelling)
    requires s.ValidWords() && s.gap && |s.front| <= 7 && eow <= |text|
    requires Reads(text, p, s.Mark()) && end == p + |s.Mark()| <= eow
    ensures ParseGroups(text, p, eow, Groups(Values(s.front), -1)) ==
            ParseGroups(text, end, eow, Groups(Values(s.front), |s.front|))
  {
    ReadsAt(text, p, s.Mark(), 0);
    if s.front == [] {
      ReadsAt(text, p, s.Mark(), 1);
    }
  }

  /** The last word, if there is one. */
  lemma LastParsed(text: string, p: nat, t: string, g: Groups)
    requires (t == "" || IsToken(t)) && Reads(text, p, t) && p + |t| <= |text| && -1 <= g.gap <= |g.words|
    requires if t == "" then true else |g.words| <= 7 && p + |t| == |text|
    ensures ParseGroups(text, p, p + |t|, g) ==
            Some(Groups(g.words + (if t == "" then [] else [TokenValue(t)]), g.gap))
  {
    if t == "" {
      assert g.words + [] == g.words;
    } else {
      WordAppended(text, p, t, |text|, |text|, g);
    }
  }

  function GapAt(s: Spelling): int {
    if s.gap then |s.front| else -1
  }

  /** All the words of a spelling are read. */
  lemma WordsParsed(text: string, s: Spelling, eow: nat)
    requires s.Valid() && Reads(text, 0, s.WordsText()) && eow == |s.WordsText()|
    requires s.last != "" ==> eow == |text|
    ensures ParseGroups(text, 0, eow, Groups([], -1)) == Some(Groups(s.Plain(), GapAt(s)))
  {
    var a, b := Spell(s.front), Spell(s.back);
    var p, q := |a|, |a| + |s.Mark()|;
    var r := q + |b|;
    assert Reads(text, 0, a) && Reads(text, p, s.Mark()) && Reads(text, q, b) && Reads(text, r, s.last) by {
      ReadsSplit4(text, 0, a, p, s.Mark(), q, b, r, s.last);
    }
    SpellParsed(text, 0, s.front, a, p, eow, Groups([], -1));
    assert [] + Values(s.front) == Values(s.front);
    if s.gap {
      MarkParsed(text, p, q, eow, s);
    }
    SpellParsed(text, q, s.back, b, r, eow, Groups(Values(s.front), GapAt(s)));
    LastParsed(text, r, s.last, Groups(Values(s.front) + Values(s.back), GapAt(s)));
  }

  // ---------- spelled numbers are scanned ----------

  lemma {:induction false} DigitRun(text: string, p: nat, s: string, end: nat)
    requires Reads(text, p, s) && AllDigits(s) && end == p + |s|
    ensures ParseDigits(text, p, 0) == ParseDigits(text, end, DecNumber(s))
    decreases |s|
  {
    if s != "" {
      var k := |s| - 1;
      assert s == s[..k] + [s[k]];
      ReadsSplit(text, p, s[..k], end - 1, [s[k]]);
      ReadsHead(text, end - 1, [s[k]]);
      DigitRun(text, p, s[..k], end - 1);
    }
  }

  lemma {:induction false} BlanksSkipped(text: string, p: nat, end: nat)
    requires p <= end <= |text| && (forall i :: p <= i < end ==> IsBlank(text[i])) && !IsBlank(At(text, end))
    ensures SkipSpace(text, p) == end
    decreases end - p
  {
    if p < end {
      BlanksSkipped(text, p + 1, end);
    }
  }

  lemma NumberScanned(text: string, p: nat, n: Number, end: nat)
    requires n.Valid() && Reads(text, p, n.Text()) && end == p + |n.Text()| && !IsDigit(At(text, end))
    ensures ScanInt(text, p) == Some(Scanned(n.Value(), end))
  {
    var q := p + |n.blanks|;
    var d := q + |n.sign|;
    assert Reads(text, p, n.blanks) && Reads(text, q, n.sign) && Reads(text, d, n.digits) by {
      ReadsSplit3(text, p, n.blanks, q, n.sign, d, n.digits);
    }
    forall i | p <= i < q ensures IsBlank(text[i]) {
      ReadsAt(text, p, n.blanks, i - p);
    }
    ReadsHead(text, d, n.digits);
    if n.sign != "" {
      ReadsHead(text, q, n.sign);
    }
    BlanksSkipped(text, p, q);
    DigitRun(text, d, n.digits, end);
  }

  /** A number with a dot behind it. */
  lemma NumberAndDot(text: string, p: nat, n: Number, q: nat, rest: string)
    requires n.Valid() && Reads(text, p, n.Text() + ("." + rest)) && q == p + |n.Text()| + 1
    ensures ScanIntDot(text, p) == Some(Scanned(n.Value(), q)) && Reads(text, q, rest)
  {
    ReadsSplit3(text, p, n.Text(), q - 1, ".", q, rest);
    ReadsHead(text, q - 1, ".");
    NumberScanned(text, p, n, q - 1);
  }

  lemma ScannedDotted(text: string, p: nat, p1: nat, p2: nat, p3: nat, a: Number, b: Number, c: Number, d: Number)
    requires p <= |text| && p1 <= |text| && p2 <= |text| && p3 <= |text| && AreBytes([a, b, c, d])
    requires a.Valid() && ScanIntDot(text, p) == Some(Scanned(a.Value(), p1))
    requires b.Valid() && ScanIntDot(text, p1) == Some(Scanned(b.Value(), p2))
    requires c.Valid() && ScanIntDot(text, p2) == Some(Scanned(c.Value(), p3))
    requires d.Valid() && ScanInt(text, p3) == Some(Scanned(d.Value(), |text|))
    ensures ScanDotted(text, p) == Some(DottedWords([a, b, c, d]))
  {
    var ns := [a, b, c, d];
    assert ns[0] == a && ns[1] == b && ns[2] == c && ns[3] == d;
  }

  lemma NumbersScanned(text: string, p: nat, ns: seq<Number>)
    requires |ns| == 4 && AreBytes(ns)
    requires Reads(text, p, DottedText(ns)) && p + |DottedText(ns)| == |text|
    ensures ScanDotted(text, p) == Some(DottedWords(ns))
  {
    var a, b, c, d := ns[0], ns[1], ns[2], ns[3];
    var t3 := d.Text();
    var t2 := c.Text() + ("." + t3);
    var t1 := b.Text() + ("." + t2);
    assert DottedText(ns) == a.Text() + ("." + t1);
    assert AreBytes([a, b, c, d]) && ns == [a, b, c, d];
    FourScanned(text, p, a, t1, b, t2, c, t3, d);
  }

  lemma FourScanned(text: string, p: nat, a: Number, t1: string, b: Number, t2: string, c: Number, t3: string,
                    d: Number)
    requires a.Valid() && b.Valid() && c.Valid() && d.Valid() && AreBytes([a, b, c, d])
    requires t3 == d.Text() && t2 == c.Text() + ("." + t3) && t1 == b.Text() + ("." + t2)
    requires Reads(text, p, a.Text() + ("." + t1)) && p + |a.Text()| + 1 + |t1| == |text|
    ensures ScanDotted(text, p) == Some(DottedWords([a, b, c, d]))
  {
    var p1 := p + |a.Text()| + 1;
    var p2 := p1 + |b.Text()| + 1;
    var p3 := p2 + |c.Text()| + 1;
    assert ScanIntDot(text, p) == Some(Scanned(a.Value(), p1)) && Reads(text, p1, t1) by {
      NumberAndDot(text, p, a, p1, t1);
    }
    assert ScanIntDot(text, p1) == Some(Scanned(b.Value(), p2)) && Reads(text, p2, t2) by {
      NumberAndDot(text, p1, b, p2, t2);
    }
    assert ScanIntDot(text, p2) == Some(Scanned(c.Value(), p3)) && Reads(text, p3, t3) by {
      NumberAndDot(text, p2, c, p3, t3);
    }
    assert ScanInt(text, p3) == Some(Scanned(d.Value(), |text|)) by {
      NumberScanned(text, p3, d, |text|);
    }
    ScannedDotted(text, p, p1, p2, p3, a, b, c, d);
  }

  // ---------- where the words end ----------

  lemma {:induction false} SpellShape(ts: seq<string>)
    requires AllTokens(ts)
    ensures DotFree(Spell(ts)) && (ts != [] ==> Spell(ts) != "" && Spell(ts)[|Spell(ts)| - 1] == ':')
  {
    if ts != [] {
      SpellShape(ts[1..]);
      TokenDotFree(ts[0]);
    }
  }

  lemma TokenDotFree(t: string)
    requires IsToken(t)
    ensures DotFree(t)
  {
    forall i | 0 <= i < |t| ensures t[i] != '.' {
      if Prefixed(t) && i >= 2 {
        assert t[i] == t[2..][i - 2];
      }
    }
  }

  lemma WordsShape(s: Spelling)
    requires s.Valid()
    ensures DotFree(s.WordsText())
    ensures s.dotted != [] ==> s.WordsText() != "" && s.WordsText()[|s.WordsText()| - 1] == ':'
  {
    var a, b := Spell(s.front), Spell(s.back);
    SpellShape(s.front);
    SpellShape(s.back);
    assert DotFree(s.last) by {
      if s.last != "" {
        TokenDotFree(s.last);
      }
    }
    WordsEndIn(a, s.Mark(), b, s.last);
  }

  lemma WordsEndIn(a: string, mark: string, b: string, last: string)
    requires DotFree(a) && DotFree(b) && DotFree(last) && (mark == "" || mark == ":" || mark == "::")
    requires (a != "" ==> a[|a| - 1] == ':') && (b != "" ==> b[|b| - 1] == ':')
    ensures var all := a + (mark + (b + last));
      DotFree(all) && (last == "" && all != "" ==> all[|all| - 1] == ':')
  {
  }

  lemma DottedBegins(s: Spelling, text: string, p: nat)
    requires s.Valid() && s.dotted != [] && text == s.Text() && p == |s.WordsText()|
    ensures FindDot(text, 0) < |text| && BackDigits(text, FindDot(text, 0)) == p && 0 < p
    ensures Reads(text, 0, s.WordsText()) && Reads(text, p, DottedText(s.dotted))
  {
    var ns := s.dotted;
    var rest := ns[1].Text() + ("." + (ns[2].Text() + ("." + ns[3].Text())));
    var digits := ns[0].digits;
    assert ns[0].Valid();
    assert ns[0].Text() == digits;
    assert DottedText(ns) == digits + ("." + rest);
    WordsShape(s);
    EmbeddedSplit(text, s.WordsText(), digits, rest);
  }

  lemma AssembledGap(g: Groups, v4: seq<Word>, missing: nat)
    requires 0 <= g.gap <= |g.words| && missing == 8 - (|g.words| + |v4|) && missing > 0
    ensures Assemble(g, v4) == Some(g.words[..g.gap] + ZeroWords(missing) + g.words[g.gap..] + v4)
  {
    assert |g.words| + |v4| == 8 - missing;
  }

  /** Words around a gap, or words that need none. */
  lemma AssembledWords(g: Groups, n: nat, missing: nat, zeros: seq<Word>, v4: seq<Word>)
    requires n <= |g.words| && (g.gap == n || (g.gap == -1 && missing == 0)) && (g.gap == n ==> missing > 0)
    requires missing == 8 - (|g.words| + |v4|) && zeros == ZeroWords(missing)
    ensures Assemble(g, v4) == Some(g.words[..n] + zeros + (g.words[n..] + v4))
  {
    if g.gap == n {
      AssembledGap(g, v4, missing);
      Around(g.words[..n], zeros, g.words[n..], v4);
    } else {
      NothingBetween(g.words, n, v4);
    }
  }

  lemma Around(a: seq<Word>, zeros: seq<Word>, b: seq<Word>, v4: seq<Word>)
    ensures a + zeros + (b + v4) == a + zeros + b + v4
  {
  }

  lemma NothingBetween(words: seq<Word>, n: nat, v4: seq<Word>)
    requires n <= |words|
    ensures words[..n] + [] + (words[n..] + v4) == words + v4
  {
  }

  /** The words of a spelling, with the zeros of the gap and the dotted part. */
  lemma SpelledAssembled(s: Spelling)
    requires s.Valid()
    ensures var ws := Assemble(Groups(s.Plain(), GapAt(s)), DottedWords(s.dotted));
      ws.Some? && Bytes(ws.value) == s.Address()
  {
    var ws, n, missing, v4 := s.Plain(), |s.front|, 8 - s.Count(), DottedWords(s.dotted);
    var zeros := ZeroWords(missing);
    assert ws[..n] == Values(s.front) && |ws| + |v4| == s.Count();
    AssembledWords(Groups(ws, GapAt(s)), n, missing, zeros, v4);
    assert s.Address() == Bytes(ws[..n] + zeros + (ws[n..] + v4));
  }

  /** Every spelling is accepted, and what is returned is the address that it spells. */
  lemma SpelledIsParsed(s: Spelling)
    requires s.Valid()
    ensures Pton(s.Text()) == Some(s.Address())
  {
    var text := s.Text();
    var eow := |s.WordsText()|;
    SpelledAssembled(s);
    if s.dotted == [] {
      assert text == s.WordsText();
      assert FindDot(text, 0) == |text| by {
        WordsShape(s);
        FirstDot(text, 0, |text|);
      }
      ReadsWhole(text);
      WordsParsed(text, s, eow);
    } else {
      DottedBegins(s, text, eow);
      WordsParsed(text, s, eow);
      NumbersScanned(text, eow, s.dotted);
    }
  }

  // ---------- accepted texts are spelled ----------

  lemma {:induction false} HexEnds(text: string, p: nat, acc: nat)
    requires p <= |text|
    ensures var e := ParseHex(text, p, acc).end; AllHex(text[p..e]) && !IsHex(At(text, e))
    decreases |text| - p
  {
    var v := HexVal(At(text, p));
    if v.Some? {
      HexEnds(text, p + 1, acc * 16 + v.value);
      var e := ParseHex(text, p, acc).end;
      assert text[p..e] == [text[p]] + text[p + 1..e];
    }
  }

  /** What `strtol` reads within four characters is a word. */
  lemma TokenRead(text: string, p: nat, e: nat)
    requires p < |text| && IsHex(text[p]) && e == Strtol16(text, p).end <= p + 4
    ensures IsToken(text[p..e]) && !IsHex(At(text, e))
  {
    if text[p] == '0' && (At(text, p + 1) == 'x' || At(text, p + 1) == 'X') && IsHex(At(text, p + 2)) {
      HexEnds(text, p + 2, 0);
      assert text[p..e][2..] == text[p + 2..e];
      assert ParseHex(text, p + 3, HexVal(text[p + 2]).value).end == e;
    } else {
      HexEnds(text, p, 0);
    }
  }

  /** The words end at the end of the text, or at the digits in front of the first dot. */
  ghost predicate Stops(text: string, eow: nat, dot: nat) {
    && eow <= dot <= |text| && (forall i :: eow <= i < dot ==> IsDigit(text[i]))
    && if dot < |text| then eow < dot && text[dot] == '.' else eow == dot
  }

  /** A word that is accepted does not reach into the dotted part. */
  lemma WordStops(text: string, p: nat, eow: nat, dot: nat, e: nat)
    requires Stops(text, eow, dot) && p < eow
    requires IsHex(text[p]) && e == Strtol16(text, p).end <= p + 4 && (At(text, e) == ':' || e == eow)
    ensures e <= eow && (e == eow ==> eow == |text|) && (e < eow ==> text[e] == ':')
  {
    TokenRead(text, p, e);
    TokenDotFree(text[p..e]);
    if dot < e {
      NoDotWithin(text, p, e, dot);
    }
  }

  lemma NoDotWithin(text: string, p: nat, e: nat, k: nat)
    requires p <= k < e <= |text| && DotFree(text[p..e])
    ensures text[k] != '.'
  {
    assert text[p..e][k - p] == text[k];
  }

  lemma Cut(text: string, p: nat, q: nat, end: nat, a: string)
    requires p <= q <= end <= |text| && a == text[p..q]
    ensures text[p..end] == a + text[q..end]
  {
  }

  function MarkBehind(words: seq<Word>, s: Spelling): string {
    if !s.gap then "" else if words == [] && s.front == [] then "::" else ":"
  }

  /** What is left of the words, behind those in `g`, is spelled by `s`. */
  ghost predicate Spells(text: string, p: nat, eow: nat, g: Groups, s: Spelling)
    requires p <= eow <= |text|
  {
    && s.ValidWords() && s.dotted == [] && (s.gap ==> g.gap == -1) && (s.last != "" ==> eow == |text|)
    && text[p..eow] == Spell(s.front) + (MarkBehind(g.words, s) + (Spell(s.back) + s.last))
  }

  /** As many words are spelled as are read. */
  ghost predicate Counted(g: Groups, s: Spelling, r: Groups) {
    && |r.words| == |g.words| + |s.front| + |s.back| + (if s.last == "" then 0 else 1)
    && (r.gap == -1 <==> g.gap == -1 && !s.gap)
  }

  function WithWord(t: string, s: Spelling): Spelling {
    s.(front := [t] + s.front)
  }

  lemma WordSpelled(text: string, p: nat, e: nat, eow: nat, g: Groups, v: Word, s: Spelling)
    requires p < e < eow <= |text| && IsToken(text[p..e]) && text[e] == ':'
    requires Spells(text, e + 1, eow, Groups(g.words + [v], g.gap), s)
    ensures Spells(text, p, eow, g, WithWord(text[p..e], s))
  {
    var t := text[p..e];
    var rest := MarkBehind(g.words + [v], s) + (Spell(s.back) + s.last);
    assert ([t] + s.front)[1..] == s.front;
    Cut(text, p, e, eow, t);
    Cut(text, e, e + 1, eow, ":");
    Regroup(":", Spell(s.front), rest);
    Regroup(t, ":" + Spell(s.front), rest);
  }

  lemma GapSpelled(text: string, p: nat, q: nat, eow: nat, g: Groups, n: nat, s: Spelling)
    requires p <= q <= eow <= |text| && g.gap == -1
    requires text[p..q] == if g.words == [] then "::" else ":"
    requires Spells(text, q, eow, Groups(g.words, n), s)
    ensures Spells(text, p, eow, g, Spelling([], true, s.front, s.last, []))
  {
    var mark := text[p..q];
    Cut(text, p, q, eow, mark);
    assert Spell(s.front) + ("" + ("" + s.last)) == Spell(s.front) + s.last;
    assert "" + (mark + (Spell(s.front) + s.last)) == mark + (Spell(s.front) + s.last);
  }

  lemma WordTaken(text: string, p: nat, eow: nat, dot: nat, g: Groups, e: nat, next: Groups)
    requires Stops(text, eow, dot) && p < eow && -1 <= g.gap <= |g.words| && IsHex(text[p])
    requires ParseGroups(text, p, eow, g).Some? && e == Strtol16(text, p).end
    requires next == Groups(g.words + [Strtol16(text, p).value % 65536], g.gap)
    ensures p < e <= eow && IsToken(text[p..e]) && ParseGroups(text, e + 1, eow, next) == ParseGroups(text, p, eow, g)
    ensures (e == eow ==> eow == |text|) && (e < eow ==> text[e] == ':')
  {
    WordStops(text, p, eow, dot, e);
    TokenRead(text, p, e);
  }

  lemma GapTaken(text: string, p: nat, eow: nat, dot: nat, g: Groups, q: nat)
    requires Stops(text, eow, dot) && p < eow && -1 <= g.gap <= |g.words| && !IsHex(text[p])
    requires ParseGroups(text, p, eow, g).Some? && q == if g.words == [] then p + 2 else p + 1
    ensures q <= eow && g.gap == -1 && text[p..q] == if g.words == [] then "::" else ":"
    ensures ParseGroups(text, q, eow, Groups(g.words, |g.words|)) == ParseGroups(text, p, eow, g)
  {
  }

  lemma LastSpelled(text: string, p: nat, g: Groups, next: Groups, s: Spelling)
    requires p <= |text| && IsToken(text[p..|text|]) && s == Spelling([], false, [], text[p..|text|], [])
    requires |next.words| == |g.words| + 1 && next.gap == g.gap
    ensures Spells(text, p, |text|, g, s) && Counted(g, s, next)
  {
  }

  lemma WordCounted(g: Groups, next: Groups, t: string, s: Spelling, r: Groups)
    requires |next.words| == |g.words| + 1 && next.gap == g.gap && Counted(next, s, r)
    ensures Counted(g, WithWord(t, s), r)
  {
  }

  lemma GapCounted(g: Groups, s: Spelling, r: Groups)
    requires g.gap == -1 && s.ValidWords() && !s.gap && Counted(Groups(g.words, |g.words|), s, r)
    ensures Counted(g, Spelling([], true, s.front, s.last, []), r)
  {
  }

  /** The words that are left are spelled out. */
  lemma {:induction false} WordsSpelled(text: string, p: nat, eow: nat, dot: nat, g: Groups) returns (s: Spelling)
    requires Stops(text, eow, dot) && p <= eow && -1 <= g.gap <= |g.words|
    requires ParseGroups(text, p, eow, g).Some?
    ensures Spells(text, p, eow, g, s) && Counted(g, s, ParseGroups(text, p, eow, g).value)
    decreases eow - p
  {
    if p == eow {
      s := Spelling([], false, [], "", []);
    } else if IsHex(text[p]) {
      var n := Strtol16(text, p);
      var e, t := n.end, text[p..n.end];
      var next := Groups(g.words + [n.value % 65536], g.gap);
      WordTaken(text, p, eow, dot, g, e, next);
      if e == eow {
        s := Spelling([], false, [], t, []);
        LastSpelled(text, p, g, next, s);
      } else {
        var rest := WordsSpelled(text, e + 1, eow, dot, next);
        WordSpelled(text, p, e, eow, g, n.value % 65536, rest);
        WordCounted(g, next, t, rest, ParseGroups(text, p, eow, g).value);
        s := WithWord(t, rest);
      }
    } else {
      var q := if g.words == [] then p + 2 else p + 1;
      GapTaken(text, p, eow, dot, g, q);
      var rest := WordsSpelled(text, q, eow, dot, Groups(g.words, |g.words|));
      GapSpelled(text, p, q, eow, g, |g.words|, rest);
      GapCounted(g, rest, ParseGroups(text, p, eow, g).value);
      s := Spelling([], true, rest.front, rest.last, []);
    }
  }

  lemma {:induction false} DigitsEnd(text: string, p: nat, acc: nat)
    requires p <= |text|
    ensures var e := ParseDigits(text, p, acc).end; AllDigits(text[p..e]) && !IsDigit(At(text, e))
    decreases |text| - p
  {
    if IsDigit(At(text, p)) {
      var next := acc * 10 + (text[p] as nat - '0' as nat);
      DigitsEnd(text, p + 1, next);
      var e := ParseDigits(text, p, acc).end;
      assert text[p..e] == [text[p]] + text[p + 1..e];
    }
  }

  lemma {:induction false} BlanksEnd(text: string, p: nat)
    requires p <= |text|
    ensures forall i :: p <= i < SkipSpace(text, p) ==> IsBlank(text[i])
    decreases |text| - p
  {
    if p < |text| && IsBlank(text[p]) {
      BlanksEnd(text, p + 1);
    }
  }

  lemma SliceReads(text: string, p: nat, end: nat)
    requires p <= end <= |text|
    ensures Reads(text, p, text[p..end])
  {
  }

  /** What `%d` reads is a number of that value. */
  lemma NumberSpelled(text: string, p: nat) returns (n: Number)
    requires p <= |text| && ScanInt(text, p).Some?
    ensures var r := ScanInt(text, p).value;
      n.Valid() && n.Value() == r.value && p <= r.end && n.Text() == text[p..r.end]
    ensures p < |text| && IsDigit(text[p]) ==> n.blanks == "" && n.sign == ""
  {
    var q := SkipSpace(text, p);
    var d := if At(text, q) == '-' || At(text, q) == '+' then q + 1 else q;
    var e := ParseDigits(text, d, 0).end;
    n := Number(text[p..q], text[q..d], text[d..e]);
    BlanksEnd(text, p);
    DigitsEnd(text, d, 0);
    assert n.digits != "" by {
      assert ParseDigits(text, d + 1, text[d] as nat - '0' as nat).end == e;
    }
    assert n.Text() == text[p..e];
    SliceReads(text, p, e);
    NumberScanned(text, p, n, e);
  }

  /** A number and the dot behind it. */
  lemma NumberAndDotSpelled(text: string, p: nat) returns (n: Number)
    requires p <= |text| && ScanIntDot(text, p).Some?
    ensures var r := ScanIntDot(text, p).value;
      n.Valid() && n.Value() == r.value && text[p..] == n.Text() + ("." + text[r.end..])
    ensures p < |text| && IsDigit(text[p]) ==> n.blanks == "" && n.sign == ""
  {
    n := NumberSpelled(text, p);
    var q := ScanInt(text, p).value.end;
    Cut(text, p, q, |text|, n.Text());
    Cut(text, q, q + 1, |text|, ".");
  }

  /** The last number, which ends the text. */
  lemma LastNumberSpelled(text: string, p: nat) returns (n: Number)
    requires p <= |text| && NulFree(text) && ScanInt(text, p).Some? && At(text, ScanInt(text, p).value.end) == NUL
    ensures n.Valid() && n.Value() == ScanInt(text, p).value.value && text[p..] == n.Text()
  {
    n := NumberSpelled(text, p);
  }

  lemma DottedSpelled(text: string, p: nat) returns (ns: seq<Number>)
    requires p < |text| && NulFree(text) && IsDigit(text[p]) && ScanDotted(text, p).Some?
    ensures |ns| == 4 && AreBytes(ns) && ns[0].blanks == "" && ns[0].sign == "" && DottedText(ns) == text[p..]
  {
    var p1 := ScanIntDot(text, p).value.end;
    var p2 := ScanIntDot(text, p1).value.end;
    var p3 := ScanIntDot(text, p2).value.end;
    var a := NumberAndDotSpelled(text, p);
    var b := NumberAndDotSpelled(text, p1);
    var c := NumberAndDotSpelled(text, p2);
    var d := LastNumberSpelled(text, p3);
    ns := [a, b, c, d];
    Quartet(a, b, c, d);
  }

  lemma Quartet(a: Number, b: Number, c: Number, d: Number)
    requires a.Valid() && b.Valid() && c.Valid() && d.Valid()
    requires IsByte(a.Value()) && IsByte(b.Value()) && IsByte(c.Value()) && IsByte(d.Value())
    ensures AreBytes([a, b, c, d])
    ensures DottedText([a, b, c, d]) ==
            a.Text() + ("." + (b.Text() + ("." + (c.Text() + ("." + d.Text())))))
  {
  }

  lemma {:induction false} DotStands(text: string, p: nat)
    requires p <= |text|
    ensures FindDot(text, p) < |text| ==> text[FindDot(text, p)] == '.'
    decreases |text| - p
  {
    if p < |text| && text[p] != '.' {
      DotStands(text, p + 1);
    }
  }

  lemma {:induction false} BackOverDigits(text: string, p: nat)
    requires p <= |text|
    ensures forall i :: BackDigits(text, p) <= i < p ==> IsDigit(text[i])
    decreases p
  {
    if p > 0 && IsDigit(text[p - 1]) {
      BackOverDigits(text, p - 1);
    }
  }

  lemma WordsEnd(text: string, dot: nat, eow: nat)
    requires dot == FindDot(text, 0) && eow == if dot < |text| then BackDigits(text, dot) else |text|
    requires dot < |text| ==> ScanDotted(text, eow).Some?
    ensures Stops(text, eow, dot)
  {
    DotStands(text, 0);
    BackOverDigits(text, dot);
  }

  /** Adding the dotted part to spelled words. */
  lemma SpellingCompleted(text: string, eow: nat, words: Spelling, ns: seq<Number>)
    requires eow <= |text| && Spells(text, 0, eow, Groups([], -1), words) && (ns != [] ==> eow < |text|)
    requires words.(dotted := ns).ValidDotted() && text[eow..] == DottedText(ns)
    ensures var s := words.(dotted := ns); s.ValidWords() && s.Text() == text
  {
    var s := words.(dotted := ns);
    assert s.WordsText() == text[0..eow];
    assert text == text[0..eow] + text[eow..];
  }

  lemma ParsedIsSpelled(text: string) returns (s: Spelling)
    requires NulFree(text) && Pton(text).Some?
    ensures s.Valid() && s.Text() == text
  {
    var dot := FindDot(text, 0);
    var eow := if dot < |text| then BackDigits(text, dot) else |text|;
    WordsEnd(text, dot, eow);
    var words := WordsSpelled(text, 0, eow, dot, Groups([], -1));
    var ns := [];
    if dot < |text| {
      ns := DottedSpelled(text, eow);
    }
    s := words.(dotted := ns);
    SpellingCompleted(text, eow, words, ns);
  }

  // ---------- the accepted language ----------

  /** The text is written by the rules and stands for the address. */
  ghost predicate SpellsAddress(text: string, addr: seq<Byte>) {
    exists s: Spelling :: s.Valid() && s.Text() == text && s.Address() == addr
  }

  /** A text is accepted as an address if and only if it is spelled by the rules, and the address is the spelled one. */
  lemma AcceptedIffSpelled(text: string, addr: seq<Byte>)
    requires NulFree(text)
    ensures Pton(text) == Some(addr) <==> SpellsAddress(text, addr)
  {
    forall s: Spelling | s.Valid() && s.Text() == text ensures Pton(text) == Some(s.Address()) {
      SpelledIsParsed(s);
    }
    if Pton(text).Some? {
      var s := ParsedIsSpelled(text);
      assert s.Valid() && s.Text() == text;
    }
  }

  // ---------- spellings outside RFC 4291 section 2.2 ----------

  function HexTokens(ws: seq<Word>): seq<string> {
    if ws == [] then [] else [Hex(ws[0])] + HexTokens(ws[1..])
  }

  lemma {:induction false} HexNumberOf(n: nat)
    ensures AllHex(Hex(n)) && HexNumber(Hex(n)) == n
  {
    if n >= 16 {
      HexNumberOf(n / 16);
      assert Hex(n)[..|Hex(n)| - 1] == Hex(n / 16);
    }
  }

  lemma HexToken(w: Word)
    ensures IsToken(Hex(w)) && TokenValue(Hex(w)) == w
  {
    HexOfWord(w);
    HexNumberOf(w);
  }

  lemma {:induction false} HexTokensAre(ws: seq<Word>)
    ensures var ts := HexTokens(ws); |ts| == |ws| && AllTokens(ts) && Values(ts) == ws
  {
    if ws != [] {
      var ts, rest := HexTokens(ws), HexTokens(ws[1..]);
      HexTokensAre(ws[1..]);
      HexToken(ws[0]);
      assert ts[1..] == rest && AllTokens(ts);
      assert Values(ts) == [ws[0]] + Values(rest);
    }
  }

  lemma {:induction false} HexTokensText(ws: seq<Word>)
    requires ws != []
    ensures Spell(HexTokens(ws)) == Joined(ws) + ":"
  {
    var rest := HexTokens(ws[1..]);
    assert HexTokens(ws)[1..] == rest;
    if |ws| > 1 {
      HexTokensText(ws[1..]);
      Regroup(":", Joined(ws[1..]), ":");
      Regroup(Hex(ws[0]), ":" + Joined(ws[1..]), ":");
    }
  }

  /** A colon behind the last of eight words is accepted. */
  lemma TrailingColonAccepted(addr: seq<Byte>)
    requires |addr| == 16
    ensures Pton(Joined(Words(addr)) + ":") == Some(addr)
  {
    var ws := Words(addr);
    var s := Spelling(HexTokens(ws), false, [], "", []);
    HexTokensAre(ws);
    HexTokensText(ws);
    BytesOfWords(addr);
    assert s.Text() == Joined(ws) + ":";
    assert ws + [] + [] == ws;
    SpelledIsParsed(s);
  }

  lemma {:induction false} ValuesReplaced(ts: seq<string>, i: nat, t: string)
    requires AllTokens(ts) && i < |ts| && IsToken(t) && TokenValue(t) == TokenValue(ts[i])
    ensures AllTokens(ts[i := t]) && Values(ts[i := t]) == Values(ts)
    decreases i
  {
    if i > 0 {
      assert ts[i := t][1..] == ts[1..][i - 1 := t];
      ValuesReplaced(ts[1..], i - 1, t);
    } else {
      assert ts[i := t][1..] == ts[1..];
    }
  }

  lemma PrefixedToken(t: string)
    requires IsToken(t) && AllHex(t) && |t| <= 2
    ensures IsToken("0x" + t) && TokenValue("0x" + t) == TokenValue(t)
  {
    var long := "0x" + t;
    assert long[2..] == t;
    assert !IsHex(long[1]);
  }

  lemma SameAddress(s: Spelling, r: Spelling)
    requires s.Valid() && r.ValidWords() && r.ValidDotted() && r.gap == s.gap && |r.dotted| == |s.dotted|
    requires Values(r.front) == Values(s.front) && r.back == s.back && r.last == s.last
    requires DottedWords(r.dotted) == DottedWords(s.dotted)
    ensures r.Valid() && r.Address() == s.Address()
  {
    assert |r.front| == |s.front| by {
      assert |Values(r.front)| == |Values(s.front)|;
    }
    assert r.Count() == s.Count() && r.Plain() == s.Plain();
  }

  /** `0x` in front of a word of one or two digits changes nothing. */
  lemma PrefixAccepted(s: Spelling, i: nat, r: Spelling)
    requires s.Valid() && i < |s.front| && AllHex(s.front[i]) && |s.front[i]| <= 2
    requires r == s.(front := s.front[i := "0x" + s.front[i]])
    ensures r.Valid() && Pton(r.Text()) == Some(s.Address())
  {
    PrefixedToken(s.front[i]);
    ValuesReplaced(s.front, i, "0x" + s.front[i]);
    SameAddress(s, r);
    SpelledIsParsed(r);
  }

  lemma NumberReplaced(ns: seq<Number>, i: nat, n: Number)
    requires |ns| == 4 && AreBytes(ns) && i < 4 && n.Valid() && n.Value() == ns[i].Value()
    ensures AreBytes(ns[i := n]) && DottedWords(ns[i := n]) == DottedWords(ns)
  {
  }

  /** Behind the first dot, blanks and signs make no difference as long as the number stays the same. */
  lemma SignsAccepted(s: Spelling, i: nat, n: Number, r: Spelling)
    requires s.Valid() && 0 < i < |s.dotted| && n.Valid() && n.Value() == s.dotted[i].Value()
    requires r == s.(dotted := s.dotted[i := n])
    ensures r.Valid() && Pton(r.Text()) == Some(s.Address())
  {
    NumberReplaced(s.dotted, i, n);
    SameAddress(s, r);
    SpelledIsParsed(r);
  }
}
