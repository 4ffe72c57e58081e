/** The IPv6 text form (RFC 4291 section 2.2) as evutil.c prints and parses it. */
module IPv6 {
  import opened Common
  import opened CText
  import opened Numerals

  type Word = w: int | 0 <= w < 0x1_0000

  // ---------- bytes and words ----------

  function WordAt(addr: seq<Byte>, i: nat): Word
    requires |addr| == 16 && i < 8
  {
    (addr[2 * i] as int) * 256 + addr[2 * i + 1]
  }

  function Words(addr: seq<Byte>): (ws: seq<Word>)
    requires |addr| == 16
    ensures |ws| == 8
  {
    seq(8, i requires 0 <= i < 8 => WordAt(addr, i))
  }

  function Bytes(ws: seq<Word>): (addr: seq<Byte>)
    requires |ws| == 8
    ensures |addr| == 16
  {
    seq(16, i requires 0 <= i < 16 => if i % 2 == 0 then ws[i / 2] / 256 else ws[i / 2] % 256)
  }

  lemma BytesOfWords(addr: seq<Byte>)
    requires |addr| == 16
    ensures Bytes(Words(addr)) == addr
  {
    forall i | 0 <= i < 16 ensures Bytes(Words(addr))[i] == addr[i] {
      var k := i / 2;
      SplitWord(addr[2 * k], addr[2 * k + 1]);
      assert Words(addr)[k] == WordAt(addr, k);
      assert i == 2 * k + i % 2;
    }
  }

  lemma SplitWord(hi: Byte, lo: Byte)
    ensures (hi as int * 256 + lo) / 256 == hi && (hi as int * 256 + lo) % 256 == lo
  {
  }

  // ---------- numerals ----------

  /** What `%x` prints. */
  function Hex(n: nat): (s: string)
    ensures |s| >= 1
  {
    if n < 16 then [HexDigit(n)] else Hex(n / 16) + [HexDigit(n % 16)]
  }

  /** Lower-case digits without a leading zero, and no more of them than the number needs. */
  lemma {:induction false} HexShape(n: nat, k: nat)
    requires n < Pow16(k) && k > 0
    ensures |Hex(n)| <= k
    ensures forall i :: 0 <= i < |Hex(n)| ==> IsHex(Hex(n)[i]) && !('A' <= Hex(n)[i] <= 'F')
    ensures n > 0 ==> Hex(n)[0] != '0'
  {
    if n >= 16 {
      assert n / 16 < Pow16(k - 1);
      HexShape(n / 16, k - 1);
    }
  }

  lemma HexOfWord(w: Word)
    ensures |Hex(w)| <= 4
    ensures forall i :: 0 <= i < |Hex(w)| ==> IsHex(Hex(w)[i]) && !('A' <= Hex(w)[i] <= 'F')
    ensures |Hex(w)| > 1 ==> Hex(w)[0] != '0'
  {
    assert Pow16(4) == 16 * Pow16(3) == 256 * Pow16(2) == 4096 * Pow16(1) == 65536;
    HexShape(w, 4);
  }

  /** The digits of `strtol` in base 16. */
  function ParseHex(text: string, p: nat, acc: nat): (r: Numeral)
    requires p <= |text|
    ensures p <= r.end <= |text|
    decreases |text| - p
  {
    var v := HexVal(At(text, p));
    if v.Some? then ParseHex(text, p + 1, acc * 16 + v.value) else Numeral(acc, p)
  }

  /** `strtol` in base 16 from a hex digit on: an optional `0x` in front of further digits, then digits. */
  function Strtol16(text: string, p: nat): (r: Numeral)
    requires p < |text| && IsHex(text[p])
    ensures p < r.end <= |text|
  {
    if text[p] == '0' && (At(text, p + 1) == 'x' || At(text, p + 1) == 'X') && IsHex(At(text, p + 2))
    then ParseHex(text, p + 2, 0) else ParseHex(text, p, 0)
  }

  lemma {:induction false} HexParsed(text: string, p: nat, n: nat, end: nat)
    requires Reads(text, p, Hex(n)) && end == p + |Hex(n)|
    ensures ParseHex(text, p, 0) == ParseHex(text, end, n)
    decreases n
  {
    if n < 16 {
      ReadsHead(text, p, Hex(n));
    } else {
      var k := end - 1;
      assert Reads(text, p, Hex(n / 16)) && text[k] == HexDigit(n % 16) by {
        ReadsSplit(text, p, Hex(n / 16), k, [HexDigit(n % 16)]);
        ReadsHead(text, k, [HexDigit(n % 16)]);
      }
      HexParsed(text, p, n / 16, k);
      assert n / 16 * 16 + n % 16 == n;
    }
  }

  /** A printed word is read back when no hex digit (and no `x`) follows it. */
  lemma WordParsed(text: string, p: nat, w: Word, end: nat)
    requires Reads(text, p, Hex(w)) && end == p + |Hex(w)|
    requires !IsHex(At(text, end)) && At(text, end) != 'x' && At(text, end) != 'X'
    ensures p < |text| && IsHex(text[p]) && Strtol16(text, p) == Numeral(w, end) && end <= p + 4
  {
    HexOfWord(w);
    ReadsHead(text, p, Hex(w));
    HexParsed(text, p, w, end);
    if |Hex(w)| > 1 {
      ReadsAt(text, p, Hex(w), 1);
    }
  }

  // ---------- the longest run of zeros ----------

  datatype Gap = Gap(pos: int, len: nat)

  /** The length of the run of zero words at `i`. */
  function RunLength(ws: seq<Word>, i: nat): (n: nat)
    requires i <= |ws|
    ensures i + n <= |ws|
    decreases |ws| - i
  {
    if i < |ws| && ws[i] == 0 then 1 + RunLength(ws, i + 1) else 0
  }

  /** The search loop from word `i` on, with the best run found so far. */
  function SearchGap(ws: seq<Word>, i: nat, best: Gap): (g: Gap)
    requires i <= |ws| && -1 <= best.pos <= best.pos + best.len <= |ws|
    ensures -1 <= g.pos <= g.pos + g.len <= |ws|
    decreases |ws| - i
  {
    if i == |ws| then best
    else
      var n := RunLength(ws, i);
      if n == 0 then SearchGap(ws, i + 1, best)
      else SearchGap(ws, i + n, if n > best.len then Gap(i, n) else best)
  }

  /** The gap the printer compresses; position -1 when there is nothing to compress. */
  function PrintedGap(ws: seq<Word>): (g: Gap)
    ensures g.pos >= 0 ==> g.pos + g.len <= |ws|
  {
    var g := SearchGap(ws, 0, Gap(-1, 0));
    if g.len <= 1 then Gap(-1, g.len) else g
  }

  predicate Zeros(ws: seq<Word>, i: int, j: int)
  {
    0 <= i <= j <= |ws| && forall k :: i <= k < j ==> ws[k] == 0
  }

  /** `g` is the first of the longest zero runs that start before `i`; -1 stands for none. */
  ghost predicate FirstLongest(ws: seq<Word>, i: int, g: Gap) {
    && (if g.pos == -1 then g.len == 0 else g.len > 0 && g.pos < i && Zeros(ws, g.pos, g.pos + g.len))
    && forall a, b :: 0 <= a < i && a < b && Zeros(ws, a, b) ==>
         b - a < g.len || (b - a == g.len && g.pos <= a)
  }

  lemma {:induction false} RunIsMaximal(ws: seq<Word>, i: nat)
    requires i <= |ws|
    ensures var n := RunLength(ws, i);
      && Zeros(ws, i, i + n) && (i + n < |ws| ==> ws[i + n] != 0)
    decreases |ws| - i
  {
    if i < |ws| && ws[i] == 0 {
      RunIsMaximal(ws, i + 1);
    }
  }

  lemma {:induction false} SearchFindsFirstLongest(ws: seq<Word>, i: nat, best: Gap)
    requires i <= |ws| && FirstLongest(ws, i, best) && -1 <= best.pos
    ensures FirstLongest(ws, |ws|, SearchGap(ws, i, best))
    decreases |ws| - i
  {
    if i < |ws| {
      var n := RunLength(ws, i);
      RunIsMaximal(ws, i);
      if n == 0 {
        SearchFindsFirstLongest(ws, i + 1, best);
      } else {
        var next := if n > best.len then Gap(i, n) else best;
        forall a, b | 0 <= a < i + n && a < b && Zeros(ws, a, b)
          ensures b - a < next.len || (b - a == next.len && next.pos <= a)
        {
        }
        SearchFindsFirstLongest(ws, i + n, next);
      }
    }
  }

  /**
    The compressed run is as RFC 5952 section 4.2 asks: the first of the longest runs, and only
    if it has at least two words.
    */
  lemma GapIsFirstLongest(ws: seq<Word>)
    ensures var g := PrintedGap(ws);
      && (g.pos == -1 <==> forall a, b :: b - a == 2 ==> !Zeros(ws, a, b))
      && (g.pos != -1 ==> g.len >= 2 && Zeros(ws, g.pos, g.pos + g.len))
      && (g.pos != -1 ==> forall a, b :: a < b && Zeros(ws, a, b) ==> b - a < g.len || (b - a == g.len && g.pos <= a))
  {
    SearchFindsFirstLongest(ws, 0, Gap(-1, 0));
    var g := SearchGap(ws, 0, Gap(-1, 0));
    if g.len > 1 {
      assert Zeros(ws, g.pos, g.pos + 2);
    }
  }

  // ---------- printing ----------

  /** Words in hexadecimal, with colons between them. */
  function Joined(ws: seq<Word>): string {
    if ws == [] then "" else if |ws| == 1 then Hex(ws[0]) else Hex(ws[0]) + (":" + Joined(ws[1..]))
  }

  /** The text with the words from `pos` to `pos + len` left out. */
  function Compressed(ws: seq<Word>, pos: nat, len: nat): string
    requires pos + len <= |ws|
  {
    Joined(ws[..pos]) + ("::" + Joined(ws[pos + len..]))
  }

  /** Addresses that are printed with an IPv4 address in their last four bytes. */
  predicate EmbedsV4(ws: seq<Word>)
    requires |ws| == 8
  {
    && ws[0] == 0 && ws[1] == 0 && ws[2] == 0 && ws[3] == 0 && ws[4] == 0
    && ((ws[5] == 0 && ws[6] != 0 && ws[7] != 0) || ws[5] == 0xffff)
  }

  function Dotted(a: Byte, b: Byte, c: Byte, d: Byte): string {
    Digits(a) + ("." + (Digits(b) + ("." + (Digits(c) + ("." + Digits(d))))))
  }

  function V4Prefix(ws: seq<Word>): string
    requires |ws| == 8
  {
    if ws[5] == 0 then "::" else "::" + (Hex(ws[5]) + ":")
  }

  /** What `evutil_inet_ntop` prints for an IPv6 address. */
  function Ntop(addr: seq<Byte>): string
    requires |addr| == 16
  {
    var ws := Words(addr);
    if EmbedsV4(ws) then V4Prefix(ws) + Dotted(addr[12], addr[13], addr[14], addr[15])
    else
      var g := PrintedGap(ws);
      if g.pos < 0 then Joined(ws) else Compressed(ws, g.pos, g.len)
  }

  // ---------- parsing ----------

  /** `strchr`: the first dot, or the length when there is none. */
  function FindDot(text: string, p: nat): (q: nat)
    requires p <= |text|
    ensures p <= q <= |text|
    decreases |text| - p
  {
    if p == |text| || text[p] == '.' then p else FindDot(text, p + 1)
  }

  /** Back over the digits in front of `p`. */
  function BackDigits(text: string, p: nat): (q: nat)
    requires p <= |text|
    ensures q <= p
    decreases p
  {
    if p > 0 && IsDigit(text[p - 1]) then BackDigits(text, p - 1) else p
  }

  function SkipSpace(text: string, p: nat): (q: nat)
    requires p <= |text|
    ensures p <= q <= |text|
    decreases |text| - p
  {
    if At(text, p) == ' ' || '\t' <= At(text, p) <= '\r' then SkipSpace(text, p + 1) else p
  }

  datatype Scanned = Scanned(value: int, end: nat)

  /** `%d` of `sscanf`: white space, a sign, and at least one digit. */
  function ScanInt(text: string, p: nat): (r: Option<Scanned>)
    requires p <= |text|
    ensures r.Some? ==> r.value.end <= |text|
  {
    var q := SkipSpace(text, p);
    var d := if At(text, q) == '-' || At(text, q) == '+' then q + 1 else q;
    if !IsDigit(At(text, d)) then None
    else
      var n := ParseDigits(text, d, 0);
      Some(Scanned(if At(text, q) == '-' then 0 - (n.value as int) else n.value, n.end))
  }

  /** `%d` and the literal dot behind it. */
  function ScanIntDot(text: string, p: nat): (r: Option<Scanned>)
    requires p <= |text|
    ensures r.Some? ==> r.value.end <= |text|
  {
    var n := ScanInt(text, p);
    if n.None? || At(text, n.value.end) != '.' then None else Some(Scanned(n.value.value, n.value.end + 1))
  }

  predicate IsByte(n: int) {
    0 <= n <= 255
  }

  /** The dotted part, which must end the text: its two words. */
  function ScanDotted(text: string, p: nat): (r: Option<seq<Word>>)
    requires p <= |text|
    ensures r.Some? ==> |r.value| == 2
  {
    var a := ScanIntDot(text, p);
    if a.None? then None
    else
      var b := ScanIntDot(text, a.value.end);
      if b.None? then None
      else
        var c := ScanIntDot(text, b.value.end);
        if c.None? then None
        else
          var d := ScanInt(text, c.value.end);
          if d.None? || At(text, d.value.end) != NUL then None
          else if !IsByte(a.value.value) || !IsByte(b.value.value) then None
          else if !IsByte(c.value.value) || !IsByte(d.value.value) then None
          else Some([a.value.value * 256 + b.value.value, c.value.value * 256 + d.value.value])
  }

  /** The words read so far and where the `::` stood among them; -1 for nowhere. */
  datatype Groups = Groups(words: seq<Word>, gap: int)

  /** The word loop of `evutil_inet_pton`, up to `eow`. */
  function ParseGroups(text: string, p: nat, eow: nat, g: Groups): (r: Option<Groups>)
    requires eow <= |text| && -1 <= g.gap <= |g.words|
    ensures r.Some? ==> -1 <= r.value.gap <= |r.value.words|
    decreases |text| + 1 - p
  {
    if p >= eow then Some(g)
    else if |g.words| > 7 then None
    else if IsHex(text[p]) then
      var n := Strtol16(text, p);
      if n.end > p + 4 || n.value > 65536 then None
      else if At(text, n.end) != ':' && n.end != eow then None
      else ParseGroups(text, n.end + 1, eow, Groups(g.words + [n.value % 65536], g.gap))
    else if text[p] == ':' && |g.words| > 0 && g.gap == -1 then
      ParseGroups(text, p + 1, eow, Groups(g.words, |g.words|))
    else if text[p] == ':' && |g.words| == 0 && At(text, p + 1) == ':' && g.gap == -1 then
      ParseGroups(text, p + 2, eow, Groups(g.words, 0))
    else None
  }

  /** The eight words: those in front of the gap, its zeros, those behind it, and the dotted ones. */
  function Assemble(g: Groups, v4: seq<Word>): (r: Option<seq<Word>>)
    requires -1 <= g.gap <= |g.words|
    ensures r.Some? ==> |r.value| == 8
  {
    var n := |g.words| + |v4|;
    if n > 8 || (n == 8 && g.gap != -1) || (n < 8 && g.gap == -1) then None
    else if g.gap == -1 then Some(g.words + v4)
    else Some(g.words[..g.gap] + ZeroWords(8 - n) + g.words[g.gap..] + v4)
  }

  function ZeroWords(n: nat): (ws: seq<Word>)
    ensures |ws| == n
  {
    if n == 0 then [] else [0] + ZeroWords(n - 1)
  }

  lemma {:induction false} ZeroWordsAreZero(n: nat)
    ensures forall i :: 0 <= i < n ==> ZeroWords(n)[i] == 0
  {
    if n > 0 {
      ZeroWordsAreZero(n - 1);
    }
  }

  /** What `evutil_inet_pton` makes of a text; None is its result 0. */
  function Pton(text: string): (r: Option<seq<Byte>>)
    ensures r.Some? ==> |r.value| == 16
  {
    var dot := FindDot(text, 0);
    if dot == 0 && dot < |text| then None
    else
      var eow := if dot < |text| then BackDigits(text, dot) else |text|;
      var v4 := if dot < |text| then ScanDotted(text, eow) else Some([]);
      if v4.None? then None
      else
        var g := ParseGroups(text, 0, eow, Groups([], -1));
        if g.None? then None
        else
          var ws := Assemble(g.value, v4.value);
          if ws.None? then None else Some(Bytes(ws.value))
  }
}
