/** Parsing what was printed: `evutil_inet_pton` undoes `evutil_inet_ntop`. */
module IPv6RoundTrip {
  import opened Common
  import opened CText
  import opened Numerals
  import opened IPv6

  // ---------- reading words ----------

  /** Where parsing goes on behind a word: behind its colon, or behind the end of the words. */
  predicate WordEnds(text: string, p: nat, eow: nat)
    requires eow <= |text|
  {
    At(text, p) == ':' || (p == eow && p == |text|)
  }

  /** One word, in front of a colon or at the end, is appended to the words. */
  lemma GroupParsed(text: string, p: nat, w: Word, end: nat, eow: nat, g: Groups)
    requires eow <= |text| && -1 <= g.gap <= |g.words| <= 7
    requires Reads(text, p, Hex(w)) && end == p + |Hex(w)| <= eow && WordEnds(text, end, eow)
    ensures ParseGroups(text, p, eow, g) == ParseGroups(text, end + 1, eow, Groups(g.words + [w], g.gap))
  {
    WordParsed(text, p, w, end);
  }

  lemma JoinedParts(text: string, p: nat, ws: seq<Word>, s: string, q: nat, rest: string)
    requires |ws| > 1 && s == Joined(ws) && rest == Joined(ws[1..]) && q == p + |Hex(ws[0])|
    requires Reads(text, p, s)
    ensures Reads(text, p, Hex(ws[0])) && text[q] == ':' && Reads(text, q + 1, rest) && p + |s| == q + 1 + |rest|
  {
    assert s == Hex(ws[0]) + (":" + rest);
    ReadsSplit3(text, p, Hex(ws[0]), q, ":", q + 1, rest);
    ReadsHead(text, q, ":");
  }

  lemma {:induction false} JoinedParsed(text: string, p: nat, ws: seq<Word>, s: string, end: nat, eow: nat, g: Groups)
    requires eow <= |text| && -1 <= g.gap <= |g.words|
    requires ws != [] && |g.words| + |ws| <= 8 && s == Joined(ws)
    requires Reads(text, p, s) && end == p + |s| <= eow && WordEnds(text, end, eow)
    ensures ParseGroups(text, p, eow, g) == ParseGroups(text, end + 1, eow, Groups(g.words + ws, g.gap))
    decreases |ws|
  {
    if |ws| == 1 {
      GroupParsed(text, p, ws[0], end, eow, g);
      assert ws == [ws[0]];
    } else {
      var rest := Joined(ws[1..]);
      var q := p + |Hex(ws[0])|;
      JoinedParts(text, p, ws, s, q, rest);
      GroupParsed(text, p, ws[0], q, eow, g);
      JoinedParsed(text, q + 1, ws[1..], rest, end, eow, Groups(g.words + [ws[0]], g.gap));
      assert g.words + [ws[0]] + ws[1..] == g.words + ws;
    }
  }

  /** The two colons, behind some words or in front of all of them. */
  lemma GapParsed(text: string, p: nat, eow: nat, words: seq<Word>)
    requires p + 1 < eow <= |text| && |words| <= 7 && text[p] == ':' && text[p + 1] == ':'
    ensures words == [] ==>
      ParseGroups(text, p, eow, Groups(words, -1)) == ParseGroups(text, p + 2, eow, Groups(words, 0))
    ensures words != [] ==>
      ParseGroups(text, p + 1, eow, Groups(words, -1)) == ParseGroups(text, p + 2, eow, Groups(words, |words|))
  {
  }

  /** The front half: the words before the gap, and the gap. */
  lemma FrontParsed(text: string, a: seq<Word>, s: string, p: nat, eow: nat)
    requires s == Joined(a) && |a| <= 7 && eow <= |text|
    requires p == |s| && p + 1 < eow && Reads(text, 0, s) && text[p] == ':' && text[p + 1] == ':'
    ensures ParseGroups(text, 0, eow, Groups([], -1)) == ParseGroups(text, p + 2, eow, Groups(a, |a|))
  {
    GapParsed(text, p, eow, a);
    if a != [] {
      JoinedParsed(text, 0, a, s, p, eow, Groups([], -1));
      assert [] + a == a;
    }
  }

  /** The back half: the words behind the gap, if any. */
  lemma BackParsed(text: string, p: nat, a: seq<Word>, b: seq<Word>, t: string)
    requires t == Joined(b) && |a| + |b| <= 7
    requires p + |t| == |text| && Reads(text, p, t)
    ensures ParseGroups(text, p, |text|, Groups(a, |a|)) == Some(Groups(a + b, |a|))
  {
    if b == [] {
      assert a + b == a;
    } else {
      JoinedParsed(text, p, b, t, |text|, |text|, Groups(a, |a|));
    }
  }

  lemma TwoColons(text: string, p: nat)
    requires Reads(text, p, "::")
    ensures p + 1 < |text| && text[p] == ':' && text[p + 1] == ':'
  {
    ReadsAt(text, p, "::", 0);
    ReadsAt(text, p, "::", 1);
  }

  /** A compressed text is read as its two halves around the gap. */
  lemma CompressedParsed(text: string, a: seq<Word>, b: seq<Word>)
    requires text == Joined(a) + ("::" + Joined(b)) && |a| + |b| <= 7
    ensures ParseGroups(text, 0, |text|, Groups([], -1)) == Some(Groups(a + b, |a|))
  {
    var s, t := Joined(a), Joined(b);
    var p := |s|;
    assert Reads(text, 0, s) && Reads(text, p, "::") && Reads(text, p + 2, t) by {
      ReadsWhole(text);
      ReadsSplit3(text, 0, s, p, "::", p + 2, t);
    }
    TwoColons(text, p);
    FrontParsed(text, a, s, p, |text|);
    BackParsed(text, p + 2, a, b, t);
  }

  // ---------- finding the dotted part ----------

  predicate DotFree(s: string) {
    forall i :: 0 <= i < |s| ==> s[i] != '.'
  }

  lemma {:induction false} JoinedDotFree(ws: seq<Word>)
    ensures DotFree(Joined(ws))
  {
    if ws != [] {
      HexOfWord(ws[0]);
      JoinedDotFree(ws[1..]);
    }
  }

  lemma {:induction false} FirstDot(text: string, p: nat, q: nat)
    requires p <= q <= |text| && (forall i :: p <= i < q ==> text[i] != '.')
    requires q < |text| ==> text[q] == '.'
    ensures FindDot(text, p) == q
    decreases q - p
  {
    if p < q {
      FirstDot(text, p + 1, q);
    }
  }

  lemma {:induction false} DigitsBack(text: string, p: nat, q: nat)
    requires p <= q <= |text| && (forall i :: p <= i < q ==> IsDigit(text[i]))
    requires p > 0 ==> !IsDigit(text[p - 1])
    ensures BackDigits(text, q) == p
    decreases q
  {
    if p < q {
      DigitsBack(text, p, q - 1);
    }
  }

  /** The dotted part begins behind the colon in front of the digits that the first dot ends. */
  lemma DottedFound(text: string, prefix: string, digits: string, p: nat, q: nat)
    requires Reads(text, 0, prefix) && Reads(text, p, digits) && Reads(text, q, ".")
    requires p == |prefix| && q == p + |digits|
    requires prefix != "" && prefix[|prefix| - 1] == ':' && DotFree(prefix)
    requires forall i :: 0 <= i < |digits| ==> IsDigit(digits[i])
    ensures FindDot(text, 0) == q < |text| && BackDigits(text, q) == p
  {
    ReadsHead(text, q, ".");
    forall i | 0 <= i < q ensures text[i] != '.' && (p <= i ==> IsDigit(text[i])) {
      if i < p {
        ReadsAt(text, 0, prefix, i);
      } else {
        ReadsAt(text, p, digits, i - p);
      }
    }
    ReadsAt(text, 0, prefix, p - 1);
    FirstDot(text, 0, q);
    DigitsBack(text, p, q);
  }

  // ---------- reading the dotted part ----------

  lemma ByteScanned(text: string, p: nat, n: nat, end: nat)
    requires Reads(text, p, Digits(n)) && end == p + |Digits(n)| && !IsDigit(At(text, end))
    ensures ScanInt(text, p) == Some(Scanned(n, end))
  {
    DigitsAreDigits(n);
    ReadsHead(text, p, Digits(n));
    DigitsParsed(text, p, n, end);
  }

  lemma ByteDotScanned(text: string, p: nat, n: nat, end: nat)
    requires Reads(text, p, Digits(n)) && end == p + |Digits(n)| && At(text, end) == '.'
    ensures ScanIntDot(text, p) == Some(Scanned(n, end + 1))
  {
    ByteScanned(text, p, n, end);
  }

  lemma DottedScanned(text: string, p: nat, a: Byte, b: Byte, c: Byte, d: Byte, v4: seq<Word>)
    requires Reads(text, p, Dotted(a, b, c, d)) && p + |Dotted(a, b, c, d)| == |text|
    requires |v4| == 2 && v4[0] == (a as int) * 256 + b && v4[1] == (c as int) * 256 + d
    ensures ScanDotted(text, p) == Some(v4)
  {
    var sa, sb, sc, sd := Digits(a), Digits(b), Digits(c), Digits(d);
    var p1 := p + |sa| + 1;
    var p2 := p1 + |sb| + 1;
    var p3 := p2 + |sc| + 1;
    assert ScanIntDot(text, p) == Some(Scanned(a, p1)) && Reads(text, p1, sb + ("." + (sc + ("." + sd)))) by {
      DotSplit(text, p, a, p1, sb + ("." + (sc + ("." + sd))));
    }
    assert ScanIntDot(text, p1) == Some(Scanned(b, p2)) && Reads(text, p2, sc + ("." + sd)) by {
      DotSplit(text, p1, b, p2, sc + ("." + sd));
    }
    assert ScanIntDot(text, p2) == Some(Scanned(c, p3)) && Reads(text, p3, sd) by {
      DotSplit(text, p2, c, p3, sd);
    }
    ByteScanned(text, p3, d, |text|);
    assert v4 == [(a as int) * 256 + b, (c as int) * 256 + d];
  }

  lemma DotSplit(text: string, p: nat, n: nat, q: nat, rest: string)
    requires Reads(text, p, Digits(n) + ("." + rest)) && q == p + |Digits(n)| + 1
    ensures ScanIntDot(text, p) == Some(Scanned(n, q)) && Reads(text, q, rest)
  {
    ReadsSplit3(text, p, Digits(n), q - 1, ".", q, rest);
    ReadsHead(text, q - 1, ".");
    ByteDotScanned(text, p, n, q - 1);
  }

  /** The prefix of an embedded IPv4 address: a gap in front of nothing, or of one word. */
  lemma PrefixParsed(text: string, ws: seq<Word>, prefix: string)
    requires |ws| == 8 && EmbedsV4(ws) && prefix == V4Prefix(ws) && Reads(text, 0, prefix)
    ensures ParseGroups(text, 0, |prefix|, Groups([], -1)) ==
            Some(Groups(if ws[5] == 0 then [] else [ws[5]], 0))
  {
    var eow := |prefix|;
    assert text[0] == ':' && text[1] == ':' by {
      ReadsAt(text, 0, prefix, 0);
      ReadsAt(text, 0, prefix, 1);
    }
    FrontParsed(text, [], "", 0, eow);
    if ws[5] != 0 {
      assert Reads(text, 2, Hex(ws[5])) && Reads(text, eow - 1, ":") by {
        ReadsSplit3(text, 0, "::", 2, Hex(ws[5]), eow - 1, ":");
      }
      ReadsHead(text, eow - 1, ":");
      GroupParsed(text, 2, ws[5], eow - 1, eow, Groups([], 0));
      assert [] + [ws[5]] == [ws[5]];
    }
  }

  // ---------- the words ----------

  /** Putting the zeros back restores the words. */
  lemma GapRestored(ws: seq<Word>, pos: nat, len: nat, v4: seq<Word>)
    requires |ws| == 8 && len > 0 && Zeros(ws, pos, pos + len) && pos + len + |v4| <= 8
    requires v4 == ws[8 - |v4|..]
    ensures Assemble(Groups(ws[..pos] + ws[pos + len..8 - |v4|], pos), v4) == Some(ws)
  {
    var mid := ws[pos + len..8 - |v4|];
    var words := ws[..pos] + mid;
    ZeroWordsAreZero(len);
    assert words[..pos] == ws[..pos] && words[pos..] == mid;
    assert ws[..pos] + ZeroWords(len) + mid + v4 == ws;
  }

  // ---------- the three forms ----------

  lemma FullFormParsed(addr: seq<Byte>)
    requires |addr| == 16 && !EmbedsV4(Words(addr)) && PrintedGap(Words(addr)).pos < 0
    ensures Pton(Ntop(addr)) == Some(addr)
  {
    var ws, text := Words(addr), Ntop(addr);
    JoinedDotFree(ws);
    FirstDot(text, 0, |text|);
    ReadsWhole(text);
    JoinedParsed(text, 0, ws, text, |text|, |text|, Groups([], -1));
    assert [] + ws == ws && ws + [] == ws;
    BytesOfWords(addr);
  }

  lemma CompressedFormParsed(addr: seq<Byte>)
    requires |addr| == 16 && !EmbedsV4(Words(addr)) && PrintedGap(Words(addr)).pos >= 0
    ensures Pton(Ntop(addr)) == Some(addr)
  {
    var ws, text := Words(addr), Ntop(addr);
    var g := PrintedGap(ws);
    var a, b := ws[..g.pos], ws[g.pos + g.len..];
    GapIsFirstLongest(ws);
    assert FindDot(text, 0) == |text| by {
      JoinedDotFree(a);
      JoinedDotFree(b);
      FirstDot(text, 0, |text|);
    }
    CompressedParsed(text, a, b);
    assert b == ws[g.pos + g.len..8];
    GapRestored(ws, g.pos, g.len, []);
    BytesOfWords(addr);
  }

  /** The prefix ends in a colon, and its first dot is behind it. */
  lemma PrefixShape(ws: seq<Word>, prefix: string)
    requires |ws| == 8 && prefix == V4Prefix(ws)
    ensures prefix != "" && prefix[|prefix| - 1] == ':' && DotFree(prefix)
  {
    HexOfWord(ws[5]);
  }

  /** Where the dotted part begins, and what stands on both sides. */
  lemma EmbeddedSplit(text: string, prefix: string, digits: string, rest: string)
    requires prefix != "" && prefix[|prefix| - 1] == ':' && DotFree(prefix)
    requires digits != "" && forall i :: 0 <= i < |digits| ==> IsDigit(digits[i])
    requires text == prefix + (digits + ("." + rest))
    ensures Reads(text, 0, prefix) && Reads(text, |prefix|, digits + ("." + rest))
    ensures FindDot(text, 0) < |text| && BackDigits(text, FindDot(text, 0)) == |prefix|
  {
    var p := |prefix|;
    var q := p + |digits|;
    assert Reads(text, 0, prefix) && Reads(text, p, digits + ("." + rest)) by {
      ReadsWhole(text);
      ReadsSplit(text, 0, prefix, p, digits + ("." + rest));
    }
    assert Reads(text, p, digits) && Reads(text, q, ".") by {
      ReadsSplit3(text, p, digits, q, ".", q + 1, rest);
    }
    DottedFound(text, prefix, digits, p, q);
  }

  /** The words of an embedded address: the gap stands for the zeros in front. */
  lemma EmbeddedRestored(ws: seq<Word>, words: seq<Word>)
    requires |ws| == 8 && EmbedsV4(ws) && words == if ws[5] == 0 then [] else [ws[5]]
    ensures Assemble(Groups(words, 0), [ws[6], ws[7]]) == Some(ws)
  {
    var len := if ws[5] == 0 then 6 else 5;
    assert [ws[6], ws[7]] == ws[6..];
    assert ws[..0] + ws[len..6] == words;
    GapRestored(ws, 0, len, [ws[6], ws[7]]);
  }

  /** The steps of `Pton` on a text with a dotted part. */
  lemma PtonDotted(text: string, eow: nat, v4: seq<Word>, g: Groups, ws: seq<Word>)
    requires FindDot(text, 0) < |text| && BackDigits(text, FindDot(text, 0)) == eow && 0 < eow
    requires ScanDotted(text, eow) == Some(v4) && |ws| == 8 && -1 <= g.gap <= |g.words|
    requires ParseGroups(text, 0, eow, Groups([], -1)) == Some(g) && Assemble(g, v4) == Some(ws)
    ensures Pton(text) == Some(Bytes(ws))
  {
  }

  lemma EmbeddedFormParsed(addr: seq<Byte>, ws: seq<Word>, text: string)
    requires |addr| == 16 && ws == Words(addr) && EmbedsV4(ws) && text == Ntop(addr)
    ensures Pton(text) == Some(Bytes(ws))
  {
    var a, b, c, d := addr[12], addr[13], addr[14], addr[15];
    var prefix := V4Prefix(ws);
    var eow := |prefix|;
    var rest := Digits(b) + ("." + (Digits(c) + ("." + Digits(d))));
    assert Dotted(a, b, c, d) == Digits(a) + ("." + rest);
    PrefixShape(ws, prefix);
    DigitsAreDigits(a);
    EmbeddedSplit(text, prefix, Digits(a), rest);
    var v4 := [ws[6], ws[7]];
    assert WordAt(addr, 6) == ws[6] && WordAt(addr, 7) == ws[7];
    DottedScanned(text, eow, a, b, c, d, v4);
    PrefixParsed(text, ws, prefix);
    EmbeddedRestored(ws, if ws[5] == 0 then [] else [ws[5]]);
    PtonDotted(text, eow, v4, Groups(if ws[5] == 0 then [] else [ws[5]], 0), ws);
  }

  /** Every address is read back from its text. */
  lemma RoundTrip(addr: seq<Byte>)
    requires |addr| == 16
    ensures Pton(Ntop(addr)) == Some(addr)
  {
    if EmbedsV4(Words(addr)) {
      EmbeddedFormParsed(addr, Words(addr), Ntop(addr));
      BytesOfWords(addr);
    } else if PrintedGap(Words(addr)).pos < 0 {
      FullFormParsed(addr);
    } else {
      CompressedFormParsed(addr);
    }
  }
}
