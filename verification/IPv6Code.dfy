/** The loops of `evutil_inet_ntop` and `evutil_inet_pton`. */
module IPv6Code {
  import opened Buffers
  import opened Common
  import opened CText
  import opened IPv6
  import opened Numerals

  // ---------- sizes ----------

  lemma {:induction false} JoinedShort(ws: seq<Word>)
    ensures ws != [] ==> |Joined(ws)| < 5 * |ws|
  {
    if ws != [] {
      HexOfWord(ws[0]);
      JoinedShort(ws[1..]);
    }
  }

  lemma DigitsOfByte(b: Byte)
    ensures |Digits(b)| <= 3
  {
    assert Pow10(3) == 10 * Pow10(2) == 100 * Pow10(1) == 1000;
    DigitsShort(b, 3);
  }

  /** No text is longer than 39 characters, so the 64-byte buffer never truncates one. */
  lemma TextShort(addr: seq<Byte>)
    requires |addr| == 16
    ensures |Ntop(addr)| <= 39
  {
    var ws := Words(addr);
    if EmbedsV4(ws) {
      HexOfWord(ws[5]);
      DigitsOfByte(addr[12]);
      DigitsOfByte(addr[13]);
      DigitsOfByte(addr[14]);
      DigitsOfByte(addr[15]);
    } else {
      var g := PrintedGap(ws);
      GapIsFirstLongest(ws);
      JoinedShort(ws);
      if g.pos >= 0 {
        JoinedShort(ws[..g.pos]);
        JoinedShort(ws[g.pos + g.len..]);
      }
    }
  }

  // ---------- printing ----------

  /** The loop that splits the address into words. */
  method LoadWords(addr: array<Byte>) returns (words: array<Word>)
    requires addr.Length == 16
    ensures fresh(words) && words[..] == Words(addr[..])
  {
    words := new Word[8];
    for i := 0 to 8
      invariant forall k :: 0 <= k < i ==> words[k] == WordAt(addr[..], k)
    {
      words[i] := addr[2 * i] as int * 256 + addr[2 * i + 1];
    }
  }

  /** The two nested loops that look for the run to compress. */
  method FindGap(words: array<Word>) returns (longestGapPos: int, longestGapLen: nat)
    requires words.Length == 8
    ensures Gap(longestGapPos, longestGapLen) == PrintedGap(words[..])
  {
    ghost var ws := words[..];
    longestGapLen, longestGapPos := 0, -1;
    var i := 0;
    while i < 8
      invariant i <= 8 && -1 <= longestGapPos <= longestGapPos + longestGapLen <= 8
      invariant SearchGap(ws, i, Gap(longestGapPos, longestGapLen)) == SearchGap(ws, 0, Gap(-1, 0))
    {
      if words[i] == 0 {
        var curGapPos := i;
        i := i + 1;
        var curGapLen := 1;
        while i < 8 && words[i] == 0
          invariant curGapPos < i <= 8 && curGapLen == i - curGapPos
          invariant RunLength(ws, curGapPos) == curGapLen + RunLength(ws, i)
        {
          i, curGapLen := i + 1, curGapLen + 1;
        }
        if curGapLen > longestGapLen {
          longestGapPos := curGapPos;
          longestGapLen := curGapLen;
        }
      } else {
        i := i + 1;
      }
    }
    if longestGapLen <= 1 {
      longestGapPos := -1;
    }
  }

  /** What the output loop still has to write from word `i` on. */
  function Output(ws: seq<Word>, i: nat, g: Gap): string
    requires |ws| == 8 && i <= 8 && (g.pos >= 0 ==> g.len > 0 && g.pos + g.len <= 8)
    decreases 8 - i
  {
    if i == 8 then ""
    else if i == g.pos then (if i == 0 then "::" else ":") + Output(ws, i + g.len, g)
    else Hex(ws[i]) + ((if i == 7 then "" else ":") + Output(ws, i + 1, g))
  }

  lemma {:induction false} OutputBehind(ws: seq<Word>, i: nat, g: Gap)
    requires |ws| == 8 && i <= 8 && (g.pos >= 0 ==> 0 < g.len && g.pos + g.len <= 8) && g.pos < i
    ensures Output(ws, i, g) == Joined(ws[i..])
    decreases 8 - i
  {
    if i < 8 {
      OutputBehind(ws, i + 1, g);
      assert ws[i..][1..] == ws[i + 1..];
    }
  }

  lemma {:induction false} OutputInFront(ws: seq<Word>, i: nat, g: Gap)
    requires |ws| == 8 && i < g.pos && 0 < g.len && g.pos + g.len <= 8
    ensures Output(ws, i, g) == Joined(ws[i..g.pos]) + ("::" + Joined(ws[g.pos + g.len..]))
    decreases 8 - i
  {
    var back := Joined(ws[g.pos + g.len..]);
    if i + 1 == g.pos {
      OutputBehind(ws, g.pos + g.len, g);
      assert ws[i..g.pos] == [ws[i]];
      assert Output(ws, g.pos, g) == ":" + back;
      assert ":" + (":" + back) == "::" + back;
    } else {
      OutputInFront(ws, i + 1, g);
      var front := Joined(ws[i + 1..g.pos]);
      assert Joined(ws[i..g.pos]) == Hex(ws[i]) + (":" + front) by {
        assert ws[i..g.pos][1..] == ws[i + 1..g.pos];
      }
      Regroup(":", front, "::" + back);
      Regroup(Hex(ws[i]), ":" + front, "::" + back);
    }
  }

  /** Word by word, the loop writes the text of `Ntop`. */
  lemma OutputIsText(ws: seq<Word>, g: Gap)
    requires |ws| == 8 && g == PrintedGap(ws)
    ensures g.pos >= 0 ==> g.len > 0 && g.pos + g.len <= 8 && Output(ws, 0, g) == Compressed(ws, g.pos, g.len)
    ensures g.pos < 0 ==> Output(ws, 0, g) == Joined(ws)
  {
    GapIsFirstLongest(ws);
    if g.pos < 0 {
      OutputBehind(ws, 0, g);
      assert ws[0..] == ws;
    } else if g.pos == 0 {
      OutputBehind(ws, g.len, g);
      assert ws[..0] == [];
    } else {
      OutputInFront(ws, 0, g);
      assert ws[0..g.pos] == ws[..g.pos];
    }
  }

  /** The zeros from the gap on are exactly the gap: a longest run cannot be extended. */
  lemma GapEnds(ws: seq<Word>, g: Gap)
    requires |ws| == 8 && g == PrintedGap(ws) && g.pos >= 0
    ensures g.len > 0 && Zeros(ws, g.pos, g.pos + g.len) && (g.pos + g.len < 8 ==> ws[g.pos + g.len] != 0)
  {
    GapIsFirstLongest(ws);
    if g.pos + g.len < 8 && ws[g.pos + g.len] == 0 {
      MoreZeros(ws, g.pos, g.pos + g.len);
    }
  }

  lemma MoreZeros(ws: seq<Word>, i: nat, j: nat)
    requires j < |ws| && Zeros(ws, i, j) && ws[j] == 0
    ensures Zeros(ws, i, j + 1)
  {
  }

  /** Testing the word as well as the position changes nothing: the gap consists of zeros. */
  lemma GapIsZero(ws: seq<Word>, i: nat, g: Gap)
    requires |ws| == 8 && i < 8 && g == PrintedGap(ws) && (ws[i] != 0 || g.pos != i)
    ensures g.pos != i
  {
    if g.pos == i {
      GapEnds(ws, g);
    }
  }

  /** One word and its colon. */
  lemma OutputWord(ws: seq<Word>, i: nat, g: Gap, done: string)
    requires |ws| == 8 && i < 8 && i != g.pos && (g.pos >= 0 ==> g.len > 0 && g.pos + g.len <= 8)
    ensures done + Output(ws, i, g) == done + Hex(ws[i]) + (if i == 7 then "" else ":") + Output(ws, i + 1, g)
  {
    var colon := if i == 7 then "" else ":";
    var rest := Output(ws, i + 1, g);
    Regroup(done, Hex(ws[i]), colon + rest);
    Regroup(done + Hex(ws[i]), colon, rest);
  }

  /** The colon, or two, that stand for the gap. */
  lemma OutputGap(ws: seq<Word>, i: nat, g: Gap, done: string)
    requires |ws| == 8 && i < 8 && i == g.pos && g.len > 0 && g.pos + g.len <= 8
    ensures done + Output(ws, i, g) == (if i == 0 then done + ":" + ":" else done + ":") + Output(ws, i + g.len, g)
  {
    var rest := Output(ws, i + g.len, g);
    if i == 0 {
      Regroup(done, "::", rest);
      assert done + ":" + ":" == done + "::";
    } else {
      Regroup(done, ":", rest);
    }
  }

  /** What the output loop maintains. */
  ghost predicate Writing(buf: array<char>, cp: nat, done: string, ws: seq<Word>, i: nat, g: Gap, text: string)
    reads buf
  {
    && |ws| == 8 && i <= 8 && (g.pos >= 0 ==> g.len > 0 && g.pos + g.len <= 8)
    && Composed(buf, cp, done) && done + Output(ws, i, g) == text
  }

  method WriteWord(w: Word, i: nat, buf: array<char>, at: nat,
                   ghost done: string, ghost ws: seq<Word>, ghost g: Gap, ghost text: string)
      returns (cp: nat, ghost next: string)
    requires i < 8 && i != g.pos && buf.Length == 64 && |text| < 64
    requires Writing(buf, at, done, ws, i, g, text) && ws[i] == w
    modifies buf
    ensures Writing(buf, cp, next, ws, i + 1, g, text)
  {
    OutputWord(ws, i, g, done);
    cp := Compose(buf, at, Hex(w), done);
    next := done + Hex(w);
    if i != 7 {
      cp := Compose(buf, cp, ":", next);
      next := next + ":";
    } else {
      assert next + "" == next;
    }
  }

  method WriteGap(i: nat, buf: array<char>, at: nat,
                  ghost done: string, ghost ws: seq<Word>, ghost g: Gap, ghost text: string)
      returns (cp: nat, ghost next: string)
    requires i < 8 && i == g.pos && buf.Length == 64 && |text| < 64
    requires Writing(buf, at, done, ws, i, g, text)
    modifies buf
    ensures Writing(buf, cp, next, ws, i + g.len, g, text)
  {
    OutputGap(ws, i, g, done);
    next := done;
    cp := at;
    if i == 0 {
      cp := Compose(buf, cp, ":", next);
      next := next + ":";
    }
    cp := Compose(buf, cp, ":", next);
    next := next + ":";
  }

  /** The inner loop, over the words of the gap. */
  method SkipZeros(words: array<Word>, start: nat, ghost g: Gap) returns (i: nat)
    requires words.Length == 8 && start < 8 && start == g.pos && g.pos + g.len <= 8
    requires forall k :: g.pos <= k < g.pos + g.len ==> words[k] == 0
    requires g.pos + g.len < 8 ==> words[g.pos + g.len] != 0
    ensures i == g.pos + g.len
  {
    i := start;
    while i < 8 && words[i] == 0
      invariant g.pos <= i <= g.pos + g.len
    {
      i := i + 1;
    }
  }

  /** The output loop, into a buffer that has room for the whole text. */
  method WriteWords(words: array<Word>, longestGapPos: int, buf: array<char>, ghost g: Gap, ghost text: string)
      returns (cp: nat)
    requires words.Length == 8 && g == PrintedGap(words[..]) && longestGapPos == g.pos
    requires buf.Length == 64 && |text| < 64
    requires g.pos >= 0 ==> g.len > 0
    requires text == Output(words[..], 0, g)
    modifies buf
    ensures Composed(buf, cp, text)
  {
    ghost var ws := words[..];
    ghost var done := "";
    cp := 0;
    var i := 0;
    while i < 8
      invariant i <= 8 && words[..] == ws && Writing(buf, cp, done, ws, i, g, text)
      decreases 8 - i
    {
      i, cp, done := WriteNext(words, longestGapPos, i, buf, cp, done, g, text);
    }
    assert done + "" == done;
  }

  /** The body of the loop: the gap, or one word. */
  method WriteNext(words: array<Word>, longestGapPos: int, at: nat, buf: array<char>, from: nat,
                   ghost before: string, ghost g: Gap, ghost text: string)
      returns (i: nat, cp: nat, ghost done: string)
    requires words.Length == 8 && g == PrintedGap(words[..]) && longestGapPos == g.pos
    requires buf.Length == 64 && |text| < 64 && at < 8 && Writing(buf, from, before, words[..], at, g, text)
    modifies buf
    ensures at < i <= 8 && Writing(buf, cp, done, words[..], i, g, text)
  {
    i := at;
    if words[i] == 0 && longestGapPos == i {
      GapEnds(words[..], g);
      cp, done := WriteGap(i, buf, from, before, words[..], g, text);
      i := SkipZeros(words, i, g);
    } else {
      GapIsZero(words[..], i, g);
      cp, done := WriteWord(words[i], i, buf, from, before, words[..], g, text);
      i := i + 1;
    }
  }

  /** The end of `evutil_inet_ntop`: a text that is too long is refused, any other is copied and padded. */
  method CopyOut(buf: array<char>, length: nat, dst: array<char>, len: nat, ghost text: string) returns (ok: bool)
    requires Composed(buf, length, text) && buf != dst && len <= dst.Length
    modifies dst
    ensures ok == (|text| <= len)
    ensures ok ==> Reads(dst[..], 0, text) && forall i :: |text| <= i < len ==> dst[i] == NUL
    ensures !ok ==> dst[..] == old(dst[..])
    ensures dst[len..] == old(dst[len..])
  {
    if length > len {
      return false;
    }
    for i := 0 to len
      invariant forall k :: 0 <= k < i ==> dst[k] == if k < length then text[k] else NUL
      invariant dst[len..] == old(dst[len..])
    {
      dst[i] := if i < length then buf[i] else NUL;
    }
    ok := true;
  }

  /** The branch for embedded IPv4 addresses: one `snprintf`. */
  method WriteDotted(addr: array<Byte>, words: array<Word>, buf: array<char>) returns (cp: nat)
    requires addr.Length == 16 && words.Length == 8 && words[..] == Words(addr[..]) && EmbedsV4(words[..])
    requires buf.Length == 64
    modifies buf
    ensures Composed(buf, cp, Ntop(addr[..]))
  {
    ghost var text := Ntop(addr[..]);
    TextShort(addr[..]);
    var dotted := Dotted(addr[12], addr[13], addr[14], addr[15]);
    if words[5] == 0 {
      cp := Compose(buf, 0, "::" + dotted, "");
      assert "" + ("::" + dotted) == text;
    } else {
      var prefix := "::" + (Hex(words[5]) + ":");
      cp := Compose(buf, 0, prefix + dotted, "");
      assert "" + (prefix + dotted) == text;
    }
  }

  /** Formats into the local buffer. */
  method Format(addr: array<Byte>, buf: array<char>) returns (cp: nat)
    requires addr.Length == 16 && buf.Length == 64
    modifies buf
    ensures cp < 64 && Composed(buf, cp, Ntop(addr[..]))
  {
    var words := LoadWords(addr);
    TextShort(addr[..]);
    if words[0] == 0 && words[1] == 0 && words[2] == 0 && words[3] == 0 &&
       words[4] == 0 && ((words[5] == 0 && words[6] != 0 && words[7] != 0) || words[5] == 0xffff) {
      assert EmbedsV4(words[..]);
      cp := WriteDotted(addr, words, buf);
    } else {
      assert !EmbedsV4(words[..]);
      var longestGapPos, longestGapLen := FindGap(words);
      ghost var g := Gap(longestGapPos, longestGapLen);
      OutputIsText(words[..], g);
      cp := WriteWords(words, longestGapPos, buf, g, Ntop(addr[..]));
    }
    assert cp == |Ntop(addr[..])|;
  }

  /**
    `evutil_inet_ntop`. A destination with room for the characters but not for the terminator is
    filled and reported as a success.
    */
  method InetNtop(addr: array<Byte>, dst: array<char>, len: nat) returns (ok: bool)
    requires addr.Length == 16 && len <= dst.Length
    modifies dst
    ensures ok == (|Ntop(addr[..])| <= len)
    ensures ok ==> Reads(dst[..], 0, Ntop(addr[..])) && forall i :: |Ntop(addr[..])| <= i < len ==> dst[i] == NUL
    ensures !ok ==> dst[..] == old(dst[..])
    ensures dst[len..] == old(dst[len..])
  {
    var buf := new char[64];
    var cp := Format(addr, buf);
    buf[cp] := NUL;
    ok := CopyOut(buf, cp, dst, len, Ntop(addr[..]));
  }

  lemma DottedNulFree(a: Byte, b: Byte, c: Byte, d: Byte)
    ensures NulFree(Dotted(a, b, c, d))
  {
    DigitsAreDigits(a);
    DigitsAreDigits(b);
    DigitsAreDigits(c);
    DigitsAreDigits(d);
    NulFreeCat(".", Digits(d));
    NulFreeCat(Digits(c), "." + Digits(d));
    NulFreeCat(".", Digits(c) + ("." + Digits(d)));
    NulFreeCat(Digits(b), "." + (Digits(c) + ("." + Digits(d))));
    NulFreeCat(".", Digits(b) + ("." + (Digits(c) + ("." + Digits(d)))));
    NulFreeCat(Digits(a), "." + (Digits(b) + ("." + (Digits(c) + ("." + Digits(d))))));
  }

  lemma TextHasNoNul(addr: seq<Byte>)
    requires |addr| == 16
    ensures NulFree(Ntop(addr))
  {
    var ws := Words(addr);
    if EmbedsV4(ws) {
      HexOfWord(ws[5]);
      DottedNulFree(addr[12], addr[13], addr[14], addr[15]);
      NulFreeCat(V4Prefix(ws), Dotted(addr[12], addr[13], addr[14], addr[15]));
    } else {
      var g := PrintedGap(ws);
      JoinedNulFree(ws);
      if g.pos >= 0 {
        JoinedNulFree(ws[..g.pos]);
        JoinedNulFree(ws[g.pos + g.len..]);
      }
    }
  }

  lemma {:induction false} JoinedNulFree(ws: seq<Word>)
    ensures NulFree(Joined(ws))
  {
    if ws != [] {
      HexOfWord(ws[0]);
      JoinedNulFree(ws[1..]);
    }
  }

  /**
    What a successful call leaves in `dst` is a C string holding the text exactly when there was
    room for the terminator as well: the length check lets through one character too many.
    */
  lemma Terminated(addr: seq<Byte>, dst: seq<char>, len: nat)
    requires |addr| == 16 && len <= |dst| && |Ntop(addr)| <= len
    requires Reads(dst, 0, Ntop(addr)) && forall i :: |Ntop(addr)| <= i < len ==> dst[i] == NUL
    ensures (exists i :: 0 <= i < len && dst[i] == NUL) <==> |Ntop(addr)| < len
    ensures |Ntop(addr)| < len ==> TextFrom(dst, 0) == Ntop(addr)
  {
    TextHasNoNul(addr);
    if |Ntop(addr)| < len {
      TextFromStored(dst, 0, Ntop(addr));
    } else {
      forall i | 0 <= i < len ensures dst[i] != NUL {
        ReadsAt(dst, 0, Ntop(addr), i);
      }
    }
  }

  /** For every address there is a size of the destination with which the call succeeds and stores no terminator. */
  method NtopUnterminated(addr: array<Byte>) returns (dst: array<char>, ok: bool)
    requires addr.Length == 16
    ensures ok && forall i :: 0 <= i < dst.Length ==> dst[i] != NUL
  {
    var length := |Ntop(addr[..])|;
    dst := new char[length];
    ghost var text := Ntop(addr[..]);
    ok := InetNtop(addr, dst, length);
    TextHasNoNul(addr[..]);
    forall i | 0 <= i < dst.Length ensures dst[i] != NUL {
      ReadsAt(dst[..], 0, text, i);
    }
  }

  // ---------- parsing ----------

  /** The loop that walks back from the first dot over the digits in front of it. */
  method StartOfDotted(src: string, dot: nat) returns (eow: nat)
    requires dot <= |src|
    ensures eow == BackDigits(src, dot)
  {
    eow := dot;
    while eow > 0 && IsDigit(src[eow - 1])
      invariant eow <= dot && BackDigits(src, dot) == BackDigits(src, eow)
    {
      eow := eow - 1;
    }
  }

  /** The word loop; `None` is its `return 0`. Words behind those read keep their values. */
  method ReadWords(src: string, eow: nat, words: array<Word>) returns (ok: bool, i: nat, gapPos: int)
    requires eow <= |src| && words.Length == 8
    modifies words
    ensures ok ==> i <= 8 && -1 <= gapPos <= i
    ensures ok ==> ParseGroups(src, 0, eow, Groups([], -1)) == Some(Groups(words[..i], gapPos))
    ensures ok ==> forall k :: i <= k < 8 ==> words[k] == old(words[k])
    ensures !ok ==> ParseGroups(src, 0, eow, Groups([], -1)).None?
  {
    var p := 0;
    i, gapPos := 0, -1;
    while p < eow
      invariant i <= 8 && -1 <= gapPos <= i
      invariant forall k :: i <= k < 8 ==> words[k] == old(words[k])
      invariant ParseGroups(src, 0, eow, Groups([], -1)) == ParseGroups(src, p, eow, Groups(words[..i], gapPos))
      decreases |src| + 1 - p
    {
      if i > 7 {
        return false, i, gapPos;
      }
      if IsHex(src[p]) {
        var n := Strtol16(src, p);
        if n.end > 4 + p || n.value > 65536 {
          return false, i, gapPos;
        }
        words[i] := n.value % 65536;
        assert words[..i + 1] == words[..i] + [words[i]];
        i := i + 1;
        p := n.end;
        if At(src, p) != ':' && p != eow {
          return false, i, gapPos;
        }
        p := p + 1;
      } else if src[p] == ':' && i > 0 && gapPos == -1 {
        gapPos := i;
        p := p + 1;
      } else if src[p] == ':' && i == 0 && At(src, p + 1) == ':' && gapPos == -1 {
        gapPos := i;
        p := p + 2;
      } else {
        return false, i, gapPos;
      }
    }
    ok := true;
  }

  /** `memmove(&words[at + shift], &words[at], n)`, a move to the right. */
  method MoveUp(words: array<Word>, at: nat, shift: nat, n: nat)
    requires at + shift + n <= words.Length
    modifies words
    ensures forall j :: at + shift <= j < at + shift + n ==> words[j] == old(words[j - shift])
    ensures forall j :: 0 <= j < at + shift || at + shift + n <= j < words.Length ==> words[j] == old(words[j])
  {
    var k := at + shift + n;
    while k > at + shift
      invariant at + shift <= k <= at + shift + n
      invariant forall j :: k <= j < at + shift + n ==> words[j] == old(words[j - shift])
      invariant forall j :: 0 <= j < k || at + shift + n <= j < words.Length ==> words[j] == old(words[j])
    {
      k := k - 1;
      words[k] := words[k - shift];
    }
  }

  /** The step that makes room for the zeros of the gap. */
  method OpenGap(words: array<Word>, gapPos: nat, setWords: nat, nToMove: nat, ghost v4: seq<Word>)
    requires words.Length == 8 && setWords < 8 && gapPos + nToMove + |v4| == setWords
    requires forall k :: 8 - |v4| <= k < 8 ==> words[k] == v4[k - (8 - |v4|)]
    modifies words
    ensures Assemble(Groups(old(words[..gapPos + nToMove]), gapPos), v4) == Some(words[..])
  {
    ghost var front := words[..gapPos + nToMove];
    var gapLen := 8 - setWords;
    MoveUp(words, gapPos, gapLen, nToMove);
    label moved:
    for k := gapPos to gapPos + gapLen
      invariant forall j :: gapPos <= j < k ==> words[j] == 0
      invariant forall j :: 0 <= j < gapPos || gapPos + gapLen <= j < 8 ==> words[j] == old@moved(words[j])
    {
      words[k] := 0;
    }
    GapOpened(words[..], front, gapPos, gapLen, v4);
  }

  /** The four parts of the assembled words, place by place. */
  lemma GapOpened(ws: seq<Word>, front: seq<Word>, gapPos: nat, gapLen: nat, v4: seq<Word>)
    requires |ws| == 8 == |front| + gapLen + |v4| && gapPos <= |front| && 0 < gapLen
    requires forall k :: 0 <= k < gapPos ==> ws[k] == front[k]
    requires forall k :: gapPos <= k < gapPos + gapLen ==> ws[k] == 0
    requires forall k :: gapPos + gapLen <= k < 8 - |v4| ==> ws[k] == front[k - gapLen]
    requires forall k :: 8 - |v4| <= k < 8 ==> ws[k] == v4[k - (8 - |v4|)]
    ensures Assemble(Groups(front, gapPos), v4) == Some(ws)
  {
    ZeroWordsAreZero(gapLen);
    assert ws == front[..gapPos] + ZeroWords(gapLen) + front[gapPos..] + v4;
  }

  method StoreWords(words: array<Word>, out: array<Byte>)
    requires words.Length == 8 && out.Length == 16
    modifies out
    ensures out[..] == Bytes(words[..])
  {
    for i := 0 to 8
      invariant forall k :: 0 <= k < 2 * i ==> out[k] == Bytes(words[..])[k]
    {
      out[2 * i] := words[i] / 256;
      out[2 * i + 1] := words[i] % 256;
    }
  }

  /** The dotted part: stored in the last two words. */
  method ReadDotted(src: string, dot: nat, words: array<Word>) returns (ok: bool, eow: nat)
    requires 0 < dot < |src| && words.Length == 8
    modifies words
    ensures eow == BackDigits(src, dot) && ok == ScanDotted(src, eow).Some?
    ensures ok ==> words[6] == ScanDotted(src, eow).value[0] && words[7] == ScanDotted(src, eow).value[1]
  {
    eow := StartOfDotted(src, dot);
    var pair := ScanDotted(src, eow);
    ok := pair.Some?;
    if ok {
      words[6], words[7] := pair.value[0], pair.value[1];
    }
  }

  /** The checks behind the word loop, and the gap. The result -1 is indeed impossible. */
  method FillGap(words: array<Word>, i: nat, gapPos: int, dotted: bool, ghost v4: seq<Word>) returns (r: int)
    requires words.Length == 8 && i <= 8 && -1 <= gapPos <= i && |v4| == if dotted then 2 else 0
    requires i + |v4| <= 8 ==> forall k :: 8 - |v4| <= k < 8 ==> words[k] == v4[k - (8 - |v4|)]
    modifies words
    ensures r == if Assemble(Groups(old(words[..i]), gapPos), v4).Some? then 1 else 0
    ensures r == 1 ==> Assemble(Groups(old(words[..i]), gapPos), v4) == Some(words[..])
  {
    var setWords := i + if dotted then 2 else 0;
    if setWords > 8 || (setWords == 8 && gapPos != -1) || (setWords < 8 && gapPos == -1) {
      return 0;
    }
    if gapPos >= 0 {
      var nToMove := setWords - (if dotted then 2 else 0) - gapPos;
      if nToMove < 0 {
        assert false;
        return -1;
      }
      OpenGap(words, gapPos, setWords, nToMove, v4);
    } else {
      assert words[..i] + v4 == words[..];
    }
    r := 1;
  }

  /** `evutil_inet_pton`: 1 and the address, or 0 and nothing stored. */
  method InetPton(src: string, out: array<Byte>) returns (r: int)
    requires out.Length == 16
    modifies out
    ensures r == if Pton(src).Some? then 1 else 0
    ensures out[..] == if r == 1 then Pton(src).value else old(out[..])
  {
    var words := new Word[8];
    var eow := |src|;
    var dot := FindDot(src, 0);
    ghost var v4: seq<Word> := [];
    if dot < |src| {
      if dot == 0 {
        return 0;
      }
      var found: bool;
      found, eow := ReadDotted(src, dot, words);
      if !found {
        return 0;
      }
      v4 := ScanDotted(src, eow).value;
    }
    var ok, i, gapPos := ReadWords(src, eow, words);
    if !ok {
      return 0;
    }
    r := FillGap(words, i, gapPos, dot < |src|, v4);
    if r == 1 {
      StoreWords(words, out);
    }
  }
}
