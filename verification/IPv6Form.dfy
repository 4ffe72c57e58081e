/** The form of what `evutil_inet_ntop` prints. */
module IPv6Form {
  import opened Common
  import opened CText
  import opened Numerals
  import opened IPv6
  import opened IPv6Language
  import opened IPv6RoundTrip

  // ---------- words ----------

  /** The text of a word is the hexadecimal number of its two bytes, in lower case and without leading zeros. */
  lemma PrintedWord(addr: seq<Byte>, i: nat)
    requires |addr| == 16 && i < 8
    ensures var t := Hex(Words(addr)[i]);
      && AllHex(t) && HexNumber(t) == 256 * (addr[2 * i] as int) + addr[2 * i + 1]
      && (|t| > 1 ==> t[0] != '0') && forall k :: 0 <= k < |t| ==> !('A' <= t[k] <= 'F')
  {
    HexNumberOf(Words(addr)[i]);
    HexOfWord(Words(addr)[i]);
  }

  // ---------- the gap ----------

  /** A run of at least two zero words; all others are shorter, or as long and not before it. */
  ghost predicate FirstLongestRun(ws: seq<Word>, pos: nat, len: nat) {
    && len >= 2 && Zeros(ws, pos, pos + len)
    && forall a, b :: a < b && Zeros(ws, a, b) ==> b - a < len || (b - a == len && pos <= a)
  }

  /** There is one if two words in a row are zero. */
  lemma RunExists(ws: seq<Word>, a: nat)
    requires Zeros(ws, a, a + 2)
    ensures var g := PrintedGap(ws); g.pos >= 0 && FirstLongestRun(ws, g.pos, g.len)
  {
    GapIsFirstLongest(ws);
  }

  lemma RunIsGap(ws: seq<Word>, pos: nat, len: nat)
    requires FirstLongestRun(ws, pos, len)
    ensures PrintedGap(ws) == Gap(pos, len)
  {
    assert Zeros(ws, pos, pos + 2);
    RunExists(ws, pos);
    var g := PrintedGap(ws);
    assert Zeros(ws, g.pos, g.pos + g.len);
  }

  // ---------- the dotted part ----------

  predicate AllZero(addr: seq<Byte>, i: nat, j: nat)
    requires i <= j <= |addr|
  {
    forall k :: i <= k < j ==> addr[k] == 0
  }

  /** Ten zero bytes, and ffff or a zero word in front of two words that are not zero. */
  predicate HasDots(addr: seq<Byte>)
    requires |addr| == 16
  {
    AllZero(addr, 0, 10) &&
    ((addr[10] == 255 && addr[11] == 255)
     || (AllZero(addr, 10, 12) && !AllZero(addr, 12, 14) && !AllZero(addr, 14, 16)))
  }

  lemma WordIsZero(addr: seq<Byte>, i: nat)
    requires |addr| == 16 && i < 8
    ensures Words(addr)[i] == 0 <==> AllZero(addr, 2 * i, 2 * i + 2)
    ensures Words(addr)[i] == 0xffff <==> addr[2 * i] == 255 && addr[2 * i + 1] == 255
  {
    assert Words(addr)[i] == WordAt(addr, i);
  }

  lemma EmbedsIffHasDots(addr: seq<Byte>)
    requires |addr| == 16
    ensures EmbedsV4(Words(addr)) <==> HasDots(addr)
  {
    forall i | 0 <= i < 8 ensures Words(addr)[i] == 0 <==> AllZero(addr, 2 * i, 2 * i + 2) {
      WordIsZero(addr, i);
    }
    WordIsZero(addr, 5);
    assert AllZero(addr, 0, 10) <==>
      AllZero(addr, 0, 2) && AllZero(addr, 2, 4) && AllZero(addr, 4, 6) && AllZero(addr, 6, 8) && AllZero(addr, 8, 10);
  }

  // ---------- the text ----------

  /** Four decimal numbers, behind `::` or `::ffff:`, for exactly these addresses. */
  lemma DottedForm(addr: seq<Byte>)
    requires |addr| == 16 && HasDots(addr)
    ensures Ntop(addr) == (if addr[10] == 0 then "::" else "::ffff:") +
      (Digits(addr[12]) + ("." + (Digits(addr[13]) + ("." + (Digits(addr[14]) + ("." + Digits(addr[15])))))))
  {
    EmbedsIffHasDots(addr);
    WordIsZero(addr, 5);
    assert addr[10] != 0 ==> Words(addr)[5] == 0xffff;
    assert Hex(0xffff) == "ffff";
  }

  /** Two colons stand for the first longest run, and all other words are printed. */
  lemma GapForm(addr: seq<Byte>, pos: nat, len: nat)
    requires |addr| == 16 && !HasDots(addr) && FirstLongestRun(Words(addr), pos, len)
    ensures var ws := Words(addr);
      Ntop(addr) == Joined(ws[..pos]) + ("::" + Joined(ws[pos + len..]))
  {
    EmbedsIffHasDots(addr);
    RunIsGap(Words(addr), pos, len);
  }

  /** Without two zero words in a row all words are printed. */
  lemma FullForm(addr: seq<Byte>)
    requires |addr| == 16 && !HasDots(addr) && forall a, b :: b - a == 2 ==> !Zeros(Words(addr), a, b)
    ensures Ntop(addr) == Joined(Words(addr))
  {
    EmbedsIffHasDots(addr);
    GapIsFirstLongest(Words(addr));
  }

  /** A dot is printed for no other address. */
  lemma DotsIffHasDots(addr: seq<Byte>)
    requires |addr| == 16
    ensures '.' in Ntop(addr) <==> HasDots(addr)
  {
    var ws := Words(addr);
    if HasDots(addr) {
      DottedForm(addr);
    } else {
      EmbedsIffHasDots(addr);
      var g := PrintedGap(ws);
      if g.pos < 0 {
        JoinedDotFree(ws);
      } else {
        JoinedDotFree(ws[..g.pos]);
        JoinedDotFree(ws[g.pos + g.len..]);
      }
    }
  }
}
