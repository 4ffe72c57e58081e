/**
  The digits that `%d` and `%x` print, and how they are read back: decimal digits without leading zeros,
  most significant first, and hexadecimal digits in either case. Printers of JSON and of addresses use
  them, and so do the parsers, which collect digits for as long as there are any.
  */
module Numerals {
  import opened Common
  import opened CText

  function DigitChar(d: nat): (c: char)
    requires d < 10
    ensures IsDigit(c) && c as nat - '0' as nat == d
  {
    '0' + d as char
  }

  /** Decimal digits, most significant first, without leading zeros. */
  function Digits(n: nat): (s: string)
    ensures |s| >= 1
  {
    if n < 10 then [DigitChar(n)] else Digits(n / 10) + [DigitChar(n % 10)]
  }

  lemma {:induction false} DigitsLead(n: nat)
    requires n > 0
    ensures '1' <= Digits(n)[0] <= '9'
  {
    if n >= 10 {
      DigitsLead(n / 10);
    }
  }

  lemma {:induction false} DigitsAreDigits(n: nat)
    ensures forall i :: 0 <= i < |Digits(n)| ==> IsDigit(Digits(n)[i])
  {
    if n >= 10 {
      DigitsAreDigits(n / 10);
    }
  }

  function Pow10(k: nat): nat {
    if k == 0 then 1 else 10 * Pow10(k - 1)
  }

  lemma {:induction false} DigitsShort(n: nat, k: nat)
    requires n < Pow10(k) && k > 0
    ensures |Digits(n)| <= k
  {
    if n >= 10 {
      assert n / 10 < Pow10(k - 1);
      DigitsShort(n / 10, k - 1);
    }
  }

  datatype Numeral = Numeral(value: nat, end: nat)

  /** Reads decimal digits on top of what has been read. */
  function ParseDigits(text: string, p: nat, acc: nat): (r: Numeral)
    requires p <= |text|
    ensures p <= r.end <= |text|
    decreases |text| - p
  {
    if IsDigit(At(text, p)) then ParseDigits(text, p + 1, acc * 10 + (text[p] as nat - '0' as nat))
    else Numeral(acc, p)
  }

  lemma {:induction false} DigitsParsed(text: string, p: nat, n: nat, end: nat)
    requires Reads(text, p, Digits(n)) && end == p + |Digits(n)|
    ensures ParseDigits(text, p, 0) == ParseDigits(text, end, n)
    decreases n
  {
    if n < 10 {
      ReadsHead(text, p, Digits(n));
    } else {
      var k := end - 1;
      assert Reads(text, p, Digits(n / 10)) && text[k] == DigitChar(n % 10) by {
        ReadsSplit(text, p, Digits(n / 10), k, [DigitChar(n % 10)]);
        ReadsHead(text, k, [DigitChar(n % 10)]);
      }
      DigitsParsed(text, p, n / 10, k);
      assert n / 10 * 10 + n % 10 == n;
    }
  }

  // ---------- what digits stand for ----------

  predicate AllDigits(s: string) {
    forall i :: 0 <= i < |s| ==> IsDigit(s[i])
  }

  /** The number that decimal digits stand for. */
  function DecNumber(s: string): nat
    requires AllDigits(s)
  {
    if s == "" then 0 else DecNumber(s[..|s| - 1]) * 10 + (s[|s| - 1] as nat - '0' as nat)
  }

  // ---------- hexadecimal ----------

  function HexVal(c: char): Option<nat> {
    if '0' <= c <= '9' then Some(c as nat - '0' as nat)
    else if 'A' <= c <= 'F' then Some(10 + c as nat - 'A' as nat)
    else if 'a' <= c <= 'f' then Some(10 + c as nat - 'a' as nat)
    else None
  }

  predicate IsHex(c: char) {
    HexVal(c).Some?
  }

  function HexDigit(d: nat): (c: char)
    requires d < 16
    ensures HexVal(c) == Some(d) && !('A' <= c <= 'F')
  {
    if d < 10 then '0' + d as char else 'a' + (d - 10) as char
  }

  function Pow16(k: nat): nat {
    if k == 0 then 1 else 16 * Pow16(k - 1)
  }

  predicate AllHex(s: string) {
    forall i :: 0 <= i < |s| ==> IsHex(s[i])
  }

  /** The number that hexadecimal digits stand for. */
  function HexNumber(s: string): (n: nat)
    requires AllHex(s)
    ensures n < Pow16(|s|)
  {
    if s == "" then 0 else HexNumber(s[..|s| - 1]) * 16 + HexVal(s[|s| - 1]).value
  }
}
