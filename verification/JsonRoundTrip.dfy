/** Parsing what was printed gives the value back and stops right behind it. */
module JsonRoundTrip {
  import opened Common
  import opened CText
  import opened Numerals
  import opened JsonString
  import opened JsonValue

  // ---------- numbers ----------

  /** The text at `p` makes an integer that ends there longer: more digits, a fraction, an exponent. */
  predicate GoesOn(text: string, p: nat, m: int) {
    || ('1' <= At(text, p) <= '9')
    || (At(text, p) == '0' && m != 0)
    || (At(text, p) == '.' && IsDigit(At(text, p + 1)))
    || At(text, p) == 'e' || At(text, p) == 'E'
  }

  lemma WholeParsed(text: string, p: nat, n: nat)
    requires Reads(text, p, Digits(n))
    ensures ParseWhole(text, p) ==
      if n != 0 then ParseDigits(text, p + |Digits(n)|, n)
      else if '1' <= At(text, p + 1) <= '9' then ParseDigits(text, p + 1, 0)
      else Numeral(0, p + 1)
  {
    ReadsHead(text, p, Digits(n));
    if n != 0 {
      DigitsLead(n);
      DigitsParsed(text, p, n, p + |Digits(n)|);
    }
  }

  /**
    An integer that was printed is read back, ending where its text ends, exactly when the
    text behind it does not extend the number.
    */
  lemma IntRoundTrip(text: string, p: nat, m: int)
    requires Reads(text, p, IntText(m))
    ensures ParseNumber(text, p) == Ok(Number(m, 0), p + |IntText(m)|) <==> !GoesOn(text, p + |IntText(m)|, m)
  {
    var n: nat := if m < 0 then -m else m;
    var q := if m < 0 then p + 1 else p;
    var end := q + |Digits(n)|;
    assert Reads(text, q, Digits(n)) && (text[p] == '-' <==> m < 0) by {
      IntSign(text, p, m, n, q);
    }
    NumberRest(text, q, n, end);
  }

  lemma IntSign(text: string, p: nat, m: int, n: nat, q: nat)
    requires Reads(text, p, IntText(m))
    requires n == (if m < 0 then -m else m) && q == (if m < 0 then p + 1 else p)
    ensures Reads(text, q, Digits(n)) && (text[p] == '-' <==> m < 0)
  {
    if m < 0 {
      ReadsSplit(text, p, "-", q, Digits(n));
      ReadsHead(text, p, "-");
    } else {
      ReadsHead(text, p, Digits(n));
      DigitsAreDigits(n);
    }
  }

  /** The digits, fraction and exponent behind the sign. */
  lemma NumberRest(text: string, q: nat, n: nat, end: nat)
    requires Reads(text, q, Digits(n)) && end == q + |Digits(n)|
    ensures var whole := ParseWhole(text, q);
      var all := ParseFraction(text, whole);
      var exp := ParseExponent(text, all.end);
      && (!GoesOn(text, end, n) ==> whole == all == Numeral(n, end) && exp == Exponent(0, end))
      && (GoesOn(text, end, n) ==> exp.end > end)
  {
    WholeParsed(text, q, n);
    assert ParseDigits(text, end, n).end > end <==> IsDigit(At(text, end));
    assert n == 0 ==> end == q + 1;
  }

  // ---------- blanks ----------

  predicate Blank(s: string) {
    forall i :: 0 <= i < |s| ==> NUL < s[i] <= ' '
  }

  lemma {:induction false} SkipBlank(text: string, p: nat, s: string, end: nat)
    requires Reads(text, p, s) && Blank(s) && end == p + |s|
    ensures Skip(text, p) == Skip(text, end)
    decreases |s|
  {
    if s != "" {
      assert s == s[..1] + s[1..];
      assert text[p] == s[0] && Reads(text, p + 1, s[1..]) by {
        ReadsHead(text, p, s);
        ReadsSplit(text, p, s[..1], p + 1, s[1..]);
      }
      SkipBlank(text, p + 1, s[1..], end);
    }
  }

  /** What a printed value starts with: never a blank, a closing bracket or a quote of something else. */
  lemma PrintStarts(v: Json, depth: nat, fmt: bool)
    requires Printable(v)
    ensures var s := Print(v, depth, fmt);
      && s != "" && s[0] > ' ' && s[0] != ']' && s[0] != '}'
      && (v.String? <==> s[0] == '"') && (v.Array? <==> s[0] == '[') && (v.Object? <==> s[0] == '{')
      && (v.Null? <==> s[0] == 'n') && (v.False? <==> s[0] == 'f') && (v.True? <==> s[0] == 't')
      && (v.Number? <==> s[0] == '-' || IsDigit(s[0]))
  {
    if v.Number? {
      DigitsAreDigits(if v.mantissa < 0 then -v.mantissa else v.mantissa);
    }
  }

  // ---------- values ----------

  /** Where a printed value may stand: only a number cares about what follows it. */
  predicate Ends(v: Json, text: string, end: nat) {
    v.Number? ==> !GoesOn(text, end, v.mantissa)
  }

  /** The characters the printer puts behind a value never extend a number. */
  lemma Delimited(v: Json, text: string, end: nat)
    requires At(text, end) == ',' || At(text, end) == ']' || At(text, end) == '}' || At(text, end) <= ' '
    ensures Ends(v, text, end)
  {
  }

  lemma {:induction false} ValueRoundTrip(text: string, p: nat, v: Json, depth: nat, fmt: bool, s: string)
    requires Printable(v) && s == Print(v, depth, fmt) && Reads(text, p, s)
    requires Ends(v, text, p + |s|)
    ensures ParseValue(text, p) == Ok(v, p + |s|)
    decreases v, 1
  {
    match v
    case Array(items) =>
      ArrayRoundTrip(text, p, items, depth, fmt, s);
    case Object(ms) =>
      ObjectRoundTrip(text, p, ms, depth, fmt, s);
    case _ =>
      ScalarRoundTrip(text, p, v, depth, fmt, s);
  }

  lemma ScalarRoundTrip(text: string, p: nat, v: Json, depth: nat, fmt: bool, s: string)
    requires !v.Array? && !v.Object?
    requires Printable(v) && s == Print(v, depth, fmt) && Reads(text, p, s)
    ensures v.Number? ==> (ParseValue(text, p) == Ok(v, p + |s|) <==> !GoesOn(text, p + |s|, v.mantissa))
    ensures !v.Number? ==> ParseValue(text, p) == Ok(v, p + |s|)
  {
    PrintStarts(v, depth, fmt);
    ReadsHead(text, p, s);
    match v
    case Number(m, _) => IntRoundTrip(text, p, m);
    case String(x) => StringRoundTrip(text, p, x);
    case Null => assert Look(1) && Look(2) && Look(3);
    case True => assert Look(1) && Look(2) && Look(3);
    case False => assert Look(1) && Look(2) && Look(3) && Look(4);
    case _ =>
  }

  // ---------- one step of each parser over texts that the printer puts together ----------

  lemma {:induction false} SkipTwice(text: string, p: nat)
    requires p <= |text|
    ensures Skip(text, Skip(text, p)) == Skip(text, p)
    decreases |text| - p
  {
    if NUL < At(text, p) <= ' ' {
      SkipTwice(text, p + 1);
    }
  }

  /** Blanks in front of the items or members make no difference. */
  lemma ItemsAlike(text: string, p: nat, q: nat)
    requires p <= |text| && q <= |text| && Skip(text, p) == Skip(text, q)
    ensures ParseItems(text, p) == ParseItems(text, q)
  {
  }

  lemma MemberAlike(text: string, p: nat, q: nat)
    requires p <= |text| && q <= |text| && Skip(text, p) == Skip(text, q)
    ensures ParseMember(text, p) == ParseMember(text, q)
  {
  }

  lemma MembersAlike(text: string, p: nat, q: nat)
    requires p <= |text| && q <= |text| && Skip(text, p) == Skip(text, q)
    ensures ParseMembers(text, p) == ParseMembers(text, q)
  {
    MemberAlike(text, p, q);
  }

  lemma SkipComma(text: string, p: nat, fmt: bool, end: nat)
    requires Reads(text, p, Comma(fmt)) && end == p + |Comma(fmt)|
    ensures At(text, p) == ',' && Skip(text, p + 1) == Skip(text, end)
  {
    assert Look(0) && Look(1);
  }

  lemma SkipColon(text: string, p: nat, fmt: bool, end: nat)
    requires Reads(text, p, Colon(fmt)) && end == p + |Colon(fmt)|
    ensures At(text, p) == ':' && Skip(text, p + 1) == Skip(text, end)
  {
    assert Look(0) && Look(1);
  }

  lemma SkipIndent(text: string, p: nat, depth: nat, fmt: bool, end: nat)
    requires Reads(text, p, Indent(depth, fmt)) && end == p + |Indent(depth, fmt)|
    ensures Skip(text, p) == Skip(text, end)
  {
    TabsAreTabs(depth);
    SkipBlank(text, p, Indent(depth, fmt), end);
  }

  lemma SkipClose(text: string, p: nat, depth: nat, fmt: bool) returns (end: nat)
    requires Reads(text, p, Close(depth, fmt))
    ensures Skip(text, p) == end && At(text, end) == '}' && end + 1 == p + |Close(depth, fmt)|
  {
    end := p + |Indent(depth, fmt)|;
    assert Reads(text, p, Indent(depth, fmt)) && Reads(text, end, "}") by {
      ReadsSplit(text, p, Indent(depth, fmt), end, "}");
    }
    ReadsHead(text, end, "}");
    SkipIndent(text, p, depth, fmt, end);
  }

  lemma ArrayStep(text: string, p: nat, items: seq<Json>, end: nat)
    requires p < |text| && text[p] == '[' && Skip(text, p + 1) == p + 1 && At(text, p + 1) != ']'
    requires ParseItems(text, p + 1) == Ok(items, end) && At(text, end) == ']'
    ensures ParseValue(text, p) == Ok(Array(items), end + 1)
  {
  }

  lemma LastItem(text: string, p: nat, v: Json, q: nat)
    requires p <= |text| && Skip(text, p) == p && ParseValue(text, p) == Ok(v, q) && At(text, q) == ']'
    ensures ParseItems(text, p) == Ok([v], q)
  {
  }

  lemma NextItem(text: string, p: nat, v: Json, q: nat, vs: seq<Json>, r: nat, end: nat)
    requires p <= |text| && q < |text| && r <= |text|
    requires Skip(text, p) == p && ParseValue(text, p) == Ok(v, q)
    requires text[q] == ',' && Skip(text, q + 1) == Skip(text, r) && ParseItems(text, r) == Ok(vs, end)
    ensures ParseItems(text, p) == Ok([v] + vs, end)
  {
    ItemsAlike(text, q + 1, r);
  }

  lemma ObjectStep(text: string, p: nat, ms: seq<Member>, q: nat, end: nat)
    requires p < |text| && q <= |text| && text[p] == '{'
    requires Skip(text, p + 1) == Skip(text, q) && At(text, Skip(text, q)) == '"'
    requires ParseMembers(text, q) == Ok(ms, end) && At(text, end) == '}'
    ensures ParseValue(text, p) == Ok(Object(ms), end + 1)
  {
    SkipTwice(text, q);
    MembersAlike(text, Skip(text, p + 1), q);
  }

  /** A whole object, given what its members parse to; `q` is where they start, `e` where they end. */
  lemma FullObject(text: string, p: nat, ms: seq<Member>, body: string, depth: nat, fmt: bool, s: string, q: nat,
                   e: nat)
    requires s == "{" + (Newline(fmt) + (body + Close(depth, fmt))) && Reads(text, p, s)
    requires q == p + 1 + |Newline(fmt)| && e == q + |body|
    requires At(text, Skip(text, q)) == '"' && ParseMembers(text, q) == Ok(ms, Skip(text, e))
    ensures ParseValue(text, p) == Ok(Object(ms), p + |s|)
  {
    assert Reads(text, p, "{") && Reads(text, p + 1, Newline(fmt)) && Reads(text, e, Close(depth, fmt)) by {
      ReadsSplit4(text, p, "{", p + 1, Newline(fmt), q, body, e, Close(depth, fmt));
    }
    assert p < |text| && text[p] == '{' by {
      ReadsHead(text, p, "{");
    }
    assert Skip(text, p + 1) == Skip(text, q) by {
      SkipBlank(text, p + 1, Newline(fmt), q);
    }
    var end := SkipClose(text, e, depth, fmt);
    assert end + 1 == p + |s|;
    assert ParseValue(text, p) == Ok(Object(ms), end + 1) by {
      ObjectStep(text, p, ms, q, end);
    }
  }

  lemma EmptyObject(text: string, p: nat, depth: nat, fmt: bool, s: string)
    requires s == "{" + (Newline(fmt) + Close(depth, fmt)) && Reads(text, p, s)
    ensures ParseValue(text, p) == Ok(Object([]), p + |s|)
  {
    var q := p + 1 + |Newline(fmt)|;
    assert Reads(text, p, "{") && Reads(text, p + 1, Newline(fmt)) && Reads(text, q, Close(depth, fmt)) by {
      ReadsSplit3(text, p, "{", p + 1, Newline(fmt), q, Close(depth, fmt));
    }
    ReadsHead(text, p, "{");
    SkipBlank(text, p + 1, Newline(fmt), q);
    var end := SkipClose(text, q, depth, fmt);
    assert end + 1 == p + |s|;
  }

  lemma MemberParsed(text: string, p: nat, k: nat, key: string, c: nat, at: nat, v: Json, end: nat)
    requires p <= |text| && k <= |text| && c < |text| && at <= |text| && Skip(text, p) == k
    requires ParseString(text, k) == Ok(key, c) && text[c] == ':' && Skip(text, c + 1) == at
    requires ParseValue(text, at) == Ok(v, end)
    ensures ParseMember(text, p) == Ok(Member(key, v), end)
  {
  }

  lemma MemberStep(text: string, p: nat, key: string, v: Json, s: string, depth: nat, fmt: bool, at: nat, end: nat)
    requires NulFree(key) && Reads(text, p, PrintMember(key, s, depth, fmt))
    requires at == p + |Indent(depth, fmt)| + |Quote(key)| + |Colon(fmt)|
    requires Skip(text, at) == at && ParseValue(text, at) == Ok(v, end)
    ensures ParseMember(text, p) == Ok(Member(key, v), end)
    ensures At(text, Skip(text, p)) == '"'
  {
    var k := p + |Indent(depth, fmt)|;
    var c := k + |Quote(key)|;
    assert Reads(text, p, Indent(depth, fmt)) && Reads(text, k, Quote(key)) && Reads(text, c, Colon(fmt)) by {
      ReadsSplit4(text, p, Indent(depth, fmt), k, Quote(key), c, Colon(fmt), at, s);
    }
    assert At(text, k) == '"' && Skip(text, p) == k by {
      ReadsHead(text, k, Quote(key));
      SkipIndent(text, p, depth, fmt, k);
    }
    assert ParseString(text, k) == Ok(key, c) by {
      StringRoundTrip(text, k, key);
    }
    assert At(text, c) == ':' && Skip(text, c + 1) == at by {
      SkipColon(text, c, fmt, at);
    }
    MemberParsed(text, p, k, key, c, at, v, end);
  }

  lemma LastMember(text: string, p: nat, m: Member, q: nat)
    requires p <= |text| && q <= |text| && ParseMember(text, p) == Ok(m, q) && At(text, Skip(text, q)) == '}'
    ensures ParseMembers(text, p) == Ok([m], Skip(text, q))
  {
  }

  lemma NextMember(text: string, p: nat, m: Member, q: nat, ms: seq<Member>, r: nat, end: nat)
    requires p <= |text| && q < |text| && r <= |text| && ParseMember(text, p) == Ok(m, q)
    requires text[q] == ',' && Skip(text, q + 1) == Skip(text, r) && ParseMembers(text, r) == Ok(ms, end)
    ensures ParseMembers(text, p) == Ok([m] + ms, end)
  {
    MembersAlike(text, q + 1, r);
  }

  // ---------- the induction over the tree ----------

  /** A printed value is not skipped into. */
  lemma FirstItem(text: string, p: nat, v: Json, depth: nat, fmt: bool)
    requires Printable(v) && Reads(text, p, Print(v, depth, fmt))
    ensures Skip(text, p) == p && p < |text| && text[p] != ']' && text[p] != '}'
  {
    PrintStarts(v, depth, fmt);
    ReadsHead(text, p, Print(v, depth, fmt));
  }

  lemma {:induction false} ArrayRoundTrip(text: string, p: nat, items: seq<Json>, depth: nat, fmt: bool, s: string)
    requires Printable(Array(items)) && s == Print(Array(items), depth, fmt) && Reads(text, p, s)
    ensures ParseValue(text, p) == Ok(Array(items), p + |s|)
    decreases items, 2
  {
    if items == [] {
      assert Look(0) && Look(1);
    } else {
      var body := PrintItems(items, depth + 1, fmt);
      var end := p + 1 + |body|;
      assert s == "[" + (body + "]");
      assert Reads(text, p, "[") && Reads(text, p + 1, body) && Reads(text, end, "]") by {
        ReadsSplit3(text, p, "[", p + 1, body, end, "]");
      }
      ReadsHead(text, p, "[");
      ReadsHead(text, end, "]");
      ItemsRoundTrip(text, p + 1, items, depth + 1, fmt, body);
      ArrayStep(text, p, items, end);
    }
  }

  lemma {:induction false} ItemsRoundTrip(text: string, p: nat, items: seq<Json>, depth: nat, fmt: bool, all: string)
    requires items != [] && forall i :: 0 <= i < |items| ==> Printable(items[i])
    requires all == PrintItems(items, depth, fmt) && Reads(text, p, all) && At(text, p + |all|) == ']'
    ensures ParseItems(text, p) == Ok(items, p + |all|)
    ensures Skip(text, p) == p && At(text, p) != ']'
    decreases items, 1
  {
    if |items| == 1 {
      var v := items[0];
      assert all == Print(v, depth, fmt) && items == [v];
      Delimited(v, text, p + |all|);
      FirstItem(text, p, v, depth, fmt);
      ValueRoundTrip(text, p, v, depth, fmt, all);
      LastItem(text, p, v, p + |all|);
    } else {
      MoreItemsRoundTrip(text, p, items, depth, fmt, all);
    }
  }

  lemma ItemParts(text: string, p: nat, items: seq<Json>, depth: nat, fmt: bool, all: string,
                  s: string, q: nat, r: nat, rest: string)
    requires |items| > 1 && forall i :: 0 <= i < |items| ==> Printable(items[i])
    requires all == PrintItems(items, depth, fmt) && Reads(text, p, all)
    requires s == Print(items[0], depth, fmt) && rest == PrintItems(items[1..], depth, fmt)
    requires q == p + |s| && r == q + |Comma(fmt)|
    ensures Reads(text, p, s) && Reads(text, r, rest) && p + |all| == r + |rest|
    ensures q < |text| && r <= |text| && text[q] == ',' && Skip(text, q + 1) == Skip(text, r)
  {
    assert all == s + (Comma(fmt) + rest);
    ReadsSplit3(text, p, s, q, Comma(fmt), r, rest);
    SkipComma(text, q, fmt, r);
  }

  lemma {:induction false} MoreItemsRoundTrip(text: string, p: nat, items: seq<Json>, depth: nat, fmt: bool,
                                              all: string)
    requires |items| > 1 && forall i :: 0 <= i < |items| ==> Printable(items[i])
    requires all == PrintItems(items, depth, fmt) && Reads(text, p, all) && At(text, p + |all|) == ']'
    ensures ParseItems(text, p) == Ok(items, p + |all|)
    ensures Skip(text, p) == p && At(text, p) != ']'
    decreases items, 0
  {
    var v, s := items[0], Print(items[0], depth, fmt);
    var vs, rest := items[1..], PrintItems(items[1..], depth, fmt);
    var q, end := p + |s|, p + |all|;
    var r := q + |Comma(fmt)|;
    ItemParts(text, p, items, depth, fmt, all, s, q, r, rest);
    assert Skip(text, p) == p && At(text, p) != ']' by {
      FirstItem(text, p, v, depth, fmt);
    }
    assert ParseValue(text, p) == Ok(v, q) by {
      Delimited(v, text, q);
      ValueRoundTrip(text, p, v, depth, fmt, s);
    }
    assert ParseItems(text, r) == Ok(vs, end) by {
      ItemsRoundTrip(text, r, vs, depth, fmt, rest);
    }
    assert items == [v] + vs;
    assert ParseItems(text, p) == Ok([v] + vs, end) by {
      NextItem(text, p, v, q, vs, r, end);
    }
  }

  lemma {:induction false} ObjectRoundTrip(text: string, p: nat, ms: seq<Member>, depth: nat, fmt: bool, s: string)
    requires Printable(Object(ms)) && s == Print(Object(ms), depth, fmt) && Reads(text, p, s)
    ensures ParseValue(text, p) == Ok(Object(ms), p + |s|)
    decreases ms, 2
  {
    if ms == [] {
      EmptyObject(text, p, depth, fmt, s);
    } else {
      var body := PrintMembers(ms, depth + 1, fmt);
      var q := p + 1 + |Newline(fmt)|;
      var e := q + |body|;
      assert s == "{" + (Newline(fmt) + (body + Close(depth, fmt)));
      assert Reads(text, q, body) && Reads(text, e, Close(depth, fmt)) by {
        ReadsSplit4(text, p, "{", p + 1, Newline(fmt), q, body, e, Close(depth, fmt));
      }
      assert At(text, Skip(text, e)) == '}' by {
        var _ := SkipClose(text, e, depth, fmt);
      }
      MembersRoundTrip(text, q, ms, depth + 1, fmt, body, e);
      FullObject(text, p, ms, body, depth, fmt, s, q, e);
    }
  }

  lemma {:induction false} MemberRoundTrip(text: string, p: nat, m: Member, depth: nat, fmt: bool, s: string, end: nat)
    requires NulFree(m.key) && Printable(m.value) && s == Print(m.value, depth, fmt)
    requires Reads(text, p, PrintMember(m.key, s, depth, fmt)) && end == p + |PrintMember(m.key, s, depth, fmt)|
    requires Ends(m.value, text, end)
    ensures ParseMember(text, p) == Ok(m, end)
    ensures At(text, Skip(text, p)) == '"'
    decreases m, 2
  {
    var k := p + |Indent(depth, fmt)|;
    var c := k + |Quote(m.key)|;
    var at := c + |Colon(fmt)|;
    assert end == at + |s|;
    assert Reads(text, at, s) by {
      ReadsSplit4(text, p, Indent(depth, fmt), k, Quote(m.key), c, Colon(fmt), at, s);
    }
    assert Skip(text, at) == at && ParseValue(text, at) == Ok(m.value, end) by {
      FirstItem(text, at, m.value, depth, fmt);
      ValueRoundTrip(text, at, m.value, depth, fmt, s);
    }
    MemberStep(text, p, m.key, m.value, s, depth, fmt, at, end);
  }

  lemma {:induction false} MembersRoundTrip(text: string, p: nat, ms: seq<Member>, depth: nat, fmt: bool, all: string,
                                            e: nat)
    requires ms != [] && forall i :: 0 <= i < |ms| ==> NulFree(ms[i].key) && Printable(ms[i].value)
    requires all == PrintMembers(ms, depth, fmt) && Reads(text, p, all) && e == p + |all|
    requires At(text, Skip(text, e)) == '}'
    ensures ParseMembers(text, p) == Ok(ms, Skip(text, e))
    ensures At(text, Skip(text, p)) == '"'
    decreases ms, 1
  {
    if |ms| == 1 {
      var m, value := ms[0], Print(ms[0].value, depth, fmt);
      var s := PrintMember(m.key, value, depth, fmt);
      var q := p + |s|;
      assert all == s + Newline(fmt) && ms == [m] && e == q + |Newline(fmt)|;
      assert Reads(text, p, s) && Reads(text, q, Newline(fmt)) by {
        ReadsSplit(text, p, s, q, Newline(fmt));
      }
      SkipBlank(text, q, Newline(fmt), e);
      assert ParseMember(text, p) == Ok(m, q) && At(text, Skip(text, p)) == '"' by {
        Delimited(m.value, text, q);
        MemberRoundTrip(text, p, m, depth, fmt, value, q);
      }
      LastMember(text, p, m, q);
    } else {
      MoreMembersRoundTrip(text, p, ms, depth, fmt, all, e);
    }
  }

  lemma MemberParts(text: string, p: nat, ms: seq<Member>, depth: nat, fmt: bool, all: string,
                    s: string, q: nat, r: nat, rest: string)
    requires |ms| > 1 && forall i :: 0 <= i < |ms| ==> NulFree(ms[i].key) && Printable(ms[i].value)
    requires all == PrintMembers(ms, depth, fmt) && Reads(text, p, all)
    requires s == PrintMember(ms[0].key, Print(ms[0].value, depth, fmt), depth, fmt)
    requires rest == PrintMembers(ms[1..], depth, fmt) && q == p + |s| && r == q + 1 + |Newline(fmt)|
    ensures Reads(text, p, s) && Reads(text, r, rest) && p + |all| == r + |rest|
    ensures q < |text| && r <= |text| && text[q] == ',' && Skip(text, q + 1) == Skip(text, r)
  {
    assert all == s + ("," + (Newline(fmt) + rest));
    ReadsSplit4(text, p, s, q, ",", q + 1, Newline(fmt), r, rest);
    ReadsHead(text, q, ",");
    SkipBlank(text, q + 1, Newline(fmt), r);
  }

  lemma {:induction false} MoreMembersRoundTrip(text: string, p: nat, ms: seq<Member>, depth: nat, fmt: bool,
                                                all: string, e: nat)
    requires |ms| > 1 && forall i :: 0 <= i < |ms| ==> NulFree(ms[i].key) && Printable(ms[i].value)
    requires all == PrintMembers(ms, depth, fmt) && Reads(text, p, all) && e == p + |all|
    requires At(text, Skip(text, e)) == '}'
    ensures ParseMembers(text, p) == Ok(ms, Skip(text, e))
    ensures At(text, Skip(text, p)) == '"'
    decreases ms, 0
  {
    var m, value, rest := ms[0], Print(ms[0].value, depth, fmt), PrintMembers(ms[1..], depth, fmt);
    var s := PrintMember(m.key, value, depth, fmt);
    var q := p + |s|;
    var r := q + 1 + |Newline(fmt)|;
    MemberParts(text, p, ms, depth, fmt, all, s, q, r, rest);
    assert ParseMember(text, p) == Ok(m, q) && At(text, Skip(text, p)) == '"' by {
      Delimited(m.value, text, q);
      MemberRoundTrip(text, p, m, depth, fmt, value, q);
    }
    assert ParseMembers(text, r) == Ok(ms[1..], Skip(text, e)) by {
      MembersRoundTrip(text, r, ms[1..], depth, fmt, rest, e);
    }
    assert ms == [m] + ms[1..];
    assert ParseMembers(text, p) == Ok([m] + ms[1..], Skip(text, e)) by {
      NextMember(text, p, m, q, ms[1..], r, Skip(text, e));
    }
  }

  /**
    The parser undoes the printer, formatted or not, at every depth and in front of every text:
    it returns the same tree and stops exactly behind it, unless the tree is a bare number and the
    text behind it carries that number on.
    */
  lemma RoundTrip(v: Json, depth: nat, fmt: bool, rest: string)
    requires Printable(v)
    ensures var s := Print(v, depth, fmt);
      ParseValue(s + rest, 0) == Ok(v, |s|) <==> (v.Number? ==> !GoesOn(s + rest, |s|, v.mantissa))
  {
    var s := Print(v, depth, fmt);
    if v.Array? || v.Object? {
      ValueRoundTrip(s + rest, 0, v, depth, fmt, s);
    } else {
      ScalarRoundTrip(s + rest, 0, v, depth, fmt, s);
    }
  }

  /** The number 1 with the text "2" behind it is read as 12. */
  lemma NumberCarriedOn(fmt: bool)
    ensures Print(Number(1, 0), 0, fmt) + "2" == "12"
    ensures ParseValue("12", 0) == Ok(Number(12, 0), 2) && ParseValue("12", 0) != Ok(Number(1, 0), 1)
  {
    assert Digits(1) == "1";
    assert Digits(12) == "1" + "2";
    ReadsWhole("12");
    IntRoundTrip("12", 0, 12);
  }

  /** What `cjson_print` and `cjson_print_unformatted` produce is accepted as a whole document. */
  lemma DocumentRoundTrip(v: Json, fmt: bool)
    requires Printable(v)
    ensures Parse(Print(v, 0, fmt), true) == Ok(v, |Print(v, 0, fmt)|)
  {
    var s := Print(v, 0, fmt);
    assert s + "" == s;
    RoundTrip(v, 0, fmt, "");
    PrintStarts(v, 0, fmt);
  }
}
