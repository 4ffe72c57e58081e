/**
  `cjson_minify`: white space and comments go, strings and all other characters stay, in place.
  `Minify` is the text that remains of a text from a position on; `Shrinks` says it of a part of a
  text, so that the formatted print of a tree can be followed from its leaves up. What remains of
  it is the unformatted print.
  */
module JsonMinify {
  import opened Common
  import opened CText
  import opened Numerals
  import opened JsonString
  import opened JsonValue

  predicate Space(c: char) {
    c == ' ' || c == '\t' || c == '\r' || c == '\n'
  }

  /** The end of a line comment. */
  function LineEnd(text: string, p: nat): (q: nat)
    requires p <= |text|
    ensures p <= q <= |text|
    decreases |text| - p
  {
    if At(text, p) == NUL || At(text, p) == '\n' then p else LineEnd(text, p + 1)
  }

  /** Where the star and slash that close a block comment stand; the end when they do not come. */
  function BlockEnd(text: string, p: nat): (q: nat)
    requires p <= |text|
    ensures p <= q <= |text|
    ensures At(text, q) == NUL || q + 2 <= |text|
    decreases |text| - p
  {
    if At(text, p) == NUL || (At(text, p) == '*' && At(text, p + 1) == '/') then p else BlockEnd(text, p + 1)
  }

  /** Just behind the quote that closes a literal; None when the scan would run over the end. */
  function LiteralEnd(text: string, p: nat): (q: Option<nat>)
    requires p <= |text|
    ensures q.Some? ==> p < q.value <= |text|
    decreases |text| - p
  {
    if At(text, p) == NUL then None
    else if text[p] == '"' then Some(p + 1)
    else if text[p] != '\\' then LiteralEnd(text, p + 1)
    else if At(text, p + 1) == NUL then None
    else LiteralEnd(text, p + 2)
  }

  function Cat(s: string, r: Option<string>): Option<string> {
    if r.None? then None else Some(s + r.value)
  }

  /**
    The minified text from `p` on. None stands for a literal or block comment that is not
    closed: there the C code reads past the terminator.
    */
  function Minify(text: string, p: nat): Option<string>
    requires p <= |text|
    decreases |text| - p
  {
    if At(text, p) == NUL then Some("")
    else if Space(text[p]) then Minify(text, p + 1)
    else if text[p] == '/' && At(text, p + 1) == '/' then Minify(text, LineEnd(text, p + 1))
    else if text[p] == '/' && At(text, p + 1) == '*' then
      var q := BlockEnd(text, p + 1);
      if At(text, q) == NUL then None else Minify(text, q + 2)
    else if text[p] == '"' then
      var q := LiteralEnd(text, p + 1);
      if q.None? then None else Cat(text[p..q.value], Minify(text, q.value))
    else Cat([text[p]], Minify(text, p + 1))
  }

  // ---------- minifying printed text ----------

  /** A text of characters that minifying copies one by one. */
  predicate Copied(s: string) {
    forall i :: 0 <= i < |s| ==> !Space(s[i]) && s[i] != '/' && s[i] != '"' && s[i] != NUL
  }

  lemma CatTwice(a: string, b: string, r: Option<string>)
    ensures Cat(a, Cat(b, r)) == Cat(a + b, r)
  {
    if r.Some? {
      assert a + (b + r.value) == a + b + r.value;
    }
  }

  lemma CatNothing(r: Option<string>)
    ensures Cat("", r) == r
  {
    if r.Some? {
      assert "" + r.value == r.value;
    }
  }

  lemma {:induction false} MinifyCopied(text: string, p: nat, s: string, end: nat)
    requires Reads(text, p, s) && Copied(s) && end == p + |s|
    ensures Minify(text, p) == Cat(s, Minify(text, end))
    decreases |s|
  {
    if s == "" {
      CatNothing(Minify(text, end));
    } else {
      assert s == s[..1] + s[1..] && s[..1] == [s[0]];
      assert text[p] == s[0] && Reads(text, p + 1, s[1..]) by {
        ReadsHead(text, p, s);
        ReadsSplit(text, p, s[..1], p + 1, s[1..]);
      }
      MinifyCopied(text, p + 1, s[1..], end);
      CatTwice([s[0]], s[1..], Minify(text, end));
    }
  }

  lemma {:induction false} MinifySpaces(text: string, p: nat, s: string, end: nat)
    requires Reads(text, p, s) && (forall i :: 0 <= i < |s| ==> Space(s[i])) && end == p + |s|
    ensures Minify(text, p) == Minify(text, end)
    decreases |s|
  {
    if s != "" {
      assert s == s[..1] + s[1..];
      assert text[p] == s[0] && Reads(text, p + 1, s[1..]) by {
        ReadsHead(text, p, s);
        ReadsSplit(text, p, s[..1], p + 1, s[1..]);
      }
      MinifySpaces(text, p + 1, s[1..], end);
    }
  }

  lemma LiteralChar(text: string, p: nat, c: char, q: nat)
    requires c != NUL && Reads(text, p, EscapeChar(c)) && q == p + |EscapeChar(c)|
    ensures LiteralEnd(text, p) == LiteralEnd(text, q)
  {
    var e := EscapeChar(c);
    ReadsHead(text, p, e);
    if NeedsEscape(c) {
      ReadsAt(text, p, e, 1);
      if ShortEscape(c).None? {
        assert Look(2) && Look(3) && Look(4) && Look(5);
        assert LiteralEnd(text, p) == LiteralEnd(text, p + 2);
        assert LiteralEnd(text, p + 2) == LiteralEnd(text, p + 3);
        assert LiteralEnd(text, p + 3) == LiteralEnd(text, p + 4);
        assert LiteralEnd(text, p + 4) == LiteralEnd(text, p + 5);
      }
    }
  }

  lemma {:induction false} LiteralEscape(text: string, p: nat, x: string, end: nat)
    requires NulFree(x) && Reads(text, p, Escape(x)) && end == p + |Escape(x)| && At(text, end) == '"'
    ensures LiteralEnd(text, p) == Some(end + 1)
    decreases |x|
  {
    if x != "" {
      var next := p + |EscapeChar(x[0])|;
      EscapeParts(text, p, x, next);
      LiteralEscape(text, next, x[1..], end);
      LiteralChar(text, p, x[0], next);
    }
  }

  /** A printed string is copied whole. */
  lemma MinifyQuote(text: string, p: nat, x: string, end: nat)
    requires NulFree(x) && Reads(text, p, Quote(x)) && end == p + |Quote(x)|
    ensures Minify(text, p) == Cat(Quote(x), Minify(text, end))
  {
    assert Reads(text, p, "\"") && Reads(text, p + 1, Escape(x)) && Reads(text, end - 1, "\"") by {
      ReadsSplit(text, p, "\"" + Escape(x), end - 1, "\"");
      ReadsSplit(text, p, "\"", p + 1, Escape(x));
    }
    ReadsHead(text, p, "\"");
    ReadsHead(text, end - 1, "\"");
    LiteralEscape(text, p + 1, x, end - 1);
    ReadsSlice(text, p, Quote(x), end);
  }

  lemma ReadsSlice(text: string, p: nat, s: string, end: nat)
    requires Reads(text, p, s) && end == p + |s|
    ensures text[p..end] == s
  {
    forall i | 0 <= i < |s| ensures text[p..end][i] == s[i] {
      ReadsAt(text, p, s, i);
    }
  }

  /** Minifying goes on behind printed text `s` as if `u` had been copied. */
  predicate Shrinks(text: string, p: nat, end: nat, u: string)
    requires p <= |text| && end <= |text|
  {
    Minify(text, p) == Cat(u, Minify(text, end))
  }

  lemma ShrinkTwice(text: string, p: nat, q: nat, end: nat, u: string, w: string)
    requires p <= |text| && q <= |text| && end <= |text|
    requires Shrinks(text, p, q, u) && Shrinks(text, q, end, w)
    ensures Shrinks(text, p, end, u + w)
  {
    CatTwice(u, w, Minify(text, end));
  }

  // ---------- the induction over the tree ----------

  lemma DigitsCopied(n: nat)
    ensures Copied(Digits(n))
  {
    if n >= 10 {
      DigitsCopied(n / 10);
    }
  }

  lemma ShrinkScalar(text: string, p: nat, v: Json, depth: nat, s: string, end: nat)
    requires !v.Array? && !v.Object? && Printable(v)
    requires s == Print(v, depth, true) && Reads(text, p, s) && end == p + |s|
    ensures Shrinks(text, p, end, Print(v, depth, false))
  {
    match v
    case String(x) => MinifyQuote(text, p, x, end);
    case Number(m, _) =>
      DigitsCopied(if m < 0 then -m else m);
      MinifyCopied(text, p, s, end);
    case _ => MinifyCopied(text, p, s, end);
  }

  lemma {:induction false} ShrinkValue(text: string, p: nat, v: Json, depth: nat, s: string, end: nat, u: string)
    requires Printable(v) && s == Print(v, depth, true) && Reads(text, p, s) && end == p + |s|
    requires u == Print(v, depth, false)
    ensures Shrinks(text, p, end, u)
    decreases v, 1
  {
    match v
    case Array(items) =>
      if items == [] {
        MinifyCopied(text, p, s, end);
      } else {
        ShrinkArray(text, p, items, depth, s, end, u);
      }
    case Object(ms) =>
      ShrinkObject(text, p, ms, depth, s, end, u);
    case _ =>
      ShrinkScalar(text, p, v, depth, s, end);
  }

  lemma {:induction false} ShrinkArray(text: string, p: nat, items: seq<Json>, depth: nat, s: string, end: nat,
                                       u: string)
    requires items != [] && Printable(Array(items))
    requires s == Print(Array(items), depth, true) && Reads(text, p, s) && end == p + |s|
    requires u == Print(Array(items), depth, false)
    ensures Shrinks(text, p, end, u)
    decreases items, 2
  {
    var body, flat := PrintItems(items, depth + 1, true), PrintItems(items, depth + 1, false);
    var e := p + 1 + |body|;
    assert s == "[" + (body + "]") && u == "[" + (flat + "]");
    assert Reads(text, p, "[") && Reads(text, p + 1, body) && Reads(text, e, "]") by {
      ReadsSplit3(text, p, "[", p + 1, body, e, "]");
    }
    MinifyCopied(text, p, "[", p + 1);
    ShrinkItems(text, p + 1, items, depth + 1, body, e, flat);
    MinifyCopied(text, e, "]", end);
    ShrinkTwice(text, p + 1, e, end, flat, "]");
    ShrinkTwice(text, p, p + 1, end, "[", flat + "]");
  }

  lemma ShrinkComma(text: string, p: nat, end: nat)
    requires Reads(text, p, Comma(true)) && end == p + 2
    ensures Shrinks(text, p, end, ",")
  {
    assert Comma(true) == "," + " ";
    assert Reads(text, p, ",") && Reads(text, p + 1, " ") by {
      ReadsSplit(text, p, ",", p + 1, " ");
    }
    MinifyCopied(text, p, ",", p + 1);
    MinifySpaces(text, p + 1, " ", end);
  }

  lemma ShrinkColon(text: string, p: nat, end: nat)
    requires Reads(text, p, Colon(true)) && end == p + 2
    ensures Shrinks(text, p, end, ":")
  {
    assert Colon(true) == ":" + "\t";
    assert Reads(text, p, ":") && Reads(text, p + 1, "\t") by {
      ReadsSplit(text, p, ":", p + 1, "\t");
    }
    MinifyCopied(text, p, ":", p + 1);
    MinifySpaces(text, p + 1, "\t", end);
  }

  lemma {:induction false} ShrinkItems(text: string, p: nat, items: seq<Json>, depth: nat, all: string, end: nat,
                                       flat: string)
    requires items != [] && forall i :: 0 <= i < |items| ==> Printable(items[i])
    requires all == PrintItems(items, depth, true) && Reads(text, p, all) && end == p + |all|
    requires flat == PrintItems(items, depth, false)
    ensures Shrinks(text, p, end, flat)
    decreases items, 0
  {
    var s, u := Print(items[0], depth, true), Print(items[0], depth, false);
    if |items| == 1 {
      ShrinkValue(text, p, items[0], depth, s, end, u);
    } else {
      var rest, flatRest := PrintItems(items[1..], depth, true), PrintItems(items[1..], depth, false);
      var q := p + |s|;
      assert all == s + (Comma(true) + rest) && flat == u + ("," + flatRest);
      assert Reads(text, p, s) && Reads(text, q, Comma(true)) && Reads(text, q + 2, rest) by {
        ReadsSplit3(text, p, s, q, Comma(true), q + 2, rest);
      }
      ShrinkValue(text, p, items[0], depth, s, q, u);
      ShrinkItems(text, q + 2, items[1..], depth, rest, end, flatRest);
      ShrinkNextItem(text, p, q, u, end, flatRest);
    }
  }

  lemma ShrinkNextItem(text: string, p: nat, q: nat, u: string, end: nat, flatRest: string)
    requires p <= |text| && q + 2 <= |text| && end <= |text|
    requires Shrinks(text, p, q, u) && Reads(text, q, Comma(true)) && Shrinks(text, q + 2, end, flatRest)
    ensures Shrinks(text, p, end, u + ("," + flatRest))
  {
    ShrinkComma(text, q, q + 2);
    ShrinkTwice(text, q, q + 2, end, ",", flatRest);
    ShrinkTwice(text, p, q, end, u, "," + flatRest);
  }

  lemma ShrinkClose(text: string, p: nat, depth: nat, end: nat)
    requires Reads(text, p, Close(depth, true)) && end == p + |Close(depth, true)|
    ensures Shrinks(text, p, end, "}")
  {
    var q := p + |Tabs(depth)|;
    assert Reads(text, p, Tabs(depth)) && Reads(text, q, "}") by {
      ReadsSplit(text, p, Tabs(depth), q, "}");
    }
    TabsAreTabs(depth);
    MinifySpaces(text, p, Tabs(depth), q);
    MinifyCopied(text, q, "}", end);
  }

  lemma ShrinkEmptyObject(text: string, p: nat, depth: nat, s: string, end: nat)
    requires s == Print(Object([]), depth, true) && Reads(text, p, s) && end == p + |s|
    ensures Shrinks(text, p, end, "{" + "}")
  {
    var close := Close(depth, true);
    assert s == "{" + ("\n" + close);
    assert Reads(text, p, "{") && Reads(text, p + 1, "\n") && Reads(text, p + 2, close) by {
      ReadsSplit3(text, p, "{", p + 1, "\n", p + 2, close);
    }
    MinifyCopied(text, p, "{", p + 1);
    MinifySpaces(text, p + 1, "\n", p + 2);
    ShrinkClose(text, p + 2, depth, end);
    ShrinkTwice(text, p, p + 1, end, "{", "}");
  }

  lemma ShrinkFullObject(text: string, p: nat, body: string, flat: string, depth: nat, s: string, e: nat, end: nat)
    requires s == "{" + ("\n" + (body + Close(depth, true))) && Reads(text, p, s)
    requires e == p + 2 + |body| && end == p + |s| && Shrinks(text, p + 2, e, flat)
    ensures Shrinks(text, p, end, "{" + (flat + "}"))
  {
    var close := Close(depth, true);
    assert Reads(text, p, "{") && Reads(text, p + 1, "\n") && Reads(text, e, close) by {
      ReadsSplit4(text, p, "{", p + 1, "\n", p + 2, body, e, close);
    }
    MinifyCopied(text, p, "{", p + 1);
    MinifySpaces(text, p + 1, "\n", p + 2);
    ShrinkClose(text, e, depth, end);
    ShrinkTwice(text, p + 2, e, end, flat, "}");
    ShrinkTwice(text, p, p + 1, end, "{", flat + "}");
  }

  lemma {:induction false} ShrinkObject(text: string, p: nat, ms: seq<Member>, depth: nat, s: string, end: nat,
                                        u: string)
    requires Printable(Object(ms))
    requires s == Print(Object(ms), depth, true) && Reads(text, p, s) && end == p + |s|
    requires u == Print(Object(ms), depth, false)
    ensures Shrinks(text, p, end, u)
    decreases ms, 3
  {
    if ms == [] {
      assert u == "{" + "}";
      ShrinkEmptyObject(text, p, depth, s, end);
    } else {
      ShrinkMembersBetween(text, p, ms, depth, s, end, u);
    }
  }

  lemma {:induction false} ShrinkMembersBetween(text: string, p: nat, ms: seq<Member>, depth: nat, s: string, end: nat,
                                                u: string)
    requires ms != [] && Printable(Object(ms))
    requires s == Print(Object(ms), depth, true) && Reads(text, p, s) && end == p + |s|
    requires u == Print(Object(ms), depth, false)
    ensures Shrinks(text, p, end, u)
    decreases ms, 2
  {
    var body, flat := PrintMembers(ms, depth + 1, true), PrintMembers(ms, depth + 1, false);
    var e := p + 2 + |body|;
    assert s == "{" + ("\n" + (body + Close(depth, true))) && u == "{" + (flat + "}");
    assert Reads(text, p + 2, body) by {
      ReadsSplit4(text, p, "{", p + 1, "\n", p + 2, body, e, Close(depth, true));
    }
    assert Shrinks(text, p + 2, e, flat) by {
      ShrinkMembers(text, p + 2, ms, depth + 1, body, e, flat);
    }
    ShrinkFullObject(text, p, body, flat, depth, s, e, end);
  }

  lemma {:induction false} ShrinkMember(text: string, p: nat, m: Member, depth: nat, s: string, end: nat, u: string)
    requires NulFree(m.key) && Printable(m.value) && s == Print(m.value, depth, true)
    requires Reads(text, p, PrintMember(m.key, s, depth, true)) && end == p + |PrintMember(m.key, s, depth, true)|
    requires u == Print(m.value, depth, false)
    ensures Shrinks(text, p, end, Quote(m.key) + (":" + u))
    decreases m, 2
  {
    var k := p + |Tabs(depth)|;
    var c := k + |Quote(m.key)|;
    assert Reads(text, p, Tabs(depth)) && Reads(text, k, Quote(m.key)) && Reads(text, c, Colon(true)) &&
      Reads(text, c + 2, s) by {
      ReadsSplit4(text, p, Tabs(depth), k, Quote(m.key), c, Colon(true), c + 2, s);
    }
    TabsAreTabs(depth);
    MinifySpaces(text, p, Tabs(depth), k);
    MinifyQuote(text, k, m.key, c);
    ShrinkColon(text, c, c + 2);
    ShrinkValue(text, c + 2, m.value, depth, s, end, u);
    ShrinkTwice(text, c, c + 2, end, ":", u);
    ShrinkTwice(text, k, c, end, Quote(m.key), ":" + u);
  }

  lemma {:induction false} ShrinkMembers(text: string, p: nat, ms: seq<Member>, depth: nat, all: string, end: nat,
                                         flat: string)
    requires ms != [] && forall i :: 0 <= i < |ms| ==> NulFree(ms[i].key) && Printable(ms[i].value)
    requires all == PrintMembers(ms, depth, true) && Reads(text, p, all) && end == p + |all|
    requires flat == PrintMembers(ms, depth, false)
    ensures Shrinks(text, p, end, flat)
    decreases ms, 1
  {
    if |ms| == 1 {
      ShrinkLastMember(text, p, ms[0], depth, all, end, flat, ms);
    } else {
      ShrinkMoreMembers(text, p, ms, depth, all, end, flat);
    }
  }

  lemma {:induction false} ShrinkLastMember(text: string, p: nat, m: Member, depth: nat, all: string, end: nat,
                                            flat: string, ms: seq<Member>)
    requires ms == [m] && NulFree(m.key) && Printable(m.value)
    requires all == PrintMembers(ms, depth, true) && Reads(text, p, all) && end == p + |all|
    requires flat == PrintMembers(ms, depth, false)
    ensures Shrinks(text, p, end, flat)
    decreases ms, 0
  {
    var value, u := Print(m.value, depth, true), Print(m.value, depth, false);
    var s, w := PrintMember(m.key, value, depth, true), Quote(m.key) + (":" + u);
    var q := p + |s|;
    assert all == s + "\n" && flat == w + "";
    assert Reads(text, p, s) && Reads(text, q, "\n") by {
      ReadsSplit(text, p, s, q, "\n");
    }
    ShrinkMember(text, p, m, depth, value, q, u);
    MinifySpaces(text, q, "\n", end);
    assert w + "" == w;
  }

  lemma {:induction false} ShrinkMoreMembers(text: string, p: nat, ms: seq<Member>, depth: nat, all: string, end: nat,
                                             flat: string)
    requires |ms| > 1 && forall i :: 0 <= i < |ms| ==> NulFree(ms[i].key) && Printable(ms[i].value)
    requires all == PrintMembers(ms, depth, true) && Reads(text, p, all) && end == p + |all|
    requires flat == PrintMembers(ms, depth, false)
    ensures Shrinks(text, p, end, flat)
    decreases ms, 0
  {
    var m, value, u := ms[0], Print(ms[0].value, depth, true), Print(ms[0].value, depth, false);
    var s, w := PrintMember(m.key, value, depth, true), Quote(m.key) + (":" + u);
    var q := p + |s|;
    var rest, flatRest := PrintMembers(ms[1..], depth, true), PrintMembers(ms[1..], depth, false);
    assert all == s + ("," + ("\n" + rest));
    NextMember(text, p, s, q, rest);
    assert Shrinks(text, p, q, w) by {
      ShrinkMember(text, p, m, depth, value, q, u);
    }
    assert Shrinks(text, q, end, "," + flatRest) by {
      ShrinkMembers(text, q + 2, ms[1..], depth, rest, end, flatRest);
      ShrinkNextMember(text, q, rest, flatRest, end);
    }
    ShrinkTwice(text, p, q, end, w, "," + flatRest);
    FlatMembers(ms, depth, w, flatRest);
  }

  lemma NextMember(text: string, p: nat, s: string, q: nat, rest: string)
    requires Reads(text, p, s + ("," + ("\n" + rest))) && q == p + |s|
    ensures Reads(text, p, s) && Reads(text, q, "," + ("\n" + rest)) && Reads(text, q + 2, rest)
  {
    ReadsSplit(text, p, s, q, "," + ("\n" + rest));
    ReadsSplit3(text, q, ",", q + 1, "\n", q + 2, rest);
  }

  lemma FlatMembers(ms: seq<Member>, depth: nat, first: string, rest: string)
    requires |ms| > 1 && forall i :: 0 <= i < |ms| ==> NulFree(ms[i].key) && Printable(ms[i].value)
    requires first == PrintMember(ms[0].key, Print(ms[0].value, depth, false), depth, false)
    requires rest == PrintMembers(ms[1..], depth, false)
    ensures PrintMembers(ms, depth, false) == first + ("," + rest)
  {
  }

  lemma ShrinkNextMember(text: string, q: nat, rest: string, flat: string, end: nat)
    requires Reads(text, q, "," + ("\n" + rest)) && end == q + 2 + |rest| && Shrinks(text, q + 2, end, flat)
    ensures Shrinks(text, q, end, "," + flat)
  {
    assert Reads(text, q, ",") && Reads(text, q + 1, "\n") by {
      ReadsSplit3(text, q, ",", q + 1, "\n", q + 2, rest);
    }
    MinifyCopied(text, q, ",", q + 1);
    MinifySpaces(text, q + 1, "\n", q + 2);
    ShrinkTwice(text, q, q + 1, end, ",", flat);
  }

  /** Minifying formatted text gives the unformatted text of the same tree, character for character. */
  lemma MinifyFormatted(v: Json)
    requires Printable(v)
    ensures Minify(Print(v, 0, true), 0) == Some(Print(v, 0, false))
  {
    var s, u := Print(v, 0, true), Print(v, 0, false);
    ReadsWhole(s);
    ShrinkValue(s, 0, v, 0, s, |s|, u);
    assert u + "" == u;
  }

  // ---------- in place ----------

  /** `text` is what is left to read at `p`, terminated, in the buffer being rewritten from the left. */
  ghost predicate Unread(json: array<char>, text: string, p: nat)
    reads json
  {
    && p <= |text| < json.Length && json[|text|] == NUL
    && forall i :: p <= i < |text| ==> json[i] == text[i]
  }

  /** The loop of `cjson_minify` that drops a line comment. */
  method DropLine(json: array<char>, p: nat, ghost text: string) returns (q: nat)
    requires Unread(json, text, p) && NulFree(text)
    ensures p <= q <= |text| && q == LineEnd(text, p)
  {
    q := p;
    while json[q] != NUL && json[q] != '\n'
      invariant p <= q <= |text| && LineEnd(text, p) == LineEnd(text, q)
      decreases |text| - q
    {
      q := q + 1;
    }
  }

  /** The loop that looks for the end of a block comment. */
  method DropBlock(json: array<char>, p: nat, ghost text: string) returns (q: nat)
    requires Unread(json, text, p) && NulFree(text)
    ensures p <= q <= |text| && q == BlockEnd(text, p)
  {
    q := p;
    while json[q] != NUL && !(json[q] == '*' && json[q + 1] == '/')
      invariant p <= q <= |text| && BlockEnd(text, p) == BlockEnd(text, q)
      decreases |text| - q
    {
      q := q + 1;
    }
  }

  /**
    The state of the rewriting: `done` has been written from the left, the text is unread from `p`
    on, and minifying the rest would complete the minified text.
    */
  ghost predicate Rewriting(json: array<char>, text: string, p: nat, done: string)
    reads json
  {
    && Unread(json, text, p) && |done| <= p && NulFree(done)
    && (forall i :: 0 <= i < |done| ==> json[i] == done[i])
    && Cat(done, Minify(text, p)) == Minify(text, 0)
  }

  /** One character is copied to the left. */
  method CopyChar(json: array<char>, into: nat, p: nat, ghost text: string, ghost done: string)
    requires Unread(json, text, p) && p < |text| && into == |done| <= p
    requires forall i :: 0 <= i < |done| ==> json[i] == done[i]
    modifies json
    ensures Unread(json, text, p + 1)
    ensures forall i :: 0 <= i < |done + [text[p]]| ==> json[i] == (done + [text[p]])[i]
  {
    json[into] := json[p];
  }

  /** Where the end of a literal lies when it is not yet reached, and when it is. */
  lemma LiteralGoesOn(text: string, q: nat)
    requires NulFree(text) && q <= |text|
    ensures q == |text| ==> LiteralEnd(text, q) == None
    ensures q < |text| && text[q] == '"' ==> LiteralEnd(text, q) == Some(q + 1)
    ensures q < |text| && text[q] == '\\' ==>
      LiteralEnd(text, q) == if q + 1 < |text| then LiteralEnd(text, q + 2) else None
    ensures q < |text| && text[q] != '"' && text[q] != '\\' ==> LiteralEnd(text, q) == LiteralEnd(text, q + 1)
  {
  }

  /**
    The loop that copies a string literal from behind its quote up to and including the closing one;
    not closed when the terminator would be copied and passed.
    */
  method CopyLiteral(json: array<char>, into: nat, p: nat, ghost text: string, ghost before: string)
    returns (closed: bool, to: nat, q: nat, ghost done: string)
    requires Unread(json, text, p) && NulFree(text) && into == |before| <= p
    requires forall i :: 0 <= i < |before| ==> json[i] == before[i]
    modifies json
    ensures closed <==> LiteralEnd(text, p).Some?
    ensures closed ==> q == LiteralEnd(text, p).value && Unread(json, text, q)
    ensures closed ==> done == before + text[p..q] && to == |done| <= q
    ensures closed ==> forall i :: 0 <= i < |done| ==> json[i] == done[i]
  {
    closed, q, to, done := false, p, into, before;
    while json[q] != NUL && json[q] != '"'
      invariant p <= q <= |text| && done == before + text[p..q] && to == |done|
      invariant Unread(json, text, q) && LiteralEnd(text, p) == LiteralEnd(text, q)
      invariant forall i :: 0 <= i < |done| ==> json[i] == done[i]
      decreases |text| - q
    {
      LiteralGoesOn(text, q);
      if json[q] == '\\' {
        to, q, done := CopyNext(json, to, p, q, text, before, done);
        if json[q] == NUL {
          return;
        }
      }
      to, q, done := CopyNext(json, to, p, q, text, before, done);
    }
    LiteralGoesOn(text, q);
    if json[q] == NUL {
      return;
    }
    closed := true;
    to, q, done := CopyNext(json, to, p, q, text, before, done);
  }

  /** One character of a literal. */
  method CopyNext(json: array<char>, into: nat, ghost p: nat, at: nat, ghost text: string, ghost before: string,
                  ghost sofar: string)
    returns (to: nat, q: nat, ghost done: string)
    requires Unread(json, text, at) && p <= at < |text| && into == |sofar| <= at
    requires sofar == before + text[p..at] && forall i :: 0 <= i < |sofar| ==> json[i] == sofar[i]
    modifies json
    ensures q == at + 1 && to == |done| && Unread(json, text, q)
    ensures done == before + text[p..q] && forall i :: 0 <= i < |done| ==> json[i] == done[i]
  {
    CopyChar(json, into, at, text, sofar);
    assert text[p..at + 1] == text[p..at] + [text[at]];
    to, q, done := into + 1, at + 1, sofar + [text[at]];
  }

  /** White space is passed over. */
  lemma RewritingSpace(json: array<char>, text: string, p: nat, done: string)
    requires NulFree(text) && Rewriting(json, text, p, done) && p < |text| && Space(text[p])
    ensures Rewriting(json, text, p + 1, done)
  {
  }

  lemma RewritingLine(json: array<char>, text: string, p: nat, done: string)
    requires NulFree(text) && Rewriting(json, text, p, done) && p < |text|
    requires text[p] == '/' && At(text, p + 1) == '/'
    ensures Rewriting(json, text, LineEnd(text, p + 1), done)
  {
  }

  lemma RewritingBlock(json: array<char>, text: string, p: nat, done: string)
    requires NulFree(text) && Rewriting(json, text, p, done) && p < |text|
    requires text[p] == '/' && At(text, p + 1) == '*'
    ensures BlockEnd(text, p + 1) == |text| ==> Minify(text, 0).None?
    ensures BlockEnd(text, p + 1) < |text| ==>
      BlockEnd(text, p + 1) + 2 <= |text| && Rewriting(json, text, BlockEnd(text, p + 1) + 2, done)
  {
  }

  /** A literal stays whole. */
  lemma LiteralStep(text: string, p: nat)
    requires p < |text| && text[p] == '"'
    ensures LiteralEnd(text, p + 1).None? ==> Minify(text, p).None?
    ensures LiteralEnd(text, p + 1).Some? ==>
      var q := LiteralEnd(text, p + 1).value; Minify(text, p) == Cat(text[p..q], Minify(text, q))
  {
  }

  lemma CharStep(text: string, p: nat)
    requires p < |text| && text[p] != NUL && text[p] != '"' && !Space(text[p])
    requires text[p] != '/' || (At(text, p + 1) != '/' && At(text, p + 1) != '*')
    ensures Minify(text, p) == Cat([text[p]], Minify(text, p + 1))
  {
  }

  /**
    `cjson_minify`: reading stays ahead of writing, so the text is rewritten within its own buffer,
    unless the loops run over its terminator, which a literal or block comment that is not closed
    makes them do; the model stops there, and the result tells.
    */
  method MinifyInPlace(json: array<char>) returns (inBounds: bool)
    requires exists i :: 0 <= i < json.Length && json[i] == NUL
    modifies json
    ensures inBounds <==> old(Minify(TextFrom(json[..], 0), 0)).Some?
    ensures inBounds ==> TextFrom(json[..], 0) == old(Minify(TextFrom(json[..], 0), 0)).value
  {
    inBounds := true;
    ghost var text := TextFrom(json[..], 0);
    TextFromTerminated(json[..], 0);
    ghost var done := "";
    CatNothing(Minify(text, 0));
    var into, p := 0, 0;
    while json[p] != NUL
      invariant Rewriting(json, text, p, done) && into == |done|
      decreases |text| - p
    {
      inBounds, into, p, done := RewriteNext(json, into, p, text, done);
      if !inBounds {
        return;
      }
    }
    json[into] := NUL;
    assert done + "" == done;
    TextFromStored(json[..], 0, done);
  }

  /** The body of the main loop. */
  method RewriteNext(json: array<char>, into: nat, p: nat, ghost text: string, ghost before: string)
    returns (inBounds: bool, to: nat, q: nat, ghost done: string)
    requires NulFree(text) && Rewriting(json, text, p, before) && into == |before| && p < |text|
    modifies json
    ensures inBounds ==> Rewriting(json, text, q, done) && to == |done| && q > p
    ensures !inBounds ==> Minify(text, 0).None?
  {
    inBounds, to, q, done := true, into, p, before;
    if Space(json[p]) {
      RewritingSpace(json, text, p, before);
      q := p + 1;
    } else if json[p] == '/' && json[p + 1] == '/' {
      RewritingLine(json, text, p, before);
      q := DropLine(json, p + 1, text);
    } else if json[p] == '/' && json[p + 1] == '*' {
      RewritingBlock(json, text, p, before);
      q := DropBlock(json, p + 1, text);
      inBounds := json[q] != NUL;
      q := q + 2;
    } else if json[p] == '"' {
      inBounds, to, q, done := RewriteLiteral(json, into, p, text, before);
    } else {
      RewriteChar(json, into, p, text, before);
      to, q, done := into + 1, p + 1, before + [text[p]];
    }
  }

  /** The quote and the loop of the literal case. */
  method RewriteLiteral(json: array<char>, into: nat, p: nat, ghost text: string, ghost before: string)
    returns (closed: bool, to: nat, q: nat, ghost done: string)
    requires NulFree(text) && Rewriting(json, text, p, before) && into == |before| && p < |text| && text[p] == '"'
    modifies json
    ensures closed ==> Rewriting(json, text, q, done) && to == |done| && q > p
    ensures !closed ==> Minify(text, 0).None?
  {
    LiteralStep(text, p);
    CopyChar(json, into, p, text, before);
    closed, to, q, done := CopyLiteral(json, into + 1, p + 1, text, before + [text[p]]);
    if closed {
      CatTwice(before, text[p..q], Minify(text, q));
      assert done == before + text[p..q];
    }
  }

  /** The case of every other character. */
  method RewriteChar(json: array<char>, into: nat, p: nat, ghost text: string, ghost done: string)
    requires NulFree(text) && Rewriting(json, text, p, done) && into == |done| && p < |text|
    requires text[p] != '"' && !Space(text[p])
    requires text[p] != '/' || (At(text, p + 1) != '/' && At(text, p + 1) != '*')
    modifies json
    ensures Rewriting(json, text, p + 1, done + [text[p]])
  {
    CharStep(text, p);
    CatTwice(done, [text[p]], Minify(text, p + 1));
    CopyChar(json, into, p, text, done);
  }

  lemma {:induction false} TextFromTerminated(buffer: seq<char>, start: nat)
    requires start <= |buffer| && exists i :: start <= i < |buffer| && buffer[i] == NUL
    ensures var s := TextFrom(buffer, start);
      && start + |s| < |buffer| && buffer[start + |s|] == NUL && NulFree(s)
      && forall i :: 0 <= i < |s| ==> buffer[start + i] == s[i]
    decreases |buffer| - start
  {
    if buffer[start] != NUL {
      TextFromTerminated(buffer, start + 1);
      var s, t := TextFrom(buffer, start), TextFrom(buffer, start + 1);
      forall i | 0 <= i < |s| ensures buffer[start + i] == s[i] && s[i] != NUL {
        if i > 0 {
          assert s[i] == t[i - 1] && buffer[start + 1 + (i - 1)] == t[i - 1];
        }
      }
    }
  }
}
