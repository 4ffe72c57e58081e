/** The recursive parser of cjson.c with its loops, over positions in the text. */
module JsonParse {
  import opened Common
  import opened CText
  import opened Numerals
  import opened JsonString
  import opened JsonStringCode
  import opened JsonValue

  method SkipAt(text: string, p: nat) returns (q: nat)
    requires p <= |text|
    ensures q == Skip(text, p)
  {
    q := p;
    while At(text, q) != NUL && At(text, q) <= ' '
      invariant p <= q <= |text| && Skip(text, p) == Skip(text, q)
      decreases |text| - q
    {
      q := q + 1;
    }
  }

  /** The digit loops of `parse_number`. */
  method DigitsAt(text: string, p: nat, acc: nat) returns (n: nat, q: nat)
    requires p <= |text|
    ensures Numeral(n, q) == ParseDigits(text, p, acc)
  {
    n, q := acc, p;
    while IsDigit(At(text, q))
      invariant p <= q <= |text| && ParseDigits(text, p, acc) == ParseDigits(text, q, n)
      decreases |text| - q
    {
      n, q := n * 10 + (text[q] as nat - '0' as nat), q + 1;
    }
  }

  method ExponentAt(text: string, p: nat) returns (r: Exponent)
    requires p <= |text|
    ensures r == ParseExponent(text, p)
  {
    var subscale: nat, signsubscale, num := 0, 1, p;
    if At(text, num) == 'e' || At(text, num) == 'E' {
      num := num + 1;
      if At(text, num) == '+' {
        num := num + 1;
      } else if At(text, num) == '-' {
        signsubscale := -1;
        num := num + 1;
      }
      subscale, num := DigitsAt(text, num, 0);
    }
    return Exponent(subscale * signsubscale, num);
  }

  method WholeAt(text: string, p: nat) returns (n: nat, num: nat)
    requires p <= |text|
    ensures Numeral(n, num) == ParseWhole(text, p)
  {
    n, num := 0, p;
    if At(text, num) == '0' {
      num := num + 1;
    }
    if '1' <= At(text, num) <= '9' {
      n, num := DigitsAt(text, num, 0);
    }
  }

  /** `parse_number`, up to the call of `pow`. */
  method ParseNumberAt(text: string, p: nat) returns (r: Parsed<Json>)
    requires p <= |text|
    ensures r == ParseNumber(text, p)
  {
    var n: nat, num := 0, p;
    var sign, scale: int := 1, 0;
    if At(text, num) == '-' {
      sign := -1;
      num := num + 1;
    }
    n, num := WholeAt(text, num);
    if At(text, num) == '.' && IsDigit(At(text, num + 1)) {
      var point: int := num;
      n, num := DigitsAt(text, num + 1, n);
      scale := point + 1 - num;
    }
    var exp := ExponentAt(text, num);
    return Ok(Number(sign * n, scale + exp.value), exp.end);
  }

  method ParseValueAt(text: string, p: nat) returns (r: Parsed<Json>)
    requires p <= |text|
    ensures r == ParseValue(text, p)
    decreases |text| - p, 0
  {
    if Word4(text, p, 'n', 'u', 'l', 'l') {
      return Ok(Null, p + 4);
    }
    if Word4(text, p, 'f', 'a', 'l', 's') && At(text, p + 4) == 'e' {
      return Ok(False, p + 5);
    }
    if Word4(text, p, 't', 'r', 'u', 'e') {
      return Ok(True, p + 4);
    }
    if At(text, p) == '"' {
      var s := ParseStringAt(text, p);
      return if s.Err? then Err(s.ep) else Ok(String(s.value), s.end);
    }
    if At(text, p) == '-' || IsDigit(At(text, p)) {
      r := ParseNumberAt(text, p);
      return;
    }
    if At(text, p) == '[' {
      r := ParseArrayAt(text, p);
      return;
    }
    if At(text, p) == '{' {
      r := ParseObjectAt(text, p);
      return;
    }
    return Err(Some(p));
  }

  /** `parse_array`: a loop over the commas, appending each value to the list. */
  method ParseArrayAt(text: string, p: nat) returns (r: Parsed<Json>)
    requires p < |text|
    ensures r == ParseArray(text, p)
    decreases |text| - p - 1, 3
  {
    if text[p] != '[' {
      return Err(Some(p));
    }
    var start := SkipAt(text, p + 1);
    if At(text, start) == ']' {
      return Ok(Array([]), start + 1);
    }
    var items := ParseItemsAt(text, start);
    if items.Err? {
      return Err(items.ep);
    }
    var q := items.end;
    return if At(text, q) == ']' then Ok(Array(items.value), q + 1) else Err(Some(q));
  }

  /** Its loop. */
  method ParseItemsAt(text: string, start: nat) returns (r: Parsed<seq<Json>>)
    requires start <= |text|
    ensures r == ParseItems(text, start)
    decreases |text| - start, 2
  {
    var items, at := [], start;
    NoItemYet(text, start);
    while true
      invariant start <= at <= |text|
      invariant ItemsBehind(text, start, items, at)
      decreases |text| - at
    {
      var q := SkipAt(text, at);
      var v := ParseValueAt(text, q);
      if v.Err? {
        NoItem(text, start, items, at, v.ep);
        return Err(v.ep);
      }
      q := SkipAt(text, v.end);
      if At(text, q) != ',' {
        LastOfItems(text, start, items, at, v.value, v.end, q);
        return Ok(items + [v.value], q);
      }
      OneMoreItem(text, start, items, at, v.value, v.end, q);
      items, at := items + [v.value], q + 1;
    }
  }

  /** The values in the list come first, and the rest is parsed from `at`. */
  ghost predicate ItemsBehind(text: string, start: nat, items: seq<Json>, at: nat)
    requires start <= |text| && at <= |text|
  {
    ParseItems(text, start) == After(items, ParseItems(text, at))
  }

  lemma NoItemYet(text: string, start: nat)
    requires start <= |text|
    ensures ItemsBehind(text, start, [], start)
  {
    AfterNothing(ParseItems(text, start));
  }

  lemma NoItem(text: string, start: nat, items: seq<Json>, at: nat, ep: Option<nat>)
    requires start <= |text| && at <= |text| && ParseValue(text, Skip(text, at)) == Err(ep)
    requires ItemsBehind(text, start, items, at)
    ensures ParseItems(text, start) == Err(ep)
  {
  }

  lemma LastOfItems(text: string, start: nat, items: seq<Json>, at: nat, v: Json, end: nat, q: nat)
    requires start <= |text| && at <= |text| && ParseValue(text, Skip(text, at)) == Ok(v, end) && q == Skip(text, end)
    requires ItemsBehind(text, start, items, at) && At(text, q) != ','
    ensures ParseItems(text, start) == Ok(items + [v], q)
  {
    ItemStep(text, at, v, end, q);
  }

  lemma OneMoreItem(text: string, start: nat, items: seq<Json>, at: nat, v: Json, end: nat, q: nat)
    requires start <= |text| && at <= |text| && ParseValue(text, Skip(text, at)) == Ok(v, end) && q == Skip(text, end)
    requires ItemsBehind(text, start, items, at) && At(text, q) == ','
    ensures q < |text| && ItemsBehind(text, start, items + [v], q + 1)
  {
    ItemStep(text, at, v, end, q);
    AfterStep(items, v, ParseItems(text, q + 1));
  }

  /** One `"key": value` pair of `parse_object`. */
  method ParseMemberAt(text: string, p: nat) returns (r: Parsed<Member>)
    requires p <= |text|
    ensures r == ParseMember(text, p)
    decreases |text| - p, 1
  {
    var q := SkipAt(text, p);
    var key := ParseStringAt(text, q);
    if key.Err? {
      return Err(key.ep);
    }
    q := SkipAt(text, key.end);
    if At(text, q) != ':' {
      return Err(Some(q));
    }
    q := SkipAt(text, q + 1);
    var v := ParseValueAt(text, q);
    if v.Err? {
      return Err(v.ep);
    }
    return Ok(Member(key.value, v.value), v.end);
  }

  /** `parse_object`. */
  method ParseObjectAt(text: string, p: nat) returns (r: Parsed<Json>)
    requires p < |text|
    ensures r == ParseObject(text, p)
    decreases |text| - p - 1, 3
  {
    if text[p] != '{' {
      return Err(Some(p));
    }
    var start := SkipAt(text, p + 1);
    if At(text, start) == '}' {
      return Ok(Object([]), start + 1);
    }
    var members := ParseMembersAt(text, start);
    if members.Err? {
      return Err(members.ep);
    }
    var q := members.end;
    return if At(text, q) == '}' then Ok(Object(members.value), q + 1) else Err(Some(q));
  }

  /** Its loop over the commas. */
  method ParseMembersAt(text: string, start: nat) returns (r: Parsed<seq<Member>>)
    requires start <= |text|
    ensures r == ParseMembers(text, start)
    decreases |text| - start, 2
  {
    var members, at := [], start;
    NoMemberYet(text, start);
    while true
      invariant start <= at <= |text|
      invariant MembersBehind(text, start, members, at)
      decreases |text| - at
    {
      var m := ParseMemberAt(text, at);
      if m.Err? {
        NoMember(text, start, members, at, m.ep);
        return Err(m.ep);
      }
      var q := SkipAt(text, m.end);
      if At(text, q) != ',' {
        LastOfMembers(text, start, members, at, m.value, m.end, q);
        return Ok(members + [m.value], q);
      }
      OneMoreMember(text, start, members, at, m.value, m.end, q);
      members, at := members + [m.value], q + 1;
    }
  }

  /** The members in the list come first, and the rest is parsed from `at`. */
  ghost predicate MembersBehind(text: string, start: nat, members: seq<Member>, at: nat)
    requires start <= |text| && at <= |text|
  {
    ParseMembers(text, start) == After(members, ParseMembers(text, at))
  }

  lemma NoMemberYet(text: string, start: nat)
    requires start <= |text|
    ensures MembersBehind(text, start, [], start)
  {
    AfterNothing(ParseMembers(text, start));
  }

  lemma NoMember(text: string, start: nat, members: seq<Member>, at: nat, ep: Option<nat>)
    requires start <= |text| && at <= |text| && ParseMember(text, at) == Err(ep)
    requires MembersBehind(text, start, members, at)
    ensures ParseMembers(text, start) == Err(ep)
  {
  }

  lemma LastOfMembers(text: string, start: nat, members: seq<Member>, at: nat, m: Member, end: nat, q: nat)
    requires start <= |text| && at <= |text| && ParseMember(text, at) == Ok(m, end) && q == Skip(text, end)
    requires MembersBehind(text, start, members, at) && At(text, q) != ','
    ensures ParseMembers(text, start) == Ok(members + [m], q)
  {
    MemberStep(text, at, m, end, q);
  }

  lemma OneMoreMember(text: string, start: nat, members: seq<Member>, at: nat, m: Member, end: nat, q: nat)
    requires start <= |text| && at <= |text| && ParseMember(text, at) == Ok(m, end) && q == Skip(text, end)
    requires MembersBehind(text, start, members, at) && At(text, q) == ','
    ensures q < |text| && MembersBehind(text, start, members + [m], q + 1)
  {
    MemberStep(text, at, m, end, q);
    AfterStep(members, m, ParseMembers(text, q + 1));
  }

  /** `cjson_parse_with_opts`. */
  method ParseDocument(text: string, requireNullTerminated: bool) returns (r: Parsed<Json>)
    ensures r == Parse(text, requireNullTerminated)
  {
    var p := SkipAt(text, 0);
    r := ParseValueAt(text, p);
    if r.Ok? && requireNullTerminated {
      var end := SkipAt(text, r.end);
      r := if At(text, end) != NUL then Err(Some(end)) else Ok(r.value, end);
    }
  }
}
