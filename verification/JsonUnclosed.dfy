/** What `cjson_minify` keeps of a text, by an automaton. */
module JsonUnclosed {
  import opened Common
  import opened CText
  import opened JsonMinify

  /** Where in a text one is: behind a slash or a star means that the next character may complete a pair. */
  datatype Place = Code | Slash | Line | Block | Star | Literal | Escaped

  function FromCode(c: char): Place {
    if c == '/' then Slash else if c == '"' then Literal else Code
  }

  /** From one character to the next. */
  function Step(at: Place, c: char): Place {
    match at
    case Code => FromCode(c)
    case Slash => if c == '/' then Line else if c == '*' then Star else FromCode(c)
    case Line => if c == '\n' then Code else Line
    case Block => if c == '*' then Star else Block
    case Star => if c == '/' then Code else if c == '*' then Star else Block
    case Literal => if c == '"' then Code else if c == '\\' then Escaped else Literal
    case Escaped => Literal
  }

  /** Where one is at the end of the text. */
  function LastPlace(text: string, p: nat, at: Place): Place
    requires p <= |text|
    decreases |text| - p
  {
    if p == |text| then at else LastPlace(text, p + 1, Step(at, text[p]))
  }

  /** Inside of a block comment or a literal. */
  predicate Unclosed(at: Place) {
    at == Block || at == Star || at == Literal || at == Escaped
  }

  lemma {:induction false} LineIsPassed(text: string, p: nat)
    requires NulFree(text) && p <= |text|
    ensures Unclosed(LastPlace(text, p, Line)) == Unclosed(LastPlace(text, LineEnd(text, p), Code))
    decreases |text| - p
  {
    if p < |text| && text[p] != '\n' {
      LineIsPassed(text, p + 1);
    }
  }

  lemma {:induction false} BlockIsPassed(text: string, p: nat)
    requires NulFree(text) && p <= |text|
    ensures var q := BlockEnd(text, p);
      Unclosed(LastPlace(text, p, Block)) == if q == |text| then true else Unclosed(LastPlace(text, q + 2, Code))
    decreases |text| - p
  {
    if p < |text| && !(text[p] == '*' && At(text, p + 1) == '/') {
      BlockIsPassed(text, p + 1);
      if text[p] == '*' && p + 1 < |text| {
        assert Step(Star, text[p + 1]) == Step(Block, text[p + 1]);
      }
    }
  }

  lemma {:induction false} LiteralIsPassed(text: string, p: nat)
    requires NulFree(text) && p <= |text|
    ensures var q := LiteralEnd(text, p);
      Unclosed(LastPlace(text, p, Literal)) == if q.None? then true else Unclosed(LastPlace(text, q.value, Code))
    decreases |text| - p
  {
    if p < |text| && text[p] != '"' {
      if text[p] != '\\' {
        LiteralIsPassed(text, p + 1);
      } else if p + 1 < |text| {
        LiteralIsPassed(text, p + 2);
        assert LastPlace(text, p + 1, Escaped) == LastPlace(text, p + 2, Literal);
      }
    }
  }

  lemma {:induction false} UnclosedFrom(text: string, p: nat)
    requires NulFree(text) && p <= |text|
    ensures Minify(text, p).None? <==> Unclosed(LastPlace(text, p, Code))
    decreases |text| - p
  {
    if p < |text| {
      if text[p] == '/' && At(text, p + 1) == '/' {
        LineIsPassed(text, p + 2);
        assert LineEnd(text, p + 1) == LineEnd(text, p + 2);
        assert LastPlace(text, p + 1, Slash) == LastPlace(text, p + 2, Line);
        UnclosedFrom(text, LineEnd(text, p + 1));
      } else if text[p] == '/' && At(text, p + 1) == '*' {
        var q := BlockEnd(text, p + 1);
        BlockIsPassed(text, p + 1);
        assert LastPlace(text, p + 1, Slash) == LastPlace(text, p + 2, Star) == LastPlace(text, p + 1, Block);
        if q < |text| {
          UnclosedFrom(text, q + 2);
        }
      } else if text[p] == '"' {
        LiteralIsPassed(text, p + 1);
        var q := LiteralEnd(text, p + 1);
        if q.Some? {
          UnclosedFrom(text, q.value);
        }
      } else {
        UnclosedFrom(text, p + 1);
        if text[p] == '/' && p + 1 < |text| {
          assert Step(Slash, text[p + 1]) == Step(Code, text[p + 1]);
        }
      }
    }
  }

  /**
    The exact condition for running over the terminator: read from the left, the text ends inside of a
    string literal or of a block comment.
    */
  lemma OutOfBoundsIffUnclosed(text: string)
    requires NulFree(text)
    ensures Minify(text, 0).None? <==> Unclosed(LastPlace(text, 0, Code))
  {
    UnclosedFrom(text, 0);
  }

  /** A single quote, and the start of a comment. */
  lemma RunsOver()
    ensures Minify("\"", 0) == None && Minify("/*", 0) == None
  {
    assert LiteralEnd("\"", 1) == None;
    assert BlockEnd("/*", 1) == 2;
  }

  // ---------- what is kept ----------

  /** In code, all but white space; a slash has to wait for the next character. */
  function KeptOfCode(c: char): string {
    if Space(c) || c == '/' then "" else [c]
  }

  /** What reading a character decides to keep: literals whole, nothing of comments. */
  function KeptOf(at: Place, c: char): string {
    match at
    case Code => KeptOfCode(c)
    case Slash => if c == '/' || c == '*' then "" else "/" + KeptOfCode(c)
    case Literal => [c]
    case Escaped => [c]
    case _ => ""
  }

  function Kept(text: string, p: nat, at: Place): string
    requires p <= |text|
    decreases |text| - p
  {
    if p == |text| then (if at == Slash then "/" else "")
    else KeptOf(at, text[p]) + Kept(text, p + 1, Step(at, text[p]))
  }

  lemma KeptNext(text: string, p: nat, at: Place, next: nat, to: Place)
    requires p < |text| && next == p + 1 && to == Step(at, text[p])
    ensures Kept(text, p, at) == KeptOf(at, text[p]) + Kept(text, next, to)
  {
  }

  lemma {:induction false} KeptOfLine(text: string, p: nat)
    requires NulFree(text) && p <= |text|
    ensures Kept(text, p, Line) == Kept(text, LineEnd(text, p), Code)
    decreases |text| - p
  {
    if p < |text| && text[p] != '\n' {
      KeptOfLine(text, p + 1);
    }
  }

  lemma {:induction false} KeptOfBlock(text: string, p: nat)
    requires NulFree(text) && p <= |text| && BlockEnd(text, p) < |text|
    ensures Kept(text, p, Block) == Kept(text, BlockEnd(text, p) + 2, Code)
    decreases |text| - p
  {
    if text[p] == '*' && At(text, p + 1) == '/' {
      KeptNext(text, p, Block, p + 1, Star);
      KeptNext(text, p + 1, Star, p + 2, Code);
    } else {
      KeptOfBlock(text, p + 1);
      KeptNext(text, p, Block, p + 1, Step(Block, text[p]));
      if text[p] == '*' {
        KeptNext(text, p + 1, Star, p + 2, Step(Star, text[p + 1]));
        KeptNext(text, p + 1, Block, p + 2, Step(Block, text[p + 1]));
      }
    }
  }

  lemma OneMore(text: string, p: nat, q: nat, rest: string)
    requires p < q <= |text|
    ensures text[p..q] + rest == [text[p]] + (text[p + 1..q] + rest)
  {
  }

  lemma {:induction false} KeptOfLiteral(text: string, p: nat)
    requires NulFree(text) && p <= |text| && LiteralEnd(text, p).Some?
    ensures var q := LiteralEnd(text, p).value; Kept(text, p, Literal) == text[p..q] + Kept(text, q, Code)
    decreases |text| - p
  {
    var q := LiteralEnd(text, p).value;
    var rest := Kept(text, q, Code);
    KeptNext(text, p, Literal, p + 1, Step(Literal, text[p]));
    OneMore(text, p, q, rest);
    if text[p] == '"' {
      assert text[p + 1..q] + rest == rest;
    } else if text[p] != '\\' {
      KeptOfLiteral(text, p + 1);
    } else {
      KeptNext(text, p + 1, Escaped, p + 2, Literal);
      OneMore(text, p + 1, q, rest);
      KeptOfLiteral(text, p + 2);
    }
  }

  /** Behind a slash that does not begin a comment, all is as if the slash had been kept at once. */
  lemma KeptOfSlash(text: string, p: nat)
    requires NulFree(text) && p <= |text| && At(text, p) != '/' && At(text, p) != '*'
    ensures Kept(text, p, Slash) == "/" + Kept(text, p, Code)
  {
    if p < |text| {
      KeptNext(text, p, Slash, p + 1, FromCode(text[p]));
      KeptNext(text, p, Code, p + 1, FromCode(text[p]));
      assert "/" + KeptOfCode(text[p]) + Kept(text, p + 1, FromCode(text[p])) ==
        "/" + (KeptOfCode(text[p]) + Kept(text, p + 1, FromCode(text[p])));
    }
  }

  lemma {:induction false} KeptFrom(text: string, p: nat)
    requires NulFree(text) && p <= |text| && Minify(text, p).Some?
    ensures Minify(text, p).value == Kept(text, p, Code)
    decreases |text| - p
  {
    if p < |text| {
      var c, next := text[p], p + 1;
      KeptNext(text, p, Code, next, FromCode(c));
      if c == '/' && At(text, next) == '/' {
        KeptNext(text, next, Slash, next + 1, Line);
        KeptOfLine(text, next + 1);
        assert LineEnd(text, next) == LineEnd(text, next + 1);
        KeptFrom(text, LineEnd(text, next));
      } else if c == '/' && At(text, next) == '*' {
        var q := BlockEnd(text, next);
        KeptNext(text, next, Slash, next + 1, Star);
        KeptNext(text, next, Block, next + 1, Star);
        KeptOfBlock(text, next);
        KeptFrom(text, q + 2);
      } else if c == '"' {
        var q := LiteralEnd(text, next).value;
        KeptOfLiteral(text, next);
        KeptFrom(text, q);
        assert text[p..q] == [c] + text[next..q];
        assert [c] + text[next..q] + Kept(text, q, Code) == [c] + (text[next..q] + Kept(text, q, Code));
      } else {
        KeptFrom(text, next);
        if c == '/' {
          KeptOfSlash(text, next);
        }
      }
    }
  }

  /** Where it stays within the text, minifying keeps what the automaton keeps. */
  lemma MinifyKeeps(text: string)
    requires NulFree(text) && !Unclosed(LastPlace(text, 0, Code))
    ensures Minify(text, 0) == Some(Kept(text, 0, Code))
  {
    UnclosedFrom(text, 0);
    KeptFrom(text, 0);
  }
}
