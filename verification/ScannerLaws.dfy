/** The scan of a text is the run of its tokens. */
module ScannerLaws {
  import opened Options
  import opened Scanner
  import opened GraphQl

  // ---- The scan of one token ----

  function Step(s: State, t: Token): Option<State> {
    match t
    case Punctuator(c) => OnChar(s, c)
    case Name(text) => OnName(s, text)
    case Number(_) => if s.parens > 0 || s.braces > 0 then Some(s) else None
    case _ => Some(s)
  }

  function Run(s: State, tokens: seq<Token>): Option<State>
    decreases tokens
  {
    if tokens == [] then Some(s)
    else
      var next := Step(s, tokens[0]);
      if next.None? then None else Run(next.value, tokens[1..])
  }

  lemma {:induction false} RunAppend(s: State, a: seq<Token>, b: seq<Token>)
    requires Run(s, a).Some?
    ensures Run(s, a + b) == Run(Run(s, a).value, b)
    decreases a
  {
    hide Step;
    if a == [] {
      assert a + b == b;
    } else {
      assert (a + b)[1..] == a[1..] + b;
      RunAppend(Step(s, a[0]).value, a[1..], b);
    }
  }

  lemma RunOne(s: State, t: Token)
    ensures Run(s, [t]) == Step(s, t)
  {
    assert [t][1..] == [];
  }

  // ---- Lexing: a text scans as its tokens run ----

  lemma {:induction false} NameEnds(name: string, rest: string)
    requires forall k | 0 <= k < |name| :: NameContinue(name[k])
    requires rest == "" || !NameContinue(rest[0])
    ensures NameLength(name + rest) == |name|
  {
    if name == "" {
      assert name + rest == rest;
    } else {
      assert (name + rest)[1..] == name[1..] + rest;
      NameEnds(name[1..], rest);
    }
  }

  lemma {:induction false} CommentEnds(text: string, rest: string)
    requires forall k | 0 <= k < |text| :: !LineEnd(text[k])
    requires rest == "" || LineEnd(rest[0])
    ensures CommentLength(text + rest) == |text|
  {
    if text == "" {
      assert text + rest == rest;
    } else {
      assert (text + rest)[1..] == text[1..] + rest;
      CommentEnds(text[1..], rest);
    }
  }

  lemma {:induction false} QuotedEnds(chars: seq<StringChar>, rest: string)
    requires forall k | 0 <= k < |chars| :: IsStringChar(chars[k])
    ensures QuotedLength(QuotedText(chars) + "\"" + rest) == Some(|QuotedText(chars)| + 1)
  {
    var text := QuotedText(chars) + "\"" + rest;
    if chars == [] {
      assert text[0] == '"';
    } else {
      var tail := QuotedText(chars[1..]) + "\"" + rest;
      QuotedEnds(chars[1..], rest);
      if chars[0].Plain? {
        assert text == [chars[0].c] + tail;
        assert text[1..] == tail;
      } else {
        assert text == ['\\', chars[0].c] + tail;
        assert text[2..] == tail;
      }
    }
  }

  lemma {:induction false} BlockEnds(blocks: seq<BlockChar>, rest: string)
    requires IsBlock(blocks)
    ensures BlockLength(BlockText(blocks) + "\"\"\"" + rest) == Some(|BlockText(blocks)| + 3)
  {
    hide EscapedQuotes, Quotes;
    var text := BlockText(blocks) + "\"\"\"" + rest;
    if blocks == [] {
      ClosesNow(rest);
      assert text == "\"\"\"" + rest;
    } else {
      var tail := BlockText(blocks[1..]) + "\"\"\"" + rest;
      BlockEnds(blocks[1..], rest);
      if blocks[0].Raw? {
        assert text == [blocks[0].c] + tail;
        assert text[1..] == tail;
        RawIsPlain(blocks);
        NoQuotesSooner(BlockText(blocks) + "\"\"\"", rest);
      } else {
        assert text == "\\\"\"\"" + tail;
        assert text[4..] == tail;
        EscapesNow(tail);
      }
    }
  }

  lemma ClosesNow(rest: string)
    ensures Quotes("\"\"\"" + rest) && !EscapedQuotes("\"\"\"" + rest)
  {
  }

  lemma EscapesNow(rest: string)
    ensures EscapedQuotes("\\\"\"\"" + rest)
  {
  }

  lemma RawIsPlain(blocks: seq<BlockChar>)
    requires blocks != [] && blocks[0].Raw? && IsBlock(blocks)
    ensures |BlockText(blocks)| >= 1
    ensures !Quotes(BlockText(blocks) + "\"\"\"") && !EscapedQuotes(BlockText(blocks) + "\"\"\"")
  {
  }

  /** A text of at least four characters that starts with no closing quote still does not with more after it. */
  lemma NoQuotesSooner(text: string, rest: string)
    requires |text| >= 4 && !Quotes(text) && !EscapedQuotes(text)
    ensures !Quotes(text + rest) && !EscapedQuotes(text + rest)
  {
    assert forall k | 0 <= k < 4 :: (text + rest)[k] == text[k];
    assert text[1..][0] == text[1] && text[1..][1] == text[2] && text[1..][2] == text[3];
  }

  /** Inside parentheses or a selection set a number's characters change nothing. */
  lemma {:induction false} NumberScans(text: string, rest: string, s: State)
    requires s.parens > 0 || s.braces > 0
    requires forall k | 0 <= k < |text| :: IsNumberChar(text[k])
    requires rest == "" || !NameContinue(rest[0])
    ensures Scan(text + rest, s) == Scan(rest, s)
    decreases |text|
  {
    hide Scan, NameStart, OnChar;
    if text == "" {
      assert text + rest == rest;
    } else if NameStart(text[0]) {
      var n := NumberNameScans(text, rest, s);
      NumberScans(text[n..], rest, s);
    } else {
      assert text + rest == [text[0]] + (text[1..] + rest);
      NumberCharScans(text[0], text[1..] + rest, s);
      NumberScans(text[1..], rest, s);
    }
  }

  lemma NumberNameScans(text: string, rest: string, s: State) returns (n: nat)
    requires s.parens > 0 || s.braces > 0
    requires text != "" && NameStart(text[0]) && (rest == "" || !NameContinue(rest[0]))
    ensures 0 < n <= |text| && Scan(text + rest, s) == Scan(text[n..] + rest, s)
  {
    hide Scan;
    n := NameLength(text);
    assert text + rest == text[..n] + (text[n..] + rest);
    NameScans(text[..n], text[n..] + rest, s);
  }

  lemma NumberCharScans(c: char, rest: string, s: State)
    requires IsNumberChar(c) && !NameStart(c)
    ensures Scan([c] + rest, s) == Scan(rest, s)
  {
    OneScans(c, rest, s);
  }

  lemma NameScans(name: string, rest: string, s: State)
    requires name != "" && NameStart(name[0]) && forall k | 0 <= k < |name| :: NameContinue(name[k])
    requires rest == "" || !NameContinue(rest[0])
    ensures Scan(name + rest, s) == if OnName(s, name).None? then None else Scan(rest, OnName(s, name).value)
  {
    hide OnName, OnChar, StringLength, CommentLength;
    NameEnds(name, rest);
    assert (name + rest)[..|name|] == name && (name + rest)[|name|..] == rest;
  }

  lemma TokenScans(t: Token, rest: string, s: State)
    requires IsToken(t) && MayPrecede(Lexeme(t), rest) && Step(s, t).Some?
    ensures Scan(TokenText(t) + rest, s) == Scan(rest, Step(s, t).value)
  {
    match t
    case Punctuator(c) => OneScans(c, rest, s);
    case Ellipsis => EllipsisScans(rest, s);
    case Name(text) => NameScans(text, rest, s);
    case Number(text) => NumberScans(text, rest, s);
    case Quoted(chars) => QuotedScans(chars, rest, s);
    case Block(blocks) => BlockScans(blocks, rest, s);
  }

  lemma OneScans(c: char, rest: string, s: State)
    requires c != '#' && c != '"' && !NameStart(c)
    ensures Scan([c] + rest, s) == if OnChar(s, c).None? then None else Scan(rest, OnChar(s, c).value)
  {
    assert ([c] + rest)[1..] == rest;
  }

  lemma EllipsisScans(rest: string, s: State)
    ensures Scan("..." + rest, s) == Scan(rest, s)
  {
    assert "..." + rest == ['.'] + (['.'] + (['.'] + rest));
    OneScans('.', rest, s);
    OneScans('.', ['.'] + rest, s);
    OneScans('.', ['.'] + (['.'] + rest), s);
  }

  lemma StringScans(text: string, n: nat, s: State)
    requires text != "" && text[0] == '"' && StringLength(text) == Some(n)
    ensures n <= |text| && Scan(text, s) == Scan(text[n..], s)
  {
    hide StringLength, OnName, OnChar, CommentLength, NameLength;
  }

  lemma QuotedScans(chars: seq<StringChar>, rest: string, s: State)
    requires IsToken(Quoted(chars)) && MayPrecede(Lexeme(Quoted(chars)), rest)
    ensures Scan(TokenText(Quoted(chars)) + rest, s) == Scan(rest, s)
  {
    var body := QuotedText(chars) + "\"" + rest;
    var text := TokenText(Quoted(chars)) + rest;
    hide Scan, QuotedLength;
    assert text == ['"'] + body;
    assert text[1..] == body;
    QuotedEnds(chars, rest);
    assert !Quotes(text) by {
      if chars != [] {
        assert text[1] == if chars[0].Plain? then chars[0].c else '\\';
      } else {
        assert text[1] == '"' && (rest != "" ==> text[2] == rest[0]);
      }
    }
    StringScans(text, |text| - |rest|, s);
    assert text[|text| - |rest|..] == rest;
  }

  lemma BlockScans(blocks: seq<BlockChar>, rest: string, s: State)
    requires IsBlock(blocks)
    ensures Scan(TokenText(Block(blocks)) + rest, s) == Scan(rest, s)
  {
    var body := BlockText(blocks) + "\"\"\"" + rest;
    var text := TokenText(Block(blocks)) + rest;
    hide Scan, BlockLength, Quotes;
    assert text == "\"\"\"" + body;
    assert text[3..] == body;
    ClosesNow(body);
    BlockEnds(blocks, rest);
    StringScans(text, |text| - |rest|, s);
    assert text[|text| - |rest|..] == rest;
  }

  lemma CommentScans(comment: string, rest: string, s: State)
    requires IsPiece(Comment(comment)) && (rest == "" || LineEnd(rest[0]))
    ensures Scan("#" + comment + rest, s) == Scan(rest, s)
  {
    var text := "#" + comment + rest;
    assert text == ("#" + comment) + rest;
    CommentEnds("#" + comment, rest);
    assert text[|comment| + 1..] == rest;
  }

  /** A well-spelled text scans as its tokens run. */
  lemma {:induction false} TextScans(pieces: seq<Piece>, s: State)
    requires WellSpelled(pieces) && Run(s, TokensOf(pieces)).Some?
    ensures Scan(TextOf(pieces), s) == Run(s, TokensOf(pieces))
    decreases pieces
  {
    hide Scan, Step, IsPiece, MayPrecede;
    if pieces == [] {
      ScanEnds(s);
    } else {
      var first, rest := pieces[0], TextOf(pieces[1..]);
      var tokens := TokensOf(pieces[1..]);
      assert [] + tokens == tokens;
      match first
      case Lexeme(token) =>
        assert ([token] + tokens)[1..] == tokens;
        assert IsToken(token) by { PieceIs(first); }
        TokenScans(token, rest, s);
        TextScans(pieces[1..], Step(s, token).value);
      case Blank(c) =>
        BlankScans(c, rest, s);
        TextScans(pieces[1..], s);
      case Comment(comment) =>
        CommentFollows(comment, rest);
        CommentScans(comment, rest, s);
        TextScans(pieces[1..], s);
    }
  }

  lemma PieceIs(p: Piece)
    requires IsPiece(p)
    ensures p.Lexeme? ==> IsToken(p.token)
  {
  }

  lemma BlankScans(c: char, rest: string, s: State)
    requires IsPiece(Blank(c))
    ensures Scan([c] + rest, s) == Scan(rest, s)
  {
    OneScans(c, rest, s);
  }

  lemma CommentFollows(comment: string, rest: string)
    requires MayPrecede(Comment(comment), rest)
    ensures rest == "" || LineEnd(rest[0])
  {
  }

  // ---- What is left open ----

  /** The braces and parentheses left open by the tokens; a brace between parentheses counts for nothing. */
  function OpenAfter(braces: int, parens: int, tokens: seq<Token>): (int, int)
    decreases tokens
  {
    if tokens == [] then (braces, parens)
    else if tokens[0] == Punctuator('(') then OpenAfter(braces, parens + 1, tokens[1..])
    else if tokens[0] == Punctuator(')') then OpenAfter(braces, parens - 1, tokens[1..])
    else if tokens[0] == Punctuator('{') && parens == 0 then OpenAfter(braces + 1, parens, tokens[1..])
    else if tokens[0] == Punctuator('}') && parens == 0 then OpenAfter(braces - 1, parens, tokens[1..])
    else OpenAfter(braces, parens, tokens[1..])
  }

  lemma {:induction false} RunLeavesOpen(s: State, tokens: seq<Token>)
    requires Run(s, tokens).Some?
    ensures var end := Run(s, tokens).value; (end.braces, end.parens) == OpenAfter(s.braces, s.parens, tokens)
    decreases tokens
  {
    if tokens != [] {
      RunLeavesOpen(Step(s, tokens[0]).value, tokens[1..]);
    }
  }

  /** A text that leaves a brace or a parenthesis open has no kind. */
  lemma LeftOpenHasNoKind(pieces: seq<Piece>, wanted: Option<string>)
    requires WellSpelled(pieces) && Run(INITIAL, TokensOf(pieces)).Some?
    requires OpenAfter(0, 0, TokensOf(pieces)) != (0, 0)
    ensures KindOf(TextOf(pieces), wanted) == None
  {
    hide Scan, Run, WellSpelled, OpenAfter;
    TextScans(pieces, INITIAL);
    RunLeavesOpen(INITIAL, TokensOf(pieces));
  }
}
