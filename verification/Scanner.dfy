/** The scan for the operation a document selects. */
module Scanner {
  import opened Options

  datatype OperationKind = Query | Mutation | Subscription

  datatype Operation = Operation(kind: OperationKind, name: Option<string>)

  datatype Mode =
    | Start        // between definitions
    | Keyword      // `query`, `mutation` or `subscription` was read: a name that follows names it
    | Header       // between a definition's start and its `{`
    | Body         // inside a selection set

  datatype State = State(
    operations: seq<Operation>,
    mode: Mode,
    pending: Option<Operation>,
    braces: nat,
    parens: nat)

  const INITIAL := State([], Start, None, 0, 0)

  // ---- What the scan does with each lexeme ----

  predicate NameStart(c: char) {
    c == '_' || 'a' <= c <= 'z' || 'A' <= c <= 'Z'
  }

  predicate NameContinue(c: char) {
    NameStart(c) || '0' <= c <= '9'
  }

  predicate LineEnd(c: char) {
    c == '\n' || c == '\r'
  }

  /** A name at the top level: a definition's keyword, or the operation's name. */
  function OnName(s: State, name: string): Option<State> {
    if s.braces != 0 || s.parens != 0 then Some(s)
    else
      match s.mode
      case Start =>
        if name == "query" then Some(s.(pending := Some(Operation(Query, None)), mode := Keyword))
        else if name == "mutation" then Some(s.(pending := Some(Operation(Mutation, None)), mode := Keyword))
        else if name == "subscription" then Some(s.(pending := Some(Operation(Subscription, None)), mode := Keyword))
        else if name == "fragment" then Some(s.(pending := None, mode := Header))
        else None
      case Keyword =>
        Some(s.(pending := if s.pending.Some? then Some(s.pending.value.(name := Some(name))) else None,
          mode := Header))
      case _ => Some(s)
  }

  /** A `{` outside parentheses; the outermost one takes the operation that was pending. */
  function OnOpen(s: State): Option<State> {
    if s.braces != 0 then Some(s.(braces := s.braces + 1))
    else
      match s.mode
      case Start => Some(s.(operations := s.operations + [Operation(Query, None)], mode := Body, braces := 1))
      case Body => None
      case _ =>
        Some(s.(operations := s.operations + (if s.pending.Some? then [s.pending.value] else []), pending := None,
          mode := Body, braces := 1))
  }

  function OnClose(s: State): Option<State> {
    if s.braces == 0 then None
    else Some(s.(braces := s.braces - 1, mode := if s.braces == 1 then Start else s.mode))
  }

  /** Any other character. */
  function OnChar(s: State, c: char): Option<State> {
    if c == '(' then
      Some(s.(parens := s.parens + 1, mode := if s.braces == 0 && s.mode == Keyword then Header else s.mode))
    else if c == ')' then
      if s.parens == 0 then None else Some(s.(parens := s.parens - 1))
    else if c == '{' && s.parens == 0 then OnOpen(s)
    else if c == '}' && s.parens == 0 then OnClose(s)
    else if (c == '@' || c == '$') && s.braces == 0 && s.parens == 0 && s.mode == Keyword then Some(s.(mode := Header))
    else Some(s)
  }

  // ---- Lexemes of more than one character ----

  predicate Quotes(text: string) {
    |text| >= 3 && text[0] == '"' && text[1] == '"' && text[2] == '"'
  }

  predicate EscapedQuotes(text: string) {
    |text| >= 4 && text[0] == '\\' && Quotes(text[1..])
  }

  function Shifted(n: nat, length: Option<nat>): Option<nat> {
    if length.Some? then Some(n + length.value) else None
  }

  /** The length of the string `text` starts with, its quotes included, if it is closed. */
  function StringLength(text: string): (r: Option<nat>)
    requires text != "" && text[0] == '"'
    ensures r.Some? ==> 1 < r.value <= |text|
  {
    if Quotes(text) then Shifted(3, BlockLength(text[3..])) else Shifted(1, QuotedLength(text[1..]))
  }

  /** What is left of a block string, up to and with its closing quotes. */
  function BlockLength(text: string): (r: Option<nat>)
    ensures r.Some? ==> 3 <= r.value <= |text|
  {
    if text == "" then None
    else if EscapedQuotes(text) then Shifted(4, BlockLength(text[4..]))
    else if Quotes(text) then Some(3)
    else Shifted(1, BlockLength(text[1..]))
  }

  /** What is left of a string, up to and with its closing quote. */
  function QuotedLength(text: string): (r: Option<nat>)
    ensures r.Some? ==> 1 <= r.value <= |text|
  {
    if text == "" then None
    else if text[0] == '\\' then (if |text| < 2 then None else Shifted(2, QuotedLength(text[2..])))
    else if text[0] == '"' then Some(1)
    else if LineEnd(text[0]) then None
    else Shifted(1, QuotedLength(text[1..]))
  }

  function CommentLength(text: string): (n: nat)
    ensures n <= |text|
    ensures forall k | 0 <= k < n :: !LineEnd(text[k])
    ensures n < |text| ==> LineEnd(text[n])
  {
    if text == "" || LineEnd(text[0]) then 0 else 1 + CommentLength(text[1..])
  }

  function NameLength(text: string): (n: nat)
    ensures n <= |text|
    ensures forall k | 0 <= k < n :: NameContinue(text[k])
    ensures n < |text| ==> !NameContinue(text[n])
  {
    if text == "" || !NameContinue(text[0]) then 0 else 1 + NameLength(text[1..])
  }

  /** The scan of what is left of the document. */
  function Scan(text: string, s: State): Option<State>
    decreases |text|
  {
    if text == "" then Some(s)
    else if text[0] == '#' then Scan(text[CommentLength(text)..], s)
    else if text[0] == '"' then
      var n := StringLength(text);
      if n.None? then None else Scan(text[n.value..], s)
    else if NameStart(text[0]) then
      var n := NameLength(text);
      var next := OnName(s, text[..n]);
      if next.None? then None else Scan(text[n..], next.value)
    else
      var next := OnChar(s, text[0]);
      if next.None? then None else Scan(text[1..], next.value)
  }

  // ---- The selected operation ----

  /** The first operation of that name. */
  function Named(operations: seq<Operation>, wanted: string): Option<OperationKind> {
    if operations == [] then None
    else if operations[0].name == Some(wanted) then Some(operations[0].kind)
    else Named(operations[1..], wanted)
  }

  function Selected(operations: seq<Operation>, wanted: Option<string>): Option<OperationKind> {
    if wanted.Some? then Named(operations, wanted.value)
    else if |operations| == 1 then Some(operations[0].kind)
    else None
  }

  function KindOf(document: string, wanted: Option<string>): Option<OperationKind> {
    var end := Scan(document, INITIAL);
    if end.None? || end.value.braces != 0 || end.value.parens != 0 then None else Selected(end.value.operations, wanted)
  }

  // ---- The loops ----

  /** Where the string that opens at `start` is over, if it is closed at all. */
  method SkipString(bytes: string, start: nat) returns (end: Option<nat>)
    requires start < |bytes| && bytes[start] == '"'
    ensures end == Shifted(start, StringLength(bytes[start..]))
  {
    hide BlockLength, QuotedLength;
    if Quotes(bytes[start..]) {
      assert bytes[start..][3..] == bytes[start + 3..];
      end := SkipBlock(bytes, start + 3);
    } else {
      assert bytes[start..][1..] == bytes[start + 1..];
      end := SkipQuoted(bytes, start + 1);
    }
  }

  method SkipBlock(bytes: string, start: nat) returns (end: Option<nat>)
    requires start <= |bytes|
    ensures end == Shifted(start, BlockLength(bytes[start..]))
  {
    hide Quotes, EscapedQuotes;
    var i := start;
    while i < |bytes|
      invariant start <= i <= |bytes|
      invariant Shifted(start, BlockLength(bytes[start..])) == Shifted(i, BlockLength(bytes[i..]))
    {
      if EscapedQuotes(bytes[i..]) {
        assert |bytes[i..]| >= 4 by { EscapedIsLong(bytes[i..]); }
        assert bytes[i..][4..] == bytes[i + 4..];
        i := i + 4;
      } else if Quotes(bytes[i..]) {
        return Some(i + 3);
      } else {
        assert bytes[i..][1..] == bytes[i + 1..];
        i := i + 1;
      }
    }
    end := None;
  }

  lemma EscapedIsLong(text: string)
    ensures EscapedQuotes(text) ==> |text| >= 4
  {
  }

  method SkipQuoted(bytes: string, start: nat) returns (end: Option<nat>)
    requires start <= |bytes|
    ensures end == Shifted(start, QuotedLength(bytes[start..]))
  {
    hide QuotedLength;
    var i := start;
    while i < |bytes|
      invariant start <= i
      invariant i <= |bytes| ==> Shifted(start, QuotedLength(bytes[start..])) == Shifted(i, QuotedLength(bytes[i..]))
      invariant i > |bytes| ==> QuotedLength(bytes[start..]).None?
    {
      QuotedNext(bytes, i);
      if bytes[i] == '\\' {
        i := i + 2;
      } else if bytes[i] == '"' {
        return Some(i + 1);
      } else if LineEnd(bytes[i]) {
        return None;
      } else {
        i := i + 1;
      }
    }
    if i == |bytes| {
      QuotedNone(bytes, i);
    }
    end := None;
  }

  /** What one byte of a string makes of the length of the rest. */
  lemma QuotedNext(bytes: string, i: nat)
    requires i < |bytes|
    ensures Shifted(i, QuotedLength(bytes[i..])) ==
            if bytes[i] == '\\' then (if i + 2 <= |bytes| then Shifted(i + 2, QuotedLength(bytes[i + 2..])) else None)
            else if bytes[i] == '"' then Some(i + 1)
            else if LineEnd(bytes[i]) then None
            else Shifted(i + 1, QuotedLength(bytes[i + 1..]))
  {
    assert i + 2 <= |bytes| ==> bytes[i..][2..] == bytes[i + 2..];
    assert bytes[i..][1..] == bytes[i + 1..];
  }

  lemma QuotedNone(bytes: string, i: nat)
    requires i == |bytes|
    ensures QuotedLength(bytes[i..]).None?
  {
  }

  method SkipComment(bytes: string, start: nat) returns (i: nat)
    requires start < |bytes| && bytes[start] == '#'
    ensures start < i <= |bytes| && i == start + CommentLength(bytes[start..])
  {
    i := start;
    while i < |bytes| && !LineEnd(bytes[i])
      invariant start <= i <= |bytes|
      invariant start + CommentLength(bytes[start..]) == i + CommentLength(bytes[i..])
    {
      assert bytes[i..][1..] == bytes[i + 1..];
      i := i + 1;
    }
  }

  method SkipName(bytes: string, start: nat) returns (i: nat)
    requires start < |bytes| && NameStart(bytes[start])
    ensures start < i <= |bytes| && i == start + NameLength(bytes[start..])
  {
    i := start;
    while i < |bytes| && NameContinue(bytes[i])
      invariant start <= i <= |bytes|
      invariant start + NameLength(bytes[start..]) == i + NameLength(bytes[i..])
    {
      assert bytes[i..][1..] == bytes[i + 1..];
      i := i + 1;
    }
  }

  lemma ScanEnds(s: State)
    ensures Scan("", s) == Some(s)
  {
  }

  /** One turn of the scan at place `i`. */
  lemma ScanUnfolds(document: string, i: nat, s: State)
    requires i < |document|
    ensures var rest := document[i..];
            var here := Scan(rest, s);
            if document[i] == '#' then here == Scan(document[i + CommentLength(rest)..], s)
            else if document[i] == '"' then
              var n := StringLength(rest);
              here == if n.None? then None else Scan(document[i + n.value..], s)
            else if NameStart(document[i]) then
              var n := NameLength(rest);
              var next := OnName(s, document[i..i + n]);
              here == if next.None? then None else Scan(document[i + n..], next.value)
            else
              var next := OnChar(s, document[i]);
              here == if next.None? then None else Scan(document[i + 1..], next.value)
  {
    hide OnName, OnChar, StringLength, CommentLength, NameLength;
    var rest := document[i..];
    assert forall n | 0 <= n <= |rest| :: rest[n..] == document[i + n..] && rest[..n] == document[i..i + n];
  }

  /** The kind of the operation called `wanted`; with no name, of the sole operation. */
  method OperationKindOf(document: string, wanted: Option<string>) returns (kind: Option<OperationKind>)
    ensures kind == KindOf(document, wanted)
  {
    hide Scan, StringLength, CommentLength, NameLength, NameStart, Selected;
    var operations: seq<Operation>, mode, pending: Option<Operation>, braces: nat, parens: nat := [], Start, None, 0, 0;
    var i := 0;
    while i < |document|
      invariant i <= |document|
      invariant Scan(document, INITIAL) == Scan(document[i..], State(operations, mode, pending, braces, parens))
    {
      var b := document[i];
      ghost var s := State(operations, mode, pending, braces, parens);
      ScanUnfolds(document, i, s);
      if b == '#' {
        i := SkipComment(document, i);
      } else if b == '"' {
        var end := SkipString(document, i);
        if end.None? {
          return None;
        }
        i := end.value;
      } else if NameStart(b) {
        var start := i;
        i := SkipName(document, start);
        var name := document[start..i];
        if braces == 0 && parens == 0 {
          match mode {
            case Start =>
              match name {
                case "query" => pending, mode := Some(Operation(Query, None)), Keyword;
                case "mutation" => pending, mode := Some(Operation(Mutation, None)), Keyword;
                case "subscription" => pending, mode := Some(Operation(Subscription, None)), Keyword;
                case "fragment" => pending, mode := None, Header;
                case _ => return None;
              }
            case Keyword =>
              if pending.Some? {
                pending := Some(pending.value.(name := Some(name)));
              }
              mode := Header;
            case _ =>
          }
        }
      } else {
        if b == '(' {
          parens := parens + 1;
        } else if b == ')' {
          if parens == 0 {
            return None;
          }
          parens := parens - 1;
        } else if b == '{' && parens == 0 {
          if braces == 0 {
            match mode {
              case Start => operations := operations + [Operation(Query, None)];
              case Body => return None;
              case _ =>
                operations := operations + if pending.Some? then [pending.value] else [];
                pending := None;
            }
            mode := Body;
          }
          braces := braces + 1;
        } else if b == '}' && parens == 0 {
          if braces == 0 {
            return None;
          }
          braces := braces - 1;
          if braces == 0 {
            mode := Start;
          }
        } else if (b == '@' || b == '$') && braces == 0 && parens == 0 && mode == Keyword {
          mode := Header;
        }
        if b == '(' && braces == 0 && mode == Keyword {
          mode := Header;
        }
        assert OnChar(s, b) == Some(State(operations, mode, pending, braces, parens));
        i := i + 1;
      }
    }
    assert document[i..] == "";
    ScanEnds(State(operations, mode, pending, braces, parens));
    if braces != 0 || parens != 0 {
      return None;
    }
    kind := Select(operations, wanted);
  }

  method Select(operations: seq<Operation>, wanted: Option<string>) returns (kind: Option<OperationKind>)
    ensures kind == Selected(operations, wanted)
  {
    if wanted.None? {
      return if |operations| == 1 then Some(operations[0].kind) else None;
    }
    for i := 0 to |operations|
      invariant Named(operations, wanted.value) == Named(operations[i..], wanted.value)
    {
      if operations[i].name == wanted {
        return Some(operations[i].kind);
      }
    }
    kind := None;
  }
}
