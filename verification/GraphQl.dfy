/** Executable GraphQL documents and their spellings. */
module GraphQl {
  // Their grammar, their tokens and the texts that spell them: sections 2.1 to 2.12 of the GraphQL
  // specification, October 2021.

  import opened Options
  import Scanner

  // ---- Lexemes ----

  datatype StringChar =
    | Plain(c: char)
    | Escape(c: char)              // a backslash, then this

  datatype BlockChar =
    | Raw(c: char)
    | TripleQuote                  // written \"""

  datatype Token =
    | Punctuator(c: char)
    | Ellipsis
    | Name(text: string)
    | Number(text: string)
    | Quoted(chars: seq<StringChar>)
    | Block(blocks: seq<BlockChar>)

  predicate IsPunctuator(c: char) {
    c in {'!', '$', '&', '(', ')', ':', '=', '@', '[', ']', '{', '|', '}'}
  }

  predicate IsName(text: string) {
    text != "" && Scanner.NameStart(text[0]) && forall k | 0 <= k < |text| :: Scanner.NameContinue(text[k])
  }

  predicate IsNumberChar(c: char) {
    '0' <= c <= '9' || c in {'-', '+', '.', 'e', 'E'}
  }

  predicate IsNumber(text: string) {
    text != "" && (text[0] == '-' || '0' <= text[0] <= '9') && forall k | 0 <= k < |text| :: IsNumberChar(text[k])
  }

  predicate IsStringChar(sc: StringChar) {
    sc.Plain? ==> sc.c != '"' && sc.c != '\\' && !Scanner.LineEnd(sc.c)
  }

  function BlockText(blocks: seq<BlockChar>): string {
    if blocks == [] then ""
    else (if blocks[0].Raw? then [blocks[0].c] else "\\\"\"\"") + BlockText(blocks[1..])
  }

  /** No plain character starts a closing quote, or an escaped one. */
  predicate IsBlock(blocks: seq<BlockChar>) {
    blocks != [] ==>
      && IsBlock(blocks[1..])
      && (blocks[0].Raw? ==>
            var rest := BlockText(blocks) + "\"\"\"";
            !Scanner.Quotes(rest) && !Scanner.EscapedQuotes(rest))
  }

  predicate IsToken(t: Token) {
    match t
    case Punctuator(c) => IsPunctuator(c)
    case Ellipsis => true
    case Name(text) => IsName(text)
    case Number(text) => IsNumber(text)
    case Quoted(chars) => forall k | 0 <= k < |chars| :: IsStringChar(chars[k])
    case Block(blocks) => IsBlock(blocks)
  }

  function QuotedText(chars: seq<StringChar>): string {
    if chars == [] then ""
    else (if chars[0].Plain? then [chars[0].c] else ['\\', chars[0].c]) + QuotedText(chars[1..])
  }

  function TokenText(t: Token): (text: string)
    ensures IsToken(t) ==> text != ""
  {
    match t
    case Punctuator(c) => [c]
    case Ellipsis => "..."
    case Name(text) => text
    case Number(text) => text
    case Quoted(chars) => "\"" + QuotedText(chars) + "\""
    case Block(blocks) => "\"\"\"" + BlockText(blocks) + "\"\"\""
  }

  // ---- Texts: tokens with ignored characters and comments between them ----

  datatype Piece =
    | Lexeme(token: Token)
    | Blank(c: char)
    | Comment(text: string)        // after the #

  predicate IsBlank(c: char) {
    c in {' ', '\t', '\n', '\r', ',', '\U{FEFF}'}
  }

  predicate IsPiece(p: Piece) {
    match p
    case Lexeme(token) => IsToken(token)
    case Blank(c) => IsBlank(c)
    case Comment(text) => forall k | 0 <= k < |text| :: !Scanner.LineEnd(text[k])
  }

  function PieceText(p: Piece): string {
    match p
    case Lexeme(token) => TokenText(token)
    case Blank(c) => [c]
    case Comment(text) => "#" + text
  }

  function TextOf(pieces: seq<Piece>): string {
    if pieces == [] then "" else PieceText(pieces[0]) + TextOf(pieces[1..])
  }

  /** What may stand right after a piece: a longer lexeme would otherwise be read. */
  predicate MayPrecede(p: Piece, rest: string) {
    match p
    case Lexeme(Name(_)) => rest == "" || !Scanner.NameContinue(rest[0])
    case Lexeme(Number(_)) => rest == "" || !Scanner.NameContinue(rest[0])
    case Lexeme(Quoted(chars)) => chars == [] ==> rest == "" || rest[0] != '"'
    case Comment(_) => rest == "" || Scanner.LineEnd(rest[0])
    case _ => true
  }

  predicate WellSpelled(pieces: seq<Piece>) {
    pieces == [] || (IsPiece(pieces[0]) && MayPrecede(pieces[0], TextOf(pieces[1..])) && WellSpelled(pieces[1..]))
  }

  function TokensOf(pieces: seq<Piece>): seq<Token> {
    if pieces == [] then []
    else (if pieces[0].Lexeme? then [pieces[0].token] else []) + TokensOf(pieces[1..])
  }

  // ---- The grammar ----

  datatype Value =
    | Variable(name: string)
    | NumberValue(text: string)
    | QuotedValue(chars: seq<StringChar>)
    | BlockValue(blocks: seq<BlockChar>)
    | NameValue(name: string)                  // true, false, null or an enum value
    | ListValue(items: seq<Value>)
    | ObjectValue(fields: seq<NamedValue>)

  /** An object's field, or an argument. */
  datatype NamedValue = NamedValue(name: string, value: Value)

  datatype Directive = Directive(name: string, arguments: seq<NamedValue>)

  datatype Type = NamedType(name: string) | ListType(inner: Type) | NonNullType(inner: Type)

  datatype VariableDefinition = VariableDefinition(name: string, kind: Type, fallback: Option<Value>,
    directives: seq<Directive>)

  datatype Selection =
    | Field(alias: Option<string>, name: string, arguments: seq<NamedValue>, directives: seq<Directive>,
      selections: seq<Selection>)
    | Spread(name: string, directives: seq<Directive>)
    | Inline(condition: Option<string>, directives: seq<Directive>, selections: seq<Selection>)

  datatype Definition =
    | Operation(kind: Scanner.OperationKind, name: Option<string>, variables: seq<VariableDefinition>,
      directives: seq<Directive>, selections: seq<Selection>)
    | Shorthand(selections: seq<Selection>)
    | Fragment(title: string, on: string, directives: seq<Directive>, selections: seq<Selection>)

  type Document = seq<Definition>

  // ---- Its tokens ----

  function P(c: char): seq<Token> {
    [Punctuator(c)]
  }

  function N(name: string): seq<Token> {
    [Name(name)]
  }

  function ValueTokens(v: Value): seq<Token> {
    match v
    case Variable(name) => P('$') + N(name)
    case NumberValue(text) => [Number(text)]
    case QuotedValue(chars) => [Quoted(chars)]
    case BlockValue(blocks) => [Block(blocks)]
    case NameValue(name) => N(name)
    case ListValue(items) => P('[') + ItemsTokens(items) + P(']')
    case ObjectValue(fields) => P('{') + NamedTokens(fields) + P('}')
  }

  function ItemsTokens(items: seq<Value>): seq<Token> {
    if items == [] then [] else ValueTokens(items[0]) + ItemsTokens(items[1..])
  }

  function NamedTokens(fields: seq<NamedValue>): seq<Token> {
    if fields == [] then [] else N(fields[0].name) + P(':') + ValueTokens(fields[0].value) + NamedTokens(fields[1..])
  }

  function ArgumentsTokens(arguments: seq<NamedValue>): seq<Token> {
    if arguments == [] then [] else P('(') + NamedTokens(arguments) + P(')')
  }

  function DirectivesTokens(directives: seq<Directive>): seq<Token> {
    if directives == [] then []
    else P('@') + N(directives[0].name) + ArgumentsTokens(directives[0].arguments) + DirectivesTokens(directives[1..])
  }

  function TypeTokens(t: Type): seq<Token> {
    match t
    case NamedType(name) => N(name)
    case ListType(inner) => P('[') + TypeTokens(inner) + P(']')
    case NonNullType(inner) => TypeTokens(inner) + P('!')
  }

  function VariablesTokens(variables: seq<VariableDefinition>): seq<Token> {
    if variables == [] then []
    else
      var v := variables[0];
      P('$') + N(v.name) + P(':') + TypeTokens(v.kind)
      + (if v.fallback.Some? then P('=') + ValueTokens(v.fallback.value) else [])
      + DirectivesTokens(v.directives) + VariablesTokens(variables[1..])
  }

  function SelectionTokens(s: Selection): seq<Token>
    decreases s, 0
  {
    match s
    case Field(alias, name, arguments, directives, selections) =>
      (if alias.Some? then N(alias.value) + P(':') else []) + N(name) + ArgumentsTokens(arguments) +
      DirectivesTokens(directives)
      + (if selections == [] then [] else P('{') + SelectionsTokens(selections) + P('}'))
    case Spread(name, directives) => [Ellipsis] + N(name) + DirectivesTokens(directives)
    case Inline(condition, directives, selections) =>
      [Ellipsis] + (if condition.Some? then N("on") + N(condition.value) else []) + DirectivesTokens(directives)
      + P('{') + SelectionsTokens(selections) + P('}')
  }

  function SelectionsTokens(selections: seq<Selection>): seq<Token> {
    if selections == [] then [] else SelectionTokens(selections[0]) + SelectionsTokens(selections[1..])
  }

  function KeywordOf(kind: Scanner.OperationKind): string {
    match kind
    case Query => "query"
    case Mutation => "mutation"
    case Subscription => "subscription"
  }

  function BodyTokens(selections: seq<Selection>): seq<Token> {
    P('{') + SelectionsTokens(selections) + P('}')
  }

  function DefinitionTokens(d: Definition): seq<Token> {
    match d
    case Operation(kind, name, variables, directives, selections) =>
      N(KeywordOf(kind)) + (if name.Some? then N(name.value) else [])
      + (if variables == [] then [] else P('(') + VariablesTokens(variables) + P(')'))
      + DirectivesTokens(directives) + BodyTokens(selections)
    case Shorthand(selections) => BodyTokens(selections)
    case Fragment(title, on, directives, selections) =>
      N("fragment") + N(title) + N("on") + N(on) + DirectivesTokens(directives) + BodyTokens(selections)
  }

  function DocumentTokens(document: Document): seq<Token> {
    if document == [] then [] else DefinitionTokens(document[0]) + DocumentTokens(document[1..])
  }

  /** The text of the pieces is a spelling of the document. */
  predicate Spells(pieces: seq<Piece>, document: Document) {
    WellSpelled(pieces) && TokensOf(pieces) == DocumentTokens(document)
  }

  // ---- The operation a request selects: GetOperation of section 6.1 ----

  /** The operation a definition is, if it is one. */
  function OperationOf(d: Definition): seq<Scanner.Operation> {
    match d
    case Operation(kind, name, _, _, _) => [Scanner.Operation(kind, name)]
    case Shorthand(_) => [Scanner.Operation(Scanner.Query, None)]
    case Fragment(_, _, _, _) => []
  }

  /** The document's operations, in order. */
  function OperationsIn(document: Document): seq<Scanner.Operation> {
    if document == [] then [] else OperationOf(document[0]) + OperationsIn(document[1..])
  }

  predicate Selects(document: Document, wanted: Option<string>, kind: Scanner.OperationKind) {
    var operations := OperationsIn(document);
    if wanted.None? then |operations| == 1 && operations[0].kind == kind
    else exists i | 0 <= i < |operations| ::
      operations[i] == Scanner.Operation(kind, wanted) && forall j | 0 <= j < i :: operations[j].name != wanted
  }
}
