/** What the scan makes of every document. */
module GrammarLaws {
  import opened Options
  import opened Scanner
  import opened GraphQl
  import opened ScannerLaws

  /** The tokens leave the scan as it was. */
  predicate Idle(s: State, tokens: seq<Token>) {
    Run(s, tokens) == Some(s)
  }

  lemma IdleAppend(s: State, a: seq<Token>, b: seq<Token>)
    requires Idle(s, a) && Idle(s, b)
    ensures Idle(s, a + b)
  {
    RunAppend(s, a, b);
  }

  lemma IdleOne(s: State, t: Token)
    requires Step(s, t) == Some(s)
    ensures Idle(s, [t])
  {
    RunOne(s, t);
  }

  lemma IdleSays(s: State, tokens: seq<Token>)
    requires Idle(s, tokens)
    ensures Run(s, tokens) == Some(s)
  {
  }

  lemma IdleNone(s: State)
    ensures Idle(s, [])
  {
  }

  // ---- Inside parentheses ----

  predicate NoParens(tokens: seq<Token>) {
    forall k | 0 <= k < |tokens| :: tokens[k] != Punctuator('(') && tokens[k] != Punctuator(')')
  }

  lemma {:induction false} ParensHide(s: State, tokens: seq<Token>)
    requires s.parens > 0 && NoParens(tokens)
    ensures Idle(s, tokens)
    decreases tokens
  {
    if tokens != [] {
      ParensHide(s, tokens[1..]);
    }
  }

  lemma {:induction false} ValueHasNoParens(v: Value)
    ensures NoParens(ValueTokens(v))
    decreases v
  {
    match v
    case ListValue(items) => ItemsHaveNoParens(items);
    case ObjectValue(fields) => NamedHaveNoParens(fields);
    case _ =>
  }

  lemma {:induction false} ItemsHaveNoParens(items: seq<Value>)
    ensures NoParens(ItemsTokens(items))
    decreases items
  {
    if items != [] {
      ValueHasNoParens(items[0]);
      ItemsHaveNoParens(items[1..]);
    }
  }

  lemma {:induction false} NamedHaveNoParens(fields: seq<NamedValue>)
    ensures NoParens(NamedTokens(fields))
    decreases fields
  {
    if fields != [] {
      ValueHasNoParens(fields[0].value);
      NamedHaveNoParens(fields[1..]);
    }
  }

  lemma {:induction false} TypeHasNoParens(t: Type)
    ensures NoParens(TypeTokens(t))
  {
    match t
    case NamedType(_) =>
    case ListType(inner) => TypeHasNoParens(inner);
    case NonNullType(inner) => TypeHasNoParens(inner);
  }

  // ---- Where a name and a parenthesis change nothing but the depth ----

  /** Inside a selection set, or in a header whose operation has its name. */
  predicate Settled(s: State) {
    s.braces > 0 || s.mode == Header
  }

  lemma ParensIdle(s: State, inner: seq<Token>)
    requires Settled(s) && Idle(s.(parens := s.parens + 1), inner)
    ensures Idle(s, P('(') + inner + P(')'))
  {
    var inside := s.(parens := s.parens + 1);
    RunOne(s, Punctuator('('));
    RunOne(inside, Punctuator(')'));
    RunAppend(s, P('('), inner);
    RunAppend(s, P('(') + inner, P(')'));
  }

  lemma ArgumentsIdle(s: State, arguments: seq<NamedValue>)
    requires Settled(s)
    ensures Idle(s, ArgumentsTokens(arguments))
  {
    if arguments != [] {
      NamedHaveNoParens(arguments);
      ParensHide(s.(parens := s.parens + 1), NamedTokens(arguments));
      ParensIdle(s, NamedTokens(arguments));
    }
  }

  lemma {:induction false} DirectivesIdle(s: State, directives: seq<Directive>)
    requires Settled(s)
    ensures Idle(s, DirectivesTokens(directives))
    decreases directives
  {
    if directives != [] {
      var d := directives[0];
      IdleOne(s, Punctuator('@'));
      IdleOne(s, Name(d.name));
      IdleAppend(s, P('@'), N(d.name));
      ArgumentsIdle(s, d.arguments);
      IdleAppend(s, P('@') + N(d.name), ArgumentsTokens(d.arguments));
      DirectivesIdle(s, directives[1..]);
      IdleAppend(s, P('@') + N(d.name) + ArgumentsTokens(d.arguments), DirectivesTokens(directives[1..]));
    }
  }

  lemma {:induction false} VariablesIdle(s: State, variables: seq<VariableDefinition>)
    requires Settled(s) && s.parens > 0
    ensures Idle(s, VariablesTokens(variables))
    decreases variables
  {
    if variables != [] {
      var v := variables[0];
      var front := P('$') + N(v.name) + P(':') + TypeTokens(v.kind);
      var fallback := if v.fallback.Some? then P('=') + ValueTokens(v.fallback.value) else [];
      TypeHasNoParens(v.kind);
      ParensHide(s, front);
      if v.fallback.Some? {
        ValueHasNoParens(v.fallback.value);
      }
      ParensHide(s, fallback);
      IdleAppend(s, front, fallback);
      DirectivesIdle(s, v.directives);
      IdleAppend(s, front + fallback, DirectivesTokens(v.directives));
      VariablesIdle(s, variables[1..]);
      IdleAppend(s, front + fallback + DirectivesTokens(v.directives), VariablesTokens(variables[1..]));
    }
  }

  // ---- Selection sets ----

  predicate InBody(s: State) {
    s.braces > 0 && s.parens == 0
  }

  lemma BracesIdle(s: State, selections: seq<Selection>)
    requires InBody(s) && Idle(s.(braces := s.braces + 1), SelectionsTokens(selections))
    ensures Idle(s, BodyTokens(selections))
  {
    var inside, inner := s.(braces := s.braces + 1), SelectionsTokens(selections);
    RunOne(s, Punctuator('{'));
    RunOne(inside, Punctuator('}'));
    RunAppend(s, P('{'), inner);
    RunAppend(s, P('{') + inner, P('}'));
  }

  lemma NameIdle(s: State, name: string)
    requires InBody(s)
    ensures Idle(s, N(name))
  {
    IdleOne(s, Name(name));
  }

  lemma {:induction false} SelectionIdle(s: State, selection: Selection)
    requires InBody(s)
    ensures Idle(s, SelectionTokens(selection))
    decreases selection, 0
  {
    hide Idle, ArgumentsTokens, DirectivesTokens, SelectionsTokens;
    IdleNone(s);
    DirectivesIdle(s, selection.directives);
    var directives := DirectivesTokens(selection.directives);
    match selection
    case Field(alias, name, arguments, _, selections) =>
      var front := if alias.Some? then N(alias.value) + P(':') else [];
      if alias.Some? {
        NameIdle(s, alias.value);
        IdleOne(s, Punctuator(':'));
        IdleAppend(s, N(alias.value), P(':'));
      }
      NameIdle(s, name);
      IdleAppend(s, front, N(name));
      ArgumentsIdle(s, arguments);
      IdleAppend(s, front + N(name), ArgumentsTokens(arguments));
      IdleAppend(s, front + N(name) + ArgumentsTokens(arguments), directives);
      var inner := if selections == [] then [] else P('{') + SelectionsTokens(selections) + P('}');
      if selections != [] {
        SelectionsIdle(s.(braces := s.braces + 1), selections);
        BracesIdle(s, selections);
      }
      IdleAppend(s, front + N(name) + ArgumentsTokens(arguments) + directives, inner);
    case Spread(name, _) =>
      IdleOne(s, Ellipsis);
      NameIdle(s, name);
      IdleAppend(s, [Ellipsis], N(name));
      IdleAppend(s, [Ellipsis] + N(name), directives);
    case Inline(condition, _, selections) =>
      IdleOne(s, Ellipsis);
      var on := if condition.Some? then N("on") + N(condition.value) else [];
      if condition.Some? {
        NameIdle(s, "on");
        NameIdle(s, condition.value);
        IdleAppend(s, N("on"), N(condition.value));
      }
      IdleAppend(s, [Ellipsis], on);
      IdleAppend(s, [Ellipsis] + on, directives);
      SelectionsIdle(s.(braces := s.braces + 1), selections);
      BracesIdle(s, selections);
      var front := [Ellipsis] + on + directives;
      IdleAppend(s, front, BodyTokens(selections));
      assert front + BodyTokens(selections) == front + P('{') + SelectionsTokens(selections) + P('}');
  }

  lemma {:induction false} SelectionsIdle(s: State, selections: seq<Selection>)
    requires InBody(s)
    ensures Idle(s, SelectionsTokens(selections))
    decreases selections
  {
    hide SelectionTokens;
    if selections != [] {
      SelectionIdle(s, selections[0]);
      SelectionsIdle(s, selections[1..]);
      IdleAppend(s, SelectionTokens(selections[0]), SelectionsTokens(selections[1..]));
    }
  }

  // ---- Definitions ----

  predicate AtTop(s: State) {
    s.mode == Start && s.braces == 0 && s.parens == 0 && s.pending.None?
  }

  /** A definition's selection set, opened from its header or from nothing. */
  lemma BodyRuns(s: State, selections: seq<Selection>)
    requires s.braces == 0 && s.parens == 0 && s.mode != Body && OnOpen(s).value.pending.None?
    ensures Run(s, BodyTokens(selections)) == Some(OnOpen(s).value.(mode := Start, braces := 0))
  {
    var inside, inner := OnOpen(s).value, SelectionsTokens(selections);
    RunOne(s, Punctuator('{'));
    SelectionsIdle(inside, selections);
    RunOne(inside, Punctuator('}'));
    RunAppend(s, P('{'), inner);
    RunAppend(s, P('{') + inner, P('}'));
  }

  /** The header of an operation after its name, or where its name would be: it takes no name any more. */
  lemma HeaderRuns(s: State, variables: seq<VariableDefinition>, directives: seq<Directive>)
    requires s.braces == 0 && s.parens == 0 && (s.mode == Keyword || s.mode == Header)
    ensures var tokens :=
              (if variables == [] then [] else P('(') + VariablesTokens(variables) + P(')')) +
              DirectivesTokens(directives);
            Run(s, tokens).Some? && Run(s, tokens).value.(mode := Header) == s.(mode := Header)
            && Run(s, tokens).value.mode in {Keyword, Header}
  {
    hide Run, VariablesTokens, DirectivesTokens;
    var head := s.(mode := Header);
    var first := if variables == [] then [] else P('(') + VariablesTokens(variables) + P(')');
    if variables == [] {
      assert first + DirectivesTokens(directives) == DirectivesTokens(directives);
      DirectivesRun(s, directives);
    } else {
      VariablesRun(s, variables);
      DirectivesIdle(head, directives);
      RunAppend(s, first, DirectivesTokens(directives));
    }
  }

  lemma VariablesRun(s: State, variables: seq<VariableDefinition>)
    requires s.braces == 0 && s.parens == 0 && (s.mode == Keyword || s.mode == Header)
    ensures Run(s, P('(') + VariablesTokens(variables) + P(')')) == Some(s.(mode := Header))
  {
    hide Run, VariablesTokens;
    var inside, inner := s.(mode := Header, parens := 1), VariablesTokens(variables);
    RunOne(s, Punctuator('('));
    VariablesIdle(inside, variables);
    RunOne(inside, Punctuator(')'));
    RunAppend(s, P('('), inner);
    RunAppend(s, P('(') + inner, P(')'));
  }

  lemma DirectivesRun(s: State, directives: seq<Directive>)
    requires s.braces == 0 && s.parens == 0 && (s.mode == Keyword || s.mode == Header)
    ensures Run(s, DirectivesTokens(directives)) == Some(if directives == [] then s else s.(mode := Header))
  {
    hide ArgumentsTokens, Idle;
    if directives != [] {
      var d, head := directives[0], s.(mode := Header);
      var rest := N(d.name) + ArgumentsTokens(d.arguments) + DirectivesTokens(directives[1..]);
      RunOne(s, Punctuator('@'));
      DirectivesIdle(head, directives);
      IdleSays(head, DirectivesTokens(directives));
      RunOne(head, Punctuator('@'));
      hide Run;
      RunAppend(s, P('@'), rest);
      RunAppend(head, P('@'), rest);
      assert DirectivesTokens(directives) == P('@') + rest;
    }
  }

  lemma OperationRuns(s: State, d: Definition)
    requires AtTop(s) && d.Operation?
    ensures Run(s, DefinitionTokens(d)) == Some(s.(operations := s.operations + OperationOf(d)))
  {
    hide VariablesTokens, DirectivesTokens, BodyTokens, Run;
    var op := Scanner.Operation(d.kind, None);
    var s1 := s.(pending := Some(op), mode := Keyword);
    RunOne(s, Name(KeywordOf(d.kind)));
    var name := if d.name.Some? then N(d.name.value) else [];
    var s2 := if d.name.Some? then s.(pending := Some(Scanner.Operation(d.kind, d.name)), mode := Header) else s1;
    assert Run(s1, name) == Some(s2) by {
      if d.name.Some? {
        RunOne(s1, Name(d.name.value));
      } else {
        RunNothing(s1);
      }
    }
    RunAppend(s, N(KeywordOf(d.kind)), name);
    var front := N(KeywordOf(d.kind)) + name;
    var variables := if d.variables == [] then [] else P('(') + VariablesTokens(d.variables) + P(')');
    var header := variables + DirectivesTokens(d.directives);
    HeaderRuns(s2, d.variables, d.directives);
    RunAppend(s, front, header);
    var s3 := Run(s2, header).value;
    BodyRuns(s3, d.selections);
    RunAppend(s, front + header, BodyTokens(d.selections));
    assert front + header + BodyTokens(d.selections) == DefinitionTokens(d) by {
      assert front + header == front + variables + DirectivesTokens(d.directives);
    }
  }

  lemma RunNothing(s: State)
    ensures Run(s, []) == Some(s)
  {
  }

  lemma FragmentRuns(s: State, d: Definition)
    requires AtTop(s) && d.Fragment?
    ensures Run(s, DefinitionTokens(d)) == Some(s)
  {
    hide DirectivesTokens, BodyTokens, Run;
    var head := s.(mode := Header);
    RunOne(s, Name("fragment"));
    IdleOne(head, Name(d.title));
    IdleOne(head, Name("on"));
    IdleOne(head, Name(d.on));
    RunAppend(s, N("fragment"), N(d.title));
    RunAppend(s, N("fragment") + N(d.title), N("on"));
    RunAppend(s, N("fragment") + N(d.title) + N("on"), N(d.on));
    var front := N("fragment") + N(d.title) + N("on") + N(d.on);
    DirectivesIdle(head, d.directives);
    RunAppend(s, front, DirectivesTokens(d.directives));
    BodyRuns(head, d.selections);
    RunAppend(s, front + DirectivesTokens(d.directives), BodyTokens(d.selections));
    assert s.operations + [] == s.operations;
  }

  lemma DefinitionRuns(s: State, d: Definition)
    requires AtTop(s)
    ensures Run(s, DefinitionTokens(d)) == Some(s.(operations := s.operations + OperationOf(d)))
  {
    match d
    case Operation(_, _, _, _, _) => OperationRuns(s, d);
    case Shorthand(selections) => BodyRuns(s, selections);
    case Fragment(_, _, _, _) =>
      FragmentRuns(s, d);
      assert s.operations + [] == s.operations;
  }

  lemma {:induction false} DocumentRuns(s: State, document: Document)
    requires AtTop(s)
    ensures Run(s, DocumentTokens(document)) == Some(s.(operations := s.operations + OperationsIn(document)))
    decreases document
  {
    hide DefinitionTokens, OperationOf, Run;
    if document == [] {
      assert s.operations + [] == s.operations;
      RunNothing(s);
    } else {
      var d, rest := document[0], document[1..];
      var next := s.(operations := s.operations + OperationOf(d));
      DefinitionRuns(s, d);
      DocumentRuns(next, rest);
      RunAppend(s, DefinitionTokens(d), DocumentTokens(rest));
      assert s.operations + OperationOf(d) + OperationsIn(rest) == s.operations + (OperationOf(d) + OperationsIn(rest));
    }
  }

  // ---- The selected operation ----

  lemma {:induction false} NamedIsFirst(operations: seq<Scanner.Operation>, wanted: string, kind: OperationKind)
    ensures Named(operations, wanted) == Some(kind) <==>
            exists i | 0 <= i < |operations| ::
              operations[i] == Scanner.Operation(kind, Some(wanted)) &&
              forall j | 0 <= j < i :: operations[j].name != Some(wanted)
  {
    if operations != [] {
      var rest := operations[1..];
      NamedIsFirst(rest, wanted, kind);
      if operations[0].name != Some(wanted) {
        if Named(rest, wanted) == Some(kind) {
          var i :| 0 <= i < |rest| && rest[i] == Scanner.Operation(kind, Some(wanted)) &&
            forall j | 0 <= j < i :: rest[j].name != Some(wanted);
          assert operations[i + 1] == rest[i];
          assert forall j | 0 <= j < i + 1 :: operations[j].name != Some(wanted) by {
            assert forall j | 1 <= j < i + 1 :: operations[j] == rest[j - 1];
          }
        }
        if i :|
          && 0 <= i < |operations| && operations[i] == Scanner.Operation(kind, Some(wanted))
          && forall j | 0 <= j < i :: operations[j].name != Some(wanted)
        {
          assert rest[i - 1] == operations[i];
          assert forall j | 0 <= j < i - 1 :: rest[j] == operations[j + 1];
        }
      }
    }
  }

  lemma SelectedIs(document: Document, wanted: Option<string>, kind: OperationKind)
    ensures Selected(OperationsIn(document), wanted) == Some(kind) <==> Selects(document, wanted, kind)
  {
    if wanted.Some? {
      NamedIsFirst(OperationsIn(document), wanted.value, kind);
    }
  }

  /**
   * Whatever its spelling, comments, strings and block strings included, a document scans to the
   * kind of the operation the request selects, and to none when the request selects none.
   */
  lemma ScanTellsTheKind(pieces: seq<Piece>, document: Document, wanted: Option<string>, kind: OperationKind)
    requires Spells(pieces, document)
    ensures KindOf(TextOf(pieces), wanted) == Some(kind) <==> Selects(document, wanted, kind)
  {
    hide Scan, Run, DocumentTokens, OperationsIn, WellSpelled, Selects, Selected;
    DocumentRuns(INITIAL, document);
    TextScans(pieces, INITIAL);
    assert [] + OperationsIn(document) == OperationsIn(document);
    SelectedIs(document, wanted, kind);
  }
}
