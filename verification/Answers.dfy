/** What a configuration loaded from any layers answers for a section. */
module AnswerLaws {
  import opened Options
  import opened Trees
  import opened Schemas
  import opened Layers
  import opened Reader
  import opened Walks
  import opened Events
  import opened CleanReads
  import opened Simulation
  import opened Drivers
  import opened ReportLaws
  import S = Sections
  import opened Checks
  import opened YieldLaws
  import opened Configs
  import opened ConfigLaws
  import Marks

  // ---- The problems of the sources ----

  /** A problem of a source as a section lists it: with its own origin, or else the source. */
  function Blamed(failure: SourceFailure, p: Problem): Problem {
    Problem(p.path, if p.origin.Some? then p.origin else Some(File(failure.source, 0, 0)), p.message)
  }

  /** How many problems the sources have, over all layers. */
  function Total(layers: seq<Layer>): nat {
    if layers == [] then 0 else TotalOf(layers[0].failures) + Total(layers[1..])
  }

  function TotalOf(failures: seq<SourceFailure>): nat {
    if failures == [] then 0 else |failures[0].problems| + TotalOf(failures[1..])
  }

  /** The layer's sources have no problem. */
  predicate Unfailed(layer: Layer) {
    forall j | 0 <= j < |layer.failures| :: layer.failures[j].problems == []
  }

  predicate NoSourceProblem(layers: seq<Layer>) {
    forall i | 0 <= i < |layers| :: Unfailed(layers[i])
  }

  /** What the section at `path` of the configuration loaded from `layers` answers. */
  function AnswerOf(layers: seq<Layer>, s: Schema, path: string): Outcome {
    OutcomeOf(FailuresOf(layers), ReportIn(Loaded(TreesOf(layers)), s, path), path)
  }

  lemma {:induction false} FailuresAppend(a: seq<SourceFailure>, b: seq<SourceFailure>)
    ensures FailureProblems(a + b) == FailureProblems(a) + FailureProblems(b) &&
            TotalOf(a + b) == TotalOf(a) + TotalOf(b)
  {
    if a == [] {
      assert a + b == b;
    } else {
      assert (a + b)[1..] == a[1..] + b;
      FailuresAppend(a[1..], b);
    }
  }

  lemma {:induction false} TotalAppend(a: seq<Layer>, layer: Layer)
    ensures Total(a + [layer]) == Total(a) + TotalOf(layer.failures)
  {
    if a == [] {
      assert a + [layer] == [layer] && [layer][1..] == [];
    } else {
      assert (a + [layer])[1..] == a[1..] + [layer];
      TotalAppend(a[1..], layer);
    }
  }

  lemma {:induction false} ProblemListed(failures: seq<SourceFailure>, j: nat, k: nat)
    requires j < |failures| && k < |failures[j].problems|
    ensures Blamed(failures[j], failures[j].problems[k]) in FailureProblems(failures)
  {
    if j == 0 {
      assert Attributed(failures[0])[k] == Blamed(failures[0], failures[0].problems[k]);
    } else {
      ProblemListed(failures[1..], j - 1, k);
    }
  }

  lemma {:induction false} ListedAre(failures: seq<SourceFailure>)
    ensures |FailureProblems(failures)| == TotalOf(failures)
  {
    if failures != [] {
      ListedAre(failures[1..]);
    }
  }

  lemma {:induction false} LayersCount(layers: seq<Layer>)
    ensures |FailureProblems(FailuresOf(layers))| == Total(layers)
    decreases |layers|
  {
    if layers != [] {
      var n := |layers| - 1;
      LayersCount(layers[..n]);
      assert layers == layers[..n] + [layers[n]];
      TotalAppend(layers[..n], layers[n]);
      FailuresAppend(FailuresOf(layers[..n]), layers[n].failures);
      ListedAre(layers[n].failures);
    }
  }

  lemma {:induction false} LayerListed(layers: seq<Layer>, i: nat, j: nat, k: nat)
    requires i < |layers| && j < |layers[i].failures| && k < |layers[i].failures[j].problems|
    ensures var failure := layers[i].failures[j];
            Blamed(failure, failure.problems[k]) in FailureProblems(FailuresOf(layers))
    decreases |layers|
  {
    hide Blamed;
    var n := |layers| - 1;
    FailuresAppend(FailuresOf(layers[..n]), layers[n].failures);
    if i < n {
      LayerListed(layers[..n], i, j, k);
    } else {
      ProblemListed(layers[n].failures, j, k);
    }
  }

  /**
   * A problem of any source of any layer makes every section invalid, and is listed there with its own
   * origin or its source.
   */
  lemma SourceProblemIsListed(layers: seq<Layer>, s: Schema, path: string, i: nat, j: nat, k: nat)
    requires i < |layers| && j < |layers[i].failures| && k < |layers[i].failures[j].problems|
    ensures var failure, outcome := layers[i].failures[j], AnswerOf(layers, s, path);
            outcome.Invalid? && Blamed(failure, failure.problems[k]) in outcome.problems
  {
    hide ReportIn, FailuresOf, FailureProblems, Blamed;
    LayerListed(layers, i, j, k);
    var report := ReportIn(Loaded(TreesOf(layers)), s, path);
    FirstOnes(FailureProblems(FailuresOf(layers)), report.problems);
  }

  /** The problems of all the sources are listed first, and then the read's. */
  lemma SourcesComeFirst(layers: seq<Layer>, s: Schema, path: string)
    requires !NoSourceProblem(layers)
    ensures var outcome, report := AnswerOf(layers, s, path), ReportIn(Loaded(TreesOf(layers)), s, path);
            && outcome.Invalid?
            && |outcome.problems| == Total(layers) + |report.problems| + (if report.settled then 0 else 1)
            && outcome.problems[Total(layers)..Total(layers) + |report.problems|] == report.problems
  {
    hide ReportIn, FailuresOf, FailureProblems, Total, NoSourceProblem;
    LayersCount(layers);
    NoProblemNoTotal(layers);
    var report := ReportIn(Loaded(TreesOf(layers)), s, path);
    FirstOnes(FailureProblems(FailuresOf(layers)), report.problems);
  }

  lemma FirstOnes(a: seq<Problem>, b: seq<Problem>)
    ensures (a + b)[|a|..|a| + |b|] == b
    ensures forall p | p in a :: p in a + b
    ensures forall c: seq<Problem> :: (a + b + c)[|a|..|a| + |b|] == b
  {
  }

  lemma {:induction false} NoProblemNoTotal(layers: seq<Layer>)
    ensures NoSourceProblem(layers) <==> Total(layers) == 0
  {
    hide Unfailed;
    if layers != [] {
      NoProblemNoTotal(layers[1..]);
      NoneOf(layers[0]);
      assert forall i | 1 <= i < |layers| :: layers[i] == layers[1..][i - 1];
      assert forall i | 0 <= i < |layers| - 1 :: layers[1..][i] == layers[i + 1];
    }
  }

  lemma NoneOf(layer: Layer)
    ensures TotalOf(layer.failures) == 0 <==> Unfailed(layer)
  {
    NoneFrom(layer.failures);
  }

  lemma {:induction false} NoneFrom(failures: seq<SourceFailure>)
    ensures TotalOf(failures) == 0 <==> forall j | 0 <= j < |failures| :: failures[j].problems == []
  {
    if failures != [] {
      NoneFrom(failures[1..]);
      assert forall j | 1 <= j < |failures| :: failures[j] == failures[1..][j - 1];
      assert forall j | 0 <= j < |failures| - 1 :: failures[1..][j] == failures[j + 1];
    }
  }

  // ---- The value ----

  /**
   * A section answers the value `v` exactly when no source has a problem and `v` is what its node means
   * as the type, or what the type makes of nothing where there is no node.
   */
  lemma ValidExactlyWhen(layers: seq<Layer>, s: Schema, path: string, v: Decoded)
    requires CleanRead(s, TargetAt(Loaded(TreesOf(layers)), path), path)
    ensures AnswerOf(layers, s, path) == Valid(v) <==>
            NoSourceProblem(layers) && Means(s, TargetAt(Loaded(TreesOf(layers)), path), v)
  {
    hide UniqueRead, Apart, Places, Needed, WholeReport, Driven, S.Whole, TargetAt, Means, FailureProblems, FailuresOf,
      NoSourceProblem, Total, OutcomeOf, ReportIn;
    var root := Loaded(TreesOf(layers));
    var t := TargetAt(root, path);
    NotSilent(root, path);
    LayersCount(layers);
    NoProblemNoTotal(layers);
    SectionAnswers(root, FailuresOf(layers), s, path);
    WholeExactlyWhenMeant(s, t, path, v);
    if Means(s, t, v) {
      MeantIsWhole(s, t, path, v);
    }
    if WholeReport(s, t, path) == [] && Needed(s, t, path) <= MAX_PASSES && NoSourceProblem(layers) {
      ValueAnswered(root, FailuresOf(layers), s, path);
    }
  }

  /** A section with a value answers the whole read's. */
  lemma ValueAnswered(root: Option<Node>, failures: seq<SourceFailure>, s: Schema, path: string)
    requires CleanRead(s, TargetAt(root, path), path) && OutcomeOf(failures, ReportIn(root, s, path), path).Valid?
    requires Needed(s, TargetAt(root, path), path) <= MAX_PASSES
    ensures S.Whole(s, TargetAt(root, path), path).end == Done(OutcomeOf(failures, ReportIn(root, s, path), path).value)
  {
    hide CleanRead, Needed, WholeReport, Driven, S.Whole, TargetAt, FailureProblems;
    SectionReport(s, TargetAt(root, path), path, OriginsIn(root));
  }

  // ---- A cut report ----

  lemma {:induction false} CutFrom(s: Schema, t: Target, path: string, whereabouts: string -> Option<Origin>, st: State,
      m: nat)
    requires |Fills(Walk(s, t, path, {}).events)| > 2048 >= m && Marks.Standing(s, t, path, st, m)
    requires st.held == [] && st.missing == MissingOf(Fills(Walk(s, t, path, {}).events)[..m])
    ensures var report := Driven(ReadingOf(s, t, path, whereabouts), st, m);
            !report.settled && report.problems == MissingOf(Fills(Walk(s, t, path, {}).events)[..2048])
    decreases 2048 - m
  {
    hide Walk, Marks.Known, Stands, Accounts, TurnOf, ReadingOf, Fills, MissingOf;
    var fills := Fills(Walk(s, t, path, {}).events);
    AskTurn(s, t, path, whereabouts, st, m);
    AskTurnIs(s, t, path, whereabouts, st, m);
    Marks.TurnKnown(s, t, path, whereabouts, st);
    if m == 2048 {
      assert st.held + st.missing == st.missing;
    } else {
      MissingNext(fills, m);
      CutFrom(s, t, path, whereabouts, TurnOf(ReadingOf(s, t, path, whereabouts), st).next, m + 1);
    }
  }

  lemma MissingNext(fills: seq<NewPatch>, m: nat)
    requires m < |fills|
    ensures MissingOf(fills[..m + 1]) == MissingOf(fills[..m]) + Listed(fills[m].problem)
  {
    assert fills[..m + 1] == fills[..m] + [fills[m]];
    MissingAppend(fills[..m], [fills[m]]);
    assert [fills[m]][1..] == [];
  }

  /**
   * A read that would ask for more than 2048 fields before anything refuses is cut, and lists exactly
   * the missing ones among the first 2048 its walk asks for, in that order.
   */
  lemma CutListsTheFirst(s: Schema, t: Target, path: string, whereabouts: string -> Option<Origin>)
    requires CleanRead(s, t, path) && |Fills(Walk(s, t, path, {}).events)| > 2048
    ensures var report := Driven(ReadingOf(s, t, path, whereabouts), START, 0);
            !report.settled && report.problems == MissingOf(Fills(Walk(s, t, path, {}).events)[..2048])
  {
    hide Walk, Fills, Marks.Known, Driven, S.SectionTrace, S.HeldEvents, S.Asides, UniqueRead, Places, Apart,
      S.AllRefuse, MissingOf;
    NothingAside(Core(s), t, path, 0);
    NoEvents();
    NoneRefuse(Core(s), t, path);
    var fills := Fills(Walk(s, t, path, {}).events);
    assert fills[..0] == [] && MissingOf(fills[..0]) == [] by { NoneMissed(); }
    assert Stands(s, t, path, START.patches, START.skipped, 0);
    assert Accounts(s, t, path, START, 0);
    CutFrom(s, t, path, whereabouts, START, 0);
  }

  lemma NoneMissed()
    ensures MissingOf([]) == []
  {
  }
}
