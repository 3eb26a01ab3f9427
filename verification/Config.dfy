/** A loaded configuration and its section reads. */
module Configs {
  import opened Options
  import opened Trees
  import R = Reader
  import opened Schemas
  import opened Layers
  import opened Deserializers
  import opened Drivers
  import opened ReportLaws

  datatype SourceFailure = SourceFailure(source: string, problems: seq<Problem>)

  /** A source's tree, and what went wrong on the way to it. */
  datatype Layer = Layer(tree: Option<Node>, failures: seq<SourceFailure>)

  datatype Outcome = Valid(value: Decoded) | Invalid(problems: seq<Problem>)

  function TreesOf(layers: seq<Layer>): (trees: seq<Option<Node>>)
    ensures |trees| == |layers|
    ensures forall i | 0 <= i < |layers| :: trees[i] == layers[i].tree
  {
    seq(|layers|, i requires 0 <= i < |layers| => layers[i].tree)
  }

  function FailuresOf(layers: seq<Layer>): seq<SourceFailure> {
    if layers == [] then [] else FailuresOf(layers[..|layers| - 1]) + layers[|layers| - 1].failures
  }

  /** The problems of failed sources, each with an origin: its own, or the source. */
  function FailureProblems(failures: seq<SourceFailure>): seq<Problem> {
    if failures == [] then [] else Attributed(failures[0]) + FailureProblems(failures[1..])
  }

  function Attributed(failure: SourceFailure): (listed: seq<Problem>)
    ensures |listed| == |failure.problems|
  {
    seq(|failure.problems|, i requires 0 <= i < |failure.problems| =>
      failure.problems[i].(origin :=
        if failure.problems[i].origin.Some? then failure.problems[i].origin else Some(File(failure.source, 0, 0))))
  }

  function FoundAt(root: Option<Node>, path: string): Option<Node> {
    if root.None? then None else NodeOf(Located(root.value, path))
  }

  /** What the read of the section at `path` starts from. */
  function TargetAt(root: Option<Node>, path: string): Target {
    var found := FoundAt(root, path);
    if found.Some? then At(found.value) else Absent(false, None)
  }

  function OriginsIn(root: Option<Node>): string -> Option<Origin> {
    path => var found := FoundAt(root, path); if found.Some? then Some(found.value.origin) else None
  }

  function ReadIn(root: Option<Node>, s: Schema, path: string): Reading {
    ReadingOf(s, TargetAt(root, path), path, OriginsIn(root))
  }

  function ReportIn(root: Option<Node>, s: Schema, path: string): Report {
    Driven(ReadIn(root, s, path), START, 0)
  }

  /** Every problem of a section read, with the notice at the end of a report that was cut. */
  function ProblemsOf(failures: seq<SourceFailure>, report: Report): seq<Problem> {
    var listed := FailureProblems(failures) + report.problems;
    if report.settled then listed else listed + [Problem("", None, Truncated(|listed|))]
  }

  function OutcomeOf(failures: seq<SourceFailure>, report: Report, path: string): Outcome {
    var problems := ProblemsOf(failures, report);
    if report.value.Some? && problems == [] then Valid(report.value.value)
    else Invalid(if problems == [] then [Problem(path, None, CouldNotRead)] else problems)
  }

  class Config {
    const tree: Tree
    var failures: seq<SourceFailure>
    var consumed: set<string>

    constructor (tree: Tree, failures: seq<SourceFailure>)
      ensures this.tree == tree && this.failures == failures && consumed == {}
    {
      this.tree, this.failures, consumed := tree, failures, {};
    }

    /** One tree of all the layers, a later one winning; what failed to load is carried along. */
    static method Load(layers: seq<Layer>) returns (config: Config)
      ensures fresh(config) && fresh(config.tree)
      ensures config.tree.root == Loaded(TreesOf(layers))
      ensures config.failures == FailuresOf(layers)
      ensures config.consumed == {}
    {
      var tree := new Tree.Empty();
      var failures: seq<SourceFailure> := [];
      for i := 0 to |layers|
        invariant fresh(tree)
        invariant tree.root == Loaded(TreesOf(layers)[..i]) && failures == FailuresOf(layers[..i])
      {
        assert TreesOf(layers)[..i + 1][..i] == TreesOf(layers)[..i] && layers[..i + 1][..i] == layers[..i];
        tree.Overlay(layers[i].tree);
        failures := failures + layers[i].failures;
      }
      assert TreesOf(layers)[..|layers|] == TreesOf(layers) && layers[..|layers|] == layers;
      config := new Config(tree, failures);
    }

    method MarkConsumed(paths: set<string>)
      modifies this`consumed
      ensures consumed == old(consumed) + paths
    {
      consumed := consumed + paths;
    }

    /** The leaves no read has marked. */
    method Unread() returns (unread: seq<Leaf>)
      ensures unread == Unconsumed(TreeLeaves(tree.root), consumed)
    {
      hide Unconsumed, TreeLeaves;
      var leaves := tree.Leaves();
      unread := [];
      NoneUnconsumed(consumed);
      for i := 0 to |leaves|
        invariant unread + Unconsumed(leaves[i..], consumed) == Unconsumed(leaves, consumed)
      {
        NextUnconsumed(leaves, i, consumed);
        if leaves[i].path !in consumed {
          unread := unread + [leaves[i]];
        }
      }
      assert leaves[|leaves|..] == [];
    }

    /** One pass in a context of its own, and what the context learnt. */
    static method RunPass(s: Schema, target: Target, path: string, patches: seq<R.Patch>, skipped: set<string>)
      returns (learnt: R.Log, result: R.Result<Decoded>)
      ensures (learnt, result) == R.Read(R.Plan(patches, path, skipped), s, target, path, R.NOTHING)
    {
      hide R.Read;
      var ctx := new Ctx(patches, path, skipped);
      result := ctx.Deserialize(s, target, path);
      learnt := ctx.Learnt();
    }

    /** The loop of passes: it ends with one that learns nothing new, or at the cap. */
    method Passes(s: Schema, path: string) returns (report: Report)
      ensures report == ReportIn(tree.root, s, path)
    {
      hide R.Read, Driven, Located, ReadIn, Unrecorded, Tail, Listed;
      var root := tree.Get(path);
      var target := if root.Some? then At(root.value) else Absent(false, None);
      var patches: seq<R.Patch>, skipped: set<string>, held: seq<Problem>, missing: seq<Problem> := [], {}, [], [];
      var consumed: set<string>, value: Option<Decoded>, found: seq<Problem>, settled := {}, None, [], false;
      ghost var rd := ReadIn(tree.root, s, path);
      var pass, ended := 0, false;
      while !ended
        invariant pass <= MAX_PASSES
        invariant !ended ==> value.None? && found == [] && !settled
        invariant !ended ==> Driven(rd, START, 0) == Driven(rd, State(patches, skipped, held, missing, consumed), pass)
        invariant ended ==> Driven(rd, START, 0) == Report(held + found + missing, value, settled, consumed)
        decreases MAX_PASSES - pass, !ended
      {
        var ctx, result := RunPass(s, target, path, patches, skipped);
        VisitIs(tree.root, s, path, patches, skipped);
        ghost var st := State(patches, skipped, held, missing, consumed);
        consumed := consumed + ctx.consumed;
        var patch, failed := ctx.patch, ctx.failed;
        var fails := result.Err? && patch.None? && failed.Some?;
        var asks := result.Err? && patch.Some? && patch.value.patch !in patches;
        if (fails || asks) && pass == MAX_PASSES {
          // One pass more than additions: this one tells a full report from a cut one.
          DrivenCut(rd, st, ctx, result);
          assert held + [] + missing == held + missing;
          ended := true;
        } else if fails {
          var section := failed.value.section;
          var there := tree.Get(section);
          var origin := if there.Some? then Some(there.value.origin) else None;
          OriginIs(tree.root, s, path, section);
          DrivenFails(rd, st, pass, ctx, result);
          held := held + (Tail(ctx.problems, failed.value.start) + Unrecorded(result.error, section, origin));
          skipped := skipped + {section};
          pass := pass + 1;
        } else if asks {
          DrivenAsks(rd, st, pass, ctx, result);
          patches := patches + [patch.value.patch];
          missing := missing + Listed(patch.value.problem);
          pass := pass + 1;
        } else if result.Ok? {
          DrivenSettles(rd, st, pass, ctx, result);
          missing := missing + if patch.Some? then Listed(patch.value.problem) else [];
          value, found, settled, ended := Some(result.value), ctx.problems, true, true;
        } else {
          DrivenSettles(rd, st, pass, ctx, result);
          found := ctx.problems + Unrecorded(result.error, path, if root.Some? then Some(root.value.origin) else None);
          settled, ended := true, true;
        }
      }
      report := Report(held + found + missing, value, settled, consumed);
    }

    /** The answer for one section: a value, or a list of what is wrong. */
    method Section(s: Schema, path: string) returns (outcome: Outcome)
      modifies this`consumed
      ensures var report := ReportIn(tree.root, s, path);
              && outcome == OutcomeOf(failures, report, path)
              && consumed == old(consumed) + report.consumed
    {
      hide ReportIn;
      var report := Passes(s, path);
      var problems := FailureList();
      problems := problems + report.problems;
      if !report.settled {
        problems := problems + [Problem("", None, Truncated(|problems|))];
      }
      MarkConsumed(report.consumed);
      if report.value.Some? && problems == [] {
        outcome := Valid(report.value.value);
      } else {
        if problems == [] {
          problems := [Problem(path, None, CouldNotRead)];
        }
        outcome := Invalid(problems);
      }
    }

    method FailureList() returns (problems: seq<Problem>)
      ensures problems == FailureProblems(failures)
    {
      problems := [];
      for i := 0 to |failures|
        invariant problems + FailureProblems(failures[i..]) == FailureProblems(failures)
      {
        assert failures[i..][1..] == failures[i + 1..];
        problems := problems + Attributed(failures[i]);
      }
    }
  }

  lemma VisitIs(root: Option<Node>, s: Schema, path: string, patches: seq<R.Patch>, skipped: set<string>)
    ensures ReadIn(root, s, path).visit(patches, skipped) ==
              R.Read(R.Plan(patches, path, skipped), s, TargetAt(root, path), path, R.NOTHING)
    ensures ReadIn(root, s, path).path == path && ReadIn(root, s, path).origin == OriginOf(TargetAt(root, path))
  {
    hide R.Read, TargetAt;
  }

  lemma OriginIs(root: Option<Node>, s: Schema, path: string, section: string)
    ensures ReadIn(root, s, path).whereabouts(section) ==
            if FoundAt(root, section).Some? then Some(FoundAt(root, section).value.origin) else None
  {
    hide R.Read, Located;
  }

  /** One pass of the driver, case by case. */
  lemma DrivenCut(rd: Reading, st: State, log: R.Log, r: R.Result<Decoded>)
    requires rd.visit(st.patches, st.skipped) == (log, r) && r.Err?
    requires (log.patch.None? && log.failed.Some?) || (log.patch.Some? && log.patch.value.patch !in st.patches)
    ensures Driven(rd, st, MAX_PASSES) == Report(st.held + st.missing, None, false, st.consumed + log.consumed)
  {
  }

  lemma DrivenFails(rd: Reading, st: State, pass: nat, log: R.Log, r: R.Result<Decoded>)
    requires pass < MAX_PASSES && rd.visit(st.patches, st.skipped) == (log, r) && r.Err? && log.patch.None? &&
             log.failed.Some?
    ensures var section := log.failed.value.section;
            var found := Tail(log.problems, log.failed.value.start) +
              Unrecorded(r.error, section, rd.whereabouts(section));
            Driven(rd, st, pass) ==
              Driven(rd, State(st.patches, st.skipped + {section}, st.held + found, st.missing,
                st.consumed + log.consumed), pass + 1)
  {
  }

  lemma DrivenAsks(rd: Reading, st: State, pass: nat, log: R.Log, r: R.Result<Decoded>)
    requires pass < MAX_PASSES && rd.visit(st.patches, st.skipped) == (log, r)
    requires r.Err? && log.patch.Some? && log.patch.value.patch !in st.patches
    ensures Driven(rd, st, pass) ==
              Driven(rd, State(st.patches + [log.patch.value.patch], st.skipped, st.held,
                               st.missing + Listed(log.patch.value.problem), st.consumed + log.consumed), pass + 1)
  {
  }

  lemma DrivenSettles(rd: Reading, st: State, pass: nat, log: R.Log, r: R.Result<Decoded>)
    requires pass <= MAX_PASSES && rd.visit(st.patches, st.skipped) == (log, r)
    requires r.Err? ==> if log.patch.Some? then log.patch.value.patch in st.patches else log.failed.None?
    ensures Driven(rd, st, pass) ==
            if r.Ok? then
              var asked := if log.patch.Some? then Listed(log.patch.value.problem) else [];
              Report(st.held + log.problems + (st.missing + asked), Some(r.value), true, st.consumed + log.consumed)
            else
              Report(st.held + (log.problems + Unrecorded(r.error, rd.path, rd.origin)) + st.missing, None, true,
                st.consumed + log.consumed)
  {
  }

  lemma NoneUnconsumed(consumed: set<string>)
    ensures Unconsumed([], consumed) == []
  {
  }

  lemma NextUnconsumed(leaves: seq<Leaf>, i: nat, consumed: set<string>)
    requires i < |leaves|
    ensures Unconsumed(leaves[i..], consumed) ==
            (if leaves[i].path in consumed then [] else [leaves[i]]) + Unconsumed(leaves[i + 1..], consumed)
  {
    assert leaves[i..][1..] == leaves[i + 1..];
  }

  function Unconsumed(leaves: seq<Leaf>, consumed: set<string>): seq<Leaf> {
    if leaves == [] then []
    else (if leaves[0].path in consumed then [] else [leaves[0]]) + Unconsumed(leaves[1..], consumed)
  }
}
