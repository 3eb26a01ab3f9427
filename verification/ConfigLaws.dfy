/** What a caller of the configuration can rely on. */
module ConfigLaws {
  import opened Options
  import opened Trees
  import opened TreeLaws
  import opened Schemas
  import opened Meanings
  import opened CleanReads
  import opened CleanKeys
  import opened Drivers
  import opened FreshReads
  import opened ReportLaws
  import S = Sections
  import opened Checks
  import opened RefusalLaws
  import opened ValueLaws
  import opened Configs
  import opened Consumption
  import opened Marks

  // ---- What a section answers ----

  /**
   * For a tree no two of whose tables print one path. Within the cap a section answers a value
   * exactly when neither a source nor the whole read reports a problem, and otherwise its problems are
   * those of the sources and of the whole read. Past the cap it answers some of them and the notice.
   * The answer that names no problem is never given.
   */
  lemma SectionAnswers(root: Option<Node>, failures: seq<SourceFailure>, s: Schema, path: string)
    requires CleanRead(s, TargetAt(root, path), path)
    ensures var outcome := OutcomeOf(failures, ReportIn(root, s, path), path);
            var told := WholeReport(s, TargetAt(root, path), path);
            if Needed(s, TargetAt(root, path), path) <= MAX_PASSES then
              && (outcome.Valid? <==> FailureProblems(failures) == [] && told == [])
              && (outcome.Invalid? ==>
                multiset(outcome.problems) == multiset(FailureProblems(failures)) + multiset(told))
            else
              outcome.Invalid? && Noticed(outcome.problems, multiset(FailureProblems(failures)) + multiset(told))
  {
    hide CleanRead, Needed, WholeReport, Driven, S.Whole, TargetAt, FailureProblems, OutcomeOf, Noticed;
    var t := TargetAt(root, path);
    assert !Silent(t) by { NotSilent(root, path); }
    SectionReport(s, t, path, OriginsIn(root));
    if Needed(s, t, path) <= MAX_PASSES {
      if WholeReport(s, t, path) == [] {
        SilenceIsSuccess(s, t, path);
      }
      SettledAnswers(failures, ReportIn(root, s, path), path, WholeReport(s, t, path));
    } else {
      CutAnswers(failures, ReportIn(root, s, path), path, WholeReport(s, t, path));
    }
  }

  /** Some of `all`, then the notice that says how many. */
  predicate Noticed(problems: seq<Problem>, all: multiset<Problem>) {
    && problems != []
    && problems[|problems| - 1] == Problem("", None, Truncated(|problems| - 1))
    && multiset(problems[..|problems| - 1]) <= all
  }

  lemma SettledAnswers(failures: seq<SourceFailure>, report: Report, path: string, told: seq<Problem>)
    requires report.settled && multiset(report.problems) == multiset(told) && (told == [] ==> report.value.Some?)
    ensures var outcome := OutcomeOf(failures, report, path);
            && (outcome.Valid? <==> FailureProblems(failures) == [] && told == [])
            && (outcome.Invalid? ==> multiset(outcome.problems) == multiset(FailureProblems(failures)) + multiset(told))
  {
    hide FailureProblems;
    EmptyIsEmpty(report.problems, told);
    assert multiset(FailureProblems(failures) + report.problems) ==
      multiset(FailureProblems(failures)) + multiset(report.problems);
  }

  lemma CutAnswers(failures: seq<SourceFailure>, report: Report, path: string, told: seq<Problem>)
    requires !report.settled && multiset(report.problems) <= multiset(told)
    ensures var outcome := OutcomeOf(failures, report, path);
            outcome.Invalid? && Noticed(outcome.problems, multiset(FailureProblems(failures)) + multiset(told))
  {
    hide FailureProblems;
    var listed := FailureProblems(failures) + report.problems;
    assert multiset(listed) == multiset(FailureProblems(failures)) + multiset(report.problems);
    assert (listed + [Problem("", None, Truncated(|listed|))])[..|listed|] == listed;
  }

  /** The value a section answers is the one the tree holds; with nothing there, the one its type makes of nothing. */
  lemma SectionValue(root: Option<Node>, failures: seq<SourceFailure>, s: Schema, path: string)
    requires CleanRead(s, TargetAt(root, path), path)
    ensures var outcome := OutcomeOf(failures, ReportIn(root, s, path), path);
            outcome.Valid? ==>
              if FoundAt(root, path).Some? then Represents(s, outcome.value, FoundAt(root, path).value)
              else Vacant(s, outcome.value)
  {
    hide UniqueRead, Apart, Places, Needed, WholeReport, Driven, S.Whole, FoundAt, Represents, Vacant, FailureProblems;
    var t := TargetAt(root, path);
    SectionAnswers(root, failures, s, path);
    SectionReport(s, t, path, OriginsIn(root));
    if OutcomeOf(failures, ReportIn(root, s, path), path).Valid? {
      if FoundAt(root, path).Some? {
        WholeIsTrue(s, t.node, path);
      } else {
        WholeIsVacant(s, t, path);
      }
    }
  }

  lemma NotSilent(root: Option<Node>, path: string)
    ensures !Silent(TargetAt(root, path))
  {
  }

  lemma EmptyIsEmpty<T>(a: seq<T>, b: seq<T>)
    requires multiset(a) == multiset(b)
    ensures a == [] <==> b == []
  {
    if a != [] {
      assert a[0] in multiset(b);
    }
    if b != [] {
      assert b[0] in multiset(a);
    }
  }

  /** The same against the one-pass checker, for a type that refuses nothing. */
  lemma PlainSectionAnswers(root: Option<Node>, failures: seq<SourceFailure>, s: Schema, path: string)
    requires Plain(s) && CleanRead(s, TargetAt(root, path), path)
    ensures var outcome := OutcomeOf(failures, ReportIn(root, s, path), path);
            var problems := Check(s, TargetAt(root, path), path);
            if Lacking(s, TargetAt(root, path)) <= MAX_PASSES then
              && (outcome.Valid? <==> FailureProblems(failures) == [] && problems == [])
              && (outcome.Invalid? ==>
                multiset(outcome.problems) == multiset(FailureProblems(failures)) + multiset(problems))
            else
              outcome.Invalid? && Noticed(outcome.problems, multiset(FailureProblems(failures)) + multiset(problems))
    ensures Nameable(s, TargetAt(root, path)) ==> DistinctPaths(Check(s, TargetAt(root, path), path))
  {
    hide UniqueRead, Apart, Places, Plain, Needed, WholeReport, Lacking, Check, Driven, S.Whole, TargetAt, OutcomeOf,
      DistinctPaths, Nameable, FailureProblems, Noticed;
    var t := TargetAt(root, path);
    PlainWhole(s, t, path);
    SectionAnswers(root, failures, s, path);
    EmptyIsEmpty(WholeReport(s, t, path), Check(s, t, path));
    if Nameable(s, t) {
      EachOnce(s, t, path);
    }
  }

  // ---- The notice of a cut report ----

  /** For any type: the report ends with the notice exactly when a 2049th addition was pending. */
  lemma NoticeExactlyPastTheCap(failures: seq<SourceFailure>, rd: Reading)
    requires QuietVisits(rd.visit) && Quiet(FailureProblems(failures))
    ensures var problems := ProblemsOf(failures, Driven(rd, START, 0));
            if AddsFor(rd, START, 2049) then
              problems != [] && problems[|problems| - 1] == Problem("", None, Truncated(|problems| - 1)) &&
              Quiet(problems[..|problems| - 1])
            else Quiet(problems)
  {
    hide Driven, AddsFor;
    CutExactlyPastTheCap(rd, START, 0);
    DrivenQuiet(rd, START, 0);
    var report := Driven(rd, START, 0);
    var listed := FailureProblems(failures) + report.problems;
    if !report.settled {
      assert ProblemsOf(failures, report)[..|listed|] == listed;
    }
  }

  lemma SectionNotice(failures: seq<SourceFailure>, root: Option<Node>, s: Schema, path: string)
    requires Quiet(FailureProblems(failures))
    ensures var problems := ProblemsOf(failures, ReportIn(root, s, path));
            problems != [] && problems[|problems| - 1].message.Truncated? <==>
            AddsFor(ReadIn(root, s, path), START, 2049)
  {
    hide Driven, AddsFor, ProblemsOf;
    PassesAreQuiet(s, TargetAt(root, path), path);
    NoticeExactlyPastTheCap(failures, ReadIn(root, s, path));
  }

  // ---- The unread report ----

  /** Everything the self-describing reads of the sections at `paths` marked. */
  function MarkedBy(root: Option<Node>, paths: seq<string>): set<string> {
    if paths == [] then {} else MarkedBy(root, paths[..|paths| - 1]) + ReportIn(root, SAny, paths[|paths| - 1]).consumed
  }

  predicate MarksOne(root: Option<Node>, paths: seq<string>, q: string) {
    exists i | 0 <= i < |paths| :: q in Consumption.Under(TargetAt(root, paths[i]), paths[i])
  }

  lemma {:induction false} MarkedByOne(root: Option<Node>, paths: seq<string>, q: string)
    ensures q in MarkedBy(root, paths) <==> MarksOne(root, paths, q)
  {
    hide TargetAt, Consumption.Under, Driven, MarksOne;
    if paths == [] {
      assert !MarksOne(root, [], q) by { NoneMarks(root, q); }
    } else {
      var n := |paths| - 1;
      MarkedByOne(root, paths[..n], q);
      DrivenTakes(TargetAt(root, paths[n]), paths[n], OriginsIn(root));
      LastMarks(root, paths, q);
    }
  }

  lemma NoneMarks(root: Option<Node>, q: string)
    ensures !MarksOne(root, [], q)
  {
  }

  lemma LastMarks(root: Option<Node>, paths: seq<string>, q: string)
    requires paths != []
    ensures var n := |paths| - 1;
            MarksOne(root, paths, q) <==>
              MarksOne(root, paths[..n], q) || q in Consumption.Under(TargetAt(root, paths[n]), paths[n])
  {
    hide TargetAt, Consumption.Under;
    var n := |paths| - 1;
    if MarksOne(root, paths[..n], q) {
      var i :| 0 <= i < n && q in Consumption.Under(TargetAt(root, paths[..n][i]), paths[..n][i]);
      assert paths[..n][i] == paths[i];
    }
    if MarksOne(root, paths, q) {
      var i :| 0 <= i < |paths| && q in Consumption.Under(TargetAt(root, paths[i]), paths[i]);
      assert i < n ==> paths[..n][i] == paths[i];
    }
  }

  /** A path that names a node is spelled as the tree prints it. */
  predicate Spelled(root: Node, path: string) {
    Located(root, path).Some? ==> Canonical(root, path)
  }

  /** The section at `path` stands at or above `address`. */
  predicate Reaches(root: Node, path: string, address: seq<Step>) {
    Located(root, path).Some? && Located(root, path).value.address <= address
  }

  /** In a clean tree, a read of a section spelled as the tree prints it marks exactly the leaves under it. */
  lemma MarksWhatItReaches(root: Node, path: string, k: nat)
    requires CleanTree(root) && Spelled(root, path)
    requires k < |LeavesOf(root, "")| && k < |ScalarAddresses(root)|
    ensures LeavesOf(root, "")[k].path in Consumption.Under(TargetAt(Some(root), path), path) <==>
            Reaches(root, path, ScalarAddresses(root)[k])
  {
    hide Located, LeavesOf, CleanTree;
    var address := ScalarAddresses(root)[k];
    LeavesStand(root, "");
    assert LeafStands(root, "", address, LeavesOf(root, "")[k]);
    if Located(root, path).Some? {
      var spot := Located(root, path).value;
      LocatedIsClean(root, path);
      if spot.address <= address {
        ReachedIsMarked(root, path, spot, address);
      }
      if PathFrom(root, "", address) in Consumption.Under(At(spot.node), path) {
        MarkedIsReached(root, path, spot, address);
      }
    }
  }

  lemma ReachedIsMarked(root: Node, path: string, spot: Spot, address: seq<Step>)
    requires ValidAddress(root, spot.address) && NodeAt(root, spot.address) == spot.node &&
             path == PathFrom(root, "", spot.address)
    requires ValidAddress(root, address) && IsScalar(NodeAt(root, address)) && spot.address <= address
    ensures PathFrom(root, "", address) in Consumption.Under(At(spot.node), path)
  {
    hide LeavesOf;
    var below := address[|spot.address|..];
    assert address == spot.address + below;
    AddressSplit(root, spot.address, below);
    PathBelow(root, "", spot.address, below);
    LeavesStand(spot.node, path);
    EveryScalarListed(spot.node, below);
    var k :| 0 <= k < |ScalarAddresses(spot.node)| && ScalarAddresses(spot.node)[k] == below;
    assert LeafStands(spot.node, path, below, LeavesOf(spot.node, path)[k]);
  }

  lemma {:induction false} AddressSplit(root: Node, above: seq<Step>, below: seq<Step>)
    requires ValidAddress(root, above) && ValidAddress(root, above + below)
    ensures ValidAddress(NodeAt(root, above), below)
    decreases |above|
  {
    if above == [] {
      assert above + below == below;
    } else {
      assert (above + below)[1..] == above[1..] + below;
      match above[0]
      case Into(i) => AddressSplit(root.value.entries[i].node, above[1..], below);
      case Item(i) => AddressSplit(root.value.items[i], above[1..], below);
    }
  }

  lemma MarkedIsReached(root: Node, path: string, spot: Spot, address: seq<Step>)
    requires CleanTree(root) && ValidAddress(root, spot.address) && NodeAt(root, spot.address) == spot.node &&
             path == PathFrom(root, "", spot.address)
    requires ValidAddress(root, address) && PathFrom(root, "", address) in Consumption.Under(At(spot.node), path)
    ensures spot.address <= address
  {
    hide LeavesOf, CleanTree;
    LeavesStand(spot.node, path);
    var k :| 0 <= k < |LeavesOf(spot.node, path)| && LeavesOf(spot.node, path)[k].path == PathFrom(root, "", address);
    var below := ScalarAddresses(spot.node)[k];
    assert LeafStands(spot.node, path, below, LeavesOf(spot.node, path)[k]);
    PathBelow(root, "", spot.address, below);
    CleanTreeCleanAddress(root, address);
    CleanTreeCleanAddress(root, spot.address + below);
    PrintedPathsDistinct(root, address, spot.address + below);
  }

  lemma {:induction false} UnconsumedAre(leaves: seq<Leaf>, consumed: set<string>, leaf: Leaf)
    ensures leaf in Unconsumed(leaves, consumed) <==> leaf in leaves && leaf.path !in consumed
  {
    if leaves != [] {
      UnconsumedAre(leaves[1..], consumed, leaf);
    }
  }

  lemma {:induction false} UnconsumedAppend(a: seq<Leaf>, b: seq<Leaf>, consumed: set<string>)
    ensures Unconsumed(a + b, consumed) == Unconsumed(a, consumed) + Unconsumed(b, consumed)
  {
    if a == [] {
      assert a + b == b;
    } else {
      assert (a + b)[1..] == a[1..] + b && (a + b)[0] == a[0];
      UnconsumedAppend(a[1..], b, consumed);
    }
  }

  /** The unread leaves keep their order, and each comes as often as it was a leaf. */
  lemma UnreadInOrder(before: seq<Leaf>, leaf: Leaf, after: seq<Leaf>, consumed: set<string>)
    ensures Unconsumed(before + [leaf] + after, consumed) ==
            Unconsumed(before, consumed) + (if leaf.path in consumed then [] else [leaf]) + Unconsumed(after, consumed)
  {
    hide Unconsumed;
    UnconsumedAppend(before + [leaf], after, consumed);
    UnconsumedAppend(before, [leaf], consumed);
    OneUnconsumed(leaf, consumed);
  }

  lemma OneUnconsumed(leaf: Leaf, consumed: set<string>)
    ensures Unconsumed([leaf], consumed) == if leaf.path in consumed then [] else [leaf]
  {
    assert [leaf][1..] == [];
  }

  /**
   * After self-describing reads of sections spelled as the tree prints them, the unread report lists
   * exactly the leaves that no section read stands at or above.
   */
  lemma UnreadAreUnreached(root: Node, paths: seq<string>, k: nat)
    requires CleanTree(root) && forall i | 0 <= i < |paths| :: Spelled(root, paths[i])
    requires k < |LeavesOf(root, "")| && k < |ScalarAddresses(root)|
    ensures LeavesOf(root, "")[k] in Unconsumed(TreeLeaves(Some(root)), MarkedBy(Some(root), paths)) <==>
            forall i | 0 <= i < |paths| :: !Reaches(root, paths[i], ScalarAddresses(root)[k])
  {
    hide Located, LeavesOf, CleanTree, MarkedBy, TargetAt, Consumption.Under, Reaches, Unconsumed;
    var leaf := LeavesOf(root, "")[k];
    UnconsumedAre(TreeLeaves(Some(root)), MarkedBy(Some(root), paths), leaf);
    MarkedByOne(Some(root), paths, leaf.path);
    forall i | 0 <= i < |paths|
      ensures leaf.path in Consumption.Under(TargetAt(Some(root), paths[i]), paths[i]) <==>
              Reaches(root, paths[i], ScalarAddresses(root)[k])
    {
      MarksWhatItReaches(root, paths[i], k);
    }
  }

  // ---- The unread report of typed sections ----

  /** A section read with a type. */
  datatype Typed = Typed(schema: Schema, path: string)

  /** Everything the reads marked. */
  function MarkedIn(root: Option<Node>, sections: seq<Typed>): set<string> {
    if sections == [] then {}
    else
      var last := sections[|sections| - 1];
      MarkedIn(root, sections[..|sections| - 1]) + ReportIn(root, last.schema, last.path).consumed
  }

  /** The section stands at or above `address`, and its type reads the leaf there. */
  predicate KnowsAt(root: Node, section: Typed, address: seq<Step>) {
    && Reaches(root, section.path, address)
    && var spot := Located(root, section.path).value;
       var below := address[|spot.address|..];
       ValidAddress(spot.node, below) && Knows(section.schema, spot.node, below)
  }

  /** In a clean tree, the leaves a section's type reads are those its address says. */
  lemma KnownByAddress(root: Node, section: Typed, k: nat)
    requires CleanTree(root) && Spelled(root, section.path)
    requires k < |LeavesOf(root, "")| && k < |ScalarAddresses(root)|
    ensures LeavesOf(root, "")[k].path in Known(section.schema, TargetAt(Some(root), section.path), section.path) <==>
            KnowsAt(root, section, ScalarAddresses(root)[k])
  {
    hide Located, LeavesOf, CleanTree, Known, Knows;
    var address := ScalarAddresses(root)[k];
    LeavesStand(root, "");
    assert LeafStands(root, "", address, LeavesOf(root, "")[k]);
    if Located(root, section.path).Some? {
      var spot := Located(root, section.path).value;
      LocatedIsClean(root, section.path);
      if KnowsAt(root, section, address) {
        ToldIsKnown(root, section, spot, address);
      }
      if PathFrom(root, "", address) in Known(section.schema, At(spot.node), section.path) {
        KnownIsTold(root, section, spot, address);
      }
    } else {
      NothingKnown(section.schema, TargetAt(Some(root), section.path), section.path);
    }
  }

  lemma ToldIsKnown(root: Node, section: Typed, spot: Spot, address: seq<Step>)
    requires ValidAddress(root, spot.address) && NodeAt(root, spot.address) == spot.node
    requires section.path == PathFrom(root, "", spot.address)
    requires ValidAddress(root, address) && IsScalar(NodeAt(root, address)) && spot.address <= address
    requires var below := address[|spot.address|..];
             ValidAddress(spot.node, below) && Knows(section.schema, spot.node, below)
    ensures PathFrom(root, "", address) in Known(section.schema, At(spot.node), section.path)
  {
    hide Known, Knows;
    var below := address[|spot.address|..];
    assert address == spot.address + below;
    PathBelow(root, "", spot.address, below);
    AddressIsKnown(section.schema, spot.node, section.path, below);
  }

  lemma KnownIsTold(root: Node, section: Typed, spot: Spot, address: seq<Step>)
    requires CleanTree(root) && ValidAddress(root, spot.address) && NodeAt(root, spot.address) == spot.node
    requires section.path == PathFrom(root, "", spot.address) && ValidAddress(root, address)
    requires PathFrom(root, "", address) in Known(section.schema, At(spot.node), section.path)
    ensures spot.address <= address
    ensures var below := address[|spot.address|..];
            ValidAddress(spot.node, below) && Knows(section.schema, spot.node, below)
  {
    hide Known, Knows, CleanTree;
    var below := KnownHasAddress(section.schema, spot.node, section.path, PathFrom(root, "", address));
    PathBelow(root, "", spot.address, below);
    CleanTreeCleanAddress(root, address);
    CleanTreeCleanAddress(root, spot.address + below);
    PrintedPathsDistinct(root, address, spot.address + below);
    assert address[|spot.address|..] == below;
  }

  predicate ReadEnds(root: Node, section: Typed) {
    Ends(section.schema, TargetAt(Some(root), section.path), section.path)
  }

  predicate Reports(root: Option<Node>, section: Typed, q: string) {
    q in ReportIn(root, section.schema, section.path).consumed
  }

  predicate OneReports(root: Option<Node>, sections: seq<Typed>, q: string) {
    exists i | 0 <= i < |sections| :: Reports(root, sections[i], q)
  }

  lemma {:induction false} MarkedInOne(root: Option<Node>, sections: seq<Typed>, q: string)
    ensures q in MarkedIn(root, sections) <==> OneReports(root, sections, q)
  {
    hide ReportIn, OneReports;
    if sections == [] {
      assert !OneReports(root, [], q) by { NoneReports(root, q); }
    } else {
      MarkedInOne(root, sections[..|sections| - 1], q);
      LastReports(root, sections, q);
    }
  }

  lemma NoneReports(root: Option<Node>, q: string)
    ensures !OneReports(root, [], q)
  {
  }

  lemma LastReports(root: Option<Node>, sections: seq<Typed>, q: string)
    requires sections != []
    ensures var n := |sections| - 1;
            OneReports(root, sections, q) <==> OneReports(root, sections[..n], q) || Reports(root, sections[n], q)
  {
    hide Reports;
    var n := |sections| - 1;
    if OneReports(root, sections[..n], q) {
      var i :| 0 <= i < n && Reports(root, sections[..n][i], q);
      assert sections[..n][i] == sections[i];
    }
    if OneReports(root, sections, q) {
      var i :| 0 <= i < |sections| && Reports(root, sections[i], q);
      assert i < n ==> sections[..n][i] == sections[i];
    }
  }

  /** A leaf that the type of the section read knows, and no other leaf, is marked by a read that ends. */
  lemma MarksWhatItKnows(root: Node, section: Typed, k: nat)
    requires CleanTree(root) && Spelled(root, section.path)
    requires k < |LeavesOf(root, "")| && k < |ScalarAddresses(root)|
    ensures Reports(Some(root), section, LeavesOf(root, "")[k].path) ==>
              KnowsAt(root, section, ScalarAddresses(root)[k])
    ensures ReadEnds(root, section) && KnowsAt(root, section, ScalarAddresses(root)[k]) ==>
              Reports(Some(root), section, LeavesOf(root, "")[k].path)
  {
    hide Located, LeavesOf, CleanTree, Known, Driven, Ends, KnowsAt, TargetAt;
    var t := TargetAt(Some(root), section.path);
    KnownByAddress(root, section, k);
    DrivenKnown(section.schema, t, section.path, OriginsIn(Some(root)), START, 0);
    if Ends(section.schema, t, section.path) {
      DrivenMarks(section.schema, t, section.path, OriginsIn(Some(root)));
    }
  }

  /**
   * After reads of any sections with any types, spelled as the tree prints them, a leaf no type reads is
   * in the unread report; and if every read ends, the report lists no others.
   */
  lemma UnreadAreUnknown(root: Node, sections: seq<Typed>, k: nat)
    requires CleanTree(root)
    requires forall i | 0 <= i < |sections| :: Spelled(root, sections[i].path)
    requires k < |LeavesOf(root, "")| && k < |ScalarAddresses(root)|
    ensures var listed := LeavesOf(root, "")[k] in Unconsumed(TreeLeaves(Some(root)), MarkedIn(Some(root), sections));
            var unknown := forall i | 0 <= i < |sections| :: !KnowsAt(root, sections[i], ScalarAddresses(root)[k]);
            && (unknown ==> listed)
            && ((forall i | 0 <= i < |sections| :: ReadEnds(root, sections[i])) ==> (listed <==> unknown))
  {
    hide Located, LeavesOf, CleanTree, MarkedIn, TargetAt, KnowsAt, Unconsumed, Reports, ReadEnds, Spelled;
    var leaf := LeavesOf(root, "")[k];
    UnconsumedAre(TreeLeaves(Some(root)), MarkedIn(Some(root), sections), leaf);
    MarkedInOne(Some(root), sections, leaf.path);
    forall i | 0 <= i < |sections|
      ensures Reports(Some(root), sections[i], leaf.path) ==> KnowsAt(root, sections[i], ScalarAddresses(root)[k])
      ensures ReadEnds(root, sections[i]) && KnowsAt(root, sections[i], ScalarAddresses(root)[k]) ==>
                Reports(Some(root), sections[i], leaf.path)
    {
      MarksWhatItKnows(root, sections[i], k);
    }
  }

  /** A section that answers a value was read to the end. */
  lemma AnsweredEnds(root: Option<Node>, failures: seq<SourceFailure>, s: Schema, path: string)
    requires CleanRead(s, TargetAt(root, path), path) && OutcomeOf(failures, ReportIn(root, s, path), path).Valid?
    ensures Ends(s, TargetAt(root, path), path)
  {
    hide CleanRead, Needed, WholeReport, Driven, S.Whole, TargetAt, FailureProblems, OutcomeOf, Noticed, Ends;
    NotSilent(root, path);
    SectionAnswers(root, failures, s, path);
    SilentEnds(s, TargetAt(root, path), path);
  }

  /** A path may name a node and not be spelled as the tree prints it: the mark it leaves names no leaf. */
  lemma MarkThatNamesNoLeaf()
    ensures var root := Node(Table([Entry("a", Node(Null, Default))]), Default);
            && CleanTree(root)
            && Located(root, "a.") == Located(root, "a") && Located(root, "a.").Some?
            && ReportIn(Some(root), SAny, "a.").consumed == {"a."}
            && PathsIn(TreeLeaves(Some(root))) == {"a"}
  {
    hide Located, Driven;
    var leaf := Node(Null, Default);
    var root := Node(Table([Entry("a", leaf)]), Default);
    OneSpot(root, leaf);
    DrivenTakes(At(leaf), "a.", OriginsIn(Some(root)));
    OneLeaf(At(leaf), "a.");
    assert ChildAt(root, 0) == leaf && ChildPath(root, "", 0) == "a";
    assert LeavesOf(leaf, "a") == [Leaf("a", leaf)];
    assert LeavesFrom(root, "", 0) == LeavesOf(leaf, "a") + LeavesFrom(root, "", 1);
    assert TreeLeaves(Some(root)) == [Leaf("a", leaf)];
    assert TreeLeaves(Some(root))[0].path == "a";
  }

  lemma OneSpot(root: Node, leaf: Node)
    requires root.value == Table([Entry("a", leaf)])
    ensures Located(root, "a") == Some(Spot(leaf, [Into(0)])) && Located(root, "a.") == Some(Spot(leaf, [Into(0)]))
  {
    var start, spot := Spot(root, []), Spot(leaf, [Into(0)]);
    IndexIs("a", '.', 1);
    SplitAfterDot("a", "");
    assert "a" + "." + "" == "a.";
    assert SplitDots("a.") == ["a", ""];
    IndexIs("a", '[', 1);
    assert "a"[..1] == "a" && "a"[1..] == "";
    assert AtPiece(start, "a") == Some(spot) by {
      assert [] + [Into(0)] == [Into(0)];
    }
    EmptyPiece(spot);
    assert ["a", ""][1..] == [""] && ["a"][1..] == [];
  }
}
