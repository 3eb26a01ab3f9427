/** The pass driver, for any type's read. */
module Drivers {
  // A read is run again with one more field supplied or one more section set aside, until a pass adds
  // nothing or the cap is reached.

  import opened Options
  import opened Trees
  import opened Schemas
  import opened Reader

  const MAX_PASSES: nat := 2048

  /** What one pass over a type does, given the fields supplied and the sections set aside. */
  type Visit = (seq<Patch>, set<string>) -> (Log, Result<Decoded>)

  /** A read: its passes, its path and origin, and where the tree has each section. */
  datatype Reading = Reading(visit: Visit, path: string, origin: Option<Origin>, whereabouts: string -> Option<Origin>)

  datatype State = State(
    patches: seq<Patch>,
    skipped: set<string>,
    held: seq<Problem>,         // of the sections set aside
    missing: seq<Problem>,      // of the fields supplied
    consumed: set<string>)

  const START := State([], {}, [], [], {})

  /** What a pass comes to. */
  datatype Turn =
    | Adds(next: State)
    | Settles(report: Report)

  datatype Report = Report(problems: seq<Problem>, value: Option<Decoded>, settled: bool, consumed: set<string>)

  function Tail(problems: seq<Problem>, start: nat): seq<Problem> {
    if start <= |problems| then problems[start..] else []
  }

  function Listed(p: Option<Problem>): seq<Problem> {
    if p.Some? then [p.value] else []
  }

  function Unrecorded(e: DeError, path: string, origin: Option<Origin>): seq<Problem> {
    if e.recorded then [] else [Problem(path, origin, Refused)]
  }

  function TurnOf(rd: Reading, st: State): Turn {
    var (log, r) := rd.visit(st.patches, st.skipped);
    var consumed := st.consumed + log.consumed;
    if r.Err? && log.patch.None? && log.failed.Some? then
      var section := log.failed.value.section;
      var found := Tail(log.problems, log.failed.value.start) + Unrecorded(r.error, section, rd.whereabouts(section));
      Adds(State(st.patches, st.skipped + {section}, st.held + found, st.missing, consumed))
    else if r.Err? && log.patch.Some? && log.patch.value.patch !in st.patches then
      Adds(State(st.patches + [log.patch.value.patch], st.skipped, st.held,
        st.missing + Listed(log.patch.value.problem), consumed))
    else if r.Ok? then
      var missing := st.missing + if log.patch.Some? then Listed(log.patch.value.problem) else [];
      Settles(Report(st.held + log.problems + missing, Some(r.value), true, consumed))
    else
      Settles(Report(st.held + (log.problems + Unrecorded(r.error, rd.path, rd.origin)) + st.missing, None,
        true, consumed))
  }

  /**
   * The report from pass `pass` on: one pass more than additions, so that the last tells a full
   * report from a cut one.
   */
  function Driven(rd: Reading, st: State, pass: nat): Report
    requires pass <= MAX_PASSES
    decreases MAX_PASSES - pass
  {
    match TurnOf(rd, st)
    case Settles(report) => report
    case Adds(next) =>
      if pass == MAX_PASSES then Report(st.held + st.missing, None, false, next.consumed)
      else Driven(rd, next, pass + 1)
  }

  // ---- For any type ----

  /** `n` passes in a row add something. */
  predicate AddsFor(rd: Reading, st: State, n: nat)
    decreases n
  {
    n == 0 || (TurnOf(rd, st).Adds? && AddsFor(rd, TurnOf(rd, st).next, n - 1))
  }

  function After(rd: Reading, st: State, n: nat): State
    requires AddsFor(rd, st, n)
    decreases n
  {
    if n == 0 then st else After(rd, TurnOf(rd, st).next, n - 1)
  }

  /** A report is cut exactly when one more addition than the cap allows was pending. */
  lemma {:induction false} CutExactlyPastTheCap(rd: Reading, st: State, pass: nat)
    requires pass <= MAX_PASSES
    ensures !Driven(rd, st, pass).settled <==> AddsFor(rd, st, MAX_PASSES + 1 - pass)
    decreases MAX_PASSES - pass
  {
    hide TurnOf;
    SettledSays(rd, st);
    match TurnOf(rd, st)
    case Settles(report) =>
    case Adds(next) =>
      if pass == MAX_PASSES {
        assert AddsFor(rd, next, 0);
      } else {
        CutExactlyPastTheCap(rd, next, pass + 1);
      }
  }

  lemma SettledSays(rd: Reading, st: State)
    ensures TurnOf(rd, st).Settles? ==> TurnOf(rd, st).report.settled
  {
  }

  predicate DistinctPatches(patches: seq<Patch>) {
    forall i, j | 0 <= i < j < |patches| :: patches[i] != patches[j]
  }

  /** A pass that sets a section aside names one not set aside before. */
  ghost predicate NamesFresh(visit: Visit) {
    forall patches, skipped {:trigger visit(patches, skipped)} ::
      visit(patches, skipped).0.failed.Some? ==> visit(patches, skipped).0.failed.value.section !in skipped
  }

  /** Each pass but the last adds one field not yet supplied or one section not yet set aside. */
  lemma EachPassAdds(rd: Reading, st: State)
    requires NamesFresh(rd.visit) && TurnOf(rd, st).Adds?
    ensures var next := TurnOf(rd, st).next;
            || (next.skipped == st.skipped && exists p | p !in st.patches :: next.patches == st.patches + [p])
            || (next.patches == st.patches && exists q | q !in st.skipped :: next.skipped == st.skipped + {q})
  {
    var (log, r) := rd.visit(st.patches, st.skipped);
    var next := TurnOf(rd, st).next;
    if log.patch.None? {
      assert next.skipped == st.skipped + {log.failed.value.section};
    } else {
      assert next.patches == st.patches + [log.patch.value.patch];
    }
  }

  /** So after `n` additions there are `n` of them, each once: the passes end by the cap. */
  lemma {:induction false} AdditionsCount(rd: Reading, st: State, n: nat)
    requires NamesFresh(rd.visit) && AddsFor(rd, st, n) && DistinctPatches(st.patches)
    ensures var after := After(rd, st, n);
            && |after.patches| + |after.skipped| == |st.patches| + |st.skipped| + n
            && DistinctPatches(after.patches)
    decreases n
  {
    hide TurnOf;
    if n > 0 {
      EachPassAdds(rd, st);
      AdditionsCount(rd, TurnOf(rd, st).next, n - 1);
    }
  }
}
