/** What a section read reports. */
module ReportLaws {
  // With enough passes, exactly the problems of the whole read, each section walked alone; with too few,
  // some of them and the notice that says so.

  import opened Options
  import opened Trees
  import opened Schemas
  import opened Reader
  import opened Walks
  import opened Events
  import opened CleanReads
  import opened Simulation
  import P = Passes
  import opened Sections
  import opened Drivers
  import opened FreshReads

  function ReadingOf(s: Schema, t: Target, path: string, whereabouts: string -> Option<Origin>): Reading {
    Reading(PassesOf(s, t, path), path, OriginOf(t), whereabouts)
  }

  function MissingOf(fills: seq<NewPatch>): seq<Problem> {
    if fills == [] then [] else Listed(fills[0].problem) + MissingOf(fills[1..])
  }

  lemma {:induction false} MissingAppend(a: seq<NewPatch>, b: seq<NewPatch>)
    ensures MissingOf(a + b) == MissingOf(a) + MissingOf(b)
  {
    if a == [] {
      assert a + b == b;
    } else {
      assert (a + b)[1..] == a[1..] + b;
      MissingAppend(a[1..], b);
      assert Listed(a[0].problem) + (MissingOf(a[1..]) + MissingOf(b)) ==
        Listed(a[0].problem) + MissingOf(a[1..]) + MissingOf(b);
    }
  }

  /** What events tell of is what they found and the fields they supplied. */
  lemma {:induction false} ReportsAre(events: seq<Event>)
    ensures multiset(Reports(events)) == multiset(Founds(events)) + multiset(MissingOf(Fills(events)))
  {
    if events != [] {
      ReportsAre(events[1..]);
      var e := events[0];
      MissingAppend(FillOf(e), Fills(events[1..]));
      assert e.Fill? ==> [e.supplied][1..] == [];
      assert MissingOf(FillOf(e)) == if e.Fill? then Listed(e.supplied.problem) else [];
      assert ReportOf(e) == FoundOf(e) + MissingOf(FillOf(e));
    }
  }

  // ---- How many additions a read needs ----

  function Needed(s: Schema, t: Target, path: string): nat {
    var whole := Whole(s, t, path);
    |Fills(whole.events)| + Refusals(Core(s), t, path, 0) + if whole.end.Stop? && whole.end.section.Some? then 1 else 0
  }

  /** Every problem of the whole read, a refusal of the root type included. */
  function WholeReport(s: Schema, t: Target, path: string): seq<Problem> {
    var whole := Whole(s, t, path);
    Reports(whole.events) + if whole.end.Stop? && !whole.end.recorded then [Problem(path, OriginOf(t), Refused)] else []
  }

  // ---- Where the driver stands ----

  predicate OnlySections(s: Schema, t: Target, path: string, skip: set<string>) {
    forall q | q in skip ::
      exists i | 0 <= i < |EntriesOf(t)| :: Reads(s, EntriesOf(t)[i].key) && PathAt(t, path, i) == q
  }

  /** The sections set aside are sections, each ended by a refusal. */
  predicate Sound(s: Schema, t: Target, path: string, skip: set<string>) {
    CleanRead(s, t, path) && AllRefuse(Core(s), t, path, skip) && OnlySections(Core(s), t, path, skip)
  }

  /** The fields supplied are the first `m` the walk without the sections set aside asks for. */
  ghost predicate Stands(s: Schema, t: Target, path: string, patches: seq<Patch>, skip: set<string>, m: nat) {
    && Sound(s, t, path, skip)
    && m <= |Fills(Walk(s, t, path, skip).events)|
    && Aligned(patches, Places(s, t, path, skip), Fills(Walk(s, t, path, skip).events)[..m])
    && |patches| == m + |Fills(HeldEvents(Core(s), t, path, skip, 0))|
  }

  /** What is reported so far is what the sections set aside tell of, and the fields supplied. */
  ghost predicate Accounts(s: Schema, t: Target, path: string, st: State, m: nat) {
    m <= |Fills(Walk(s, t, path, st.skipped).events)| &&
    multiset(st.held) + multiset(st.missing) ==
      multiset(Reports(HeldEvents(Core(s), t, path, st.skipped, 0))) +
      multiset(MissingOf(Fills(Walk(s, t, path, st.skipped).events)[..m]))
  }

  /** With only sections set aside, the pass agrees with the walk. */
  lemma PassMatches(s: Schema, t: Target, path: string, patches: seq<Patch>, skip: set<string>, m: nat)
    requires Stands(s, t, path, patches, skip, m)
    ensures Matches(Plan(patches, path, skip), path, Walk(s, t, path, skip), m, NOTHING,
            PassesOf(s, t, path)(patches, skip))
  {
    hide Walk, Read, CleanRead, AllRefuse, Aligned, Places, HeldEvents, Fills, Matches;
    var cx := Plan(patches, path, skip);
    assert SkipsSupplied(cx, t, path) by {
      SectionsHaveKeys(Core(s), t, path, skip);
    }
    assert SkipAt(cx, path) == skip;
    SoundIsClean(s, t, path, skip);
    SkippedRead(s, t, path, skip);
    P.SimRead(cx, s, t, path, NOTHING, m);
  }

  lemma SectionsHaveKeys(s: Schema, t: Target, path: string, skip: set<string>)
    requires OnlySections(s, t, path, skip)
    ensures forall f | JoinKey(path, f) in skip :: HasKey(EntriesOf(t), f)
  {
    forall f | JoinKey(path, f) in skip
      ensures HasKey(EntriesOf(t), f)
    {
      var i :| 0 <= i < |EntriesOf(t)| && PathAt(t, path, i) == JoinKey(path, f);
      assert PathAt(t, path, i) == JoinKey(path, EntriesOf(t)[i].key);
      JoinKeyInjective(path, EntriesOf(t)[i].key, f);
    }
  }

  // ---- A pass that asks for a field ----

  lemma AskTurn(s: Schema, t: Target, path: string, whereabouts: string -> Option<Origin>, st: State, m: nat)
    requires Stands(s, t, path, st.patches, st.skipped, m) && Accounts(s, t, path, st, m)
    requires m < |Fills(Walk(s, t, path, st.skipped).events)|
    ensures var turn := TurnOf(ReadingOf(s, t, path, whereabouts), st);
            && turn.Adds? && turn.next.skipped == st.skipped
            && Stands(s, t, path, turn.next.patches, turn.next.skipped, m + 1)
            && Accounts(s, t, path, turn.next, m + 1)
  {
    hide Walk, Sound, Aligned, Places, HeldEvents, Fills, Reports, TurnOf, ReadingOf, MissingOf;
    var fills := Fills(Walk(s, t, path, st.skipped).events);
    AskTurnIs(s, t, path, whereabouts, st, m);
    var next := TurnOf(ReadingOf(s, t, path, whereabouts), st).next;
    AlignedMore(st.patches, Places(s, t, path, st.skipped), fills, m);
    AccountMore(st, fills, m);
    Grown(multiset(st.held), multiset(st.missing), multiset(Listed(fills[m].problem)),
          multiset(Reports(HeldEvents(Core(s), t, path, st.skipped, 0))), multiset(MissingOf(fills[..m])));
  }

  lemma AskTurnIs(s: Schema, t: Target, path: string, whereabouts: string -> Option<Origin>, st: State, m: nat)
    requires Stands(s, t, path, st.patches, st.skipped, m) && m < |Fills(Walk(s, t, path, st.skipped).events)|
    ensures var turn := TurnOf(ReadingOf(s, t, path, whereabouts), st);
            var fill := Fills(Walk(s, t, path, st.skipped).events)[m];
            && turn.Adds? && turn.next.skipped == st.skipped && turn.next.held == st.held
            && turn.next.patches == st.patches + [fill.patch]
            && turn.next.missing == st.missing + Listed(fill.problem)
  {
    hide Walk, Read, Sound, Aligned, Places, HeldEvents, Fills;
    PassMatches(s, t, path, st.patches, st.skipped, m);
    PassesAreFresh(s, t, path);
    var (log, r) := PassesOf(s, t, path)(st.patches, st.skipped);
    assert log.patch.value.patch !in st.patches;
  }

  lemma AlignedMore(patches: seq<Patch>, places: seq<string>, fills: seq<NewPatch>, m: nat)
    requires m < |fills| && Aligned(patches, places, fills[..m])
    ensures Aligned(patches + [fills[m].patch], places, fills[..m + 1])
  {
    var last := [fills[m].patch];
    assert PatchesOf(fills[..m + 1]) == PatchesOf(fills[..m]) + last;
    forall q | q in places
      ensures Own(patches + last, q) == Own(PatchesOf(fills[..m + 1]), q)
    {
      OwnAppend(patches, last, q);
      OwnAppend(PatchesOf(fills[..m]), last, q);
    }
  }

  lemma AccountMore(st: State, fills: seq<NewPatch>, m: nat)
    requires m < |fills|
    ensures multiset(st.missing + Listed(fills[m].problem)) == multiset(st.missing) + multiset(Listed(fills[m].problem))
    ensures multiset(MissingOf(fills[..m + 1])) == multiset(MissingOf(fills[..m])) + multiset(Listed(fills[m].problem))
  {
    assert fills[..m + 1] == fills[..m] + [fills[m]];
    MissingAppend(fills[..m], [fills[m]]);
    assert [fills[m]][1..] == [];
    assert MissingOf([fills[m]]) == Listed(fills[m].problem);
  }

  // ---- A pass that sets a section aside ----

  lemma SectionTurn(s: Schema, t: Target, path: string, whereabouts: string -> Option<Origin>, st: State, sp: Split)
    requires Stands(s, t, path, st.patches, st.skipped, |Fills(Walk(s, t, path, st.skipped).events)|)
    requires Accounts(s, t, path, st, |Fills(Walk(s, t, path, st.skipped).events)|)
    requires Advances(s, t, path, st.skipped, sp)
    ensures var turn := TurnOf(ReadingOf(s, t, path, whereabouts), st);
            && turn.Adds? && turn.next.patches == st.patches &&
            turn.next.skipped == st.skipped + {PathAt(t, path, sp.at)}
            && Stands(s, t, path, st.patches, turn.next.skipped, |Fills(sp.before)|)
            && Accounts(s, t, path, turn.next, |Fills(sp.before)|)
  {
    hide Walk, Read, CleanRead, AllRefuse, Aligned, Places, HeldEvents, Fills, Founds, Reports, OnlySections,
      SectionTrace, Asides;
    var events := SectionTrace(Core(s), t, path, sp.at).events;
    var walk := Walk(s, t, path, st.skipped);
    PassMatches(s, t, path, st.patches, st.skipped, |Fills(walk.events)|);
    FoundsAppend(sp.before, events);
    var (log, r) := PassesOf(s, t, path)(st.patches, st.skipped);
    assert [] + Founds(walk.events) == Founds(walk.events);
    assert Tail(log.problems, |Founds(sp.before)|) == Founds(events);
    var next := TurnOf(ReadingOf(s, t, path, whereabouts), st).next;
    assert next.held == st.held + Founds(events) by {
      assert st.held + (Founds(events) + []) == st.held + Founds(events);
    }
    SectionStands(s, t, path, st.patches, st.skipped, sp);
    SectionAccounts(s, t, path, st, next, sp);
  }

  lemma SectionStands(s: Schema, t: Target, path: string, patches: seq<Patch>, skip: set<string>, sp: Split)
    requires Stands(s, t, path, patches, skip, |Fills(Walk(s, t, path, skip).events)|) && Advances(s, t, path, skip, sp)
    ensures Stands(s, t, path, patches, skip + {PathAt(t, path, sp.at)}, |Fills(sp.before)|)
  {
    hide Walk, Read, CleanRead, Aligned, Places, HeldEvents, Fills, Founds, Reports, SectionTrace, Asides;
    var section := SectionTrace(Core(s), t, path, sp.at);
    FillsAppend(sp.before, section.events);
    FillsAppend(sp.before, sp.after);
    FillsAppend(sp.held1, sp.held2);
    FillsAppend(sp.held1 + section.events, sp.held2);
    FillsAppend(sp.held1, section.events);
    assert (Fills(sp.before) + Fills(sp.after))[..|Fills(sp.before)|] == Fills(sp.before);
    assert (Fills(sp.before) + Fills(section.events))[..|Fills(sp.before)| + |Fills(section.events)|] ==
      Fills(sp.before) + Fills(section.events);
    SectionAligned(s, t, path, patches, skip, sp);
    AsideSound(s, t, path, skip, sp.at);
  }

  lemma AsideSound(s: Schema, t: Target, path: string, skip: set<string>, at: nat)
    requires Sound(s, t, path, skip) && ReadsAt(Core(s), t, at) && SectionTrace(Core(s), t, path, at).end.Stop?
    ensures Sound(s, t, path, skip + {PathAt(t, path, at)})
  {
    hide UniqueRead, SectionTrace, Apart, Places;
    var more := skip + {PathAt(t, path, at)};
    forall i | 0 <= i < |EntriesOf(t)| && Reads(Core(s), EntriesOf(t)[i].key) && PathAt(t, path, i) in more
      ensures SectionTrace(Core(s), t, path, i).end.Stop?
    {
      if PathAt(t, path, i) == PathAt(t, path, at) {
        JoinKeyInjective(path, EntriesOf(t)[i].key, EntriesOf(t)[at].key);
        OneEntry(s, t, i, at);
      }
    }
    assert Reads(Core(s), EntriesOf(t)[at].key);
  }

  lemma {:induction false} OneEntry(s: Schema, t: Target, i: nat, j: nat)
    requires UniqueRead(s, t) && i < |EntriesOf(t)| && j < |EntriesOf(t)| && IsTable(Core(s))
    requires EntriesOf(t)[i].key == EntriesOf(t)[j].key
    ensures i == j
  {
    if s.SOption? {
      OneEntry(s.inner, t, i, j);
    } else if s.SMapped? {
      OneEntry(s.inner, t, i, j);
    }
  }

  /** The tables of a read with sections are those of the table under its wrappers. */
  lemma {:induction false} CorePlaces(s: Schema, t: Target, path: string, skip: set<string>)
    requires IsTable(Core(s)) && EntriesOf(t) != []
    ensures Places(s, t, path, skip) == TablePlaces(Core(s), t, path, skip)
  {
    hide TablePlaces;
    if s.SOption? {
      CorePlaces(s.inner, t, path, skip);
    } else if s.SMapped? {
      CorePlaces(s.inner, t, path, skip);
    }
  }

  /** The fields supplied in the section set aside belong to nothing still to be read. */
  lemma SectionAligned(s: Schema, t: Target, path: string, patches: seq<Patch>, skip: set<string>, sp: Split)
    requires Sound(s, t, path, skip) && ReadsAt(Core(s), t, sp.at)
    requires Aligned(patches, Places(s, t, path, skip),
             Fills(sp.before) + Fills(SectionTrace(Core(s), t, path, sp.at).events))
    ensures Aligned(patches, Places(s, t, path, skip + {PathAt(t, path, sp.at)}), Fills(sp.before))
  {
    hide UniqueRead, AllRefuse, OnlySections, Fills, Aligned, Places, TablePlaces, Apart;
    var core, key, more := Core(s), EntriesOf(t)[sp.at].key, skip + {PathAt(t, path, sp.at)};
    CorePlaces(s, t, path, skip);
    CorePlaces(s, t, path, more);
    CorePlaces(s, t, path, {});
    OtherTables(core, t, path, skip, more, sp.at);
    EntryFills(Under(core, key), At(EntriesOf(t)[sp.at].node), JoinKey(path, key));
    AlignedPast(patches, Places(s, t, path, skip), Places(s, t, path, more), EntryPlace(core, t, path, {}, sp.at),
                Fills(sp.before), Fills(SectionTrace(core, t, path, sp.at).events));
  }

  lemma AlignedPast(patches: seq<Patch>, all: seq<string>, left: seq<string>, here: seq<string>, before: seq<NewPatch>,
      inside: seq<NewPatch>)
    requires AllAt(inside, here) && forall q | q in left :: q in all && q !in here
    requires Aligned(patches, all, before + inside)
    ensures Aligned(patches, left, before)
  {
    hide Own, PatchesOf;
    forall q | q in left
      ensures Own(patches, q) == Own(PatchesOf(before), q)
    {
      assert PatchesOf(before + inside) == PatchesOf(before) + PatchesOf(inside);
      OwnAppend(PatchesOf(before), PatchesOf(inside), q);
      OwnElsewhere(inside, here, q);
    }
  }

  lemma SectionAccounts(s: Schema, t: Target, path: string, st: State, next: State, sp: Split)
    requires Advances(s, t, path, st.skipped, sp)
    requires Accounts(s, t, path, st, |Fills(Walk(s, t, path, st.skipped).events)|)
    requires next.skipped == st.skipped + {PathAt(t, path, sp.at)} && next.missing == st.missing
    requires next.held == st.held + Founds(SectionTrace(Core(s), t, path, sp.at).events)
    ensures Accounts(s, t, path, next, |Fills(sp.before)|)
  {
    hide Walk, Read, HeldEvents, Fills, Founds, Reports, SectionTrace, Asides, MissingOf;
    var events := SectionTrace(Core(s), t, path, sp.at).events;
    FillsAppend(sp.before, events);
    FillsAppend(sp.before, sp.after);
    MissingAppend(Fills(sp.before), Fills(events));
    Appended(sp.held1, sp.held2);
    Appended(sp.held1 + events, sp.held2);
    Appended(sp.held1, events);
    ReportsAre(events);
    var b, e := Fills(sp.before), Fills(events);
    assert (b + e)[..|b + e|] == b + e && (b + Fills(sp.after))[..|b|] == b;
    Balance(multiset(st.held), multiset(st.missing), multiset(Founds(events)), multiset(MissingOf(e)),
      multiset(MissingOf(b)),
            multiset(Reports(sp.held1)), multiset(Reports(sp.held2)));
  }

  lemma Grown<T>(held: multiset<T>, missing: multiset<T>, more: multiset<T>, one: multiset<T>, two: multiset<T>)
    requires held + missing == one + two
    ensures held + (missing + more) == one + (two + more)
  {
    assert held + (missing + more) == held + missing + more;
  }

  lemma Balance<T>(held: multiset<T>, missing: multiset<T>, found: multiset<T>, inside: multiset<T>,
      before: multiset<T>, one: multiset<T>, two: multiset<T>)
    requires held + missing == one + two + (before + inside)
    ensures held + found + missing == one + (found + inside) + two + before
  {
    assert held + found + missing == held + missing + found;
    assert one + (found + inside) + two + before == one + two + (before + inside) + found;
  }

  // ---- Beneath a field already reported missing, nothing is reported ----

  lemma {:induction false} QuietAppend(a: seq<Event>, b: seq<Event>)
    requires Reports(a) == [] && Reports(b) == []
    ensures Reports(a + b) == []
  {
    ReportsAppend(a, b);
  }

  lemma {:induction false} QuietFinds(events: seq<Event>)
    requires Reports(events) == []
    ensures Founds(events) == []
  {
    if events != [] {
      assert ReportOf(events[0]) == [] && Reports(events[1..]) == [];
      QuietFinds(events[1..]);
    }
  }

  lemma {:induction false} SilentWalk(s: Schema, t: Target, path: string, skip: set<string>)
    requires Silent(t)
    ensures Reports(Walk(s, t, path, skip).events) == []
    decreases s, 2, 0
  {
    match s
    case SOption(_) =>
    case SMapped(inner, _) => SilentWalk(inner, t, path, skip);
    case SSeq(_) =>
    case SAny =>
    case SMap(_) => SilentTable(s, t, path, skip);
    case SStruct(_) => SilentTable(s, t, path, skip);
    case _ => AllFoundParts(ReadScalar(s, t, path).problems);
  }

  lemma {:induction false} SilentTable(s: Schema, t: Target, path: string, skip: set<string>)
    requires Silent(t) && (s.SMap? || s.SStruct?)
    ensures Reports(WalkTable(s, t, path, skip).events) == []
    decreases s, 1, 0
  {
    hide WalkGaps, Reports;
    NoEvents();
    SilentGaps(s, t, path, 0, map[]);
    var gaps := WalkGaps(s, t, path, 0, map[]);
    BeforeNothing(gaps);
    assert AllFound(NotATable(t, path)) == [];
    assert gaps.events + [] == gaps.events;
  }

  lemma {:induction false} SilentGaps(s: Schema, t: Target, path: string, j: nat, got: map<string, Decoded>)
    requires Silent(t) && IsTable(s) && j <= |FieldsOf(s)|
    ensures Reports(WalkGaps(s, t, path, j, got).events) == []
    decreases s, 0, |FieldsOf(s)| - j
  {
    hide WalkSupplied, Reports;
    NoEvents();
    if j < |FieldsOf(s)| {
      var f := FieldsOf(s)[j];
      if f.name in got || GivenFor(f).Value? {
        SilentGaps(s, t, path, j + 1, got);
      } else if GivenFor(f).Required? {
        SilentWalk(f.schema, Absent(true, OriginOf(t)), JoinKey(path, f.name), {});
        SilentSupplied(f, t, path);
        var tr := WalkSupplied(f, t, path);
        if tr.end.Done? {
          SilentGaps(s, t, path, j + 1, got[f.name := tr.end.value]);
          QuietAppend(tr.events, WalkGaps(s, t, path, j + 1, got[f.name := tr.end.value]).events);
        }
      }
    }
  }

  lemma SilentSupplied(f: Field, t: Target, path: string)
    requires Silent(t)
    requires Reports(Walk(f.schema, Absent(true, OriginOf(t)), JoinKey(path, f.name), {}).events) == []
    ensures Reports(WalkSupplied(f, t, path).events) == []
  {
    hide Walk;
    SilentEntry(f.schema, Absent(true, OriginOf(t)), JoinKey(path, f.name));
    var fill := [Fill(NewPatch(Patch(path, f.name), MissingProblem(t, path, f.name)))];
    assert fill[1..] == [];
    QuietAppend(fill, WalkEntry(f.schema, Absent(true, OriginOf(t)), JoinKey(path, f.name)).events);
  }

  lemma SilentEntry(s: Schema, t: Target, path: string)
    requires Silent(t) && Reports(Walk(s, t, path, {}).events) == []
    ensures Reports(WalkEntry(s, t, path).events) == []
  {
    hide Walk;
    var tr := Walk(s, t, path, {});
    assert tr.events + [] == tr.events;
  }

  // ---- A walk that stops in a placeholder ----

  /** The trace stopped in the placeholder of the field `name`, which it had to supply, and met nothing wrong there. */
  predicate AtGap<T(==)>(t: Target, path: string, tr: Trace<T>, name: string) {
    && tr.end == Stop(true, Some(Section(JoinKey(path, name), |Founds(tr.events)|)))
    && !HasKey(EntriesOf(t), name)
    && Patch(path, name) in PatchesOf(Fills(tr.events))
  }

  lemma AtGapBefore<T>(events: seq<Event>, t: Target, path: string, tr: Trace<T>, name: string)
    requires AtGap(t, path, tr, name)
    ensures AtGap(t, path, Before(events, tr), name)
  {
    hide Founds, Fills;
    FoundsAppend(events, tr.events);
    BeforeFills(events, tr);
    var one, two := Fills(events), Fills(tr.events);
    assert PatchesOf(one + two) == PatchesOf(one) + PatchesOf(two);
  }

  lemma {:induction false} GapsAtGap(s: Schema, t: Target, path: string, j: nat, got: map<string, Decoded>)
    returns (name: string)
    requires IsTable(s) && j <= |FieldsOf(s)|
    requires WalkGaps(s, t, path, j, got).end.Stop? && WalkGaps(s, t, path, j, got).end.section.Some?
    ensures AtGap(t, path, WalkGaps(s, t, path, j, got), name)
    decreases |FieldsOf(s)| - j
  {
    hide WalkSupplied, Fills, Founds, AtGap;
    var f := FieldsOf(s)[j];
    if f.name in got || GivenFor(f).Value? {
      name := GapsAtGap(s, t, path, j + 1, got);
    } else {
      var tr := WalkSupplied(f, t, path);
      if tr.end.Stop? {
        name := f.name;
        SuppliedAtGap(f, t, path);
      } else {
        name := GapsAtGap(s, t, path, j + 1, got[f.name := tr.end.value]);
        AtGapBefore(tr.events, t, path, WalkGaps(s, t, path, j + 1, got[f.name := tr.end.value]), name);
      }
    }
  }

  lemma SuppliedAtGap(f: Field, t: Target, path: string)
    requires !HasKey(EntriesOf(t), f.name) && WalkSupplied(f, t, path).end.Stop?
    ensures AtGap(t, path, Halted(WalkSupplied(f, t, path)), f.name)
  {
    hide Walk, Reports;
    var here, below := Absent(true, OriginOf(t)), JoinKey(path, f.name);
    SilentWalk(f.schema, here, below, {});
    SilentEntry(f.schema, here, below);
    var tr := WalkEntry(f.schema, here, below);
    QuietFinds(tr.events);
    OwnFill(path, f.name, t);
    var fill := [Fill(NewPatch(Patch(path, f.name), MissingProblem(t, path, f.name)))];
    FoundsAppend(fill, tr.events);
    BeforeFills(fill, tr);
    assert PatchesOf(Fills(WalkSupplied(f, t, path).events))[0] == Patch(path, f.name);
  }

  lemma {:induction false} StopsAtGap(s: Schema, t: Target, path: string, skip: set<string>) returns (name: string)
    requires !StopsInSection(s, t, path, skip)
    requires Walk(s, t, path, skip).end.Stop? && Walk(s, t, path, skip).end.section.Some?
    ensures AtGap(t, path, Walk(s, t, path, skip), name)
  {
    if s.SOption? {
      hide Walk, AtGap, StopsInSection;
      OptionStops(s, t, path, skip);
      name := StopsAtGap(s.inner, t, path, skip);
      OptionAtGap(s, t, path, Walk(s.inner, t, path, skip), name);
    } else if s.SMapped? {
      name := StopsAtGap(s.inner, t, path, skip);
    } else {
      hide AtGap, WalkTable;
      SequencesNameNone(s, t, path, skip);
      name := TableAtGap(s, t, path, skip);
    }
  }

  lemma SequencesNameNone(s: Schema, t: Target, path: string, skip: set<string>)
    requires !s.SOption? && !s.SMapped?
    requires Walk(s, t, path, skip).end.Stop? && Walk(s, t, path, skip).end.section.Some?
    ensures IsTable(s) && (s.SAny? ==> t.At? && t.node.value.Table?)
    ensures Walk(s, t, path, skip) == WalkTable(s, t, path, skip)
  {
    hide WalkItems, WalkTable;
    if t.At? && t.node.value.Array? && (s.SSeq? || s.SAny?) {
      ItemsNoSection(s, t, path, 0, []);
    }
  }

  lemma OptionStops(s: Schema, t: Target, path: string, skip: set<string>)
    requires s.SOption? && Walk(s, t, path, skip).end.Stop?
    ensures t.At? && Walk(s, t, path, skip) == Optional(t, path, Walk(s.inner, t, path, skip))
    ensures StopsInSection(s, t, path, skip) == StopsInSection(s.inner, t, path, skip)
  {
    hide WalkEntries;
  }

  lemma OptionAtGap(s: Schema, t: Target, path: string, tr: Trace<Decoded>, name: string)
    requires AtGap(t, path, tr, name)
    ensures AtGap(t, path, Optional(t, path, tr), name)
  {
    assert tr.events + [] == tr.events;
  }

  lemma TableAtGap(s: Schema, t: Target, path: string, skip: set<string>) returns (name: string)
    requires IsTable(s) && WalkEntries(s, t, path, skip, 0, map[]).end.Done?
    requires WalkTable(s, t, path, skip).end.Stop? && WalkTable(s, t, path, skip).end.section.Some?
    ensures AtGap(t, path, WalkTable(s, t, path, skip), name)
  {
    hide WalkEntries, WalkGaps, AtGap, Founds, Fills, AllFound;
    var entries := WalkEntries(s, t, path, skip, 0, map[]);
    var gaps := WalkGaps(s, t, path, 0, entries.end.value);
    name := GapsAtGap(s, t, path, 0, entries.end.value);
    AtGapBefore(entries.events, t, path, gaps, name);
    var first := AllFound(NotATable(t, path));
    AtGapBefore(first, t, path, Before(entries.events, gaps), name);
    SealedAtGap(s, t, path, Before(first, Before(entries.events, gaps)), name);
  }

  lemma SealedAtGap(s: Schema, t: Target, path: string, tr: Trace<map<string, Decoded>>, name: string)
    requires AtGap(t, path, tr, name)
    ensures AtGap(t, path, Sealed(s, t, path, tr), name)
  {
    assert tr.events + [] == tr.events;
  }

  // ---- How far the sections set aside are from the whole ----

  lemma {:induction false} AsidesBound(s: Schema, t: Target, path: string, skip: set<string>, i: nat)
    requires i <= |EntriesOf(t)|
    ensures Asides(s, t, path, skip, i) <= |EntriesOf(t)| - i
    decreases |EntriesOf(t)| - i
  {
    if i < |EntriesOf(t)| {
      AsidesBound(s, t, path, skip, i + 1);
    }
  }

  /** What a walk and the sections set aside come to is part of the whole. */
  predicate Partial(s: Schema, t: Target, path: string, skip: set<string>) {
    var walk, whole, held := Walk(s, t, path, skip), Whole(s, t, path), HeldEvents(Core(s), t, path, skip, 0);
    && multiset(Reports(walk.events)) + multiset(Reports(held)) <= multiset(Reports(whole.events))
    && |Fills(walk.events)| + |Fills(held)| <= |Fills(whole.events)|
    && Asides(Core(s), t, path, skip, 0) <= Refusals(Core(s), t, path, 0)
    && (StopsInSection(s, t, path, skip) ==> Asides(Core(s), t, path, skip, 0) < Refusals(Core(s), t, path, 0))
  }

  lemma {:induction false} IsPartial(s: Schema, t: Target, path: string, skip: set<string>)
    requires Sound(s, t, path, skip)
    ensures Partial(s, t, path, skip)
    decreases |EntriesOf(t)| - Asides(Core(s), t, path, skip, 0)
  {
    hide Walk, Whole, WalkEntries, HeldEvents, Asides, Refusals, CleanRead, Reports, Fills, Sound, SectionTrace,
      StopsInSection, AllRefuse, Places, Apart;
    SoundIsClean(s, t, path, skip);
    AsidesBound(Core(s), t, path, skip, 0);
    if StopsInSection(s, t, path, skip) {
      var sp := Advance(s, t, path, skip);
      var more := skip + {PathAt(t, path, sp.at)};
      AsideSound(s, t, path, skip, sp.at);
      AsidesBound(Core(s), t, path, more, 0);
      IsPartial(s, t, path, more);
      var events := SectionTrace(Core(s), t, path, sp.at).events;
      Regrouped(sp.before, events, sp.after, sp.held1, sp.held2);
    } else {
      Complete(s, t, path, skip);
    }
  }

  lemma Regrouped(before: seq<Event>, section: seq<Event>, after: seq<Event>, held1: seq<Event>, held2: seq<Event>)
    ensures multiset(Reports(before + section)) + multiset(Reports(held1 + held2)) <=
            multiset(Reports(before + after)) + multiset(Reports(held1 + section + held2))
    ensures |Fills(before + section)| + |Fills(held1 + held2)| <= |Fills(before + after)| +
            |Fills(held1 + section + held2)|
  {
    hide Reports, Fills;
    Appended(before, section);
    Appended(before, after);
    Appended(held1, held2);
    Appended(held1, section);
    Appended(held1 + section, held2);
  }

  // ---- A pass that adds nothing ----

  /** The report of a driver that stands at `st` when the walk asks for nothing more. */
  function Settled(s: Schema, t: Target, path: string, st: State, consumed: set<string>): Report {
    var walk := Walk(s, t, path, st.skipped);
    if walk.end.Done? then Report(st.held + Founds(walk.events) + st.missing, Some(walk.end.value), true, consumed)
    else
      Report(st.held + (Founds(walk.events) +
        if walk.end.recorded then [] else [Problem(path, OriginOf(t), Refused)]) + st.missing,
             None, true, consumed)
  }

  lemma SettleTurn(s: Schema, t: Target, path: string, whereabouts: string -> Option<Origin>, st: State)
    requires Matches(Plan(st.patches, path, st.skipped), path, Walk(s, t, path, st.skipped),
             |Fills(Walk(s, t, path, st.skipped).events)|,
                     NOTHING, PassesOf(s, t, path)(st.patches, st.skipped))
    requires var end := Walk(s, t, path, st.skipped).end;
             end.Stop? && end.section.Some? ==> end.section.value.path in st.skipped
    ensures var turn := TurnOf(ReadingOf(s, t, path, whereabouts), st);
            turn.Settles? && turn.report == Settled(s, t, path, st, turn.report.consumed)
  {
    hide Walk, Read, Fills, Founds;
    var walk := Walk(s, t, path, st.skipped);
    var (log, r) := PassesOf(s, t, path)(st.patches, st.skipped);
    assert [] + Founds(walk.events) == Founds(walk.events);
    assert log.patch.None? && log.failed.None?;
    assert st.missing + [] == st.missing;
  }

  /** What a settled report holds is what the whole read tells of. */
  lemma SettledIsWhole(s: Schema, t: Target, path: string, st: State, consumed: set<string>)
    requires Accounts(s, t, path, st, |Fills(Walk(s, t, path, st.skipped).events)|)
    requires Completes(s, t, path, st.skipped)
    ensures var report := Settled(s, t, path, st, consumed);
            && report.settled
            && multiset(report.problems) == multiset(WholeReport(s, t, path))
            && report.value == ValueOf(Whole(s, t, path))
  {
    hide Walk, Whole, Fills, Founds, Reports, HeldEvents, Asides, Refusals, MissingOf;
    var walk := Walk(s, t, path, st.skipped);
    var fills := Fills(walk.events);
    assert fills[..|fills|] == fills;
    ReportsAre(walk.events);
    var told := if walk.end.Stop? && !walk.end.recorded then [Problem(path, OriginOf(t), Refused)] else [];
    assert Settled(s, t, path, st, consumed).problems == st.held + (Founds(walk.events) + told) + st.missing by {
      assert Founds(walk.events) + [] == Founds(walk.events);
    }
    assert WholeReport(s, t, path) == Reports(Whole(s, t, path).events) + told;
    Regroup(multiset(st.held), multiset(Founds(walk.events)), multiset(told), multiset(st.missing),
            multiset(Reports(HeldEvents(Core(s), t, path, st.skipped, 0))), multiset(MissingOf(fills)));
  }

  lemma Regroup<T>(held: multiset<T>, found: multiset<T>, told: multiset<T>, missing: multiset<T>, aside: multiset<T>,
      filled: multiset<T>)
    requires held + missing == aside + filled
    ensures held + (found + told) + missing == found + filled + aside + told
  {
    assert held + (found + told) + missing == held + missing + found + told;
  }

  function ValueOf(tr: Trace<Decoded>): Option<Decoded> {
    if tr.end.Done? then Some(tr.end.value) else None
  }

  // ---- A pass that stops in a placeholder ----

  /** A key no entry has changes nothing when it is set aside. */
  lemma {:induction false} AsideNowhere(s: Schema, t: Target, path: string, skip: set<string>, name: string)
    requires !HasKey(EntriesOf(t), name)
    ensures var more := skip + {JoinKey(path, name)};
            && Walk(s, t, path, more) == Walk(s, t, path, skip)
            && HeldEvents(Core(s), t, path, more, 0) == HeldEvents(Core(s), t, path, skip, 0)
            && Places(s, t, path, more) == Places(s, t, path, skip)
  {
    hide Walk, WalkTable, HeldEvents, TablePlaces;
    var more := skip + {JoinKey(path, name)};
    assert NotFrom(EntriesOf(t), 0, name);
    HeldElsewhere(Core(s), t, path, skip, name, 0);
    if s.SOption? {
      AsideNowhere(s.inner, t, path, skip, name);
      OptionSame(s, t, path, skip, more);
    } else if s.SMapped? {
      AsideNowhere(s.inner, t, path, skip, name);
      MappedWalk(s, t, path, skip);
      MappedWalk(s, t, path, more);
    } else if IsTable(s) && (s.SAny? ==> t.At? && t.node.value.Table?) {
      TableWalk(s, t, path, skip);
      TableWalk(s, t, path, more);
      TableElsewhere(s, t, path, skip, name);
      PlacesElsewhere(s, t, path, skip, name);
    } else {
      NoTableSame(s, t, path, skip, more);
    }
  }

  lemma OptionSame(s: Schema, t: Target, path: string, skip: set<string>, more: set<string>)
    requires s.SOption? && Walk(s.inner, t, path, more) == Walk(s.inner, t, path, skip)
    ensures Walk(s, t, path, more) == Walk(s, t, path, skip)
  {
  }

  lemma NoTableSame(s: Schema, t: Target, path: string, skip: set<string>, more: set<string>)
    requires !s.SOption? && !s.SMapped? && !(IsTable(s) && (s.SAny? ==> t.At? && t.node.value.Table?))
    ensures Walk(s, t, path, more) == Walk(s, t, path, skip)
  {
  }

  lemma TableElsewhere(s: Schema, t: Target, path: string, skip: set<string>, name: string)
    requires IsTable(s) && NotFrom(EntriesOf(t), 0, name)
    ensures WalkTable(s, t, path, skip + {JoinKey(path, name)}) == WalkTable(s, t, path, skip)
  {
    hide WalkEntries, WalkGaps, Founds, HeldEvents, Asides;
    AsideElsewhere(s, t, path, skip, name, 0, map[]);
  }

  lemma PlacesElsewhere(s: Schema, t: Target, path: string, skip: set<string>, name: string)
    requires IsTable(s) && NotFrom(EntriesOf(t), 0, name)
    ensures TablePlaces(s, t, path, skip + {JoinKey(path, name)}) == TablePlaces(s, t, path, skip)
  {
    hide EntryPlaces, FieldPlaces;
    var more := skip + {JoinKey(path, name)};
    forall j | 0 <= j < |EntriesOf(t)|
      ensures JoinKey(path, EntriesOf(t)[j].key) in more <==> JoinKey(path, EntriesOf(t)[j].key) in skip
    {
      if JoinKey(path, EntriesOf(t)[j].key) == JoinKey(path, name) {
        JoinKeyInjective(path, EntriesOf(t)[j].key, name);
      }
    }
    NoneSkipped(s, t, path, skip, more, 0);
  }

  lemma {:induction false} HeldElsewhere(s: Schema, t: Target, path: string, skip: set<string>, name: string, i: nat)
    requires i <= |EntriesOf(t)| && NotFrom(EntriesOf(t), i, name)
    ensures HeldEvents(s, t, path, skip + {JoinKey(path, name)}, i) == HeldEvents(s, t, path, skip, i)
    decreases |EntriesOf(t)| - i
  {
    hide SectionTrace;
    if i < |EntriesOf(t)| {
      if PathAt(t, path, i) == JoinKey(path, name) {
        JoinKeyInjective(path, EntriesOf(t)[i].key, name);
      }
      HeldElsewhere(s, t, path, skip, name, i + 1);
    }
  }

  /** The pass that stops in a placeholder sets it aside with nothing found in it. */
  lemma GapTurn(s: Schema, t: Target, path: string, whereabouts: string -> Option<Origin>, st: State, name: string)
    requires Stands(s, t, path, st.patches, st.skipped, |Fills(Walk(s, t, path, st.skipped).events)|)
    requires AtGap(t, path, Walk(s, t, path, st.skipped), name)
    ensures var turn := TurnOf(ReadingOf(s, t, path, whereabouts), st);
            && turn.Adds? && turn.next.patches == st.patches && turn.next.skipped == st.skipped + {JoinKey(path, name)}
            && turn.next.held == st.held && turn.next.missing == st.missing
  {
    hide Walk, Read, Sound, Aligned, Places, HeldEvents, Fills, Founds, PatchesOf;
    var walk := Walk(s, t, path, st.skipped);
    PassMatches(s, t, path, st.patches, st.skipped, |Fills(walk.events)|);
    var (log, r) := PassesOf(s, t, path)(st.patches, st.skipped);
    NotAside(s, t, path, st.skipped, name);
    assert [] + Founds(walk.events) == Founds(walk.events);
    assert Tail(log.problems, |Founds(walk.events)|) == [];
    assert st.held + ([] + []) == st.held;
  }

  lemma NotAside(s: Schema, t: Target, path: string, skip: set<string>, name: string)
    requires Sound(s, t, path, skip) && !HasKey(EntriesOf(t), name)
    ensures JoinKey(path, name) !in skip
  {
    hide CleanRead, AllRefuse;
    SectionsHaveKeys(Core(s), t, path, skip);
  }

  /** And the pass after it settles. */
  lemma AfterGap(s: Schema, t: Target, path: string, patches: seq<Patch>, skip: set<string>, name: string)
    requires Stands(s, t, path, patches, skip, |Fills(Walk(s, t, path, skip).events)|)
    requires AtGap(t, path, Walk(s, t, path, skip), name)
    ensures var more := skip + {JoinKey(path, name)};
            && Walk(s, t, path, more) == Walk(s, t, path, skip)
            && HeldEvents(Core(s), t, path, more, 0) == HeldEvents(Core(s), t, path, skip, 0)
            && Matches(Plan(patches, path, more), path, Walk(s, t, path, more), |Fills(Walk(s, t, path, more).events)|,
                       NOTHING, PassesOf(s, t, path)(patches, more))
  {
    hide Walk, Read, CleanRead, AllRefuse, Aligned, Places, HeldEvents, Fills, Founds, PatchesOf, Matches;
    AsideNowhere(s, t, path, skip, name);
    var more := skip + {JoinKey(path, name)};
    var fills := Fills(Walk(s, t, path, skip).events);
    var cx := Plan(patches, path, more);
    assert fills[..|fills|] == fills;
    if path in Places(s, t, path, more) {
      GapSupplied(s, t, path, patches, skip, fills, name);
    }
    assert SkipAt(cx, path) == more;
    SoundIsClean(s, t, path, skip);
    SkippedRead(s, t, path, skip);
    P.SimRead(cx, s, t, path, NOTHING, |fills|);
  }

  lemma GapSupplied(s: Schema, t: Target, path: string, patches: seq<Patch>, skip: set<string>, fills: seq<NewPatch>,
      name: string)
    requires OnlySections(Core(s), t, path, skip) && Patch(path, name) in PatchesOf(fills)
    requires path in Places(s, t, path, skip) && Aligned(patches, Places(s, t, path, skip), fills)
    ensures forall f | JoinKey(path, f) in skip + {JoinKey(path, name)} && !HasKey(EntriesOf(t), f) ::
              f in Own(patches, path)
  {
    hide PatchesOf, OnlySections, Places;
    OwnMember(PatchesOf(fills), Patch(path, name));
    SectionsHaveKeys(Core(s), t, path, skip);
    forall f | JoinKey(path, f) in skip + {JoinKey(path, name)} && !HasKey(EntriesOf(t), f)
      ensures f in Own(patches, path)
    {
      JoinKeyInjective(path, f, name);
    }
  }

  // ---- The report ----

  /** What the driver reports, whole or cut. */
  predicate Reported(s: Schema, t: Target, path: string, report: Report) {
    if Needed(s, t, path) <= MAX_PASSES then
      && report.settled
      && multiset(report.problems) == multiset(WholeReport(s, t, path))
      && report.value == ValueOf(Whole(s, t, path))
    else
      && !report.settled
      && multiset(report.problems) <= multiset(WholeReport(s, t, path))
      && report.value.None?
  }

  lemma {:induction false} DrivenReports(s: Schema, t: Target, path: string, whereabouts: string -> Option<Origin>,
      st: State, m: nat, pass: nat)
    requires pass <= MAX_PASSES && pass == |st.patches| + Asides(Core(s), t, path, st.skipped, 0)
    requires Stands(s, t, path, st.patches, st.skipped, m) && Accounts(s, t, path, st, m)
    ensures Reported(s, t, path, Driven(ReadingOf(s, t, path, whereabouts), st, pass))
    decreases MAX_PASSES - pass
  {
    hide Walk, Whole, HeldEvents, Asides, Refusals, Fills, Founds, Reports, TurnOf, ReadingOf, StopsInSection, Aligned,
      Places, Sound,
      Needed, WholeReport, AtGap, SectionTrace, Reported, Accounts;
    var rd := ReadingOf(s, t, path, whereabouts);
    var walk := Walk(s, t, path, st.skipped);
    if m < |Fills(walk.events)| {
      AskTurn(s, t, path, whereabouts, st, m);
      if pass == MAX_PASSES {
        Cut(s, t, path, whereabouts, st, m);
      } else {
        DrivenReports(s, t, path, whereabouts, TurnOf(rd, st).next, m + 1, pass + 1);
      }
    } else if StopsInSection(s, t, path, st.skipped) {
      assert UniqueRead(s, t) by { SoundIsClean(s, t, path, st.skipped); }
      var sp := Advance(s, t, path, st.skipped);
      SectionTurn(s, t, path, whereabouts, st, sp);
      if pass == MAX_PASSES {
        Cut(s, t, path, whereabouts, st, m);
      } else {
        DrivenReports(s, t, path, whereabouts, TurnOf(rd, st).next, |Fills(sp.before)|, pass + 1);
      }
    } else {
      LastTurns(s, t, path, whereabouts, st, pass);
    }
  }

  lemma SoundIsClean(s: Schema, t: Target, path: string, skip: set<string>)
    requires Sound(s, t, path, skip)
    ensures UniqueRead(s, t) && Apart(Places(s, t, path, {})) && AllRefuse(Core(s), t, path, skip)
  {
  }

  /** A cut report: an addition past the cap was pending. */
  lemma Cut(s: Schema, t: Target, path: string, whereabouts: string -> Option<Origin>, st: State, m: nat)
    requires MAX_PASSES == |st.patches| + Asides(Core(s), t, path, st.skipped, 0)
    requires Stands(s, t, path, st.patches, st.skipped, m) && Accounts(s, t, path, st, m)
    requires m < |Fills(Walk(s, t, path, st.skipped).events)| || StopsInSection(s, t, path, st.skipped)
    requires TurnOf(ReadingOf(s, t, path, whereabouts), st).Adds?
    ensures Reported(s, t, path, Driven(ReadingOf(s, t, path, whereabouts), st, MAX_PASSES))
  {
    hide Walk, Whole, HeldEvents, Asides, Refusals, Fills, Reports, TurnOf, ReadingOf, StopsInSection, Aligned, Places,
      Sound, MissingOf;
    IsPartial(s, t, path, st.skipped);
    assert Needed(s, t, path) > MAX_PASSES;
    TellsPart(s, t, path, st, m);
  }

  lemma TellsPart(s: Schema, t: Target, path: string, st: State, m: nat)
    requires Accounts(s, t, path, st, m) && Partial(s, t, path, st.skipped)
    ensures multiset(st.held + st.missing) <= multiset(WholeReport(s, t, path))
  {
    hide Walk, Whole, HeldEvents, Asides, Refusals, Fills, Founds, Reports, StopsInSection, MissingOf;
    var events := Walk(s, t, path, st.skipped).events;
    var fills := Fills(events);
    ReportsAre(events);
    MissingAppend(fills[..m], fills[m..]);
    assert fills == fills[..m] + fills[m..];
  }

  lemma LastTurns(s: Schema, t: Target, path: string, whereabouts: string -> Option<Origin>, st: State, pass: nat)
    requires pass <= MAX_PASSES && pass == |st.patches| + Asides(Core(s), t, path, st.skipped, 0)
    requires Stands(s, t, path, st.patches, st.skipped, |Fills(Walk(s, t, path, st.skipped).events)|)
    requires Accounts(s, t, path, st, |Fills(Walk(s, t, path, st.skipped).events)|)
    requires !StopsInSection(s, t, path, st.skipped)
    ensures Reported(s, t, path, Driven(ReadingOf(s, t, path, whereabouts), st, pass))
  {
    hide Walk, Whole, HeldEvents, Asides, Refusals, Fills, Reports, TurnOf, ReadingOf, StopsInSection, Aligned,
      Places, Sound,
      MissingOf, AtGap, WholeReport, Matches, Settled, Accounts;
    var walk := Walk(s, t, path, st.skipped);
    SoundIsClean(s, t, path, st.skipped);
    Complete(s, t, path, st.skipped);
    if walk.end.Stop? && walk.end.section.Some? {
      var name := StopsAtGap(s, t, path, st.skipped);
      GapTurn(s, t, path, whereabouts, st, name);
      if pass == MAX_PASSES {
        CompletesIsPartial(s, t, path, st.skipped);
        TellsPart(s, t, path, st, |Fills(walk.events)|);
      } else {
        AfterGap(s, t, path, st.patches, st.skipped, name);
        var next := TurnOf(ReadingOf(s, t, path, whereabouts), st).next;
        GapPath(s, t, path, st.skipped, name);
        SettleTurn(s, t, path, whereabouts, next);
        SettledSame(s, t, path, st, next);
        SettledIsWhole(s, t, path, st, TurnOf(ReadingOf(s, t, path, whereabouts), next).report.consumed);
      }
    } else {
      PassMatches(s, t, path, st.patches, st.skipped, |Fills(walk.events)|);
      SettleTurn(s, t, path, whereabouts, st);
      SettledIsWhole(s, t, path, st, TurnOf(ReadingOf(s, t, path, whereabouts), st).report.consumed);
    }
  }

  lemma GapPath(s: Schema, t: Target, path: string, skip: set<string>, name: string)
    requires AtGap(t, path, Walk(s, t, path, skip), name)
    ensures Walk(s, t, path, skip).end.section.value.path == JoinKey(path, name)
  {
    hide Walk, Fills, Founds, PatchesOf;
  }

  lemma CompletesIsPartial(s: Schema, t: Target, path: string, skip: set<string>)
    requires Completes(s, t, path, skip) && !StopsInSection(s, t, path, skip)
    ensures Partial(s, t, path, skip)
  {
    hide Walk, Whole, HeldEvents, Asides, Refusals, Fills, Reports, StopsInSection;
  }

  lemma SettledSame(s: Schema, t: Target, path: string, one: State, two: State)
    requires Walk(s, t, path, one.skipped) == Walk(s, t, path, two.skipped) && one.held == two.held &&
             one.missing == two.missing
    ensures forall consumed :: Settled(s, t, path, one, consumed) == Settled(s, t, path, two, consumed)
  {
    hide Walk, Founds;
  }

  /**
   * The whole report, for every type and every tree no two of whose tables print one path: with at most
   * 2048 fields to supply and sections to set aside, it holds exactly the problems of the whole read,
   * each section walked alone; with more, it holds some of them and says it was cut.
   */
  lemma SectionReport(s: Schema, t: Target, path: string, whereabouts: string -> Option<Origin>)
    requires CleanRead(s, t, path)
    ensures Reported(s, t, path, Driven(ReadingOf(s, t, path, whereabouts), START, 0))
  {
    hide Walk, Whole, Fills, CleanRead, Driven, Reported, SectionTrace;
    NothingAside(Core(s), t, path, 0);
    NoEvents();
    assert Fills(Walk(s, t, path, {}).events)[..0] == [];
    assert Stands(s, t, path, START.patches, START.skipped, 0);
    assert Accounts(s, t, path, START, 0);
    DrivenReports(s, t, path, whereabouts, START, 0, 0);
  }

  lemma {:induction false} NothingAside(s: Schema, t: Target, path: string, i: nat)
    requires i <= |EntriesOf(t)|
    ensures HeldEvents(s, t, path, {}, i) == [] && Asides(s, t, path, {}, i) == 0
    decreases |EntriesOf(t)| - i
  {
    if i < |EntriesOf(t)| {
      NothingAside(s, t, path, i + 1);
    }
  }
}
