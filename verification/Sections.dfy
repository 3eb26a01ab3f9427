/** What a read reports section by section, and how setting one section aside moves a walk towards it. */
module Sections {
  import opened Options
  import opened Trees
  import opened Schemas
  import opened Reader
  import opened Walks
  import opened Events
  import opened CleanReads
  import opened Simulation
  import opened Passes

  predicate ReadsAt(s: Schema, t: Target, i: nat) {
    i < |EntriesOf(t)| && Reads(s, EntriesOf(t)[i].key)
  }

  function PathAt(t: Target, path: string, i: nat): string
    requires i < |EntriesOf(t)|
  {
    JoinKey(path, EntriesOf(t)[i].key)
  }

  /** The walk of the section at place `i`, alone. */
  function SectionTrace(s: Schema, t: Target, path: string, i: nat): Trace<Decoded>
    requires ReadsAt(s, t, i)
  {
    WalkEntry(Under(s, EntriesOf(t)[i].key), At(EntriesOf(t)[i].node), PathAt(t, path, i))
  }

  /** What the sections at `i` and after meet, each walked alone. */
  function SectionEvents(s: Schema, t: Target, path: string, i: nat): seq<Event>
    requires i <= |EntriesOf(t)|
    decreases |EntriesOf(t)| - i
  {
    if i == |EntriesOf(t)| then []
    else (if ReadsAt(s, t, i) then SectionTrace(s, t, path, i).events else []) + SectionEvents(s, t, path, i + 1)
  }

  /** What the sections set aside, at `i` and after, met. */
  function HeldEvents(s: Schema, t: Target, path: string, skip: set<string>, i: nat): seq<Event>
    requires i <= |EntriesOf(t)|
    decreases |EntriesOf(t)| - i
  {
    if i == |EntriesOf(t)| then []
    else
      (if ReadsAt(s, t, i) && PathAt(t, path, i) in skip then SectionTrace(s, t, path, i).events else [])
      + HeldEvents(s, t, path, skip, i + 1)
  }

  /** The values of the sections at `i` and after that have one. */
  function SectionValues(s: Schema, t: Target, path: string, i: nat, got: map<string, Decoded>): map<string, Decoded>
    requires i <= |EntriesOf(t)|
    decreases |EntriesOf(t)| - i
  {
    if i == |EntriesOf(t)| then got
    else
      SectionValues(s, t, path, i + 1,
        if ReadsAt(s, t, i) && SectionTrace(s, t, path, i).end.Done?
        then got[EntriesOf(t)[i].key := SectionTrace(s, t, path, i).end.value]
        else got)
  }

  /** How many sections at `i` and after end on a refusal. */
  function Refusals(s: Schema, t: Target, path: string, i: nat): nat
    requires i <= |EntriesOf(t)|
    decreases |EntriesOf(t)| - i
  {
    if i == |EntriesOf(t)| then 0
    else (if ReadsAt(s, t, i) && SectionTrace(s, t, path, i).end.Stop? then 1 else 0) + Refusals(s, t, path, i + 1)
  }

  /** How many of them are set aside. */
  function Asides(s: Schema, t: Target, path: string, skip: set<string>, i: nat): nat
    requires i <= |EntriesOf(t)|
    decreases |EntriesOf(t)| - i
  {
    if i == |EntriesOf(t)| then 0
    else (if ReadsAt(s, t, i) && PathAt(t, path, i) in skip then 1 else 0) + Asides(s, t, path, skip, i + 1)
  }

  /** The whole read, each section walked alone and the rest of the table after them. */
  function Whole(s: Schema, t: Target, path: string): Trace<Decoded> {
    match s
    case SOption(inner) =>
      if t.Absent? || t.node.value.Null? then Trace([], Done(DNone)) else Optional(t, path, Whole(inner, t, path))
    case SMapped(inner, takes) => Screened(takes, Whole(inner, t, path))
    case SMap(_) => WholeTable(s, t, path)
    case SStruct(_) => WholeTable(s, t, path)
    case SAny => if t.At? && t.node.value.Table? then WholeTable(s, t, path) else Walk(s, t, path, {})
    case _ => Walk(s, t, path, {})
  }

  function WholeTable(s: Schema, t: Target, path: string): Trace<Decoded>
    requires IsTable(s)
  {
    Sealed(s, t, path,
      Before(AllFound(NotATable(t, path)) + SectionEvents(s, t, path, 0),
             WalkGaps(s, t, path, 0, SectionValues(s, t, path, 0, map[]))))
  }

  // ---- Setting one section aside ----

  lemma JoinKeyInjective(path: string, one: string, other: string)
    requires JoinKey(path, one) == JoinKey(path, other)
    ensures one == other
  {
    if path != "" {
      assert (path + "." + one)[|path| + 1..] == one;
      assert (path + "." + other)[|path| + 1..] == other;
    }
  }

  /** A path set aside that is none of these entries changes nothing here. */
  lemma {:induction false} AsideElsewhere(s: Schema, t: Target, path: string, skip: set<string>, key: string, i: nat,
      got: map<string, Decoded>)
    requires IsTable(s) && i <= |EntriesOf(t)| && NotFrom(EntriesOf(t), i, key)
    ensures var more := skip + {JoinKey(path, key)};
            && WalkEntries(s, t, path, more, i, got) == WalkEntries(s, t, path, skip, i, got)
            && HeldEvents(s, t, path, more, i) == HeldEvents(s, t, path, skip, i)
            && Asides(s, t, path, more, i) == Asides(s, t, path, skip, i)
    decreases |EntriesOf(t)| - i
  {
    hide WalkEntry, SectionTrace;
    if i < |EntriesOf(t)| {
      var here := EntriesOf(t)[i].key;
      if JoinKey(path, here) == JoinKey(path, key) {
        JoinKeyInjective(path, here, key);
      }
      AsideElsewhere(s, t, path, skip, key, i + 1, got);
      if Reads(s, here) && JoinKey(path, here) !in skip && !Taken(s, here, got) {
        var tr := WalkEntry(Under(s, here), At(EntriesOf(t)[i].node), JoinKey(path, here));
        if tr.end.Done? {
          AsideElsewhere(s, t, path, skip, key, i + 1, got[here := tr.end.value]);
        }
      }
    }
  }

  /** Where the walk of the entries stopped, and what setting that section aside leaves. */
  datatype Split = Split(
    at: nat,                  // the section
    before: seq<Event>,       // met before it
    after: seq<Event>,        // met after `before` with the section set aside
    held1: seq<Event>,        // the sections set aside, before it
    held2: seq<Event>)        // and after it

  predicate Splits(s: Schema, t: Target, path: string, skip: set<string>, i: nat, got: map<string, Decoded>, sp: Split)
    requires IsTable(s) && i <= |EntriesOf(t)|
  {
    && i <= sp.at < |EntriesOf(t)| && Reads(s, EntriesOf(t)[sp.at].key) && PathAt(t, path, sp.at) !in skip
    && var section := SectionTrace(s, t, path, sp.at);
       var more := skip + {PathAt(t, path, sp.at)};
    && section.end.Stop?
    && WalkEntries(s, t, path, skip, i, got) ==
         Trace(sp.before + section.events, Stop(true, Some(Section(PathAt(t, path, sp.at), |Founds(sp.before)|))))
    && WalkEntries(s, t, path, more, i, got).events == sp.before + sp.after
    && HeldEvents(s, t, path, skip, i) == sp.held1 + sp.held2
    && HeldEvents(s, t, path, more, i) == sp.held1 + section.events + sp.held2
    && Asides(s, t, path, more, i) == Asides(s, t, path, skip, i) + 1
  }

  lemma {:induction false} SplitAtStop(s: Schema, t: Target, path: string, skip: set<string>, i: nat,
      got: map<string, Decoded>) returns (sp: Split)
    requires IsTable(s) && UniqueTable(s, t) && i <= |EntriesOf(t)|
    requires forall k | k in got :: NotFrom(EntriesOf(t), i, k)
    requires WalkEntries(s, t, path, skip, i, got).end.Stop?
    ensures Splits(s, t, path, skip, i, got, sp)
    decreases |EntriesOf(t)| - i
  {
    hide WalkEntry, UniqueTable, Founds;
    var key := EntriesOf(t)[i].key;
    if JoinKey(path, key) in skip || !Reads(s, key) {
      sp := SplitAtStop(s, t, path, skip, i + 1, got);
      sp := SplitPassed(s, t, path, skip, i, got, sp);
    } else {
      assert key !in got;
      UniqueEntry(s, t, i);
      var tr := WalkEntry(Under(s, key), At(EntriesOf(t)[i].node), JoinKey(path, key));
      if tr.end.Stop? {
        sp := SplitHere(s, t, path, skip, i, got);
      } else {
        sp := SplitAtStop(s, t, path, skip, i + 1, got[key := tr.end.value]);
        sp := SplitLater(s, t, path, skip, i, got, sp);
      }
    }
  }

  lemma SplitPassed(s: Schema, t: Target, path: string, skip: set<string>, i: nat, got: map<string, Decoded>,
      later: Split) returns (sp: Split)
    requires IsTable(s) && i < |EntriesOf(t)|
    requires PathAt(t, path, i) in skip || !Reads(s, EntriesOf(t)[i].key)
    requires Splits(s, t, path, skip, i + 1, got, later)
    ensures Splits(s, t, path, skip, i, got, sp)
  {
    hide WalkEntry, SectionTrace, Founds, JoinKey;
    var first := if ReadsAt(s, t, i) && PathAt(t, path, i) in skip then SectionTrace(s, t, path, i).events else [];
    sp := later.(held1 := first + later.held1);
    if PathAt(t, path, i) == PathAt(t, path, later.at) {
      JoinKeyInjective(path, EntriesOf(t)[i].key, EntriesOf(t)[later.at].key);
    }
    assert first + (later.held1 + later.held2) == first + later.held1 + later.held2;
    var events := SectionTrace(s, t, path, later.at).events;
    assert first + (later.held1 + events + later.held2) == first + later.held1 + events + later.held2;
  }

  lemma SplitHere(s: Schema, t: Target, path: string, skip: set<string>, i: nat, got: map<string, Decoded>)
    returns (sp: Split)
    requires IsTable(s) && ReadsAt(s, t, i) && PathAt(t, path, i) !in skip && EntriesOf(t)[i].key !in got
    requires NotFrom(EntriesOf(t), i + 1, EntriesOf(t)[i].key)
    requires SectionTrace(s, t, path, i).end.Stop?
    ensures Splits(s, t, path, skip, i, got, sp)
  {
    hide Walk;
    var key := EntriesOf(t)[i].key;
    AsideElsewhere(s, t, path, skip, key, i + 1, got);
    var more := skip + {PathAt(t, path, i)};
    sp := Split(i, [], WalkEntries(s, t, path, more, i, got).events, [], HeldEvents(s, t, path, skip, i + 1));
    var events := SectionTrace(s, t, path, i).events;
    assert [] + events == events && [] + sp.after == sp.after;
    assert [] + sp.held2 == sp.held2 && [] + events + sp.held2 == events + sp.held2;
    NoEvents();
  }

  lemma SplitLater(s: Schema, t: Target, path: string, skip: set<string>, i: nat, got: map<string, Decoded>,
      later: Split) returns (sp: Split)
    requires IsTable(s) && ReadsAt(s, t, i) && PathAt(t, path, i) !in skip && EntriesOf(t)[i].key !in got
    requires NotFrom(EntriesOf(t), i + 1, EntriesOf(t)[i].key)
    requires SectionTrace(s, t, path, i).end.Done?
    requires Splits(s, t, path, skip, i + 1, got[EntriesOf(t)[i].key := SectionTrace(s, t, path, i).end.value], later)
    ensures Splits(s, t, path, skip, i, got, sp)
  {
    hide Walk, Founds;
    var key, tr := EntriesOf(t)[i].key, SectionTrace(s, t, path, i);
    sp := later.(before := tr.events + later.before);
    if PathAt(t, path, i) == PathAt(t, path, later.at) {
      JoinKeyInjective(path, key, EntriesOf(t)[later.at].key);
    }
    var events := SectionTrace(s, t, path, later.at).events;
    FoundsAppend(tr.events, later.before);
    assert tr.events + (later.before + events) == tr.events + later.before + events;
    assert tr.events + (later.before + later.after) == tr.events + later.before + later.after;
    assert [] + (later.held1 + later.held2) == later.held1 + later.held2;
    assert [] + (later.held1 + events + later.held2) == later.held1 + events + later.held2;
  }

  // ---- The same of a whole read ----

  /** The sections of a read are the entries of the table it reads. */
  predicate StopsInSection(s: Schema, t: Target, path: string, skip: set<string>) {
    IsTable(Core(s)) && WalkEntries(Core(s), t, path, skip, 0, map[]).end.Stop?
  }

  predicate Advances(s: Schema, t: Target, path: string, skip: set<string>, sp: Split) {
    && ReadsAt(Core(s), t, sp.at) && PathAt(t, path, sp.at) !in skip
    && var section := SectionTrace(Core(s), t, path, sp.at);
       var more := skip + {PathAt(t, path, sp.at)};
    && section.end.Stop?
    && Walk(s, t, path, skip) ==
         Trace(sp.before + section.events, Stop(true, Some(Section(PathAt(t, path, sp.at), |Founds(sp.before)|))))
    && Walk(s, t, path, more).events == sp.before + sp.after
    && HeldEvents(Core(s), t, path, skip, 0) == sp.held1 + sp.held2
    && HeldEvents(Core(s), t, path, more, 0) == sp.held1 + section.events + sp.held2
    && Asides(Core(s), t, path, more, 0) == Asides(Core(s), t, path, skip, 0) + 1
  }

  /** Setting aside the section a walk stopped in: what it met there is held, the rest goes on. */
  lemma {:induction false} Advance(s: Schema, t: Target, path: string, skip: set<string>) returns (sp: Split)
    requires UniqueRead(s, t) && StopsInSection(s, t, path, skip)
    ensures Advances(s, t, path, skip, sp)
  {
    match s
    case SOption(inner) =>
      hide Walk, UniqueRead, WalkEntries, HeldEvents, Asides, SectionTrace;
      assert t.At? && !t.node.value.Null? by { NoEntries(s, t, path, skip); }
      OptionWalk(s, t, path, skip);
      sp := Advance(inner, t, path, skip);
      OptionWalk(s, t, path, skip + {PathAt(t, path, sp.at)});
      sp := AdvanceOption(s, t, path, skip, sp);
    case SMapped(inner, takes) =>
      hide Walk, UniqueRead, WalkEntries, HeldEvents, Asides, SectionTrace;
      MappedWalk(s, t, path, skip);
      sp := Advance(inner, t, path, skip);
      MappedWalk(s, t, path, skip + {PathAt(t, path, sp.at)});
    case _ =>
      sp := AdvanceTable(s, t, path, skip);
  }

  lemma NoEntries(s: Schema, t: Target, path: string, skip: set<string>)
    requires StopsInSection(s, t, path, skip)
    ensures t.At? && t.node.value.Table?
  {
  }

  lemma OptionWalk(s: Schema, t: Target, path: string, skip: set<string>)
    requires s.SOption? && t.At? && !t.node.value.Null?
    ensures Walk(s, t, path, skip) == Optional(t, path, Walk(s.inner, t, path, skip))
    ensures UniqueRead(s, t) == UniqueRead(s.inner, t)
  {
  }

  lemma MappedWalk(s: Schema, t: Target, path: string, skip: set<string>)
    requires s.SMapped?
    ensures Walk(s, t, path, skip) == Screened(s.takes, Walk(s.inner, t, path, skip))
    ensures UniqueRead(s, t) == UniqueRead(s.inner, t)
  {
  }

  lemma AdvanceOption(s: Schema, t: Target, path: string, skip: set<string>, inner: Split) returns (sp: Split)
    requires s.SOption? && t.At? && !t.node.value.Null?
    requires Advances(s.inner, t, path, skip, inner)
    requires Walk(s, t, path, skip) == Optional(t, path, Walk(s.inner, t, path, skip))
    requires Walk(s, t, path, skip + {PathAt(t, path, inner.at)}) ==
               Optional(t, path, Walk(s.inner, t, path, skip + {PathAt(t, path, inner.at)}))
    ensures Advances(s, t, path, skip, sp)
  {
    hide Walk, WalkEntries, HeldEvents, Asides, SectionTrace;
    var next := Walk(s.inner, t, path, skip + {PathAt(t, path, inner.at)});
    var told := if next.end.Done? || next.end.recorded then [] else [Found(Problem(path, OriginOf(t), Refused))];
    sp := inner.(after := inner.after + told);
    assert inner.before + inner.after + told == inner.before + (inner.after + told);
    var section := SectionTrace(Core(s), t, path, sp.at);
    assert sp.before + section.events + [] == sp.before + section.events;
    assert inner.after + [] == inner.after;
  }

  lemma AdvanceTable(s: Schema, t: Target, path: string, skip: set<string>) returns (sp: Split)
    requires IsTable(s) && UniqueTable(s, t) && WalkEntries(s, t, path, skip, 0, map[]).end.Stop?
    ensures Advances(s, t, path, skip, sp)
  {
    hide Walk, WalkTable, WalkEntries, WalkGaps, UniqueTable, HeldEvents, Asides, SectionTrace, AllFound, Founds;
    NoEntries(s, t, path, skip);
    var inner := SplitAtStop(s, t, path, skip, 0, map[]);
    var first := AllFound(NotATable(t, path));
    var section := SectionTrace(s, t, path, inner.at);
    var next := WalkTable(s, t, path, skip + {PathAt(t, path, inner.at)});
    TableStops(s, t, path, skip, inner);
    TablePrefix(s, t, path, skip + {PathAt(t, path, inner.at)}, inner.before);
    sp := inner.(before := first + inner.before, after := next.events[|first| + |inner.before|..]);
    FoundsAppend(first, inner.before);
    TableWalk(s, t, path, skip);
    TableWalk(s, t, path, skip + {PathAt(t, path, inner.at)});
  }

  lemma TableWalk(s: Schema, t: Target, path: string, skip: set<string>)
    requires IsTable(s) && (s.SAny? ==> t.At? && t.node.value.Table?)
    ensures Walk(s, t, path, skip) == WalkTable(s, t, path, skip)
    ensures Whole(s, t, path) == WholeTable(s, t, path)
  {
    hide WalkTable, WholeTable;
  }

  lemma TableStops(s: Schema, t: Target, path: string, skip: set<string>, sp: Split)
    requires IsTable(s) && Splits(s, t, path, skip, 0, map[], sp)
    ensures var first := AllFound(NotATable(t, path));
            WalkTable(s, t, path, skip) ==
              Trace(first + sp.before + SectionTrace(s, t, path, sp.at).events,
                    Stop(true, Some(Section(PathAt(t, path, sp.at), |Founds(first)| + |Founds(sp.before)|))))
  {
    hide WalkEntries, WalkGaps, HeldEvents, Asides, SectionTrace, AllFound, Founds;
    var first := AllFound(NotATable(t, path));
    var section := SectionTrace(s, t, path, sp.at);
    assert first + (sp.before + section.events) + [] == first + sp.before + section.events;
  }

  /** A table's walk begins with what its entries' walk begins with. */
  lemma TablePrefix(s: Schema, t: Target, path: string, skip: set<string>, before: seq<Event>)
    requires IsTable(s) && before <= WalkEntries(s, t, path, skip, 0, map[]).events
    ensures AllFound(NotATable(t, path)) + before <= WalkTable(s, t, path, skip).events
  {
    hide WalkEntries, WalkGaps, AllFound, Founds;
  }

  // ---- A walk that stops in no section ----

  predicate AllRefuse(s: Schema, t: Target, path: string, skip: set<string>) {
    forall i | 0 <= i < |EntriesOf(t)| && Reads(s, EntriesOf(t)[i].key) && PathAt(t, path, i) in skip ::
      SectionTrace(s, t, path, i).end.Stop?
  }

  lemma {:induction false} EntriesInAll(s: Schema, t: Target, path: string, skip: set<string>, i: nat,
      got: map<string, Decoded>)
    requires IsTable(s) && UniqueTable(s, t) && i <= |EntriesOf(t)| && AllRefuse(s, t, path, skip)
    requires forall k | k in got :: NotFrom(EntriesOf(t), i, k)
    requires WalkEntries(s, t, path, skip, i, got).end.Done?
    ensures InAll(s, t, path, skip, i, got)
    decreases |EntriesOf(t)| - i
  {
    hide WalkEntry, UniqueTable, UniqueRead, Reports, Fills, Founds, HeldEvents, SectionEvents, SectionTrace, Asides,
      Refusals, SectionValues, InAll, AllRefuse;
    if i == |EntriesOf(t)| {
      NoneInAll(s, t, path, skip, i, got);
    } else if PathAt(t, path, i) in skip || !Reads(s, EntriesOf(t)[i].key) {
      EntriesInAll(s, t, path, skip, i + 1, got);
      RefusesAt(s, t, path, skip, i);
      PassedInAll(s, t, path, skip, i, got);
    } else {
      var key := EntriesOf(t)[i].key;
      assert key !in got;
      UniqueEntry(s, t, i);
      ReadInAll(s, t, path, skip, i, got);
      EntriesInAll(s, t, path, skip, i + 1, got[key := SectionTrace(s, t, path, i).end.value]);
    }
  }

  lemma RefusesAt(s: Schema, t: Target, path: string, skip: set<string>, i: nat)
    requires AllRefuse(s, t, path, skip) && i < |EntriesOf(t)| &&
             (PathAt(t, path, i) in skip || !Reads(s, EntriesOf(t)[i].key))
    ensures Reads(s, EntriesOf(t)[i].key) ==> SectionTrace(s, t, path, i).end.Stop?
  {
    hide SectionTrace;
  }

  /** What the entries' walk from `i` on has in common with the sections walked alone. */
  ghost predicate InAll(s: Schema, t: Target, path: string, skip: set<string>, i: nat, got: map<string, Decoded>)
    requires IsTable(s) && i <= |EntriesOf(t)|
  {
    var tr := WalkEntries(s, t, path, skip, i, got);
    && tr.end == Done(SectionValues(s, t, path, i, got))
    && multiset(Reports(tr.events)) + multiset(Reports(HeldEvents(s, t, path, skip, i))) ==
         multiset(Reports(SectionEvents(s, t, path, i)))
    && |Fills(tr.events)| + |Fills(HeldEvents(s, t, path, skip, i))| == |Fills(SectionEvents(s, t, path, i))|
    && Asides(s, t, path, skip, i) == Refusals(s, t, path, i)
  }

  lemma NoneInAll(s: Schema, t: Target, path: string, skip: set<string>, i: nat, got: map<string, Decoded>)
    requires IsTable(s) && i == |EntriesOf(t)|
    ensures InAll(s, t, path, skip, i, got)
  {
    NoEvents();
  }

  lemma PassedInAll(s: Schema, t: Target, path: string, skip: set<string>, i: nat, got: map<string, Decoded>)
    requires IsTable(s) && i < |EntriesOf(t)|
    requires PathAt(t, path, i) in skip || !Reads(s, EntriesOf(t)[i].key)
    requires Reads(s, EntriesOf(t)[i].key) ==> SectionTrace(s, t, path, i).end.Stop?
    requires InAll(s, t, path, skip, i + 1, got)
    ensures InAll(s, t, path, skip, i, got)
  {
    hide SectionTrace, Reports, Fills, WalkEntries, HeldEvents, SectionEvents, SectionValues, Asides, Refusals;
    var first := if ReadsAt(s, t, i) then SectionTrace(s, t, path, i).events else [];
    PassedUnfolds(s, t, path, skip, i, got);
    Appended(first, HeldEvents(s, t, path, skip, i + 1));
    Appended(first, SectionEvents(s, t, path, i + 1));
  }

  lemma PassedUnfolds(s: Schema, t: Target, path: string, skip: set<string>, i: nat, got: map<string, Decoded>)
    requires IsTable(s) && i < |EntriesOf(t)|
    requires PathAt(t, path, i) in skip || !Reads(s, EntriesOf(t)[i].key)
    requires Reads(s, EntriesOf(t)[i].key) ==> SectionTrace(s, t, path, i).end.Stop?
    ensures var first, one :=
              if ReadsAt(s, t, i) then SectionTrace(s, t, path, i).events else [], if ReadsAt(s, t, i) then 1 else 0;
            && WalkEntries(s, t, path, skip, i, got) == WalkEntries(s, t, path, skip, i + 1, got)
            && HeldEvents(s, t, path, skip, i) == first + HeldEvents(s, t, path, skip, i + 1)
            && SectionEvents(s, t, path, i) == first + SectionEvents(s, t, path, i + 1)
            && SectionValues(s, t, path, i, got) == SectionValues(s, t, path, i + 1, got)
            && Asides(s, t, path, skip, i) == one + Asides(s, t, path, skip, i + 1)
            && Refusals(s, t, path, i) == one + Refusals(s, t, path, i + 1)
  {
    hide SectionTrace;
  }

  lemma ReadInAll(s: Schema, t: Target, path: string, skip: set<string>, i: nat, got: map<string, Decoded>)
    requires IsTable(s) && ReadsAt(s, t, i) && PathAt(t, path, i) !in skip && EntriesOf(t)[i].key !in got
    requires WalkEntries(s, t, path, skip, i, got).end.Done?
    ensures SectionTrace(s, t, path, i).end.Done?
    ensures var value := SectionTrace(s, t, path, i).end.value;
            var more := got[EntriesOf(t)[i].key := value];
            && WalkEntries(s, t, path, skip, i + 1, more).end.Done?
            && (InAll(s, t, path, skip, i + 1, more) ==> InAll(s, t, path, skip, i, got))
  {
    hide WalkEntry, Reports, Fills, WalkEntries, HeldEvents, SectionEvents, SectionValues, Asides, Refusals;
    ReadUnfolds(s, t, path, skip, i, got);
    var tr := SectionTrace(s, t, path, i);
    var more := got[EntriesOf(t)[i].key := tr.end.value];
    Appended(tr.events, WalkEntries(s, t, path, skip, i + 1, more).events);
    Appended(tr.events, SectionEvents(s, t, path, i + 1));
    assert [] + HeldEvents(s, t, path, skip, i + 1) == HeldEvents(s, t, path, skip, i + 1);
  }

  lemma ReadUnfolds(s: Schema, t: Target, path: string, skip: set<string>, i: nat, got: map<string, Decoded>)
    requires IsTable(s) && ReadsAt(s, t, i) && PathAt(t, path, i) !in skip && EntriesOf(t)[i].key !in got
    requires WalkEntries(s, t, path, skip, i, got).end.Done?
    ensures SectionTrace(s, t, path, i).end.Done?
    ensures var tr := SectionTrace(s, t, path, i);
            var more := got[EntriesOf(t)[i].key := tr.end.value];
            && WalkEntries(s, t, path, skip, i + 1, more).end.Done?
            && WalkEntries(s, t, path, skip, i, got) == Before(tr.events, WalkEntries(s, t, path, skip, i + 1, more))
            && HeldEvents(s, t, path, skip, i) == [] + HeldEvents(s, t, path, skip, i + 1)
            && SectionEvents(s, t, path, i) == tr.events + SectionEvents(s, t, path, i + 1)
            && SectionValues(s, t, path, i, got) == SectionValues(s, t, path, i + 1, more)
            && Asides(s, t, path, skip, i) == Asides(s, t, path, skip, i + 1)
            && Refusals(s, t, path, i) == Refusals(s, t, path, i + 1)
  {
    hide WalkEntry;
  }

  lemma Appended(a: seq<Event>, b: seq<Event>)
    ensures multiset(Reports(a + b)) == multiset(Reports(a)) + multiset(Reports(b))
    ensures |Fills(a + b)| == |Fills(a)| + |Fills(b)|
  {
    ReportsAppend(a, b);
    FillsAppend(a, b);
  }

  /** What a walk that stops in no section lacks of the whole read is what the sections set aside met. */
  predicate Completes(s: Schema, t: Target, path: string, skip: set<string>) {
    var walk, whole, held := Walk(s, t, path, skip), Whole(s, t, path), HeldEvents(Core(s), t, path, skip, 0);
    && multiset(Reports(walk.events)) + multiset(Reports(held)) == multiset(Reports(whole.events))
    && |Fills(walk.events)| + |Fills(held)| == |Fills(whole.events)|
    && SameEnd(walk.end, whole.end)
    && Asides(Core(s), t, path, skip, 0) == Refusals(Core(s), t, path, 0)
  }

  predicate SameEnd<T(==)>(one: End<T>, other: End<T>) {
    match one
    case Done(v) => other == Done(v)
    case Stop(recorded, section) =>
      && other.Stop? && other.recorded == recorded
      && (section.Some? <==> other.section.Some?)
      && (section.Some? ==> section.value.path == other.section.value.path)
  }

  lemma {:induction false} Complete(s: Schema, t: Target, path: string, skip: set<string>)
    requires UniqueRead(s, t) && !StopsInSection(s, t, path, skip) && AllRefuse(Core(s), t, path, skip)
    ensures Completes(s, t, path, skip)
  {
    hide Walk, WalkTable, Whole, WalkEntries, UniqueRead, UniqueTable, HeldEvents, Asides, Refusals, AllRefuse,
      Reports, Fills, SectionTrace;
    if !IsTable(Core(s)) || EntriesOf(t) == [] {
      SkipIrrelevant(s, t, path, skip);
      NothingHeld(s, t, path, skip);
    } else {
      CompleteNested(s, t, path, skip);
    }
  }

  lemma {:induction false} CompleteNested(s: Schema, t: Target, path: string, skip: set<string>)
    requires UniqueRead(s, t) && !StopsInSection(s, t, path, skip) && AllRefuse(Core(s), t, path, skip)
    requires IsTable(Core(s)) && t.At? && t.node.value.Table?
    ensures Completes(s, t, path, skip)
  {
    hide Walk, WalkTable, Whole, WalkEntries, UniqueTable, HeldEvents, Asides, Refusals, AllRefuse, Reports, Fills,
      SectionTrace;
    if s.SOption? {
      OptionWalk(s, t, path, skip);
      CompleteNested(s.inner, t, path, skip);
      CompleteOption(s, t, path, skip);
    } else if s.SMapped? {
      MappedWalk(s, t, path, skip);
      CompleteNested(s.inner, t, path, skip);
      CompleteMapped(s, t, path, skip);
    } else {
      CompleteTable(s, t, path, skip);
    }
  }

  /** With no entry to leave out, the sections walked alone are the walk. */
  lemma {:induction false} SkipIrrelevant(s: Schema, t: Target, path: string, skip: set<string>)
    requires !IsTable(Core(s)) || EntriesOf(t) == []
    ensures Walk(s, t, path, skip) == Whole(s, t, path)
  {
    if IsTable(s) && (s.SAny? ==> t.At? && t.node.value.Table?) {
      hide Walk, Sealed, WalkGaps;
      TableWalk(s, t, path, skip);
      var first, gaps := AllFound(NotATable(t, path)), WalkGaps(s, t, path, 0, map[]);
      BeforeNothing(gaps);
      assert first + [] == first;
    } else if s.SOption? {
      SkipIrrelevant(s.inner, t, path, skip);
    } else if s.SMapped? {
      SkipIrrelevant(s.inner, t, path, skip);
    }
  }

  lemma CompleteMapped(s: Schema, t: Target, path: string, skip: set<string>)
    requires s.SMapped? && Completes(s.inner, t, path, skip)
    requires Walk(s, t, path, skip) == Screened(s.takes, Walk(s.inner, t, path, skip))
    ensures Completes(s, t, path, skip)
  {
    hide Walk, HeldEvents, Asides, Refusals, Fills, Reports;
    assert Whole(s, t, path) == Screened(s.takes, Whole(s.inner, t, path));
  }

  lemma {:induction false} NothingHeldFrom(s: Schema, t: Target, path: string, skip: set<string>, i: nat)
    requires i <= |EntriesOf(t)| && (!IsTable(s) || EntriesOf(t) == [])
    ensures HeldEvents(s, t, path, skip, i) == [] && Asides(s, t, path, skip, i) == 0 && Refusals(s, t, path, i) == 0
    decreases |EntriesOf(t)| - i
  {
    if i < |EntriesOf(t)| {
      NothingHeldFrom(s, t, path, skip, i + 1);
    }
  }

  lemma NothingHeld(s: Schema, t: Target, path: string, skip: set<string>)
    requires !IsTable(Core(s)) || EntriesOf(t) == []
    requires Walk(s, t, path, skip) == Whole(s, t, path)
    ensures Completes(s, t, path, skip)
  {
    hide Walk, Whole, HeldEvents, Asides, Refusals, Fills, Reports;
    NothingHeldFrom(Core(s), t, path, skip, 0);
    NoEvents();
    assert multiset(Reports(Walk(s, t, path, skip).events)) + multiset([]) ==
      multiset(Reports(Walk(s, t, path, skip).events));
  }

  lemma CompleteOption(s: Schema, t: Target, path: string, skip: set<string>)
    requires s.SOption? && t.At? && !t.node.value.Null? && Completes(s.inner, t, path, skip)
    requires Walk(s, t, path, skip) == Optional(t, path, Walk(s.inner, t, path, skip))
    ensures Completes(s, t, path, skip)
  {
    hide Walk, HeldEvents, Asides, Refusals, Fills, Reports;
    assert Whole(s, t, path) == Optional(t, path, Whole(s.inner, t, path));
    var walk, whole := Walk(s.inner, t, path, skip), Whole(s.inner, t, path);
    var told := if walk.end.Done? || walk.end.recorded then [] else [Found(Problem(path, OriginOf(t), Refused))];
    Appended(walk.events, told);
    Appended(whole.events, told);
    assert walk.events + [] == walk.events && whole.events + [] == whole.events;
  }

  lemma CompleteTable(s: Schema, t: Target, path: string, skip: set<string>)
    requires IsTable(s) && UniqueTable(s, t) && (s.SAny? ==> t.At? && t.node.value.Table?)
    requires AllRefuse(s, t, path, skip) && WalkEntries(s, t, path, skip, 0, map[]).end.Done?
    ensures Completes(s, t, path, skip)
  {
    hide Walk, Whole, WalkTable, WholeTable, WalkEntries, WalkGaps, SectionValues, SectionEvents, HeldEvents,
      Asides, Refusals,
      Fills, Reports, Founds, AllFound, UniqueTable, AllRefuse, Sealed;
    TableWalk(s, t, path, skip);
    EntriesInAll(s, t, path, skip, 0, map[]);
    TableShapes(s, t, path, skip);
    var entries := WalkEntries(s, t, path, skip, 0, map[]);
    var first := AllFound(NotATable(t, path));
    var last := Sealed(s, t, path, WalkGaps(s, t, path, 0, entries.end.value));
    var alone := SectionEvents(s, t, path, 0);
    AroundBoth(first, entries.events, alone, last.events, HeldEvents(s, t, path, skip, 0));
  }

  /** Two lists that differ by what is held still do with the same around them. */
  lemma AroundBoth(first: seq<Event>, some: seq<Event>, all: seq<Event>, last: seq<Event>, held: seq<Event>)
    requires multiset(Reports(some)) + multiset(Reports(held)) == multiset(Reports(all))
    requires |Fills(some)| + |Fills(held)| == |Fills(all)|
    ensures multiset(Reports(first + some + last)) + multiset(Reports(held)) == multiset(Reports(first + all + last))
    ensures |Fills(first + some + last)| + |Fills(held)| == |Fills(first + all + last)|
  {
    hide Reports, Fills;
    Appended(first, some);
    Appended(first + some, last);
    Appended(first, all);
    Appended(first + all, last);
  }

  lemma TableShapes(s: Schema, t: Target, path: string, skip: set<string>)
    requires IsTable(s)
    requires WalkEntries(s, t, path, skip, 0, map[]).end == Done(SectionValues(s, t, path, 0, map[]))
    ensures var entries := WalkEntries(s, t, path, skip, 0, map[]);
            var first := AllFound(NotATable(t, path));
            var last := Sealed(s, t, path, WalkGaps(s, t, path, 0, entries.end.value));
            && WalkTable(s, t, path, skip) == Before(first + entries.events, last)
            && WholeTable(s, t, path) == Before(first + SectionEvents(s, t, path, 0), last)
  {
    hide WalkEntries, WalkGaps, SectionValues, SectionEvents, Founds, AllFound, Sealed;
    var entries := WalkEntries(s, t, path, skip, 0, map[]);
    var first := AllFound(NotATable(t, path));
    var gaps := WalkGaps(s, t, path, 0, entries.end.value);
    BeforeBefore(first, entries.events, gaps);
    SealedBefore(s, t, path, first + entries.events, gaps);
    SealedBefore(s, t, path, first + SectionEvents(s, t, path, 0), gaps);
  }
}
