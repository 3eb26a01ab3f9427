/** What it means that a pass is the walk cut short. */
module Simulation {
  // Given patches that are the first `m` fields the walk supplies, a pass finds what the walk finds and ends
  // as it ends, or it asks for field `m`.

  import opened Options
  import opened Trees
  import opened Schemas
  import opened Reader
  import opened Walks
  import opened Events
  import opened CleanReads

  // ---- What a pass has to agree on ----

  predicate EndMatches(end: End<Decoded>, r: Result<Decoded>) {
    match end
    case Done(v) => r == Ok(v)
    case Stop(recorded, _) => r.Err? && r.error.recorded == recorded && (recorded || r.error.kind.Custom?)
  }

  function FailedAfter(cx: Plan, path: string, tr: Trace<Decoded>, before: Log): Option<Failed> {
    if tr.end.Stop? && tr.end.section.Some? && path == cx.root && tr.end.section.value.path !in cx.skipped
    then Some(Failed(tr.end.section.value.path, |before.problems| + tr.end.section.value.start))
    else before.failed
  }

  predicate Matches(cx: Plan, path: string, tr: Trace<Decoded>, m: nat, before: Log, out: (Log, Result<Decoded>)) {
    var fills := Fills(tr.events);
    var (after, r) := out;
    if m >= |fills| then
      && after.problems == before.problems + Founds(tr.events)
      && after.patch == before.patch
      && after.failed == FailedAfter(cx, path, tr, before)
      && EndMatches(tr.end, r)
    else
      after.patch == Some(fills[m]) && after.failed == before.failed && r.Err? && r.error.recorded
  }

  /** A part read to its end, then the rest: the whole agrees. */
  lemma MatchesBefore(cx: Plan, path: string, events: seq<Event>, tr: Trace<Decoded>, m: nat, before: Log, mid: Log,
      out: (Log, Result<Decoded>))
    requires mid.problems == before.problems + Founds(events)
    requires mid.patch == before.patch && mid.failed == before.failed
    requires m >= |Fills(events)|
    requires Matches(cx, path, tr, m - |Fills(events)|, mid, out)
    ensures Matches(cx, path, Before(events, tr), m, before, out)
  {
    BeforeFills(events, tr);
    FoundsAppend(events, tr.events);
    assert before.problems + Founds(events) + Founds(tr.events) ==
      before.problems + (Founds(events) + Founds(tr.events));
  }

  // ---- Which patches belong to what is still to be read ----

  predicate Aligned(patches: seq<Patch>, places: seq<string>, fills: seq<NewPatch>) {
    forall q | q in places :: Own(patches, q) == Own(PatchesOf(fills), q)
  }

  /** The patches for a table whose first `e` own patches are used and whose tables at `places` are left. */
  predicate AlignedFrom(patches: seq<Patch>, path: string, places: seq<string>, e: nat, fills: seq<NewPatch>) {
    && e <= |Own(patches, path)|
    && Own(patches, path)[e..] == Own(PatchesOf(fills), path)
    && Aligned(patches, places, fills)
  }

  function Least(a: nat, b: nat): nat {
    if a < b then a else b
  }

  /** The patches of one part, and those of what comes after it. */
  lemma SplitPart(patches: seq<Patch>, here: seq<string>, there: seq<string>, child: seq<NewPatch>,
      rest: seq<NewPatch>, m: nat)
    requires Disjoint(here, there) && AllAt(child, here) && NoneAt(rest, here)
    requires m <= |child| + |rest|
    requires Aligned(patches, here + there, (child + rest)[..m])
    ensures Aligned(patches, here, child[..Least(m, |child|)])
    ensures m >= |child| ==> Aligned(patches, there, rest[..m - |child|])
  {
    var n := Least(m, |child|);
    forall q | q in here
      ensures Own(patches, q) == Own(PatchesOf(child[..n]), q)
    {
      assert q in here + there;
      PatchesSplit(child, rest, m, q);
      if m >= |child| {
        assert child[..n] == child;
        OwnNone(PatchesOf(rest[..m - |child|]), q);
      }
    }
    if m >= |child| {
      forall q | q in there
        ensures Own(patches, q) == Own(PatchesOf(rest[..m - |child|]), q)
      {
        assert q in here + there;
        PatchesSplit(child, rest, m, q);
        OwnElsewhere(child, here, q);
      }
    }
  }

  /** The patches of one key, and those of the rest of its table. */
  lemma SplitKey(patches: seq<Patch>, path: string, here: seq<string>, there: seq<string>, e: nat,
                 child: seq<NewPatch>, rest: seq<NewPatch>, m: nat)
    requires Apart([path] + (here + there)) && AllAt(child, here) && AllAt(rest, [path] + there)
    requires m <= |child| + |rest|
    requires AlignedFrom(patches, path, here + there, e, (child + rest)[..m])
    ensures Aligned(patches, here, child[..Least(m, |child|)])
    ensures m >= |child| ==> AlignedFrom(patches, path, there, e, rest[..m - |child|])
  {
    hide Apart, Aligned;
    ApartParts([path], here + there);
    ApartParts(here, there);
    assert path in [path];
    SplitPart(patches, here, there, child, rest, m);
    PatchesSplit(child, rest, m, path);
    OwnElsewhere(child, here, path);
  }

  /** A table's own field, supplied: one patch is used. */
  lemma SplitOwn(patches: seq<Patch>, path: string, places: seq<string>, e: nat, fill: NewPatch, rest: seq<NewPatch>,
      m: nat)
    requires path !in places && fill.patch.parent == path && 1 <= m <= 1 + |rest|
    requires AlignedFrom(patches, path, places, e, ([fill] + rest)[..m])
    ensures e < |Own(patches, path)| && Own(patches, path)[e] == fill.patch.field
    ensures AlignedFrom(patches, path, places, e + 1, rest[..m - 1])
  {
    forall q
      ensures Own(PatchesOf(([fill] + rest)[..m]), q) ==
              (if q == path then [fill.patch.field] else []) + Own(PatchesOf(rest[..m - 1]), q)
    {
      PatchesSplit([fill], rest, m, q);
      assert PatchesOf([fill])[1..] == [];
      assert Own(PatchesOf([fill]), q) == if q == path then [fill.patch.field] else [];
    }
    assert Own(patches, path)[e..] == [fill.patch.field] + Own(PatchesOf(rest[..m - 1]), path);
    assert Own(patches, path)[e + 1..] == Own(patches, path)[e..][1..];
  }

  lemma FewerAligned(patches: seq<Patch>, path: string, here: seq<string>, there: seq<string>, e: nat,
      fills: seq<NewPatch>)
    requires AlignedFrom(patches, path, here + there, e, fills)
    ensures AlignedFrom(patches, path, there, e, fills)
  {
    assert forall q | q in there :: q in here + there;
  }

  // ---- What a read is called with ----

  /** The type under the wrappers that read the same node. */
  function Core(s: Schema): Schema {
    match s
    case SOption(inner) => Core(inner)
    case SMapped(inner, _) => Core(inner)
    case _ => s
  }

  function SkipAt(cx: Plan, path: string): set<string> {
    if path == cx.root then cx.skipped else {}
  }

  /** A section set aside that no entry supplies is one a patch supplies. */
  ghost predicate SkipsSupplied(cx: Plan, t: Target, path: string) {
    path == cx.root ==>
      forall f | JoinKey(path, f) in cx.skipped && !HasKey(EntriesOf(t), f) :: f in Own(cx.patches, path)
  }

  /** The tables left beneath the one at `path` print different paths, none of them its own or the root's. */
  predicate Room(cx: Plan, path: string, places: seq<string>) {
    Apart([path] + places) && (path == cx.root || cx.root !in places)
  }

  lemma RoomParts(cx: Plan, path: string, here: seq<string>, there: seq<string>)
    requires Room(cx, path, here + there)
    ensures Apart(here) && path !in here && cx.root !in here && Disjoint(here, there) && Room(cx, path, there)
  {
    hide Apart;
    ApartParts([path], here + there);
    ApartParts(here, there);
    ApartParts([path], there);
    assert path in [path];
  }

  ghost predicate Ready(cx: Plan, s: Schema, t: Target, path: string, log: Log, m: nat) {
    var places := Places(s, t, path, SkipAt(cx, path));
    var fills := Fills(Walk(s, t, path, SkipAt(cx, path)).events);
    && UniqueRead(s, t) && Apart(places)
    && log.patch.None?
    && (path == cx.root || cx.root !in places)
    && (path in places ==> SkipsSupplied(cx, t, path))
    && m <= |fills|
    && Aligned(cx.patches, places, fills[..m])
  }
}
