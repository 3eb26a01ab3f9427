/** Which leaves a read of a given type marks. */
module Marks {
  import opened Options
  import opened Trees
  import opened TreeLaws
  import opened Schemas
  import opened Reader
  import opened Walks
  import opened Events
  import opened CleanReads
  import opened Simulation
  import opened Sections
  import opened Drivers
  import opened ReportLaws
  import opened Checks
  import opened RefusalLaws
  import opened ValueLaws
  import Consumption

  /** The paths of the leaves the type reads: what a read marks when nothing ends it early. */
  function Known(s: Schema, t: Target, path: string): set<string>
    decreases s, Held(t), 5, 0
  {
    match s
    case SOption(inner) => if t.Absent? then {} else if t.node.value.Null? then {path} else Known(inner, t, path)
    case SMapped(inner, _) => Known(inner, t, path)
    case SSeq(_) => KnownItems(s, t, path, 0)
    case SAny =>
      if t.Absent? then {}
      else if t.node.value.Array? then KnownItems(s, t, path, 0)
      else if t.node.value.Table? then KnownEntries(s, t, path, 0)
      else {path}
    case SMap(_) => KnownEntries(s, t, path, 0)
    case SStruct(_) => KnownEntries(s, t, path, 0)
    case _ => if t.At? && IsScalar(t.node) then {path} else {}
  }

  function KnownItems(s: Schema, t: Target, path: string, i: nat): set<string>
    requires (s.SSeq? || s.SAny?) && i <= |ItemsOf(t)|
    decreases s, Held(t), 0, |ItemsOf(t)| - i
  {
    if i == |ItemsOf(t)| then {}
    else Known(ElementOf(s), At(ItemsOf(t)[i]), JoinIndex(path, i)) + KnownItems(s, t, path, i + 1)
  }

  function KnownEntries(s: Schema, t: Target, path: string, i: nat): set<string>
    requires IsTable(s) && i <= |EntriesOf(t)|
    decreases s, Held(t), 3, |EntriesOf(t)| - i
  {
    if i == |EntriesOf(t)| then {} else KnownEntry(s, t, path, i) + KnownEntries(s, t, path, i + 1)
  }

  function KnownEntry(s: Schema, t: Target, path: string, i: nat): set<string>
    requires IsTable(s) && i < |EntriesOf(t)|
    decreases s, Held(t), 2, 0
  {
    var key := EntriesOf(t)[i].key;
    if Reads(s, key) then Known(Under(s, key), At(EntriesOf(t)[i].node), JoinKey(path, key)) else {}
  }

  // ---- One pass ----

  /** Marks none but `known`, and every one of them if it ends with a value and nothing is set aside. */
  predicate Marked<T>(cx: Plan, before: Log, known: set<string>, out: (Log, Result<T>)) {
    && before.consumed <= out.0.consumed <= before.consumed + known
    && (cx.skipped == {} && out.1.Ok? ==> out.0.consumed == before.consumed + known)
  }

  lemma {:induction false} ReadMarks(cx: Plan, s: Schema, t: Target, path: string, log: Log)
    ensures Marked(cx, log, Known(s, t, path), Read(cx, s, t, path, log))
    decreases s, Held(t), 5, 0
  {
    hide ReadSeq, ReadTable, ReadScalar, KnownItems, KnownEntries, Mismatch;
    match s
    case SOption(inner) =>
      if t.At? && !t.node.value.Null? {
        ReadMarks(cx, inner, t, path, log);
      }
    case SMapped(inner, _) => ReadMarks(cx, inner, t, path, log);
    case SSeq(_) => SeqMarks(cx, s, t, path, log);
    case SAny =>
      if t.At? && t.node.value.Array? {
        SeqMarks(cx, s, t, path, log);
      } else if t.At? && t.node.value.Table? {
        TableMarks(cx, s, t, path, log);
      }
    case SMap(_) => TableMarks(cx, s, t, path, log);
    case SStruct(_) => TableMarks(cx, s, t, path, log);
    case _ =>
  }

  lemma {:induction false} SeqMarks(cx: Plan, s: Schema, t: Target, path: string, log: Log)
    requires s.SSeq? || (s.SAny? && t.At? && t.node.value.Array?)
    ensures Marked(cx, log, KnownItems(s, t, path, 0), ReadSeq(cx, s, t, path, log))
    decreases s, Held(t), 1, 0
  {
    hide ReadItems;
    if t.At? && t.node.value.Array? {
      ItemsMark(cx, s, t, path, 0, [], log);
    }
  }

  lemma {:induction false} ItemsMark(cx: Plan, s: Schema, t: Target, path: string, i: nat, got: seq<Decoded>, log: Log)
    requires (s.SSeq? || s.SAny?) && t.At? && t.node.value.Array? && i <= |t.node.value.items|
    ensures Marked(cx, log, KnownItems(s, t, path, i), ReadItems(cx, s, t, path, i, got, log))
    decreases s, Held(t), 0, |t.node.value.items| - i
  {
    hide Read, Known;
    if i < |t.node.value.items| {
      var item := At(t.node.value.items[i]);
      ReadMarks(cx, ElementOf(s), item, JoinIndex(path, i), log);
      var (log1, r) := Read(cx, ElementOf(s), item, JoinIndex(path, i), log);
      if r.Ok? {
        ItemsMark(cx, s, t, path, i + 1, got + [r.value], log1);
      }
    }
  }

  lemma {:induction false} NextMarks(cx: Plan, s: Schema, t: Target, base: string, path: string, log: Log)
    ensures Marked(cx, log, Known(s, t, path), NextValue(cx, s, t, base, path, log))
    decreases s, Held(t), 6, 0
  {
    hide Read, Known;
    ReadMarks(cx, s, t, path, log);
  }

  lemma {:induction false} EntriesMark(cx: Plan, s: Schema, t: Target, path: string, i: nat, got: map<string, Decoded>,
      log: Log)
    requires IsTable(s) && i <= |EntriesOf(t)|
    ensures Marked(cx, log, KnownEntries(s, t, path, i), ReadEntries(cx, s, t, path, i, got, log))
    decreases s, Held(t), 3, |EntriesOf(t)| - i
  {
    hide NextValue, Known;
    if i < |EntriesOf(t)| {
      var key, entry := EntriesOf(t)[i].key, At(EntriesOf(t)[i].node);
      if SetAside(cx, path, key) || !Reads(s, key) {
        EntriesMark(cx, s, t, path, i + 1, got, log);
      } else if !Taken(s, key, got) {
        NextMarks(cx, Under(s, key), entry, path, JoinKey(path, key), log);
        var (log1, r) := NextValue(cx, Under(s, key), entry, path, JoinKey(path, key), log);
        if r.Ok? {
          EntriesMark(cx, s, t, path, i + 1, got[key := r.value], log1);
        }
      }
    }
  }

  lemma {:induction false} TableMarks(cx: Plan, s: Schema, t: Target, path: string, log: Log)
    requires IsTable(s) && (s.SAny? ==> t.At? && t.node.value.Table?)
    ensures Marked(cx, log, KnownEntries(s, t, path, 0), ReadTable(cx, s, t, path, log))
    decreases s, Held(t), 4, 0
  {
    hide ReadEntries, ReadExtras, Extras, KnownEntries, Closed;
    var log1 := Record(log, NotATable(t, path));
    EntriesMark(cx, s, t, path, 0, map[], log1);
    var (log2, r2) := ReadEntries(cx, s, t, path, 0, map[], log1);
    if r2.Ok? {
      Consumption.ExtrasAdd(cx, s, t, path, Extras(cx.patches, path, EntriesOf(t)), 0, r2.value, log2);
    }
  }

  // ---- All the passes ----

  /** Whatever the read meets, only leaves its type reads are marked. */
  lemma {:induction false} DrivenKnown(s: Schema, t: Target, path: string, whereabouts: string -> Option<Origin>,
      st: State, pass: nat)
    requires pass <= MAX_PASSES && st.consumed <= Known(s, t, path)
    ensures Driven(ReadingOf(s, t, path, whereabouts), st, pass).consumed <= Known(s, t, path)
    decreases MAX_PASSES - pass
  {
    hide Read, Known;
    var rd := ReadingOf(s, t, path, whereabouts);
    ReadMarks(Plan(st.patches, path, st.skipped), s, t, path, NOTHING);
    assert rd.visit(st.patches, st.skipped) == Read(Plan(st.patches, path, st.skipped), s, t, path, NOTHING);
    if TurnOf(rd, st).Adds? && pass < MAX_PASSES {
      DrivenKnown(s, t, path, whereabouts, TurnOf(rd, st).next, pass + 1);
    }
  }

  /** The driver stands at field `m` with nothing set aside. */
  ghost predicate Standing(s: Schema, t: Target, path: string, st: State, m: nat) {
    && st.skipped == {} && st.consumed <= Known(s, t, path)
    && Stands(s, t, path, st.patches, {}, m) && Accounts(s, t, path, st, m)
  }

  lemma {:induction false} MarksFrom(s: Schema, t: Target, path: string, whereabouts: string -> Option<Origin>,
      st: State, m: nat)
    requires Walk(s, t, path, {}).end.Done? && Standing(s, t, path, st, m)
    requires |Fills(Walk(s, t, path, {}).events)| <= MAX_PASSES
    ensures m <= MAX_PASSES && Driven(ReadingOf(s, t, path, whereabouts), st, m).consumed == Known(s, t, path)
    decreases |Fills(Walk(s, t, path, {}).events)| - m
  {
    hide Walk, Known, Stands, Accounts, TurnOf, ReadingOf, Fills;
    assert m <= |Fills(Walk(s, t, path, {}).events)| by { StandsWithin(s, t, path, st.patches, m); }
    if m < |Fills(Walk(s, t, path, {}).events)| {
      AskTurn(s, t, path, whereabouts, st, m);
      TurnKnown(s, t, path, whereabouts, st);
      MarksFrom(s, t, path, whereabouts, TurnOf(ReadingOf(s, t, path, whereabouts), st).next, m + 1);
    } else {
      LastMarks(s, t, path, whereabouts, st, m);
    }
  }

  lemma StandsWithin(s: Schema, t: Target, path: string, patches: seq<Patch>, m: nat)
    requires Stands(s, t, path, patches, {}, m)
    ensures m <= |Fills(Walk(s, t, path, {}).events)|
  {
    hide Walk, Fills, Sound, Aligned, Places, HeldEvents;
  }

  lemma TurnKnown(s: Schema, t: Target, path: string, whereabouts: string -> Option<Origin>, st: State)
    requires st.consumed <= Known(s, t, path)
    ensures var turn := TurnOf(ReadingOf(s, t, path, whereabouts), st);
            turn.Adds? ==> turn.next.consumed <= Known(s, t, path)
  {
    hide Read, Known;
    var rd := ReadingOf(s, t, path, whereabouts);
    ReadMarks(Plan(st.patches, path, st.skipped), s, t, path, NOTHING);
    assert rd.visit(st.patches, st.skipped) == Read(Plan(st.patches, path, st.skipped), s, t, path, NOTHING);
  }

  /** With every field supplied the pass ends with a value, and so marks every leaf its type reads. */
  lemma LastMarks(s: Schema, t: Target, path: string, whereabouts: string -> Option<Origin>, st: State, m: nat)
    requires Walk(s, t, path, {}).end.Done? && Standing(s, t, path, st, m) &&
             m == |Fills(Walk(s, t, path, {}).events)| <= MAX_PASSES
    ensures Driven(ReadingOf(s, t, path, whereabouts), st, m).consumed == Known(s, t, path)
  {
    hide Walk, Read, Known, Stands, Accounts, Fills, Founds;
    var rd := ReadingOf(s, t, path, whereabouts);
    PassMatches(s, t, path, st.patches, {}, m);
    ReadMarks(Plan(st.patches, path, {}), s, t, path, NOTHING);
    assert rd.visit(st.patches, st.skipped) == Read(Plan(st.patches, path, {}), s, t, path, NOTHING);
  }

  /** A read whose walk meets no refusal, with no more fields to supply than the passes allow. */
  predicate Ends(s: Schema, t: Target, path: string) {
    CleanRead(s, t, path) && Needed(s, t, path) <= MAX_PASSES && Walk(s, t, path, {}).end.Done?
  }

  /** Such a read marks exactly the leaves its type reads. */
  lemma DrivenMarks(s: Schema, t: Target, path: string, whereabouts: string -> Option<Origin>)
    requires Ends(s, t, path)
    ensures Driven(ReadingOf(s, t, path, whereabouts), START, 0).consumed == Known(s, t, path)
  {
    hide Walk, Whole, Fills, Known, Driven, SectionTrace, HeldEvents, Asides, Refusals, Reports,
      StopsInSection, UniqueRead, Places, Apart, AllRefuse;
    NothingAside(Core(s), t, path, 0);
    NoEvents();
    assert Fills(Walk(s, t, path, {}).events)[..0] == [];
    NoneRefuse(Core(s), t, path);
    if StopsInSection(s, t, path, {}) {
      var sp := Advance(s, t, path, {});
      assert false;
    }
    Complete(s, t, path, {});
    assert Stands(s, t, path, START.patches, START.skipped, 0);
    assert Accounts(s, t, path, START, 0);
    MarksFrom(s, t, path, whereabouts, START, 0);
  }

  /** A read that reports nothing ends so. */
  lemma SilentEnds(s: Schema, t: Target, path: string)
    requires CleanRead(s, t, path) && !Silent(t) && WholeReport(s, t, path) == [] && Needed(s, t, path) <= MAX_PASSES
    ensures Ends(s, t, path)
  {
    hide Walk, Whole, UniqueRead, Reports, HeldEvents, Asides, Refusals, StopsInSection, Fills, AllRefuse,
      Places, Apart;
    SilenceIsSuccess(s, t, path);
    NoneRefuse(Core(s), t, path);
    if StopsInSection(s, t, path, {}) {
      RefusedIsTold(s, t, path);
      assert false;
    }
    Complete(s, t, path, {});
  }

  // ---- By address ----

  /** The type reads the scalar at `address` under `node`. */
  predicate Knows(s: Schema, node: Node, address: seq<Step>)
    requires ValidAddress(node, address)
    decreases s, node
  {
    match s
    case SOption(inner) => if node.value.Null? then address == [] else Knows(inner, node, address)
    case SMapped(inner, _) => Knows(inner, node, address)
    case SSeq(element) =>
      address != [] && address[0].Item? && Knows(element, node.value.items[address[0].index], address[1..])
    case SAny => true
    case SMap(element) =>
      address != [] && address[0].Into? && Knows(element, node.value.entries[address[0].entry].node, address[1..])
    case SStruct(_) =>
      address != [] && address[0].Into? &&
      var entry := node.value.entries[address[0].entry];
      Reads(s, entry.key) && Knows(Under(s, entry.key), entry.node, address[1..])
    case _ => address == []
  }

  /** A leaf of the tree that a read at `path` under `node` knows, as a path. */
  predicate KnownAt(s: Schema, node: Node, path: string, q: string, address: seq<Step>) {
    ValidAddress(node, address) && IsScalar(NodeAt(node, address)) && Knows(s, node, address) &&
      PathFrom(node, path, address) == q
  }

  lemma {:induction false} KnownHasAddress(s: Schema, node: Node, path: string, q: string) returns (address: seq<Step>)
    requires q in Known(s, At(node), path)
    ensures KnownAt(s, node, path, q, address)
    decreases s, node, 1, 0
  {
    match s
    case SOption(inner) =>
      if node.value.Null? {
        address := [];
      } else {
        address := KnownHasAddress(inner, node, path, q);
      }
    case SMapped(inner, _) => address := KnownHasAddress(inner, node, path, q);
    case SSeq(_) => address := ItemHasAddress(s, node, path, q, 0);
    case SAny =>
      if node.value.Array? {
        address := ItemHasAddress(s, node, path, q, 0);
      } else if node.value.Table? {
        address := EntryHasAddress(s, node, path, q, 0);
      } else {
        address := [];
      }
    case SMap(_) => address := EntryHasAddress(s, node, path, q, 0);
    case SStruct(_) => address := EntryHasAddress(s, node, path, q, 0);
    case _ => address := [];
  }

  lemma {:induction false} ItemHasAddress(s: Schema, node: Node, path: string, q: string, i: nat)
    returns (address: seq<Step>)
    requires (s.SSeq? || s.SAny?) && i <= |ItemsOf(At(node))| && q in KnownItems(s, At(node), path, i)
    ensures KnownAt(s, node, path, q, address)
    decreases s, node, 0, |ItemsOf(At(node))| - i
  {
    hide Known, Knows;
    var item := ItemsOf(At(node))[i];
    if q in Known(ElementOf(s), At(item), JoinIndex(path, i)) {
      var below := KnownHasAddress(ElementOf(s), item, JoinIndex(path, i), q);
      address := [Item(i)] + below;
      assert address[1..] == below;
      assert Knows(s, node, address) by { KnowsItem(s, node, i, below); }
    } else {
      address := ItemHasAddress(s, node, path, q, i + 1);
    }
  }

  lemma KnowsItem(s: Schema, node: Node, i: nat, below: seq<Step>)
    requires (s.SSeq? || s.SAny?) && node.value.Array? && i < |node.value.items| &&
             ValidAddress(node.value.items[i], below)
    ensures ValidAddress(node, [Item(i)] + below)
    ensures Knows(s, node, [Item(i)] + below) == Knows(ElementOf(s), node.value.items[i], below)
  {
    assert ([Item(i)] + below)[1..] == below;
  }

  lemma {:induction false} EntryHasAddress(s: Schema, node: Node, path: string, q: string, i: nat)
    returns (address: seq<Step>)
    requires IsTable(s) && i <= |EntriesOf(At(node))| && q in KnownEntries(s, At(node), path, i)
    ensures KnownAt(s, node, path, q, address)
    decreases s, node, 0, |EntriesOf(At(node))| - i
  {
    hide Known, Knows;
    var entry := EntriesOf(At(node))[i];
    if q in KnownEntry(s, At(node), path, i) {
      var below := KnownHasAddress(Under(s, entry.key), entry.node, JoinKey(path, entry.key), q);
      address := [Into(i)] + below;
      assert address[1..] == below;
      assert Knows(s, node, address) by { KnowsEntry(s, node, i, below); }
    } else {
      address := EntryHasAddress(s, node, path, q, i + 1);
    }
  }

  lemma KnowsEntry(s: Schema, node: Node, i: nat, below: seq<Step>)
    requires IsTable(s) && node.value.Table? && i < |node.value.entries| &&
             ValidAddress(node.value.entries[i].node, below)
    ensures ValidAddress(node, [Into(i)] + below)
    ensures var entry := node.value.entries[i];
            Knows(s, node, [Into(i)] + below) <==> Reads(s, entry.key) && Knows(Under(s, entry.key), entry.node, below)
  {
    assert ([Into(i)] + below)[1..] == below;
  }

  lemma {:induction false} AddressIsKnown(s: Schema, node: Node, path: string, address: seq<Step>)
    requires ValidAddress(node, address) && IsScalar(NodeAt(node, address)) && Knows(s, node, address)
    ensures PathFrom(node, path, address) in Known(s, At(node), path)
    decreases s, node, 1, 0
  {
    match s
    case SOption(inner) =>
      if !node.value.Null? {
        AddressIsKnown(inner, node, path, address);
      }
    case SMapped(inner, _) => AddressIsKnown(inner, node, path, address);
    case SSeq(_) => BelowIsKnown(s, node, path, address);
    case SAny =>
      if address != [] {
        BelowIsKnown(s, node, path, address);
      }
    case SMap(_) => BelowIsKnown(s, node, path, address);
    case SStruct(_) => BelowIsKnown(s, node, path, address);
    case _ =>
  }

  lemma {:induction false} BelowIsKnown(s: Schema, node: Node, path: string, address: seq<Step>)
    requires ValidAddress(node, address) && IsScalar(NodeAt(node, address)) && Knows(s, node, address) && address != []
    requires s.SSeq? || IsTable(s)
    ensures PathFrom(node, path, address) in Known(s, At(node), path)
    decreases s, node, 0, 0
  {
    hide Known, Knows;
    var step, below := address[0], address[1..];
    assert address == [step] + below;
    match step
    case Item(i) =>
      ItemsOnlyInArrays(s, node, address);
      KnowsItem(s, node, i, below);
      AddressIsKnown(ElementOf(s), node.value.items[i], JoinIndex(path, i), below);
      ItemIsKnown(s, At(node), path, 0, i);
    case Into(i) =>
      EntriesOnlyInTables(s, node, address);
      var key := node.value.entries[i].key;
      KnowsEntry(s, node, i, below);
      AddressIsKnown(Under(s, key), node.value.entries[i].node, JoinKey(path, key), below);
      EntryIsKnown(s, At(node), path, 0, i);
  }

  lemma ItemsOnlyInArrays(s: Schema, node: Node, address: seq<Step>)
    requires ValidAddress(node, address) && Knows(s, node, address) && address != [] && address[0].Item? &&
             (s.SSeq? || IsTable(s))
    ensures s.SSeq? || s.SAny?
    ensures forall path :: Known(s, At(node), path) == KnownItems(s, At(node), path, 0)
  {
    hide KnownItems, KnownEntries;
  }

  lemma EntriesOnlyInTables(s: Schema, node: Node, address: seq<Step>)
    requires ValidAddress(node, address) && Knows(s, node, address) && address != [] && address[0].Into? &&
             (s.SSeq? || IsTable(s))
    ensures IsTable(s)
    ensures forall path :: Known(s, At(node), path) == KnownEntries(s, At(node), path, 0)
  {
    hide KnownItems, KnownEntries;
  }

  lemma {:induction false} ItemIsKnown(s: Schema, t: Target, path: string, from: nat, i: nat)
    requires (s.SSeq? || s.SAny?) && from <= i < |ItemsOf(t)|
    ensures Known(ElementOf(s), At(ItemsOf(t)[i]), JoinIndex(path, i)) <= KnownItems(s, t, path, from)
    decreases i - from
  {
    hide Known;
    if from < i {
      ItemIsKnown(s, t, path, from + 1, i);
    }
  }

  lemma {:induction false} EntryIsKnown(s: Schema, t: Target, path: string, from: nat, i: nat)
    requires IsTable(s) && from <= i < |EntriesOf(t)|
    ensures KnownEntry(s, t, path, i) <= KnownEntries(s, t, path, from)
    decreases i - from
  {
    hide KnownEntry;
    if from < i {
      EntryIsKnown(s, t, path, from + 1, i);
    }
  }

  lemma {:induction false} NothingKnown(s: Schema, t: Target, path: string)
    requires t.Absent?
    ensures Known(s, t, path) == {}
  {
    if s.SMapped? {
      NothingKnown(s.inner, t, path);
    }
  }
}
