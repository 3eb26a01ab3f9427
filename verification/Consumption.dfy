/** Which leaves a section read marks as read. */
module Consumption {
  import opened Options
  import opened Trees
  import opened TreeLaws
  import opened Schemas
  import opened Reader
  import opened Drivers
  import opened ReportLaws

  /** The paths of the leaves under what is read. */
  function PathsIn(leaves: seq<Leaf>): set<string> {
    set i | 0 <= i < |leaves| :: leaves[i].path
  }

  function Under(t: Target, path: string): set<string> {
    if t.At? then PathsIn(LeavesOf(t.node, path)) else {}
  }

  lemma PathsAppend(a: seq<Leaf>, b: seq<Leaf>)
    ensures PathsIn(a + b) == PathsIn(a) + PathsIn(b)
  {
    forall q | q in PathsIn(a) + PathsIn(b)
      ensures q in PathsIn(a + b)
    {
      if q in PathsIn(a) {
        var i :| 0 <= i < |a| && a[i].path == q;
        assert (a + b)[i].path == q;
      } else {
        var i :| 0 <= i < |b| && b[i].path == q;
        assert (a + b)[|a| + i].path == q;
      }
    }
  }

  /** The leaves of the children from `i` on: those of child `i`, then the rest. */
  function From(t: Target, path: string, i: nat): set<string>
    requires t.At? && i <= Degree(t.node)
  {
    PathsIn(LeavesFrom(t.node, path, i))
  }

  lemma FromNext(t: Target, path: string, i: nat)
    requires t.At? && i < Degree(t.node)
    ensures From(t, path, i) == Under(At(ChildAt(t.node, i)), ChildPath(t.node, path, i)) + From(t, path, i + 1)
  {
    PathsAppend(LeavesOf(ChildAt(t.node, i), ChildPath(t.node, path, i)), LeavesFrom(t.node, path, i + 1));
  }

  lemma OneLeaf(t: Target, path: string)
    requires t.At? && IsScalar(t.node)
    ensures Under(t, path) == {path}
  {
    assert LeavesOf(t.node, path)[0].path == path;
  }

  // ---- Only leaves under what is read ----

  predicate Adds(before: Log, paths: set<string>, after: Log) {
    before.consumed <= after.consumed <= before.consumed + paths
  }

  lemma {:induction false} ReadAdds(cx: Plan, s: Schema, t: Target, path: string, log: Log)
    ensures Adds(log, Under(t, path), Read(cx, s, t, path, log).0)
    decreases s, Held(t), 5, 0
  {
    if t.At? && IsScalar(t.node) {
      OneLeaf(t, path);
    }
    match s
    case SOption(inner) =>
      if t.At? && !t.node.value.Null? {
        ReadAdds(cx, inner, t, path, log);
      }
    case SMapped(inner, _) => ReadAdds(cx, inner, t, path, log);
    case SSeq(_) => SeqAdds(cx, s, t, path, log);
    case SAny =>
      if t.At? && t.node.value.Array? {
        SeqAdds(cx, s, t, path, log);
      } else if t.At? && t.node.value.Table? {
        TableAdds(cx, s, t, path, log);
      }
    case SMap(_) => TableAdds(cx, s, t, path, log);
    case SStruct(_) => TableAdds(cx, s, t, path, log);
    case _ =>
  }

  lemma {:induction false} SeqAdds(cx: Plan, s: Schema, t: Target, path: string, log: Log)
    requires s.SSeq? || (s.SAny? && t.At? && t.node.value.Array?)
    ensures Adds(log, Under(t, path), ReadSeq(cx, s, t, path, log).0)
    decreases s, Held(t), 1, 0
  {
    hide Under;
    if t.At? && t.node.value.Array? {
      ItemsAdd(cx, s, t, path, 0, [], log);
      assert Under(t, path) == From(t, path, 0) by { UnderFrom(t, path); }
    }
  }

  lemma UnderFrom(t: Target, path: string)
    requires t.At? && !IsScalar(t.node)
    ensures Under(t, path) == From(t, path, 0)
  {
  }

  lemma {:induction false} ItemsAdd(cx: Plan, s: Schema, t: Target, path: string, i: nat, got: seq<Decoded>, log: Log)
    requires s.SSeq? || s.SAny?
    requires t.At? && t.node.value.Array? && i <= |t.node.value.items|
    ensures Adds(log, From(t, path, i), ReadItems(cx, s, t, path, i, got, log).0)
    decreases s, Held(t), 0, |t.node.value.items| - i
  {
    hide Read, From, Under;
    if i < |t.node.value.items| {
      var item := At(t.node.value.items[i]);
      ReadAdds(cx, ElementOf(s), item, JoinIndex(path, i), log);
      FromNext(t, path, i);
      var (log1, r) := Read(cx, ElementOf(s), item, JoinIndex(path, i), log);
      if r.Ok? {
        ItemsAdd(cx, s, t, path, i + 1, got + [r.value], log1);
      }
    }
  }

  lemma {:induction false} NextAdds(cx: Plan, s: Schema, t: Target, base: string, path: string, log: Log)
    ensures Adds(log, Under(t, path), NextValue(cx, s, t, base, path, log).0)
    decreases s, Held(t), 6, 0
  {
    hide Read, Under;
    ReadAdds(cx, s, t, path, log);
  }

  lemma {:induction false} EntriesAdd(cx: Plan, s: Schema, t: Target, path: string, i: nat, got: map<string, Decoded>,
      log: Log)
    requires IsTable(s) && t.At? && t.node.value.Table? && i <= |EntriesOf(t)|
    ensures Adds(log, From(t, path, i), ReadEntries(cx, s, t, path, i, got, log).0)
    decreases s, Held(t), 3, |EntriesOf(t)| - i
  {
    hide NextValue, From, Under;
    if i < |EntriesOf(t)| {
      var key, entry := EntriesOf(t)[i].key, At(EntriesOf(t)[i].node);
      FromNext(t, path, i);
      if SetAside(cx, path, key) || !Reads(s, key) {
        EntriesAdd(cx, s, t, path, i + 1, got, log);
      } else if !Taken(s, key, got) {
        NextAdds(cx, Schemas.Under(s, key), entry, path, JoinKey(path, key), log);
        var (log1, r) := NextValue(cx, Schemas.Under(s, key), entry, path, JoinKey(path, key), log);
        if r.Ok? {
          EntriesAdd(cx, s, t, path, i + 1, got[key := r.value], log1);
        }
      }
    }
  }

  lemma {:induction false} ExtrasAdd(cx: Plan, s: Schema, t: Target, path: string, extras: seq<string>, i: nat,
      got: map<string, Decoded>, log: Log)
    requires IsTable(s) && i <= |extras| && (s.SAny? ==> t.At? && t.node.value.Table?)
    ensures ReadExtras(cx, s, t, path, extras, i, got, log).0.consumed == log.consumed
    decreases s, Held(t), 3, |extras| - i
  {
    hide NextValue;
    if i < |extras| {
      var key, below := extras[i], Absent(true, OriginOf(t));
      if !Reads(s, key) {
        ExtrasAdd(cx, s, t, path, extras, i + 1, got, log);
      } else if !Taken(s, key, got) {
        if s.SAny? {
          ExtrasAdd(cx, s, t, path, extras, i + 1, got[key := DRaw(Null)], log);
        } else {
          NextAdds(cx, Schemas.Under(s, key), below, path, JoinKey(path, key), log);
          var (log1, r) := NextValue(cx, Schemas.Under(s, key), below, path, JoinKey(path, key), log);
          if r.Ok? {
            ExtrasAdd(cx, s, t, path, extras, i + 1, got[key := r.value], log1);
          }
        }
      }
    }
  }

  lemma {:induction false} TableAdds(cx: Plan, s: Schema, t: Target, path: string, log: Log)
    requires IsTable(s) && (s.SAny? ==> t.At? && t.node.value.Table?)
    ensures Adds(log, Under(t, path), ReadTable(cx, s, t, path, log).0)
    decreases s, Held(t), 4, 0
  {
    hide ReadEntries, ReadExtras, Extras, From, Under;
    var log1 := Record(log, NotATable(t, path));
    if t.At? && t.node.value.Table? {
      EntriesAdd(cx, s, t, path, 0, map[], log1);
      UnderFrom(t, path);
    } else {
      NoEntriesRead(cx, s, t, path, log1);
    }
    var (log2, r2) := ReadEntries(cx, s, t, path, 0, map[], log1);
    if r2.Ok? {
      ExtrasAdd(cx, s, t, path, Extras(cx.patches, path, EntriesOf(t)), 0, r2.value, log2);
    }
  }

  lemma NoEntriesRead(cx: Plan, s: Schema, t: Target, path: string, log: Log)
    requires IsTable(s) && EntriesOf(t) == []
    ensures ReadEntries(cx, s, t, path, 0, map[], log).0 == log
  {
  }

  // ---- A self-describing read reaches every one ----

  /** Reads everything and ends with a value. */
  predicate Takes<T>(before: Log, paths: set<string>, out: (Log, Result<T>)) {
    out.1.Ok? && out.0.consumed == before.consumed + paths && out.0.patch == before.patch &&
    out.0.failed == before.failed
  }

  lemma {:induction false} AnyTakes(cx: Plan, t: Target, path: string, log: Log)
    requires cx.skipped == {}
    ensures Takes(log, Under(t, path), Read(cx, SAny, t, path, log))
    decreases Held(t), 5, 0
  {
    if t.At? {
      if IsScalar(t.node) {
        OneLeaf(t, path);
      } else if t.node.value.Array? {
        hide Under, From;
        AnyItemsTake(cx, t, path, 0, [], log);
        UnderFrom(t, path);
      } else {
        hide Under, From, ReadEntries, ReadExtras, Extras;
        AnyEntriesTake(cx, t, path, 0, map[], log);
        UnderFrom(t, path);
        var (log2, r2) := ReadEntries(cx, SAny, t, path, 0, map[], log);
        AnyExtrasTake(cx, t, path, Extras(cx.patches, path, EntriesOf(t)), 0, r2.value, log2);
        assert Record(log, []) == log by { assert log.problems + [] == log.problems; }
      }
    }
  }

  lemma {:induction false} AnyItemsTake(cx: Plan, t: Target, path: string, i: nat, got: seq<Decoded>, log: Log)
    requires cx.skipped == {} && t.At? && t.node.value.Array? && i <= |t.node.value.items|
    ensures Takes(log, From(t, path, i), ReadItems(cx, SAny, t, path, i, got, log))
    decreases Held(t), 0, |t.node.value.items| - i
  {
    hide Read, From, Under;
    if i < |t.node.value.items| {
      var item := At(t.node.value.items[i]);
      AnyTakes(cx, item, JoinIndex(path, i), log);
      FromNext(t, path, i);
      var (log1, r) := Read(cx, SAny, item, JoinIndex(path, i), log);
      AnyItemsTake(cx, t, path, i + 1, got + [r.value], log1);
    } else {
      FromEnd(t, path);
    }
  }

  lemma FromEnd(t: Target, path: string)
    requires t.At?
    ensures From(t, path, Degree(t.node)) == {}
  {
  }

  lemma {:induction false} AnyEntriesTake(cx: Plan, t: Target, path: string, i: nat, got: map<string, Decoded>,
      log: Log)
    requires cx.skipped == {} && t.At? && t.node.value.Table? && i <= |EntriesOf(t)|
    ensures Takes(log, From(t, path, i), ReadEntries(cx, SAny, t, path, i, got, log))
    decreases Held(t), 3, |EntriesOf(t)| - i
  {
    hide Read, From, Under;
    if i < |EntriesOf(t)| {
      var key, entry := EntriesOf(t)[i].key, At(EntriesOf(t)[i].node);
      AnyTakes(cx, entry, JoinKey(path, key), log);
      FromNext(t, path, i);
      var (log1, r) := NextValue(cx, SAny, entry, path, JoinKey(path, key), log);
      AnyEntriesTake(cx, t, path, i + 1, got[key := r.value], log1);
    } else {
      FromEnd(t, path);
    }
  }

  lemma {:induction false} AnyExtrasTake(cx: Plan, t: Target, path: string, extras: seq<string>, i: nat,
      got: map<string, Decoded>, log: Log)
    requires t.At? && t.node.value.Table? && i <= |extras|
    ensures ReadExtras(cx, SAny, t, path, extras, i, got, log).0 == log &&
            ReadExtras(cx, SAny, t, path, extras, i, got, log).1.Ok?
    decreases |extras| - i
  {
    if i < |extras| {
      AnyExtrasTake(cx, t, path, extras, i + 1, got[extras[i] := DRaw(Null)], log);
    }
  }

  // ---- Over all the passes of a section read ----

  lemma {:induction false} DrivenAdds(s: Schema, t: Target, path: string, whereabouts: string -> Option<Origin>,
      st: State, pass: nat)
    requires pass <= MAX_PASSES && st.consumed <= Under(t, path)
    ensures Driven(ReadingOf(s, t, path, whereabouts), st, pass).consumed <= Under(t, path)
    decreases MAX_PASSES - pass
  {
    hide Read, Under;
    var rd := ReadingOf(s, t, path, whereabouts);
    ReadAdds(Plan(st.patches, path, st.skipped), s, t, path, NOTHING);
    assert rd.visit(st.patches, st.skipped) == Read(Plan(st.patches, path, st.skipped), s, t, path, NOTHING);
    if TurnOf(rd, st).Adds? && pass < MAX_PASSES {
      DrivenAdds(s, t, path, whereabouts, TurnOf(rd, st).next, pass + 1);
    }
  }

  lemma DrivenTakes(t: Target, path: string, whereabouts: string -> Option<Origin>)
    ensures Driven(ReadingOf(SAny, t, path, whereabouts), START, 0).consumed == Under(t, path)
  {
    hide Read, Under;
    var rd := ReadingOf(SAny, t, path, whereabouts);
    AnyTakes(Plan([], path, {}), t, path, NOTHING);
    assert rd.visit([], {}) == Read(Plan([], path, {}), SAny, t, path, NOTHING);
  }

  // ---- In the tree ----

  /** The path is spelled as the tree prints it. */
  predicate Canonical(root: Node, path: string)
    requires Located(root, path).Some?
  {
    var address := Located(root, path).value.address;
    ValidAddress(root, address) && path == PathFrom(root, "", address)
  }

  lemma {:induction false} PathBelow(root: Node, path: string, above: seq<Step>, address: seq<Step>)
    requires ValidAddress(root, above) && ValidAddress(NodeAt(root, above), address)
    ensures ValidAddress(root, above + address) && NodeAt(root, above + address) == NodeAt(NodeAt(root, above), address)
    ensures PathFrom(root, path, above + address) == PathFrom(NodeAt(root, above), PathFrom(root, path, above), address)
    decreases |above|
  {
    if above == [] {
      assert above + address == address;
    } else {
      assert (above + address)[1..] == above[1..] + address;
      match above[0]
      case Into(i) => PathBelow(root.value.entries[i].node, JoinKey(path, root.value.entries[i].key),
        above[1..], address);
      case Item(i) => PathBelow(root.value.items[i], JoinIndex(path, i), above[1..], address);
    }
  }

  /** Printed from two places, the same address under a node gives the same path only from one place. */
  lemma {:induction false} PathFromInjective(node: Node, one: string, other: string, address: seq<Step>)
    requires ValidAddress(node, address) && PathFrom(node, one, address) == PathFrom(node, other, address)
    ensures one == other
    decreases |address|
  {
    if address != [] {
      match address[0]
      case Into(i) =>
        var key := node.value.entries[i].key;
        PathFromInjective(node.value.entries[i].node, JoinKey(one, key), JoinKey(other, key), address[1..]);
        KeyJoinInjective(one, other, key);
      case Item(i) =>
        PathFromInjective(node.value.items[i], JoinIndex(one, i), JoinIndex(other, i), address[1..]);
        IndexJoinInjective(one, other, i);
    }
  }

  lemma KeyJoinInjective(one: string, other: string, key: string)
    requires JoinKey(one, key) == JoinKey(other, key)
    ensures one == other
  {
    assert |one| == |other|;
    assert JoinKey(one, key)[..|one|] == one && JoinKey(other, key)[..|other|] == other;
  }

  lemma IndexJoinInjective(one: string, other: string, i: nat)
    requires JoinIndex(one, i) == JoinIndex(other, i)
    ensures one == other
  {
    assert |one| == |other|;
    assert JoinIndex(one, i)[..|one|] == one && JoinIndex(other, i)[..|other|] == other;
  }

  /**
   * In a clean tree, a leaf under the section at `path` is marked read under a path of the tree's
   * own leaves exactly when `path` is spelled as the tree prints it.
   */
  lemma MarkIsLeafPath(root: Node, path: string, k: nat)
    requires CleanTree(root) && Located(root, path).Some?
    requires k < |LeavesOf(Located(root, path).value.node, path)|
    ensures LeavesOf(Located(root, path).value.node, path)[k].path in PathsIn(LeavesOf(root, "")) <==>
            Canonical(root, path)
  {
    hide Located, LeavesOf, CleanTree;
    var spot := Located(root, path).value;
    LocatedIsClean(root, path);
    assert ValidAddress(root, spot.address) && NodeAt(root, spot.address) == spot.node;
    LeavesStand(spot.node, path);
    var address := ScalarAddresses(spot.node)[k];
    assert LeafStands(spot.node, path, address, LeavesOf(spot.node, path)[k]);
    PathBelow(root, "", spot.address, address);
    var q := PathFrom(spot.node, path, address);
    if Canonical(root, path) {
      ScalarPathListed(root, spot.address + address);
    }
    if q in PathsIn(LeavesOf(root, "")) {
      MarkFromLeaf(root, path, address);
    }
  }

  lemma ScalarPathListed(root: Node, address: seq<Step>)
    requires ValidAddress(root, address) && IsScalar(NodeAt(root, address))
    ensures PathFrom(root, "", address) in PathsIn(LeavesOf(root, ""))
  {
    hide LeavesOf;
    LeavesStand(root, "");
    EveryScalarListed(root, address);
    var k :| 0 <= k < |ScalarAddresses(root)| && ScalarAddresses(root)[k] == address;
    assert LeafStands(root, "", ScalarAddresses(root)[k], LeavesOf(root, "")[k]);
  }

  lemma MarkFromLeaf(root: Node, path: string, address: seq<Step>)
    requires CleanTree(root) && Located(root, path).Some? && ValidAddress(Located(root, path).value.node, address)
    requires PathFrom(Located(root, path).value.node, path, address) in PathsIn(LeavesOf(root, ""))
    ensures Canonical(root, path)
  {
    hide Located, LeavesOf, CleanTree;
    var spot := Located(root, path).value;
    var q := PathFrom(spot.node, path, address);
    LocatedIsClean(root, path);
    PathBelow(root, "", spot.address, address);
    CleanTreeCleanAddress(root, spot.address + address);
    CleanBelow(root, spot.address, address);
    LocatedBelow(root, spot.node, path, spot.address, address);
    LeafPathsLeadBack(root);
    LeavesStand(root, "");
    var k :| 0 <= k < |LeavesOf(root, "")| && LeavesOf(root, "")[k].path == q;
    assert LeafStands(root, "", ScalarAddresses(root)[k], LeavesOf(root, "")[k]);
    assert ScalarAddresses(root)[k] == spot.address + address;
    PathFromInjective(spot.node, path, PathFrom(root, "", spot.address), address);
  }

  lemma {:induction false} CleanBelow(root: Node, above: seq<Step>, address: seq<Step>)
    requires ValidAddress(root, above) && ValidAddress(NodeAt(root, above), address)
    requires ValidAddress(root, above + address) && CleanAddress(root, above + address)
    ensures CleanAddress(NodeAt(root, above), address)
    decreases |above|
  {
    if above == [] {
      assert above + address == address;
    } else {
      assert (above + address)[1..] == above[1..] + address;
      match above[0]
      case Into(i) => CleanBelow(root.value.entries[i].node, above[1..], address);
      case Item(i) => CleanBelow(root.value.items[i], above[1..], address);
    }
  }
}
