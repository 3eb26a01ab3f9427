/** Which layer a value comes from. */
module Layers {
  import opened Options
  import opened Trees

  /** Where a walk down table keys ends. */
  datatype Reach =
    | FellOff            // inside a table that has no such key
    | Blocked            // at a value that is no table, with keys left
    | Found(node: Node)

  function Reached(node: Node, keys: seq<string>): Reach
    decreases |keys|
  {
    if keys == [] then Found(node)
    else if !node.value.Table? then Blocked
    else
      match Child(node.value.entries, keys[0])
      case None => FellOff
      case Some(child) => Reached(child, keys[1..])
  }

  function Child(entries: seq<Entry>, key: string): Option<Node> {
    if HasKey(entries, key) then Some(entries[FindKey(entries, key)].node) else None
  }

  /** An empty tree is a table with no key. */
  function ReachedIn(root: Option<Node>, keys: seq<string>): Reach {
    match root
    case None => FellOff
    case Some(node) => Reached(node, keys)
  }

  // ---- Merging ----

  /** The place of the first entry under `key` from `from` on, or the number of entries. */
  function FindFrom(entries: seq<Entry>, key: string, from: nat): (i: nat)
    requires from <= |entries|
    ensures from <= i <= |entries|
    ensures i < |entries| ==> entries[i].key == key
    ensures forall j | from <= j < i :: entries[j].key != key
    decreases |entries| - from
  {
    if from == |entries| || entries[from].key == key then from else FindFrom(entries, key, from + 1)
  }

  lemma ChildAfterUpdate(entries: seq<Entry>, at: nat, node: Node, key: string)
    requires at < |entries|
    requires FindKey(entries, entries[at].key) == at
    ensures Child(entries[at := Entry(entries[at].key, node)], key) ==
            if key == entries[at].key then Some(node) else Child(entries, key)
  {
    var updated := entries[at := Entry(entries[at].key, node)];
    assert forall i | 0 <= i < |entries| :: updated[i].key == entries[i].key;
    SameKeys(updated, entries, key);
  }

  lemma SameKeys(one: seq<Entry>, other: seq<Entry>, key: string)
    requires |one| == |other| && forall i | 0 <= i < |one| :: one[i].key == other[i].key
    ensures FindKey(one, key) == FindKey(other, key)
  {
  }

  lemma ChildAfterAppend(entries: seq<Entry>, entry: Entry, key: string)
    requires !HasKey(entries, entry.key)
    ensures Child(entries + [entry], key) == if key == entry.key then Some(entry.node) else Child(entries, key)
  {
    var longer := entries + [entry];
    var i, j := FindKey(longer, key), FindKey(entries, key);
    assert forall k | 0 <= k < |entries| :: longer[k] == entries[k];
    assert longer[|entries|] == entry;
    if j < |entries| {
      assert longer[j].key == key;
      assert i <= j;
      assert entries[i].key == key;
    }
  }

  /** The entry a key has after a merge: the upper one, over the lower when there is one. */
  lemma {:induction false} ChildAfterMerge(base: seq<Entry>, upper: Node, i: nat, key: string)
    requires upper.value.Table? && i <= |upper.value.entries| && UniqueKeys(upper.value.entries)
    ensures var over := upper.value.entries;
            var at := FindFrom(over, key, i);
            Child(MergedEntries(base, upper, i), key) ==
            if at == |over| then Child(base, key)
            else Some(match Child(base, key) case None => over[at].node case Some(b) => Merged(b, over[at].node))
    decreases |upper.value.entries| - i
  {
    hide MergedEntries, Merged, Child;
    var over := upper.value.entries;
    MergeStep(base, upper, i);
    if i < |over| {
      var at := FindKey(base, over[i].key);
      var next := if at < |base| then base[at := Entry(base[at].key, Merged(base[at].node, over[i].node))]
      else base + [over[i]];
      ChildAfterMerge(next, upper, i + 1, key);
      if at < |base| {
        ChildAfterUpdate(base, at, Merged(base[at].node, over[i].node), key);
      } else {
        ChildAfterAppend(base, over[i], key);
      }
      if key == over[i].key {
        assert FindFrom(over, key, i + 1) == |over|;
        FirstChild(base, key);
      }
    }
  }

  lemma MergeStep(base: seq<Entry>, upper: Node, i: nat)
    requires upper.value.Table? && i <= |upper.value.entries|
    ensures i == |upper.value.entries| ==> MergedEntries(base, upper, i) == base
    ensures i < |upper.value.entries| ==>
              var over := upper.value.entries[i];
              var at := FindKey(base, over.key);
              MergedEntries(base, upper, i) ==
              MergedEntries(if at < |base| then base[at := Entry(base[at].key, Merged(base[at].node, over.node))]
              else base + [over], upper, i + 1)
  {
    hide Merged;
  }

  lemma FirstChild(entries: seq<Entry>, key: string)
    ensures var at := FindKey(entries, key);
            Child(entries, key) == if at < |entries| then Some(entries[at].node) else None
  {
  }

  lemma FindFromStart(entries: seq<Entry>, key: string)
    ensures FindFrom(entries, key, 0) == FindKey(entries, key)
  {
  }

  /** Where a walk ends after a merge, from where it ends in each tree. */
  predicate MergedReach(base: Reach, upper: Reach, merged: Reach) {
    match upper
    case Found(u) => merged == Found(if base.Found? then Merged(base.node, u) else u)
    case Blocked => merged == Blocked
    case FellOff => merged.Found? == base.Found? && (base.Found? ==> merged == base)
  }

  lemma {:induction false} ReachedAfterMerge(base: Node, upper: Node, keys: seq<string>)
    requires Keyed(upper)
    ensures MergedReach(Reached(base, keys), Reached(upper, keys), Reached(Merged(base, upper), keys))
    decreases |keys|
  {
    if keys != [] && base.value.Table? && upper.value.Table? {
      var over := upper.value.entries;
      ChildAfterMerge(base.value.entries, upper, 0, keys[0]);
      FindFromStart(over, keys[0]);
      var b, u := Child(base.value.entries, keys[0]), Child(over, keys[0]);
      if u.Some? {
        assert Keyed(u.value);
        if b.Some? {
          ReachedAfterMerge(b.value, u.value, keys[1..]);
        }
      }
    }
  }

  // ---- Loading ----

  /** The tree the layers load to: a later layer over an earlier one. */
  function Loaded(layers: seq<Option<Node>>): Option<Node> {
    if layers == [] then None else Overlaid(Loaded(layers[..|layers| - 1]), layers[|layers| - 1])
  }

  predicate KeyedTree(root: Option<Node>) {
    root.Some? ==> Keyed(root.value)
  }

  /** Layer `i` supplies `node` under `keys`, and every later layer's walk falls off inside a table. */
  predicate Supplies(layers: seq<Option<Node>>, keys: seq<string>, node: Node, i: nat) {
    && i < |layers|
    && ReachedIn(layers[i], keys) == Found(node)
    && forall j | i < j < |layers| :: ReachedIn(layers[j], keys).FellOff?
  }

  /**
   * A value that is no table stands under `keys` in the loaded tree, with its origin, exactly when
   * some layer supplied it there and no later layer supplied any node there or a value above it.
   */
  lemma {:induction false} LoadedValue(layers: seq<Option<Node>>, keys: seq<string>, node: Node)
    requires forall i | 0 <= i < |layers| :: KeyedTree(layers[i])
    requires !node.value.Table?
    ensures ReachedIn(Loaded(layers), keys) == Found(node) <==> exists i: nat :: Supplies(layers, keys, node, i)
  {
    hide ReachedIn, Loaded;
    if layers == [] {
      assert ReachedIn(Loaded([]), keys).FellOff? by { NothingLoaded(keys); }
    } else {
      var n := |layers| - 1;
      var lower := layers[..n];
      LoadedValue(lower, keys, node);
      LastLayer(layers, keys);
      LastSupplies(layers, keys, node);
    }
  }

  lemma NothingLoaded(keys: seq<string>)
    ensures ReachedIn(Loaded([]), keys).FellOff?
  {
  }

  /** Where a walk ends in the loaded tree, from where it ends in the layers below and in the last one. */
  lemma LastLayer(layers: seq<Option<Node>>, keys: seq<string>)
    requires layers != [] && KeyedTree(layers[|layers| - 1])
    ensures var n := |layers| - 1;
            MergedReach(ReachedIn(Loaded(layers[..n]), keys), ReachedIn(layers[n], keys),
              ReachedIn(Loaded(layers), keys))
  {
    hide Reached, Merged;
    var n := |layers| - 1;
    var lower, last := Loaded(layers[..n]), layers[n];
    if lower.Some? && last.Some? {
      ReachedAfterMerge(lower.value, last.value, keys);
    }
  }

  /** A node is supplied by the last layer, or by one below it where the last one's walk falls off. */
  lemma LastSupplies(layers: seq<Option<Node>>, keys: seq<string>, node: Node)
    requires layers != []
    ensures var n := |layers| - 1;
            (exists i: nat :: Supplies(layers, keys, node, i)) <==>
              || ReachedIn(layers[n], keys) == Found(node)
              || (ReachedIn(layers[n], keys).FellOff? && exists i: nat :: Supplies(layers[..n], keys, node, i))
  {
    hide ReachedIn;
    var n := |layers| - 1;
    var lower := layers[..n];
    if ReachedIn(layers[n], keys) == Found(node) {
      assert Supplies(layers, keys, node, n);
    }
    if ReachedIn(layers[n], keys).FellOff? && exists i: nat :: Supplies(lower, keys, node, i) {
      var i: nat :| Supplies(lower, keys, node, i);
      assert Supplies(layers, keys, node, i);
    }
    if exists i: nat :: Supplies(layers, keys, node, i) {
      var i: nat :| Supplies(layers, keys, node, i);
      if i < n {
        assert Supplies(lower, keys, node, i);
      }
    }
  }

  // ---- Keys stay unique ----

  lemma {:induction false} MergeKeepsKeyed(base: Node, upper: Node)
    requires Keyed(base) && Keyed(upper)
    ensures Keyed(Merged(base, upper))
    decreases upper
  {
    if base.value.Table? && upper.value.Table? {
      MergeEntriesKeepsKeyed(base.value.entries, upper, 0);
    }
  }

  predicate KeyedEntries(entries: seq<Entry>) {
    UniqueKeys(entries) && forall i | 0 <= i < |entries| :: Keyed(entries[i].node)
  }

  lemma {:induction false} MergeEntriesKeepsKeyed(base: seq<Entry>, upper: Node, i: nat)
    requires upper.value.Table? && i <= |upper.value.entries| && Keyed(upper)
    requires KeyedEntries(base)
    ensures KeyedEntries(MergedEntries(base, upper, i))
    decreases upper, |upper.value.entries| - i
  {
    var over := upper.value.entries;
    if i < |over| {
      var at := FindKey(base, over[i].key);
      if at < |base| {
        MergeKeepsKeyed(base[at].node, over[i].node);
        MergeEntriesKeepsKeyed(base[at := Entry(base[at].key, Merged(base[at].node, over[i].node))], upper, i + 1);
      } else {
        MergeEntriesKeepsKeyed(base + [over[i]], upper, i + 1);
      }
    }
  }

  lemma OverlayKeepsKeyed(base: Option<Node>, upper: Option<Node>)
    requires KeyedTree(base) && KeyedTree(upper)
    ensures KeyedTree(Overlaid(base, upper))
  {
    if base.Some? && upper.Some? {
      MergeKeepsKeyed(base.value, upper.value);
    }
  }

  // ---- Writing one value ----

  lemma {:induction false} WriteKeepsKeyed(table: Node, keys: seq<string>, node: Node)
    requires table.value.Table? && keys != [] && Keyed(table) && Keyed(node)
    ensures Keyed(WrittenIn(table, keys, node))
    decreases |keys|
  {
    var entries := table.value.entries;
    var at := FindKey(entries, keys[0]);
    if |keys| > 1 {
      if at < |entries| && entries[at].node.value.Table? {
        WriteKeepsKeyed(entries[at].node, keys[1..], node);
      } else {
        WriteKeepsKeyed(EmptyTable(node.origin), keys[1..], node);
      }
    }
  }

  lemma SetKeepsKeyed(root: Option<Node>, keys: seq<string>, node: Node)
    requires KeyedTree(root) && Keyed(node)
    ensures KeyedTree(WrittenAt(root, keys, node))
  {
    if keys != [] {
      var base := match root
        case None => EmptyTable(node.origin)
        case Some(r) => if r.value.Table? then r else Node(Table([]), r.origin);
      WriteKeepsKeyed(base, keys, node);
    }
  }

  /** Neither walk runs along the other. */
  predicate Diverge(one: seq<string>, other: seq<string>) {
    !(one <= other) && !(other <= one)
  }

  /** A value that is no table stands where both walks pass. */
  ghost predicate LeafOnTheWay(node: Node, keys: seq<string>, other: seq<string>) {
    exists n | 0 <= n <= |keys| && n <= |other| && keys[..n] == other[..n] :: LeafAt(node, keys[..n])
  }

  predicate LeafAt(node: Node, keys: seq<string>) {
    Reached(node, keys).Found? && !Reached(node, keys).node.value.Table?
  }

  /**
   * Writing puts the node where the keys say. Every walk off that way ends where it did, but for one
   * that was blocked by a leaf on the way: a table stands there now, and the walk falls off in it.
   */
  lemma {:induction false} WriteReaches(table: Node, keys: seq<string>, node: Node, other: seq<string>)
    requires table.value.Table? && keys != []
    ensures Reached(WrittenIn(table, keys, node), keys) == Found(node)
    ensures Diverge(keys, other) ==>
              Reached(WrittenIn(table, keys, node), other) ==
              if LeafOnTheWay(table, keys, other) then FellOff else Reached(table, other)
    decreases |keys|
  {
    hide LeafOnTheWay;
    var entries := table.value.entries;
    var at := FindKey(entries, keys[0]);
    var old_ := if at < |entries| && entries[at].node.value.Table? then entries[at].node else EmptyTable(node.origin);
    var child := if |keys| == 1 then node else WrittenIn(old_, keys[1..], node);
    ChildAfterWrite(table, keys, node, keys[0]);
    if |keys| > 1 {
      WriteReaches(old_, keys[1..], node, if other != [] && other[0] == keys[0] then other[1..] else []);
    }
    if Diverge(keys, other) {
      ChildAfterWrite(table, keys, node, other[0]);
      if other[0] == keys[0] {
        DivergeBelow(keys, other);
        LeafBelow(table, keys, other);
        if at == |entries| {
          NothingReached(node.origin, keys[1..], other[1..]);
        } else if !entries[at].node.value.Table? {
          NothingReached(node.origin, keys[1..], other[1..]);
          LeafHere(entries[at].node, keys[1..], other[1..]);
        }
      } else {
        NoLeafApart(table, keys, other);
      }
    }
  }

  /** The child a written table has under `key`. */
  lemma ChildAfterWrite(table: Node, keys: seq<string>, node: Node, key: string)
    requires table.value.Table? && keys != []
    ensures var entries := table.value.entries;
            var at := FindKey(entries, keys[0]);
            var old_ := if at < |entries| && entries[at].node.value.Table? then entries[at].node
            else EmptyTable(node.origin);
            var child := if |keys| == 1 then node else WrittenIn(old_, keys[1..], node);
            Child(WrittenIn(table, keys, node).value.entries, key) ==
              if key == keys[0] then Some(child) else Child(entries, key)
  {
    var entries := table.value.entries;
    var at := FindKey(entries, keys[0]);
    var old_ := if at < |entries| && entries[at].node.value.Table? then entries[at].node else EmptyTable(node.origin);
    var child := if |keys| == 1 then node else WrittenIn(old_, keys[1..], node);
    if at < |entries| {
      ChildAfterUpdate(entries, at, child, key);
    } else {
      ChildAfterAppend(entries, Entry(keys[0], child), key);
    }
  }

  lemma DivergeBelow(one: seq<string>, other: seq<string>)
    requires Diverge(one, other) && one[0] == other[0]
    ensures Diverge(one[1..], other[1..])
    ensures one[1..] != [] && other[1..] != []
  {
    assert one == [one[0]] + one[1..] && other == [other[0]] + other[1..];
  }

  /** Whether a leaf is on the way shows one table further down. */
  lemma LeafBelow(table: Node, keys: seq<string>, other: seq<string>)
    requires table.value.Table? && Diverge(keys, other) && keys[0] == other[0]
    ensures var child := Child(table.value.entries, keys[0]);
            LeafOnTheWay(table, keys, other) <==> child.Some? && LeafOnTheWay(child.value, keys[1..], other[1..])
  {
    hide Child;
    var child := Child(table.value.entries, keys[0]);
    if LeafOnTheWay(table, keys, other) {
      var n :| 0 <= n <= |keys| && n <= |other| && keys[..n] == other[..n] && LeafAt(table, keys[..n]);
      assert n > 0 && keys[..n][1..] == keys[1..][..n - 1] && other[..n][1..] == other[1..][..n - 1];
      assert LeafAt(child.value, keys[1..][..n - 1]);
    }
    if child.Some? && LeafOnTheWay(child.value, keys[1..], other[1..]) {
      var n :| 0 <= n <= |keys[1..]| && n <= |other[1..]| && keys[1..][..n] == other[1..][..n] &&
        LeafAt(child.value, keys[1..][..n]);
      assert keys[..n + 1] == [keys[0]] + keys[1..][..n] && other[..n + 1] == [other[0]] + other[1..][..n];
      assert keys[..n + 1][1..] == keys[1..][..n];
      assert LeafAt(table, keys[..n + 1]);
    }
  }

  lemma NoLeafApart(table: Node, keys: seq<string>, other: seq<string>)
    requires table.value.Table? && keys != [] && other != [] && keys[0] != other[0]
    ensures !LeafOnTheWay(table, keys, other)
  {
    assert forall n | 0 < n <= |keys| && n <= |other| :: keys[..n][0] == keys[0] && other[..n][0] == other[0];
    assert !LeafAt(table, keys[..0]);
  }

  lemma LeafHere(leaf: Node, keys: seq<string>, other: seq<string>)
    requires !leaf.value.Table?
    ensures LeafOnTheWay(leaf, keys, other)
  {
    assert keys[..0] == other[..0];
    assert LeafAt(leaf, keys[..0]);
  }

  lemma NothingReached(origin: Origin, keys: seq<string>, other: seq<string>)
    requires keys != [] && other != []
    ensures Reached(EmptyTable(origin), other) == FellOff
    ensures !LeafOnTheWay(EmptyTable(origin), keys, other)
  {
    forall n | 0 <= n <= |keys| && n <= |other| && keys[..n] == other[..n]
      ensures !LeafAt(EmptyTable(origin), keys[..n])
    {
    }
  }

  /** The same of `Set` on a whole tree; a root that is no table is a leaf on every way. */
  lemma SetReaches(root: Option<Node>, keys: seq<string>, node: Node, other: seq<string>)
    requires keys != []
    ensures ReachedIn(WrittenAt(root, keys, node), keys) == Found(node)
    ensures Diverge(keys, other) ==>
              ReachedIn(WrittenAt(root, keys, node), other) ==
              if root.Some? && LeafOnTheWay(root.value, keys, other) then FellOff else ReachedIn(root, other)
  {
    hide LeafOnTheWay;
    var base := match root
      case None => EmptyTable(node.origin)
      case Some(r) => if r.value.Table? then r else Node(Table([]), r.origin);
    WriteReaches(base, keys, node, other);
    if Diverge(keys, other) && (root.None? || !root.value.value.Table?) {
      NothingReached(base.origin, keys, other);
      if root.Some? {
        LeafHere(root.value, keys, other);
      }
    }
  }

  // ---- The order of keys, and the origin of tables ----

  function KeySeq(entries: seq<Entry>): seq<string> {
    if entries == [] then [] else [entries[0].key] + KeySeq(entries[1..])
  }

  /** The keys of `over` that `base` has not, in order. */
  function NewKeys(base: seq<Entry>, over: seq<Entry>): seq<string> {
    if over == [] then []
    else (if HasKey(base, over[0].key) then [] else [over[0].key]) + NewKeys(base, over[1..])
  }

  lemma {:induction false} KeySeqAppend(a: seq<Entry>, b: seq<Entry>)
    ensures KeySeq(a + b) == KeySeq(a) + KeySeq(b)
  {
    if a == [] {
      assert a + b == b;
    } else {
      assert (a + b)[1..] == a[1..] + b;
      KeySeqAppend(a[1..], b);
    }
  }

  lemma {:induction false} KeySeqUpdate(entries: seq<Entry>, at: nat, node: Node)
    requires at < |entries|
    ensures KeySeq(entries[at := Entry(entries[at].key, node)]) == KeySeq(entries)
  {
    if at > 0 {
      assert entries[at := Entry(entries[at].key, node)][1..] == entries[1..][at - 1 := Entry(entries[at].key, node)];
      KeySeqUpdate(entries[1..], at - 1, node);
    }
  }

  lemma {:induction false} NewKeysSame(one: seq<Entry>, other: seq<Entry>, over: seq<Entry>)
    requires forall i | 0 <= i < |over| :: HasKey(one, over[i].key) == HasKey(other, over[i].key)
    ensures NewKeys(one, over) == NewKeys(other, over)
  {
    if over != [] {
      NewKeysSame(one, other, over[1..]);
    }
  }

  /** A merge keeps the keys of the lower table in their places, and the new ones come after them, in their order. */
  lemma {:induction false} MergeKeepsOrder(base: seq<Entry>, upper: Node, i: nat)
    requires upper.value.Table? && UniqueKeys(upper.value.entries) && i <= |upper.value.entries|
    ensures KeySeq(MergedEntries(base, upper, i)) == KeySeq(base) + NewKeys(base, upper.value.entries[i..])
    decreases |upper.value.entries| - i
  {
    hide Merged, FindKey, KeySeq, NewKeys, HasKey;
    var over := upper.value.entries;
    NoNewKeys(base);
    if i == |over| {
      assert over[i..] == [];
    } else {
      var at := FindKey(base, over[i].key);
      HasFound(base, over[i].key);
      NewKeysFirst(base, over, i);
      var next := if at < |base| then base[at := Entry(base[at].key, Merged(base[at].node, over[i].node))]
        else base + [over[i]];
      MergeKeepsOrder(next, upper, i + 1);
      if at < |base| {
        KeySeqUpdate(base, at, Merged(base[at].node, over[i].node));
        KeysStay(base, next, at);
        NewKeysSame(base, next, over[i + 1..]);
      } else {
        KeySeqAppend(base, [over[i]]);
        OneKey(over[i]);
        LaterKeys(base, over, i);
        NewKeysSame(base, next, over[i + 1..]);
      }
    }
  }

  lemma NoNewKeys(base: seq<Entry>)
    ensures NewKeys(base, []) == []
  {
  }

  lemma OneKey(entry: Entry)
    ensures KeySeq([entry]) == [entry.key]
  {
    assert [entry][1..] == [];
  }

  lemma NewKeysFirst(base: seq<Entry>, over: seq<Entry>, i: nat)
    requires i < |over|
    ensures NewKeys(base, over[i..]) ==
            (if HasKey(base, over[i].key) then [] else [over[i].key]) + NewKeys(base, over[i + 1..])
  {
    assert over[i..][1..] == over[i + 1..];
  }

  lemma LaterKeys(base: seq<Entry>, over: seq<Entry>, i: nat)
    requires i < |over| && UniqueKeys(over)
    ensures var rest := over[i + 1..];
            forall k | 0 <= k < |rest| :: HasKey(base, rest[k].key) == HasKey(base + [over[i]], rest[k].key)
  {
    hide HasKey;
    var rest := over[i + 1..];
    forall k | 0 <= k < |rest|
      ensures HasKey(base, rest[k].key) == HasKey(base + [over[i]], rest[k].key)
    {
      assert rest[k] == over[i + 1 + k] && rest[k].key != over[i].key;
      OneMoreKey(base, over[i], rest[k].key);
    }
  }

  lemma HasFound(entries: seq<Entry>, key: string)
    ensures HasKey(entries, key) <==> FindKey(entries, key) < |entries|
  {
  }

  lemma KeysStay(entries: seq<Entry>, next: seq<Entry>, at: nat)
    requires at < |entries| == |next| && next == entries[at := next[at]] && next[at].key == entries[at].key
    ensures forall key :: HasKey(next, key) == HasKey(entries, key)
  {
    forall key
      ensures HasKey(next, key) == HasKey(entries, key)
    {
      HasIs(entries, key);
      HasIs(next, key);
      if i :| 0 <= i < |next| && next[i].key == key {
        assert entries[i].key == key;
      }
      if i :| 0 <= i < |entries| && entries[i].key == key {
        assert next[i].key == key;
      }
    }
  }

  lemma HasIs(entries: seq<Entry>, key: string)
    ensures HasKey(entries, key) <==> exists i | 0 <= i < |entries| :: entries[i].key == key
  {
  }

  lemma OneMoreKey(entries: seq<Entry>, entry: Entry, key: string)
    ensures HasKey(entries + [entry], key) <==> HasKey(entries, key) || entry.key == key
  {
    HasIs(entries, key);
    HasIs(entries + [entry], key);
    if i :| 0 <= i < |entries| && entries[i].key == key {
      assert (entries + [entry])[i].key == key;
    }
    if entry.key == key {
      assert (entries + [entry])[|entries|].key == key;
    }
  }

  predicate FoundTable(reach: Reach) {
    reach.Found? && reach.node.value.Table?
  }

  /**
   * A table of the loaded tree has the origin of the first layer that made it a table: layer `i`, if
   * what the layers before it loaded is no table there, and every later layer has a table there too or
   * falls off.
   */
  lemma {:induction false} LoadedTableOrigin(layers: seq<Option<Node>>, keys: seq<string>, i: nat)
    requires i < |layers| && forall k | 0 <= k < |layers| :: KeyedTree(layers[k])
    requires FoundTable(ReachedIn(layers[i], keys)) && !FoundTable(ReachedIn(Loaded(layers[..i]), keys))
    requires forall k | i < k < |layers| ::
               FoundTable(ReachedIn(layers[k], keys)) || ReachedIn(layers[k], keys).FellOff?
    ensures FoundTable(ReachedIn(Loaded(layers), keys))
    ensures ReachedIn(Loaded(layers), keys).node.origin == ReachedIn(layers[i], keys).node.origin
    decreases |layers|
  {
    hide ReachedIn, Loaded;
    var n := |layers| - 1;
    LastLayer(layers, keys);
    if i == n {
      assert layers[..n] == layers[..i];
    } else {
      assert layers[..n][..i] == layers[..i];
      LoadedTableOrigin(layers[..n], keys, i);
    }
  }

  // ---- The tables on the way to a written value ----

  /** Where a walk found a table, its origin; elsewhere `other`. */
  function TableOrigin(reach: Reach, other: Origin): Origin {
    if FoundTable(reach) then reach.node.origin else other
  }

  lemma {:induction false} WayIn(table: Node, keys: seq<string>, node: Node, n: nat)
    requires table.value.Table? && n < |keys|
    ensures FoundTable(Reached(WrittenIn(table, keys, node), keys[..n]))
    ensures Reached(WrittenIn(table, keys, node), keys[..n]).node.origin ==
            TableOrigin(Reached(table, keys[..n]), node.origin)
    decreases |keys|
  {
    if n > 0 {
      var entries := table.value.entries;
      var at := FindKey(entries, keys[0]);
      var below := if at < |entries| && entries[at].node.value.Table? then entries[at].node
        else EmptyTable(node.origin);
      ChildAfterWrite(table, keys, node, keys[0]);
      assert keys[..n][1..] == keys[1..][..n - 1];
      WayIn(below, keys[1..], node, n - 1);
      HasFound(entries, keys[0]);
    }
  }

  /**
   * Every node on the way to a written value is a table: the one that was there, with its origin, or a
   * new one with the value's; a root that was no table keeps its origin. Nothing is written at no keys.
   */
  lemma SetMakesTheWay(root: Option<Node>, keys: seq<string>, node: Node, n: nat)
    ensures WrittenAt(root, [], node) == root
    ensures n < |keys| ==>
              && FoundTable(ReachedIn(WrittenAt(root, keys, node), keys[..n]))
              && ReachedIn(WrittenAt(root, keys, node), keys[..n]).node.origin ==
                 if n == 0 && root.Some? then root.value.origin
                 else TableOrigin(ReachedIn(root, keys[..n]), node.origin)
  {
    hide WrittenIn;
    if n < |keys| {
      var base := match root
        case None => EmptyTable(node.origin)
        case Some(r) => if r.value.Table? then r else Node(Table([]), r.origin);
      WayIn(base, keys, node, n);
    }
  }

  /** A write keeps the keys of a table in their places, and a new one comes last. */
  lemma SetKeepsOrder(table: Node, keys: seq<string>, node: Node)
    requires table.value.Table? && keys != []
    ensures var entries := table.value.entries;
            KeySeq(WrittenIn(table, keys, node).value.entries) ==
              KeySeq(entries) + if HasKey(entries, keys[0]) then [] else [keys[0]]
  {
    hide KeySeq, HasKey;
    var entries := table.value.entries;
    var at := FindKey(entries, keys[0]);
    HasFound(entries, keys[0]);
    if at < |entries| {
      KeySeqUpdate(entries, at, WrittenIn(table, keys, node).value.entries[at].node);
    } else {
      var last := WrittenIn(table, keys, node).value.entries[|entries|];
      KeySeqAppend(entries, [last]);
      OneKey(last);
    }
  }
}
