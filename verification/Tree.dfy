/** The origin-carrying value tree of a loaded configuration, and its dotted paths. */
module Trees {
  import opened Options
  import Decimal

  /** A node's provenance. */
  datatype Origin =
    | File(path: string, line: nat, column: nat)
    | Variable(name: string)
    | Explicit(key: string)
    | Default

  datatype Node = Node(value: Value, origin: Origin)

  /** `Text`: an untyped string, as the environment supplies; a read decides what it is. */
  datatype Value =
    | Null
    | Bool(flag: bool)
    | Integer(number: int)
    | Float(real_: real)
    | String(text: string)
    | Text(text: string)
    | Array(items: seq<Node>)
    | Table(entries: seq<Entry>)

  datatype Entry = Entry(key: string, node: Node)

  // ---- Paths ----

  /** `parent`, a dot, `key`; the key alone under the root. */
  function JoinKey(parent: string, key: string): string {
    if parent == "" then key else parent + "." + key
  }

  /** `parent` and the index in brackets. */
  function JoinIndex(parent: string, index: nat): string {
    parent + "[" + Decimal.Print(index) + "]"
  }

  /** A key a dotted path can name: not empty, and without the two characters that end a name. */
  predicate CleanKey(key: string) {
    key != "" && '.' !in key && '[' !in key
  }

  /** The first place `c` stands in `s`, or the length of `s`. */
  function IndexOf(s: string, c: char): (i: nat)
    ensures i <= |s|
    ensures i < |s| ==> s[i] == c
    ensures forall j | 0 <= j < i :: s[j] != c
  {
    if s == "" || s[0] == c then 0 else 1 + IndexOf(s[1..], c)
  }

  /** The text between the dots; never empty, the empty text being one empty piece. */
  function SplitDots(s: string): (pieces: seq<string>)
    ensures |pieces| >= 1
    decreases |s|
  {
    var at := IndexOf(s, '.');
    if at == |s| then [s] else [s[..at]] + SplitDots(s[at + 1..])
  }

  // ---- Entries ----

  /** The place of the first entry under `key`, or the number of entries. */
  function FindKey(entries: seq<Entry>, key: string): (i: nat)
    ensures i <= |entries|
    ensures i < |entries| ==> entries[i].key == key
    ensures forall j | 0 <= j < i :: entries[j].key != key
  {
    if entries == [] || entries[0].key == key then 0 else 1 + FindKey(entries[1..], key)
  }

  predicate HasKey(entries: seq<Entry>, key: string) {
    FindKey(entries, key) < |entries|
  }

  predicate UniqueKeys(entries: seq<Entry>) {
    forall i, j | 0 <= i < j < |entries| :: entries[i].key != entries[j].key
  }

  /** Every table of the tree has unique keys. */
  predicate Keyed(node: Node) {
    match node.value
    case Table(entries) => UniqueKeys(entries) && forall i | 0 <= i < |entries| :: Keyed(entries[i].node)
    case Array(items) => forall i | 0 <= i < |items| :: Keyed(items[i])
    case _ => true
  }

  predicate IsScalar(node: Node) {
    !node.value.Array? && !node.value.Table?
  }

  // ---- Overlay ----

  /** `upper` laid over `base`: tables merge by key, anything else is replaced whole. */
  function Merged(base: Node, upper: Node): Node
    decreases upper
  {
    if base.value.Table? && upper.value.Table? then
      Node(Table(MergedEntries(base.value.entries, upper, 0)), base.origin)
    else
      upper
  }

  /** The entries of the table `upper` from place `i` on, laid in order over `base`. */
  function MergedEntries(base: seq<Entry>, upper: Node, i: nat): seq<Entry>
    requires upper.value.Table? && i <= |upper.value.entries|
    decreases upper, |upper.value.entries| - i
  {
    var over := upper.value.entries;
    if i == |over| then
      base
    else
      var at := FindKey(base, over[i].key);
      MergedEntries(
        if at < |base| then base[at := Entry(base[at].key, Merged(base[at].node, over[i].node))] else base + [over[i]],
        upper, i + 1)
  }

  /** A tree is its root node; an empty tree has none. */
  function Overlaid(base: Option<Node>, upper: Option<Node>): Option<Node> {
    match (base, upper)
    case (_, None) => base
    case (None, Some(_)) => upper
    case (Some(b), Some(u)) => Some(Merged(b, u))
  }

  // ---- Writing one value ----

  function EmptyTable(origin: Origin): Node {
    Node(Table([]), origin)
  }

  /** `table` with `node` written under `keys`: a table is made wherever the way to it has none. */
  function WrittenIn(table: Node, keys: seq<string>, node: Node): Node
    requires table.value.Table? && keys != []
    decreases |keys|
  {
    var entries := table.value.entries;
    var at := FindKey(entries, keys[0]);
    var child :=
      if |keys| == 1 then node
      else if at < |entries| && entries[at].node.value.Table? then WrittenIn(entries[at].node, keys[1..], node)
      else WrittenIn(EmptyTable(node.origin), keys[1..], node);
    Node(Table(if at < |entries| then entries[at := Entry(keys[0], child)] else entries + [Entry(keys[0], child)]),
         table.origin)
  }

  function WrittenAt(root: Option<Node>, keys: seq<string>, node: Node): Option<Node> {
    if keys == [] then root
    else
      var base := match root
        case None => EmptyTable(node.origin)
        case Some(r) => if r.value.Table? then r else Node(Table([]), r.origin);
      Some(WrittenIn(base, keys, node))
  }

  // ---- Reading a path ----

  /** One move down the tree: into an entry or into an element, by its place. */
  datatype Step = Into(entry: nat) | Item(index: nat)

  /** A node together with the moves that reach it from the root: which node it is, not only its content. */
  datatype Spot = Spot(node: Node, address: seq<Step>)

  /** An index as `usize` parses one: an optional plus sign, then digits. */
  function ParsedIndex(s: string): Option<nat> {
    var digits := if s != "" && s[0] == '+' then s[1..] else s;
    if digits == "" || !Decimal.AllDigits(digits) then None else Some(Decimal.Value(digits))
  }

  /** The spot under the `[n][m]` text that may follow a name. */
  function AtIndexes(from: Spot, text: string): Option<Spot>
    decreases |text|
  {
    if text == "" then
      Some(from)
    else if text[0] != '[' then
      None
    else
      var rest := text[1..];
      var end := IndexOf(rest, ']');
      if end == |rest| then
        None
      else
        match ParsedIndex(rest[..end])
        case None => None
        case Some(index) =>
          if from.node.value.Array? && index < |from.node.value.items| then
            AtIndexes(Spot(from.node.value.items[index], from.address + [Item(index)]), rest[end + 1..])
          else
            None
  }

  /** The spot one dotted piece leads to: a name, when there is one, then its indexes. */
  function AtPiece(from: Spot, piece: string): Option<Spot> {
    var bracket := IndexOf(piece, '[');
    var name := piece[..bracket];
    if name == "" then
      AtIndexes(from, piece[bracket..])
    else if from.node.value.Table? && HasKey(from.node.value.entries, name) then
      var at := FindKey(from.node.value.entries, name);
      AtIndexes(Spot(from.node.value.entries[at].node, from.address + [Into(at)]), piece[bracket..])
    else
      None
  }

  function AtPieces(from: Spot, pieces: seq<string>): Option<Spot>
    decreases |pieces|
  {
    if pieces == [] then Some(from)
    else
      match AtPiece(from, pieces[0])
      case None => None
      case Some(next) => AtPieces(next, pieces[1..])
  }

  /** The spot a dotted path names; the empty path names the root. */
  function Located(root: Node, path: string): Option<Spot> {
    AtPieces(Spot(root, []), SplitDots(path))
  }

  // ---- Leaves ----

  datatype Leaf = Leaf(path: string, node: Node)

  /** How many nodes stand directly under this one. */
  function Degree(node: Node): nat {
    match node.value
    case Table(entries) => |entries|
    case Array(items) => |items|
    case _ => 0
  }

  function ChildAt(node: Node, i: nat): Node
    requires i < Degree(node)
  {
    if node.value.Table? then node.value.entries[i].node else node.value.items[i]
  }

  function ChildPath(node: Node, path: string, i: nat): string
    requires i < Degree(node)
  {
    if node.value.Table? then JoinKey(path, node.value.entries[i].key) else JoinIndex(path, i)
  }

  /** Every leaf under `node` with its path, in tree order. */
  function LeavesOf(node: Node, path: string): seq<Leaf>
    decreases node
  {
    if IsScalar(node) then [Leaf(path, node)] else LeavesFrom(node, path, 0)
  }

  /** The leaves under the children from place `i` on. */
  function LeavesFrom(node: Node, path: string, i: nat): seq<Leaf>
    requires i <= Degree(node)
    decreases node, Degree(node) - i
  {
    if i == Degree(node) then []
    else LeavesOf(ChildAt(node, i), ChildPath(node, path, i)) + LeavesFrom(node, path, i + 1)
  }

  lemma LeavesUnfold(node: Node, path: string)
    ensures LeavesOf(node, path) == if IsScalar(node) then [Leaf(path, node)] else LeavesFrom(node, path, 0)
    ensures LeavesFrom(node, path, Degree(node)) == []
  {
  }

  lemma LeavesNext(node: Node, path: string, i: nat, before: seq<Leaf>)
    requires i < Degree(node)
    ensures before + LeavesFrom(node, path, i) ==
              before + LeavesOf(ChildAt(node, i), ChildPath(node, path, i)) + LeavesFrom(node, path, i + 1)
  {
    hide LeavesOf;
  }

  function TreeLeaves(root: Option<Node>): seq<Leaf> {
    match root
    case None => []
    case Some(node) => LeavesOf(node, "")
  }

  // ---- The tree object ----

  class Tree {
    var root: Option<Node>

    constructor Empty()
      ensures root == None
    {
      root := None;
    }

    /** The two trees become one, `upper` winning wherever both hold a value. */
    method Overlay(upper: Option<Node>)
      modifies this
      ensures root == Overlaid(old(root), upper)
    {
      if upper.None? {
        return;
      }
      match root {
        case Some(base) =>
          var merged := Merge(base, upper.value);
          root := Some(merged);
        case None => root := upper;
      }
    }

    static method Merge(base: Node, upper: Node) returns (merged: Node)
      ensures merged == Merged(base, upper)
      decreases upper
    {
      if !base.value.Table? || !upper.value.Table? {
        return upper;
      }
      var entries := base.value.entries;
      var over := upper.value.entries;
      for i := 0 to |over|
        invariant MergedEntries(base.value.entries, upper, 0) == MergedEntries(entries, upper, i)
      {
        var at := FindKey(entries, over[i].key);
        if at < |entries| {
          var child := Merge(entries[at].node, over[i].node);
          entries := entries[at := Entry(entries[at].key, child)];
        } else {
          entries := entries + [over[i]];
        }
      }
      merged := Node(Table(entries), base.origin);
    }

    /** Puts `node` under `keys`; with no keys, nothing happens. */
    method Set(keys: seq<string>, node: Node)
      modifies this
      ensures root == WrittenAt(old(root), keys, node)
    {
      if keys == [] {
        return;
      }
      if root.None? {
        root := Some(EmptyTable(node.origin));
      }
      if !root.value.value.Table? {
        root := Some(Node(Table([]), root.value.origin));
      }
      var written := SetIn(root.value, keys, node);
      root := Some(written);
    }

    static method SetIn(table: Node, keys: seq<string>, node: Node) returns (written: Node)
      requires table.value.Table? && keys != []
      ensures written == WrittenIn(table, keys, node)
      decreases |keys|
    {
      var entries := table.value.entries;
      var at := FindKey(entries, keys[0]);
      if |keys| == 1 {
        if at < |entries| {
          entries := entries[at := Entry(keys[0], node)];
        } else {
          entries := entries + [Entry(keys[0], node)];
        }
        return Node(Table(entries), table.origin);
      }
      if at == |entries| {
        entries := entries + [Entry(keys[0], EmptyTable(node.origin))];
      }
      if !entries[at].node.value.Table? {
        entries := entries[at := Entry(keys[0], EmptyTable(node.origin))];
      }
      var child := SetIn(entries[at].node, keys[1..], node);
      entries := entries[at := Entry(keys[0], child)];
      assert at == |table.value.entries| ==> entries == table.value.entries + [Entry(keys[0], child)];
      assert at < |table.value.entries| ==> entries == table.value.entries[at := Entry(keys[0], child)];
      written := Node(Table(entries), table.origin);
    }

    /** Down the names and indexes of `path`, if the tree has them all. */
    method Get(path: string) returns (found: Option<Node>)
      ensures root.None? ==> found.None?
      ensures root.Some? ==> found == NodeOf(Located(root.value, path))
    {
      if root.None? {
        return None;
      }
      ghost var start := Spot(root.value, []);
      ghost var spot := start;
      var node := root.value;
      if path == "" {
        assert SplitDots(path) == [""];
        assert AtPieces(start, [""]) == AtPieces(start, [""][1..]);
        return Some(node);
      }
      var pieces := SplitDots(path);
      for i := 0 to |pieces|
        invariant spot.node == node
        invariant AtPieces(start, pieces) == AtPieces(spot, pieces[i..])
      {
        var bracket := IndexOf(pieces[i], '[');
        var name, indexes := pieces[i][..bracket], pieces[i][bracket..];
        ghost var before := spot;
        if name != "" {
          if !node.value.Table? || !HasKey(node.value.entries, name) {
            return None;
          }
          var at := FindKey(node.value.entries, name);
          spot := Spot(node.value.entries[at].node, spot.address + [Into(at)]);
          node := node.value.entries[at].node;
        }
        while indexes != "" && indexes[0] == '['
          invariant spot.node == node
          invariant AtPiece(before, pieces[i]) == AtIndexes(spot, indexes)
          decreases |indexes|
        {
          var rest := indexes[1..];
          var end := IndexOf(rest, ']');
          if end == |rest| {
            return None;
          }
          var index := ParsedIndex(rest[..end]);
          if index.None? || !node.value.Array? || index.value >= |node.value.items| {
            return None;
          }
          spot := Spot(node.value.items[index.value], spot.address + [Item(index.value)]);
          node := node.value.items[index.value];
          indexes := rest[end + 1..];
        }
        if indexes != "" {
          return None;
        }
      }
      found := Some(node);
    }

    /** The leaves and where each stands. */
    method Leaves() returns (out: seq<Leaf>)
      ensures out == TreeLeaves(root)
    {
      out := [];
      if root.Some? {
        out := Collect(root.value, "", out);
      }
    }

    static method Collect(node: Node, path: string, before: seq<Leaf>) returns (out: seq<Leaf>)
      ensures out == before + LeavesOf(node, path)
      decreases node
    {
      hide LeavesOf, LeavesFrom;
      LeavesUnfold(node, path);
      out := before;
      match node.value {
        case Table(entries) =>
          for i := 0 to |entries|
            invariant out + LeavesFrom(node, path, i) == before + LeavesFrom(node, path, 0)
          {
            LeavesNext(node, path, i, out);
            out := Collect(entries[i].node, JoinKey(path, entries[i].key), out);
          }
        case Array(items) =>
          for i := 0 to |items|
            invariant out + LeavesFrom(node, path, i) == before + LeavesFrom(node, path, 0)
          {
            LeavesNext(node, path, i, out);
            out := Collect(items[i], JoinIndex(path, i), out);
          }
        case _ => out := out + [Leaf(path, node)];
      }
    }
  }

  function NodeOf(spot: Option<Spot>): Option<Node> {
    match spot
    case None => None
    case Some(s) => Some(s.node)
  }
}

module Options {
  datatype Option<+T> = None | Some(value: T)
}
