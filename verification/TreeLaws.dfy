/** What the dotted paths promise. */
module TreeLaws {
  import opened Options
  import opened Trees
  import Decimal

  // ---- Addresses: which node, independent of how its path is spelled ----

  predicate ValidAddress(node: Node, address: seq<Step>)
    decreases |address|
  {
    address == [] ||
    match address[0]
    case Into(i) =>
      node.value.Table? && i < |node.value.entries| && ValidAddress(node.value.entries[i].node, address[1..])
    case Item(i) =>
      node.value.Array? && i < |node.value.items| && ValidAddress(node.value.items[i], address[1..])
  }

  function NodeAt(node: Node, address: seq<Step>): Node
    requires ValidAddress(node, address)
    decreases |address|
  {
    if address == [] then node
    else
      match address[0]
      case Into(i) => NodeAt(node.value.entries[i].node, address[1..])
      case Item(i) => NodeAt(node.value.items[i], address[1..])
  }

  /** The path the tree prints for an address under `node`, itself printed as `path`. */
  function PathFrom(node: Node, path: string, address: seq<Step>): string
    requires ValidAddress(node, address)
    decreases |address|
  {
    if address == [] then path
    else
      match address[0]
      case Into(i) => PathFrom(node.value.entries[i].node, JoinKey(path, node.value.entries[i].key), address[1..])
      case Item(i) => PathFrom(node.value.items[i], JoinIndex(path, i), address[1..])
  }

  /** Every key on the way is clean, and the first of its table under that key. */
  predicate CleanAddress(node: Node, address: seq<Step>)
    requires ValidAddress(node, address)
    decreases |address|
  {
    address == [] ||
    match address[0]
    case Into(i) =>
      var entries := node.value.entries;
      CleanKey(entries[i].key) && FindKey(entries, entries[i].key) == i &&
      CleanAddress(entries[i].node, address[1..])
    case Item(i) => CleanAddress(node.value.items[i], address[1..])
  }

  // ---- Splitting and walking commute with extending a path ----

  /** The first place of a character is the only place that answers as one. */
  lemma IndexIs(s: string, c: char, at: nat)
    requires at <= |s| && (at < |s| ==> s[at] == c)
    requires forall j | 0 <= j < at :: s[j] != c
    ensures IndexOf(s, c) == at
  {
  }

  lemma SplitUnfolds(s: string)
    ensures var at := IndexOf(s, '.');
            SplitDots(s) == if at == |s| then [s] else [s[..at]] + SplitDots(s[at + 1..])
  {
    hide IndexOf;
  }

  lemma DotWithin(s: string, more: string)
    requires '.' !in more
    ensures IndexOf(s + more, '.') == if IndexOf(s, '.') == |s| then |s + more| else IndexOf(s, '.')
  {
    var at := IndexOf(s, '.');
    IndexIs(s + more, '.', if at == |s| then |s + more| else at);
  }

  lemma {:induction false} SplitWithin(s: string, more: string)
    requires '.' !in more
    ensures var p := SplitDots(s);
            SplitDots(s + more) == p[..|p| - 1] + [p[|p| - 1] + more]
    decreases |s|
  {
    hide SplitDots, IndexOf;
    var at := IndexOf(s, '.');
    SplitUnfolds(s);
    SplitUnfolds(s + more);
    DotWithin(s, more);
    if at < |s| {
      SplitWithin(s[at + 1..], more);
      assert (s + more)[at + 1..] == s[at + 1..] + more;
      assert (s + more)[..at] == s[..at];
      LastExtended(s[..at], SplitDots(s[at + 1..]), more);
    }
  }

  lemma LastExtended(head: string, rest: seq<string>, more: string)
    requires rest != []
    ensures var whole := [head] + rest;
            [head] + (rest[..|rest| - 1] + [rest[|rest| - 1] + more]) ==
              whole[..|whole| - 1] + [whole[|whole| - 1] + more]
  {
  }

  lemma {:induction false} SplitAfterDot(s: string, key: string)
    requires '.' !in key
    ensures SplitDots(s + "." + key) == SplitDots(s) + [key]
    decreases |s|
  {
    hide SplitDots, IndexOf;
    var at := IndexOf(s, '.');
    var whole := s + "." + key;
    IndexIs(whole, '.', at);
    SplitUnfolds(s);
    SplitUnfolds(whole);
    assert whole[..at] == s[..at];
    if at == |s| {
      assert whole[at + 1..] == key && s[..at] == s;
      IndexIs(key, '.', |key|);
      SplitUnfolds(key);
    } else {
      SplitAfterDot(s[at + 1..], key);
      assert whole[at + 1..] == s[at + 1..] + "." + key;
      assert [s[..at]] + (SplitDots(s[at + 1..]) + [key]) == [s[..at]] + SplitDots(s[at + 1..]) + [key];
    }
  }

  lemma {:induction false} PiecesAppend(from: Spot, pieces: seq<string>, last: string)
    ensures AtPieces(from, pieces + [last]) ==
            match AtPieces(from, pieces) case None => None case Some(next) => AtPiece(next, last)
    decreases |pieces|
  {
    if pieces == [] {
      assert AtPieces(from, [last]) == match AtPiece(from, last) case None => None case Some(n) => AtPieces(n, []);
    } else {
      assert (pieces + [last])[1..] == pieces[1..] + [last];
      if AtPiece(from, pieces[0]).Some? {
        PiecesAppend(AtPiece(from, pieces[0]).value, pieces[1..], last);
      }
    }
  }

  /** One `[n]` of the text that may follow a name. */
  lemma IndexStep(from: Spot, text: string, end: nat, i: nat)
    requires text != "" && text[0] == '[' && IndexOf(text[1..], ']') == end < |text| - 1 &&
             ParsedIndex(text[1..][..end]) == Some(i)
    requires from.node.value.Array? && i < |from.node.value.items|
    ensures AtIndexes(from, text) ==
              AtIndexes(Spot(from.node.value.items[i], from.address + [Item(i)]), text[1..][end + 1..])
  {
    hide ParsedIndex, IndexOf;
  }

  lemma IndexTaken(from: Spot, text: string) returns (end: nat, i: nat)
    requires text != "" && AtIndexes(from, text).Some?
    ensures text[0] == '[' && IndexOf(text[1..], ']') == end < |text| - 1 && ParsedIndex(text[1..][..end]) == Some(i)
    ensures from.node.value.Array? && i < |from.node.value.items|
    ensures AtIndexes(from, text) ==
              AtIndexes(Spot(from.node.value.items[i], from.address + [Item(i)]), text[1..][end + 1..])
  {
    hide ParsedIndex, IndexOf;
    end := IndexOf(text[1..], ']');
    i := ParsedIndex(text[1..][..end]).value;
  }

  lemma OneIndex(from: Spot, index: nat)
    requires from.node.value.Array? && index < |from.node.value.items|
    ensures AtIndexes(from, "[" + Decimal.Print(index) + "]") ==
              Some(Spot(from.node.value.items[index], from.address + [Item(index)]))
  {
    var digits := Decimal.Print(index);
    var rest := digits + "]";
    assert ("[" + digits + "]")[1..] == rest;
    assert rest[|digits|] == ']' && forall j | 0 <= j < |digits| :: rest[j] == digits[j] && Decimal.IsDigit(digits[j]);
    IndexIs(rest, ']', |digits|);
    assert rest[..|digits|] == digits && rest[|digits| + 1..] == "";
    assert Decimal.IsDigit(digits[0]);
    Decimal.ValueOfPrint(index);
    assert ParsedIndex(digits) == Some(index);
    IndexStep(from, "[" + digits + "]", |digits|, index);
  }

  lemma {:induction false} IndexesAppend(from: Spot, text: string, index: nat)
    requires AtIndexes(from, text).Some?
    requires var at := AtIndexes(from, text).value; at.node.value.Array? && index < |at.node.value.items|
    ensures var at := AtIndexes(from, text).value;
            AtIndexes(from, text + ("[" + Decimal.Print(index) + "]")) ==
            Some(Spot(at.node.value.items[index], at.address + [Item(index)]))
    decreases |text|
  {
    hide AtIndexes, Decimal.Print, ParsedIndex, IndexOf;
    var tail := "[" + Decimal.Print(index) + "]";
    if text == "" {
      assert text + tail == tail;
      NoIndexes(from);
      OneIndex(from, index);
    } else {
      var end, i := IndexTaken(from, text);
      var rest, whole := text[1..], text + tail;
      assert whole[1..] == rest + tail;
      IndexIs(rest + tail, ']', end);
      assert (rest + tail)[..end] == rest[..end];
      assert (rest + tail)[end + 1..] == rest[end + 1..] + tail;
      IndexStep(from, whole, end, i);
      IndexesAppend(Spot(from.node.value.items[i], from.address + [Item(i)]), rest[end + 1..], index);
    }
  }

  lemma NoIndexes(from: Spot)
    ensures AtIndexes(from, "") == Some(from)
  {
  }

  lemma PieceAppend(from: Spot, piece: string, index: nat)
    requires AtPiece(from, piece).Some?
    requires var at := AtPiece(from, piece).value; at.node.value.Array? && index < |at.node.value.items|
    ensures var at := AtPiece(from, piece).value;
            AtPiece(from, piece + ("[" + Decimal.Print(index) + "]")) ==
            Some(Spot(at.node.value.items[index], at.address + [Item(index)]))
  {
    hide AtIndexes, Decimal.Print, IndexOf;
    var tail := "[" + Decimal.Print(index) + "]";
    var whole := piece + tail;
    var bracket := IndexOf(piece, '[');
    assert whole[|piece|] == '[';
    IndexIs(whole, '[', bracket);
    assert whole[..bracket] == piece[..bracket];
    assert whole[bracket..] == piece[bracket..] + tail;
    var next := if piece[..bracket] == "" then from else
      Spot(from.node.value.entries[FindKey(from.node.value.entries, piece[..bracket])].node,
           from.address + [Into(FindKey(from.node.value.entries, piece[..bracket]))]);
    IndexesAppend(next, piece[bracket..], index);
  }

  lemma EmptyPiece(from: Spot)
    ensures AtPiece(from, "") == Some(from)
    ensures AtPieces(from, [""]) == Some(from)
  {
    assert AtPieces(from, [""]) == AtPieces(from, [""][1..]);
  }

  /** Naming a clean key after a path moves into that key's entry. */
  lemma LocatedKey(root: Node, path: string, key: string)
    requires CleanKey(key)
    requires Located(root, path).Some?
    requires var at := Located(root, path).value.node.value; at.Table? && HasKey(at.entries, key)
    ensures var spot := Located(root, path).value;
            var i := FindKey(spot.node.value.entries, key);
            Located(root, JoinKey(path, key)) ==
            Some(Spot(spot.node.value.entries[i].node, spot.address + [Into(i)]))
  {
    var start := Spot(root, []);
    assert IndexOf(key, '[') == |key| && key[..|key|] == key && key[|key|..] == "";
    if path == "" {
      EmptyPiece(start);
      assert SplitDots("") == [""];
      assert IndexOf(key, '.') == |key|;
      assert SplitDots(key) == [] + [key];
      PiecesAppend(start, [], key);
    } else {
      SplitAfterDot(path, key);
      PiecesAppend(start, SplitDots(path), key);
    }
  }

  /** Writing `[index]` after the last piece moves to that element. */
  lemma IndexAfterLast(start: Spot, pieces: seq<string>, index: nat)
    requires pieces != [] && AtPieces(start, pieces).Some?
    requires var at := AtPieces(start, pieces).value.node.value; at.Array? && index < |at.items|
    ensures var spot := AtPieces(start, pieces).value;
            var last := pieces[|pieces| - 1] + ("[" + Decimal.Print(index) + "]");
            AtPieces(start, pieces[..|pieces| - 1] + [last]) ==
            Some(Spot(spot.node.value.items[index], spot.address + [Item(index)]))
  {
    hide AtPiece, Decimal.Print;
    var last := pieces[|pieces| - 1];
    var init := pieces[..|pieces| - 1];
    var longer := last + ("[" + Decimal.Print(index) + "]");
    assert pieces == init + [last];
    PiecesAppend(start, init, last);
    PiecesAppend(start, init, longer);
    PieceAppend(AtPieces(start, init).value, last, index);
  }

  /** Writing `[index]` after a path moves to that element. */
  lemma LocatedIndex(root: Node, path: string, index: nat)
    requires Located(root, path).Some?
    requires var at := Located(root, path).value.node.value; at.Array? && index < |at.items|
    ensures var spot := Located(root, path).value;
            Located(root, JoinIndex(path, index)) ==
            Some(Spot(spot.node.value.items[index], spot.address + [Item(index)]))
  {
    hide AtPieces, SplitDots, Decimal.Print;
    var start := Spot(root, []);
    var pieces := SplitDots(path);
    var tail := "[" + Decimal.Print(index) + "]";
    assert JoinIndex(path, index) == path + tail;
    assert '.' !in tail by {
      assert forall c | c in Decimal.Print(index) :: Decimal.IsDigit(c);
    }
    SplitWithin(path, tail);
    IndexAfterLast(start, pieces, index);
  }

  // ---- The round trip ----

  lemma {:induction false} LocatedBelow(root: Node, node: Node, path: string, above: seq<Step>, address: seq<Step>)
    requires Located(root, path) == Some(Spot(node, above))
    requires ValidAddress(node, address) && CleanAddress(node, address)
    ensures Located(root, PathFrom(node, path, address)) == Some(Spot(NodeAt(node, address), above + address))
    decreases |address|
  {
    if address == [] {
      assert above + address == above;
    } else {
      assert above + address == above + [address[0]] + address[1..];
      match address[0] {
        case Into(i) =>
          var entry := node.value.entries[i];
          LocatedKey(root, path, entry.key);
          LocatedBelow(root, entry.node, JoinKey(path, entry.key), above + [Into(i)], address[1..]);
        case Item(i) =>
          LocatedIndex(root, path, i);
          LocatedBelow(root, node.value.items[i], JoinIndex(path, i), above + [Item(i)], address[1..]);
      }
    }
  }

  /** Extending a valid address by one move. */
  lemma {:induction false} AddressAppend(root: Node, address: seq<Step>, step: Step)
    requires ValidAddress(root, address)
    requires ValidAddress(NodeAt(root, address), [step])
    ensures ValidAddress(root, address + [step])
    ensures NodeAt(root, address + [step]) == NodeAt(NodeAt(root, address), [step])
    ensures CleanAddress(root, address) && CleanAddress(NodeAt(root, address), [step]) ==>
              CleanAddress(root, address + [step])
    decreases |address|
  {
    if address == [] {
      assert address + [step] == [step];
    } else {
      assert (address + [step])[1..] == address[1..] + [step];
      var child := if address[0].Into? then root.value.entries[address[0].entry].node
      else root.value.items[address[0].index];
      AddressAppend(child, address[1..], step);
    }
  }

  predicate CleanSpot(root: Node, spot: Spot) {
    ValidAddress(root, spot.address) && NodeAt(root, spot.address) == spot.node && CleanAddress(root, spot.address)
  }

  lemma {:induction false} IndexesReachClean(root: Node, from: Spot, text: string)
    requires CleanSpot(root, from)
    ensures AtIndexes(from, text).Some? ==> CleanSpot(root, AtIndexes(from, text).value)
    decreases |text|
  {
    if text != "" && AtIndexes(from, text).Some? {
      var rest := text[1..];
      var end := IndexOf(rest, ']');
      var i := ParsedIndex(rest[..end]).value;
      assert ValidAddress(from.node, [Item(i)]) && CleanAddress(from.node, [Item(i)]) by {
        assert [Item(i)][1..] == [];
      }
      AddressAppend(root, from.address, Item(i));
      IndexesReachClean(root, Spot(from.node.value.items[i], from.address + [Item(i)]), rest[end + 1..]);
    }
  }

  lemma PieceReachesClean(root: Node, from: Spot, piece: string)
    requires CleanSpot(root, from) && '.' !in piece
    ensures AtPiece(from, piece).Some? ==> CleanSpot(root, AtPiece(from, piece).value)
  {
    if AtPiece(from, piece).Some? {
      var bracket := IndexOf(piece, '[');
      var name := piece[..bracket];
      var next := from;
      if name != "" {
        var entries := from.node.value.entries;
        var at := FindKey(entries, name);
        assert CleanKey(name);
        assert ValidAddress(from.node, [Into(at)]) && CleanAddress(from.node, [Into(at)]) by {
          assert [Into(at)][1..] == [];
        }
        AddressAppend(root, from.address, Into(at));
        next := Spot(entries[at].node, from.address + [Into(at)]);
      }
      IndexesReachClean(root, next, piece[bracket..]);
    }
  }

  lemma {:induction false} PiecesReachClean(root: Node, from: Spot, pieces: seq<string>)
    requires CleanSpot(root, from)
    requires forall i | 0 <= i < |pieces| :: '.' !in pieces[i]
    ensures AtPieces(from, pieces).Some? ==> CleanSpot(root, AtPieces(from, pieces).value)
    decreases |pieces|
  {
    if pieces != [] && AtPiece(from, pieces[0]).Some? {
      PieceReachesClean(root, from, pieces[0]);
      PiecesReachClean(root, AtPiece(from, pieces[0]).value, pieces[1..]);
    }
  }

  lemma {:induction false} PiecesHaveNoDots(s: string)
    ensures forall i | 0 <= i < |SplitDots(s)| :: '.' !in SplitDots(s)[i]
    decreases |s|
  {
    var at := IndexOf(s, '.');
    if at < |s| {
      PiecesHaveNoDots(s[at + 1..]);
    }
  }

  /** Whatever the path, the node found sits at a clean address. */
  lemma LocatedIsClean(root: Node, path: string)
    ensures Located(root, path).Some? ==> CleanSpot(root, Located(root, path).value)
  {
    PiecesHaveNoDots(path);
    PiecesReachClean(root, Spot(root, []), SplitDots(path));
  }

  /**
   * The path the tree prints for a node leads back to that very node exactly when every key on
   * the way is non-empty, has no `.` or `[`, and is the first of its table.
   */
  lemma PrintedPathLeadsBack(root: Node, address: seq<Step>)
    requires ValidAddress(root, address)
    ensures Located(root, PathFrom(root, "", address)) == Some(Spot(NodeAt(root, address), address))
            <==> CleanAddress(root, address)
  {
    LocatedIsClean(root, PathFrom(root, "", address));
    if CleanAddress(root, address) {
      EmptyPiece(Spot(root, []));
      assert SplitDots("") == [""];
      LocatedBelow(root, root, "", [], address);
      assert [] + address == address;
    }
  }

  /** Two nodes at clean addresses never print the same path. */
  lemma PrintedPathsDistinct(root: Node, one: seq<Step>, other: seq<Step>)
    requires ValidAddress(root, one) && CleanAddress(root, one)
    requires ValidAddress(root, other) && CleanAddress(root, other)
    requires PathFrom(root, "", one) == PathFrom(root, "", other)
    ensures one == other
  {
    PrintedPathLeadsBack(root, one);
    PrintedPathLeadsBack(root, other);
  }

  // ---- The leaves ----

  function StepTo(node: Node, i: nat): Step {
    if node.value.Table? then Into(i) else Item(i)
  }

  function Below(step: Step, addresses: seq<seq<Step>>): (r: seq<seq<Step>>)
    ensures |r| == |addresses|
    ensures forall k | 0 <= k < |r| :: r[k] == [step] + addresses[k]
  {
    seq(|addresses|, k requires 0 <= k < |addresses| => [step] + addresses[k])
  }

  /** The addresses of the scalars under `node`, in tree order. */
  function ScalarAddresses(node: Node): seq<seq<Step>>
    decreases node
  {
    if IsScalar(node) then [[]] else ScalarAddressesFrom(node, 0)
  }

  function ScalarAddressesFrom(node: Node, i: nat): seq<seq<Step>>
    requires i <= Degree(node)
    decreases node, Degree(node) - i
  {
    if i == Degree(node) then []
    else Below(StepTo(node, i), ScalarAddresses(ChildAt(node, i))) + ScalarAddressesFrom(node, i + 1)
  }

  /** `leaf` is what stands at `address` under `node`, whose own path is `path`. */
  predicate LeafStands(node: Node, path: string, address: seq<Step>, leaf: Leaf) {
    ValidAddress(node, address) && IsScalar(NodeAt(node, address)) &&
    leaf == Leaf(PathFrom(node, path, address), NodeAt(node, address))
  }

  lemma {:induction false} LeavesStand(node: Node, path: string)
    ensures |LeavesOf(node, path)| == |ScalarAddresses(node)|
    ensures forall k | 0 <= k < |LeavesOf(node, path)| ::
              LeafStands(node, path, ScalarAddresses(node)[k], LeavesOf(node, path)[k])
    decreases node
  {
    if !IsScalar(node) {
      LeavesStandFrom(node, path, 0);
    }
  }

  lemma {:induction false} LeavesStandFrom(node: Node, path: string, i: nat)
    requires i <= Degree(node)
    ensures |LeavesFrom(node, path, i)| == |ScalarAddressesFrom(node, i)|
    ensures forall k | 0 <= k < |LeavesFrom(node, path, i)| ::
              LeafStands(node, path, ScalarAddressesFrom(node, i)[k], LeavesFrom(node, path, i)[k])
    decreases node, Degree(node) - i
  {
    if i < Degree(node) {
      var child, at := ChildAt(node, i), ChildPath(node, path, i);
      LeavesStand(child, at);
      LeavesStandFrom(node, path, i + 1);
      var leaves, addresses := LeavesOf(child, at), ScalarAddresses(child);
      forall k | 0 <= k < |leaves|
        ensures LeafStands(node, path, [StepTo(node, i)] + addresses[k], leaves[k])
      {
        assert LeafStands(child, at, addresses[k], leaves[k]);
        assert ([StepTo(node, i)] + addresses[k])[1..] == addresses[k];
      }
    }
  }

  /** Every scalar of the tree is among its leaves. */
  lemma {:induction false} EveryScalarListed(node: Node, address: seq<Step>)
    requires ValidAddress(node, address) && IsScalar(NodeAt(node, address))
    ensures address in ScalarAddresses(node)
    decreases node
  {
    if address != [] {
      var i := if address[0].Into? then address[0].entry else address[0].index;
      EveryScalarListed(ChildAt(node, i), address[1..]);
      var below := ScalarAddresses(ChildAt(node, i));
      var k :| 0 <= k < |below| && below[k] == address[1..];
      assert Below(StepTo(node, i), below)[k] == address;
      ListedFrom(node, 0, i, address);
    }
  }

  lemma {:induction false} ListedFrom(node: Node, from: nat, i: nat, address: seq<Step>)
    requires from <= i < Degree(node)
    requires address in Below(StepTo(node, i), ScalarAddresses(ChildAt(node, i)))
    ensures address in ScalarAddressesFrom(node, from)
    decreases i - from
  {
    if from < i {
      ListedFrom(node, from + 1, i, address);
    }
  }

  function Place(step: Step): nat {
    if step.Into? then step.entry else step.index
  }

  predicate Distinct<T(==)>(items: seq<T>) {
    forall k, l | 0 <= k < l < |items| :: items[k] != items[l]
  }

  lemma {:induction false} ScalarsDistinct(node: Node)
    ensures Distinct(ScalarAddresses(node))
    decreases node
  {
    if !IsScalar(node) {
      ScalarsDistinctFrom(node, 0);
    }
  }

  lemma {:induction false} ScalarsDistinctFrom(node: Node, i: nat)
    requires i <= Degree(node)
    ensures forall k | 0 <= k < |ScalarAddressesFrom(node, i)| ::
              ScalarAddressesFrom(node, i)[k] != [] && i <= Place(ScalarAddressesFrom(node, i)[k][0])
    ensures Distinct(ScalarAddressesFrom(node, i))
    decreases node, Degree(node) - i
  {
    if i < Degree(node) {
      var below := ScalarAddresses(ChildAt(node, i));
      ScalarsDistinct(ChildAt(node, i));
      ScalarsDistinctFrom(node, i + 1);
      var first, rest := Below(StepTo(node, i), below), ScalarAddressesFrom(node, i + 1);
      forall k, l | 0 <= k < l < |first|
        ensures first[k] != first[l]
      {
        assert first[k][1..] == below[k] && first[l][1..] == below[l];
      }
      forall k | 0 <= k < |first|
        ensures first[k] != [] && Place(first[k][0]) == i
      {
        assert first[k] == [StepTo(node, i)] + below[k];
      }
    }
  }

  /** Every table of the tree has unique, clean keys. */
  predicate CleanTree(node: Node) {
    match node.value
    case Table(entries) =>
      UniqueKeys(entries) &&
      forall i | 0 <= i < |entries| :: CleanKey(entries[i].key) && CleanTree(entries[i].node)
    case Array(items) => forall i | 0 <= i < |items| :: CleanTree(items[i])
    case _ => true
  }

  lemma {:induction false} CleanTreeCleanAddress(node: Node, address: seq<Step>)
    requires CleanTree(node) && ValidAddress(node, address)
    ensures CleanAddress(node, address)
    decreases |address|
  {
    if address != [] {
      match address[0]
      case Into(i) =>
        var entries := node.value.entries;
        assert FindKey(entries, entries[i].key) <= i;
        CleanTreeCleanAddress(entries[i].node, address[1..]);
      case Item(i) =>
        CleanTreeCleanAddress(node.value.items[i], address[1..]);
    }
  }

  /**
   * In a clean tree each printed leaf path leads back to that very leaf, so no two leaves share a
   * path, and every scalar of the tree is listed.
   */
  lemma LeafPathsLeadBack(root: Node)
    requires CleanTree(root)
    ensures |LeavesOf(root, "")| == |ScalarAddresses(root)|
    ensures forall k | 0 <= k < |LeavesOf(root, "")| ::
              Located(root, LeavesOf(root, "")[k].path) ==
                Some(Spot(LeavesOf(root, "")[k].node, ScalarAddresses(root)[k]))
    ensures forall k, l | 0 <= k < l < |LeavesOf(root, "")| :: LeavesOf(root, "")[k].path != LeavesOf(root, "")[l].path
  {
    var leaves, addresses := LeavesOf(root, ""), ScalarAddresses(root);
    LeavesStand(root, "");
    ScalarsDistinct(root);
    forall k | 0 <= k < |leaves|
      ensures Located(root, leaves[k].path) == Some(Spot(leaves[k].node, addresses[k]))
    {
      assert LeafStands(root, "", addresses[k], leaves[k]);
      CleanTreeCleanAddress(root, addresses[k]);
      PrintedPathLeadsBack(root, addresses[k]);
    }
  }

  /**
   * The text between brackets is an index exactly when it is a number in decimal, with zeros and a
   * plus before it or not.
   */
  lemma ParsedIndexIs(text: string, n: nat)
    ensures ParsedIndex(text) == Some(n) <==>
            Decimal.Writes(text, n) || (text != "" && text[0] == '+' && Decimal.Writes(text[1..], n))
  {
    hide Decimal.Writes, Decimal.Value, Decimal.AllDigits;
    var signed := text != "" && text[0] == '+';
    Decimal.WritesIs(if signed then text[1..] else text, n);
    if signed {
      Decimal.SignIsNoDigit(text, n);
    }
  }
}
