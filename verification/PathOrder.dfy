/** Which paths lie beneath which, for keys a dotted path can name. */
module PathOrder {
  import opened Trees
  import Decimal

  /** `path` is `top`, or continues it with a key or an index. */
  predicate Beneath(top: string, path: string) {
    top == "" || path == top || (|path| > |top| && path[..|top|] == top && (path[|top|] == '.' || path[|top|] == '['))
  }

  lemma BeneathTrans(top: string, mid: string, path: string)
    requires Beneath(top, mid) && Beneath(mid, path)
    requires mid == "" ==> top == ""
    ensures Beneath(top, path)
  {
    if top != "" && mid != top && path != mid {
      assert path[..|top|] == path[..|mid|][..|top|];
      assert path[|top|] == mid[|top|];
    }
  }

  lemma KeyBeneath(top: string, key: string, path: string)
    requires key != ""
    requires Beneath(JoinKey(top, key), path)
    ensures Beneath(top, path) && |path| > |top|
  {
    BeneathTrans(top, JoinKey(top, key), path);
  }

  lemma IndexBeneath(top: string, index: nat, path: string)
    requires Beneath(JoinIndex(top, index), path)
    ensures Beneath(top, path) && |path| > |top|
  {
    var mid := JoinIndex(top, index);
    assert mid == top + ("[" + Decimal.Print(index) + "]");
    BeneathTrans(top, mid, path);
  }

  /** Nothing lies beneath two keys of one table. */
  lemma KeysApart(top: string, one: string, other: string, path: string)
    requires CleanKey(one) && CleanKey(other)
    requires Beneath(JoinKey(top, one), path) && Beneath(JoinKey(top, other), path)
    ensures one == other
  {
    NamedAt(top, one, path);
    NamedAt(top, other, path);
  }

  /** What stands after `top` in a path beneath one of its keys. */
  lemma NamedAt(top: string, key: string, path: string)
    requires CleanKey(key) && Beneath(JoinKey(top, key), path)
    ensures var from := if top == "" then 0 else |top| + 1;
            && |path| >= from + |key| && path[from..from + |key|] == key
            && (|path| > from + |key| ==> path[from + |key|] == '.' || path[from + |key|] == '[')
  {
    var from := if top == "" then 0 else |top| + 1;
    var mid := JoinKey(top, key);
    assert |mid| == from + |key| && mid[from..] == key;
    assert path[..|mid|] == mid;
    assert path[from..from + |key|] == path[..|mid|][from..];
  }

  /** Nothing lies beneath two elements of one array. */
  lemma IndexesApart(top: string, one: nat, other: nat, path: string)
    requires Beneath(JoinIndex(top, one), path) && Beneath(JoinIndex(top, other), path)
    ensures one == other
  {
    IndexedAt(top, one, path);
    IndexedAt(top, other, path);
    assert Decimal.Print(one) == Decimal.Print(other);
    Decimal.ValueOfPrint(one);
    Decimal.ValueOfPrint(other);
  }

  lemma IndexedAt(top: string, index: nat, path: string)
    requires Beneath(JoinIndex(top, index), path)
    ensures var digits := Decimal.Print(index);
            var from := |top| + 1;
            && |path| > from + |digits| && path[from..from + |digits|] == digits && path[from + |digits|] == ']'
  {
    hide Decimal.Print;
    var digits := Decimal.Print(index);
    var from := |top| + 1;
    var mid := JoinIndex(top, index);
    Bracketed(top, digits);
    assert mid == top + "[" + digits + "]";
    assert path[..|mid|] == mid;
    assert path[from..from + |digits|] == path[..|mid|][from..from + |digits|];
    assert path[from + |digits|] == path[..|mid|][from + |digits|];
  }

  lemma Bracketed(top: string, digits: string)
    ensures var mid, from := top + "[" + digits + "]", |top| + 1;
            |mid| == from + |digits| + 1 && mid[from..from + |digits|] == digits && mid[from + |digits|] == ']'
  {
  }
}
