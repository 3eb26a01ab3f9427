/** The release check of the core group. */
module Lockstep {
  datatype Package = Package(version: string, deps: seq<string>, owner: bool, procMacro: bool, generator: bool)

  type Packages = map<string, Package>

  const ANCHOR := "ulo"

  // ---- The core the packages require ----

  predicate Seed(p: Package) {
    p.owner || p.procMacro || p.generator
  }

  /** A chain of dependencies among the packages, from a seed to `name`. */
  ghost predicate Chain(pkgs: Packages, path: seq<string>, name: string) {
    && path != [] && path[|path| - 1] == name
    && (forall i | 0 <= i < |path| :: path[i] in pkgs)
    && (pkgs[path[0]].owner || pkgs[path[0]].procMacro || pkgs[path[0]].generator)
    && (forall i | 0 <= i < |path| - 1 :: path[i + 1] in pkgs[path[i]].deps)
  }

  ghost predicate Required(pkgs: Packages, name: string) {
    exists path :: Chain(pkgs, path, name)
  }

  lemma RequiredNext(pkgs: Packages, name: string, dep: string)
    requires Required(pkgs, name) && dep in pkgs && dep in pkgs[name].deps
    ensures Required(pkgs, dep)
  {
    var path :| Chain(pkgs, path, name);
    assert Chain(pkgs, path + [dep], dep);
  }

  lemma RequiredSeed(pkgs: Packages, name: string)
    requires name in pkgs && Seed(pkgs[name])
    ensures Required(pkgs, name)
  {
    assert Chain(pkgs, [name], name);
  }

  /** A set with every seed and every dependency of its members has every required package. */
  lemma {:induction false} ClosedHasChain(pkgs: Packages, core: set<string>, path: seq<string>, name: string)
    requires Chain(pkgs, path, name) && Closed(pkgs, core, {}) && forall n | n in pkgs && Seed(pkgs[n]) :: n in core
    ensures name in core
    decreases |path|
  {
    if |path| > 1 {
      var last := |path| - 1;
      assert Chain(pkgs, path[..last], path[last - 1]);
      ClosedHasChain(pkgs, core, path[..last], path[last - 1]);
      assert path[last] in pkgs[path[last - 1]].deps;
    }
  }

  /** Every member but those in `todo` has its dependencies in the set. */
  predicate Closed(pkgs: Packages, core: set<string>, todo: set<string>) {
    && core <= pkgs.Keys
    && forall n | n in core && n !in todo :: forall dep | dep in pkgs[n].deps && dep in pkgs :: dep in core
  }

  /** The worklist: whatever it takes next, it ends with exactly the required packages. */
  method Core(pkgs: Packages) returns (core: set<string>)
    ensures forall name :: name in core <==> Required(pkgs, name)
  {
    hide Required, Closed;
    core := set name | name in pkgs && Seed(pkgs[name]);
    ghost var seeds := core;
    var todo := core;
    SeedsAreRequired(pkgs, core);
    while todo != {}
      invariant todo <= core <= pkgs.Keys && seeds <= core
      invariant forall name | name in core :: Required(pkgs, name)
      invariant Closed(pkgs, core, todo)
      decreases |pkgs.Keys - core|, |todo|
    {
      var name :| name in todo;
      ghost var before := core;
      assert todo - {name} + {name} == todo;
      todo := todo - {name};
      core, todo := Follow(pkgs, core, todo, name);
      if core != before {
        Shrinks(pkgs.Keys - core, pkgs.Keys - before);
      }
    }
    ClosedIsAll(pkgs, core);
  }

  lemma SeedsAreRequired(pkgs: Packages, seeds: set<string>)
    requires seeds == set name | name in pkgs && Seed(pkgs[name])
    ensures forall name | name in seeds :: Required(pkgs, name)
    ensures Closed(pkgs, seeds, seeds)
  {
    forall name | name in seeds
      ensures Required(pkgs, name)
    {
      RequiredSeed(pkgs, name);
    }
  }

  lemma ClosedIsAll(pkgs: Packages, core: set<string>)
    requires Closed(pkgs, core, {}) && forall name | name in pkgs && Seed(pkgs[name]) :: name in core
    ensures forall name | Required(pkgs, name) :: name in core
  {
    forall name | Required(pkgs, name)
      ensures name in core
    {
      var path :| Chain(pkgs, path, name);
      ClosedHasChain(pkgs, core, path, name);
    }
  }

  lemma Shrinks(less: set<string>, more: set<string>)
    requires less < more
    ensures |less| < |more|
  {
    assert more == less + (more - less);
  }

  /** The dependencies of one package added, each new one to be looked at in its turn. */
  method Follow(pkgs: Packages, core: set<string>, todo: set<string>, name: string)
    returns (core': set<string>, todo': set<string>)
    requires todo <= core <= pkgs.Keys && name in core && Closed(pkgs, core, todo + {name})
    requires forall n | n in core :: Required(pkgs, n)
    ensures todo' <= core' <= pkgs.Keys && core <= core' && Closed(pkgs, core', todo')
    ensures core' == core ==> todo' == todo
    ensures forall n | n in core' :: Required(pkgs, n)
  {
    core', todo' := core, todo;
    var deps := pkgs[name].deps;
    for i := 0 to |deps|
      invariant todo' <= core' <= pkgs.Keys && core <= core'
      invariant core' == core ==> todo' == todo
      invariant Closed(pkgs, core', todo' + {name})
      invariant forall n | n in core' :: Required(pkgs, n)
      invariant forall k | 0 <= k < i && deps[k] in pkgs :: deps[k] in core'
    {
      var dep := deps[i];
      if dep in pkgs && dep !in core' {
        RequiredNext(pkgs, name, dep);
        core', todo' := core' + {dep}, todo' + {dep};
      }
    }
  }

  // ---- The findings ----

  datatype Finding =
    | ListedTwice(name: string)
    | NoAnchor
    | NoMember(name: string)
    | Lacks(name: string)
    | DoesNotBelong(name: string)
    | OtherVersion(name: string)
    | NotAtPreRelease(name: string)

  /** A version with a pre-release part: a hyphen before any build metadata. */
  predicate PreRelease(version: string) {
    exists i | 0 <= i < |version| :: version[i] == '-' && forall j | 0 <= j < i :: version[j] != '+'
  }

  predicate ListedOnce(group: seq<string>) {
    forall i, j | 0 <= i < j < |group| :: group[i] != group[j]
  }

  function Members(group: seq<string>): set<string> {
    set i | 0 <= i < |group| :: group[i]
  }

  /** The core at one version, and while that is a pre-release every crate at it. */
  predicate VersionRule(pkgs: Packages, group: set<string>) {
    ANCHOR in pkgs ==>
      && (forall name | name in group && name in pkgs :: pkgs[name].version == pkgs[ANCHOR].version)
      && (PreRelease(pkgs[ANCHOR].version) ==>
        forall name | name in pkgs && name !in group :: pkgs[name].version == pkgs[ANCHOR].version)
  }

  /** What each finding says of the packages and the group. */
  ghost predicate Holds(pkgs: Packages, group: seq<string>, f: Finding) {
    match f
    case ListedTwice(name) => exists i, j | 0 <= i < j < |group| :: group[i] == group[j] == name
    case NoAnchor => "ulo" !in group
    case NoMember(name) => name in group && name !in pkgs
    case Lacks(name) => name !in group && Required(pkgs, name)
    case DoesNotBelong(name) => name in group && name in pkgs && !Required(pkgs, name)
    case OtherVersion(name) =>
      name in group && name in pkgs && "ulo" in pkgs && pkgs[name].version != pkgs["ulo"].version
    case NotAtPreRelease(name) =>
      && name !in group && name in pkgs && "ulo" in pkgs && pkgs[name].version != pkgs["ulo"].version
      && PreRelease(pkgs["ulo"].version)
  }

  ghost predicate EachOnce(found: seq<Finding>) {
    forall i, j | 0 <= i < j < |found| :: found[i] != found[j]
  }

  /** One kind of finding, each once, for exactly the names of a set. */
  ghost predicate Covers(found: seq<Finding>, names: set<string>, of: string -> Finding) {
    && EachOnce(found)
    && (forall name | name in names :: of(name) in found)
    && (forall f | f in found :: exists name | name in names :: f == of(name))
  }

  /** One finding for each name of a set. */
  method ForEach(names: set<string>, of: string -> Finding) returns (found: seq<Finding>)
    requires forall one, other | one in names && other in names && of(one) == of(other) :: one == other
    ensures Covers(found, names, of)
  {
    found := [];
    var left := names;
    while left != {}
      invariant left <= names && Covers(found, names - left, of)
      decreases |left|
    {
      var name :| name in left;
      OneMore(found, names - left, name, of);
      assert names - (left - {name}) == names - left + {name};
      left := left - {name};
      found := found + [of(name)];
    }
    assert names - {} == names;
  }

  lemma OneMore(found: seq<Finding>, names: set<string>, name: string, of: string -> Finding)
    requires Covers(found, names, of) && name !in names
    requires forall other | other in names && of(other) == of(name) :: other == name
    ensures Covers(found + [of(name)], names + {name}, of)
  {
    assert of(name) !in found;
  }

  function KindOf(f: Finding): nat {
    match f
    case ListedTwice(_) => 0
    case NoAnchor => 1
    case NoMember(_) => 2
    case Lacks(_) => 3
    case DoesNotBelong(_) => 4
    case OtherVersion(_) => 5
    case NotAtPreRelease(_) => 6
  }

  /** The list has every finding of one kind that holds, and no other, each once. */
  ghost predicate Lists(found: seq<Finding>, pkgs: Packages, group: seq<string>, kind: nat) {
    EachOnce(found) && forall f :: f in found <==> KindOf(f) == kind && Holds(pkgs, group, f)
  }

  ghost predicate ListsBelow(found: seq<Finding>, pkgs: Packages, group: seq<string>, kinds: nat) {
    EachOnce(found) && forall f :: f in found <==> KindOf(f) < kinds && Holds(pkgs, group, f)
  }

  lemma NothingListed(pkgs: Packages, group: seq<string>)
    ensures ListsBelow([], pkgs, group, 0)
  {
  }

  lemma NextKind(a: seq<Finding>, b: seq<Finding>, pkgs: Packages, group: seq<string>, kind: nat)
    requires ListsBelow(a, pkgs, group, kind) && Lists(b, pkgs, group, kind)
    ensures ListsBelow(a + b, pkgs, group, kind + 1)
  {
    hide Holds, KindOf;
    assert forall i | 0 <= i < |a| :: a[i] in a && KindOf(a[i]) < kind;
    assert forall i | 0 <= i < |b| :: b[i] in b && KindOf(b[i]) == kind;
  }

  /** A list that covers a set, of a kind that holds of exactly its names. */
  lemma CoversIsLists(found: seq<Finding>, names: set<string>, of: string -> Finding, pkgs: Packages,
      group: seq<string>, kind: nat)
    requires Covers(found, names, of)
    requires forall name :: KindOf(of(name)) == kind && (Holds(pkgs, group, of(name)) <==> name in names)
    requires forall f | KindOf(f) == kind :: f == of(NameOf(f))
    ensures Lists(found, pkgs, group, kind)
  {
    hide Holds, KindOf, NameOf;
    forall f | KindOf(f) == kind && Holds(pkgs, group, f)
      ensures f in found
    {
      assert f == of(NameOf(f));
    }
  }

  function NameOf(f: Finding): string {
    if f.NoAnchor? then "" else f.name
  }

  lemma AllMembers(group: seq<string>)
    ensures forall name :: name in Members(group) <==> name in group
  {
  }

  /** Every finding of the list holds, every finding that holds is in it, and each once. */
  method Findings(pkgs: Packages, group: seq<string>) returns (found: seq<Finding>)
    ensures EachOnce(found) && forall f :: f in found <==> Holds(pkgs, group, f)
  {
    hide Lists, ListsBelow, Holds, Members;
    NothingListed(pkgs, group);
    var doubles := Doubles(pkgs, group);
    found := [] + doubles;
    NextKind([], doubles, pkgs, group, 0);
    var anchor := Anchor(pkgs, group);
    NextKind(found, anchor, pkgs, group, 1);
    found := found + anchor;
    var strangers := Strangers(pkgs, group);
    NextKind(found, strangers, pkgs, group, 2);
    found := found + strangers;
    var core := Core(pkgs);
    var lacking, extra := CoreFindings(pkgs, group, core);
    NextKind(found, lacking, pkgs, group, 3);
    NextKind(found + lacking, extra, pkgs, group, 4);
    found := found + lacking + extra;
    var other, behind := VersionFindings(pkgs, group);
    NextKind(found, other, pkgs, group, 5);
    NextKind(found + other, behind, pkgs, group, 6);
    found := found + other + behind;
    AllKinds(found, pkgs, group);
  }

  lemma AllKinds(found: seq<Finding>, pkgs: Packages, group: seq<string>)
    requires ListsBelow(found, pkgs, group, 7)
    ensures EachOnce(found) && forall f :: f in found <==> Holds(pkgs, group, f)
  {
    hide Holds;
  }

  method Doubles(pkgs: Packages, group: seq<string>) returns (found: seq<Finding>)
    ensures Lists(found, pkgs, group, 0)
  {
    var twice := set i, j | 0 <= i < j < |group| && group[i] == group[j] :: group[i];
    found := ForEach(twice, name => ListedTwice(name));
    CoversIsLists(found, twice, name => ListedTwice(name), pkgs, group, 0);
  }

  method Anchor(pkgs: Packages, group: seq<string>) returns (found: seq<Finding>)
    ensures Lists(found, pkgs, group, 1)
  {
    found := if ANCHOR !in group then [NoAnchor] else [];
  }

  method Strangers(pkgs: Packages, group: seq<string>) returns (found: seq<Finding>)
    ensures Lists(found, pkgs, group, 2)
  {
    AllMembers(group);
    var names := Members(group) - pkgs.Keys;
    found := ForEach(names, name => NoMember(name));
    CoversIsLists(found, names, name => NoMember(name), pkgs, group, 2);
  }

  method CoreFindings(pkgs: Packages, group: seq<string>, core: set<string>)
    returns (lacking: seq<Finding>, extra: seq<Finding>)
    requires forall name :: name in core <==> Required(pkgs, name)
    ensures Lists(lacking, pkgs, group, 3) && Lists(extra, pkgs, group, 4)
  {
    hide Required, Members;
    AllMembers(group);
    var members := Members(group);
    lacking := ForEach(core - members, name => Lacks(name));
    CoversIsLists(lacking, core - members, name => Lacks(name), pkgs, group, 3);
    var strays := members * pkgs.Keys - core;
    extra := ForEach(strays, name => DoesNotBelong(name));
    CoversIsLists(extra, strays, name => DoesNotBelong(name), pkgs, group, 4);
  }

  method VersionFindings(pkgs: Packages, group: seq<string>) returns (other: seq<Finding>, behind: seq<Finding>)
    ensures Lists(other, pkgs, group, 5) && Lists(behind, pkgs, group, 6)
  {
    hide Required, Members;
    AllMembers(group);
    var members := Members(group);
    var others: set<string>, behinds: set<string> := {}, {};
    if ANCHOR in pkgs {
      var anchor := pkgs[ANCHOR].version;
      others := set name | name in members && name in pkgs && pkgs[name].version != anchor;
      if PreRelease(anchor) {
        behinds := set name | name in pkgs && name !in members && pkgs[name].version != anchor;
      }
    }
    other := ForEach(others, name => OtherVersion(name));
    CoversIsLists(other, others, name => OtherVersion(name), pkgs, group, 5);
    behind := ForEach(behinds, name => NotAtPreRelease(name));
    CoversIsLists(behind, behinds, name => NotAtPreRelease(name), pkgs, group, 6);
  }

  /** So there is no finding exactly when the group is the core, each once, with its anchor and the versions in step. */
  lemma NoFindingExactlyWhen(pkgs: Packages, group: seq<string>)
    ensures (forall f :: !Holds(pkgs, group, f)) <==>
              && ListedOnce(group) && "ulo" in group && VersionRule(pkgs, Members(group))
              && forall name :: name in group <==> Required(pkgs, name)
  {
    hide Required, Members, VersionRule, ListedOnce, Holds;
    OnceIs(pkgs, group);
    CoreIs(pkgs, group);
    VersionsAre(pkgs, group);
    assert Holds(pkgs, group, NoAnchor) <==> "ulo" !in group by { AnchorIs(pkgs, group); }
    if forall f :: !Holds(pkgs, group, f) {
      assert !Holds(pkgs, group, NoAnchor);
    }
    if ListedOnce(group) && "ulo" in group && VersionRule(pkgs, Members(group)) &&
      forall name :: name in group <==> Required(pkgs, name)
    {
      forall f
        ensures !Holds(pkgs, group, f)
      {
        match f
        case ListedTwice(name) =>
        case NoAnchor =>
        case NoMember(name) =>
        case Lacks(name) =>
        case DoesNotBelong(name) =>
        case OtherVersion(name) =>
        case NotAtPreRelease(name) =>
      }
    }
  }

  lemma AnchorIs(pkgs: Packages, group: seq<string>)
    ensures Holds(pkgs, group, NoAnchor) <==> "ulo" !in group
  {
  }

  lemma OnceIs(pkgs: Packages, group: seq<string>)
    ensures ListedOnce(group) <==> forall name :: !Holds(pkgs, group, ListedTwice(name))
  {
    if i, j :| 0 <= i < j < |group| && group[i] == group[j] {
      assert Holds(pkgs, group, ListedTwice(group[i]));
    }
  }

  lemma CoreIs(pkgs: Packages, group: seq<string>)
    ensures (forall name :: name in group <==> Required(pkgs, name)) <==>
            && (forall name :: !Holds(pkgs, group, NoMember(name)))
            && (forall name :: !Holds(pkgs, group, Lacks(name)))
            && (forall name :: !Holds(pkgs, group, DoesNotBelong(name)))
  {
    hide Required;
    RequiredIsPackage(pkgs);
    if (forall name :: !Holds(pkgs, group, NoMember(name))) && (forall name :: !Holds(pkgs, group, Lacks(name))) &&
      (forall name :: !Holds(pkgs, group, DoesNotBelong(name)))
    {
      forall name
        ensures name in group <==> Required(pkgs, name)
      {
        assert !Holds(pkgs, group, NoMember(name)) && !Holds(pkgs, group, Lacks(name));
        assert !Holds(pkgs, group, DoesNotBelong(name));
      }
    }
  }

  lemma VersionsAre(pkgs: Packages, group: seq<string>)
    ensures VersionRule(pkgs, Members(group)) <==>
            && (forall name :: !Holds(pkgs, group, OtherVersion(name)))
            && (forall name :: !Holds(pkgs, group, NotAtPreRelease(name)))
  {
    hide Members, PreRelease;
    AllMembers(group);
    if (forall name :: !Holds(pkgs, group, OtherVersion(name))) &&
      (forall name :: !Holds(pkgs, group, NotAtPreRelease(name))) && ANCHOR in pkgs
    {
      forall name | name in Members(group) && name in pkgs
        ensures pkgs[name].version == pkgs[ANCHOR].version
      {
        assert !Holds(pkgs, group, OtherVersion(name));
      }
      forall name | name in pkgs && name !in Members(group) && PreRelease(pkgs[ANCHOR].version)
        ensures pkgs[name].version == pkgs[ANCHOR].version
      {
        assert !Holds(pkgs, group, NotAtPreRelease(name));
      }
    }
  }

  lemma RequiredIsPackage(pkgs: Packages)
    ensures forall name | Required(pkgs, name) :: name in pkgs
  {
    forall name | Required(pkgs, name)
      ensures name in pkgs
    {
      var path :| Chain(pkgs, path, name);
    }
  }
}
