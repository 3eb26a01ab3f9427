/** The algebra of walk events: what they report, what they supply, and where. */
module Events {
  import opened Trees
  import opened Schemas
  import opened Reader
  import opened Walks

  lemma {:induction false} FoundsAppend(a: seq<Event>, b: seq<Event>)
    ensures Founds(a + b) == Founds(a) + Founds(b)
  {
    if a == [] {
      assert a + b == b;
    } else {
      assert (a + b)[1..] == a[1..] + b;
      FoundsAppend(a[1..], b);
      assert FoundOf(a[0]) + (Founds(a[1..]) + Founds(b)) == FoundOf(a[0]) + Founds(a[1..]) + Founds(b);
    }
  }

  lemma {:induction false} FillsAppend(a: seq<Event>, b: seq<Event>)
    ensures Fills(a + b) == Fills(a) + Fills(b)
  {
    if a == [] {
      assert a + b == b;
    } else {
      assert (a + b)[1..] == a[1..] + b;
      FillsAppend(a[1..], b);
      assert FillOf(a[0]) + (Fills(a[1..]) + Fills(b)) == FillOf(a[0]) + Fills(a[1..]) + Fills(b);
    }
  }

  lemma {:induction false} ReportsAppend(a: seq<Event>, b: seq<Event>)
    ensures Reports(a + b) == Reports(a) + Reports(b)
  {
    if a == [] {
      assert a + b == b;
    } else {
      assert (a + b)[1..] == a[1..] + b;
      ReportsAppend(a[1..], b);
      assert ReportOf(a[0]) + (Reports(a[1..]) + Reports(b)) == ReportOf(a[0]) + Reports(a[1..]) + Reports(b);
    }
  }

  lemma {:induction false} AllFoundParts(problems: seq<Problem>)
    ensures Founds(AllFound(problems)) == problems
    ensures Fills(AllFound(problems)) == []
    ensures Reports(AllFound(problems)) == problems
  {
    if problems != [] {
      assert AllFound(problems)[1..] == AllFound(problems[1..]);
      AllFoundParts(problems[1..]);
    } else {
      assert AllFound(problems) == [];
    }
  }

  lemma NoEvents()
    ensures Founds([]) == [] && Fills([]) == [] && Reports([]) == []
  {
  }

  lemma BeforeBefore<T>(a: seq<Event>, b: seq<Event>, tr: Trace<T>)
    ensures Before(a, Before(b, tr)) == Before(a + b, tr)
  {
    hide Founds;
    FoundsAppend(a, b);
    assert a + (b + tr.events) == a + b + tr.events;
  }

  lemma BeforeNothing<T>(tr: Trace<T>)
    ensures Before([], tr) == tr
  {
    assert [] + tr.events == tr.events;
  }

  // ---- Patches by table ----

  function PatchesOf(fills: seq<NewPatch>): (r: seq<Patch>)
    ensures |r| == |fills|
    ensures forall i | 0 <= i < |r| :: r[i] == fills[i].patch
  {
    seq(|fills|, i requires 0 <= i < |fills| => fills[i].patch)
  }

  /** The fields patched in the table at `path`, in order. */
  function Own(patches: seq<Patch>, path: string): seq<string> {
    if patches == [] then []
    else (if patches[0].parent == path then [patches[0].field] else []) + Own(patches[1..], path)
  }

  lemma {:induction false} OwnAppend(a: seq<Patch>, b: seq<Patch>, path: string)
    ensures Own(a + b, path) == Own(a, path) + Own(b, path)
  {
    if a == [] {
      assert a + b == b;
    } else {
      assert (a + b)[1..] == a[1..] + b;
      OwnAppend(a[1..], b, path);
    }
  }

  lemma {:induction false} OwnNone(patches: seq<Patch>, path: string)
    requires forall i | 0 <= i < |patches| :: patches[i].parent != path
    ensures Own(patches, path) == []
  {
    if patches != [] {
      OwnNone(patches[1..], path);
    }
  }

  lemma {:induction false} OwnMember(patches: seq<Patch>, patch: Patch)
    ensures patch in patches <==> patch.field in Own(patches, patch.parent)
  {
    if patches != [] {
      OwnMember(patches[1..], patch);
      assert patches == [patches[0]] + patches[1..];
    }
  }

  /** With no patched field among the entries, the placeholders are the patched fields. */
  lemma {:induction false} ExtrasAreOwn(patches: seq<Patch>, path: string, entries: seq<Entry>)
    requires forall i | 0 <= i < |Own(patches, path)| :: !HasKey(entries, Own(patches, path)[i])
    ensures Extras(patches, path, entries) == Own(patches, path)
  {
    if patches != [] {
      var rest := Own(patches[1..], path);
      assert forall i | 0 <= i < |rest| :: rest[i] in Own(patches, path);
      ExtrasAreOwn(patches[1..], path, entries);
      assert patches[0].parent == path ==> Own(patches, path)[0] == patches[0].field;
    }
  }

  lemma PatchesSplit(a: seq<NewPatch>, b: seq<NewPatch>, m: nat, path: string)
    requires m <= |a| + |b|
    ensures m <= |a| ==> Own(PatchesOf((a + b)[..m]), path) == Own(PatchesOf(a[..m]), path)
    ensures m >= |a| ==>
              Own(PatchesOf((a + b)[..m]), path) == Own(PatchesOf(a), path) + Own(PatchesOf(b[..m - |a|]), path)
  {
    if m <= |a| {
      assert (a + b)[..m] == a[..m];
    }
    if m >= |a| {
      assert PatchesOf((a + b)[..m]) == PatchesOf(a) + PatchesOf(b[..m - |a|]);
      OwnAppend(PatchesOf(a), PatchesOf(b[..m - |a|]), path);
    }
  }

  // ---- Which tables the fills of a walk are at ----

  predicate AllAt(fills: seq<NewPatch>, places: seq<string>) {
    forall i | 0 <= i < |fills| :: fills[i].patch.parent in places
  }

  predicate NoneAt(fills: seq<NewPatch>, places: seq<string>) {
    forall i | 0 <= i < |fills| :: fills[i].patch.parent !in places
  }

  lemma OwnElsewhere(fills: seq<NewPatch>, places: seq<string>, path: string)
    requires AllAt(fills, places) && path !in places
    ensures Own(PatchesOf(fills), path) == []
  {
    OwnNone(PatchesOf(fills), path);
  }
}
