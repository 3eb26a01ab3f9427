/** One pass as the deserializer runs it. */
module Deserializers {
  // It pushes into the lists of the pass's context, and walks arrays and tables by cursors. Each method does
  // what `Reader` says of it.

  import opened Options
  import opened Trees
  import opened Schemas
  import R = Reader

  /** The state of one pass: its plan, and its findings so far. */
  class Ctx {
    const patches: seq<R.Patch>
    const root: string
    const skipped: set<string>
    var problems: seq<Problem>
    var consumed: set<string>
    var newPatch: Option<R.NewPatch>
    var failed: Option<R.Failed>

    constructor (patches: seq<R.Patch>, root: string, skipped: set<string>)
      ensures Given() == R.Plan(patches, root, skipped)
      ensures Learnt() == R.NOTHING
    {
      this.patches, this.root, this.skipped := patches, root, skipped;
      problems, consumed, newPatch, failed := [], {}, None, None;
    }

    function Given(): R.Plan {
      R.Plan(patches, root, skipped)
    }

    function Learnt(): R.Log
      reads this
    {
      R.Log(problems, consumed, newPatch, failed)
    }

    /** What stands here if it is no array and no table; its path counts as read from now on. */
    method Leaf(t: Target, path: string) returns (leaf: Option<Trees.Value>)
      modifies this
      ensures Learnt() == R.Consumed(t, path, old(Learnt()))
      ensures leaf == if t.At? && IsScalar(t.node) then Some(t.node.value) else None
    {
      leaf := None;
      if t.At? && IsScalar(t.node) {
        consumed := consumed + {path};
        leaf := Some(t.node.value);
      }
    }

    method Note(t: Target, path: string, message: Message)
      modifies this`problems
      ensures Learnt() == R.Record(old(Learnt()), [Problem(path, OriginOf(t), message)])
    {
      problems := problems + [Problem(path, OriginOf(t), message)];
    }

    /** Lists the mismatch between what stands here and `what`. */
    method Expect(t: Target, path: string, what: string)
      modifies this`problems
      ensures Learnt() == R.Record(old(Learnt()), Mismatch(t, path, what))
    {
      match t {
        case At(node) => Note(t, path, Expected(what, Kind(node.value)));
        case Absent(false, _) => Note(t, path, MissingValue);
        case Absent(true, _) => assert problems + [] == problems;
      }
    }

    /** An error on its way up is listed at the first node that sees it, unless it is listed or silenced already. */
    method Finish(t: Target, path: string, r: R.Result<Decoded>) returns (out: R.Result<Decoded>)
      modifies this`problems
      ensures (Learnt(), out) == R.RecordError(t, path, r, old(Learnt()))
    {
      out := r;
      if r.Err? {
        if !r.error.recorded && !Silent(t) {
          Note(t, path, Refused);
        }
        out := R.Err(R.Silenced(r.error));
      }
    }

    method Scalar(s: Schema, t: Target, path: string) returns (r: R.Result<Decoded>)
      requires IsScalarSchema(s)
      modifies this
      ensures (Learnt(), r) == R.Read(Given(), s, t, path, old(Learnt()))
    {
      var leaf := Leaf(t, path);
      var probe := if leaf.Some? then ProbeOf(s, leaf.value) else WrongKind;
      assert t.At? && leaf.None? ==> ProbeOf(s, t.node.value).WrongKind?;
      match probe {
        case Good(v) =>
          assert problems + [] == problems;
          return R.Ok(v);
        case WrongKind => Expect(t, path, WhatOf(s));
        case OverRange => Note(t, path, OutOfRange(s.width));
        case Refuses =>
          Note(t, path, Message.Refused);
          return R.Err(R.Silenced(R.REFUSAL));
      }
      var placeholder := Placeholder(s);
      r := if placeholder.Some? then R.Ok(placeholder.value) else R.Err(R.Silenced(R.REFUSAL));
    }

    method Sequence(s: Schema, t: Target, path: string) returns (r: R.Result<Decoded>)
      requires s.SSeq? || (s.SAny? && t.At? && t.node.value.Array?)
      modifies this
      ensures (Learnt(), r) == R.ReadSeq(Given(), s, t, path, old(Learnt()))
      decreases s, R.Held(t), 1, 0
    {
      hide R.Read;
      if t.At? && t.node.value.Array? {
        var items := t.node.value.items;
        var got: seq<Decoded> := [];
        var result: R.Result<Decoded> := R.Ok(DSeq([]));
        var index := 0;
        while index < |items| && result.Ok?
          invariant index <= |items|
          invariant result.Ok? ==> result == R.Ok(DSeq(got))
          invariant result.Ok? ==>
            R.ReadItems(Given(), s, t, path, 0, [], old(Learnt())) ==
              R.ReadItems(Given(), s, t, path, index, got, Learnt())
          invariant result.Err? ==> R.ReadItems(Given(), s, t, path, 0, [], old(Learnt())) == (Learnt(), result)
          decreases |items| - index, result.Ok?
        {
          var element := Deserialize(R.ElementOf(s), At(items[index]), Trees.JoinIndex(path, index));
          index := index + 1;
          if element.Ok? {
            got := got + [element.value];
            result := R.Ok(DSeq(got));
          } else {
            result := element;
          }
        }
        r := Finish(t, path, result);
      } else {
        Expect(t, path, "an array");
        r := R.Ok(DSeq([]));
      }
    }

    /** A table, driven as the type's visitor drives it: keys in order, then the fields not met. */
    method Table(s: Schema, t: Target, path: string) returns (r: R.Result<Decoded>)
      requires IsTable(s) && (s.SAny? ==> t.At? && t.node.value.Table?)
      modifies this
      ensures (Learnt(), r) == R.ReadTable(Given(), s, t, path, old(Learnt()))
      decreases s, R.Held(t), 4, 0
    {
      hide R.Read, R.ReadTable, Visited, R.NextValue, R.Extras, R.TableResult, R.Closed, NextKept;
      if t.At? && !t.node.value.Table? {
        Expect(t, path, "a table");
      }
      assert Learnt() == R.Record(old(Learnt()), R.NotATable(t, path)) by { assert problems + [] == problems; }
      ghost var start := Learnt();
      var extras := R.Extras(patches, path, EntriesOf(t));
      var access := new TableAcc(this, path, EntriesOf(t), extras, OriginOf(t));
      var got: map<string, Decoded> := map[];
      var result: Option<R.Result<Decoded>> := None;
      while result.None?
        invariant access.at <= |EntriesOf(t)| && access.next <= |extras| &&
                  (access.at < |EntriesOf(t)| ==> access.next == 0)
        invariant result.None? ==>
          Visited(Given(), s, t, path, extras, 0, 0, map[], start) ==
            Visited(Given(), s, t, path, extras, access.at, access.next, got, Learnt())
        invariant result.Some? ==> Visited(Given(), s, t, path, extras, 0, 0, map[], start) == (Learnt(), result.value)
        decreases result.None?, |EntriesOf(t)| - access.at + |extras| - access.next
      {
        ghost var i, e := access.at, access.next;
        VisitedUnfolds(Given(), s, t, path, extras, i, e, got, Learnt());
        var key := access.NextKey();
        if key.None? {
          result := Some(R.Closed(s, got));
        } else if !Reads(s, key.value) {
          access.Ignore();
        } else if R.Taken(s, key.value, got) {
          result := Some(R.Err(R.REFUSAL));
        } else if s.SAny? && access.pending.value.target.Absent? {
          // A placeholder read for no type: nothing to report, and a unit for its value.
          access.Ignore();
          got := got[key.value := DRaw(Null)];
        } else {
          var value := access.NextValue(Under(s, key.value));
          if value.Err? {
            result := Some(value);
          } else {
            got := got[key.value := value.value];
          }
        }
      }
      TableIsVisited(Given(), s, t, path, old(Learnt()));
      r := TableEnds(t, path, result.value);
    }

    /** How the read of a table ends, given what its visitor returned. */
    method TableEnds(t: Target, path: string, result: R.Result<Decoded>) returns (r: R.Result<Decoded>)
      modifies this
      ensures (Learnt(), r) == R.TableResult(Given(), t, path, result, old(Learnt()))
    {
      if result.Err? && result.error.kind.Missing? && !result.error.recorded {
        var field := result.error.kind.field;
        if !(path == root && JoinKey(path, field) in skipped) {
          newPatch := Some(R.NewPatch(R.Patch(path, field), R.MissingProblem(t, path, field)));
        }
        r := R.Err(R.Silenced(result.error));
      } else {
        r := Finish(t, path, result);
      }
    }

    /** Deserialises the node as a type does: by the method its `Deserialize` calls. */
    method Deserialize(s: Schema, t: Target, path: string) returns (r: R.Result<Decoded>)
      modifies this
      ensures (Learnt(), r) == R.Read(Given(), s, t, path, old(Learnt()))
      decreases s, R.Held(t), 5, 0
    {
      hide R.ReadTable, R.ReadSeq;
      match s {
        case SOption(inner) =>
          if t.Absent? {
            return R.Ok(DNone);
          }
          if t.node.value.Null? {
            var leaf := Leaf(t, path);
            return R.Ok(DNone);
          }
          r := Deserialize(inner, t, path);
          if r.Ok? {
            r := R.Ok(DSome(r.value));
          }
          r := Finish(t, path, r);
        case SMapped(inner, takes) =>
          r := Deserialize(inner, t, path);
          if r.Ok? && !takes(r.value) {
            r := R.Err(R.REFUSAL);
          }
        case SSeq(_) => r := Sequence(s, t, path);
        case SAny =>
          if t.Absent? {
            Expect(t, path, "a value");
            r := R.Ok(DRaw(Null));
          } else if t.node.value.Array? {
            r := Sequence(s, t, path);
          } else if t.node.value.Table? {
            r := Table(s, t, path);
          } else {
            var leaf := Leaf(t, path);
            r := R.Ok(DRaw(t.node.value));
          }
        case SMap(_) => r := Table(s, t, path);
        case SStruct(_) => r := Table(s, t, path);
        case _ => r := Scalar(s, t, path);
      }
    }
  }

  /** The key handed out last, and what stands under it. */
  datatype Pending = Pending(path: string, target: Target)

  /** The place of the first entry at or after `i` that is not set aside. */
  function NextKept(cx: R.Plan, base: string, entries: seq<Entry>, i: nat): (j: nat)
    requires i <= |entries|
    ensures i <= j <= |entries|
    ensures j < |entries| ==> !R.SetAside(cx, base, entries[j].key)
    ensures forall k | i <= k < j :: R.SetAside(cx, base, entries[k].key)
    decreases |entries| - i
  {
    if i == |entries| || !R.SetAside(cx, base, entries[i].key) then i else NextKept(cx, base, entries, i + 1)
  }

  /** The keys a table is read by, one after another: its entries first, then its placeholders. */
  class TableAcc {
    const ctx: Ctx
    const base: string
    const entries: seq<Entry>
    const extras: seq<string>
    const origin: Option<Origin>
    var at: nat
    var next: nat
    var pending: Option<Pending>

    constructor (ctx: Ctx, base: string, entries: seq<Entry>, extras: seq<string>, origin: Option<Origin>)
      ensures this.ctx == ctx && this.base == base && this.entries == entries && this.extras == extras &&
              this.origin == origin
      ensures at == 0 && next == 0 && pending.None?
    {
      this.ctx, this.base, this.entries, this.extras, this.origin := ctx, base, entries, extras, origin;
      at, next, pending := 0, 0, None;
    }

    method NextKey() returns (key: Option<string>)
      requires at <= |entries| && next <= |extras|
      modifies this
      ensures var i := NextKept(ctx.Given(), base, entries, old(at));
              if i < |entries| then
                && key == Some(entries[i].key) && at == i + 1 && next == old(next)
                && pending == Some(Pending(JoinKey(base, entries[i].key), At(entries[i].node)))
              else if old(next) < |extras| then
                && key == Some(extras[old(next)]) && at == i && next == old(next) + 1
                && pending == Some(Pending(JoinKey(base, extras[old(next)]), Absent(true, origin)))
              else
                key.None? && at == i && next == old(next)
    {
      while at < |entries|
        invariant old(at) <= at <= |entries|
        invariant NextKept(ctx.Given(), base, entries, old(at)) == NextKept(ctx.Given(), base, entries, at)
        invariant next == old(next)
      {
        var entry := entries[at];
        at := at + 1;
        var path := JoinKey(base, entry.key);
        if base == ctx.root && path in ctx.skipped {
          continue;
        }
        pending := Some(Pending(path, At(entry.node)));
        return Some(entry.key);
      }
      if next < |extras| {
        pending := Some(Pending(JoinKey(base, extras[next]), Absent(true, origin)));
        next := next + 1;
        return Some(extras[next - 1]);
      }
      key := None;
    }

    /** A value nothing reads: it is not consumed. */
    method Ignore()
      modifies this`pending
      ensures pending.None?
    {
      pending := None;
    }

    /** The value under the key handed out last, its failure noted when the table is the root. */
    method NextValue(s: Schema) returns (r: R.Result<Decoded>)
      modifies this`pending, ctx
      ensures pending.None?
      ensures old(pending).None? ==> ctx.Learnt() == old(ctx.Learnt()) && r.Err? && r.error.recorded
      ensures old(pending).Some? ==>
                var p := old(pending).value;
                (ctx.Learnt(), r) == R.NextValue(ctx.Given(), s, p.target, base, p.path, old(ctx.Learnt()))
      decreases s, if pending.Some? then R.Held(pending.value.target) else Node(Null, Default), 6, 0
    {
      hide R.Read;
      if pending.None? {
        return R.Err(R.Silenced(R.REFUSAL));
      }
      var p := pending.value;
      pending := None;
      var start := |ctx.problems|;
      r := ctx.Deserialize(s, p.target, p.path);
      r := ctx.Finish(p.target, p.path, r);
      if r.Err? && base == ctx.root && ctx.newPatch.None? && p.path !in ctx.skipped {
        ctx.failed := Some(R.Failed(p.path, start));
      }
    }
  }

  /** What the visitor makes of the table from entry `i` and placeholder `e` on. */
  function Visited(cx: R.Plan, s: Schema, t: Target, path: string, extras: seq<string>, i: nat, e: nat,
      got: map<string, Decoded>, log: R.Log)
    : (R.Log, R.Result<Decoded>)
    requires IsTable(s) && i <= |EntriesOf(t)| && e <= |extras| && (s.SAny? ==> t.At? && t.node.value.Table?)
  {
    var (log2, r2) := R.ReadEntries(cx, s, t, path, i, got, log);
    if r2.Err? then (log2, R.Err(r2.error))
    else
      var (log3, r3) := R.ReadExtras(cx, s, t, path, extras, e, r2.value, log2);
      (log3, if r3.Err? then R.Err(r3.error) else R.Closed(s, r3.value))
  }

  lemma TableIsVisited(cx: R.Plan, s: Schema, t: Target, path: string, log: R.Log)
    requires IsTable(s) && (s.SAny? ==> t.At? && t.node.value.Table?)
    ensures var (after, r) :=
              Visited(cx, s, t, path, R.Extras(cx.patches, path, EntriesOf(t)), 0, 0, map[],
                R.Record(log, R.NotATable(t, path)));
            R.ReadTable(cx, s, t, path, log) == R.TableResult(cx, t, path, r, after)
  {
    hide R.ReadEntries, R.ReadExtras, R.Extras, R.TableResult, R.Closed;
  }

  lemma {:induction false} EntriesFromKept(cx: R.Plan, s: Schema, t: Target, path: string, i: nat,
      got: map<string, Decoded>, log: R.Log)
    requires IsTable(s) && i <= |EntriesOf(t)|
    ensures R.ReadEntries(cx, s, t, path, i, got, log) ==
            R.ReadEntries(cx, s, t, path, NextKept(cx, path, EntriesOf(t), i), got, log)
    decreases |EntriesOf(t)| - i
  {
    hide R.NextValue;
    if i < |EntriesOf(t)| && R.SetAside(cx, path, EntriesOf(t)[i].key) {
      EntriesFromKept(cx, s, t, path, i + 1, got, log);
    }
  }

  /** One turn of the visitor's loop. */
  lemma VisitedUnfolds(cx: R.Plan, s: Schema, t: Target, path: string, extras: seq<string>, i: nat, e: nat,
      got: map<string, Decoded>, log: R.Log)
    requires IsTable(s) && i <= |EntriesOf(t)| && e <= |extras| && (i < |EntriesOf(t)| ==> e == 0) &&
             (s.SAny? ==> t.At? && t.node.value.Table?)
    ensures var here := Visited(cx, s, t, path, extras, i, e, got, log);
            var entries := EntriesOf(t);
            var j := NextKept(cx, path, entries, i);
            if j < |entries| then
              var key := entries[j].key;
              if !Reads(s, key) then here == Visited(cx, s, t, path, extras, j + 1, e, got, log)
              else if R.Taken(s, key, got) then here == (log, R.Err(R.REFUSAL))
              else
                var (log1, r) := R.NextValue(cx, Under(s, key), At(entries[j].node), path, JoinKey(path, key), log);
                here == if r.Err? then (log1, R.Err(r.error))
                else Visited(cx, s, t, path, extras, j + 1, e, got[key := r.value], log1)
            else if e < |extras| then
              var key := extras[e];
              if !Reads(s, key) then here == Visited(cx, s, t, path, extras, j, e + 1, got, log)
              else if R.Taken(s, key, got) then here == (log, R.Err(R.REFUSAL))
              else if s.SAny? then here == Visited(cx, s, t, path, extras, j, e + 1, got[key := DRaw(Null)], log)
              else
                var (log1, r) := R.NextValue(cx, Under(s, key), Absent(true, OriginOf(t)), path,
                  JoinKey(path, key), log);
                here == if r.Err? then (log1, R.Err(r.error))
                else Visited(cx, s, t, path, extras, j, e + 1, got[key := r.value], log1)
            else
              here == (log, R.Closed(s, got))
  {
    hide R.NextValue, R.Closed;
    EntriesFromKept(cx, s, t, path, i, got, log);
  }
}
