/** A counting semaphore over a condition variable. */
module Slots {
  import opened Options

  /** The smaller of the suite's bound and the host's, when either bounds it. */
  function BoundOf(declared: Option<nat>, host: Option<nat>): (bound: Option<nat>)
    ensures bound.None? <==> declared.None? && host.None?
    ensures declared.Some? && bound.Some? ==> bound.value <= declared.value
    ensures host.Some? && bound.Some? ==> bound.value <= host.value
    ensures bound.Some? ==> bound == declared || bound == host
  {
    if declared.Some? && host.Some? then Some(if declared.value < host.value then declared.value else host.value)
    else if declared.Some? then declared
    else host
  }

  /** One look at the count under the lock: a slot is taken, or there is none. */
  function Looked(held: nat, bound: nat): (nat, bool) {
    if held < bound then (held + 1, true) else (held, false)
  }

  /** The count once a guard is dropped; a count of nothing has no guard to drop. */
  function GivenBack(held: nat): nat {
    if held > 0 then held - 1 else 0
  }

  // ---- The threads ----

  datatype Phase =
    | Outside
    | Entering      // about to look at the count
    | Waiting       // asleep in the condition variable
    | Notified      // woken, about to look again
    | Holding
    | Releasing     // the count is given back, the wake-up not sent yet

  datatype World = World(held: nat, threads: seq<Phase>)

  datatype Step =
    | Enter(t: nat)
    | Look(t: nat)
    | Drop(t: nat)
    | Notify(t: nat, woken: nat)     // wakes one waiting thread, if there is one
    | Wake(t: nat)                   // a wake-up nobody sent

  predicate Enabled(w: World, step: Step) {
    step.t < |w.threads| &&
    match step
    case Enter(t) => w.threads[t].Outside?
    case Look(t) => w.threads[t].Entering? || w.threads[t].Notified?
    case Drop(t) => w.threads[t].Holding?
    case Notify(t, woken) =>
      w.threads[t].Releasing? && (Count(w.threads, Waiting) > 0 ==> woken < |w.threads| && w.threads[woken].Waiting?)
    case Wake(t) => w.threads[t].Waiting?
  }

  function Apply(w: World, bound: nat, step: Step): World
    requires Enabled(w, step)
  {
    match step
    case Enter(t) => w.(threads := w.threads[t := Entering])
    case Look(t) =>
      var (held, taken) := Looked(w.held, bound);
      World(held, w.threads[t := if taken then Holding else Waiting])
    case Drop(t) => World(GivenBack(w.held), w.threads[t := Releasing])
    case Notify(t, woken) =>
      if Count(w.threads, Waiting) > 0 then w.(threads := w.threads[t := Outside][woken := Notified])
      else w.(threads := w.threads[t := Outside])
    case Wake(t) => w.(threads := w.threads[t := Notified])
  }

  ghost predicate IsRun(w: World, bound: nat, steps: seq<Step>)
    decreases |steps|
  {
    steps == [] || (Enabled(w, steps[0]) && IsRun(Apply(w, bound, steps[0]), bound, steps[1..]))
  }

  function After(w: World, bound: nat, steps: seq<Step>): World
    requires IsRun(w, bound, steps)
    decreases |steps|
  {
    if steps == [] then w else After(Apply(w, bound, steps[0]), bound, steps[1..])
  }

  function Count(threads: seq<Phase>, p: Phase): nat {
    if threads == [] then 0 else (if threads[0] == p then 1 else 0) + Count(threads[1..], p)
  }

  lemma {:induction false} CountUpdate(threads: seq<Phase>, t: nat, p: Phase, q: Phase)
    requires t < |threads|
    ensures Count(threads[t := p], q) + (if threads[t] == q then 1 else 0) ==
              Count(threads, q) + if p == q then 1 else 0
  {
    if t == 0 {
      assert threads[t := p][1..] == threads[1..];
    } else {
      assert threads[t := p][1..] == threads[1..][t - 1 := p];
      CountUpdate(threads[1..], t - 1, p, q);
    }
  }

  lemma {:induction false} CountAt(threads: seq<Phase>, t: nat)
    requires t < |threads|
    ensures Count(threads, threads[t]) > 0
  {
    if t > 0 {
      CountAt(threads[1..], t - 1);
    }
  }

  lemma {:induction false} SomeIn(threads: seq<Phase>, p: Phase) returns (t: nat)
    requires Count(threads, p) > 0
    ensures t < |threads| && threads[t] == p
  {
    if threads[0] == p {
      t := 0;
    } else {
      t := SomeIn(threads[1..], p);
      t := t + 1;
    }
  }

  // ---- What every run keeps ----

  /** The count is the live guards, and never above the bound. */
  predicate Counted(w: World, bound: nat) {
    w.held == Count(w.threads, Holding) <= bound
  }

  /** While a thread waits, the slots held, the threads woken and the wake-ups to be sent make up the bound. */
  predicate NoneLost(w: World, bound: nat) {
    Count(w.threads, Waiting) > 0 ==> w.held + Count(w.threads, Notified) + Count(w.threads, Releasing) >= bound
  }

  lemma StepKeeps(w: World, bound: nat, step: Step)
    requires Counted(w, bound) && NoneLost(w, bound) && Enabled(w, step)
    ensures Counted(Apply(w, bound, step), bound) && NoneLost(Apply(w, bound, step), bound)
  {
    hide Count;
    var t, next := step.t, Apply(w, bound, step);
    if step.Notify? && Count(w.threads, Waiting) > 0 {
      Updated(w.threads, t, Outside);
      Updated(w.threads[t := Outside], step.woken, Notified);
    } else {
      Updated(w.threads, t, next.threads[t]);
      CountAt(w.threads, t);
    }
  }

  lemma Updated(threads: seq<Phase>, t: nat, p: Phase)
    requires t < |threads|
    ensures forall q | q in {Holding, Waiting, Notified, Releasing} ::
              Count(threads[t := p], q) + (if threads[t] == q then 1 else 0) ==
                Count(threads, q) + if p == q then 1 else 0
  {
    forall q | q in {Holding, Waiting, Notified, Releasing}
      ensures Count(threads[t := p], q) + (if threads[t] == q then 1 else 0) ==
                Count(threads, q) + if p == q then 1 else 0
    {
      CountUpdate(threads, t, p, q);
    }
  }

  lemma {:induction false} RunKeeps(w: World, bound: nat, steps: seq<Step>)
    requires Counted(w, bound) && NoneLost(w, bound) && IsRun(w, bound, steps)
    ensures Counted(After(w, bound, steps), bound) && NoneLost(After(w, bound, steps), bound)
    decreases |steps|
  {
    hide Counted, NoneLost, Enabled, Apply;
    if steps != [] {
      StepKeeps(w, bound, steps[0]);
      RunKeeps(Apply(w, bound, steps[0]), bound, steps[1..]);
    }
  }

  predicate AtFirst(w: World) {
    w.held == 0 && forall t | 0 <= t < |w.threads| :: w.threads[t].Outside?
  }

  lemma {:induction false} NoneAtFirst(threads: seq<Phase>, p: Phase)
    requires p != Outside && forall t | 0 <= t < |threads| :: threads[t].Outside?
    ensures Count(threads, p) == 0
  {
    if threads != [] {
      NoneAtFirst(threads[1..], p);
    }
  }

  /** Over every run of any number of threads with one bound: the count is the live guards, at most the bound. */
  lemma HeldIsTheGuards(w: World, bound: nat, steps: seq<Step>)
    requires AtFirst(w) && IsRun(w, bound, steps)
    ensures Counted(After(w, bound, steps), bound) && NoneLost(After(w, bound, steps), bound)
  {
    hide Count, IsRun;
    NoneAtFirst(w.threads, Holding);
    NoneAtFirst(w.threads, Waiting);
    RunKeeps(w, bound, steps);
  }

  /** No wake-up is lost: with a slot free and a thread waiting, another is woken or about to wake one. */
  lemma NoWakeUpIsLost(w: World, bound: nat, steps: seq<Step>)
    requires AtFirst(w) && IsRun(w, bound, steps)
    ensures var end := After(w, bound, steps);
            Count(end.threads, Waiting) > 0 && end.held < bound ==>
              Count(end.threads, Notified) + Count(end.threads, Releasing) > 0
  {
    HeldIsTheGuards(w, bound, steps);
  }

  /** A thread that looks gets a slot exactly when fewer guards than the bound are alive, and else sleeps. */
  lemma GrantedExactlyWhen(w: World, bound: nat, steps: seq<Step>, t: nat)
    requires AtFirst(w) && IsRun(w, bound, steps) && Enabled(After(w, bound, steps), Look(t))
    ensures var end := After(w, bound, steps);
            Apply(end, bound, Look(t)).threads ==
              end.threads[t := if Count(end.threads, Holding) < bound then Holding else Waiting]
  {
    hide IsRun, Count;
    HeldIsTheGuards(w, bound, steps);
  }

  /** So no state is stuck: while a thread is inside, some thread can go on, without a wake-up nobody sent. */
  lemma NeverStuck(w: World, bound: nat, steps: seq<Step>, t: nat) returns (step: Step)
    requires AtFirst(w) && IsRun(w, bound, steps) && bound > 0
    requires t < |After(w, bound, steps).threads| && !After(w, bound, steps).threads[t].Outside?
    ensures Enabled(After(w, bound, steps), step) && !step.Enter? && !step.Wake?
  {
    hide IsRun, Count;
    HeldIsTheGuards(w, bound, steps);
    var end := After(w, bound, steps);
    var u := t;
    if end.threads[t].Waiting? {
      CountAt(end.threads, t);
      if Count(end.threads, Notified) > 0 {
        u := SomeIn(end.threads, Notified);
      } else if Count(end.threads, Releasing) > 0 {
        u := SomeIn(end.threads, Releasing);
      } else {
        u := SomeIn(end.threads, Holding);
      }
    }
    if end.threads[u].Holding? {
      step := Drop(u);
    } else if end.threads[u].Releasing? {
      var woken: nat := 0;
      if Count(end.threads, Waiting) > 0 {
        woken := SomeIn(end.threads, Waiting);
      }
      step := Notify(u, woken);
    } else {
      step := Look(u);
    }
  }

  // ---- The count in memory ----

  class Counter {
    var held: nat

    constructor ()
      ensures held == 0
    {
      held := 0;
    }

    method Look(bound: nat) returns (taken: bool)
      modifies this
      ensures (held, taken) == Looked(old(held), bound)
    {
      taken := held < bound;
      if taken {
        held := held + 1;
      }
    }

    method GiveBack()
      requires held > 0
      modifies this
      ensures held == GivenBack(old(held))
    {
      held := held - 1;
    }

    /**
     * The count taken through every look and drop of a run: each look answers what the run went on
     * with, no drop finds it at nothing, and it ends as the number of guards alive.
     */
    method Follow(bound: nat, w: World, steps: seq<Step>) returns (granted: seq<bool>)
      requires AtFirst(w) && held == 0 && IsRun(w, bound, steps)
      modifies this
      ensures held == Count(After(w, bound, steps).threads, Holding) <= bound
      ensures granted == Granted(w, bound, steps)
    {
      hide Count, IsRun, Granted, After;
      NoStepsLeft(w, bound);
      HeldIsTheGuards(w, bound, []);
      assert steps[0..] == steps;
      var i, now := 0, w;
      granted := [];
      while i < |steps|
        invariant i <= |steps| && held == now.held && IsRun(now, bound, steps[i..])
        invariant Counted(now, bound) && NoneLost(now, bound)
        invariant After(now, bound, steps[i..]) == After(w, bound, steps)
        invariant granted + Granted(now, bound, steps[i..]) == Granted(w, bound, steps)
      {
        var step := steps[i];
        FirstStep(now, bound, steps, i);
        StepKeeps(now, bound, step);
        if step.Look? {
          var taken := Look(bound);
          granted := granted + [taken];
        } else if step.Drop? {
          CountAt(now.threads, step.t);
          GiveBack();
        }
        now := Apply(now, bound, step);
        i := i + 1;
      }
      assert steps[|steps|..] == [];
      NoStepsLeft(now, bound);
    }
  }

  /** Which looks of a run were followed by a thread that holds a slot. */
  function Granted(w: World, bound: nat, steps: seq<Step>): seq<bool>
    requires IsRun(w, bound, steps)
    decreases |steps|
  {
    if steps == [] then []
    else
      var next := Apply(w, bound, steps[0]);
      (if steps[0].Look? then [next.threads[steps[0].t].Holding?] else []) + Granted(next, bound, steps[1..])
  }

  lemma NoStepsLeft(w: World, bound: nat)
    ensures IsRun(w, bound, []) && After(w, bound, []) == w && Granted(w, bound, []) == []
  {
  }

  lemma FirstStep(w: World, bound: nat, steps: seq<Step>, i: nat)
    requires i < |steps| && IsRun(w, bound, steps[i..])
    ensures Enabled(w, steps[i])
    ensures var next := Apply(w, bound, steps[i]);
            && IsRun(next, bound, steps[i + 1..])
            && After(w, bound, steps[i..]) == After(next, bound, steps[i + 1..])
            && Granted(w, bound, steps[i..]) ==
               (if steps[i].Look? then [next.threads[steps[i].t].Holding?] else []) +
               Granted(next, bound, steps[i + 1..])
  {
    hide Enabled, Apply, Count;
    assert steps[i..][1..] == steps[i + 1..];
  }
}
