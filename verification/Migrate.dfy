/** Replicas that migrate under one lock. */
module Migrate {
  import opened Options

  /** One link of an error's chain of sources. */
  datatype Link = LockTimedOut | Permanent | Other

  const MAX_DEPTH: nat := 32

  /** Such a link is among the first of the chain, as many as are looked at. */
  predicate Carries(chain: seq<Link>, link: Link) {
    exists i | 0 <= i < |chain| && i < MAX_DEPTH :: chain[i] == link
  }

  /** Such a link is among the first 32. */
  predicate Within32(chain: seq<Link>, link: Link) {
    link in chain[..if |chain| < 32 then |chain| else 32]
  }

  lemma CarriesIs(chain: seq<Link>, link: Link)
    ensures Carries(chain, link) <==> Within32(chain, link)
  {
    var first := chain[..if |chain| < 32 then |chain| else 32];
    assert forall i | 0 <= i < |first| :: first[i] == chain[i];
    if i :| 0 <= i < |chain| && i < MAX_DEPTH && chain[i] == link {
      assert first[i] == link;
    }
  }

  method FindLink(chain: seq<Link>, link: Link) returns (found: bool)
    ensures found == Carries(chain, link)
  {
    for depth := 0 to MAX_DEPTH
      invariant depth <= |chain| && forall i | 0 <= i < depth :: chain[i] != link
    {
      if depth == |chain| {
        return false;
      }
      if chain[depth] == link {
        return true;
      }
    }
    found := false;
  }

  // ---- How a step fails, and whether starting again can mend it ----

  datatype Failure =
    | WaitExpired                          // this side's clock reached the bound of the wait
    | LockFailed(chain: seq<Link>)         // the store's own error
    | ShutDown                             // the runtime was gone when a bound was to be timed
    | MigrationTimedOut
    | MigratorFailed(chain: seq<Link>)     // the migrator's own error
    | TaskEnded                            // the spawned work panicked or was aborted

  datatype Retry = No | LockWait | LockStep

  function RetryOf(f: Failure): Retry {
    match f
    case WaitExpired => LockWait
    case LockFailed(chain) =>
      if Carries(chain, LockTimedOut) then LockWait else if Carries(chain, Permanent) then No else LockStep
    case MigratorFailed(chain) => if chain != [] && chain[0] == LockTimedOut then LockWait else No
    case _ => No
  }

  /** The failure as the caller of the step reads it: the error's own type first, then its chain. */
  method Classify(f: Failure) returns (retry: Retry)
    ensures retry == RetryOf(f)
  {
    var timedOut := f.WaitExpired? || (f.MigratorFailed? && f.chain != [] && f.chain[0] == LockTimedOut);
    if timedOut {
      return LockWait;
    }
    if f.LockFailed? {
      var waited := FindLink(f.chain, LockTimedOut);
      if waited {
        return LockWait;
      }
      var permanent := FindLink(f.chain, Permanent);
      return if permanent then No else LockStep;
    }
    retry := No;
  }

  // ---- The replicas ----

  datatype Ending = Succeeded | Failed(failure: Failure) | Abandoned

  datatype Phase =
    | Idle
    | Waiting
    | Granted                              // the store holds the lock for it; the guard is not handed over yet
    | Migrating
    | Releasing(ran: Ending)
    | Over(ending: Ending)

  /** `guarded`: the guard was handed over. */
  datatype Replica = Replica(phase: Phase, guarded: bool)

  datatype World = World(replicas: map<nat, Replica>, holder: Option<nat>)

  datatype Step =
    | Request(r: nat)
    | Grant(r: nat)
    | HandOver(r: nat)
    | FailWait(r: nat, failure: Failure)        // the lock step ends without a guard
    | EndMigration(r: nat, ran: Ending)
    | CutMigration(r: nat, failure: Failure)    // its bound passes, or is refused: the guard is dropped
    | Release(r: nat)                           // the release, or the drop that stands in for it
    | BreakRelease(r: nat)                      // the work ends while it releases: the guard is dropped
    | Abandon(r: nat)                           // the caller drops the step where it stands

  predicate Holds(p: Phase) {
    p.Granted? || p.Migrating? || p.Releasing?
  }

  predicate Enabled(w: World, step: Step) {
    step.r in w.replicas &&
    var phase := w.replicas[step.r].phase;
    match step
    case Request(_) => phase.Idle?
    case Grant(_) => phase.Waiting? && w.holder.None?
    case HandOver(_) => phase.Granted?
    case FailWait(_, failure) =>
      (phase.Waiting? || phase.Granted?) &&
      (failure.WaitExpired? || failure.LockFailed? || failure.ShutDown? || failure.TaskEnded?)
    case EndMigration(_, ran) => phase.Migrating? && (ran.Succeeded? || (ran.Failed? && ran.failure.MigratorFailed?))
    case CutMigration(_, failure) =>
      phase.Migrating? && (failure.MigrationTimedOut? || failure.ShutDown? || failure.TaskEnded?)
    case Release(_) => phase.Releasing?
    case BreakRelease(_) => phase.Releasing?
    case Abandon(_) => phase.Waiting? || Holds(phase)
  }

  /** A guard dropped, or a wait dropped with the lock already given to it, releases the lock. */
  function Freed(w: World, r: nat): Option<nat> {
    if w.holder == Some(r) then None else w.holder
  }

  function Moved(w: World, r: nat, phase: Phase, holder: Option<nat>): World
    requires r in w.replicas
  {
    World(w.replicas[r := w.replicas[r].(phase := phase)], holder)
  }

  function Apply(w: World, step: Step): World
    requires Enabled(w, step)
  {
    match step
    case Request(r) => Moved(w, r, Waiting, w.holder)
    case Grant(r) => Moved(w, r, Granted, Some(r))
    case HandOver(r) => World(w.replicas[r := Replica(Migrating, true)], w.holder)
    case FailWait(r, failure) => Moved(w, r, Over(Failed(failure)), Freed(w, r))
    case EndMigration(r, ran) => Moved(w, r, Releasing(ran), w.holder)
    case CutMigration(r, failure) => Moved(w, r, Over(Failed(failure)), Freed(w, r))
    case Release(r) => Moved(w, r, Over(w.replicas[r].phase.ran), Freed(w, r))
    case BreakRelease(r) => Moved(w, r, Over(Failed(TaskEnded)), Freed(w, r))
    case Abandon(r) => Moved(w, r, Over(Abandoned), Freed(w, r))
  }

  ghost predicate IsRun(w: World, steps: seq<Step>)
    decreases |steps|
  {
    steps == [] || (Enabled(w, steps[0]) && IsRun(Apply(w, steps[0]), steps[1..]))
  }

  function After(w: World, steps: seq<Step>): World
    requires IsRun(w, steps)
    decreases |steps|
  {
    if steps == [] then w else After(Apply(w, steps[0]), steps[1..])
  }

  predicate AtFirst(w: World) {
    w.holder.None? && forall r | r in w.replicas :: w.replicas[r] == Replica(Idle, false)
  }

  // ---- What every run keeps ----

  /** The lock's holder is the one replica in a phase that holds it. */
  predicate Exclusive(w: World) {
    && (w.holder.Some? ==> w.holder.value in w.replicas)
    && (forall r | r in w.replicas :: Holds(w.replicas[r].phase) <==> w.holder == Some(r))
  }

  /** A guard is handed over before the migrator starts, and to no one who ends waiting. */
  predicate Guarded(w: World) {
    forall r | r in w.replicas ::
      var replica := w.replicas[r];
      match replica.phase
      case Migrating => replica.guarded
      case Releasing(ran) => replica.guarded && (ran.Failed? ==> ran.failure.MigratorFailed?)
      case Over(Failed(failure)) =>
        && (failure.MigratorFailed? || failure.MigrationTimedOut? ==> replica.guarded)
        && (failure.WaitExpired? || failure.LockFailed? ==> !replica.guarded)
      case Over(Succeeded) => replica.guarded
      case Over(Abandoned) => true
      case _ => !replica.guarded
  }

  lemma StepKeeps(w: World, step: Step)
    requires Exclusive(w) && Guarded(w) && Enabled(w, step)
    ensures Exclusive(Apply(w, step)) && Guarded(Apply(w, step))
  {
    ExclusiveKept(w, step);
    GuardedKept(w, step);
  }

  lemma ExclusiveKept(w: World, step: Step)
    requires Exclusive(w) && Enabled(w, step)
    ensures Exclusive(Apply(w, step))
  {
    var after := Apply(w, step);
    assert after.replicas.Keys == w.replicas.Keys;
    assert forall r | r in w.replicas && r != step.r :: after.replicas[r] == w.replicas[r];
  }

  lemma GuardedKept(w: World, step: Step)
    requires Guarded(w) && Enabled(w, step)
    ensures Guarded(Apply(w, step))
  {
    var after := Apply(w, step);
    assert forall r | r in w.replicas && r != step.r :: after.replicas[r] == w.replicas[r];
  }

  lemma {:induction false} RunKeeps(w: World, steps: seq<Step>)
    requires Exclusive(w) && Guarded(w) && IsRun(w, steps)
    ensures Exclusive(After(w, steps)) && Guarded(After(w, steps))
    decreases |steps|
  {
    hide Exclusive, Guarded, Enabled, Apply;
    if steps != [] {
      StepKeeps(w, steps[0]);
      RunKeeps(Apply(w, steps[0]), steps[1..]);
    }
  }

  /**
   * However many replicas start, fail, time out or are dropped: at most one is migrating or
   * releasing, and one whose step is over holds the lock no more.
   */
  lemma OneMigratesAtATime(w: World, steps: seq<Step>, one: nat, other: nat)
    requires AtFirst(w) && IsRun(w, steps) && one in After(w, steps).replicas && other in After(w, steps).replicas
    ensures var end := After(w, steps);
            && (Holds(end.replicas[one].phase) && Holds(end.replicas[other].phase) ==> one == other)
            && (end.replicas[one].phase.Over? ==> end.holder != Some(one))
  {
    RunKeeps(w, steps);
  }

  /**
   * How a failure is retried. After the guard was handed over, only for a migrator whose own error is a
   * `LockTimedOut`. Before it: as a wait for the lock if this side's bound passed or the store's error
   * names the wait; as a failure of the lock step if it names neither that nor a permanent error.
   */
  lemma RetryableExactlyWhen(w: World, steps: seq<Step>, r: nat)
    requires AtFirst(w) && IsRun(w, steps) && r in After(w, steps).replicas
    requires var phase := After(w, steps).replicas[r].phase; phase.Over? && phase.ending.Failed?
    ensures var replica := After(w, steps).replicas[r];
            var failure := replica.phase.ending.failure;
            if replica.guarded then
              && (RetryOf(failure) == LockWait <==>
                    failure.MigratorFailed? && failure.chain != [] && failure.chain[0] == LockTimedOut)
              && RetryOf(failure) != LockStep
            else
              && (RetryOf(failure) == LockWait <==>
                    failure.WaitExpired? || (failure.LockFailed? && Within32(failure.chain, LockTimedOut)))
              && (RetryOf(failure) == LockStep <==>
                    && failure.LockFailed? && !Within32(failure.chain, LockTimedOut)
                    && !Within32(failure.chain, Permanent))
  {
    hide Exclusive, Carries, Within32;
    RunKeeps(w, steps) by { FirstIsSound(w); }
    var replica := After(w, steps).replicas[r];
    if replica.phase.ending.failure.LockFailed? {
      CarriesIs(replica.phase.ending.failure.chain, LockTimedOut);
      CarriesIs(replica.phase.ending.failure.chain, Permanent);
    }
    assert Guarded(After(w, steps));
  }

  lemma {:induction false} ReplicaStays(w: World, steps: seq<Step>, r: nat)
    requires IsRun(w, steps) && r in w.replicas && forall i | 0 <= i < |steps| :: steps[i].r != r
    ensures r in After(w, steps).replicas && After(w, steps).replicas[r] == w.replicas[r]
    decreases |steps|
  {
    hide Enabled;
    if steps != [] {
      OthersStay(w, steps[0], r);
      assert forall i | 0 <= i < |steps[1..]| :: steps[1..][i] == steps[i + 1];
      ReplicaStays(Apply(w, steps[0]), steps[1..], r);
    }
  }

  lemma OthersStay(w: World, step: Step, r: nat)
    requires Enabled(w, step) && r in w.replicas && step.r != r
    ensures r in Apply(w, step).replicas && Apply(w, step).replicas[r] == w.replicas[r]
  {
  }

  /**
   * What the migrator ends with is what its replica ends with, once it has released the lock,
   * whatever the others do.
   */
  lemma EndsAsTheMigrator(w: World, r: nat, ran: Ending, between: seq<Step>, after: seq<Step>)
    requires Enabled(w, EndMigration(r, ran)) && IsRun(Apply(w, EndMigration(r, ran)), between)
    requires forall i | 0 <= i < |between| :: between[i].r != r
    requires Enabled(After(Apply(w, EndMigration(r, ran)), between), Release(r))
    requires var released := Apply(After(Apply(w, EndMigration(r, ran)), between), Release(r)); IsRun(released, after)
    requires forall i | 0 <= i < |after| :: after[i].r != r
    ensures var released := Apply(After(Apply(w, EndMigration(r, ran)), between), Release(r));
            r in After(released, after).replicas && After(released, after).replicas[r].phase == Over(ran)
  {
    hide IsRun, After;
    var ended := Apply(w, EndMigration(r, ran));
    ReplicaStays(ended, between, r);
    ReplicaStays(Apply(After(ended, between), Release(r)), after, r);
  }

  /** A failure of the wait, one that cuts the migration or its release, and a drop end the replica at once, as such. */
  lemma EndsAsItFailed(w: World, step: Step, after: seq<Step>)
    requires Enabled(w, step) && (step.FailWait? || step.CutMigration? || step.BreakRelease? || step.Abandon?)
    requires IsRun(Apply(w, step), after) && forall i | 0 <= i < |after| :: after[i].r != step.r
    ensures var end := After(Apply(w, step), after);
            step.r in end.replicas && end.replicas[step.r].phase ==
              if step.Abandon? then Over(Abandoned) else if step.BreakRelease? then Over(Failed(TaskEnded))
              else Over(Failed(step.failure))
  {
    hide IsRun, After;
    ReplicaStays(Apply(w, step), after, step.r);
  }

  /** A run in which the migration itself fails after the hand-over, and the failure is retryable. */
  lemma RetriedAfterHandOver() returns (w: World, steps: seq<Step>)
    ensures AtFirst(w) && IsRun(w, steps)
    ensures var end := After(w, steps);
            && 0 in end.replicas && end.replicas[0].guarded
            && end.replicas[0].phase == Over(Failed(MigratorFailed([LockTimedOut])))
            && RetryOf(MigratorFailed([LockTimedOut])) == LockWait
  {
    var ran := Failed(MigratorFailed([LockTimedOut]));
    w := World(map[0 := Replica(Idle, false)], None);
    steps := [Request(0), Grant(0), HandOver(0), EndMigration(0, ran), Release(0)];
    var w1 := Apply(w, steps[0]);
    var w2 := Apply(w1, steps[1]);
    var w3 := Apply(w2, steps[2]);
    var w4 := Apply(w3, steps[3]);
    var w5 := Apply(w4, steps[4]);
    assert steps[1..] == [Grant(0), HandOver(0), EndMigration(0, ran), Release(0)];
    assert steps[1..][1..] == [HandOver(0), EndMigration(0, ran), Release(0)];
    assert steps[1..][1..][1..] == [EndMigration(0, ran), Release(0)];
    assert steps[1..][1..][1..][1..] == [Release(0)];
    assert steps[1..][1..][1..][1..][1..] == [];
    assert IsRun(w4, [Release(0)]) && After(w4, [Release(0)]) == w5;
    assert IsRun(w3, steps[1..][1..][1..]) && After(w3, steps[1..][1..][1..]) == w5;
    assert IsRun(w2, steps[1..][1..]) && After(w2, steps[1..][1..]) == w5;
    assert IsRun(w1, steps[1..]) && After(w1, steps[1..]) == w5;
  }

  lemma FirstIsSound(w: World)
    requires AtFirst(w)
    ensures Exclusive(w) && Guarded(w)
  {
  }

  // ---- The lock always comes free ----

  /** What a holder does on its own, nothing failing. */
  predicate GoesOn(step: Step, holder: Option<nat>) {
    holder == Some(step.r) && (step.HandOver? || step.EndMigration? || step.Release?)
  }

  /** The steps of the holder `h`, one after another, end in the lock given to `r`. */
  ghost predicate Passes(w: World, h: Option<nat>, r: nat, steps: seq<Step>) {
    && IsRun(w, steps + [Grant(r)])
    && After(w, steps + [Grant(r)]).holder == Some(r)
    && forall k | 0 <= k < |steps| :: GoesOn(steps[k], h)
  }

  predicate WaitsFor(w: World, h: nat, r: nat) {
    h in w.replicas && r in w.replicas && w.replicas[r].phase.Waiting? && h != r && w.holder == Some(h)
  }

  lemma PassesNow(w: World, h: Option<nat>, r: nat)
    requires r in w.replicas && w.replicas[r].phase.Waiting? && w.holder.None?
    ensures Passes(w, h, r, [])
  {
    var last := [] + [Grant(r)];
    assert last[1..] == [];
    assert After(w, last) == After(Apply(w, Grant(r)), []);
  }

  lemma PassesBefore(w: World, h: nat, r: nat, step: Step, rest: seq<Step>)
    requires Enabled(w, step) && GoesOn(step, Some(h)) && Passes(Apply(w, step), Some(h), r, rest)
    ensures Passes(w, Some(h), r, [step] + rest)
  {
    hide Enabled, Apply;
    var all := [step] + rest + [Grant(r)];
    assert all[1..] == rest + [Grant(r)];
    assert all[0] == step;
    assert After(w, all) == After(Apply(w, step), all[1..]);
  }

  lemma HolderPasses(w: World, h: nat, r: nat) returns (steps: seq<Step>)
    requires WaitsFor(w, h, r) && Holds(w.replicas[h].phase)
    ensures Passes(w, Some(h), r, steps)
    decreases match w.replicas[h].phase case Granted => 2 case Migrating => 1 case _ => 0
  {
    var phase := w.replicas[h].phase;
    var step := if phase.Granted? then HandOver(h)
    else if phase.Migrating? then EndMigration(h, Succeeded) else Release(h);
    if phase.Releasing? {
      PassesNow(Apply(w, step), Some(h), r);
      steps := [];
    } else {
      steps := HolderPasses(Apply(w, step), h, r);
    }
    PassesBefore(w, h, r, step, steps);
    steps := [step] + steps;
  }

  /**
   * The lock is never lost: from any state, the steps its holder takes on its own, if it has a
   * holder, end in the lock given to any replica that waits for it.
   */
  lemma NeverStuck(w: World, steps: seq<Step>, r: nat) returns (more: seq<Step>)
    requires AtFirst(w) && IsRun(w, steps) && r in After(w, steps).replicas &&
             After(w, steps).replicas[r].phase.Waiting?
    ensures Passes(After(w, steps), After(w, steps).holder, r, more)
  {
    hide IsRun, Passes;
    FirstIsSound(w);
    RunKeeps(w, steps);
    var end := After(w, steps);
    if end.holder.None? {
      PassesNow(end, None, r);
      more := [];
    } else {
      more := HolderPasses(end, end.holder.value, r);
    }
  }
}
