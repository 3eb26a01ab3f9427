/** What a client sees under one id, and exactly when it may use the id again. */
module GatewayIds {
  import opened Options
  import opened Gateway
  import opened GatewayRuns
  import opened GatewayLaws
  import opened GatewayAck

  /** The frames written under an id, in order. */
  function WrittenUnder(wire: seq<Sent>, id: string): seq<ServerMessage> {
    if wire == [] then []
    else (if HasId(wire[0].message, id) then [wire[0].message] else []) + WrittenUnder(wire[1..], id)
  }

  lemma {:induction false} UnderAppend(wire: seq<Sent>, sent: Sent, id: string)
    ensures WrittenUnder(wire + [sent], id) ==
              WrittenUnder(wire, id) + if HasId(sent.message, id) then [sent.message] else []
  {
    if wire == [] {
      assert wire + [sent] == [sent] && [sent][1..] == [];
    } else {
      assert (wire + [sent])[1..] == wire[1..] + [sent];
      UnderAppend(wire[1..], sent, id);
      var first := if HasId(wire[0].message, id) then [wire[0].message] else [];
      var last := if HasId(sent.message, id) then [sent.message] else [];
      assert first + (WrittenUnder(wire[1..], id) + last) == first + WrittenUnder(wire[1..], id) + last;
    }
  }

  lemma OrderlyMore(messages: seq<ServerMessage>, m: ServerMessage, id: string)
    requires Orderly(messages, id) && HasId(m, id)
    ensures Orderly(messages + [m], id) <==> !Ended(messages)
    ensures Ended(messages + [m]) <==> IsEnd(m)
  {
    var more := messages + [m];
    assert more[|messages|] == m && forall i | 0 <= i < |messages| :: more[i] == messages[i];
    if Ended(messages) {
      assert !more[|messages| - 1].Next?;
    }
  }

  // ---- Who can still write under an id ----

  /** An operation, or the handler that refuses one. */
  datatype Writer = Op(seqno: nat) | Refusal(k: nat)

  predicate IsWriter(w: World, id: string, x: Writer) {
    match x
    case Op(seqno) =>
      && seqno in w.admitted && w.admitted[seqno].id == id
      && (seqno in w.tasks ==> w.tasks[seqno].phase.Streaming? || w.tasks[seqno].phase.Completing?)
    case Refusal(k) => k < |w.handlers| && w.handlers[k] == Refusing(id)
  }

  ghost predicate NoWriter(w: World, id: string) {
    forall x :: !IsWriter(w, id, x)
  }

  /** The frames written under an id once the wire held `n` frames. */
  function Since(w: World, id: string, n: nat): seq<ServerMessage> {
    if n <= |w.wire| then WrittenUnder(w.wire[n..], id) else []
  }

  lemma SinceFirst(w: World, id: string)
    ensures Since(w, id, 0) == WrittenUnder(w.wire, id)
  {
    assert w.wire[0..] == w.wire;
  }

  lemma SinceNow(w: World, id: string)
    ensures Since(w, id, |w.wire|) == []
  {
  }

  lemma SinceAppend(w: World, after: World, id: string, n: nat)
    requires n <= |w.wire| && |after.wire| == |w.wire| + 1 && after.wire == w.wire + [after.wire[|w.wire|]]
    ensures var sent := after.wire[|w.wire|];
            Since(after, id, n) == Since(w, id, n) + if HasId(sent.message, id) then [sent.message] else []
  {
    var sent := after.wire[|w.wire|];
    assert after.wire[n..] == w.wire[n..] + [sent];
    UnderAppend(w.wire[n..], sent, id);
  }

  /** One writer at most, and none once an end is written since the wire held `n` frames. */
  ghost predicate Safe(w: World, id: string, n: nat) {
    && (forall x, y | IsWriter(w, id, x) && IsWriter(w, id, y) :: x == y)
    && (Ended(Since(w, id, n)) ==> NoWriter(w, id))
  }

  /** Nothing can be written under the id, and nothing ended under it. */
  ghost predicate Clear(w: World, id: string, n: nat) {
    NoWriter(w, id) && !Ended(Since(w, id, n))
  }

  ghost predicate Good(w: World, id: string, n: nat) {
    n <= |w.wire| && Orderly(Since(w, id, n), id) && (w.closed || Safe(w, id, n))
  }

  predicate Subscribes(step: Step, id: string) {
    step.Receive? && step.message.Subscribe? && step.message.id == id
  }

  /** The step starts an operation under the id, or refuses to while draining. */
  predicate Opens(w: World, step: Step, id: string) {
    Subscribes(step, id) &&
    var admission := OnSubscribe(w.ops, id, step.message.accepting).1;
    admission.Open? || admission.Draining?
  }

  // ---- No other step adds a writer, and only a writer writes ----

  lemma StepWriters(w: World, step: Step, id: string, x: Writer)
    requires Numbered(w) && Started(w) && Enabled(w, step) && !Opens(w, step, id) && IsWriter(Apply(w, step), id, x)
    ensures IsWriter(w, id, x)
  {
    hide Numbered, Started, Received, Proceeded;
    match step
    case Receive(message) => ReceiveWriters(w, message, id, x);
    case Proceed(k, written, which) => ProceedWriters(w, k, written, which, id, x);
    case _ => OtherWriters(w, step, id, x);
  }

  lemma ReceiveWriters(w: World, message: ClientMessage, id: string, x: Writer)
    requires Numbered(w) && !Opens(w, Receive(message), id) && IsWriter(Received(w, message), id, x)
    ensures IsWriter(w, id, x)
  {
    hide Received, Numbered;
    ReceivedFrame(w, message);
    if message.Subscribe? && OnSubscribe(w.ops, message.id, message.accepting).1.Open? {
      OpenReceived(w, message);
    } else if message.Complete? && message.id in w.ops.running {
      CompleteReceived(w, message);
    } else {
      OtherReceived(w, message);
      assert Received(w, message).handlers[|w.handlers|] != Refusing(id) by { RefusesOnlyDraining(w, message, id); }
    }
  }

  lemma RefusesOnlyDraining(w: World, message: ClientMessage, id: string)
    requires !Opens(w, Receive(message), id)
    ensures Received(w, message).handlers[|w.handlers|] != Refusing(id)
  {
  }

  lemma ProceedWriters(w: World, k: nat, written: bool, which: nat, id: string, x: Writer)
    requires Started(w) && k < |w.handlers| && IsWriter(Proceeded(w, k, written, which), id, x)
    ensures IsWriter(w, id, x)
  {
    hide Proceeded, Started;
    ProceededFrame(w, k, written, which);
    NoRefusalBegins(w, k, written, which);
    ProceededTasks(w, k, written, which);
    if w.handlers[k].Spawning? {
      NotYetStarted(w, k);
    }
  }

  lemma ProceededTasks(w: World, k: nat, written: bool, which: nat)
    requires k < |w.handlers|
    ensures var h := w.handlers[k];
            Proceeded(w, k, written, which).tasks ==
              if h.Spawning? then w.tasks[h.seqno := Task(h.id, Streaming)] else w.tasks
  {
  }

  lemma OtherWriters(w: World, step: Step, id: string, x: Writer)
    requires Enabled(w, step) && !step.Receive? && !step.Proceed? && IsWriter(Apply(w, step), id, x)
    ensures IsWriter(w, id, x)
  {
  }

  /** A frame under the id is written by one of its writers, which is none any more if the frame is an end. */
  lemma StepWire(w: World, step: Step, id: string, n: nat) returns (wrote: bool, x: Writer, m: ServerMessage)
    requires Started(w) && Enabled(w, step) && n <= |w.wire|
    ensures var before, after := Since(w, id, n), Since(Apply(w, step), id, n);
            if wrote then
              && !w.closed && IsWriter(w, id, x) && HasId(m, id) && after == before + [m]
              && (IsEnd(m) ==> !IsWriter(Apply(w, step), id, x))
            else after == before
  {
    hide Started, Since, Received, Proceeded, Enabled;
    wrote, x, m := false, Op(0), Pong;
    var after := Apply(w, step);
    StepWrites(w, step);
    if after.wire != w.wire {
      var sent := after.wire[|w.wire|];
      SinceAppend(w, after, id, n);
      m := sent.message;
      wrote := HasId(m, id);
      if wrote {
        x := WriterOf(w, step, sent);
        WriterWrites(w, step, sent, id);
      }
      assert Since(w, id, n) + [] == Since(w, id, n);
    } else {
      SinceSame(w, after, id, n);
    }
  }

  lemma SinceSame(w: World, after: World, id: string, n: nat)
    requires after.wire == w.wire
    ensures Since(after, id, n) == Since(w, id, n)
  {
  }

  function WriterOf(w: World, step: Step, sent: Sent): Writer {
    if sent.op.Some? then Op(sent.op.value) else if step.Proceed? then Refusal(step.k) else Op(0)
  }

  lemma WriterWrites(w: World, step: Step, sent: Sent, id: string)
    requires Started(w) && Enabled(w, step) && Wrote(w, step, sent) && HasId(sent.message, id)
    ensures IsWriter(w, id, WriterOf(w, step, sent))
    ensures IsEnd(sent.message) && Apply(w, step).wire != w.wire ==>
              !IsWriter(Apply(w, step), id, WriterOf(w, step, sent))
  {
    hide Started, Proceeded;
    if step.Proceed? {
      NoRefusalBegins(w, step.k, step.written, step.which);
      ProceededFrame(w, step.k, step.written, step.which);
    } else {
      TaskIsAdmitted(w, step.seqno);
    }
  }

  lemma GoodStep(w: World, step: Step, id: string, n: nat)
    requires Numbered(w) && Started(w) && Enabled(w, step) && !Opens(w, step, id) && Good(w, id, n)
    ensures Good(Apply(w, step), id, n)
  {
    hide Numbered, Started, Enabled, Apply, Opens, IsWriter, Since, Orderly, Ended, IsEnd, HasId;
    var after := Apply(w, step);
    var wrote, x, m := StepWire(w, step, id, n);
    StepWrites(w, step);
    forall y | IsWriter(after, id, y)
      ensures IsWriter(w, id, y)
    {
      StepWriters(w, step, id, y);
    }
    if wrote {
      OrderlyMore(Since(w, id, n), m, id);
    }
  }

  // ---- A subscribe keeps the order exactly when the id is clear ----

  /** What the subscribe adds: the operation it starts, or its own refusal. */
  function NewWriter(w: World, step: Step, id: string): Writer
    requires Opens(w, step, id)
  {
    if OnSubscribe(w.ops, id, step.message.accepting).1.Open? then Op(w.ops.next) else Refusal(|w.handlers|)
  }

  lemma OpenedWriters(w: World, step: Step, id: string, x: Writer)
    requires Numbered(w) && Started(w) && Opens(w, step, id)
    ensures IsWriter(Received(w, step.message), id, x) <==> IsWriter(w, id, x) || x == NewWriter(w, step, id)
    ensures !IsWriter(w, id, NewWriter(w, step, id))
  {
    hide Received, Numbered, Started;
    ReceivedFrame(w, step.message);
    if OnSubscribe(w.ops, id, step.message.accepting).1.Open? {
      OpenReceived(w, step.message);
      assert w.ops.next !in w.admitted by { NextIsNew(w); }
      assert w.ops.next !in w.tasks by { NotStarted(w, w.ops.next); }
    } else {
      OtherReceived(w, step.message);
      assert Received(w, step.message).handlers[|w.handlers|] == Refusing(id) by { DrainingRefuses(w, step, id); }
    }
  }

  lemma NextIsNew(w: World)
    requires Numbered(w)
    ensures w.ops.next !in w.admitted
  {
  }

  lemma NotStarted(w: World, seqno: nat)
    requires Started(w) && seqno !in w.admitted
    ensures seqno !in w.tasks
  {
    hide Starting;
  }

  lemma DrainingRefuses(w: World, step: Step, id: string)
    requires Opens(w, step, id) && !OnSubscribe(w.ops, id, step.message.accepting).1.Open?
    ensures Received(w, step.message).handlers[|w.handlers|] == Refusing(id)
  {
  }

  /**
   * A `subscribe` that starts or refuses an operation keeps what is good exactly when the id is
   * clear, or nothing is written any more.
   */
  lemma SubscribeNeedsClear(w: World, step: Step, id: string, n: nat)
    requires Numbered(w) && Started(w) && Enabled(w, step) && Opens(w, step, id) && Good(w, id, n)
    ensures Good(Apply(w, step), id, n) <==> w.closed || Clear(w, id, n)
  {
    hide Numbered, Started, IsWriter, Since, Orderly, Ended, Received, OnSubscribe;
    var after := Received(w, step.message);
    SubscribeWriters(w, step, id);
    SinceSame(w, after, id, n);
  }

  lemma SubscribeWriters(w: World, step: Step, id: string)
    requires Numbered(w) && Started(w) && Opens(w, step, id)
    ensures var after := Received(w, step.message);
            && after.wire == w.wire && after.closed == w.closed && !NoWriter(after, id)
            && ((forall x, y | IsWriter(after, id, x) && IsWriter(after, id, y) :: x == y) <==> NoWriter(w, id))
  {
    hide Numbered, Started, IsWriter, Received;
    var after, z := Received(w, step.message), NewWriter(w, step, id);
    ReceivedFrame(w, step.message);
    forall x
      ensures IsWriter(after, id, x) <==> IsWriter(w, id, x) || x == z
      ensures !IsWriter(w, id, z)
    {
      OpenedWriters(w, step, id, x);
    }
    assert IsWriter(after, id, z);
    if !NoWriter(w, id) {
      var y :| IsWriter(w, id, y);
      assert IsWriter(after, id, y) && y != z;
    }
  }

  // ---- A state that is not good can be run to a breach of the order ----

  /** No `subscribe` under the id is answered. */
  ghost predicate Unanswered(w: World, steps: seq<Step>, id: string)
    requires IsRun(w, steps)
    decreases |steps|
  {
    steps == [] || (!Opens(w, steps[0], id) && Unanswered(Apply(w, steps[0]), steps[1..], id))
  }

  /**
   * In every way to go on without an answered `subscribe` under the id, what is written under it
   * since the wire held `n` frames is in order.
   */
  ghost predicate AlwaysOrderly(w: World, id: string, n: nat) {
    forall more | IsRun(w, more) && Unanswered(w, more, id) :: Orderly(Since(After(w, more), id, n), id)
  }

  lemma {:induction false} SomeStarting(handlers: seq<Handler>, seqno: nat) returns (k: nat)
    requires Starting(handlers, seqno) > 0
    ensures k < |handlers| && handlers[k].Spawning? && handlers[k].seqno == seqno
  {
    if handlers[0].Spawning? && handlers[0].seqno == seqno {
      k := 0;
    } else {
      k := SomeStarting(handlers[1..], seqno);
      k := k + 1;
    }
  }

  /** The steps end in a state with one more frame, an end under the id, and with every other writer a writer still. */
  ghost predicate EndsBy(w: World, id: string, n: nat, x: Writer, steps: seq<Step>)
  {
    && IsRun(w, steps) && Unanswered(w, steps, id)
    && var after := After(w, steps);
    && !after.closed && Started(after) && n <= |after.wire|
    && (exists m :: HasId(m, id) && IsEnd(m) && Since(after, id, n) == Since(w, id, n) + [m])
    && (forall y | y != x && IsWriter(w, id, y) :: IsWriter(after, id, y))
  }

  /** Any writer can write an end next, in at most two steps. */
  lemma WriterEnds(w: World, id: string, n: nat, x: Writer) returns (steps: seq<Step>)
    requires GatewayLaws.Sound(w) && IsWriter(w, id, x) && !w.closed && n <= |w.wire|
    ensures EndsBy(w, id, n, x, steps)
    ensures GatewayLaws.Sound(After(w, steps))
  {
    hide GatewayLaws.Sound, EndsBy, IsRun, Apply, Started, Starting;
    SoundIsStarted(w);
    if x.Refusal? || x.seqno in w.tasks {
      steps := EndsNow(w, id, n, x);
    } else {
      var k := Starter(w, x.seqno);
      var start := Proceed(k, false, 0);
      var next := Apply(w, start);
      Begins(w, id, x.seqno, k);
      SoundStep(w, start);
      SoundIsStarted(next);
      steps := EndsNow(next, id, n, x);
      assert !Opens(w, start, id);
      EndsLater(w, id, n, x, start, steps);
      steps := [start] + steps;
    }
    EveryRunIsSound(w, steps) by { EndsByRun(w, id, n, x, steps); }
  }

  lemma EndsByRun(w: World, id: string, n: nat, x: Writer, steps: seq<Step>)
    requires EndsBy(w, id, n, x, steps)
    ensures IsRun(w, steps)
  {
    hide IsRun;
  }

  lemma Starter(w: World, seqno: nat) returns (k: nat)
    requires Started(w) && seqno in w.admitted && seqno !in w.tasks
    ensures k < |w.handlers| && w.handlers[k].Spawning? && w.handlers[k].seqno == seqno
  {
    hide Starting;
    assert Starting(w.handlers, seqno) + One(seqno in w.tasks) == One(seqno in w.admitted);
    k := SomeStarting(w.handlers, seqno);
  }

  /** Starting an operation writes nothing and takes no writer away. */
  lemma Begins(w: World, id: string, seqno: nat, k: nat)
    requires Started(w) && IsWriter(w, id, Op(seqno)) && !w.closed
    requires k < |w.handlers| && w.handlers[k].Spawning? && w.handlers[k].seqno == seqno
    ensures var start := Proceed(k, false, 0);
            && Enabled(w, start)
            && var next := Apply(w, start);
            && !next.closed && next.wire == w.wire && seqno in next.tasks
            && (forall y | IsWriter(w, id, y) :: IsWriter(next, id, y))
  {
    hide Started, Proceeded;
    ProceededFrame(w, k, false, 0);
    ProceededTasks(w, k, false, 0);
    SpawnWrites(w, k);
  }

  lemma SpawnWrites(w: World, k: nat)
    requires k < |w.handlers| && w.handlers[k].Spawning?
    ensures Proceeded(w, k, false, 0).wire == w.wire && Proceeded(w, k, false, 0).closed == w.closed
  {
  }

  lemma EndsNow(w: World, id: string, n: nat, x: Writer) returns (steps: seq<Step>)
    requires Numbered(w) && Started(w) && IsWriter(w, id, x) && !w.closed && (x.Op? ==> x.seqno in w.tasks)
    requires n <= |w.wire|
    ensures EndsBy(w, id, n, x, steps)
  {
    hide Numbered, Started, Since, Proceeded;
    var step := match x
      case Refusal(k) => Proceed(k, true, 0)
      case Op(seqno) => if w.tasks[seqno].phase.Streaming? then Item(seqno, false, true) else WriteEnd(seqno, true);
    if x.Op? {
      TaskIsAdmitted(w, x.seqno);
    }
    var sent := EndSent(w, id, x, step);
    SinceAppend(w, Apply(w, step), id, n);
    StartedKept(w, step);
    OneStep(w, step);
    steps := [step];
    NotAnswered(w, step, id);
    OthersStay(w, id, x, step);
  }

  lemma NotAnswered(w: World, step: Step, id: string)
    requires Enabled(w, step) && IsRun(w, [step]) && !Opens(w, step, id)
    ensures Unanswered(w, [step], id)
  {
    hide Apply;
    assert [step][1..] == [];
    NothingAnswered(Apply(w, step), id);
  }

  lemma OneStep(w: World, step: Step)
    requires Enabled(w, step)
    ensures IsRun(w, [step]) && After(w, [step]) == Apply(w, step)
  {
    assert [step][1..] == [];
    assert After(w, [step]) == After(Apply(w, step), []);
  }

  lemma EndSent(w: World, id: string, x: Writer, step: Step) returns (sent: Sent)
    requires IsWriter(w, id, x) && !w.closed && (x.Op? ==> x.seqno in w.tasks && w.tasks[x.seqno].id == id)
    requires step == match x
      case Refusal(k) => Proceed(k, true, 0)
      case Op(seqno) => if w.tasks[seqno].phase.Streaming? then Item(seqno, false, true) else WriteEnd(seqno, true)
    ensures Enabled(w, step) && !Apply(w, step).closed
    ensures Apply(w, step).wire == w.wire + [sent] && HasId(sent.message, id) && IsEnd(sent.message)
  {
    sent := Apply(w, step).wire[|w.wire|];
  }

  lemma OthersStay(w: World, id: string, x: Writer, step: Step)
    requires IsWriter(w, id, x) && (x.Op? ==> x.seqno in w.tasks) && Enabled(w, step)
    requires match x
      case Refusal(k) => step == Proceed(k, true, 0)
      case Op(seqno) => step == Item(seqno, false, true) || step == WriteEnd(seqno, true)
    ensures forall y | y != x && IsWriter(w, id, y) :: IsWriter(Apply(w, step), id, y)
  {
    hide Proceeded;
    if x.Refusal? {
      ProceededFrame(w, x.k, true, 0);
      ProceededTasks(w, x.k, true, 0);
    }
  }

  lemma EndsLater(w: World, id: string, n: nat, x: Writer, start: Step, steps: seq<Step>)
    requires Enabled(w, start) && !Opens(w, start, id)
    requires EndsBy(Apply(w, start), id, n, x, steps) && Apply(w, start).wire == w.wire
    requires forall y | IsWriter(w, id, y) :: IsWriter(Apply(w, start), id, y)
    ensures EndsBy(w, id, n, x, [start] + steps)
  {
    hide Enabled, Apply, Started, IsWriter, WrittenUnder, Opens;
    var all := [start] + steps;
    assert all[1..] == steps && all[0] == start;
    assert After(w, all) == After(Apply(w, start), steps);
  }

  /** An end, and then another frame: the order is broken. */
  lemma EndsTwice(w: World, id: string, n: nat, x: Writer, steps: seq<Step>)
    requires Ended(Since(w, id, n)) && EndsBy(w, id, n, x, steps)
    ensures !Orderly(Since(After(w, steps), id, n), id)
  {
    hide IsRun, Started, Since, Unanswered;
    var messages := Since(w, id, n);
    var m :| HasId(m, id) && IsEnd(m) && Since(After(w, steps), id, n) == messages + [m];
    assert (messages + [m])[|messages| - 1] == messages[|messages| - 1];
  }

  lemma BreachFrom(w: World, id: string, n: nat) returns (more: seq<Step>)
    requires GatewayLaws.Sound(w) && n <= |w.wire| && !Good(w, id, n)
    ensures IsRun(w, more) && Unanswered(w, more, id) && !Orderly(Since(After(w, more), id, n), id)
  {
    hide GatewayLaws.Sound, IsWriter, Since, IsRun, Orderly, Ended, EndsBy, Unanswered;
    if !Orderly(Since(w, id, n), id) {
      more := [];
      NoSteps(w);
      assert Unanswered(w, [], id) by { NothingAnswered(w, id); }
    } else if Ended(Since(w, id, n)) && !NoWriter(w, id) {
      var x :| IsWriter(w, id, x);
      more := WriterEnds(w, id, n, x);
      EndsByParts(w, id, n, x, more);
      EndsTwice(w, id, n, x, more);
    } else {
      var x, y :| IsWriter(w, id, x) && IsWriter(w, id, y) && x != y;
      var first := WriterEnds(w, id, n, x);
      EndsByParts(w, id, n, x, first);
      var mid := After(w, first);
      assert IsWriter(mid, id, y);
      var second := WriterEnds(mid, id, n, y);
      EndsByParts(mid, id, n, y, second);
      EndsTwice(mid, id, n, y, second);
      RunOn(w, first, second);
      UnansweredOn(w, first, second, id);
      more := first + second;
    }
  }

  lemma NothingAnswered(w: World, id: string)
    ensures Unanswered(w, [], id)
  {
  }

  lemma {:induction false} UnansweredOn(w: World, steps: seq<Step>, more: seq<Step>, id: string)
    requires IsRun(w, steps) && IsRun(After(w, steps), more) && IsRun(w, steps + more)
    requires Unanswered(w, steps, id) && Unanswered(After(w, steps), more, id)
    ensures Unanswered(w, steps + more, id)
    decreases |steps|
  {
    hide Enabled, Apply, Opens;
    if steps == [] {
      assert steps + more == more;
    } else {
      assert (steps + more)[1..] == steps[1..] + more;
      UnansweredOn(Apply(w, steps[0]), steps[1..], more, id);
    }
  }

  lemma EndsByParts(w: World, id: string, n: nat, x: Writer, steps: seq<Step>)
    requires EndsBy(w, id, n, x, steps)
    ensures IsRun(w, steps) && Unanswered(w, steps, id)
    ensures var after := After(w, steps); !after.closed && n <= |after.wire| && Ended(Since(after, id, n))
    ensures forall y | y != x && IsWriter(w, id, y) :: IsWriter(After(w, steps), id, y)
  {
    hide IsRun, Started, Since, IsWriter, Unanswered;
  }

  lemma {:induction false} GoodRun(w: World, more: seq<Step>, id: string, n: nat)
    requires GatewayLaws.Sound(w) && Good(w, id, n) && IsRun(w, more) && Unanswered(w, more, id)
    ensures Good(After(w, more), id, n)
    decreases |more|
  {
    hide GatewayLaws.Sound, Good, Apply, Enabled, Numbered, Started, Opens;
    if more != [] {
      SoundIsStarted(w);
      SoundStep(w, more[0]);
      GoodStep(w, more[0], id, n);
      GoodRun(Apply(w, more[0]), more[1..], id, n);
    }
  }

  /**
   * In a reachable state the order is safe for ever, short of another answered `subscribe` under the
   * id, exactly when the state is good.
   */
  lemma OrderlyExactlyWhenGood(w: World, id: string, n: nat)
    requires GatewayLaws.Sound(w) && n <= |w.wire|
    ensures AlwaysOrderly(w, id, n) <==> Good(w, id, n)
  {
    hide GatewayLaws.Sound, IsRun, Since, Orderly, Safe, Unanswered;
    if Good(w, id, n) {
      forall more | IsRun(w, more) && Unanswered(w, more, id)
        ensures Orderly(Since(After(w, more), id, n), id)
      {
        GoodRun(w, more, id, n);
      }
    } else {
      var more := BreachFrom(w, id, n);
    }
  }

  // ---- One subscription after another ----

  /**
   * What an answered `subscribe` is followed by under its id, up to the next answered one, is `next`
   * messages and then at most one end, whatever the scheduling: exactly when nothing could write
   * under the id before it, or the connection is closed.
   */
  lemma SubscriptionOrderlyExactlyWhenAlone(w: World, step: Step, id: string)
    requires GatewayLaws.Sound(w) && Enabled(w, step) && Opens(w, step, id)
    ensures AlwaysOrderly(Apply(w, step), id, |w.wire|) <==> w.closed || NoWriter(w, id)
  {
    hide GatewayLaws.Sound, AlwaysOrderly, IsWriter, Since, Orderly, Ended, Received, OnSubscribe, Numbered, Started;
    var after := Received(w, step.message);
    SoundIsStarted(w);
    SoundStep(w, step);
    SubscribeWriters(w, step, id);
    SinceNow(after, id);
    NothingOrderly(id);
    OrderlyExactlyWhenGood(after, id, |w.wire|);
  }

  /** Every answered `subscribe` under the id comes when nothing can write under it, or the connection is closed. */
  ghost predicate Patient(w: World, steps: seq<Step>, id: string)
    requires IsRun(w, steps)
    decreases |steps|
  {
    steps == [] ||
    ((Opens(w, steps[0], id) ==> w.closed || NoWriter(w, id)) && Patient(Apply(w, steps[0]), steps[1..], id))
  }

  /** Every subscription under the id is in order, in every way to go on from its start. */
  ghost predicate EachOrderly(w: World, steps: seq<Step>, id: string)
    requires IsRun(w, steps)
    decreases |steps|
  {
    steps == [] ||
    (var next := Apply(w, steps[0]);
     (Opens(w, steps[0], id) ==> AlwaysOrderly(next, id, |w.wire|)) && EachOrderly(next, steps[1..], id))
  }

  lemma {:induction false} PatientFrom(w: World, steps: seq<Step>, id: string)
    requires GatewayLaws.Sound(w) && IsRun(w, steps)
    ensures Patient(w, steps, id) <==> EachOrderly(w, steps, id)
    decreases |steps|
  {
    hide GatewayLaws.Sound, AlwaysOrderly, NoWriter, Apply, Enabled, Opens;
    if steps != [] {
      SoundStep(w, steps[0]);
      PatientFrom(Apply(w, steps[0]), steps[1..], id);
      if Opens(w, steps[0], id) {
        SubscriptionOrderlyExactlyWhenAlone(w, steps[0], id);
      }
    }
  }

  /**
   * Over any run: every subscription under an id is in order exactly when each began with nothing
   * left to write under it.
   */
  lemma OrderlyExactlyWhenPatient(steps: seq<Step>, id: string)
    requires IsRun(INITIAL, steps)
    ensures Patient(INITIAL, steps, id) <==> EachOrderly(INITIAL, steps, id)
  {
    hide IsRun, Patient, EachOrderly, GatewayLaws.Sound;
    SoundAtFirst();
    PatientFrom(INITIAL, steps, id);
  }

  /**
   * The client subscribes under the id again only once the end of its last subscription was written;
   * `last` is how long the wire was when that one was answered.
   */
  ghost predicate WaitsForEnd(w: World, steps: seq<Step>, id: string, last: Option<nat>)
    requires IsRun(w, steps)
    decreases |steps|
  {
    steps == [] ||
    (var opens := Opens(w, steps[0], id);
     && (opens && last.Some? ==> Ended(Since(w, id, last.value)))
     && WaitsForEnd(Apply(w, steps[0]), steps[1..], id, if opens then Some(|w.wire|) else last))
  }

  lemma {:induction false} WaitingFrom(w: World, steps: seq<Step>, id: string, last: Option<nat>)
    requires GatewayLaws.Sound(w) && IsRun(w, steps) && WaitsForEnd(w, steps, id, last)
    requires if last.Some? then Good(w, id, last.value) else NoWriter(w, id)
    ensures Patient(w, steps, id)
    decreases |steps|
  {
    hide GatewayLaws.Sound, IsWriter, Since, Orderly, Ended, Apply, Enabled, Opens, Numbered, Started;
    if steps != [] {
      var step, next := steps[0], Apply(w, steps[0]);
      SoundIsStarted(w);
      SoundStep(w, step);
      if Opens(w, step, id) {
        assert w.closed || NoWriter(w, id);
        AnsweredIsGood(w, step, id);
      } else if last.Some? {
        GoodStep(w, step, id, last.value);
      } else {
        NoWriterStays(w, step, id);
      }
      WaitingFrom(next, steps[1..], id, if Opens(w, step, id) then Some(|w.wire|) else last);
    }
  }

  lemma AnsweredIsGood(w: World, step: Step, id: string)
    requires Numbered(w) && Started(w) && Enabled(w, step) && Opens(w, step, id) && (w.closed || NoWriter(w, id))
    ensures Good(Apply(w, step), id, |w.wire|)
  {
    hide IsWriter, Since, Orderly, Ended, Received, OnSubscribe, Numbered, Started;
    SubscribeWriters(w, step, id);
    SinceNow(Received(w, step.message), id);
    NothingOrderly(id);
  }

  lemma NoWriterStays(w: World, step: Step, id: string)
    requires Numbered(w) && Started(w) && Enabled(w, step) && !Opens(w, step, id) && NoWriter(w, id)
    ensures NoWriter(Apply(w, step), id)
  {
    hide IsWriter, Apply, Enabled, Opens, Numbered, Started;
    forall x
      ensures !IsWriter(Apply(w, step), id, x)
    {
      if IsWriter(Apply(w, step), id, x) {
        StepWriters(w, step, id, x);
      }
    }
  }

  /** A client that waits for the end of a subscription before it uses the id again sees every one in order. */
  lemma WaitingClientIsOrderly(steps: seq<Step>, id: string)
    requires IsRun(INITIAL, steps) && WaitsForEnd(INITIAL, steps, id, None)
    ensures EachOrderly(INITIAL, steps, id)
  {
    hide IsRun, Patient, EachOrderly, GatewayLaws.Sound, WaitsForEnd;
    SoundAtFirst();
    assert NoWriter(INITIAL, id) by { NothingUsed(id); }
    WaitingFrom(INITIAL, steps, id, None);
    PatientFrom(INITIAL, steps, id);
  }

  // ---- Over a whole run ----

  /** Every `subscribe` that starts or refuses an operation under the id finds it clear, or the connection closed. */
  ghost predicate Careful(w: World, steps: seq<Step>, id: string)
    requires IsRun(w, steps)
    decreases |steps|
  {
    steps == [] ||
    ((Opens(w, steps[0], id) ==> w.closed || Clear(w, id, 0)) && Careful(Apply(w, steps[0]), steps[1..], id))
  }

  /** In every state of the run, the order is safe for ever, short of another `subscribe` under the id. */
  ghost predicate OrderlyThroughout(w: World, steps: seq<Step>, id: string)
    requires IsRun(w, steps)
    decreases |steps|
  {
    AlwaysOrderly(w, id, 0) && (steps != [] ==> OrderlyThroughout(Apply(w, steps[0]), steps[1..], id))
  }

  lemma {:induction false} CarefulFrom(w: World, steps: seq<Step>, id: string)
    requires GatewayLaws.Sound(w) && Good(w, id, 0) && IsRun(w, steps)
    ensures Careful(w, steps, id) <==> OrderlyThroughout(w, steps, id)
    ensures Careful(w, steps, id) ==> Good(After(w, steps), id, 0)
    decreases |steps|
  {
    hide GatewayLaws.Sound, Good, Clear, AlwaysOrderly, Apply, Enabled, Opens, Numbered, Started;
    OrderlyExactlyWhenGood(w, id, 0);
    if steps != [] {
      var step := steps[0];
      SoundIsStarted(w);
      SoundStep(w, step);
      OrderlyExactlyWhenGood(Apply(w, step), id, 0);
      if Opens(w, step, id) {
        SubscribeNeedsClear(w, step, id, 0);
      } else {
        GoodStep(w, step, id, 0);
      }
      if Good(Apply(w, step), id, 0) {
        CarefulFrom(Apply(w, step), steps[1..], id);
      } else if steps[1..] == [] {
        assert !OrderlyThroughout(Apply(w, step), steps[1..], id);
      }
    }
  }

  lemma GoodAtFirst(id: string)
    ensures Good(INITIAL, id, 0)
  {
  }

  /**
   * Under an id, `next` messages, then at most one end, then nothing, whatever the scheduling:
   * exactly when every `subscribe` under it that is answered finds the id clear. It is clear when no
   * operation and no refusal under it can still write, and no end was written under it.
   */
  lemma OrderlyExactlyWhenCareful(steps: seq<Step>, id: string)
    requires IsRun(INITIAL, steps)
    ensures Careful(INITIAL, steps, id) <==> OrderlyThroughout(INITIAL, steps, id)
  {
    hide IsRun, Careful, OrderlyThroughout, GatewayLaws.Sound, Good;
    SoundAtFirst();
    GoodAtFirst(id);
    CarefulFrom(INITIAL, steps, id);
  }

  // ---- A client that uses no id twice ----

  /** No step subscribes under an id of `used`, or under one a step before it subscribed under. */
  predicate FreshIds(steps: seq<Step>, used: set<string>)
    decreases |steps|
  {
    steps == [] || (IsFresh(steps[0], used) && FreshIds(steps[1..], Using(steps[0], used)))
  }

  predicate IsFresh(step: Step, used: set<string>) {
    step.Receive? && step.message.Subscribe? ==> step.message.id !in used
  }

  function Using(step: Step, used: set<string>): set<string> {
    if step.Receive? && step.message.Subscribe? then used + {step.message.id} else used
  }

  ghost predicate Unused(w: World, id: string) {
    NoWriter(w, id) && Since(w, id, 0) == []
  }

  lemma UnusedStays(w: World, step: Step, id: string)
    requires Numbered(w) && Started(w) && Enabled(w, step) && !Subscribes(step, id) && Unused(w, id)
    ensures Unused(Apply(w, step), id)
  {
    hide Numbered, Started, Enabled, Apply, IsWriter, Since;
    var wrote, x, m := StepWire(w, step, id, 0);
    forall y
      ensures !IsWriter(Apply(w, step), id, y)
    {
      if IsWriter(Apply(w, step), id, y) {
        StepWriters(w, step, id, y);
      }
    }
  }

  lemma {:induction false} FreshIsCareful(w: World, steps: seq<Step>, id: string, used: set<string>)
    requires GatewayLaws.Sound(w) && IsRun(w, steps) && FreshIds(steps, used) && (id !in used ==> Unused(w, id))
    ensures Careful(w, steps, id)
    decreases |steps|
  {
    hide GatewayLaws.Sound, Unused, Apply, Enabled, Numbered, Started, OnSubscribe;
    if steps != [] {
      var step := steps[0];
      SoundIsStarted(w);
      SoundStep(w, step);
      if Subscribes(step, id) {
        assert Clear(w, id, 0) by { UnusedIsClear(w, id); }
      } else if id !in used {
        UnusedStays(w, step, id);
      }
      FreshIsCareful(Apply(w, step), steps[1..], id, Using(step, used));
    }
  }

  lemma UnusedIsClear(w: World, id: string)
    requires Unused(w, id)
    ensures Clear(w, id, 0)
  {
  }

  /** A client that uses no id twice sees, under each id, `next` messages, then at most one end, then nothing. */
  lemma FreshIdsAreOrderly(steps: seq<Step>, id: string)
    requires IsRun(INITIAL, steps) && FreshIds(steps, {})
    ensures Orderly(WrittenUnder(After(INITIAL, steps).wire, id), id)
  {
    hide IsRun, Careful, OrderlyThroughout, GatewayLaws.Sound, WrittenUnder, Orderly, Safe;
    SoundAtFirst();
    GoodAtFirst(id);
    assert Unused(INITIAL, id) by { NothingUsed(id); }
    FreshIsCareful(INITIAL, steps, id, {});
    CarefulFrom(INITIAL, steps, id);
    SinceFirst(After(INITIAL, steps), id);
  }

  lemma NothingUsed(id: string)
    ensures Unused(INITIAL, id)
  {
  }

  // ---- A client that uses one again ----

  /**
   * Once an end is written under an id, starting an operation under it again and letting it yield
   * breaks the order: three steps, whatever came before.
   */
  lemma ReusedAfterAnEnd(steps: seq<Step>, id: string)
    requires IsRun(INITIAL, steps)
    requires var w := After(INITIAL, steps);
             && w.ops.acknowledged && id !in w.ops.running && Free(w) && !w.closed
             && Orderly(WrittenUnder(w.wire, id), id) && Ended(WrittenUnder(w.wire, id))
    ensures var w := After(INITIAL, steps);
            var more := [Receive(Subscribe(id, true)), Proceed(|w.handlers|, true, 0), Item(w.ops.next, true, true)];
            IsRun(w, more) && !Orderly(WrittenUnder(After(w, more).wire, id), id)
  {
    hide IsRun, GatewayLaws.Sound;
    SoundAtFirst();
    EveryRunIsSound(INITIAL, steps);
    var w := After(INITIAL, steps);
    var a, b, c := Receive(Subscribe(id, true)), Proceed(|w.handlers|, true, 0), Item(w.ops.next, true, true);
    var w1 := Apply(w, a);
    assert w1.handlers[|w.handlers|] == Spawning(id, w.ops.next);
    var w2 := Apply(w1, b);
    assert w2.tasks[w.ops.next] == Task(id, Streaming) && w2.wire == w.wire && !w2.closed;
    ThreeSteps(w, a, b, c);
    UnderAppend(w.wire, Sent(Next(id), Some(w.ops.next)), id);
    OrderlyMore(WrittenUnder(w.wire, id), Next(id), id);
  }

  const ADMITTED: map<nat, Admitted> := map[0 := Admitted("a", None)]

  lemma InitDone() returns (steps: seq<Step>)
    ensures IsRun(INITIAL, steps)
    ensures After(INITIAL, steps) ==
            World(Operations(true, None, map[], 0), [Over], map[], {}, {}, [Sent(ConnectionAck, None)], map[],
              Some(0), false)
  {
    hide IsRun, After;
    NoSteps(INITIAL);
    steps := Extended([], Receive(ConnectionInit(None)));
    assert After(INITIAL, steps).handlers == [Acknowledging];
    steps := Extended(steps, Proceed(0, true, 0));
  }

  /** An operation under way, its stream ended and its `complete` still to be written. */
  lemma OneUnderWay() returns (steps: seq<Step>)
    ensures IsRun(INITIAL, steps)
    ensures After(INITIAL, steps) ==
            World(Operations(true, None, map["a" := 0], 1), [Over, Over], map[0 := Task("a", Completing)], {}, {},
                  [Sent(ConnectionAck, None)], ADMITTED, Some(1), false)
  {
    hide IsRun, After;
    steps := InitDone();
    steps := Extended(steps, Receive(Subscribe("a", true)));
    steps := Extended(steps, Proceed(1, true, 0));
    steps := Extended(steps, StreamEnd(0));
  }

  lemma Extended(steps: seq<Step>, step: Step) returns (more: seq<Step>)
    requires IsRun(INITIAL, steps) && Enabled(After(INITIAL, steps), step)
    ensures IsRun(INITIAL, more) && After(INITIAL, more) == Apply(After(INITIAL, steps), step)
  {
    RunThen(INITIAL, steps, step);
    more := steps + [step];
  }

  /** The client completes it: it is removed and cancelled, and writes its end all the same. */
  lemma CompletedByClient() returns (steps: seq<Step>)
    ensures IsRun(INITIAL, steps)
    ensures After(INITIAL, steps) ==
            World(Operations(true, None, map[], 1), [Over, Over, Over], map[0 := Task("a", Completing)], {0}, {},
                  [Sent(ConnectionAck, None)], ADMITTED, Some(2), false)
  {
    hide IsRun, After;
    steps := OneUnderWay();
    steps := Extended(steps, Receive(Complete("a")));
    assert After(INITIAL, steps).handlers == [Over, Over, Cancelling({0})];
    var first: set<nat> := {0};
    assert first - {0} == {};
    steps := Extended(steps, Proceed(2, true, 0));
    assert After(INITIAL, steps).handlers == [Over, Over, Cancelling({})];
    steps := Extended(steps, Proceed(2, true, 0));
  }

  /**
   * The order holds for each operation, not for each id: a client that completes an operation and
   * subscribes again under its id may still be sent the old operation's `complete`, and the new
   * one's `next` after it, though each message is handled before the next is received.
   */
  lemma ReusedIdInterleaves() returns (steps: seq<Step>)
    ensures IsRun(INITIAL, steps)
    ensures After(INITIAL, steps).wire ==
              [Sent(ConnectionAck, None), Sent(Completed("a"), Some(0)), Sent(Next("a"), Some(1))]
  {
    hide IsRun, After;
    steps := CompletedByClient();
    steps := Extended(steps, Receive(Subscribe("a", true)));
    steps := Extended(steps, Proceed(3, true, 0));
    var w := After(INITIAL, steps);
    assert w.tasks == map[0 := Task("a", Completing), 1 := Task("a", Streaming)] && !w.closed &&
      w.wire == [Sent(ConnectionAck, None)];
    steps := Extended(steps, WriteEnd(0, true));
    steps := Extended(steps, Item(1, true, true));
  }

  lemma ThreeSteps(w: World, a: Step, b: Step, c: Step)
    requires Enabled(w, a) && Enabled(Apply(w, a), b) && Enabled(Apply(Apply(w, a), b), c)
    ensures IsRun(w, [a, b, c]) && After(w, [a, b, c]) == Apply(Apply(Apply(w, a), b), c)
  {
    hide Enabled, Apply;
    NoSteps(Apply(Apply(Apply(w, a), b), c));
    assert [c][1..] == [] && [b, c][1..] == [c] && [a, b, c][1..] == [b, c];
    assert IsRun(Apply(Apply(w, a), b), [c]) && IsRun(Apply(w, a), [b, c]);
    assert After(Apply(Apply(w, a), b), [c]) == Apply(Apply(Apply(w, a), b), c);
    assert After(Apply(w, a), [b, c]) == After(Apply(Apply(w, a), b), [c]);
  }
}
