/** What every interleaving of the gateway keeps. */
module GatewayLaws {
  import opened Options
  import opened Gateway
  import opened GatewayRuns

  function One(b: bool): nat {
    if b then 1 else 0
  }

  // ---- Counting over handlers ----

  /** How many handlers are about to cancel the operation. */
  function Pending(handlers: seq<Handler>, seqno: nat): nat {
    if handlers == [] then 0
    else One(handlers[0].Cancelling? && seqno in handlers[0].removed) + Pending(handlers[1..], seqno)
  }

  /** How many are about to start it. */
  function Starting(handlers: seq<Handler>, seqno: nat): nat {
    if handlers == [] then 0
    else One(handlers[0].Spawning? && handlers[0].seqno == seqno) + Starting(handlers[1..], seqno)
  }

  function Acking(handlers: seq<Handler>): nat {
    if handlers == [] then 0 else One(handlers[0].Acknowledging?) + Acking(handlers[1..])
  }

  lemma {:induction false} CountAppend(handlers: seq<Handler>, h: Handler, seqno: nat)
    ensures Pending(handlers + [h], seqno) == Pending(handlers, seqno) + One(h.Cancelling? && seqno in h.removed)
    ensures Starting(handlers + [h], seqno) == Starting(handlers, seqno) + One(h.Spawning? && h.seqno == seqno)
    ensures Acking(handlers + [h]) == Acking(handlers) + One(h.Acknowledging?)
  {
    if handlers == [] {
      assert handlers + [h] == [h] && [h][1..] == [];
    } else {
      assert (handlers + [h])[1..] == handlers[1..] + [h];
      CountAppend(handlers[1..], h, seqno);
    }
  }

  lemma {:induction false} CountUpdate(handlers: seq<Handler>, k: nat, h: Handler, seqno: nat)
    requires k < |handlers|
    ensures var was, now := handlers[k], handlers[k := h];
            && Pending(now, seqno) + One(was.Cancelling? && seqno in was.removed) ==
              Pending(handlers, seqno) + One(h.Cancelling? && seqno in h.removed)
            && Starting(now, seqno) + One(was.Spawning? && was.seqno == seqno) ==
              Starting(handlers, seqno) + One(h.Spawning? && h.seqno == seqno)
            && Acking(now) + One(was.Acknowledging?) == Acking(handlers) + One(h.Acknowledging?)
  {
    if k == 0 {
      assert handlers[k := h][1..] == handlers[1..];
    } else {
      assert handlers[k := h][1..] == handlers[1..][k - 1 := h];
      CountUpdate(handlers[1..], k - 1, h, seqno);
    }
  }

  lemma {:induction false} SomePending(handlers: seq<Handler>, seqno: nat) returns (k: nat)
    requires Pending(handlers, seqno) > 0
    ensures k < |handlers| && handlers[k].Cancelling? && seqno in handlers[k].removed
  {
    if handlers[0].Cancelling? && seqno in handlers[0].removed {
      k := 0;
    } else {
      k := SomePending(handlers[1..], seqno);
      k := k + 1;
    }
  }

  lemma {:induction false} PendingAt(handlers: seq<Handler>, k: nat, seqno: nat)
    requires k < |handlers|
    ensures Pending(handlers, seqno) >= One(handlers[k].Cancelling? && seqno in handlers[k].removed)
    ensures Starting(handlers, seqno) >= One(handlers[k].Spawning? && handlers[k].seqno == seqno)
  {
    if k > 0 {
      PendingAt(handlers[1..], k - 1, seqno);
    }
  }

  // ---- What a step leaves alone ----

  lemma ReceivedFrame(w: World, message: ClientMessage)
    ensures var after := Received(w, message);
            && |after.handlers| == |w.handlers| + 1 && after.handlers == w.handlers + [after.handlers[|w.handlers|]]
            && after.tasks == w.tasks && after.cancelled == w.cancelled && after.forgotten == w.forgotten
            && after.wire == w.wire && after.closed == w.closed && after.busy == Some(|w.handlers|)
  {
  }

  lemma ProceededFrame(w: World, k: nat, written: bool, which: nat)
    requires k < |w.handlers|
    ensures var after := Proceeded(w, k, written, which);
            && |after.handlers| == |w.handlers| && after.handlers == w.handlers[k := after.handlers[k]]
            && after.forgotten == w.forgotten && after.admitted == w.admitted && after.busy == w.busy
            && w.cancelled <= after.cancelled && (w.closed ==> after.closed)
            && after.ops.acknowledged == w.ops.acknowledged && after.ops.payload == w.ops.payload &&
            after.ops.next == w.ops.next
  {
    hide Effect, NextOf;
    EffectFrame(w, w.handlers[k], written, which);
  }

  lemma EffectFrame(w: World, h: Handler, written: bool, which: nat)
    ensures var after := Effect(w, h, written, which);
            && after.handlers == w.handlers
            && after.forgotten == w.forgotten && after.admitted == w.admitted && after.busy == w.busy
            && w.cancelled <= after.cancelled && (w.closed ==> after.closed)
            && after.ops.acknowledged == w.ops.acknowledged && after.ops.payload == w.ops.payload &&
            after.ops.next == w.ops.next
  {
  }

  /** The handler a step begins, or goes on with. */
  lemma StepHandlers(w: World, step: Step)
    requires Enabled(w, step)
    ensures var after := Apply(w, step);
            if step.Receive? || step.TimeOut? || step.Disconnect? then
              |after.handlers| == |w.handlers| + 1 && after.handlers == w.handlers + [after.handlers[|w.handlers|]]
            else if step.Proceed? then
              |after.handlers| == |w.handlers| && after.handlers == w.handlers[step.k := after.handlers[step.k]]
            else after.handlers == w.handlers
  {
    hide Received, Proceeded;
    if step.Receive? {
      ReceivedFrame(w, step.message);
    } else if step.Proceed? {
      ProceededFrame(w, step.k, step.written, step.which);
    }
  }

  // ---- The account of every operation ----

  predicate InTable(w: World, seqno: nat) {
    seqno in w.ops.running.Values
  }

  /** Where an operation is: in the table, on its way to be cancelled, cancelled, or forgotten at its own end. */
  function Places(w: World, seqno: nat): nat {
    One(InTable(w, seqno)) + Pending(w.handlers, seqno) + One(seqno in w.cancelled) + One(seqno in w.forgotten)
  }

  /** Every admitted operation is in exactly one place, and no other operation is anywhere. */
  ghost predicate Accounted(w: World) {
    forall seqno: nat :: Places(w, seqno) == One(seqno in w.admitted)
  }

  /** Sequence numbers are given once, in order, and the table holds each under the id it was admitted with. */
  predicate Numbered(w: World) {
    && (forall seqno | seqno in w.admitted :: seqno < w.ops.next)
    && (forall id | id in w.ops.running :: w.ops.running[id] in w.admitted && w.admitted[w.ops.running[id]].id == id)
  }

  /** Each admitted operation is about to start or has started, once. */
  ghost predicate Started(w: World) {
    && (forall seqno: nat :: Starting(w.handlers, seqno) + One(seqno in w.tasks) == One(seqno in w.admitted))
    && (forall seqno | seqno in w.tasks :: seqno in w.admitted && w.tasks[seqno].id == w.admitted[seqno].id)
    && (forall k | 0 <= k < |w.handlers| && w.handlers[k].Spawning? ::
          w.handlers[k].seqno in w.admitted && w.admitted[w.handlers[k].seqno].id == w.handlers[k].id)
  }

  lemma UniqueInTable(w: World, one: string, other: string)
    requires Numbered(w) && one in w.ops.running && other in w.ops.running && w.ops.running[one] == w.ops.running[other]
    ensures one == other
  {
  }

  // ---- Each step keeps the account ----

  lemma NumberedKept(w: World, step: Step)
    requires Numbered(w) && Enabled(w, step)
    ensures Numbered(Apply(w, step))
  {
    match step
    case Receive(message) => NumberedReceive(w, message);
    case Proceed(k, written, which) =>
      hide Numbered;
      ProceedKeepsOps(w, k, written, which);
      NumberedLess(w, Proceeded(w, k, written, which));
    case Finish(seqno) =>
      hide Numbered;
      NumberedLess(w, Apply(w, step));
    case _ =>
  }

  /** No more is in the table, and nothing new was admitted. */
  predicate Fewer(w: World, after: World) {
    && after.admitted == w.admitted && after.ops.next == w.ops.next
    && forall id | id in after.ops.running :: id in w.ops.running && after.ops.running[id] == w.ops.running[id]
  }

  lemma ProceedKeepsOps(w: World, k: nat, written: bool, which: nat)
    requires k < |w.handlers|
    ensures Fewer(w, Proceeded(w, k, written, which))
  {
  }

  lemma NumberedLess(w: World, after: World)
    requires Numbered(w) && Fewer(w, after)
    ensures Numbered(after)
  {
  }

  lemma NumberedReceive(w: World, message: ClientMessage)
    requires Numbered(w)
    ensures Numbered(Received(w, message))
  {
    var after := Received(w, message);
    match message
    case Subscribe(id, accepting) =>
      if OnSubscribe(w.ops, id, accepting).1.Open? {
        NumberedOpen(w, after, id);
      }
    case _ => NumberedLess(w, after);
  }

  lemma NumberedOpen(w: World, after: World, id: string)
    requires Numbered(w) && id !in w.ops.running
    requires after.ops.running == w.ops.running[id := w.ops.next] && after.ops.next == w.ops.next + 1
    requires w.ops.next !in w.admitted && after.admitted == w.admitted[w.ops.next := Admitted(id, after.ops.payload)]
    ensures Numbered(after)
  {
  }

  lemma AccountedKept(w: World, step: Step)
    requires Numbered(w) && Accounted(w) && Started(w) && Enabled(w, step)
    ensures Accounted(Apply(w, step))
  {
    hide Received, Proceeded, Pending, InTable, Numbered, Started;
    var after := Apply(w, step);
    forall seqno: nat
      ensures Places(after, seqno) == One(seqno in after.admitted)
    {
      assert Places(w, seqno) == One(seqno in w.admitted);
      match step
      case Receive(message) => AccountedReceive(w, message, seqno);
      case TimeOut =>
        SameTable(w, after, seqno);
        CountAppend(w.handlers, Closing, seqno);
      case Disconnect =>
        SameTable(w, after, seqno);
        CountAppend(w.handlers, Emptying, seqno);
      case Proceed(k, written, which) => AccountedProceed(w, k, written, which, seqno);
      case Finish(mine) => AccountedFinish(w, mine, seqno);
      case _ => SameTable(w, after, seqno);
    }
  }

  lemma AccountedReceive(w: World, message: ClientMessage, seqno: nat)
    requires Numbered(w) && Places(w, seqno) == One(seqno in w.admitted)
    ensures var after := Received(w, message); Places(after, seqno) == One(seqno in after.admitted)
  {
    hide Pending, InTable, Numbered, Received;
    var after := Received(w, message);
    ReceivedFrame(w, message);
    CountAppend(w.handlers, after.handlers[|w.handlers|], seqno);
    if message.Subscribe? && OnSubscribe(w.ops, message.id, message.accepting).1.Open? {
      OpenReceived(w, message);
      InsertedInTable(w, after, message.id, seqno);
    } else if message.Complete? && message.id in w.ops.running {
      CompleteReceived(w, message);
      RemovedFromTable(w, after, message.id, seqno);
    } else {
      OtherReceived(w, message);
      SameTable(w, after, seqno);
    }
  }

  lemma OpenReceived(w: World, message: ClientMessage)
    requires message.Subscribe? && OnSubscribe(w.ops, message.id, message.accepting).1.Open?
    ensures var after := Received(w, message);
            && after.handlers[|w.handlers|] == Spawning(message.id, w.ops.next)
            && after.ops == w.ops.(running := w.ops.running[message.id := w.ops.next], next := w.ops.next + 1)
            && after.admitted == w.admitted[w.ops.next := Admitted(message.id, w.ops.payload)]
  {
  }

  lemma CompleteReceived(w: World, message: ClientMessage)
    requires message.Complete? && message.id in w.ops.running
    ensures var after := Received(w, message);
            && after.handlers[|w.handlers|] == Cancelling({w.ops.running[message.id]})
            && after.ops == w.ops.(running := w.ops.running - {message.id}) && after.admitted == w.admitted
  {
  }

  lemma OtherReceived(w: World, message: ClientMessage)
    requires !(message.Subscribe? && OnSubscribe(w.ops, message.id, message.accepting).1.Open?)
    requires !(message.Complete? && message.id in w.ops.running)
    ensures var after, h := Received(w, message), Received(w, message).handlers[|w.handlers|];
            && after.ops.running == w.ops.running && after.ops.next == w.ops.next && after.admitted == w.admitted
            && (h.Cancelling? ==> h.removed == {}) && !h.Spawning?
  {
  }

  lemma InsertedInTable(w: World, after: World, id: string, seqno: nat)
    requires Numbered(w) && id !in w.ops.running && after.ops.running == w.ops.running[id := w.ops.next]
    ensures InTable(after, seqno) <==> InTable(w, seqno) || seqno == w.ops.next
    ensures w.ops.next !in w.admitted && !InTable(w, w.ops.next)
  {
    TableInsert(w.ops.running, id, w.ops.next, seqno);
  }

  lemma RemovedFromTable(w: World, after: World, id: string, seqno: nat)
    requires Numbered(w) && id in w.ops.running && after.ops.running == w.ops.running - {id}
    ensures InTable(after, seqno) <==> InTable(w, seqno) && seqno != w.ops.running[id]
    ensures InTable(w, w.ops.running[id])
  {
    TableRemove(w, id, seqno);
  }

  lemma TableInsert(running: map<string, nat>, id: string, next: nat, seqno: nat)
    requires id !in running
    ensures seqno in running[id := next].Values <==> seqno in running.Values || seqno == next
  {
    var more := running[id := next];
    if seqno in running.Values {
      var other :| other in running && running[other] == seqno;
      assert more[other] == seqno;
    }
    assert more[id] == next;
  }

  /** A table holds each number once, so without its id it does not hold it. */
  lemma TableRemove(w: World, id: string, seqno: nat)
    requires Numbered(w) && id in w.ops.running
    ensures seqno in (w.ops.running - {id}).Values <==> seqno in w.ops.running.Values && seqno != w.ops.running[id]
  {
    var less := w.ops.running - {id};
    if seqno in less.Values {
      var other :| other in less && less[other] == seqno;
      assert w.ops.running[other] == seqno;
      if seqno == w.ops.running[id] {
        UniqueInTable(w, id, other);
      }
    }
    if seqno in w.ops.running.Values && seqno != w.ops.running[id] {
      var other :| other in w.ops.running && w.ops.running[other] == seqno;
      assert less[other] == seqno;
    }
  }

  lemma AccountedProceed(w: World, k: nat, written: bool, which: nat, seqno: nat)
    requires Numbered(w) && Enabled(w, Proceed(k, written, which)) && Places(w, seqno) == One(seqno in w.admitted)
    ensures var after := Proceeded(w, k, written, which); Places(after, seqno) == One(seqno in after.admitted)
  {
    hide Pending, Numbered, InTable, Proceeded;
    var after := Proceeded(w, k, written, which);
    ProceededFrame(w, k, written, which);
    CountUpdate(w.handlers, k, after.handlers[k], seqno);
    PendingAt(w.handlers, k, seqno);
    if w.handlers[k].Emptying? {
      EmptyingGoes(w, k, written, which);
      Emptied(w, after, seqno);
    } else {
      OthersGo(w, k, written, which);
      SameTable(w, after, seqno);
    }
  }

  lemma EmptyingGoes(w: World, k: nat, written: bool, which: nat)
    requires k < |w.handlers| && w.handlers[k].Emptying?
    ensures var after := Proceeded(w, k, written, which);
            after.ops.running == map[] && after.handlers[k] == Cancelling(OnDrain(w.ops).1) &&
            after.cancelled == w.cancelled
  {
  }

  lemma OthersGo(w: World, k: nat, written: bool, which: nat)
    requires k < |w.handlers| && !w.handlers[k].Emptying?
    ensures var was, after := w.handlers[k], Proceeded(w, k, written, which);
            && after.ops.running == w.ops.running
            && (if was.Cancelling? && was.removed != {} then
                  after.handlers[k] == Cancelling(was.removed - {which}) && after.cancelled == w.cancelled + {which}
                else !after.handlers[k].Cancelling? && after.cancelled == w.cancelled)
  {
  }

  lemma SameTable(w: World, after: World, seqno: nat)
    requires after.ops.running == w.ops.running
    ensures InTable(after, seqno) == InTable(w, seqno)
  {
  }

  lemma Emptied(w: World, after: World, seqno: nat)
    requires after.ops.running == map[]
    ensures !InTable(after, seqno) && (InTable(w, seqno) <==> seqno in OnDrain(w.ops).1)
  {
  }

  lemma AccountedFinish(w: World, mine: nat, seqno: nat)
    requires Numbered(w) && Enabled(w, Finish(mine)) && Places(w, seqno) == One(seqno in w.admitted)
    ensures var after := Apply(w, Finish(mine)); Places(after, seqno) == One(seqno in after.admitted)
  {
    hide Pending, InTable, Numbered;
    var id, after := w.tasks[mine].id, Apply(w, Finish(mine));
    if id in w.ops.running && w.ops.running[id] == mine {
      RemovedFromTable(w, after, id, seqno);
    } else {
      SameTable(w, after, seqno);
    }
  }

  lemma StartedKept(w: World, step: Step)
    requires Numbered(w) && Started(w) && Enabled(w, step)
    ensures Started(Apply(w, step))
  {
    hide Numbered, Started, Starting;
    var after := Apply(w, step);
    match step
    case Receive(message) => StartedReceive(w, message);
    case TimeOut => StartedWith(w, w, Closing);
    case Disconnect => StartedWith(w, w.(closed := true), Emptying);
    case Proceed(k, written, which) => StartedProceed(w, k, written, which);
    case _ => StartedPhase(w, after);
  }

  /** Only phases changed. */
  lemma StartedPhase(w: World, after: World)
    requires Started(w) && after.handlers == w.handlers && after.admitted == w.admitted &&
             after.tasks.Keys == w.tasks.Keys
    requires forall seqno | seqno in w.tasks :: after.tasks[seqno].id == w.tasks[seqno].id
    ensures Started(after)
  {
    hide Starting;
    forall seqno: nat
      ensures Starting(after.handlers, seqno) + One(seqno in after.tasks) == One(seqno in after.admitted)
    {
      assert Starting(w.handlers, seqno) + One(seqno in w.tasks) == One(seqno in w.admitted);
    }
  }

  /** A handler that starts nothing. */
  lemma StartedWith(w: World, base: World, h: Handler)
    requires Started(w) && base.handlers == w.handlers && base.admitted == w.admitted && base.tasks == w.tasks &&
             !h.Spawning?
    ensures Started(With(base, h))
  {
    hide Starting;
    forall seqno: nat
      ensures Starting(w.handlers + [h], seqno) + One(seqno in w.tasks) == One(seqno in w.admitted)
    {
      CountAppend(w.handlers, h, seqno);
      assert Starting(w.handlers, seqno) + One(seqno in w.tasks) == One(seqno in w.admitted);
    }
  }

  lemma StartedReceive(w: World, message: ClientMessage)
    requires Numbered(w) && Started(w)
    ensures Started(Received(w, message))
  {
    hide Started;
    var after := Received(w, message);
    if message.Subscribe? && OnSubscribe(w.ops, message.id, message.accepting).1.Open? {
      StartedOpen(w, after, message.id);
    } else {
      var h := after.handlers[|w.handlers|];
      StartedWith(w, w.(ops := after.ops, busy := after.busy), h);
    }
  }

  lemma StartedOpen(w: World, after: World, id: string)
    requires Started(w) && w.ops.next !in w.admitted
    requires after.handlers == w.handlers + [Spawning(id, w.ops.next)] && after.tasks == w.tasks
    requires exists payload :: after.admitted == w.admitted[w.ops.next := Admitted(id, payload)]
    ensures Started(after)
  {
    hide Starting;
    forall seqno: nat
      ensures Starting(after.handlers, seqno) + One(seqno in after.tasks) == One(seqno in after.admitted)
    {
      CountAppend(w.handlers, Spawning(id, w.ops.next), seqno);
      assert Starting(w.handlers, seqno) + One(seqno in w.tasks) == One(seqno in w.admitted);
    }
  }

  lemma StartedProceed(w: World, k: nat, written: bool, which: nat)
    requires Started(w) && k < |w.handlers|
    ensures Started(Proceeded(w, k, written, which))
  {
    hide Started;
    var after := Proceeded(w, k, written, which);
    if w.handlers[k].Spawning? {
      StartedSpawn(w, after, k);
    } else {
      StartedAt(w, after, k, after.handlers[k]);
    }
  }

  /** A handler that starts nothing goes on to start nothing. */
  lemma StartedAt(w: World, after: World, k: nat, h: Handler)
    requires Started(w) && k < |w.handlers| && !w.handlers[k].Spawning? && !h.Spawning?
    requires after.handlers == w.handlers[k := h] && after.admitted == w.admitted && after.tasks == w.tasks
    ensures Started(after)
  {
    hide Starting;
    forall seqno: nat
      ensures Starting(after.handlers, seqno) + One(seqno in after.tasks) == One(seqno in after.admitted)
    {
      CountUpdate(w.handlers, k, h, seqno);
      assert Starting(w.handlers, seqno) + One(seqno in w.tasks) == One(seqno in w.admitted);
    }
  }

  lemma StartedSpawn(w: World, after: World, k: nat)
    requires Started(w) && k < |w.handlers| && w.handlers[k].Spawning?
    requires after.handlers == w.handlers[k := Over] && after.admitted == w.admitted
    requires after.tasks == w.tasks[w.handlers[k].seqno := Task(w.handlers[k].id, Streaming)]
    ensures Started(after)
  {
    hide Starting;
    forall seqno: nat
      ensures Starting(after.handlers, seqno) + One(seqno in after.tasks) == One(seqno in after.admitted)
    {
      CountUpdate(w.handlers, k, Over, seqno);
      PendingAt(w.handlers, k, seqno);
      assert Starting(w.handlers, seqno) + One(seqno in w.tasks) == One(seqno in w.admitted);
    }
  }

  // ---- Acknowledgement ----

  function AcksIn(wire: seq<Sent>): nat {
    if wire == [] then 0 else One(wire[0].message.ConnectionAck?) + AcksIn(wire[1..])
  }

  lemma {:induction false} AcksAppend(wire: seq<Sent>, sent: Sent)
    ensures AcksIn(wire + [sent]) == AcksIn(wire) + One(sent.message.ConnectionAck?)
  {
    if wire == [] {
      assert wire + [sent] == [sent] && [sent][1..] == [];
    } else {
      assert (wire + [sent])[1..] == wire[1..] + [sent];
      AcksAppend(wire[1..], sent);
    }
  }

  /** One `connection_ack` at most, and none before the accepted `connection_init`. */
  predicate AckedOnce(w: World) {
    AcksIn(w.wire) + Acking(w.handlers) <= One(w.ops.acknowledged)
  }

  /** Nothing is admitted before it, and every operation can read its payload. */
  predicate PayloadStands(w: World) {
    && (w.admitted != map[] ==> w.ops.acknowledged)
    && (forall seqno | seqno in w.admitted :: w.admitted[seqno].payload == w.ops.payload)
  }

  predicate Acknowledged(w: World) {
    AckedOnce(w) && PayloadStands(w)
  }

  lemma AcknowledgedKept(w: World, step: Step)
    requires Acknowledged(w) && Enabled(w, step)
    ensures Acknowledged(Apply(w, step))
  {
    hide PayloadStands, AckedOnce;
    AckedOnceKept(w, step);
    PayloadKept(w, step);
  }

  lemma AckedOnceKept(w: World, step: Step)
    requires AckedOnce(w) && Enabled(w, step)
    ensures AckedOnce(Apply(w, step))
  {
    hide Acking, AcksIn, Received, Proceeded, AckedOnce;
    match step
    case Receive(message) => AckedReceive(w, message);
    case TimeOut => AckedBegin(w, w, Closing);
    case Disconnect => AckedBegin(w, w.(closed := true), Emptying);
    case Proceed(k, written, which) => AckedProceed(w, k, written, which);
    case Item(_, _, _) => AckedWrite(w, Apply(w, step));
    case WriteEnd(_, _) => AckedWrite(w, Apply(w, step));
    case StreamEnd(_) => AckedWrite(w, Apply(w, step));
    case Stop(_) => AckedWrite(w, Apply(w, step));
    case Finish(_) => AckedWrite(w, Apply(w, step));
  }

  lemma AckedBegin(w: World, base: World, h: Handler)
    requires AckedOnce(w) && base.handlers == w.handlers && base.wire == w.wire && base.ops == w.ops &&
             !h.Acknowledging?
    ensures AckedOnce(With(base, h))
  {
    hide Acking, AcksIn;
    CountAppend(w.handlers, h, 0);
  }

  lemma AckedReceive(w: World, message: ClientMessage)
    requires AckedOnce(w)
    ensures AckedOnce(Received(w, message))
  {
    hide Acking, AcksIn;
    CountAppend(w.handlers, Received(w, message).handlers[|w.handlers|], 0);
  }

  lemma AckedWrite(w: World, after: World)
    requires AckedOnce(w) && after.handlers == w.handlers && after.ops.acknowledged == w.ops.acknowledged
    requires after.wire == w.wire ||
             (|after.wire| > 0 && after.wire == w.wire + [after.wire[|after.wire| - 1]] &&
             !after.wire[|after.wire| - 1].message.ConnectionAck?)
    ensures AckedOnce(after)
  {
    hide Acking, AcksIn;
    if after.wire != w.wire {
      AcksAppend(w.wire, after.wire[|after.wire| - 1]);
    }
  }

  lemma AckedProceed(w: World, k: nat, written: bool, which: nat)
    requires AckedOnce(w) && k < |w.handlers|
    ensures AckedOnce(Proceeded(w, k, written, which))
  {
    hide Acking, AcksIn;
    var after := Proceeded(w, k, written, which);
    CountUpdate(w.handlers, k, after.handlers[k], 0);
    if written && w.handlers[k].Acknowledging? {
      AcksAppend(w.wire, Sent(ConnectionAck, None));
    } else if written && w.handlers[k].Answering? {
      AcksAppend(w.wire, Sent(Pong, None));
    } else if written && w.handlers[k].Refusing? {
      AcksAppend(w.wire, Sent(Error(w.handlers[k].id), None));
    }
  }

  lemma PayloadKept(w: World, step: Step)
    requires PayloadStands(w) && Enabled(w, step)
    ensures PayloadStands(Apply(w, step))
  {
    hide Received, Proceeded, PayloadStands;
    if step.Receive? {
      PayloadReceive(w, step.message);
    } else {
      if step.Proceed? {
        ProceededFrame(w, step.k, step.written, step.which);
      }
      PayloadSame(w, Apply(w, step));
    }
  }

  lemma PayloadSame(w: World, after: World)
    requires PayloadStands(w) && after.admitted == w.admitted
    requires after.ops.acknowledged == w.ops.acknowledged && after.ops.payload == w.ops.payload
    ensures PayloadStands(after)
  {
  }

  lemma PayloadReceive(w: World, message: ClientMessage)
    requires PayloadStands(w)
    ensures PayloadStands(Received(w, message))
  {
    if message.Subscribe? {
      var (ops, admission) := OnSubscribe(w.ops, message.id, message.accepting);
    } else if message.Complete? {
      PayloadSame(w, Received(w, message));
    }
  }

  // ---- What each operation writes ----

  /** The frames written for an operation, in order. */
  function WrittenFor(wire: seq<Sent>, seqno: nat): seq<ServerMessage> {
    if wire == [] then []
    else (if wire[0].op == Some(seqno) then [wire[0].message] else []) + WrittenFor(wire[1..], seqno)
  }

  lemma {:induction false} WrittenAppend(wire: seq<Sent>, sent: Sent, seqno: nat)
    ensures WrittenFor(wire + [sent], seqno) ==
              WrittenFor(wire, seqno) + if sent.op == Some(seqno) then [sent.message] else []
  {
    if wire == [] {
      assert wire + [sent] == [sent] && [sent][1..] == [];
    } else {
      assert (wire + [sent])[1..] == wire[1..] + [sent];
      WrittenAppend(wire[1..], sent, seqno);
      var first := if wire[0].op == Some(seqno) then [wire[0].message] else [];
      var last := if sent.op == Some(seqno) then [sent.message] else [];
      assert first + (WrittenFor(wire[1..], seqno) + last) == first + WrittenFor(wire[1..], seqno) + last;
    }
  }

  predicate IsEnd(m: ServerMessage) {
    m.Completed? || m.Error?
  }

  /** `next` messages, then at most one of `complete` or `error`, all under `id`. */
  predicate Orderly(messages: seq<ServerMessage>, id: string) {
    && (forall i | 0 <= i < |messages| :: (messages[i].Next? || IsEnd(messages[i])) && messages[i].id == id)
    && (forall i | 0 <= i < |messages| - 1 :: messages[i].Next?)
  }

  predicate Ended(messages: seq<ServerMessage>) {
    messages != [] && IsEnd(messages[|messages| - 1])
  }

  /** Each operation's frames are in order, and one that has written its end writes nothing more. */
  predicate OrderlyFor(w: World, seqno: nat) {
    var messages := WrittenFor(w.wire, seqno);
    && (seqno !in w.tasks ==> messages == [])
    && (seqno in w.tasks ==>
          && Orderly(messages, w.tasks[seqno].id)
          && (Ended(messages) ==> w.tasks[seqno].phase.Ending? || w.tasks[seqno].phase.Gone?))
  }

  ghost predicate AllOrderly(w: World) {
    forall seqno: nat :: OrderlyFor(w, seqno)
  }

  lemma OrderlyKept(w: World, step: Step)
    requires AllOrderly(w) && Started(w) && Enabled(w, step)
    ensures AllOrderly(Apply(w, step))
  {
    hide Started, OrderlyFor;
    var after := Apply(w, step);
    forall seqno: nat
      ensures OrderlyFor(after, seqno)
    {
      assert OrderlyFor(w, seqno);
      match step
      case Proceed(k, written, which) => OrderlyProceed(w, k, written, which, seqno);
      case Item(_, _, _) => OrderlyWrite(w, step, seqno);
      case WriteEnd(_, _) => OrderlyWrite(w, step, seqno);
      case StreamEnd(_) => OrderlyQuiet(w, step, seqno);
      case Stop(_) => OrderlyQuiet(w, step, seqno);
      case Finish(_) => OrderlyQuiet(w, step, seqno);
      case Receive(_) => OrderlySame(w, after, seqno);
      case TimeOut => OrderlySame(w, after, seqno);
      case Disconnect => OrderlySame(w, after, seqno);
    }
  }

  lemma OrderlySame(w: World, after: World, seqno: nat)
    requires OrderlyFor(w, seqno) && after.wire == w.wire && after.tasks == w.tasks
    ensures OrderlyFor(after, seqno)
  {
  }

  lemma OrderlyProceed(w: World, k: nat, written: bool, which: nat, seqno: nat)
    requires OrderlyFor(w, seqno) && Started(w) && k < |w.handlers|
    ensures OrderlyFor(Proceeded(w, k, written, which), seqno)
  {
    hide Started, WrittenFor, Orderly, Ended;
    var after := Proceeded(w, k, written, which);
    if |after.wire| > |w.wire| {
      WrittenAppend(w.wire, after.wire[|w.wire|], seqno);
      assert WrittenFor(w.wire, seqno) + [] == WrittenFor(w.wire, seqno);
    }
    if w.handlers[k].Spawning? {
      NotYetStarted(w, k);
      NothingOrderly(w.handlers[k].id);
    }
  }

  lemma NothingOrderly(id: string)
    ensures Orderly([], id) && !Ended([])
  {
  }

  lemma NotYetStarted(w: World, k: nat)
    requires Started(w) && k < |w.handlers| && w.handlers[k].Spawning?
    ensures w.handlers[k].seqno !in w.tasks
  {
    hide Starting;
    var seqno := w.handlers[k].seqno;
    PendingAt(w.handlers, k, seqno);
    assert Starting(w.handlers, seqno) + One(seqno in w.tasks) == One(seqno in w.admitted);
  }

  lemma OrderlyWrite(w: World, step: Step, seqno: nat)
    requires OrderlyFor(w, seqno) && Enabled(w, step) && (step.Item? || step.WriteEnd?)
    ensures OrderlyFor(Apply(w, step), seqno)
  {
    hide WrittenFor, Orderly, Ended;
    var after := Apply(w, step);
    var messages := WrittenFor(w.wire, seqno);
    if |after.wire| > |w.wire| {
      var sent := after.wire[|w.wire|];
      WrittenAppend(w.wire, sent, seqno);
      assert messages + [] == messages;
      if step.seqno == seqno {
        OrderlyAppend(messages, sent.message, w.tasks[seqno].id);
      }
    }
  }

  lemma OrderlyAppend(messages: seq<ServerMessage>, m: ServerMessage, id: string)
    requires Orderly(messages, id) && !Ended(messages) && (m.Next? || IsEnd(m)) && m.id == id
    ensures Orderly(messages + [m], id) && (Ended(messages + [m]) <==> IsEnd(m))
  {
    var more := messages + [m];
    assert more[|messages|] == m && forall i | 0 <= i < |messages| :: more[i] == messages[i];
  }

  lemma OrderlyQuiet(w: World, step: Step, seqno: nat)
    requires OrderlyFor(w, seqno) && Enabled(w, step) && (step.StreamEnd? || step.Stop? || step.Finish?)
    ensures OrderlyFor(Apply(w, step), seqno)
  {
    hide WrittenFor;
  }

  // ---- Over every run ----

  ghost predicate Sound(w: World) {
    Numbered(w) && Started(w) && Accounted(w) && Acknowledged(w) && AllOrderly(w)
  }

  lemma SoundAtFirst()
    ensures Sound(INITIAL)
  {
    forall seqno: nat
      ensures Places(INITIAL, seqno) == 0 && Starting(INITIAL.handlers, seqno) == 0 && OrderlyFor(INITIAL, seqno)
    {
    }
  }

  lemma SoundStep(w: World, step: Step)
    requires Sound(w) && Enabled(w, step)
    ensures Sound(Apply(w, step))
  {
    hide Numbered, Started, Accounted, Acknowledged, AllOrderly, Apply, Enabled;
    NumberedKept(w, step);
    StartedKept(w, step);
    AccountedKept(w, step);
    AcknowledgedKept(w, step);
    OrderlyKept(w, step);
  }

  /** The invariant of every interleaving. */
  lemma {:induction false} EveryRunIsSound(w: World, steps: seq<Step>)
    requires Sound(w) && IsRun(w, steps)
    ensures Sound(After(w, steps))
    decreases |steps|
  {
    hide Sound, Apply, Enabled;
    if steps != [] {
      SoundStep(w, steps[0]);
      EveryRunIsSound(Apply(w, steps[0]), steps[1..]);
    }
  }

  /**
   * After any run: each operation number was given once, and each admitted operation is in the table,
   * about to be cancelled, cancelled, or forgotten at its own end, in exactly one of these.
   */
  lemma OperationsAreAccountedFor(steps: seq<Step>, seqno: nat)
    requires IsRun(INITIAL, steps)
    ensures var w := After(INITIAL, steps);
            && Places(w, seqno) == One(seqno in w.admitted)
            && (seqno in w.admitted ==> seqno < w.ops.next)
            && (forall one, other | one in w.ops.running && other in w.ops.running &&
            w.ops.running[one] == w.ops.running[other] :: one == other)
  {
    hide Places;
    SoundAtFirst();
    EveryRunIsSound(INITIAL, steps);
  }

  /** An operation leaves the table only by its own end, or by a removal that goes on to cancel it. */
  lemma LeavesByItsEndOrToBeCancelled(steps: seq<Step>, step: Step, seqno: nat)
    requires IsRun(INITIAL, steps) && Enabled(After(INITIAL, steps), step)
    requires InTable(After(INITIAL, steps), seqno) && !InTable(Apply(After(INITIAL, steps), step), seqno)
    ensures step == Finish(seqno) || Pending(Apply(After(INITIAL, steps), step).handlers, seqno) == 1
  {
    hide IsRun, InTable, Pending;
    SoundAtFirst();
    EveryRunIsSound(INITIAL, steps);
    var w := After(INITIAL, steps);
    AccountedKept(w, step);
    LeavingIsPending(w, step, seqno);
  }

  lemma LeavingIsPending(w: World, step: Step, seqno: nat)
    requires Numbered(w) && Accounted(w) && Enabled(w, step) && Accounted(Apply(w, step))
    requires InTable(w, seqno) && !InTable(Apply(w, step), seqno)
    ensures step == Finish(seqno) || Pending(Apply(w, step).handlers, seqno) == 1
  {
    hide Pending, Numbered, InTable;
    var after := Apply(w, step);
    assert Places(w, seqno) == One(seqno in w.admitted);
    assert Places(after, seqno) == One(seqno in after.admitted);
    if step.Finish? {
      if step.seqno != seqno {
        LateFinish(w, step.seqno, seqno);
      }
    } else {
      KeepsCancelled(w, step, seqno);
    }
  }

  /** No step but a handler's cancels, and it cancels what was removed before. */
  lemma KeepsCancelled(w: World, step: Step, seqno: nat)
    requires Enabled(w, step) && !step.Finish?
    ensures var after := Apply(w, step);
            && after.forgotten == w.forgotten
            && (seqno in w.admitted ==> seqno in after.admitted)
            && (seqno in after.cancelled && seqno !in w.cancelled ==> Pending(w.handlers, seqno) > 0)
  {
    hide Pending, Received, Proceeded;
    if step.Proceed? {
      ProceededFrame(w, step.k, step.written, step.which);
      PendingAt(w.handlers, step.k, seqno);
      if w.handlers[step.k].Emptying? {
        EmptyingGoes(w, step.k, step.written, step.which);
      } else {
        OthersGo(w, step.k, step.written, step.which);
      }
    } else if step.Receive? {
      ReceivedFrame(w, step.message);
      AdmitsMore(w, step.message, seqno);
    }
  }

  lemma AdmitsMore(w: World, message: ClientMessage, seqno: nat)
    ensures seqno in w.admitted ==> seqno in Received(w, message).admitted
  {
  }

  /** A late end never removes a newer operation under the same id: it removes its own or none. */
  lemma LateFinish(w: World, mine: nat, seqno: nat)
    requires Numbered(w) && Enabled(w, Finish(mine)) && InTable(w, seqno) && seqno != mine
    ensures InTable(Apply(w, Finish(mine)), seqno)
  {
    hide Numbered, InTable;
    var id, after := w.tasks[mine].id, Apply(w, Finish(mine));
    if id in w.ops.running && w.ops.running[id] == mine {
      RemovedFromTable(w, after, id, seqno);
    } else {
      SameTable(w, after, seqno);
    }
  }

  /** No step takes an operation off its way to be cancelled, but the one that cancels it. */
  lemma PendingStays(w: World, step: Step, seqno: nat)
    requires Enabled(w, step) && (Pending(w.handlers, seqno) > 0 || seqno in w.cancelled)
    ensures var after := Apply(w, step); Pending(after.handlers, seqno) > 0 || seqno in after.cancelled
  {
    hide Pending, Received, Proceeded;
    var after := Apply(w, step);
    StepHandlers(w, step);
    if step.Receive? {
      ReceivedFrame(w, step.message);
      CountAppend(w.handlers, after.handlers[|w.handlers|], seqno);
    } else if step.TimeOut? || step.Disconnect? {
      CountAppend(w.handlers, after.handlers[|w.handlers|], seqno);
    } else if step.Proceed? {
      PendingProceed(w, step.k, step.written, step.which, seqno);
    }
  }

  lemma PendingProceed(w: World, k: nat, written: bool, which: nat, seqno: nat)
    requires Enabled(w, Proceed(k, written, which)) && (Pending(w.handlers, seqno) > 0 || seqno in w.cancelled)
    ensures var after := Proceeded(w, k, written, which); Pending(after.handlers, seqno) > 0 || seqno in after.cancelled
  {
    hide Pending;
    CountUpdate(w.handlers, k, Proceeded(w, k, written, which).handlers[k], seqno);
  }

  /**
   * Whatever runs, an operation on its way to be cancelled is cancelled or still on its way, and one
   * step of the handler that removed it cancels it.
   */
  lemma {:induction false} PendingIsCancelled(w: World, steps: seq<Step>, seqno: nat) returns (step: Step)
    requires IsRun(w, steps) && (Pending(w.handlers, seqno) > 0 || seqno in w.cancelled)
    ensures var end := After(w, steps);
            seqno in end.cancelled ||
            (Pending(end.handlers, seqno) > 0 && Enabled(end, step) && seqno in Apply(end, step).cancelled)
    decreases |steps|
  {
    hide Pending;
    if steps != [] {
      PendingStays(w, steps[0], seqno);
      step := PendingIsCancelled(Apply(w, steps[0]), steps[1..], seqno);
    } else if seqno !in w.cancelled {
      var k := SomePending(w.handlers, seqno);
      step := Proceed(k, false, seqno);
    } else {
      step := Disconnect;
    }
  }

  /** What a client sees of one operation, and of the acknowledgement. */
  lemma EachOperationIsOrderly(steps: seq<Step>, seqno: nat)
    requires IsRun(INITIAL, steps)
    ensures var w := After(INITIAL, steps);
            && (seqno in w.admitted ==> Orderly(WrittenFor(w.wire, seqno), w.admitted[seqno].id))
            && (seqno !in w.admitted ==> WrittenFor(w.wire, seqno) == [])
            && AcksIn(w.wire) <= 1
            && (seqno in w.admitted ==> w.ops.acknowledged && w.admitted[seqno].payload == w.ops.payload)
  {
    hide WrittenFor, Orderly, AcksIn, Starting, IsRun;
    SoundAtFirst();
    EveryRunIsSound(INITIAL, steps);
    var w := After(INITIAL, steps);
    assert OrderlyFor(w, seqno);
    if seqno in w.admitted && seqno !in w.tasks {
      NothingOrderly(w.admitted[seqno].id);
    }
    assert seqno in w.tasks ==> seqno in w.admitted;
  }

  // ---- Longer runs ----

  /** One more step at the end of a run. */
  lemma {:induction false} RunThen(w: World, steps: seq<Step>, step: Step)
    requires IsRun(w, steps) && Enabled(After(w, steps), step)
    ensures IsRun(w, steps + [step]) && After(w, steps + [step]) == Apply(After(w, steps), step)
    decreases |steps|
  {
    hide Enabled, Apply;
    if steps == [] {
      assert steps + [step] == [step] && [step][1..] == [];
    } else {
      assert (steps + [step])[1..] == steps[1..] + [step];
      RunThen(Apply(w, steps[0]), steps[1..], step);
    }
  }

  /** The steps of `more` after those of a run. */
  lemma {:induction false} RunOn(w: World, steps: seq<Step>, more: seq<Step>)
    requires IsRun(w, steps) && IsRun(After(w, steps), more)
    ensures IsRun(w, steps + more) && After(w, steps + more) == After(After(w, steps), more)
    decreases |steps|
  {
    hide Enabled, Apply;
    if steps == [] {
      assert steps + more == more;
    } else {
      assert (steps + more)[1..] == steps[1..] + more;
      RunOn(Apply(w, steps[0]), steps[1..], more);
    }
  }

  lemma NoSteps(w: World)
    ensures IsRun(w, []) && After(w, []) == w
  {
  }
}
