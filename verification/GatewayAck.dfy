/** Nothing is written under an id before the acknowledgement. */
module GatewayAck {
  import opened Options
  import opened GatewayRuns
  import opened GatewayLaws

  predicate HasId(m: ServerMessage, id: string) {
    !m.ConnectionAck? && !m.Pong? && m.id == id
  }

  /** What a step adds to the wire: at most one message, while the connection is open, by a handler or an operation. */
  predicate Wrote(w: World, step: Step, sent: Sent)
    requires Enabled(w, step)
  {
    && !w.closed
    && match step
       case Proceed(k, _, _) =>
         (match w.handlers[k]
          case Acknowledging => sent == Sent(ConnectionAck, None)
          case Answering => sent == Sent(Pong, None)
          case Refusing(id) => sent == Sent(Error(id), None)
          case _ => false)
       case Item(seqno, executed, _) =>
         sent == Sent(if executed then Next(w.tasks[seqno].id) else Error(w.tasks[seqno].id), Some(seqno))
       case WriteEnd(seqno, _) => sent == Sent(Completed(w.tasks[seqno].id), Some(seqno))
       case _ => false
  }

  lemma StepWrites(w: World, step: Step)
    requires Enabled(w, step)
    ensures var after := Apply(w, step);
            && (w.closed ==> after.closed)
            && (after.wire == w.wire ||
                (|after.wire| == |w.wire| + 1 && after.wire == w.wire + [after.wire[|w.wire|]] &&
                Wrote(w, step, after.wire[|w.wire|])))
  {
    hide Received, Proceeded;
    if step.Receive? {
      ReceivedFrame(w, step.message);
    } else if step.Proceed? {
      ProceededWrites(w, step.k, step.written, step.which);
    }
  }

  lemma ProceededWrites(w: World, k: nat, written: bool, which: nat)
    requires Enabled(w, Proceed(k, written, which))
    ensures var after, step := Proceeded(w, k, written, which), Proceed(k, written, which);
            && (w.closed ==> after.closed)
            && (after.wire == w.wire ||
                (|after.wire| == |w.wire| + 1 && after.wire == w.wire + [after.wire[|w.wire|]] &&
                Wrote(w, step, after.wire[|w.wire|])))
  {
  }

  // ---- The acknowledgement comes first ----

  predicate AckIn(wire: seq<Sent>) {
    exists j | 0 <= j < |wire| :: wire[j].message.ConnectionAck?
  }

  predicate AckBefore(wire: seq<Sent>) {
    forall i | 0 <= i < |wire| && !wire[i].message.ConnectionAck? && !wire[i].message.Pong? :: AckIn(wire[..i])
  }

  /** The acknowledgement was written, or nothing will be. */
  predicate Settled(w: World) {
    AckIn(w.wire) || w.closed
  }

  /**
   * An accepted `connection_init` is settled unless its handler, which holds up the next message,
   * is still to write.
   */
  predicate AckFirst(w: World) {
    && AckBefore(w.wire)
    && (w.ops.acknowledged ==> Settled(w) || Acknowledges(w))
    && (w.admitted != map[] ==> Settled(w))
    && (forall k | 0 <= k < |w.handlers| && w.handlers[k].Refusing? :: Settled(w))
  }

  predicate Acknowledges(w: World) {
    w.busy.Some? && w.busy.value < |w.handlers| && w.handlers[w.busy.value].Acknowledging?
  }

  lemma AckStays(wire: seq<Sent>, sent: Sent)
    ensures AckIn(wire) ==> AckIn(wire + [sent])
    ensures sent.message.ConnectionAck? ==> AckIn(wire + [sent])
    ensures AckBefore(wire) && (sent.message.ConnectionAck? || sent.message.Pong? || AckIn(wire)) ==>
              AckBefore(wire + [sent])
  {
    var more := wire + [sent];
    assert forall i | 0 <= i < |wire| :: more[i] == wire[i] && more[..i] == wire[..i];
    assert more[|wire|] == sent && more[..|wire|] == wire;
  }

  lemma SettledStays(w: World, step: Step)
    requires Enabled(w, step) && Settled(w)
    ensures Settled(Apply(w, step))
  {
    hide AckIn, Apply, Enabled, Wrote;
    StepWrites(w, step);
    var after := Apply(w, step);
    if after.wire != w.wire {
      AckStays(w.wire, after.wire[|w.wire|]);
    }
  }

  /** Whoever writes under an id was admitted or refused, so the acknowledgement was written. */
  lemma BeforeKept(w: World, step: Step)
    requires AckFirst(w) && Started(w) && Enabled(w, step)
    ensures AckBefore(Apply(w, step).wire)
  {
    hide AckIn, AckBefore, Apply, Started;
    StepWrites(w, step);
    var after := Apply(w, step);
    if after.wire != w.wire {
      var sent := after.wire[|w.wire|];
      AckStays(w.wire, sent);
      if step.Item? {
        assert step.seqno in w.admitted by { TaskIsAdmitted(w, step.seqno); }
      } else if step.WriteEnd? {
        assert step.seqno in w.admitted by { TaskIsAdmitted(w, step.seqno); }
      }
    }
  }

  lemma TaskIsAdmitted(w: World, seqno: nat)
    requires Started(w) && seqno in w.tasks
    ensures seqno in w.admitted && w.tasks[seqno].id == w.admitted[seqno].id
  {
    hide Starting;
  }

  lemma FirstKept(w: World, step: Step)
    requires AckFirst(w) && Started(w) && Enabled(w, step)
    ensures AckFirst(Apply(w, step))
  {
    hide AckIn, AckBefore, Started, Settled, Apply, Acknowledges, Enabled;
    BeforeKept(w, step);
    if Settled(w) {
      SettledStays(w, step);
    } else {
      UnsettledStep(w, step);
    }
  }

  lemma UnsettledStep(w: World, step: Step)
    requires Unsettled(w) && Enabled(w, step)
    ensures Unsettled(Apply(w, step)) || Settled(Apply(w, step))
  {
    hide Unsettled, Settled, Received, Proceeded;
    match step
    case Receive(message) => UnsettledReceive(w, message);
    case Proceed(k, written, which) => UnsettledProceed(w, k, written, which);
    case _ => UnsettledOther(w, step);
  }

  /** Before it is settled no step but the first `connection_init` and the write of its answer changes anything. */
  predicate Unsettled(w: World) {
    && (w.ops.acknowledged ==> Acknowledges(w)) && w.admitted == map[]
    && forall k | 0 <= k < |w.handlers| :: !w.handlers[k].Refusing?
  }

  lemma UnsettledReceive(w: World, message: ClientMessage)
    requires Unsettled(w) && Free(w)
    ensures Unsettled(Received(w, message))
  {
    ReceivedFrame(w, message);
  }

  lemma UnsettledProceed(w: World, k: nat, written: bool, which: nat)
    requires Unsettled(w) && Enabled(w, Proceed(k, written, which))
    ensures Unsettled(Proceeded(w, k, written, which)) || Settled(Proceeded(w, k, written, which))
  {
    hide Proceeded, AckIn;
    var after := Proceeded(w, k, written, which);
    ProceededFrame(w, k, written, which);
    if w.handlers[k].Acknowledging? {
      AckWritten(w, k, written, which);
    } else {
      assert after.handlers[k] != w.handlers[k] ==>
        !after.handlers[k].Refusing? by { NoRefusalBegins(w, k, written, which); }
    }
  }

  lemma AckWritten(w: World, k: nat, written: bool, which: nat)
    requires k < |w.handlers| && w.handlers[k].Acknowledging?
    ensures Settled(Proceeded(w, k, written, which))
  {
    hide AckIn;
    AckStays(w.wire, Sent(ConnectionAck, None));
  }

  lemma NoRefusalBegins(w: World, k: nat, written: bool, which: nat)
    requires k < |w.handlers|
    ensures !Proceeded(w, k, written, which).handlers[k].Refusing?
  {
  }

  lemma UnsettledOther(w: World, step: Step)
    requires Unsettled(w) && Enabled(w, step) && !step.Receive? && !step.Proceed?
    ensures Unsettled(Apply(w, step))
  {
  }

  lemma {:induction false} RunKeepsFirst(w: World, steps: seq<Step>)
    requires GatewayLaws.Sound(w) && AckFirst(w) && IsRun(w, steps)
    ensures AckFirst(After(w, steps))
    decreases |steps|
  {
    hide GatewayLaws.Sound, AckFirst, Apply, Enabled, Started;
    if steps != [] {
      SoundStep(w, steps[0]);
      assert Started(w) by { SoundIsStarted(w); }
      FirstKept(w, steps[0]);
      RunKeepsFirst(Apply(w, steps[0]), steps[1..]);
    }
  }

  lemma SoundIsStarted(w: World)
    requires GatewayLaws.Sound(w)
    ensures Numbered(w) && Started(w)
  {
    hide Numbered, Started, Accounted, Acknowledged, AllOrderly;
  }

  /** In any run, every message under an id comes after the `connection_ack`. */
  lemma AckComesFirst(steps: seq<Step>, i: nat)
    requires IsRun(INITIAL, steps) && i < |After(INITIAL, steps).wire|
    ensures var wire := After(INITIAL, steps).wire;
            wire[i].message.ConnectionAck? || wire[i].message.Pong? ||
            exists j | 0 <= j < i :: wire[j].message.ConnectionAck?
  {
    hide IsRun, After, GatewayLaws.Sound;
    SoundAtFirst();
    RunKeepsFirst(INITIAL, steps);
    var wire := After(INITIAL, steps).wire;
    if !wire[i].message.ConnectionAck? && !wire[i].message.Pong? {
      assert AckIn(wire[..i]);
      var j :| 0 <= j < i && wire[..i][j].message.ConnectionAck?;
      assert wire[j] == wire[..i][j];
    }
  }
}
