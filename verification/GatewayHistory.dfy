/** The state and the wire of a connection, told from the steps of its run. */
module GatewayHistory {
  import opened Options
  import opened Gateway
  import opened GatewayRuns
  import opened GatewayLaws

  // ---- The payload ----

  /** The payloads of the `connection_init` messages received, in order. */
  function Inits(steps: seq<Step>): seq<Option<string>> {
    if steps == [] then []
    else
      (if steps[0].Receive? && steps[0].message.ConnectionInit? then [steps[0].message.payload] else [])
      + Inits(steps[1..])
  }

  /** The first message acknowledges and gives the payload; later ones change neither. */
  predicate Follows(before: Operations, inits: seq<Option<string>>, after: Operations) {
    && (after.acknowledged <==> before.acknowledged || inits != [])
    && after.payload == if !before.acknowledged && inits != [] && inits[0].Some? then inits[0] else before.payload
  }

  lemma StepFollows(w: World, step: Step)
    requires Enabled(w, step)
    ensures Follows(w.ops, Inits([step]), Apply(w, step).ops)
  {
    hide Received, Proceeded;
    assert [step][1..] == [];
    if step.Receive? {
      ReceiveFollows(w, step.message);
    } else if step.Proceed? {
      ProceededFrame(w, step.k, step.written, step.which);
    }
  }

  lemma ReceiveFollows(w: World, message: ClientMessage)
    ensures Follows(w.ops, if message.ConnectionInit? then [message.payload] else [], Received(w, message).ops)
  {
  }

  lemma {:induction false} RunFollows(w: World, steps: seq<Step>)
    requires IsRun(w, steps)
    ensures Follows(w.ops, Inits(steps), After(w, steps).ops)
    decreases |steps|
  {
    hide Apply, Enabled;
    if steps != [] {
      StepFollows(w, steps[0]);
      assert Inits([steps[0]]) == if steps[0].Receive? && steps[0].message.ConnectionInit?
        then [steps[0].message.payload] else [] by { assert [steps[0]][1..] == []; }
      RunFollows(Apply(w, steps[0]), steps[1..]);
    }
  }

  /** Over any run: every operation reads the payload of the first `connection_init` received, which came before it. */
  lemma PayloadIsTheFirstSent(steps: seq<Step>, seqno: nat)
    requires IsRun(INITIAL, steps) && seqno in After(INITIAL, steps).admitted
    ensures Inits(steps) != [] && After(INITIAL, steps).admitted[seqno].payload == Inits(steps)[0]
  {
    hide IsRun, After, Inits;
    EachOperationIsOrderly(steps, seqno);
    RunFollows(INITIAL, steps);
  }

  // ---- What a message meets ----

  /** An operation admitted under `id` that has not left: not by its end, nor to be cancelled. */
  ghost predicate Live(w: World, id: string) {
    exists seqno | seqno in w.admitted :: IsLive(w, id, seqno)
  }

  predicate IsLive(w: World, id: string, seqno: nat) {
    && seqno in w.admitted && w.admitted[seqno].id == id
    && seqno !in w.forgotten && seqno !in w.cancelled && Pending(w.handlers, seqno) == 0
  }

  /** The table holds exactly the live operations. */
  lemma TableIsTheLive(w: World, id: string, seqno: nat)
    requires Sound(w)
    ensures IsLive(w, id, seqno) <==> id in w.ops.running && w.ops.running[id] == seqno
  {
    hide Started, Acknowledged, AllOrderly, Pending;
    assert Places(w, seqno) == One(seqno in w.admitted);
    if IsLive(w, id, seqno) {
      assert InTable(w, seqno);
      var other :| other in w.ops.running && w.ops.running[other] == seqno;
    }
    if id in w.ops.running && w.ops.running[id] == seqno {
      assert InTable(w, seqno);
    }
  }

  lemma LiveIsTable(w: World, id: string)
    requires Sound(w)
    ensures Live(w, id) <==> id in w.ops.running
  {
    hide Sound, IsLive;
    if Live(w, id) {
      var seqno :| seqno in w.admitted && IsLive(w, id, seqno);
      TableIsTheLive(w, id, seqno);
    }
    if id in w.ops.running {
      TableIsTheLive(w, id, w.ops.running[id]);
      assert w.ops.running[id] in w.admitted by { LiveIsAdmitted(w, id, w.ops.running[id]); }
    }
  }

  lemma LiveIsAdmitted(w: World, id: string, seqno: nat)
    requires IsLive(w, id, seqno)
    ensures seqno in w.admitted
  {
  }

  /** The handler a message begins: the last one. */
  function Begins(w: World, step: Step): Handler
    requires Enabled(w, step)
  {
    var handlers := Apply(w, step).handlers;
    if handlers == [] then Over else handlers[|handlers| - 1]
  }

  /**
   * A `subscribe` starts an operation exactly when a `connection_init` came before it, no operation is
   * live under its id and the connection accepts it; else it changes nothing, and is refused with an
   * error if only the connection turns it down, and with the close of the connection if not.
   */
  lemma SubscribeIsAnswered(steps: seq<Step>, id: string, accepting: bool)
    requires IsRun(INITIAL, steps) && Enabled(After(INITIAL, steps), Receive(Subscribe(id, accepting)))
    ensures var w, step := After(INITIAL, steps), Receive(Subscribe(id, accepting));
            var after, welcome := Apply(w, step), Inits(steps) != [] && !Live(w, id);
            && (welcome && accepting ==>
                  && w.ops.next !in w.admitted && Begins(w, step) == Spawning(id, w.ops.next)
                  && after.admitted == w.admitted[w.ops.next := Admitted(id, Inits(steps)[0])]
                  && IsLive(after, id, w.ops.next))
            && (!(welcome && accepting) ==>
                  && after.admitted == w.admitted && after.ops == w.ops
                  && Begins(w, step) == if welcome then Refusing(id) else Closing)
  {
    hide Sound, IsLive, Live, Inits;
    var w, step := After(INITIAL, steps), Receive(Subscribe(id, accepting));
    SoundAtFirst();
    EveryRunIsSound(INITIAL, steps);
    RunFollows(INITIAL, steps);
    LiveIsTable(w, id);
    SubscribeMeets(w, id, accepting);
    if Inits(steps) != [] && !Live(w, id) && accepting {
      SoundStep(w, step);
      TableIsTheLive(Apply(w, step), id, w.ops.next);
    }
  }

  lemma SubscribeMeets(w: World, id: string, accepting: bool)
    requires Enabled(w, Receive(Subscribe(id, accepting))) && Sound(w)
    ensures var step := Receive(Subscribe(id, accepting));
            var after, welcome := Apply(w, step), w.ops.acknowledged && id !in w.ops.running;
            && w.ops.next !in w.admitted
            && (welcome && accepting ==>
                  && Begins(w, step) == Spawning(id, w.ops.next)
                  && after.admitted == w.admitted[w.ops.next := Admitted(id, w.ops.payload)]
                  && id in after.ops.running && after.ops.running[id] == w.ops.next)
            && (!(welcome && accepting) ==>
                  && after.admitted == w.admitted && after.ops == w.ops
                  && Begins(w, step) == if welcome then Refusing(id) else Closing)
  {
    hide Started, Accounted, Acknowledged, AllOrderly;
  }

  /** A `connection_init` is acknowledged if it is the first, and closes the connection if not. */
  lemma InitIsAnswered(steps: seq<Step>, payload: Option<string>)
    requires IsRun(INITIAL, steps) && Enabled(After(INITIAL, steps), Receive(ConnectionInit(payload)))
    ensures var w, step := After(INITIAL, steps), Receive(ConnectionInit(payload));
            Begins(w, step) == if Inits(steps) == [] then Acknowledging else Closing
  {
    hide IsRun, After, Inits;
    RunFollows(INITIAL, steps);
  }

  /** A `ping` is answered; a message that cannot be read and the init timeout close the connection. */
  lemma OthersAreAnswered(w: World)
    requires Free(w)
    ensures Begins(w, Receive(Ping)) == Answering && Apply(w, Receive(Ping)).ops == w.ops
    ensures Begins(w, Receive(Unreadable)) == Closing && Apply(w, Receive(Unreadable)).ops == w.ops
    ensures Begins(w, Disconnect) == Emptying && Apply(w, Disconnect).closed
    ensures !w.ops.acknowledged ==> Enabled(w, TimeOut) && Begins(w, TimeOut) == Closing
  {
  }

  /** A `complete` takes the operation live under its id, and no other, out to be cancelled. */
  lemma CompleteIsAnswered(steps: seq<Step>, id: string, seqno: nat)
    requires IsRun(INITIAL, steps) && Enabled(After(INITIAL, steps), Receive(Complete(id)))
    ensures var w, step := After(INITIAL, steps), Receive(Complete(id));
            var h := Begins(w, step);
            && h.Cancelling? && (seqno in h.removed <==> IsLive(w, id, seqno))
            && !Live(Apply(w, step), id)
            && forall other | other != id :: IsLive(Apply(w, step), other, seqno) <==> IsLive(w, other, seqno)
  {
    hide Sound, IsLive, Live;
    var w, step := After(INITIAL, steps), Receive(Complete(id));
    SoundAtFirst();
    EveryRunIsSound(INITIAL, steps);
    SoundStep(w, step);
    LiveIsTable(Apply(w, step), id);
    TableIsTheLive(w, id, seqno);
    forall other | other != id
      ensures IsLive(Apply(w, step), other, seqno) <==> IsLive(w, other, seqno)
    {
      TableIsTheLive(w, other, seqno);
      TableIsTheLive(Apply(w, step), other, seqno);
    }
  }

  /** A close or a disconnect, once it gets to the operations, takes every live one out to be cancelled. */
  lemma CloseTakesAll(steps: seq<Step>, k: nat, written: bool, which: nat, id: string, seqno: nat)
    requires IsRun(INITIAL, steps) && Enabled(After(INITIAL, steps), Proceed(k, written, which))
    requires After(INITIAL, steps).handlers[k] == Emptying
    ensures var w, step := After(INITIAL, steps), Proceed(k, written, which);
            var h := Apply(w, step).handlers[k];
            h.Cancelling? && !Live(Apply(w, step), id) && (IsLive(w, id, seqno) ==> seqno in h.removed)
  {
    hide Sound, IsLive, Live;
    var w, step := After(INITIAL, steps), Proceed(k, written, which);
    SoundAtFirst();
    EveryRunIsSound(INITIAL, steps);
    SoundStep(w, step);
    LiveIsTable(Apply(w, step), id);
    TableIsTheLive(w, id, seqno);
  }

  /** A close goes on to the operations. */
  lemma ClosingGoesOn(w: World, k: nat, written: bool, which: nat)
    requires Enabled(w, Proceed(k, written, which)) && w.handlers[k].Closing?
    ensures var after := Apply(w, Proceed(k, written, which));
            after.closed && after.handlers[k] == Emptying
  {
  }

  // ---- What handlers and operations do ----

  /** A handler stands where it is until it goes on itself. */
  lemma {:induction false} HandlerStays(w: World, steps: seq<Step>, k: nat)
    requires IsRun(w, steps) && k < |w.handlers|
    requires forall i | 0 <= i < |steps| :: steps[i].Proceed? ==> steps[i].k != k
    ensures k < |After(w, steps).handlers| && After(w, steps).handlers[k] == w.handlers[k]
    decreases |steps|
  {
    hide Apply, Enabled;
    if steps != [] {
      StepHandlers(w, steps[0]);
      assert forall i | 0 <= i < |steps[1..]| :: steps[1..][i] == steps[i + 1];
      HandlerStays(Apply(w, steps[0]), steps[1..], k);
    }
  }

  /** The message a step is there to write, under the id its operation was admitted with. */
  function Meant(w: World, step: Step): Option<Sent>
    requires Enabled(w, step)
  {
    match step
    case Proceed(k, true, _) =>
      (match w.handlers[k]
       case Acknowledging => Some(Sent(ConnectionAck, None))
       case Answering => Some(Sent(Pong, None))
       case Refusing(id) => Some(Sent(Error(id), None))
       case _ => None)
    case Item(seqno, executed, true) =>
      if seqno !in w.admitted then None
      else
        var id := w.admitted[seqno].id;
        Some(Sent(if executed then Next(id) else Error(id), Some(seqno)))
    case WriteEnd(seqno, true) =>
      if seqno !in w.admitted then None else Some(Sent(Completed(w.admitted[seqno].id), Some(seqno)))
    case _ => None
  }

  function AllMeant(w: World, steps: seq<Step>): seq<Sent>
    requires IsRun(w, steps)
    decreases |steps|
  {
    if steps == [] then []
    else
      (if Meant(w, steps[0]).Some? then [Meant(w, steps[0]).value] else []) + AllMeant(Apply(w, steps[0]), steps[1..])
  }

  lemma StepWritesMeant(w: World, step: Step)
    requires Enabled(w, step) && Started(w)
    ensures Apply(w, step).wire == w.wire + if Meant(w, step).Some? then [Meant(w, step).value] else []
  {
    hide Received, Proceeded, Starting;
    if step.Receive? {
      ReceivedFrame(w, step.message);
    } else if step.Proceed? {
      ProceedWritesMeant(w, step.k, step.written, step.which);
    }
  }

  lemma ProceedWritesMeant(w: World, k: nat, written: bool, which: nat)
    requires Enabled(w, Proceed(k, written, which))
    ensures var meant := Meant(w, Proceed(k, written, which));
            Proceeded(w, k, written, which).wire == w.wire + if meant.Some? then [meant.value] else []
  {
  }

  lemma {:induction false} RunWrites(w: World, steps: seq<Step>)
    requires Sound(w) && IsRun(w, steps)
    ensures After(w, steps).wire == w.wire + AllMeant(w, steps)
    decreases |steps|
  {
    hide Apply, Enabled, Sound, Meant;
    if steps != [] {
      assert Started(w) by { SoundIsStarted(w); }
      StepWritesMeant(w, steps[0]);
      SoundStep(w, steps[0]);
      RunWrites(Apply(w, steps[0]), steps[1..]);
    }
  }

  lemma SoundIsStarted(w: World)
    requires Sound(w)
    ensures Started(w)
  {
  }

  /** Over any run the wire holds exactly what its steps were there to write, in their order. */
  lemma WireIsWhatWasMeant(steps: seq<Step>)
    requires IsRun(INITIAL, steps)
    ensures After(INITIAL, steps).wire == AllMeant(INITIAL, steps)
  {
    hide Sound, AllMeant, IsRun, After;
    SoundAtFirst();
    RunWrites(INITIAL, steps);
  }

  /** Nothing is written on a connection once closed, and it stays closed. */
  lemma {:induction false} ClosedIsQuiet(w: World, steps: seq<Step>)
    requires w.closed && IsRun(w, steps)
    ensures After(w, steps).closed && After(w, steps).wire == w.wire
    decreases |steps|
  {
    hide Apply;
    if steps != [] {
      StepOnClosed(w, steps[0]);
      ClosedIsQuiet(Apply(w, steps[0]), steps[1..]);
    }
  }

  lemma StepOnClosed(w: World, step: Step)
    requires w.closed && Enabled(w, step)
    ensures Apply(w, step).closed && Apply(w, step).wire == w.wire
  {
  }

  /** A connection closes by a close frame, a disconnect, or an acknowledgement or `complete` it cannot take. */
  lemma ClosesExactlyWhen(w: World, step: Step)
    requires !w.closed && Enabled(w, step)
    ensures Apply(w, step).closed <==>
            match step
            case Disconnect => true
            case Proceed(k, written, _) => w.handlers[k].Closing? || (w.handlers[k].Acknowledging? && !written)
            case WriteEnd(_, written) => !written
            case _ => false
  {
  }

  // ---- The life of an operation ----

  /** The operation a step is a step of. */
  function OwnerOf(step: Step): Option<nat> {
    match step
    case Item(seqno, _, _) => Some(seqno)
    case StreamEnd(seqno) => Some(seqno)
    case Stop(seqno) => Some(seqno)
    case WriteEnd(seqno, _) => Some(seqno)
    case Finish(seqno) => Some(seqno)
    case _ => None
  }

  /** Where its own step takes an operation: a stop goes on to `complete` unless the operation was cancelled. */
  function Leads(step: Step, cancelled: bool): Phase
    requires OwnerOf(step).Some?
  {
    match step
    case Item(_, executed, written) => if executed && written then Streaming else Ending
    case StreamEnd(_) => Completing
    case Stop(_) => if cancelled then Ending else Completing
    case _ => if step.Finish? then Gone else Ending
  }

  lemma StepPhase(w: World, step: Step, seqno: nat)
    requires Enabled(w, step) && Started(w)
    ensures seqno in w.tasks ==> seqno in Apply(w, step).tasks
    ensures seqno in w.tasks ==>
              Apply(w, step).tasks[seqno].phase ==
                if OwnerOf(step) == Some(seqno) then Leads(step, seqno in w.cancelled) else w.tasks[seqno].phase
    ensures seqno !in w.tasks && seqno in Apply(w, step).tasks ==> Apply(w, step).tasks[seqno].phase.Streaming?
  {
    hide Received, Proceeded;
    if step.Receive? {
      ReceivedFrame(w, step.message);
    } else if step.Proceed? {
      ProceedPhase(w, step.k, step.written, step.which, seqno);
    }
  }

  lemma ProceedPhase(w: World, k: nat, written: bool, which: nat, seqno: nat)
    requires Enabled(w, Proceed(k, written, which)) && Started(w)
    ensures var tasks := Proceeded(w, k, written, which).tasks;
            && (seqno in w.tasks ==> seqno in tasks && tasks[seqno] == w.tasks[seqno])
            && (seqno !in w.tasks && seqno in tasks ==> tasks[seqno].phase.Streaming?)
            && (w.handlers[k].Spawning? ==> w.handlers[k].seqno in tasks)
  {
    if w.handlers[k].Spawning? {
      NotYetStarted(w, k);
    }
  }

  lemma {:induction false} PhaseStays(w: World, steps: seq<Step>, seqno: nat)
    requires Sound(w) && IsRun(w, steps) && seqno in w.tasks
    requires forall i | 0 <= i < |steps| :: OwnerOf(steps[i]) != Some(seqno)
    ensures seqno in After(w, steps).tasks && After(w, steps).tasks[seqno].phase == w.tasks[seqno].phase
    decreases |steps|
  {
    hide Apply, Enabled, Sound, OwnerOf;
    if steps != [] {
      assert Started(w) by { SoundIsStarted(w); }
      StepPhase(w, steps[0], seqno);
      SoundStep(w, steps[0]);
      assert forall i | 0 <= i < |steps[1..]| :: steps[1..][i] == steps[i + 1];
      PhaseStays(Apply(w, steps[0]), steps[1..], seqno);
    }
  }

  /** An operation stands where its own last step took it, whatever the rest of the run does. */
  lemma PhaseIsTheLastStep(before: seq<Step>, step: Step, after: seq<Step>, seqno: nat)
    requires IsRun(INITIAL, before) && Enabled(After(INITIAL, before), step) && OwnerOf(step) == Some(seqno)
    requires IsRun(Apply(After(INITIAL, before), step), after)
    requires forall i | 0 <= i < |after| :: OwnerOf(after[i]) != Some(seqno)
    ensures var w := After(INITIAL, before);
            var end := After(Apply(w, step), after);
            seqno in end.tasks && end.tasks[seqno].phase == Leads(step, seqno in w.cancelled)
  {
    hide IsRun, After, Sound, Leads;
    var w := After(INITIAL, before);
    SoundAtFirst();
    EveryRunIsSound(INITIAL, before);
    assert Started(w) by { SoundIsStarted(w); }
    assert seqno in w.tasks;
    StepPhase(w, step, seqno);
    SoundStep(w, step);
    PhaseStays(Apply(w, step), after, seqno);
  }

  /** An operation begins to stream when the handler of its `subscribe` goes on. */
  lemma SpawnedStreams(steps: seq<Step>, k: nat, written: bool, which: nat)
    requires IsRun(INITIAL, steps) && Enabled(After(INITIAL, steps), Proceed(k, written, which))
    requires After(INITIAL, steps).handlers[k].Spawning?
    ensures var w := After(INITIAL, steps);
            var seqno, tasks := w.handlers[k].seqno, Apply(w, Proceed(k, written, which)).tasks;
            seqno !in w.tasks && seqno in tasks && tasks[seqno].phase.Streaming?
  {
    hide IsRun, After, Sound;
    var w := After(INITIAL, steps);
    SoundAtFirst();
    EveryRunIsSound(INITIAL, steps);
    assert Started(w) by { SoundIsStarted(w); }
    NotYetStarted(w, k);
    ProceedPhase(w, k, written, which, w.handlers[k].seqno);
  }

  // ---- A client can always be served ----

  function Nexts(id: string, seqno: nat, n: nat): seq<Sent> {
    if n == 0 then [] else [Sent(Next(id), Some(seqno))] + Nexts(id, seqno, n - 1)
  }

  /** Responses to a streaming operation reach the wire, */
  lemma {:induction false} Streams(w: World, seqno: nat, n: nat) returns (more: seq<Step>)
    requires !w.closed && seqno in w.tasks && w.tasks[seqno].phase.Streaming?
    ensures IsRun(w, more)
    ensures var end := After(w, more);
            && !end.closed && seqno in end.tasks && end.tasks[seqno] == w.tasks[seqno]
            && end.wire == w.wire + Nexts(w.tasks[seqno].id, seqno, n)
    decreases n
  {
    if n == 0 {
      more := [];
    } else {
      var step := Item(seqno, true, true);
      var next := Apply(w, step);
      var rest := Streams(next, seqno, n - 1);
      more := [step] + rest;
      assert more[1..] == rest;
      assert next.wire == w.wire + [Sent(Next(w.tasks[seqno].id), Some(seqno))];
    }
  }

  /** and so does its end. */
  lemma Completes(w: World, seqno: nat) returns (more: seq<Step>)
    requires !w.closed && seqno in w.tasks && w.tasks[seqno].phase.Streaming?
    ensures IsRun(w, more)
    ensures After(w, more).wire == w.wire + [Sent(Completed(w.tasks[seqno].id), Some(seqno))]
  {
    var w1 := Apply(w, StreamEnd(seqno));
    var w2 := Apply(w1, WriteEnd(seqno, true));
    more := [StreamEnd(seqno), WriteEnd(seqno, true), Finish(seqno)];
    NoSteps(Apply(w2, more[2]));
    RunOf(w2, more[2], []);
    RunOf(w1, more[1], [more[2]]);
    RunOf(w, more[0], [more[1], more[2]]);
    assert [more[2]] + [] == [more[2]] && more == [more[0]] + [more[1], more[2]];
  }

  lemma RunOf(w: World, step: Step, rest: seq<Step>)
    requires Enabled(w, step) && IsRun(Apply(w, step), rest)
    ensures IsRun(w, [step] + rest) && After(w, [step] + rest) == After(Apply(w, step), rest)
  {
    hide Enabled, Apply;
    assert ([step] + rest)[1..] == rest;
  }

  /**
   * After any run that leaves the connection open and its last message handled, a client that has
   * initialised it can subscribe under an id with no live operation and be served: any number of
   * `next` messages, then `complete`, and nothing else in between.
   */
  lemma CanBeServed(steps: seq<Step>, id: string, n: nat) returns (more: seq<Step>)
    requires IsRun(INITIAL, steps) && Inits(steps) != []
    requires var w := After(INITIAL, steps); !w.closed && Free(w) && !Live(w, id)
    ensures var w := After(INITIAL, steps);
            && IsRun(w, [Receive(Subscribe(id, true))] + more)
            && After(w, [Receive(Subscribe(id, true))] + more).wire ==
                 w.wire + Nexts(id, w.ops.next, n) + [Sent(Completed(id), Some(w.ops.next))]
  {
    hide IsRun, After, Sound, Live, IsLive, Inits, Received, Proceeded, Nexts;
    var w, step := After(INITIAL, steps), Receive(Subscribe(id, true));
    var seqno, k := w.ops.next, |w.handlers|;
    SubscribeIsAnswered(steps, id, true);
    ReceivedFrame(w, step.message);
    var w1 := Apply(w, step);
    var spawn := Proceed(k, false, 0);
    SpawnStarts(w1, k);
    var w2 := Apply(w1, spawn);
    var items := Streams(w2, seqno, n);
    var w3 := After(w2, items);
    var end := Completes(w3, seqno);
    RunOn(w2, items, end);
    RunOf(w1, spawn, items + end);
    more := [spawn] + (items + end);
    RunOf(w, step, more);
  }

  lemma SpawnStarts(w: World, k: nat)
    requires !w.closed && k < |w.handlers| && w.handlers[k].Spawning?
    ensures Enabled(w, Proceed(k, false, 0))
    ensures var after, h := Apply(w, Proceed(k, false, 0)), w.handlers[k];
            !after.closed && after.wire == w.wire && h.seqno in after.tasks &&
            after.tasks[h.seqno] == Task(h.id, Streaming)
  {
  }

  /** Before that, a first `connection_init` can be acknowledged, on any open connection at rest. */
  lemma CanBeAcknowledged(steps: seq<Step>, payload: Option<string>)
    requires IsRun(INITIAL, steps) && Inits(steps) == []
    requires var w := After(INITIAL, steps); !w.closed && Free(w)
    ensures var w := After(INITIAL, steps);
            var more := [Receive(ConnectionInit(payload)), Proceed(|w.handlers|, true, 0)];
            IsRun(w, more) && After(w, more).wire == w.wire + [Sent(ConnectionAck, None)] && !After(w, more).closed
  {
    hide IsRun, After, Inits, Received, Proceeded;
    var w, step := After(INITIAL, steps), Receive(ConnectionInit(payload));
    InitIsAnswered(steps, payload);
    ReceivedFrame(w, step.message);
    var w1, ack := Apply(w, step), Proceed(|w.handlers|, true, 0);
    AckWrites(w1, |w.handlers|);
    NoSteps(Apply(w1, ack));
    RunOf(w1, ack, []);
    RunOf(w, step, [ack] + []);
    assert [step] + ([ack] + []) == [step, ack];
  }

  lemma AckWrites(w: World, k: nat)
    requires !w.closed && k < |w.handlers| && w.handlers[k].Acknowledging?
    ensures Enabled(w, Proceed(k, true, 0))
    ensures var after := Apply(w, Proceed(k, true, 0));
            !after.closed && after.wire == w.wire + [Sent(ConnectionAck, None)]
  {
  }
}
