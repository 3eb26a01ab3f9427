/** One connection's protocol state in the graphql-transport-ws gateway, changed under its lock. */
module Gateway {
  import opened Options

  /** The table of running operations: id to sequence number, which also names its execution. */
  datatype Operations = Operations(acknowledged: bool, payload: Option<string>, running: map<string, nat>, next: nat)

  const NO_OPERATIONS := Operations(false, None, map[], 0)

  /** What a `subscribe` meets in the table. */
  datatype Admission = Unauthorized | Duplicate | Draining | Open(seqno: nat)

  // ---- What each use of the lock does ----

  /** `connection_init`: the first one sets the payload and acknowledges, together. */
  function OnInit(o: Operations, payload: Option<string>): (Operations, bool) {
    if o.acknowledged then (o, false)
    else (o.(acknowledged := true, payload := if payload.Some? then payload else o.payload), true)
  }

  /** `subscribe`; `accepting` says whether the connection still opens executions. */
  function OnSubscribe(o: Operations, id: string, accepting: bool): (Operations, Admission) {
    if !o.acknowledged then (o, Unauthorized)
    else if id in o.running then (o, Duplicate)
    else if !accepting then (o, Draining)
    else (o.(running := o.running[id := o.next], next := o.next + 1), Open(o.next))
  }

  /** The end of an operation: it is forgotten unless it was replaced or removed first. */
  function OnFinish(o: Operations, id: string, seqno: nat): Operations {
    if id in o.running && o.running[id] == seqno then o.(running := o.running - {id}) else o
  }

  /** A client's `complete`: the operation removed, to be cancelled. */
  function OnComplete(o: Operations, id: string): (Operations, set<nat>) {
    if id in o.running then (o.(running := o.running - {id}), {o.running[id]}) else (o, {})
  }

  /** A close or a disconnect: every operation removed, to be cancelled. */
  function OnDrain(o: Operations): (Operations, set<nat>) {
    (o.(running := map[]), o.running.Values)
  }

  class ConnState {
    var acknowledged: bool
    var payload: Option<string>
    var running: map<string, nat>
    var next: nat

    constructor ()
      ensures View() == NO_OPERATIONS
    {
      acknowledged, payload, running, next := false, None, map[], 0;
    }

    function View(): Operations
      reads this
    {
      Operations(acknowledged, payload, running, next)
    }

    method Init(sent: Option<string>) returns (first: bool)
      modifies this
      ensures (View(), first) == OnInit(old(View()), sent)
    {
      first := !acknowledged;
      if first {
        if sent.Some? {
          payload := sent;
        }
        acknowledged := true;
      }
    }

    method Admit(id: string, accepting: bool) returns (admission: Admission)
      modifies this
      ensures (View(), admission) == OnSubscribe(old(View()), id, accepting)
    {
      if !acknowledged {
        return Unauthorized;
      }
      if id in running {
        return Duplicate;
      }
      if !accepting {
        return Draining;
      }
      var seqno := next;
      next := next + 1;
      running := running[id := seqno];
      admission := Open(seqno);
    }

    method Finish(id: string, seqno: nat)
      modifies this
      ensures View() == OnFinish(old(View()), id, seqno)
    {
      if id in running && running[id] == seqno {
        running := running - {id};
      }
    }

    method Complete(id: string) returns (removed: set<nat>)
      modifies this
      ensures (View(), removed) == OnComplete(old(View()), id)
    {
      removed := {};
      if id in running {
        removed := {running[id]};
        running := running - {id};
      }
    }

    method Drain() returns (removed: set<nat>)
      modifies this
      ensures (View(), removed) == OnDrain(old(View()))
    {
      removed := running.Values;
      running := map[];
    }
  }
}

/** Every interleaving of client messages, the init timeout, disconnects and operations ending. */
module GatewayRuns {
  // A step is what runs between two points at which another handler or operation may run.

  import opened Options
  import opened Gateway

  datatype ClientMessage =
    | ConnectionInit(payload: Option<string>)
    | Ping
    | Subscribe(id: string, accepting: bool)
    | Complete(id: string)
    | Unreadable

  datatype ServerMessage = ConnectionAck | Pong | Next(id: string) | Error(id: string) | Completed(id: string)

  /** A frame written, and the operation it was written for. */
  datatype Sent = Sent(message: ServerMessage, op: Option<nat>)

  /** Where a handler stands: what it still has to do. */
  datatype Handler =
    | Acknowledging
    | Answering
    | Refusing(id: string)
    | Spawning(id: string, seqno: nat)
    | Closing                          // the close frame first, then the operations
    | Emptying
    | Cancelling(removed: set<nat>)
    | Over

  datatype Phase =
    | Streaming
    | Completing                         // the stream ended or the drain began: `complete` is to be written
    | Ending                           // nothing more is written
    | Gone

  datatype Task = Task(id: string, phase: Phase)

  /** What was true when an operation was admitted. */
  datatype Admitted = Admitted(id: string, payload: Option<string>)

  datatype World = World(
    ops: Operations,
    handlers: seq<Handler>,
    tasks: map<nat, Task>,
    cancelled: set<nat>,
    forgotten: set<nat>,               // removed from the table by their own end
    wire: seq<Sent>,
    admitted: map<nat, Admitted>,
    busy: Option<nat>,                 // the handler of the last message received
    closed: bool)                      // the connection takes no more messages

  const INITIAL := World(NO_OPERATIONS, [], map[], {}, {}, [], map[], None, false)

  datatype Step =
    | Receive(message: ClientMessage)
    | TimeOut                          // the init timeout passed unacknowledged
    | Disconnect
    | Proceed(k: nat, written: bool, which: nat)       // handler `k` goes on
    | Item(seqno: nat, executed: bool, written: bool)  // the stream yields
    | StreamEnd(seqno: nat)
    | Stop(seqno: nat)                                 // cancelled, or draining
    | WriteEnd(seqno: nat, written: bool)
    | Finish(seqno: nat)

  /** Messages are handled one at a time: the last one's handler is done. */
  predicate Free(w: World) {
    w.busy.Some? && w.busy.value < |w.handlers| ==> w.handlers[w.busy.value].Over?
  }

  /** `written` only while the connection takes messages. */
  predicate Enabled(w: World, step: Step) {
    match step
    case Receive(_) => Free(w)
    case TimeOut => !w.ops.acknowledged
    case Disconnect => true
    case Proceed(k, written, which) =>
      k < |w.handlers| && !w.handlers[k].Over? && (written ==> !w.closed) &&
      (w.handlers[k].Cancelling? ==> w.handlers[k].removed == {} || which in w.handlers[k].removed)
    case Item(seqno, _, written) => seqno in w.tasks && w.tasks[seqno].phase.Streaming? && (written ==> !w.closed)
    case StreamEnd(seqno) => seqno in w.tasks && w.tasks[seqno].phase.Streaming?
    case Stop(seqno) => seqno in w.tasks && w.tasks[seqno].phase.Streaming?
    case WriteEnd(seqno, written) => seqno in w.tasks && w.tasks[seqno].phase.Completing? && (written ==> !w.closed)
    case Finish(seqno) => seqno in w.tasks && w.tasks[seqno].phase.Ending?
  }

  function With(w: World, h: Handler): World {
    w.(handlers := w.handlers + [h])
  }

  function At(w: World, k: nat, h: Handler): World
    requires k < |w.handlers|
  {
    w.(handlers := w.handlers[k := h])
  }

  /** A message that carries nothing of a client's or an engine's fails only because the connection closed. */
  function Write(w: World, message: ServerMessage, op: Option<nat>, written: bool): World {
    if written then w.(wire := w.wire + [Sent(message, op)])
    else w.(closed := w.closed || message.ConnectionAck? || message.Completed?)
  }

  function Phased(w: World, seqno: nat, phase: Phase): World
    requires seqno in w.tasks
  {
    w.(tasks := w.tasks[seqno := Task(w.tasks[seqno].id, phase)])
  }

  /** A message handled up to the handler's first point of waiting. */
  function Received(w: World, message: ClientMessage): World {
    With(Locked(w, message), FirstOf(w, message)).(busy := Some(|w.handlers|))
  }

  /** What its handler does under the lock, */
  function Locked(w: World, message: ClientMessage): World {
    match message
    case ConnectionInit(payload) => w.(ops := OnInit(w.ops, payload).0)
    case Subscribe(id, accepting) =>
      (match OnSubscribe(w.ops, id, accepting)
       case (ops, Open(seqno)) => w.(ops := ops, admitted := w.admitted[seqno := Admitted(id, ops.payload)])
       case _ => w)
    case Complete(id) => w.(ops := OnComplete(w.ops, id).0)
    case _ => w
  }

  /** and what it still has to do then. */
  function FirstOf(w: World, message: ClientMessage): Handler {
    match message
    case ConnectionInit(payload) => if OnInit(w.ops, payload).1 then Acknowledging else Closing
    case Ping => Answering
    case Subscribe(id, accepting) =>
      (match OnSubscribe(w.ops, id, accepting).1
       case Unauthorized => Closing
       case Duplicate => Closing
       case Draining => Refusing(id)
       case Open(seqno) => Spawning(id, seqno))
    case Complete(id) => Cancelling(OnComplete(w.ops, id).1)
    case Unreadable => Closing
  }

  function Proceeded(w: World, k: nat, written: bool, which: nat): World
    requires k < |w.handlers|
  {
    At(Effect(w, w.handlers[k], written, which), k, NextOf(w, w.handlers[k], which))
  }

  function Effect(w: World, h: Handler, written: bool, which: nat): World {
    match h
    case Acknowledging => Write(w, ConnectionAck, None, written)
    case Answering => Write(w, Pong, None, written)
    case Refusing(id) => Write(w, Error(id), None, written)
    case Spawning(id, seqno) => w.(tasks := w.tasks[seqno := Task(id, Streaming)])
    case Closing => w.(closed := true)
    case Emptying => w.(ops := OnDrain(w.ops).0)
    case Cancelling(removed) => if removed == {} then w else w.(cancelled := w.cancelled + {which})
    case Over => w
  }

  function NextOf(w: World, h: Handler, which: nat): Handler {
    match h
    case Closing => Emptying
    case Emptying => Cancelling(OnDrain(w.ops).1)
    case Cancelling(removed) => if removed == {} then Over else Cancelling(removed - {which})
    case _ => Over
  }

  function Apply(w: World, step: Step): World
    requires Enabled(w, step)
  {
    match step
    case Receive(message) => Received(w, message)
    case TimeOut => With(w, Closing)
    case Disconnect => With(w.(closed := true), Emptying)
    case Proceed(k, written, which) => Proceeded(w, k, written, which)
    case Item(seqno, executed, written) =>
      var id := w.tasks[seqno].id;
      if executed then Phased(Write(w, Next(id), Some(seqno), written), seqno, if written then Streaming else Ending)
      else Phased(Write(w, Error(id), Some(seqno), written), seqno, Ending)
    case StreamEnd(seqno) => Phased(w, seqno, Completing)
    case Stop(seqno) => Phased(w, seqno, if seqno in w.cancelled then Ending else Completing)
    case WriteEnd(seqno, written) => Phased(Write(w, Completed(w.tasks[seqno].id), Some(seqno), written), seqno, Ending)
    case Finish(seqno) =>
      var id := w.tasks[seqno].id;
      var mine := id in w.ops.running && w.ops.running[id] == seqno;
      Phased(w.(ops := OnFinish(w.ops, id, seqno), forgotten := w.forgotten + if mine then {seqno} else {}),
        seqno, Gone)
  }

  /** A run: each step enabled when it is taken. */
  ghost predicate IsRun(w: World, steps: seq<Step>)
    decreases |steps|
  {
    steps == [] || (Enabled(w, steps[0]) && IsRun(Apply(w, steps[0]), steps[1..]))
  }

  function After(w: World, steps: seq<Step>): World
    requires IsRun(w, steps)
    decreases |steps|
  {
    if steps == [] then w else After(Apply(w, steps[0]), steps[1..])
  }
}
