/** The gRPC reply bodies: machines that are polled under a deadline, a drain and a drop. */
module Bodies {
  import opened Options

  datatype Reason = ClientCancelled | Disconnected | Drain | Deadline | Explicit

  datatype Outcome = Completed | CutOff(reason: Option<Reason>)

  const OK: nat := 0
  const DEADLINE_EXCEEDED: nat := 4
  const UNAVAILABLE: nat := 14

  /** A frame: data, or trailers with their `grpc-status`. */
  datatype Frame = Data(bytes: seq<nat>) | Trailers(status: Option<nat>)

  datatype Poll = Pending | Ready(frame: Frame) | Failed | End

  // ---- The execution: a reason written once, and a log of reports ----

  function Cancelled(reason: Option<Reason>, with: Reason): Option<Reason> {
    if reason.Some? then reason else Some(with)
  }

  class Execution {
    var reason: Option<Reason>
    var reports: seq<Outcome>

    constructor ()
      ensures reason.None? && reports == []
    {
      reason, reports := None, [];
    }

    method CancelWith(with: Reason)
      modifies this`reason
      ensures reason == Cancelled(old(reason), with)
    {
      if reason.None? {
        reason := Some(with);
      }
    }

    method ReportStreamEnd(outcome: Outcome)
      modifies this`reports
      ensures reports == old(reports) + [outcome]
    {
      reports := reports + [outcome];
    }
  }

  // ---- The outermost body ----

  /**
   * `tracking`: its end has to be told and has not been. `expired`: the deadline fell on a poll
   * that also gave a frame.
   */
  datatype Body = Body(ended: bool, tracking: bool, expired: bool, deadline: bool, reason: Option<Reason>,
    reports: seq<Outcome>)

  /** What a poll meets: whether the deadline has passed, what the reply yields, and whether that was its last frame. */
  datatype Meets = Meets(due: bool, inner: Poll, last: bool)

  function Reported(b: Body, clean: bool): Body {
    if b.tracking then b.(tracking := false, reports := b.reports + [if clean then Completed else CutOff(b.reason)])
    else b
  }

  /** The body ended with a status of its own in the trailers. */
  function EndedWith(b: Body, status: nat): (Body, Poll) {
    (Reported(b.(ended := true, deadline := false), status == OK), Ready(Trailers(Some(status))))
  }

  /** What the reply's own answer does to the body. */
  function Took(b: Body, m: Meets): Body {
    match m.inner
    case Ready(Trailers(status)) => Reported(b.(ended := true), status == Some(OK))
    case Ready(Data(_)) => if m.last then Reported(b.(ended := true), false) else b
    case Pending => b
    case _ => Reported(b.(ended := true), false)
  }

  predicate Observes(b: Body, m: Meets) {
    !b.ended && !(b.expired && b.tracking) && b.deadline && m.due
  }

  function Polled(b: Body, m: Meets): (Body, Poll) {
    if b.ended then (b, End)
    else if b.expired && b.tracking then EndedWith(b, DEADLINE_EXCEEDED)
    else
      var passed := b.deadline && m.due;
      var b1 := if passed then b.(deadline := false, reason := Cancelled(b.reason, Deadline)) else b;
      var b2 := Took(b1, m);
      if b2.ended then (b2.(deadline := false), m.inner)
      else if b2.expired || (passed && m.inner.Pending?) then EndedWith(b2, DEADLINE_EXCEEDED)
      else (if passed then b2.(expired := true) else b2, m.inner)
  }

  /** The body is let go of; if it had not ended, its call counts as cancelled by the client. */
  function Dropped(b: Body): Body {
    Reported(if b.ended then b else b.(reason := Cancelled(b.reason, ClientCancelled)), false)
  }

  class CallBody {
    const exec: Execution
    var deadline: bool
    var ended: bool
    var tracking: bool
    var expired: bool

    constructor (exec: Execution, deadline: bool, tracked: bool, empty: bool)
      modifies exec
      ensures this.exec == exec && exec.reason == old(exec.reason)
      ensures View() == Created(old(exec.reason), old(exec.reports), deadline, tracked, empty)
    {
      this.exec, this.deadline, ended, tracking, expired := exec, deadline, empty, tracked, false;
      new;
      if ended {
        Report(false);
      }
    }

    function View(): Body
      reads this, exec
    {
      Body(ended, tracking, expired, deadline, exec.reason, exec.reports)
    }

    /** Tells how the stream ended, if that is still to be told. */
    method Report(clean: bool)
      modifies this`tracking, exec`reports
      ensures View() == Reported(old(View()), clean)
    {
      if tracking {
        tracking := false;
        exec.ReportStreamEnd(if clean then Completed else CutOff(exec.reason));
      }
    }

    method EndWith(status: nat) returns (answer: Poll)
      modifies this, exec`reports
      ensures (View(), answer) == EndedWith(old(View()), status)
    {
      ended := true;
      deadline := false;
      Report(status == OK);
      answer := Ready(Trailers(Some(status)));
    }

    method Take(m: Meets)
      modifies this, exec`reports
      ensures View() == Took(old(View()), m)
    {
      match m.inner {
        case Ready(frame) =>
          if frame.Trailers? {
            ended := true;
            Report(frame.status == Some(OK));
          } else if m.last {
            ended := true;
            Report(false);
          }
        case Pending =>
        case _ =>
          ended := true;
          Report(false);
      }
    }

    method PollFrame(m: Meets) returns (answer: Poll)
      modifies this, exec
      ensures (View(), answer) == Polled(old(View()), m)
    {
      hide Took, EndedWith;
      if ended {
        return End;
      }
      if expired && tracking {
        answer := EndWith(DEADLINE_EXCEEDED);
        return;
      }
      var passed := false;
      if deadline && m.due {
        deadline := false;
        exec.CancelWith(Deadline);
        passed := true;
      }
      Take(m);
      if ended {
        deadline := false;
      } else if expired || (passed && m.inner.Pending?) {
        answer := EndWith(DEADLINE_EXCEEDED);
        return;
      } else if passed {
        expired := true;
      }
      answer := m.inner;
    }

    method Drop()
      modifies this, exec
      ensures View() == Dropped(old(View()))
    {
      if !ended {
        exec.CancelWith(ClientCancelled);
      }
      Report(false);
    }
  }

  /** A new body; one whose reply is already at its end has ended. */
  function Created(reason: Option<Reason>, reports: seq<Outcome>, deadline: bool, tracked: bool, empty: bool): Body {
    var b := Body(empty, tracked, false, deadline, reason, reports);
    if empty then Reported(b, false) else b
  }

  // ---- A reply stream's items ----

  datatype Late = Streaming | Recovering | Done

  /** `waiting`: the stream's last answer was to wait. `settled`: a cancellation came that the stream outlives. */
  datatype Items = Items(mode: Late, waiting: bool, settled: bool, reason: Option<Reason>)

  datatype StreamPoll = NoItem | Message | Fault | Over

  /** What the error handlers make of an `Err` item. */
  datatype Recovery = Undecided | EndQuietly | Render

  /** Why an `Err` item ends the stream: a cancellation, with its status, or an error of the stream's own. */
  datatype Cause = Cut(status: nat) | Raised

  datatype ItemsPoll = Wait | Item | Error(cause: Cause) | Finish

  /** What a poll meets; `woken`: the cancellation listener, once cancelled, has resolved. */
  datatype Offers = Offers(stream: StreamPoll, woken: bool, handled: bool, recovery: Recovery)

  predicate Ending(reason: Option<Reason>) {
    reason == Some(Drain) || reason == Some(Deadline)
  }

  /** How a stream that such a cancellation ends says so. */
  function CutBy(reason: Option<Reason>): ItemsPoll {
    Error(Cut(if reason == Some(Drain) then UNAVAILABLE else DEADLINE_EXCEEDED))
  }

  /** A new stream; after the deadline it can only be what the error handlers answered. */
  function Begun(reason: Option<Reason>): Items {
    Items(Streaming, false, reason == Some(Deadline), reason)
  }

  function Recovered(i: Items, o: Offers): (Items, ItemsPoll) {
    match o.recovery
    case Undecided => (i.(mode := Recovering), Wait)
    case EndQuietly => (i.(mode := Done), Finish)
    case Render => (i.(mode := Done), Error(Raised))
  }

  function NextItem(i: Items, o: Offers): (Items, ItemsPoll) {
    if i.mode.Streaming? && !i.settled && !i.waiting && Ending(i.reason) then (i.(mode := Done), CutBy(i.reason))
    else
      match i.mode
      case Done => (i, Finish)
      case Recovering => Recovered(i, o)
      case Streaming =>
        (match o.stream
         case NoItem =>
           var i1 := i.(waiting := true);
           if i.settled || !o.woken || i.reason.None? then (i1, Wait)
           else if Ending(i.reason) then (i1.(mode := Done), CutBy(i.reason))
           else (i1.(settled := true), Wait)
         case Message => (i.(waiting := false), Item)
         case Fault =>
           if o.handled then Recovered(i.(waiting := false), o)
           else (i.(waiting := false, mode := Done), Error(Raised))
         case Over => (i.(waiting := false, mode := Done), Finish))
  }

  class LateItems {
    const exec: Execution
    const handled: bool
    var mode: Late
    var waiting: bool
    var settled: bool

    constructor (exec: Execution, handled: bool)
      ensures this.exec == exec && this.handled == handled
      ensures View() == Begun(exec.reason)
    {
      this.exec, this.handled, mode, waiting, settled := exec, handled, Streaming, false, exec.reason == Some(Deadline);
    }

    function View(): Items
      reads this, exec
    {
      Items(mode, waiting, settled, exec.reason)
    }

    method PollNext(stream: StreamPoll, woken: bool, recovery: Recovery) returns (answer: ItemsPoll)
      modifies this
      ensures (View(), answer) == NextItem(old(View()), Offers(stream, woken, handled, recovery))
    {
      if mode.Streaming? && !settled && !waiting && Ending(exec.reason) {
        mode := Done;
        return CutBy(exec.reason);
      }
      if mode.Streaming? {
        if stream.NoItem? {
          waiting := true;
          if !settled && woken && exec.reason.Some? {
            if Ending(exec.reason) {
              mode := Done;
              return CutBy(exec.reason);
            }
            settled := true;
          }
          return Wait;
        }
        waiting := false;
        match stream {
          case Message => return Item;
          case Over =>
            mode := Done;
            return Finish;
          case Fault =>
            if !handled {
              mode := Done;
              return Error(Raised);
            }
            mode := Recovering;
        }
      }
      if mode.Recovering? {
        match recovery {
          case Undecided => return Wait;
          case EndQuietly =>
            mode := Done;
            return Finish;
          case Render =>
            mode := Done;
            return Error(Raised);
        }
      }
      answer := Finish;
    }
  }
}
