/** What the reply bodies keep over every run. */
module BodyLaws {
  import opened Options
  import opened Bodies

  // ---- Runs of the outermost body ----

  datatype Event = PollOf(meets: Meets) | CancelOf(reason: Reason)

  function Turned(b: Body, e: Event): Body {
    match e
    case PollOf(m) => Polled(b, m).0
    case CancelOf(reason) => b.(reason := Cancelled(b.reason, reason))
  }

  function After(b: Body, events: seq<Event>): Body
    decreases events
  {
    if events == [] then b else After(Turned(b, events[0]), events[1..])
  }

  /** What the polls answered, in order. */
  function Answers(b: Body, events: seq<Event>): seq<Poll>
    decreases events
  {
    if events == [] then []
    else (if events[0].PollOf? then [Polled(b, events[0].meets).1] else []) + Answers(Turned(b, events[0]), events[1..])
  }

  predicate IsLast(p: Poll) {
    p.Failed? || p.End? || (p.Ready? && p.frame.Trailers?)
  }

  lemma PollEnds(b: Body, m: Meets)
    ensures b.ended ==> Polled(b, m) == (b, End)
    ensures IsLast(Polled(b, m).1) ==> Polled(b, m).0.ended
  {
  }

  lemma {:induction false} EndedStays(b: Body, events: seq<Event>)
    requires b.ended
    ensures After(b, events).ended && After(b, events).reports == b.reports && After(b, events).tracking == b.tracking
    ensures forall i | 0 <= i < |Answers(b, events)| :: Answers(b, events)[i] == End
    decreases events
  {
    if events != [] {
      EndedStays(Turned(b, events[0]), events[1..]);
    }
  }

  /** Data frames, then at most one trailers frame or error, then only the end. */
  lemma {:induction false} FramesInOrder(b: Body, events: seq<Event>)
    ensures LastIsLast(Answers(b, events))
    decreases events
  {
    hide Polled, LastIsLast, IsLast;
    NothingIsLast();
    if events != [] {
      var next, rest := Turned(b, events[0]), events[1..];
      FramesInOrder(next, rest);
      if events[0].PollOf? {
        PollEnds(b, events[0].meets);
        var first, later := Polled(b, events[0].meets).1, Answers(next, rest);
        if IsLast(first) {
          EndedStays(next, rest);
        }
        assert Answers(b, events) == [first] + later;
        LastFirst(first, later);
      } else {
        assert Answers(b, events) == Answers(next, rest);
      }
    }
  }

  /** After trailers, an error or the end, only the end. */
  predicate LastIsLast(answers: seq<Poll>) {
    forall i, j | 0 <= i < j < |answers| && IsLast(answers[i]) :: answers[j] == End
  }

  lemma NothingIsLast()
    ensures LastIsLast([])
  {
  }

  lemma LastFirst(first: Poll, later: seq<Poll>)
    requires LastIsLast(later) && (IsLast(first) ==> forall j | 0 <= j < |later| :: later[j] == End)
    ensures LastIsLast([first] + later)
  {
    hide IsLast;
    var answers := [first] + later;
    assert forall j | 1 <= j < |answers| :: answers[j] == later[j - 1];
  }

  // ---- The report of a marked stream ----

  const CLEAN := Ready(Trailers(Some(OK)))

  /** Not yet reported, or reported once and ended. */
  predicate Reporting(b: Body, before: seq<Outcome>, clean: bool) {
    if b.tracking then !b.ended && b.reports == before && !clean
    else
      && b.ended && |b.reports| == |before| + 1 && b.reports[..|before|] == before
      && (b.reports[|before|].Completed? <==> clean)
  }

  lemma PollReports(b: Body, m: Meets, before: seq<Outcome>, clean: bool)
    requires Reporting(b, before, clean)
    ensures Reporting(Polled(b, m).0, before, clean || Polled(b, m).1 == CLEAN)
  {
  }

  lemma {:induction false} RunReports(b: Body, events: seq<Event>, before: seq<Outcome>, clean: bool)
    requires Reporting(b, before, clean)
    ensures Reporting(After(b, events), before, clean || CLEAN in Answers(b, events))
    decreases events
  {
    hide Polled;
    if events != [] {
      if events[0].PollOf? {
        PollReports(b, events[0].meets, before, clean);
        var answer := Polled(b, events[0].meets).1;
        RunReports(Turned(b, events[0]), events[1..], before, clean || answer == CLEAN);
        assert CLEAN in Answers(b, events) <==> answer == CLEAN || CLEAN in Answers(Turned(b, events[0]), events[1..]);
      } else {
        RunReports(Turned(b, events[0]), events[1..], before, clean);
        assert Answers(b, events) == Answers(Turned(b, events[0]), events[1..]);
      }
    }
  }

  /**
   * Over any polls and cancellations, ended by the drop: a marked stream's end is reported exactly
   * once, as completed exactly when trailers with `grpc-status: 0` were returned.
   */
  lemma ReportedOnce(reason: Option<Reason>, before: seq<Outcome>, deadline: bool, empty: bool, events: seq<Event>)
    ensures var b := Created(reason, before, deadline, true, empty);
            var reports := Dropped(After(b, events)).reports;
            && |reports| == |before| + 1 && reports[..|before|] == before
            && (reports[|before|].Completed? <==> CLEAN in Answers(b, events))
  {
    hide Polled;
    var b := Created(reason, before, deadline, true, empty);
    if empty {
      assert b.reports == before + [CutOff(reason)];
    }
    RunReports(b, events, before, false);
    var end := After(b, events);
    if end.tracking {
      assert Dropped(end).reports == before + [CutOff(Dropped(end).reason)];
    } else {
      assert Dropped(end).reports == end.reports;
    }
  }

  lemma {:induction false} UntrackedStays(b: Body, events: seq<Event>)
    requires !b.tracking
    ensures !After(b, events).tracking && After(b, events).reports == b.reports
    decreases events
  {
    if events != [] {
      UntrackedStays(Turned(b, events[0]), events[1..]);
    }
  }

  /** A reply that is no marked stream reports nothing, however it ends. */
  lemma UnmarkedReportsNothing(reason: Option<Reason>, before: seq<Outcome>, deadline: bool, empty: bool,
      events: seq<Event>)
    ensures Dropped(After(Created(reason, before, deadline, false, empty), events)).reports == before
  {
    hide After;
    UntrackedStays(Created(reason, before, deadline, false, empty), events);
  }

  // ---- The deadline ----

  lemma {:induction false} CancelsKeep(b: Body, events: seq<Event>)
    requires forall i | 0 <= i < |events| :: events[i].CancelOf?
    ensures After(b, events) == b.(reason := After(b, events).reason)
    decreases events
  {
    if events != [] {
      CancelsKeep(Turned(b, events[0]), events[1..]);
    }
  }

  /**
   * A body whose poll observes the deadline has ended by that poll or the next, whatever is
   * cancelled between; and a marked stream's next poll yields no frame of the reply.
   */
  lemma DeadlineEnds(b: Body, m: Meets, between: seq<Event>, next: Meets)
    requires Observes(b, m) && forall i | 0 <= i < |between| :: between[i].CancelOf?
    ensures var b1 := After(Polled(b, m).0, between);
            && Polled(b1, next).0.ended
            && (b.tracking ==>
                  Polled(b1, next).1 == End || Polled(b1, next).1 == Ready(Trailers(Some(DEADLINE_EXCEEDED))))
            && b1.reason.Some? && !b1.deadline
  {
    hide Polled;
    var first := Polled(b, m).0;
    CancelsKeep(first, between);
    ObservedOnce(b, m);
    CancelsWriteOnce(first, between);
    EndsNext(b, m, After(first, between), next);
  }

  lemma ObservedOnce(b: Body, m: Meets)
    requires Observes(b, m)
    ensures var first := Polled(b, m).0;
            first.reason.Some? && !first.deadline && (first.ended || (first.expired && first.tracking == b.tracking))
  {
  }

  lemma EndsNext(b: Body, m: Meets, b1: Body, next: Meets)
    requires b1.ended || (b1.expired && b1.tracking == b.tracking)
    ensures Polled(b1, next).0.ended
    ensures b.tracking ==> Polled(b1, next).1 == End || Polled(b1, next).1 == Ready(Trailers(Some(DEADLINE_EXCEEDED)))
  {
  }

  lemma {:induction false} CancelsWriteOnce(b: Body, events: seq<Event>)
    requires b.reason.Some? && forall i | 0 <= i < |events| :: events[i].CancelOf?
    ensures After(b, events).reason == b.reason
    decreases events
  {
    if events != [] {
      CancelsWriteOnce(Turned(b, events[0]), events[1..]);
    }
  }

  // ---- Runs of a reply stream's items ----

  datatype ItemsEvent = NextOf(offers: Offers) | Cancel(reason: Reason)

  function ItemsTurned(i: Items, e: ItemsEvent): Items {
    match e
    case NextOf(o) => NextItem(i, o).0
    case Cancel(reason) => i.(reason := Cancelled(i.reason, reason))
  }

  function ItemsAnswers(i: Items, events: seq<ItemsEvent>): seq<ItemsPoll>
    decreases events
  {
    if events == [] then []
    else
      (if events[0].NextOf? then [NextItem(i, events[0].offers).1] else []) +
      ItemsAnswers(ItemsTurned(i, events[0]), events[1..])
  }

  lemma {:induction false} DoneStays(i: Items, events: seq<ItemsEvent>)
    requires i.mode.Done?
    ensures forall k | 0 <= k < |ItemsAnswers(i, events)| :: ItemsAnswers(i, events)[k] == Finish
    decreases events
  {
    if events != [] {
      DoneStays(ItemsTurned(i, events[0]), events[1..]);
    }
  }

  /** At most one `Err` item in the stream's life, and nothing after it or after its end. */
  lemma {:induction false} NothingAfterTheEnd(i: Items, events: seq<ItemsEvent>)
    ensures FinalIsFinal(ItemsAnswers(i, events))
    decreases events
  {
    hide NextItem, FinalIsFinal;
    NothingIsFinal();
    if events != [] {
      var next, rest := ItemsTurned(i, events[0]), events[1..];
      NothingAfterTheEnd(next, rest);
      if events[0].NextOf? {
        var first, later := NextItem(i, events[0].offers).1, ItemsAnswers(next, rest);
        NextIsDone(i, events[0].offers);
        if first.Error? || first.Finish? {
          DoneStays(next, rest);
        }
        assert ItemsAnswers(i, events) == [first] + later;
        FinalFirst(first, later);
      } else {
        assert ItemsAnswers(i, events) == ItemsAnswers(next, rest);
      }
    }
  }

  /** Nothing but the end comes after an error or the end. */
  predicate FinalIsFinal(answers: seq<ItemsPoll>) {
    forall k, l | 0 <= k < l < |answers| && (answers[k].Error? || answers[k].Finish?) :: answers[l] == Finish
  }

  lemma NothingIsFinal()
    ensures FinalIsFinal([])
  {
  }

  lemma FinalFirst(first: ItemsPoll, later: seq<ItemsPoll>)
    requires FinalIsFinal(later)
    requires first.Error? || first.Finish? ==> forall l | 0 <= l < |later| :: later[l] == Finish
    ensures FinalIsFinal([first] + later)
  {
    var answers := [first] + later;
    assert forall l | 1 <= l < |answers| :: answers[l] == later[l - 1];
  }

  lemma NextIsDone(i: Items, o: Offers)
    ensures NextItem(i, o).1.Error? || NextItem(i, o).1.Finish? ==> NextItem(i, o).0.mode.Done?
  {
  }

  function ItemsIn(answers: seq<ItemsPoll>): nat {
    if answers == [] then 0 else (if answers[0].Item? then 1 else 0) + ItemsIn(answers[1..])
  }

  /** How many items a stream may still yield once the drain or the deadline has cancelled it. */
  function StillDue(i: Items): nat {
    if i.mode.Streaming? && i.waiting then 1 else 0
  }

  lemma NextAfterCancel(i: Items, o: Offers)
    requires Ending(i.reason) && !i.settled
    ensures var (next, answer) := NextItem(i, o);
            && Ending(next.reason) && !next.settled
            && (if answer.Item? then 1 else 0) + StillDue(next) <= StillDue(i)
  {
  }

  /**
   * A stream not settled yields at most one more item after a drain or deadline cancellation, and
   * none unless it was waiting.
   */
  lemma {:induction false} OneMoreItem(i: Items, events: seq<ItemsEvent>)
    requires Ending(i.reason) && !i.settled
    ensures ItemsIn(ItemsAnswers(i, events)) <= StillDue(i)
    decreases events
  {
    hide NextItem;
    if events != [] {
      if events[0].NextOf? {
        NextAfterCancel(i, events[0].offers);
        OneMoreItem(ItemsTurned(i, events[0]), events[1..]);
        assert ItemsAnswers(i, events)[1..] == ItemsAnswers(ItemsTurned(i, events[0]), events[1..]);
      } else {
        OneMoreItem(ItemsTurned(i, events[0]), events[1..]);
        assert ItemsAnswers(i, events) == ItemsAnswers(ItemsTurned(i, events[0]), events[1..]);
      }
    }
  }
}
