/** What a reply body and a reply stream answer, poll by poll, told from what the run offers alone. */
module BodyRuns {
  import opened Options
  import opened Bodies
  import opened BodyLaws

  /** The reason in force: the first ever given. */
  function FirstOf(reason: Option<Reason>, causes: seq<Reason>): Option<Reason> {
    if reason.Some? || causes == [] then reason else Some(causes[0])
  }

  // ---- The outermost body ----

  function Polls(events: seq<Event>): seq<Meets> {
    if events == [] then []
    else (if events[0].PollOf? then [events[0].meets] else []) + Polls(events[1..])
  }

  /** The reply ends by itself with this answer. */
  predicate OwnEnd(m: Meets) {
    match m.inner
    case Pending => false
    case Ready(frame) => frame.Trailers? || m.last
    case Failed => true
    case End => true
  }

  predicate NoOwnEnd(polls: seq<Meets>, k: nat) {
    forall j | 0 <= j < k && j < |polls| :: !OwnEnd(polls[j])
  }

  /** Poll `k` is the first to find the deadline passed. */
  predicate FallsDue(polls: seq<Meets>, deadline: bool, k: nat) {
    deadline && k < |polls| && polls[k].due && forall j | 0 <= j < k :: !polls[j].due
  }

  /**
   * Poll `k` cuts the reply off: the first to find the deadline passed and nothing ready, or the one
   * after a first that found data; that one lets the end of a reply that is no marked stream through.
   */
  predicate CutAt(polls: seq<Meets>, deadline: bool, marked: bool, k: nat) {
    && k < |polls| && NoOwnEnd(polls, k)
    && (|| (FallsDue(polls, deadline, k) && polls[k].inner.Pending?)
        || (k > 0 && FallsDue(polls, deadline, k - 1) && polls[k - 1].inner.Ready? && (marked || !OwnEnd(polls[k]))))
  }

  predicate OverBefore(polls: seq<Meets>, deadline: bool, marked: bool, k: nat) {
    !NoOwnEnd(polls, k) || exists j | 0 <= j < k :: CutAt(polls, deadline, marked, j)
  }

  /** What poll `k` is answered. */
  function AnswerAt(polls: seq<Meets>, deadline: bool, marked: bool, k: nat): Poll
    requires k < |polls|
  {
    if OverBefore(polls, deadline, marked, k) then End
    else if CutAt(polls, deadline, marked, k) then Ready(Trailers(Some(4)))
    else polls[k].inner
  }

  // ---- From any state of a body that has not ended ----

  predicate Open(b: Body) {
    !b.ended && (b.expired ==> !b.deadline)
  }

  /** `CutAt`, for a body of which the deadline may already have passed. */
  predicate CutFrom(b: Body, polls: seq<Meets>, k: nat) {
    || CutAt(polls, b.deadline, b.tracking, k)
    || (k == 0 && polls != [] && b.expired && (b.tracking || !OwnEnd(polls[0])))
  }

  predicate OverFrom(b: Body, polls: seq<Meets>, k: nat) {
    !NoOwnEnd(polls, k) || exists j | 0 <= j < k :: CutFrom(b, polls, j)
  }

  function AnswerFrom(b: Body, polls: seq<Meets>, k: nat): Poll
    requires k < |polls|
  {
    if OverFrom(b, polls, k) then End
    else if CutFrom(b, polls, k) then Ready(Trailers(Some(4)))
    else polls[k].inner
  }

  predicate Cuts(b: Body, m: Meets) {
    (b.deadline && m.due && m.inner.Pending?) || (b.expired && (b.tracking || !OwnEnd(m)))
  }

  /** One poll of an open body. */
  lemma PollStep(b: Body, m: Meets)
    requires Open(b)
    ensures var (next, answer) := Polled(b, m);
            && answer == (if Cuts(b, m) then Ready(Trailers(Some(4))) else m.inner)
            && (next.ended <==> Cuts(b, m) || OwnEnd(m))
            && (!next.ended ==>
                  && Open(next) && next.tracking == b.tracking && next.reports == b.reports
                  && next.deadline == (b.deadline && !m.due) && next.expired == (b.deadline && m.due)
                  && (next.expired ==> m.inner.Ready?)
                  && next.reason == if b.deadline && m.due then FirstOf(b.reason, [Deadline]) else b.reason)
  {
  }

  lemma CutsFirst(b: Body, polls: seq<Meets>)
    requires polls != [] && Open(b)
    ensures CutFrom(b, polls, 0) <==> Cuts(b, polls[0])
    ensures !OverFrom(b, polls, 0)
  {
    hide OwnEnd;
  }

  /** After a poll that leaves the body open, the rest is cut where the whole is. */
  lemma CutLater(b: Body, polls: seq<Meets>, next: Body, k: nat)
    requires polls != [] && Open(b) && !Cuts(b, polls[0]) && !OwnEnd(polls[0]) && next.tracking == b.tracking
    requires next.deadline == (b.deadline && !polls[0].due) && next.expired == (b.deadline && polls[0].due)
    requires next.expired ==> polls[0].inner.Ready?
    ensures CutFrom(next, polls[1..], k) <==> CutFrom(b, polls, k + 1)
  {
    hide OwnEnd, Cuts;
    var rest := polls[1..];
    assert forall j | 0 <= j < |rest| :: rest[j] == polls[j + 1];
    assert NoOwnEnd(rest, k) <==> NoOwnEnd(polls, k + 1) by { NoOwnEndLater(polls, k); }
    DueLater(polls, b.deadline, k);
    if k > 0 {
      DueLater(polls, b.deadline, k - 1);
    }
    assert k == 0 && polls[0].due ==> !FallsDue(polls, b.deadline, 1);
  }

  lemma NoOwnEndLater(polls: seq<Meets>, k: nat)
    requires polls != [] && !OwnEnd(polls[0])
    ensures NoOwnEnd(polls[1..], k) <==> NoOwnEnd(polls, k + 1)
  {
    hide OwnEnd;
    var rest := polls[1..];
    if NoOwnEnd(rest, k) {
      assert forall j | 1 <= j < |polls| :: polls[j] == rest[j - 1];
    }
    if NoOwnEnd(polls, k + 1) {
      assert forall j | 0 <= j < |rest| :: rest[j] == polls[j + 1];
    }
  }

  lemma DueLater(polls: seq<Meets>, deadline: bool, k: nat)
    requires polls != []
    ensures FallsDue(polls[1..], deadline && !polls[0].due, k) <==> FallsDue(polls, deadline, k + 1)
  {
    var rest := polls[1..];
    assert forall j | 1 <= j < |polls| :: polls[j] == rest[j - 1];
    assert forall j | 0 <= j < |rest| :: rest[j] == polls[j + 1];
  }

  lemma OverLater(b: Body, polls: seq<Meets>, next: Body, k: nat)
    requires polls != [] && Open(b) && !Cuts(b, polls[0]) && !OwnEnd(polls[0]) && next.tracking == b.tracking
    requires next.deadline == (b.deadline && !polls[0].due) && next.expired == (b.deadline && polls[0].due)
    requires next.expired ==> polls[0].inner.Ready?
    ensures OverFrom(next, polls[1..], k) <==> OverFrom(b, polls, k + 1)
  {
    hide OwnEnd, Cuts, CutFrom, NoOwnEnd;
    NoOwnEndLater(polls, k);
    forall j: nat
      ensures CutFrom(next, polls[1..], j) <==> CutFrom(b, polls, j + 1)
    {
      CutLater(b, polls, next, j);
    }
    CutsFirst(b, polls);
    if j :| 0 <= j < k && CutFrom(next, polls[1..], j) {
      assert CutFrom(b, polls, j + 1);
    }
    if j :| 0 <= j < k + 1 && CutFrom(b, polls, j) {
      assert CutFrom(next, polls[1..], j - 1);
    }
  }

  /** The answers of an open body. */
  lemma {:induction false} AnswersFrom(b: Body, events: seq<Event>)
    requires Open(b)
    ensures |Answers(b, events)| == |Polls(events)|
    ensures forall k | 0 <= k < |Polls(events)| :: Answers(b, events)[k] == AnswerFrom(b, Polls(events), k)
    decreases events
  {
    hide Polled, CutFrom, OverFrom, OwnEnd, Cuts;
    if events != [] {
      var next, rest, polls := Turned(b, events[0]), events[1..], Polls(events);
      if events[0].CancelOf? {
        AnswersFrom(next, rest);
        assert Answers(b, events) == Answers(next, rest) && polls == Polls(rest);
        forall k | 0 <= k < |polls|
          ensures AnswerFrom(b, polls, k) == AnswerFrom(next, polls, k)
        {
          SameAnswers(b, next, polls, k);
        }
      } else {
        var m := events[0].meets;
        PollStep(b, m);
        assert polls == [m] + Polls(rest) && polls[1..] == Polls(rest);
        assert Answers(b, events) == [Polled(b, m).1] + Answers(next, rest);
        CutsFirst(b, polls);
        if next.ended {
          EndedStays(next, rest);
          AnswersCount(next, rest);
          forall k | 1 <= k < |polls|
            ensures OverFrom(b, polls, k)
          {
            OverAfter(b, polls, k);
          }
        } else {
          AnswersFrom(next, rest);
          forall k | 1 <= k < |polls|
            ensures AnswerFrom(b, polls, k) == AnswerFrom(next, polls[1..], k - 1)
          {
            CutLater(b, polls, next, k - 1);
            OverLater(b, polls, next, k - 1);
          }
        }
      }
    }
  }

  lemma OverAfter(b: Body, polls: seq<Meets>, k: nat)
    requires polls != [] && Open(b) && (Cuts(b, polls[0]) || OwnEnd(polls[0])) && k >= 1
    ensures OverFrom(b, polls, k)
  {
    hide OwnEnd, Cuts, CutFrom;
    CutsFirst(b, polls);
  }

  lemma SameAnswers(b: Body, other: Body, polls: seq<Meets>, k: nat)
    requires other == b.(reason := other.reason) && k < |polls|
    ensures AnswerFrom(b, polls, k) == AnswerFrom(other, polls, k)
  {
    hide OwnEnd, CutAt, NoOwnEnd;
    assert forall j: nat :: CutFrom(b, polls, j) == CutFrom(other, polls, j);
  }

  lemma {:induction false} AnswersCount(b: Body, events: seq<Event>)
    ensures |Answers(b, events)| == |Polls(events)|
    decreases events
  {
    hide Polled;
    if events != [] {
      AnswersCount(Turned(b, events[0]), events[1..]);
    }
  }

  /**
   * Over any run of a new body: every poll is answered what the reply yielded to it, up to the reply's
   * own end or the poll the deadline cuts it off at; that one is answered DEADLINE_EXCEEDED, and every
   * later one the end. A reply already at its end yields nothing.
   */
  lemma AnswersAreTheReply(reason: Option<Reason>, before: seq<Outcome>, deadline: bool, marked: bool, empty: bool,
      events: seq<Event>)
    ensures var answers, polls := Answers(Created(reason, before, deadline, marked, empty), events), Polls(events);
            && |answers| == |polls|
            && forall k | 0 <= k < |polls| ::
                 answers[k] == if empty then End else AnswerAt(polls, deadline, marked, k)
  {
    hide Polled, CutAt, Answers, Polls;
    var b, polls := Created(reason, before, deadline, marked, empty), Polls(events);
    AnswersCount(b, events);
    if empty {
      EndedStays(b, events);
    } else {
      AnswersFrom(b, events);
      forall k | 0 <= k < |polls|
        ensures AnswerFrom(b, polls, k) == AnswerAt(polls, deadline, marked, k)
      {
        FreshAnswers(b, polls, k);
      }
    }
  }

  lemma FreshAnswers(b: Body, polls: seq<Meets>, k: nat)
    requires !b.expired && k < |polls|
    ensures AnswerFrom(b, polls, k) == AnswerAt(polls, b.deadline, b.tracking, k)
  {
    hide OwnEnd, CutAt, NoOwnEnd;
    assert forall j: nat :: CutFrom(b, polls, j) == CutAt(polls, b.deadline, b.tracking, j);
  }

  /** With no deadline due, every answer up to the first last one is the reply's own. */
  lemma UncutAnswers(reason: Option<Reason>, before: seq<Outcome>, deadline: bool, marked: bool, events: seq<Event>,
      k: nat)
    requires k < |Polls(events)| && NoOwnEnd(Polls(events), k)
    requires deadline ==> forall j | 0 <= j <= k :: !Polls(events)[j].due
    ensures |Answers(Created(reason, before, deadline, marked, false), events)| == |Polls(events)|
    ensures Answers(Created(reason, before, deadline, marked, false), events)[k] == Polls(events)[k].inner
  {
    hide OwnEnd, Answers, Polls;
    AnswersAreTheReply(reason, before, deadline, marked, false, events);
  }

  // ---- The report ----

  /** Everything in a run that gives a reason: a cancellation, or a poll that finds the deadline passed. */
  function Causes(deadline: bool, events: seq<Event>): seq<Reason> {
    if events == [] then []
    else
      (match events[0]
       case CancelOf(reason) => [reason]
       case PollOf(m) => if deadline && m.due then [Deadline] else [])
      + Causes(deadline, events[1..])
  }

  /** No poll of the run ends the body. */
  predicate RunsOn(polls: seq<Meets>, deadline: bool, marked: bool) {
    !OverBefore(polls, deadline, marked, |polls|)
  }

  predicate RunsOnFrom(b: Body, polls: seq<Meets>) {
    !OverFrom(b, polls, |polls|)
  }

  lemma RunsOnNext(b: Body, polls: seq<Meets>)
    requires polls != [] && Open(b) && RunsOnFrom(b, polls)
    ensures !Cuts(b, polls[0]) && !OwnEnd(polls[0])
  {
    hide OwnEnd, Cuts, CutFrom;
    CutsFirst(b, polls);
  }

  lemma {:induction false} CausesFirst(reason: Option<Reason>, deadline: bool, events: seq<Event>)
    ensures reason.Some? ==> FirstOf(reason, Causes(deadline, events)) == reason
    ensures FirstOf(reason, Causes(false, events)) == FirstOf(reason, Causes(deadline, events)) ||
            (deadline && FirstOf(reason, Causes(deadline, events)).Some?)
    decreases events
  {
    if events != [] {
      CausesFirst(reason, deadline, events[1..]);
    }
  }

  /** An open body the run leaves open has reported nothing, and its reason is the first given. */
  lemma {:induction false} OpenKeeps(b: Body, events: seq<Event>)
    requires Open(b) && RunsOnFrom(b, Polls(events)) && (b.expired ==> b.reason.Some?)
    ensures var end := After(b, events);
            && Open(end) && end.tracking == b.tracking && end.reports == b.reports
            && end.reason == FirstOf(b.reason, Causes(b.deadline, events))
            && (end.expired || end.deadline != b.deadline ==> end.reason.Some?)
    decreases events
  {
    hide Polled, OwnEnd, Cuts, CutFrom, OverFrom;
    if events != [] {
      var next, rest, polls := Turned(b, events[0]), events[1..], Polls(events);
      if events[0].CancelOf? {
        assert polls == Polls(rest);
        SameOver(b, next, polls, |polls|);
        OpenKeeps(next, rest);
      } else {
        var m := events[0].meets;
        assert polls == [m] + Polls(rest) && polls[1..] == Polls(rest);
        RunsOnNext(b, polls);
        PollStep(b, m);
        OverLater(b, polls, next, |polls| - 1);
        OpenKeeps(next, rest);
        CausesFirst(next.reason, b.deadline, rest);
      }
    }
  }

  lemma SameOver(b: Body, other: Body, polls: seq<Meets>, k: nat)
    requires other == b.(reason := other.reason)
    ensures OverFrom(b, polls, k) == OverFrom(other, polls, k)
  {
    hide OwnEnd, CutAt, NoOwnEnd;
    assert forall j: nat :: CutFrom(b, polls, j) == CutFrom(other, polls, j);
  }

  lemma FreshRunsOn(b: Body, polls: seq<Meets>)
    requires !b.expired
    ensures RunsOnFrom(b, polls) == RunsOn(polls, b.deadline, b.tracking)
  {
    hide OwnEnd, CutAt, NoOwnEnd;
    assert forall j: nat :: CutFrom(b, polls, j) == CutAt(polls, b.deadline, b.tracking, j);
  }

  /** A body dropped before its end: the client gave up, unless a reason was given before. */
  lemma DroppedOpen(reason: Option<Reason>, before: seq<Outcome>, deadline: bool, marked: bool, events: seq<Event>)
    requires RunsOn(Polls(events), deadline, marked)
    ensures var end := Dropped(After(Created(reason, before, deadline, marked, false), events));
            var why := FirstOf(reason, Causes(deadline, events) + [ClientCancelled]);
            end.reason == why && end.reports == before + if marked then [CutOff(why)] else []
  {
    hide Polled, CutAt, After, Polls, Causes;
    var b := Created(reason, before, deadline, marked, false);
    FreshRunsOn(b, Polls(events));
    OpenKeeps(b, events);
  }

  /** After a run that leaves the body open, one more poll ends it as the whole run says. */
  lemma {:induction false} LastPoll(b: Body, events: seq<Event>, m: Meets)
    requires Open(b) && RunsOnFrom(b, Polls(events))
    ensures Open(After(b, events))
    ensures Cuts(After(b, events), m) <==> CutFrom(b, Polls(events) + [m], |Polls(events)|)
    ensures Cuts(After(b, events), m) || OwnEnd(m) <==> !RunsOnFrom(b, Polls(events) + [m])
    decreases events
  {
    hide Polled, OwnEnd, Cuts, CutFrom, OverFrom;
    if events == [] {
      assert [] + [m] == [m];
      CutsFirst(b, [m]);
      OnePoll(b, m);
    } else {
      var next, rest, polls := Turned(b, events[0]), events[1..], Polls(events);
      if events[0].CancelOf? {
        assert polls == Polls(rest);
        SameOver(b, next, polls, |polls|);
        LastPoll(next, rest, m);
        SameOver(b, next, polls + [m], |polls| + 1);
        SameCut(b, next, polls + [m], |polls|);
      } else {
        assert polls == [events[0].meets] + Polls(rest) && polls[1..] == Polls(rest);
        RunsOnNext(b, polls);
        PollStep(b, events[0].meets);
        OverLater(b, polls, next, |polls| - 1);
        LastPoll(next, rest, m);
        assert (polls + [m])[1..] == polls[1..] + [m];
        CutLater(b, polls + [m], next, |polls| - 1);
        OverLater(b, polls + [m], next, |polls|);
      }
    }
  }

  lemma OnePoll(b: Body, m: Meets)
    requires Open(b)
    ensures RunsOnFrom(b, [m]) <==> !Cuts(b, m) && !OwnEnd(m)
  {
    hide OwnEnd, Cuts, CutFrom;
    CutsFirst(b, [m]);
    assert NoOwnEnd([m], 1) <==> !OwnEnd([m][0]);
    assert OverFrom(b, [m], 1) <==> !NoOwnEnd([m], 1) || CutFrom(b, [m], 0);
  }

  lemma SameCut(b: Body, other: Body, polls: seq<Meets>, k: nat)
    requires other == b.(reason := other.reason)
    ensures CutFrom(b, polls, k) == CutFrom(other, polls, k)
  {
    hide OwnEnd, CutAt, NoOwnEnd;
  }

  lemma {:induction false} AfterSplit(b: Body, events: seq<Event>, more: seq<Event>)
    ensures After(b, events + more) == After(After(b, events), more)
    decreases events
  {
    hide Turned;
    if events == [] {
      assert events + more == more;
    } else {
      assert (events + more)[1..] == events[1..] + more;
      AfterSplit(Turned(b, events[0]), events[1..], more);
    }
  }

  lemma {:induction false} CausesSplit(deadline: bool, events: seq<Event>, m: Meets)
    ensures Causes(deadline, events + [PollOf(m)]) ==
            Causes(deadline, events) + if deadline && m.due then [Deadline] else []
    decreases events
  {
    if events == [] {
      assert [] + [PollOf(m)] == [PollOf(m)] && [PollOf(m)][1..] == [];
    } else {
      assert (events + [PollOf(m)])[1..] == events[1..] + [PollOf(m)];
      CausesSplit(deadline, events[1..], m);
    }
  }

  /** What the poll that ends a body reports. */
  lemma EndReports(b: Body, m: Meets)
    requires Open(b) && (Cuts(b, m) || OwnEnd(m))
    ensures var next := Polled(b, m).0;
            var clean := !Cuts(b, m) && m.inner == Ready(Trailers(Some(0)));
            var why := if b.deadline && m.due then FirstOf(b.reason, [Deadline]) else b.reason;
            && next.ended && !next.tracking
            && next.reports == b.reports + if !b.tracking then [] else if clean then [Completed] else [CutOff(why)]
  {
  }

  /**
   * A body that ends before it is dropped reports its end with the reason in force at that poll,
   * whatever comes after: completed exactly when the reply's own trailers say so.
   */
  lemma EndedReport(reason: Option<Reason>, before: seq<Outcome>, deadline: bool, marked: bool, events: seq<Event>,
      m: Meets, rest: seq<Event>)
    requires RunsOn(Polls(events), deadline, marked) && !RunsOn(Polls(events) + [m], deadline, marked)
    ensures var end := After(Created(reason, before, deadline, marked, false), events + [PollOf(m)] + rest);
            var cut := CutAt(Polls(events) + [m], deadline, marked, |Polls(events)|);
            var clean := !cut && m.inner == Ready(Trailers(Some(0)));
            var why := FirstOf(reason, Causes(deadline, events + [PollOf(m)]));
            && end.ended
            && Dropped(end).reports == before + if !marked then [] else if clean then [Completed] else [CutOff(why)]
  {
    hide Polled, CutAt, After, Polls, Causes, Cuts, OwnEnd, OverFrom, OverBefore;
    var b, polls := Created(reason, before, deadline, marked, false), Polls(events);
    FreshRunsOn(b, polls);
    FreshRunsOn(b, polls + [m]);
    OpenKeeps(b, events);
    LastPoll(b, events, m);
    var open := After(b, events);
    EndReports(open, m);
    AfterSplit(b, events, [PollOf(m)] + rest);
    assert events + [PollOf(m)] + rest == events + ([PollOf(m)] + rest);
    AfterPoll(open, m, rest);
    EndedStays(Polled(open, m).0, rest);
    CausesSplit(deadline, events, m);
  }

  lemma AfterPoll(b: Body, m: Meets, rest: seq<Event>)
    ensures After(b, [PollOf(m)] + rest) == After(Polled(b, m).0, rest)
  {
    hide Polled;
    assert ([PollOf(m)] + rest)[1..] == rest;
  }

  /** A reply already at its end was cut off before it began. */
  lemma EmptyReport(reason: Option<Reason>, before: seq<Outcome>, deadline: bool, marked: bool, events: seq<Event>)
    ensures Dropped(After(Created(reason, before, deadline, marked, true), events)).reports ==
            before + if marked then [CutOff(reason)] else []
  {
    hide After;
    EndedStays(Created(reason, before, deadline, marked, true), events);
  }

  // ---- A reply stream's items ----

  /** What a poll is offered, and the reason in force then. */
  datatype Met = Met(offers: Offers, reason: Option<Reason>)

  function Meetings(reason: Option<Reason>, events: seq<ItemsEvent>): seq<Met>
    decreases events
  {
    if events == [] then []
    else
      match events[0]
      case NextOf(o) => [Met(o, reason)] + Meetings(reason, events[1..])
      case Cancel(with) => Meetings(FirstOf(reason, [with]), events[1..])
  }

  /**
   * Poll `k` ends a stream the drain or the deadline cancelled: at once if the poll before it was not
   * left waiting, else as soon as it has nothing ready and hears of the cancellation. `waits` is of a
   * wait before the first poll.
   */
  predicate CutShort(mets: seq<Met>, waits: bool, k: nat)
    requires k < |mets|
  {
    && mets[k].reason in {Some(Drain), Some(Deadline)}
    && ((if k == 0 then waits else mets[k - 1].offers.stream.NoItem?) ==>
          mets[k].offers.stream.NoItem? && mets[k].offers.woken)
  }

  /** `outlives`: the stream began after the deadline, and no cancellation ends it. */
  predicate Stops(mets: seq<Met>, waits: bool, outlives: bool, k: nat)
    requires k < |mets|
  {
    mets[k].offers.stream.Fault? || mets[k].offers.stream.Over? || (!outlives && CutShort(mets, waits, k))
  }

  predicate RunsTo(mets: seq<Met>, waits: bool, outlives: bool, k: nat)
    requires k <= |mets|
  {
    forall j | 0 <= j < k :: !Stops(mets, waits, outlives, j)
  }

  /** What the handlers' outcome is answered. */
  function RecoveryAnswer(recovery: Recovery): ItemsPoll {
    match recovery
    case Undecided => Wait
    case EndQuietly => Finish
    case Render => Error(Raised)
  }

  /** The answer of the poll that stops the stream. */
  function StopAnswer(mets: seq<Met>, waits: bool, outlives: bool, k: nat): ItemsPoll
    requires k < |mets|
  {
    if !outlives && CutShort(mets, waits, k) then Error(Cut(if mets[k].reason == Some(Drain) then 14 else 4))
    else if mets[k].offers.stream.Over? then Finish
    else if mets[k].offers.handled then RecoveryAnswer(mets[k].offers.recovery)
    else Error(Raised)
  }

  /** The handlers have not decided by poll `k` on an error raised at poll `at`. */
  predicate Deciding(mets: seq<Met>, waits: bool, outlives: bool, at: nat, k: nat)
    requires at <= k <= |mets| && at < |mets|
  {
    && mets[at].offers.stream.Fault? && mets[at].offers.handled && !(!outlives && CutShort(mets, waits, at))
    && forall j | at <= j < k :: mets[j].offers.recovery.Undecided?
  }

  /** Poll `k` has the answer it should. */
  predicate AnsweredWell(mets: seq<Met>, waits: bool, outlives: bool, answers: seq<ItemsPoll>, k: nat)
    requires k < |mets| && k < |answers|
  {
    && (RunsTo(mets, waits, outlives, k + 1) ==> answers[k] == if mets[k].offers.stream.Message? then Item else Wait)
    && (RunsTo(mets, waits, outlives, k) && Stops(mets, waits, outlives, k) ==>
          answers[k] == StopAnswer(mets, waits, outlives, k))
    && (forall at | 0 <= at < k && RunsTo(mets, waits, outlives, at) && Stops(mets, waits, outlives, at) ::
          answers[k] == if Deciding(mets, waits, outlives, at, k) then RecoveryAnswer(mets[k].offers.recovery)
          else Finish)
  }

  lemma {:induction false} ItemsCount(i: Items, events: seq<ItemsEvent>, reason: Option<Reason>)
    ensures |ItemsAnswers(i, events)| == |Meetings(reason, events)|
    decreases events
  {
    hide NextItem;
    if events != [] {
      var r := if events[0].Cancel? then FirstOf(reason, [events[0].reason]) else reason;
      ItemsCount(ItemsTurned(i, events[0]), events[1..], r);
    }
  }

  predicate AllUndecided(mets: seq<Met>, k: nat)
    requires k <= |mets|
  {
    forall j | 0 <= j < k :: mets[j].offers.recovery.Undecided?
  }

  /** A stream whose error the handlers have, answers what they decide, and then the end. */
  lemma {:induction false} Recovers(i: Items, events: seq<ItemsEvent>, reason: Option<Reason>, k: nat)
    requires i.mode.Recovering? && k < |Meetings(reason, events)|
    ensures |ItemsAnswers(i, events)| == |Meetings(reason, events)|
    ensures var mets := Meetings(reason, events);
            ItemsAnswers(i, events)[k] ==
              if AllUndecided(mets, k) then RecoveryAnswer(mets[k].offers.recovery) else Finish
    decreases events
  {
    hide AllUndecided;
    ItemsCount(i, events, reason);
    var next, rest, mets := ItemsTurned(i, events[0]), events[1..], Meetings(reason, events);
    if events[0].Cancel? {
      assert ItemsAnswers(i, events) == ItemsAnswers(next, rest);
      Recovers(next, rest, FirstOf(reason, [events[0].reason]), k);
    } else {
      assert mets[1..] == Meetings(reason, rest);
      assert ItemsAnswers(i, events) == [NextItem(i, events[0].offers).1] + ItemsAnswers(next, rest);
      assert k > 0 ==> mets[k] == mets[1..][k - 1];
      UndecidedNext(mets, k);
      if k > 0 {
        if mets[0].offers.recovery.Undecided? {
          Recovers(next, rest, reason, k - 1);
        } else {
          DoneStays(next, rest);
        }
      }
    }
  }

  lemma UndecidedNext(mets: seq<Met>, k: nat)
    requires k < |mets|
    ensures k == 0 ==> AllUndecided(mets, k)
    ensures k > 0 ==> (AllUndecided(mets, k) <==>
              mets[0].offers.recovery.Undecided? && AllUndecided(mets[1..], k - 1))
  {
    assert forall j | 1 <= j < |mets| :: mets[j] == mets[1..][j - 1];
    assert forall j | 0 <= j < |mets| - 1 :: mets[j + 1] == mets[1..][j];
  }

  /** One poll of a running stream. */
  lemma StreamStep(i: Items, o: Offers, mets: seq<Met>)
    requires i.mode.Streaming? && mets != [] && mets[0] == Met(o, i.reason)
    ensures var (next, answer) := NextItem(i, o);
            if !Stops(mets, i.waiting, i.settled, 0) then
              && next.mode.Streaming? && next.reason == i.reason && next.waiting == o.stream.NoItem?
              && (next.settled != i.settled ==> i.reason.Some? && !Ending(i.reason))
              && answer == if o.stream.Message? then Item else Wait
            else
              && answer == StopAnswer(mets, i.waiting, i.settled, 0)
              && (Deciding(mets, i.waiting, i.settled, 0, 1) ==> next.mode.Recovering?)
              && (!Deciding(mets, i.waiting, i.settled, 0, 1) ==> next.mode.Done?)
  {
  }

  /** A reason once given stays: later polls meet it too. */
  lemma {:induction false} ReasonStays(reason: Option<Reason>, events: seq<ItemsEvent>)
    requires reason.Some?
    ensures forall j | 0 <= j < |Meetings(reason, events)| :: Meetings(reason, events)[j].reason == reason
    decreases events
  {
    if events != [] {
      ReasonStays(reason, events[1..]);
    }
  }

  /** Where no poll meets the drain or the deadline it does not matter whether they would end the stream. */
  lemma NoneCut(mets: seq<Met>, waits: bool, one: bool, other: bool, answers: seq<ItemsPoll>, k: nat)
    requires k < |mets| && k < |answers| && AnsweredWell(mets, waits, one, answers, k)
    requires forall j | 0 <= j < |mets| :: !Ending(mets[j].reason)
    ensures AnsweredWell(mets, waits, other, answers, k)
  {
    hide Stops, Deciding, RunsTo, CutShort;
    forall j | 0 <= j < |mets|
      ensures Stops(mets, waits, one, j) == Stops(mets, waits, other, j)
      ensures StopAnswer(mets, waits, one, j) == StopAnswer(mets, waits, other, j)
      ensures j <= k ==> Deciding(mets, waits, one, j, k) == Deciding(mets, waits, other, j, k)
    {
      NotCut(mets, waits, j);
      SameStop(mets, waits, one, other, j, k);
    }
    forall j | 0 <= j <= |mets|
      ensures RunsTo(mets, waits, one, j) == RunsTo(mets, waits, other, j)
    {
      SameRun(mets, waits, one, other, j);
    }
  }

  lemma SameStop(mets: seq<Met>, waits: bool, one: bool, other: bool, j: nat, k: nat)
    requires j < |mets| && k < |mets| && !CutShort(mets, waits, j)
    ensures Stops(mets, waits, one, j) == Stops(mets, waits, other, j)
    ensures StopAnswer(mets, waits, one, j) == StopAnswer(mets, waits, other, j)
    ensures j <= k ==> Deciding(mets, waits, one, j, k) == Deciding(mets, waits, other, j, k)
  {
    hide CutShort;
  }

  lemma SameRun(mets: seq<Met>, waits: bool, one: bool, other: bool, k: nat)
    requires k <= |mets| && forall j | 0 <= j < |mets| :: Stops(mets, waits, one, j) == Stops(mets, waits, other, j)
    ensures RunsTo(mets, waits, one, k) == RunsTo(mets, waits, other, k)
  {
    hide Stops;
  }

  lemma NotCut(mets: seq<Met>, waits: bool, k: nat)
    requires k < |mets| && !Ending(mets[k].reason)
    ensures !CutShort(mets, waits, k)
  {
  }

  lemma StopsLater(mets: seq<Met>, waits: bool, outlives: bool, k: nat)
    requires k + 1 < |mets|
    ensures var later := mets[0].offers.stream.NoItem?;
            && (CutShort(mets[1..], later, k) <==> CutShort(mets, waits, k + 1))
            && (Stops(mets[1..], later, outlives, k) <==> Stops(mets, waits, outlives, k + 1))
  {
  }

  lemma RunsLater(mets: seq<Met>, waits: bool, outlives: bool, k: nat)
    requires k + 1 <= |mets| && !Stops(mets, waits, outlives, 0)
    ensures RunsTo(mets[1..], mets[0].offers.stream.NoItem?, outlives, k) <==> RunsTo(mets, waits, outlives, k + 1)
  {
    hide Stops;
    var rest, later := mets[1..], mets[0].offers.stream.NoItem?;
    if RunsTo(mets, waits, outlives, k + 1) {
      forall j | 0 <= j < k
        ensures !Stops(rest, later, outlives, j)
      {
        StopsLater(mets, waits, outlives, j);
      }
    }
    if RunsTo(rest, later, outlives, k) {
      forall j | 0 <= j < k + 1
        ensures !Stops(mets, waits, outlives, j)
      {
        if j > 0 {
          StopsLater(mets, waits, outlives, j - 1);
        }
      }
    }
  }

  lemma DecidingLater(mets: seq<Met>, waits: bool, outlives: bool, at: nat, k: nat)
    requires at <= k && at + 1 < |mets| && k + 1 <= |mets|
    ensures Deciding(mets[1..], mets[0].offers.stream.NoItem?, outlives, at, k) <==>
            Deciding(mets, waits, outlives, at + 1, k + 1)
  {
    hide CutShort;
    StopsLater(mets, waits, outlives, at);
    var rest := mets[1..];
    assert forall j | 0 <= j < |rest| :: rest[j] == mets[j + 1];
    assert forall j | 1 <= j < |mets| :: mets[j] == rest[j - 1];
  }

  /** The answers after a poll that goes on. */
  lemma WellLater(mets: seq<Met>, waits: bool, outlives: bool, answers: seq<ItemsPoll>, k: nat)
    requires 1 <= k < |mets| && k < |answers| && !Stops(mets, waits, outlives, 0)
    requires AnsweredWell(mets[1..], mets[0].offers.stream.NoItem?, outlives, answers[1..], k - 1)
    ensures AnsweredWell(mets, waits, outlives, answers, k)
  {
    hide Stops, RunsTo, Deciding, CutShort;
    var rest, later := mets[1..], mets[0].offers.stream.NoItem?;
    RunsLater(mets, waits, outlives, k);
    RunsLater(mets, waits, outlives, k - 1);
    StopsLater(mets, waits, outlives, k - 1);
    forall at | 0 <= at < k && RunsTo(mets, waits, outlives, at) && Stops(mets, waits, outlives, at)
      ensures answers[k] ==
              if Deciding(mets, waits, outlives, at, k) then RecoveryAnswer(mets[k].offers.recovery) else Finish
    {
      RunsLater(mets, waits, outlives, at - 1);
      StopsLater(mets, waits, outlives, at - 1);
      DecidingLater(mets, waits, outlives, at - 1, k - 1);
    }
  }

  /** The answers after a poll that stops the stream. */
  lemma WellStopped(mets: seq<Met>, waits: bool, outlives: bool, answers: seq<ItemsPoll>, k: nat)
    requires 1 <= k < |mets| && k < |answers| && Stops(mets, waits, outlives, 0)
    requires answers[k] ==
             if Deciding(mets, waits, outlives, 0, k) then RecoveryAnswer(mets[k].offers.recovery) else Finish
    ensures AnsweredWell(mets, waits, outlives, answers, k)
  {
    hide Stops, Deciding;
  }

  lemma WellFirst(mets: seq<Met>, waits: bool, outlives: bool, answers: seq<ItemsPoll>)
    requires mets != [] && answers != []
    requires answers[0] == if Stops(mets, waits, outlives, 0) then StopAnswer(mets, waits, outlives, 0)
             else if mets[0].offers.stream.Message? then Item else Wait
    ensures AnsweredWell(mets, waits, outlives, answers, 0)
  {
    hide Stops, Deciding;
  }

  lemma {:induction false} StreamAnswers(i: Items, events: seq<ItemsEvent>, k: nat)
    requires i.mode.Streaming? && k < |Meetings(i.reason, events)|
    ensures |ItemsAnswers(i, events)| == |Meetings(i.reason, events)|
    ensures AnsweredWell(Meetings(i.reason, events), i.waiting, i.settled, ItemsAnswers(i, events), k)
    decreases events
  {
    hide NextItem, Stops, Deciding, AnsweredWell;
    ItemsCount(i, events, i.reason);
    var next, rest := ItemsTurned(i, events[0]), events[1..];
    var mets, answers := Meetings(i.reason, events), ItemsAnswers(i, events);
    if events[0].Cancel? {
      assert answers == ItemsAnswers(next, rest) && mets == Meetings(next.reason, rest);
      StreamAnswers(next, rest, k);
    } else {
      var o := events[0].offers;
      assert mets == [Met(o, i.reason)] + Meetings(i.reason, rest) && mets[1..] == Meetings(i.reason, rest);
      assert answers == [NextItem(i, o).1] + ItemsAnswers(next, rest) && answers[1..] == ItemsAnswers(next, rest);
      StreamStep(i, o, mets);
      if k == 0 {
        WellFirst(mets, i.waiting, i.settled, answers);
      } else if Stops(mets, i.waiting, i.settled, 0) {
        StoppedThen(i, events, k);
      } else {
        StreamAnswers(next, rest, k - 1);
        if next.settled != i.settled {
          ReasonStays(i.reason, rest);
          NoneCut(mets[1..], next.waiting, next.settled, i.settled, answers[1..], k - 1);
        }
        WellLater(mets, i.waiting, i.settled, answers, k);
      }
    }
  }

  lemma StoppedThen(i: Items, events: seq<ItemsEvent>, k: nat)
    requires i.mode.Streaming? && events != [] && events[0].NextOf? && 1 <= k < |Meetings(i.reason, events)|
    requires Stops(Meetings(i.reason, events), i.waiting, i.settled, 0)
    ensures |ItemsAnswers(i, events)| == |Meetings(i.reason, events)|
    ensures AnsweredWell(Meetings(i.reason, events), i.waiting, i.settled, ItemsAnswers(i, events), k)
  {
    hide NextItem, Stops, AnsweredWell, CutShort;
    ItemsCount(i, events, i.reason);
    var o, rest := events[0].offers, events[1..];
    var mets, answers, next := Meetings(i.reason, events), ItemsAnswers(i, events), NextItem(i, o).0;
    assert mets == [Met(o, i.reason)] + Meetings(i.reason, rest) && mets[1..] == Meetings(i.reason, rest);
    assert answers == [NextItem(i, o).1] + ItemsAnswers(next, rest);
    StreamStep(i, o, mets);
    UndecidedNext(mets, k);
    assert Deciding(mets, i.waiting, i.settled, 0, k) <==>
      Deciding(mets, i.waiting, i.settled, 0, 1) && AllUndecided(mets[1..], k - 1);
    if next.mode.Recovering? {
      Recovers(next, rest, i.reason, k - 1);
      assert mets[k] == mets[1..][k - 1];
    } else {
      DoneStays(next, rest);
    }
    WellStopped(mets, i.waiting, i.settled, answers, k);
  }

  /** Every poll of a new stream has the answer it should. */
  predicate AllAnsweredWell(mets: seq<Met>, outlives: bool, answers: seq<ItemsPoll>) {
    |answers| == |mets| && forall k | 0 <= k < |mets| :: AnsweredWell(mets, false, outlives, answers, k)
  }

  lemma AllStreamAnswers(i: Items, events: seq<ItemsEvent>)
    requires i.mode.Streaming? && !i.waiting
    ensures AllAnsweredWell(Meetings(i.reason, events), i.settled, ItemsAnswers(i, events))
  {
    hide AnsweredWell, Meetings, ItemsAnswers;
    ItemsCount(i, events, i.reason);
    forall k | 0 <= k < |Meetings(i.reason, events)|
      ensures AnsweredWell(Meetings(i.reason, events), false, i.settled, ItemsAnswers(i, events), k)
    {
      StreamAnswers(i, events, k);
    }
  }

  /**
   * Over any run of a new stream: every poll is answered what the stream yields, an item for a message
   * and a wait for nothing, up to its end, its error or the poll that the drain or the deadline ends it
   * at; an error the handlers take is answered as they decide; and then comes only the end.
   */
  lemma ItemsAreTheStream(reason: Option<Reason>, events: seq<ItemsEvent>)
    ensures AllAnsweredWell(Meetings(reason, events), reason == Some(Deadline), ItemsAnswers(Begun(reason), events))
  {
    hide AllAnsweredWell, Meetings, ItemsAnswers;
    AllStreamAnswers(Begun(reason), events);
  }

  function MessagesIn(mets: seq<Met>): nat {
    if mets == [] then 0 else (if mets[0].offers.stream.Message? then 1 else 0) + MessagesIn(mets[1..])
  }

  lemma {:induction false} SameCount(mets: seq<Met>, answers: seq<ItemsPoll>)
    requires |mets| == |answers| && forall k | 0 <= k < |mets| :: answers[k].Item? <==> mets[k].offers.stream.Message?
    ensures ItemsIn(answers) == MessagesIn(mets)
  {
    if mets != [] {
      SameCount(mets[1..], answers[1..]);
    }
  }

  /** So a stream no drain and no deadline cancels delivers every message, as long as it yields no error and no end. */
  lemma EveryMessageIsDelivered(reason: Option<Reason>, events: seq<ItemsEvent>)
    requires var mets := Meetings(reason, events);
             && (reason == Some(Deadline) || forall k | 0 <= k < |mets| :: !Ending(mets[k].reason))
             && forall k | 0 <= k < |mets| :: mets[k].offers.stream.Message? || mets[k].offers.stream.NoItem?
    ensures ItemsIn(ItemsAnswers(Begun(reason), events)) == MessagesIn(Meetings(reason, events))
  {
    hide Meetings, ItemsAnswers, AnsweredWell;
    var mets := Meetings(reason, events);
    ItemsAreTheStream(reason, events);
    AllDelivered(mets, reason == Some(Deadline), ItemsAnswers(Begun(reason), events));
  }

  lemma AllDelivered(mets: seq<Met>, outlives: bool, answers: seq<ItemsPoll>)
    requires AllAnsweredWell(mets, outlives, answers)
    requires outlives || forall k | 0 <= k < |mets| :: !Ending(mets[k].reason)
    requires forall k | 0 <= k < |mets| :: mets[k].offers.stream.Message? || mets[k].offers.stream.NoItem?
    ensures ItemsIn(answers) == MessagesIn(mets)
  {
    hide Deciding, CutShort;
    forall k | 0 <= k < |mets|
      ensures !Stops(mets, false, outlives, k)
    {
      if !outlives {
        NotCut(mets, false, k);
      }
    }
    forall k | 0 <= k < |mets|
      ensures answers[k].Item? <==> mets[k].offers.stream.Message?
    {
      assert AnsweredWell(mets, false, outlives, answers, k) && RunsTo(mets, false, outlives, k + 1);
    }
    SameCount(mets, answers);
  }

  /** A stream the drain or the deadline finds waiting delivers the message its next poll yields, and no other. */
  lemma WaitedItemIsDelivered(i: Items, o: Offers, rest: seq<ItemsEvent>)
    requires i.mode.Streaming? && i.waiting && !i.settled && Ending(i.reason) && o.stream.Message?
    ensures var answers := ItemsAnswers(i, [NextOf(o)] + rest);
            answers != [] && answers[0] == Item && ItemsIn(answers) == 1
  {
    hide ItemsIn;
    var events := [NextOf(o)] + rest;
    var next := NextItem(i, o).0;
    assert events[1..] == rest;
    assert ItemsAnswers(i, events) == [Item] + ItemsAnswers(next, rest);
    OneMoreItem(next, rest);
    CountFirst(ItemsAnswers(next, rest));
  }

  lemma CountFirst(answers: seq<ItemsPoll>)
    ensures ItemsIn([Item] + answers) == 1 + ItemsIn(answers)
  {
    assert ([Item] + answers)[1..] == answers;
  }
}
