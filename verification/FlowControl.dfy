// Every order of deliveries, answers, writes, drains and teardown on a connection:
// what stays true, and that no frame is left waiting for ever.
module FlowControl {
  import opened Connections

  datatype Event =
    | Deliver(frames: seq<Frame>, framed: bool)
    | Answer(request: nat)
    | Reach(reply: bool, takes: bool, fits: bool, throws: bool)
    | Resume
    | Drain
    | End

  // A connection and what has passed through it.
  datatype History = History(
    now: State,
    arrived: seq<Frame>,
    dispatched: seq<Frame>,
    produced: seq<Frame>,
    finished: seq<Frame>)

  predicate Enabled(s: State, e: Event)
  {
    match e
    case Answer(i) => i < |s.answering|
    case Reach(_, _, _, _) => s.writing != [] && s.stage.Idle?
    case Resume => s.writing != [] && s.stage.Woken?
    case _ => true
  }

  function Step(s: State, e: Event): State
    requires Enabled(s, e)
  {
    match e
    case Deliver(frames, framed) => if framed || s.stopped then Fed(s, frames) else Closed(s)
    case Answer(i) => Answered(s, i)
    case Reach(reply, takes, fits, throws) =>
      if s.stopped || !reply || !takes then Sent(s)
      else if throws then Sent(Closed(s))
      else Written(s, fits)
    case Resume => Sent(s)
    case Drain => Drained(s)
    case End => Closed(s)
  }

  // What a step adds to the end of the answering list.
  function Dispatched(s: State, e: Event): seq<Frame>
    requires Enabled(s, e)
  {
    var t := Step(s, e);
    if e.Answer? || |t.answering| < |s.answering| then [] else t.answering[|s.answering|..]
  }

  function Next(h: History, e: Event): History
    requires Enabled(h.now, e)
  {
    var s, t := h.now, Step(h.now, e);
    History(t,
            if e.Deliver? && e.framed && !s.stopped then h.arrived + e.frames else h.arrived,
            h.dispatched + Dispatched(s, e),
            if e.Answer? then h.produced + [s.answering[e.request]] else h.produced,
            if |t.writing| < |s.writing| then h.finished + [s.writing[0]] else h.finished)
  }

  function Run(window: nat, events: seq<Event>): History
  {
    if events == [] then History(START(window), [], [], [], [])
    else
      var h := Run(window, events[..|events| - 1]);
      var e := events[|events| - 1];
      if Enabled(h.now, e) then Next(h, e) else h
  }

  // ---------- what every order keeps ----------

  // The counter is the requests not yet over, and never exceeds the window.
  predicate Windowed(s: State)
  {
    s.window >= 1 && s.inflight == |s.answering| + |s.writing| && s.inflight <= s.window
  }

  // At most the head of the chain is past its start, and it is parked on `drain`
  // exactly while the stream is known to be full.
  predicate OneWrite(s: State)
  {
    && (!s.stage.Idle? ==> s.writing != [])
    && (if s.stopped then !s.stage.Parked? else s.congested == s.stage.Parked?)
  }

  // Frames wait only for a reason, and the stream is read only with room.
  predicate Justified(s: State)
  {
    if s.stopped then s.waiting == []
    else
      && (s.waiting != [] ==> s.congested || s.inflight >= s.window)
      && s.paused == (s.congested || s.inflight >= s.window || s.waiting != [])
  }

  // Dispatch is in arrival order, and replies leave in the order they were made.
  predicate InOrder(h: History)
  {
    && (if h.now.stopped then h.dispatched <= h.arrived else h.dispatched + h.now.waiting == h.arrived)
    && h.produced == h.finished + h.now.writing
    && multiset(h.dispatched) == multiset(h.now.answering) + multiset(h.produced)
  }

  predicate Kept(h: History) { Steady(h.now) && InOrder(h) }

  // A state between handlers, and one in the middle of one: not pumped yet.
  predicate Steady(s: State) { Windowed(s) && OneWrite(s) && Justified(s) }

  predicate Unpumped(s: State)
  {
    && s.window >= 1 && s.inflight == |s.answering| + |s.writing| && s.inflight <= s.window
    && (s.stopped ==> s.waiting == [])
  }

  // What went to the session on the way from one state to another, given what came.
  predicate Flows(s: State, t: State, came: seq<Frame>, gone: seq<Frame>)
  {
    && t.answering == s.answering + gone
    && (if t.stopped then gone == [] else gone + t.waiting == s.waiting + came)
  }

  // What a step brings in.
  function Came(s: State, e: Event): seq<Frame> { if e.Deliver? && e.framed && !s.stopped then e.frames else [] }

  lemma PumpedIs(s: State)
    requires Unpumped(s)
    ensures var t, gone := Pumped(s), s.waiting[..Room(s)];
            && Windowed(t) && Justified(t) && Flows(s, t, [], gone)
            && t.writing == s.writing && t.stage == s.stage && t.congested == s.congested && t.stopped == s.stopped
            && t.window == s.window && |t.waiting| + |gone| == |s.waiting|
  {
    assert s.waiting + [] == s.waiting[..Room(s)] + s.waiting[Room(s)..];
  }

  lemma FedIs(s: State, frames: seq<Frame>)
    requires Steady(s)
    ensures var t := Fed(s, frames);
            && Steady(t) && t.writing == s.writing && t.stopped == s.stopped && t.window == s.window
            && exists gone :: Flows(s, t, Came(s, Deliver(frames, true)), gone)
  {
    hide Pumped;
    if s.stopped {
      assert Flows(s, s, Came(s, Deliver(frames, true)), []);
    } else {
      var u := s.(waiting := s.waiting + frames);
      PumpedIs(u);
      assert u.waiting + [] == u.waiting;
      assert Flows(s, Pumped(u), Came(s, Deliver(frames, true)), u.waiting[..Room(u)]);
    }
  }

  lemma SentIs(s: State)
    requires Unpumped(s) && s.writing != [] && (if s.stopped then true else !s.congested)
    ensures var t := Sent(s);
            && Steady(t) && t.writing == s.writing[1..] && t.stopped == s.stopped && t.window == s.window
            && Remaining(t) < Remaining(s)
            && exists gone :: Flows(s, t, [], gone)
  {
    hide Pumped;
    var u := s.(writing := s.writing[1..], stage := Idle, inflight := s.inflight - 1);
    PumpedIs(u);
    assert Flows(s, Pumped(u), [], u.waiting[..Room(u)]);
  }

  lemma DrainedIs(s: State)
    requires Steady(s)
    ensures var t := Drained(s);
            && Steady(t) && t.writing == s.writing && t.stopped == s.stopped && t.window == s.window
            && (s.stage.Parked? ==> Remaining(t) < Remaining(s))
            && exists gone :: Flows(s, t, [], gone)
  {
    hide Pumped;
    var u := Released(s.(congested := false));
    PumpedIs(u);
    assert Flows(s, Pumped(u), [], u.waiting[..Room(u)]);
  }

  lemma ClosedIs(s: State)
    requires Steady(s)
    ensures var t := Closed(s);
            && Steady(t) && t.writing == s.writing && t.stopped && t.window == s.window
            && Flows(s, t, [], []) && Remaining(t) <= Remaining(s)
  {
  }

  // A reply that finds the stream full is not over: it parks.
  lemma ParkedIs(s: State)
    requires Steady(s) && s.writing != [] && s.stage.Idle? && !s.stopped
    ensures var t := Written(s, false);
            && Steady(t) && t.writing == s.writing && t.window == s.window && !t.stopped
            && Flows(s, t, [], []) && Remaining(t) < Remaining(s)
  {
  }

  lemma StepState(s: State, e: Event)
    requires Enabled(s, e) && Steady(s)
    ensures var t := Step(s, e);
            && Steady(t) && t.window == s.window && (s.stopped ==> t.stopped)
            && (Continues(s, e) ==> Remaining(t) < Remaining(s))
            && if e.Answer? then t == Answered(s, e.request)
               else (t.writing == s.writing || (s.writing != [] && t.writing == s.writing[1..]))
                    && exists gone :: Flows(s, t, Came(s, e), gone)
  {
    hide Fed, Sent, Drained, Closed, Flows, Remaining;
    assert !e.Deliver? ==> Came(s, e) == [];
    match e {
      case Deliver(frames, framed) =>
        if framed || s.stopped {
          FedIs(s, frames);
          assert Came(s, e) == Came(s, Deliver(frames, true));
        } else {
          ClosedIs(s);
          assert Flows(s, Step(s, e), Came(s, e), []);
        }
      case Answer(i) => AnswerSteady(s, i);
      case Reach(reply, takes, fits, throws) =>
        if s.stopped || !reply || !takes {
          SentIs(s);
        } else if throws {
          ClosedIs(s);
          SentIs(Closed(s));
          ClosedThenSent(s);
        } else if fits {
          SentIs(s);
        } else {
          ParkedIs(s);
        }
      case Resume => SentIs(s);
      case Drain => DrainedIs(s);
      case End => ClosedIs(s);
    }
  }

  lemma AnswerSteady(s: State, i: nat)
    requires Steady(s) && i < |s.answering|
    ensures Steady(Answered(s, i)) && Remaining(Answered(s, i)) < Remaining(s)
  {
  }

  lemma ClosedThenSent(s: State)
    requires Steady(s) && s.writing != []
    ensures Flows(s, Sent(Closed(s)), [], [])
  {
    hide Pumped;
    PumpedIs(Closed(s).(writing := s.writing[1..], stage := Idle, inflight := s.inflight - 1));
  }

  lemma AnswerMoves(s: State, i: nat)
    requires i < |s.answering|
    ensures multiset(s.answering) == multiset(Answered(s, i).answering) + multiset([s.answering[i]])
  {
    assert s.answering == s.answering[..i] + [s.answering[i]] + s.answering[i + 1..];
  }

  lemma NextOrder(h: History, e: Event)
    requires Kept(h) && Enabled(h.now, e)
    ensures InOrder(Next(h, e))
  {
    if e.Answer? { NextAnswer(h, e); } else { NextOther(h, e); }
  }

  lemma NextAnswer(h: History, e: Event)
    requires Kept(h) && Enabled(h.now, e) && e.Answer?
    ensures InOrder(Next(h, e))
  {
    hide Steady;
    var s, t, g := h.now, Answered(h.now, e.request), Next(h, e);
    AnswerMoves(s, e.request);
    assert g.now == t && g.dispatched == h.dispatched + [] && g.dispatched == h.dispatched;
    assert g.produced == g.finished + t.writing;
    assert multiset(g.produced) == multiset(h.produced) + multiset([s.answering[e.request]]);
  }

  lemma NextOther(h: History, e: Event)
    requires Kept(h) && Enabled(h.now, e) && !e.Answer?
    ensures InOrder(Next(h, e))
  {
    hide Steady, Step, Remaining;
    var s, t := h.now, Step(h.now, e);
    StepState(s, e);
    var gone :| Flows(s, t, Came(s, e), gone);
    DispatchedIs(s, e, gone);
    NextIs(h, e, gone);
    hide Dispatched, Next;
    FlowOrder(h.arrived, h.dispatched, s, t, Came(s, e), gone);
    FlowBag(h.dispatched, h.produced, s.answering, t.answering, gone);
    hide Flows;
    WrittenOrder(h.produced, h.finished, s.writing, t.writing);
  }

  // What a step that is no answer adds to a history.
  lemma NextIs(h: History, e: Event, gone: seq<Frame>)
    requires Enabled(h.now, e) && !e.Answer? && Dispatched(h.now, e) == gone
    ensures var t, g := Step(h.now, e), Next(h, e);
            && g.now == t && g.arrived == h.arrived + Came(h.now, e) && g.dispatched == h.dispatched + gone
            && g.produced == h.produced
            && g.finished == if |t.writing| < |h.now.writing| then h.finished + [h.now.writing[0]] else h.finished
  {
    hide Step, Dispatched;
  }

  lemma WrittenOrder(produced: seq<Frame>, finished: seq<Frame>, before: seq<Frame>, after: seq<Frame>)
    requires produced == finished + before && (after == before || (before != [] && after == before[1..]))
    ensures produced == (if |after| < |before| then finished + [before[0]] else finished) + after
  {
    if |after| < |before| {
      assert finished + before == finished + [before[0]] + before[1..];
    }
  }

  lemma DispatchedIs(s: State, e: Event, gone: seq<Frame>)
    requires Enabled(s, e) && !e.Answer? && Step(s, e).answering == s.answering + gone
    ensures Dispatched(s, e) == gone
  {
    hide Step;
  }

  lemma FlowBag(dispatched: seq<Frame>, produced: seq<Frame>, before: seq<Frame>, after: seq<Frame>, gone: seq<Frame>)
    requires multiset(dispatched) == multiset(before) + multiset(produced) && after == before + gone
    ensures multiset(dispatched + gone) == multiset(after) + multiset(produced)
  {
  }

  lemma FlowOrder(arrived: seq<Frame>, dispatched: seq<Frame>, s: State, t: State, came: seq<Frame>, gone: seq<Frame>)
    requires Flows(s, t, came, gone) && (s.stopped ==> t.stopped)
    requires if s.stopped then dispatched <= arrived else dispatched + s.waiting == arrived
    ensures if t.stopped then dispatched + gone <= arrived + came else dispatched + gone + t.waiting == arrived + came
  {
    if t.stopped {
      assert dispatched + gone == dispatched;
    } else {
      assert dispatched + gone + t.waiting == dispatched + (gone + t.waiting);
      assert dispatched + (s.waiting + came) == dispatched + s.waiting + came;
    }
  }

  lemma {:induction false} RunKept(window: nat, events: seq<Event>)
    requires window >= 1
    ensures Kept(Run(window, events)) && Run(window, events).now.window == window
  {
    if events != [] {
      hide Step, Steady, InOrder;
      var h, e := Run(window, events[..|events| - 1]), events[|events| - 1];
      RunKept(window, events[..|events| - 1]);
      if Enabled(h.now, e) {
        StepState(h.now, e);
        NextOrder(h, e);
      }
    }
  }

  // Whatever the order of events: the window is never exceeded, frames go out in
  // the order they came in, and until teardown each one that arrived is waiting,
  // in flight or finished.
  lemma EveryFrameCounted(window: nat, events: seq<Event>)
    requires window >= 1
    ensures var h := Run(window, events);
            && h.now.inflight <= window && h.dispatched <= h.arrived
            && (!h.now.stopped ==> |h.arrived| == |h.now.waiting| + h.now.inflight + |h.finished|)
  {
    RunKept(window, events);
    var h := Run(window, events);
    assert |multiset(h.dispatched)| == |h.dispatched|;
    assert |multiset(h.now.answering) + multiset(h.produced)| == |h.now.answering| + |h.produced|;
  }

  // ---------- nothing waits for ever ----------

  // An event that only lets go on what has already begun.
  predicate Continues(s: State, e: Event)
  {
    match e
    case Deliver(_, _) => false
    case End => false
    case Drain => s.stage.Parked?
    case _ => Enabled(s, e)
  }

  function StageRank(stage: Stage): nat { match stage case Idle => 2 case Parked => 1 case Woken => 0 }

  function Remaining(s: State): nat { 6 * |s.waiting| + 5 * |s.answering| + 3 * |s.writing| + StageRank(s.stage) }

  predicate Empty(s: State) { s.waiting == [] && s.answering == [] && s.writing == [] }

  lemma Continuation(s: State) returns (e: Event)
    requires Steady(s) && !Empty(s)
    ensures Continues(s, e)
  {
    if s.writing != [] {
      e := match s.stage case Idle => Reach(true, true, true, false) case Parked => Drain case Woken => Resume;
    } else {
      e := Answer(0);
    }
  }

  // A connection where nothing more can go on has answered everything: each frame
  // that arrived was dispatched and finished, and the stream is being read again.
  lemma StuckIsEmpty(window: nat, events: seq<Event>)
    requires window >= 1 && forall e :: !Continues(Run(window, events).now, e)
    ensures var h := Run(window, events);
            && Empty(h.now)
            && (!h.now.stopped ==> multiset(h.finished) == multiset(h.arrived) && !h.now.paused)
  {
    RunKept(window, events);
    var h := Run(window, events);
    if !Empty(h.now) { var _ := Continuation(h.now); }
    assert h.finished + [] == h.finished && h.dispatched + [] == h.dispatched;
  }

  // And it gets there: from any point, letting things go on as they may ends
  // within `Remaining` steps, everything in flight answered.
  lemma {:induction false} EverythingFinishes(window: nat, events: seq<Event>) returns (more: seq<Event>)
    requires window >= 1
    ensures |more| <= Remaining(Run(window, events).now) && Empty(Run(window, events + more).now)
    ensures forall e :: e in more ==> !e.Deliver? && !e.End?
    decreases Remaining(Run(window, events).now)
  {
    var h := Run(window, events);
    if Empty(h.now) {
      more := [];
      assert events + [] == events;
    } else {
      RunKept(window, events);
      var e := Continuation(h.now);
      StepState(h.now, e);
      assert (events + [e])[..|events|] == events;
      var others := EverythingFinishes(window, events + [e]);
      more := [e] + others;
      assert events + more == events + [e] + others;
    }
  }
}
