// Which reply a request gets, said of the events around it: how it arrived, how its
// handler ended, and whether the session moved on in between.
module RequestReplies {
  import opened Wrappers
  import opened Requests

  // The session moves on at a version exchange it lets in, and at a teardown.
  predicate MovesOn(s: State, e: Event)
  {
    e.Destroy? || (e.Arrive? && e.kind.Version? && e.tag !in s.inflight && !e.refused && !s.destroyed)
  }

  // Somewhere from the i-th event up to the j-th, the session moved on.
  ghost predicate MovedOn(events: seq<Event>, i: nat, j: nat)
  {
    exists k: nat :: i <= k < j && k < |events| && MovesOn(Run(events[..k]), events[k])
  }

  ghost predicate TornDown(events: seq<Event>, i: nat) { exists k: nat :: k < i && k < |events| && events[k].Destroy? }

  // The i-th event is the arrival of that request.
  ghost predicate Arrives(events: seq<Event>, i: nat, id: nat)
  {
    i < |events| && events[i].Arrive? && Run(events[..i]).arrived == id
  }

  lemma GenerationStep(s: State, e: Event)
    ensures Step(s, e).generation == s.generation + (if MovesOn(s, e) then 1 else 0)
    ensures Step(s, e).destroyed == (s.destroyed || e.Destroy?)
  {
  }

  lemma RunStep(events: seq<Event>, k: nat)
    requires k < |events|
    ensures Run(events[..k + 1]) == Step(Run(events[..k]), events[k])
  {
    assert events[..k + 1][..k] == events[..k];
  }

  lemma {:induction false} GenerationCounts(events: seq<Event>, i: nat, j: nat)
    requires i <= j <= |events|
    ensures Run(events[..i]).generation <= Run(events[..j]).generation
    ensures Run(events[..i]).generation == Run(events[..j]).generation <==> !MovedOn(events, i, j)
    decreases j - i
  {
    hide Run, Step, MovesOn;
    if i < j {
      GenerationCounts(events, i, j - 1);
      RunStep(events, j - 1);
      GenerationStep(Run(events[..j - 1]), events[j - 1]);
      assert MovesOn(Run(events[..j - 1]), events[j - 1]) ==> MovedOn(events, i, j);
    }
  }

  lemma {:induction false} DestroyedIs(events: seq<Event>, i: nat)
    requires i <= |events|
    ensures Run(events[..i]).destroyed <==> TornDown(events, i)
  {
    hide Run, Step, MovesOn;
    if i == 0 {
      NothingRun(events[..i]);
    } else {
      DestroyedIs(events, i - 1);
      RunStep(events, i - 1);
      GenerationStep(Run(events[..i - 1]), events[i - 1]);
    }
  }

  lemma NothingRun(events: seq<Event>)
    requires events == []
    ensures Run(events) == START
  {
  }

  // The request as it was let in at that state.
  ghost predicate LetIn(s: State, e: Event, r: Request)
  {
    e.Arrive? && r.tag == e.tag && r.kind == e.kind && r.refused == (e.refused || s.destroyed) &&
    (!e.kind.Version? ==> r.generation == s.generation)
  }

  lemma PendingStep(s: State, e: Event, id: nat)
    requires id in Step(s, e).pending
    ensures (id in s.pending && s.pending[id] == Step(s, e).pending[id]) ||
            (id == s.arrived && LetIn(s, e, Step(s, e).pending[id]))
  {
  }

  lemma {:induction false} PendingArrived(events: seq<Event>, id: nat) returns (i: nat)
    requires id in Run(events).pending
    ensures Arrives(events, i, id) && LetIn(Run(events[..i]), events[i], Run(events).pending[id])
  {
    hide Step;
    var before := events[..|events| - 1];
    PendingStep(Run(before), events[|events| - 1], id);
    if id in Run(before).pending && Run(before).pending[id] == Run(events).pending[id] {
      i := PendingArrived(before, id);
      assert before[..i] == events[..i];
    } else {
      i := |events| - 1;
    }
  }

  // A request whose handler comes back is answered once, and how: one refused on arrival,
  // or that came after a teardown, as refused; one whose handler failed, as failed; one
  // the session has moved on from since it arrived, as stale, unless it is itself a
  // version exchange; any other as done.
  lemma SettleReplies(events: seq<Event>, id: nat, succeeded: bool) returns (i: nat)
    requires CanSettle(Run(events), id)
    ensures Arrives(events, i, id)
    ensures var s, t := Run(events), Run(events + [Settle(id, succeeded)]);
            && |t.done| == |s.done| + 1 && t.done[..|s.done|] == s.done && t.done[|s.done|].id == id
            && t.done[|s.done|].request.tag == events[i].tag && t.done[|s.done|].request.kind == events[i].kind
            && t.done[|s.done|].reply == if events[i].refused || TornDown(events, i) then Refused
                                         else if !succeeded then Failure
                                         else if !events[i].kind.Version? && MovedOn(events, i, |events|) then Stale
                                         else Answer
  {
    hide TornDown, MovedOn;
    var all := events + [Settle(id, succeeded)];
    assert all[..|all| - 1] == events;
    i := PendingArrived(events, id);
    DestroyedIs(events, i);
    GenerationCounts(events, i, |events|);
    assert events[..|events|] == events;
  }

  lemma DoneStep(s: State, e: Event, p: nat)
    requires p < |Step(s, e).done|
    ensures p < |s.done| ==> Step(s, e).done[p] == s.done[p]
    ensures p >= |s.done| && Step(s, e).done[p].reply.Answer? ==>
              e.Settle? && e.succeeded && CanSettle(s, e.id) && Step(s, e).done[p].id == e.id
    ensures p >= |s.done| ==> p == |s.done|
  {
  }

  // In every run, a request that was answered as done arrived, and was answered by the end
  // of its handler; from the one to the other no version exchange was let in and there was
  // no teardown, unless it was a version exchange itself.
  lemma {:induction false} AnsweredInTime(events: seq<Event>, p: nat) returns (i: nat, j: nat)
    requires p < |Run(events).done| && Run(events).done[p].reply.Answer?
    ensures Arrives(events, i, Run(events).done[p].id) && !events[i].refused && !TornDown(events, i)
    ensures i < j < |events| && events[j] == Settle(Run(events).done[p].id, true)
    ensures events[i].kind.Version? || !MovedOn(events, i, j)
  {
    hide Step, TornDown, MovedOn, CanSettle;
    var n := |events| - 1;
    var before, e := events[..n], events[n];
    DoneStep(Run(before), e, p);
    if p < |Run(before).done| {
      i, j := AnsweredInTime(before, p);
    } else {
      j := n;
      i := SettleReplies(before, e.id, e.succeeded);
      assert before + [Settle(e.id, e.succeeded)] == events;
    }
    assert before[..i] == events[..i];
    SameEvents(before, events, i);
    SameMoves(before, events, i, j);
  }

  lemma SameEvents(before: seq<Event>, events: seq<Event>, i: nat)
    requires before <= events && i <= |before|
    ensures TornDown(before, i) <==> TornDown(events, i)
  {
  }

  lemma SameMoves(before: seq<Event>, events: seq<Event>, i: nat, j: nat)
    requires before <= events && j <= |before|
    ensures MovedOn(before, i, j) <==> MovedOn(events, i, j)
  {
    hide Run, MovesOn;
    forall k: nat | k < |before| ensures before[..k] == events[..k] && before[k] == events[k] {}
  }
}
