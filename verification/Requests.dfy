// The tags of a 9P session: which requests are in flight, what a flush waits for,
// and what becomes of a request the session moved on from.
module Requests {
  import opened Wrappers

  // A flush names the tag of the request it is to outlast.
  datatype Kind = Ordinary | Version | Flush(oldtag: nat)

  // A request may be refused on arrival; that too is only answered when it settles.
  datatype Request = Request(tag: nat, kind: Kind, generation: nat, waitsFor: Option<nat>, refused: bool)

  datatype Reply = Answer | Failure | Stale | DuplicateTag | Refused

  datatype Done = Done(id: nat, request: Request, generation: nat, reply: Reply)

  // Requests are numbered as they arrive; `inflight` is the session's map by tag.
  datatype State = State(
    arrived: nat,
    pending: map<nat, Request>,
    inflight: map<nat, nat>,
    done: seq<Done>,
    generation: nat,
    destroyed: bool)

  const START: State := State(0, map[], map[], [], 0, false)

  datatype Event =
    | Arrive(tag: nat, kind: Kind, refused: bool)
    | Settle(id: nat, succeeded: bool)
    | Destroy

  // ---------- the steps ----------

  function Replied(s: State, id: nat, r: Request, reply: Reply): State
  {
    s.(done := s.done + [Done(id, r, s.generation, reply)])
  }

  // A flush is never registered, so nothing can wait for one; a version exchange
  // is itself what moves the session on, unless it is refused.
  function Arrived(s: State, tag: nat, kind: Kind, refused: bool): State
  {
    var id, t, no := s.arrived, s.(arrived := s.arrived + 1), refused || s.destroyed;
    if !kind.Flush? && tag in s.inflight then Replied(t, id, Request(tag, kind, s.generation, None, no), DuplicateTag)
    else
      match kind
      case Flush(oldtag) =>
        var waits := if !no && oldtag in s.inflight then Some(s.inflight[oldtag]) else None;
        t.(pending := s.pending[id := Request(tag, kind, s.generation, waits, no)])
      case Ordinary =>
        t.(pending := s.pending[id := Request(tag, kind, s.generation, None, no)], inflight := s.inflight[tag := id])
      case Version =>
        t.(pending := s.pending[id := Request(tag, kind, s.generation, None, no)], inflight := s.inflight[tag := id],
           generation := if no then s.generation else s.generation + 1)
  }

  // A handler comes back; a flush only once what it waits for is answered.
  predicate CanSettle(s: State, id: nat)
  {
    id in s.pending && (s.pending[id].waitsFor.Some? ==> s.pending[id].waitsFor.value !in s.pending)
  }

  function Settled(s: State, id: nat, succeeded: bool): State
    requires CanSettle(s, id)
  {
    var r := s.pending[id];
    var reply := if r.refused then Refused
                 else if !succeeded then Failure
                 else if !r.kind.Version? && r.generation != s.generation then Stale
                 else Answer;
    var t := s.(pending := s.pending - {id}, inflight := if r.kind.Flush? then s.inflight else s.inflight - {r.tag});
    Replied(t, id, r, reply)
  }

  function Step(s: State, e: Event): State
  {
    match e
    case Arrive(tag, kind, refused) => Arrived(s, tag, kind, refused)
    case Settle(id, succeeded) => if CanSettle(s, id) then Settled(s, id, succeeded) else s
    case Destroy => s.(destroyed := true, generation := s.generation + 1)
  }

  function Run(events: seq<Event>): State
  {
    if events == [] then START else Step(Run(events[..|events| - 1]), events[|events| - 1])
  }

  // ---------- what every run keeps ----------

  // The map by tag is exactly the pending requests that are not flushes.
  ghost predicate TagsAgree(s: State)
  {
    && (forall tag: nat :: tag in s.inflight ==>
          s.inflight[tag] in s.pending && !s.pending[s.inflight[tag]].kind.Flush? &&
              s.pending[s.inflight[tag]].tag == tag)
    && (forall id: nat :: id in s.pending && !s.pending[id].kind.Flush? ==>
          s.pending[id].tag in s.inflight && s.inflight[s.pending[id].tag] == id)
  }

  ghost predicate IsDone(s: State, id: nat) { exists p :: 0 <= p < |s.done| && s.done[p].id == id }

  // Every request that arrived is pending or answered, never both, never twice.
  ghost predicate OneReplyEach(s: State)
  {
    && (forall id: nat :: id < s.arrived <==> id in s.pending || IsDone(s, id))
    && (forall id: nat :: id in s.pending ==> !IsDone(s, id))
    && (forall p, q :: 0 <= p < q < |s.done| ==> s.done[p].id != s.done[q].id)
  }

  // What a flush waits for is not a flush, and has arrived.
  ghost predicate WaitsSound(s: State)
  {
    forall id: nat :: id in s.pending && s.pending[id].waitsFor.Some? ==>
      var w := s.pending[id].waitsFor.value; w < s.arrived && (w in s.pending ==> !s.pending[w].kind.Flush?)
  }

  // A flush is answered after what it waited for, and nothing is answered as if the
  // session had not moved on when it had.
  ghost predicate HistorySound(s: State)
  {
    && (forall p :: 0 <= p < |s.done| && s.done[p].request.waitsFor.Some? ==>
       DoneBefore(s, p, s.done[p].request.waitsFor.value))
    && (forall p :: 0 <= p < |s.done| && s.done[p].reply.Answer? && !s.done[p].request.kind.Version? ==>
          s.done[p].request.generation == s.done[p].generation)
    && (forall p :: 0 <= p < |s.done| && s.done[p].reply.Answer? ==> !s.done[p].request.refused)
  }

  ghost predicate DoneBefore(s: State, p: int, id: nat) { exists q :: 0 <= q < p && q < |s.done| && s.done[q].id == id }

  ghost predicate Sound(s: State) { TagsAgree(s) && OneReplyEach(s) && WaitsSound(s) && HistorySound(s) }

  lemma DoneGrows(s: State, t: State, d: Done)
    requires t.done == s.done + [d]
    ensures forall id: nat :: IsDone(t, id) <==> IsDone(s, id) || id == d.id
    ensures forall p: int, id: nat :: DoneBefore(s, p, id) ==> DoneBefore(t, p, id)
  {
    assert t.done[|s.done|] == d;
    forall id: nat | IsDone(s, id) ensures IsDone(t, id) {
      var p :| 0 <= p < |s.done| && s.done[p].id == id;
      assert t.done[p].id == id;
    }
    forall p: int, id: nat | DoneBefore(s, p, id) ensures DoneBefore(t, p, id) {
      var q :| 0 <= q < p && q < |s.done| && s.done[q].id == id;
      assert t.done[q].id == id;
    }
  }

  lemma DoneSame(s: State, t: State)
    requires t.done == s.done
    ensures forall id: nat :: IsDone(t, id) <==> IsDone(s, id)
    ensures forall p: int, id: nat :: DoneBefore(s, p, id) <==> DoneBefore(t, p, id)
  {
  }

  lemma Grown(s: State, t: State)
    requires t.done == s.done || (|t.done| == |s.done| + 1 && t.done[..|s.done|] == s.done)
    ensures forall id: nat :: IsDone(t, id) <==> IsDone(s, id) || (|t.done| > |s.done| && id == t.done[|s.done|].id)
    ensures forall p: int, id: nat :: DoneBefore(s, p, id) ==> DoneBefore(t, p, id)
  {
    if t.done == s.done {
      DoneSame(s, t);
    } else {
      assert t.done == s.done + [t.done[|s.done|]];
      DoneGrows(s, t, t.done[|s.done|]);
    }
  }

  lemma ArrivedTags(s: State, tag: nat, kind: Kind, refused: bool)
    requires Sound(s)
    ensures TagsAgree(Arrived(s, tag, kind, refused)) && WaitsSound(Arrived(s, tag, kind, refused))
  {
    hide OneReplyEach, HistorySound;
    NewIsNotPending(s);
    hide IsDone;
    if kind.Flush? {
      ArrivedFlushTags(s, tag, kind, refused);
    } else if tag !in s.inflight {
      ArrivedOtherTags(s, tag, kind, refused);
    }
  }

  lemma ArrivedFlushTags(s: State, tag: nat, kind: Kind, refused: bool)
    requires TagsAgree(s) && WaitsSound(s) && kind.Flush?
    requires forall id: nat :: id in s.pending ==> id < s.arrived
    ensures TagsAgree(Arrived(s, tag, kind, refused)) && WaitsSound(Arrived(s, tag, kind, refused))
  {
  }

  lemma ArrivedOtherTags(s: State, tag: nat, kind: Kind, refused: bool)
    requires TagsAgree(s) && WaitsSound(s) && !kind.Flush? && tag !in s.inflight
    requires forall id: nat :: id in s.pending ==> id < s.arrived
    ensures TagsAgree(Arrived(s, tag, kind, refused)) && WaitsSound(Arrived(s, tag, kind, refused))
  {
  }

  lemma NewIsNotPending(s: State)
    requires OneReplyEach(s)
    ensures s.arrived !in s.pending && !IsDone(s, s.arrived)
    ensures forall id: nat :: id in s.pending ==> id < s.arrived
  {
    hide IsDone;
  }

  lemma ArrivedOnce(s: State, tag: nat, kind: Kind, refused: bool)
    requires Sound(s)
    ensures OneReplyEach(Arrived(s, tag, kind, refused))
  {
    hide IsDone, TagsAgree, WaitsSound, HistorySound;
    var t := Arrived(s, tag, kind, refused);
    assert t.done == s.done || t.done[..|s.done|] == s.done;
    Grown(s, t);
    NewIsNotPending(s);
    forall p, q | 0 <= p < q < |t.done| ensures t.done[p].id != t.done[q].id {
      if q == |s.done| { DoneAt(s, p); }
    }
  }

  lemma DoneAt(s: State, p: nat)
    ensures p < |s.done| ==> IsDone(s, s.done[p].id)
  {
  }

  lemma ArrivedHistory(s: State, tag: nat, kind: Kind, refused: bool)
    requires Sound(s)
    ensures HistorySound(Arrived(s, tag, kind, refused))
  {
    hide IsDone, DoneBefore, TagsAgree, WaitsSound, OneReplyEach;
    var t := Arrived(s, tag, kind, refused);
    assert t.done == s.done || t.done[..|s.done|] == s.done;
    Grown(s, t);
  }

  lemma ArrivedSound(s: State, tag: nat, kind: Kind, refused: bool)
    requires Sound(s)
    ensures Sound(Arrived(s, tag, kind, refused))
  {
    ArrivedTags(s, tag, kind, refused);
    ArrivedOnce(s, tag, kind, refused);
    ArrivedHistory(s, tag, kind, refused);
    hide TagsAgree, OneReplyEach, WaitsSound, HistorySound, Arrived;
  }

  lemma SettledTags(s: State, id: nat, succeeded: bool)
    requires Sound(s) && CanSettle(s, id)
    ensures TagsAgree(Settled(s, id, succeeded)) && WaitsSound(Settled(s, id, succeeded))
  {
    hide OneReplyEach, HistorySound;
  }

  lemma SettledOnce(s: State, id: nat, succeeded: bool)
    requires Sound(s) && CanSettle(s, id)
    ensures OneReplyEach(Settled(s, id, succeeded))
  {
    hide IsDone, TagsAgree, WaitsSound, HistorySound;
    var t := Settled(s, id, succeeded);
    assert t.done[..|s.done|] == s.done;
    Grown(s, t);
    forall p, q | 0 <= p < q < |t.done| ensures t.done[p].id != t.done[q].id {
      if q == |s.done| { DoneAt(s, p); }
    }
  }

  lemma SettledHistory(s: State, id: nat, succeeded: bool)
    requires Sound(s) && CanSettle(s, id)
    ensures HistorySound(Settled(s, id, succeeded))
  {
    hide IsDone, DoneBefore, TagsAgree, OneReplyEach;
    var t, r := Settled(s, id, succeeded), s.pending[id];
    assert t.done[..|s.done|] == s.done;
    Grown(s, t);
    if r.waitsFor.Some? {
      ArrivedIsDone(s, r.waitsFor.value);
      DoneIsBefore(s, t, r.waitsFor.value);
    }
  }

  lemma ArrivedIsDone(s: State, id: nat)
    requires OneReplyEach(s) && id < s.arrived && id !in s.pending
    ensures IsDone(s, id)
  {
  }

  lemma SettledSound(s: State, id: nat, succeeded: bool)
    requires Sound(s) && CanSettle(s, id)
    ensures Sound(Settled(s, id, succeeded))
  {
    SettledTags(s, id, succeeded);
    SettledOnce(s, id, succeeded);
    SettledHistory(s, id, succeeded);
    hide TagsAgree, OneReplyEach, WaitsSound, HistorySound, Settled;
  }

  lemma DoneIsBefore(s: State, t: State, id: nat)
    requires IsDone(s, id) && |t.done| == |s.done| + 1 && t.done[..|s.done|] == s.done
    ensures DoneBefore(t, |s.done|, id)
  {
    var p :| 0 <= p < |s.done| && s.done[p].id == id;
    assert t.done[p] == t.done[..|s.done|][p];
  }

  lemma StartSound()
    ensures Sound(START)
  {
  }

  lemma StepSound(s: State, e: Event)
    requires Sound(s)
    ensures Sound(Step(s, e))
  {
    hide Sound, Arrived, Settled, CanSettle;
    match e
    case Arrive(tag, kind, refused) => ArrivedSound(s, tag, kind, refused);
    case Settle(id, succeeded) => if CanSettle(s, id) { SettledSound(s, id, succeeded); }
    case Destroy => MovedOnSound(s);
  }

  lemma {:induction false} RunSound(events: seq<Event>)
    ensures Sound(Run(events))
  {
    hide Sound, Step;
    if events == [] {
      StartSound();
    } else {
      RunSound(events[..|events| - 1]);
      StepSound(Run(events[..|events| - 1]), events[|events| - 1]);
    }
  }

  lemma MovedOnSound(s: State)
    requires Sound(s)
    ensures Sound(s.(destroyed := true, generation := s.generation + 1))
  {
    DoneSame(s, s.(destroyed := true, generation := s.generation + 1));
    hide IsDone, DoneBefore;
  }

  // In every run, a request that arrived is pending or answered, never both, and
  // never answered twice.
  lemma EveryRequestAnswered(events: seq<Event>, id: nat)
    requires id < Run(events).arrived
    ensures id !in Run(events).pending <==> IsDone(Run(events), id)
    ensures forall p, q :: 0 <= p < q < |Run(events).done| ==> Run(events).done[p].id != Run(events).done[q].id
  {
    RunSound(events);
  }

  // A request holds its tag until it is answered, one refused on arrival as any other:
  // until then the next under that tag is turned away, and a flush of it waits.
  lemma PendingHoldsTag(events: seq<Event>, id: nat, tag: nat, kind: Kind, refused: bool)
    requires id in Run(events).pending && !Run(events).pending[id].kind.Flush?
    ensures var s := Run(events); var held := s.pending[id].tag;
            && (!kind.Flush? ==> Arrived(s, held, kind, refused).done == s.done + [Done(s.arrived,
                  Request(held, kind, s.generation, None, refused || s.destroyed), s.generation, DuplicateTag)])
            && (!s.destroyed ==> Arrived(s, tag, Flush(held), false).pending[s.arrived].waitsFor == Some(id))
  {
    RunSound(events);
  }

  // A request refused on arrival is never answered as done.
  lemma RefusedStaysRefused(events: seq<Event>, p: nat)
    requires p < |Run(events).done| && Run(events).done[p].request.refused
    ensures !Run(events).done[p].reply.Answer?
  {
    RunSound(events);
  }

  // No request but a version exchange is answered as done once the session moved on.
  lemma NothingStaleAnswered(events: seq<Event>, p: nat)
    requires p < |Run(events).done| && Run(events).done[p].reply.Answer? && !Run(events).done[p].request.kind.Version?
    ensures Run(events).done[p].request.generation == Run(events).done[p].generation
  {
    RunSound(events);
  }

  // A flush is answered after the request it named, if that was in flight.
  lemma FlushOutlasts(events: seq<Event>, p: nat)
    requires p < |Run(events).done| && Run(events).done[p].request.waitsFor.Some?
    ensures DoneBefore(Run(events), p, Run(events).done[p].request.waitsFor.value)
  {
    RunSound(events);
  }

  // Two requests in flight, flushes apart, never share a tag.
  lemma TagsAreUnique(events: seq<Event>, i: nat, j: nat)
    requires i in Run(events).pending && j in Run(events).pending
    requires !Run(events).pending[i].kind.Flush? && !Run(events).pending[j].kind.Flush?
    requires Run(events).pending[i].tag == Run(events).pending[j].tag
    ensures i == j
  {
    RunSound(events);
  }

  // A request is turned away for its tag exactly when one that has not been answered
  // came under it, were it refused itself; it is answered at once and disturbs nothing.
  lemma DuplicateRefused(events: seq<Event>, tag: nat, kind: Kind, refused: bool)
    requires !kind.Flush?
    ensures var s, t := Run(events), Arrived(Run(events), tag, kind, refused);
            (exists i: nat :: i in s.pending && !s.pending[i].kind.Flush? && s.pending[i].tag == tag) <==>
            (|t.done| == |s.done| + 1 && t.done[|s.done|].reply == DuplicateTag)
    ensures var s, t := Run(events), Arrived(Run(events), tag, kind, refused);
            |t.done| > |s.done| ==> t.pending == s.pending && t.inflight == s.inflight && t.generation == s.generation
  {
    RunSound(events);
  }

  // A flush waits exactly for the request in flight under the tag it names, if any.
  lemma FlushWaitsFor(events: seq<Event>, tag: nat, oldtag: nat, i: nat)
    requires !Run(events).destroyed
    ensures var s, t := Run(events), Arrived(Run(events), tag, Flush(oldtag), false);
            s.arrived in t.pending &&
            (t.pending[s.arrived].waitsFor == Some(i) <==>
                (i in s.pending && !s.pending[i].kind.Flush? && s.pending[i].tag == oldtag))
  {
    RunSound(events);
  }

  // ---------- nothing waits for ever ----------

  // Something pending can always settle: a flush waits only for what is not one.
  lemma Progress(events: seq<Event>) returns (id: nat)
    requires Run(events).pending != map[]
    ensures CanSettle(Run(events), id)
    ensures forall ok :: |Settled(Run(events), id, ok).pending| == |Run(events).pending| - 1
  {
    RunSound(events);
    var s := Run(events);
    id :| id in s.pending;
    if s.pending[id].waitsFor.Some? && s.pending[id].waitsFor.value in s.pending {
      id := s.pending[id].waitsFor.value;
      NotFlushWaitsForNothing(events, id);
    }
  }

  lemma {:induction false} NotFlushWaitsForNothing(events: seq<Event>, id: nat)
    requires id in Run(events).pending && !Run(events).pending[id].kind.Flush?
    ensures Run(events).pending[id].waitsFor.None?
  {
    if events != [] {
      var s := Run(events[..|events| - 1]);
      if id in s.pending && s.pending[id] == Run(events).pending[id] {
        NotFlushWaitsForNothing(events[..|events| - 1], id);
      }
    }
  }
}
