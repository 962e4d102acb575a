// The many-readers, one-writer lock a session resolves paths under. Each step is
// what runs between two awaits: bodies settle, well or badly, in any order.
module PathLock {

  // A reader waits at the gate, runs its body, and leaves the active set a moment
  // after the body has settled.
  datatype Reader = Parked | Reading | Settled | Left

  // A writer waits for the writer before it, shuts the gate and waits for the
  // readers then active, runs its body, and opens the gate.
  datatype Writer = Queued | Draining(outstanding: set<nat>) | Writing | Finished(rejected: bool)

  datatype State = State(readers: seq<Reader>, writers: seq<Writer>, gate: bool)

  datatype Event =
    | CallRead
    | CallWrite
    | Wake(reader: nat)
    | ReadSettles(reader: nat)
    | Leave(reader: nat)
    | Begin(writer: nat)
    | Drained(writer: nat)
    | WriteSettles(writer: nat, rejected: bool)

  const OPEN: State := State([], [], false)

  // ---------- the steps ----------

  // The set the lock keeps: readers that have begun and not yet left.
  function Active(s: State): set<nat>
  {
    set r: nat | r < |s.readers| && (s.readers[r].Reading? || s.readers[r].Settled?)
  }

  predicate Enabled(s: State, e: Event)
  {
    match e
    case CallRead => true
    case CallWrite => true
    case Wake(r) => r < |s.readers| && s.readers[r].Parked? && !s.gate
    case ReadSettles(r) => r < |s.readers| && s.readers[r].Reading?
    case Leave(r) => r < |s.readers| && s.readers[r].Settled?
    case Begin(w) => w < |s.writers| && s.writers[w].Queued? && (w == 0 || s.writers[w - 1].Finished?)
    case Drained(w) =>
      && w < |s.writers| && s.writers[w].Draining?
      && forall r :: r in s.writers[w].outstanding ==> r < |s.readers| && !s.readers[r].Reading?
    case WriteSettles(w, _) => w < |s.writers| && s.writers[w].Writing?
  }

  function Step(s: State, e: Event): State
    requires Enabled(s, e)
  {
    match e
    case CallRead => s.(readers := s.readers + [if s.gate then Parked else Reading])
    case CallWrite => s.(writers := s.writers + [Queued])
    case Wake(r) => s.(readers := s.readers[r := Reading])
    case ReadSettles(r) => s.(readers := s.readers[r := Settled])
    case Leave(r) => s.(readers := s.readers[r := Left])
    case Begin(w) => s.(writers := s.writers[w := Draining(Active(s))], gate := true)
    case Drained(w) => s.(writers := s.writers[w := Writing])
    case WriteSettles(w, rejected) => s.(writers := s.writers[w := Finished(rejected)], gate := false)
  }

  // Events that cannot happen yet change nothing.
  function Run(events: seq<Event>): State
  {
    if events == [] then OPEN
    else
      var s := Run(events[..|events| - 1]);
      var e := events[|events| - 1];
      if Enabled(s, e) then Step(s, e) else s
  }

  // ---------- what every run keeps ----------

  predicate Holding(w: Writer) { w.Draining? || w.Writing? }

  // Writers go one after another, in the order they were called.
  predicate InOrder(s: State)
  {
    forall i, j :: 0 <= i < j < |s.writers| ==> s.writers[i].Finished? || s.writers[j].Queued?
  }

  // The gate is shut exactly while one writer drains or writes.
  predicate GateIsRight(s: State) { s.gate <==> exists w :: 0 <= w < |s.writers| && Holding(s.writers[w]) }

  // A reader whose body runs past a shut gate is one the writer waits for.
  predicate ReadersAwaited(s: State)
  {
    forall w, r :: 0 <= w < |s.writers| && 0 <= r < |s.readers| && s.readers[r].Reading? ==>
      !s.writers[w].Writing? && (s.writers[w].Draining? ==> r in s.writers[w].outstanding)
  }

  predicate Inv(s: State) { InOrder(s) && GateIsRight(s) && ReadersAwaited(s) }

  lemma StepInv(s: State, e: Event)
    requires Inv(s) && Enabled(s, e)
    ensures Inv(Step(s, e))
  {
    var t := Step(s, e);
    StepOrder(s, e);
    StepGate(s, e);
    assert ReadersAwaited(t);
  }

  lemma StepOrder(s: State, e: Event)
    requires Inv(s) && Enabled(s, e)
    ensures InOrder(Step(s, e))
  {
    hide GateIsRight, ReadersAwaited;
  }

  lemma StepGate(s: State, e: Event)
    requires Inv(s) && Enabled(s, e)
    ensures GateIsRight(Step(s, e))
  {
    hide ReadersAwaited;
    var t := Step(s, e);
    match e {
      case Begin(w) => assert Holding(t.writers[w]);
      case Drained(w) => assert Holding(s.writers[w]) && Holding(t.writers[w]);
      case WriteSettles(w, _) => assert Holding(s.writers[w]);
      case CallWrite =>
        if s.gate {
          var w :| 0 <= w < |s.writers| && Holding(s.writers[w]);
          assert Holding(t.writers[w]);
        }
      case _ =>
    }
  }

  lemma {:induction false} RunInv(events: seq<Event>)
    ensures Inv(Run(events))
  {
    if events != [] {
      var s, e := Run(events[..|events| - 1]), events[|events| - 1];
      RunInv(events[..|events| - 1]);
      if Enabled(s, e) { StepInv(s, e); }
    }
  }

  // While a writer's body runs, no reader's body runs and no other writer's does.
  lemma Exclusion(events: seq<Event>, w: nat)
    requires w < |Run(events).writers| && Run(events).writers[w].Writing?
    ensures var s := Run(events);
            && (forall r :: 0 <= r < |s.readers| ==> !s.readers[r].Reading?)
            && (forall v :: 0 <= v < |s.writers| && v != w ==> !Holding(s.writers[v]))
  {
    RunInv(events);
  }

  // Writers run in call order, and one that rejected counts as finished: when a
  // writer holds the lock every earlier one is done and no later one has begun.
  lemma CallOrder(events: seq<Event>, w: nat)
    requires w < |Run(events).writers| && Holding(Run(events).writers[w])
    ensures var s := Run(events);
            && (forall v :: 0 <= v < w ==> s.writers[v].Finished?)
            && (forall v :: w < v < |s.writers| ==> s.writers[v].Queued?)
  {
    RunInv(events);
  }

  // No reader begins between a writer's shutting the gate and its opening it.
  lemma GateHolds(events: seq<Event>, e: Event, w: nat, r: nat)
    requires Enabled(Run(events), e) && w < |Run(events).writers| && Holding(Run(events).writers[w])
    requires r < |Step(Run(events), e).readers| && Step(Run(events), e).readers[r].Reading?
    ensures r < |Run(events).readers| && Run(events).readers[r].Reading?
  {
    RunInv(events);
    assert Run(events).gate;
  }

  // Readers run side by side: one that is called, or waits at the gate, goes in exactly
  // when no writer drains or writes, however many others are reading.
  lemma ReadersShare(events: seq<Event>)
    ensures var s, t := Run(events), Step(Run(events), CallRead);
            var held := exists w :: 0 <= w < |s.writers| && (s.writers[w].Draining? || s.writers[w].Writing?);
            && t == s.(readers := s.readers + [if held then Parked else Reading])
            && forall r: nat :: r < |s.readers| && s.readers[r].Parked? ==> (Enabled(s, Wake(r)) <==> !held)
  {
    RunInv(events);
    var s := Run(events);
    assert forall w :: 0 <= w < |s.writers| ==>
           (Holding(s.writers[w]) <==> s.writers[w].Draining? || s.writers[w].Writing?);
  }

  // ---------- everything called is eventually run ----------

  function ReaderRank(r: Reader): nat { match r case Parked => 3 case Reading => 2 case Settled => 1 case Left => 0 }

  function WriterRank(w: Writer): nat
  {
    match w case Queued => 3 case Draining(_) => 2 case Writing => 1 case Finished(_) => 0
  }

  function ReadersRank(rs: seq<Reader>): nat { if rs == [] then 0 else ReaderRank(rs[0]) + ReadersRank(rs[1..]) }

  function WritersRank(ws: seq<Writer>): nat { if ws == [] then 0 else WriterRank(ws[0]) + WritersRank(ws[1..]) }

  function Remaining(s: State): nat { ReadersRank(s.readers) + WritersRank(s.writers) }

  predicate Done(s: State)
  {
    && (forall r :: 0 <= r < |s.readers| ==> s.readers[r].Left?)
    && (forall w :: 0 <= w < |s.writers| ==> s.writers[w].Finished?)
  }

  predicate Call(e: Event) { e.CallRead? || e.CallWrite? }

  lemma {:induction false} ReadersRankAt(rs: seq<Reader>, i: nat, r: Reader)
    requires i < |rs|
    ensures ReadersRank(rs[i := r]) == ReadersRank(rs) - ReaderRank(rs[i]) + ReaderRank(r)
  {
    if i > 0 {
      ReadersRankAt(rs[1..], i - 1, r);
      assert rs[i := r][1..] == rs[1..][i - 1 := r];
    } else {
      assert rs[0 := r][1..] == rs[1..];
    }
  }

  lemma {:induction false} WritersRankAt(ws: seq<Writer>, i: nat, w: Writer)
    requires i < |ws|
    ensures WritersRank(ws[i := w]) == WritersRank(ws) - WriterRank(ws[i]) + WriterRank(w)
  {
    if i > 0 {
      WritersRankAt(ws[1..], i - 1, w);
      assert ws[i := w][1..] == ws[1..][i - 1 := w];
    } else {
      assert ws[0 := w][1..] == ws[1..];
    }
  }

  // Every step but a new call brings the end strictly nearer.
  lemma StepDescends(s: State, e: Event)
    requires Enabled(s, e) && !Call(e)
    ensures Remaining(Step(s, e)) < Remaining(s)
  {
    hide ReadersRank, WritersRank;
    match e {
      case Wake(r) => ReadersRankAt(s.readers, r, Reading);
      case ReadSettles(r) => ReadersRankAt(s.readers, r, Settled);
      case Leave(r) => ReadersRankAt(s.readers, r, Left);
      case Begin(w) => WritersRankAt(s.writers, w, Draining(Active(s)));
      case Drained(w) => WritersRankAt(s.writers, w, Writing);
      case WriteSettles(w, rejected) => WritersRankAt(s.writers, w, Finished(rejected));
    }
  }

  // Where something called is not done, some step can be taken: nothing waits for
  // itself and no rejection leaves the gate shut.
  lemma Progress(s: State) returns (e: Event)
    requires Inv(s) && Bounded(s) && !Done(s)
    ensures Enabled(s, e) && !Call(e)
  {
    if r :| 0 <= r < |s.readers| && s.readers[r].Reading? {
      e := ReadSettles(r);
    } else if r :| 0 <= r < |s.readers| && s.readers[r].Settled? {
      e := Leave(r);
    } else if w :| 0 <= w < |s.writers| && s.writers[w].Writing? {
      e := WriteSettles(w, false);
    } else if w :| 0 <= w < |s.writers| && s.writers[w].Draining? {
      e := Drained(w);
    } else if w :| 0 <= w < |s.writers| && s.writers[w].Queued? {
      var v := FirstQueued(s.writers, w);
      e := Begin(v);
    } else {
      var r :| 0 <= r < |s.readers| && s.readers[r].Parked?;
      e := Wake(r);
    }
  }

  lemma FirstQueued(ws: seq<Writer>, w: nat) returns (v: nat)
    requires w < |ws| && ws[w].Queued?
    ensures v <= w && ws[v].Queued? && (v == 0 || !ws[v - 1].Queued?)
  {
    v := w;
    while v > 0 && ws[v - 1].Queued?
      invariant v <= w && ws[v].Queued?
    {
      v := v - 1;
    }
  }

  // A writer only ever waits for readers that exist.
  predicate Bounded(s: State)
  {
    forall w :: 0 <= w < |s.writers| && s.writers[w].Draining? ==>
      forall r :: r in s.writers[w].outstanding ==> r < |s.readers|
  }

  lemma {:induction false} RunBounded(events: seq<Event>)
    ensures Bounded(Run(events))
  {
    if events != [] { RunBounded(events[..|events| - 1]); }
  }

  // A run that can go no further without a new call has nothing left undone.
  lemma StuckIsDone(events: seq<Event>)
    requires forall e :: Enabled(Run(events), e) ==> Call(e)
    ensures Done(Run(events))
  {
    if !Done(Run(events)) {
      RunInv(events);
      RunBounded(events);
      var _ := Progress(Run(events));
    }
  }

  // However far a run has come, taking steps while any can be taken ends, after at
  // most `Remaining` of them, with every reader and every writer run to its end.
  lemma {:induction false} EverythingRuns(events: seq<Event>) returns (more: seq<Event>)
    ensures forall e :: e in more ==> !Call(e)
    ensures |more| <= Remaining(Run(events)) && Done(Run(events + more))
    decreases Remaining(Run(events))
  {
    var s := Run(events);
    if Done(s) {
      more := [];
      assert events + [] == events;
    } else {
      RunInv(events);
      RunBounded(events);
      var e := Progress(s);
      StepDescends(s, e);
      assert (events + [e])[..|events|] == events;
      assert Run(events + [e]) == Step(s, e);
      var others := EverythingRuns(events + [e]);
      more := [e] + others;
      assert events + more == events + [e] + others;
    }
  }
}
