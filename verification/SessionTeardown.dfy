// What a session leaves open when it is torn down or negotiated anew: when every
// handle is closed by the time that has returned.
module SessionTeardown {
  import opened Wrappers
  import opened SessionHandles

  lemma RunSnoc(events: seq<Event>, e: Event)
    ensures Run(events + [e]) == Step(Run(events), e)
  {
    assert (events + [e])[..|events|] == events;
  }

  // ---------- the handles ----------

  // No request opens a file. After a teardown none is let in that could.
  predicate OpensNone(e: Event) { !e.StartLopen? && !e.StartLcreate? && !e.StartReopen? }

  ghost predicate AllClosed(s: State) { forall h: Handle :: h < s.issued ==> h in s.closed }

  // The reset has returned once its closer has nothing left to close.
  ghost predicate ClosedOnReturn(events: seq<Event>, more: seq<Event>)
  {
    var c, u := |Run(events).closers|, Run(events + [Reset] + more);
    c < |u.closers| && (u.closers[c] == [] ==> AllClosed(u))
  }

  // No request is in front of an open or holds a handle, and no closer is at work.
  predicate NothingOpen(s: State)
  {
    && (forall tag :: tag in s.requests ==> s.requests[tag].phase == Describing(None))
    && (forall d :: 0 <= d < |s.closers| ==> s.closers[d] == [])
  }

  // All that is left to close is with one closer.
  ghost predicate OneCloser(s: State, c: nat)
  {
    && Sound(s) && c < |s.closers|
    && (forall tag :: tag in s.requests ==> s.requests[tag].phase == Describing(None))
    && (forall id :: id in s.table ==> HandleOf(s.entries[id]).None?)
    && (forall d :: 0 <= d < |s.closers| && d != c ==> s.closers[d] == [])
  }

  lemma {:induction false} NoHandles(s: State, k: nat)
    requires Sound(s) && k <= |s.table| && forall id :: id in s.table ==> HandleOf(s.entries[id]).None?
    ensures OpenHandles(s, k) == []
    decreases |s.table| - k
  {
    if k < |s.table| { NoHandles(s, k + 1); }
  }

  lemma SettleOneCloser(s: State, tag: nat, e: Event, c: nat)
    requires OneCloser(s, c) && tag in s.requests
    ensures OneCloser(Settle(s, tag, e), c)
  {
  }

  lemma ClunkOneCloser(s: State, fid: nat, c: nat)
    requires OneCloser(s, c)
    ensures OneCloser(Clunked(s, fid), c)
  {
    var i := IndexOf(s, fid);
    if i < |s.table| { TableWithout(s, i); }
  }

  lemma CreatedOneCloser(s: State, fid: nat, path: string, asked: nat, c: nat)
    requires OneCloser(s, c)
    ensures OneCloser(Created(s, fid, path, asked), c)
  {
  }

  lemma RepathedOneCloser(s: State, fid: nat, path: string, c: nat)
    requires OneCloser(s, c)
    ensures OneCloser(Repathed(s, fid, path), c)
  {
  }

  lemma BindingsOneCloser(s: State, bindings: map<nat, Binding>, c: nat)
    requires OneCloser(s, c)
    ensures OneCloser(s.(bindings := bindings), c)
  {
  }

  lemma BindOneCloser(s: State, e: Event, c: nat)
    requires OneCloser(s, c) && (e.Clone? || e.StartAttach? || e.StartWalk? || e.BindSettles? || e.Repath?)
    ensures OneCloser(Step(s, e), c)
  {
    assert Sound(s);
    hide OneCloser, Created, Repathed, IndexOf;
    match e {
      case Clone(from, fid) =>
        if IndexOf(s, from) < |s.table| {
          CreatedOneCloser(s, fid, s.entries[s.table[IndexOf(s, from)]].path, s.generation, c);
        }
      case StartAttach(tag, fid, path) => BindingsOneCloser(s, s.bindings[tag := Attach(fid, path, s.generation)], c);
      case StartWalk(tag, from, fid, path) =>
          BindingsOneCloser(s, s.bindings[tag := Walk(fid, path, s.generation, from)], c);
      case BindSettles(tag, _) => if tag in s.bindings { BoundOneCloser(s, tag, c); }
      case Repath(fid, path) => RepathedOneCloser(s, fid, path, c);
    }
  }

  lemma BoundOneCloser(s: State, tag: nat, c: nat)
    requires OneCloser(s, c) && tag in s.bindings
    ensures OneCloser(s.(bindings := s.bindings - {tag}), c)
    ensures OneCloser(Bound(s.(bindings := s.bindings - {tag}), s.bindings[tag]), c)
  {
    var t, b := s.(bindings := s.bindings - {tag}), s.bindings[tag];
    BindingsOneCloser(s, s.bindings - {tag}, c);
    assert Sound(t);
    hide OneCloser, Created, Repathed, IndexOf;
    CreatedOneCloser(t, b.fid, b.path, b.asked, c);
    RepathedOneCloser(t, b.fid, b.path, c);
  }

  lemma StepOneCloser(s: State, e: Event, c: nat)
    requires OneCloser(s, c) && OpensNone(e)
    ensures OneCloser(Step(s, e), c)
  {
    hide Settle, Clunked, OpenHandles, BindingSettled, Cloned, StartBinding, Repathed;
    if e.Clone? || e.StartAttach? || e.StartWalk? || e.BindSettles? || e.Repath? {
      BindOneCloser(s, e, c);
    } else if e.Clunk? {
      ClunkOneCloser(s, e.fid, c);
    } else if e.Reset? {
      NoHandles(s, 0);
    } else if !e.CloseSettles? && e.tag in s.requests {
      SettleOneCloser(s, e.tag, e, c);
    }
  }

  lemma {:induction false} RunOneCloser(events: seq<Event>, more: seq<Event>)
    requires NothingOpen(Run(events)) && forall e :: e in more ==> OpensNone(e)
    ensures OneCloser(Run(events + [Reset] + more), |Run(events).closers|)
    decreases |more|
  {
    hide OneCloser, Step;
    if more == [] {
      RunSnoc(events, Reset);
      assert events + [Reset] + more == events + [Reset];
      ResetLeavesOne(Run(events));
    } else {
      var front, e := more[..|more| - 1], more[|more| - 1];
      RunOneCloser(events, front);
      assert events + [Reset] + more == events + [Reset] + front + [e];
      RunSnoc(events + [Reset] + front, e);
      StepOneCloser(Run(events + [Reset] + front), e, |Run(events).closers|);
    }
  }

  lemma ResetLeavesOne(s: State)
    requires Sound(s) && NothingOpen(s)
    ensures OneCloser(Step(s, Reset), |s.closers|)
  {
  }

  // With that closer done, every handle is closed.
  lemma OneCloserDone(events: seq<Event>, c: nat)
    requires OneCloser(Run(events), c) && Run(events).closers[c] == []
    ensures AllClosed(Run(events))
  {
    var s := Run(events);
    RunConserves(events);
    forall h: Handle | h < s.issued ensures h in s.closed {
      assert Owned(s, h);
      var o :| Holds(s, o, h);
      OnlyClosed(s, c, o, h);
    }
  }

  lemma OnlyClosed(s: State, c: nat, o: Owner, h: Handle)
    requires OneCloser(s, c) && s.closers[c] == [] && Holds(s, o, h)
    ensures o.Closed?
  {
  }

  // ---------- what is in the way ----------

  function Drain(c: nat, n: nat): seq<Event> { if n == 0 then [] else Drain(c, n - 1) + [CloseSettles(c)] }

  // A state after so many closings of one closer.
  ghost predicate After(s: State, u: State, c: nat, n: nat)
    requires c < |s.closers| && n <= |s.closers[c]|
  {
    && u.table == s.table && u.entries == s.entries && u.requests == s.requests && u.issued == s.issued
    && |u.closers| == |s.closers| && u.closers[c] == s.closers[c][n..]
    && forall d :: 0 <= d < |s.closers| && d != c ==> u.closers[d] == s.closers[d]
  }

  lemma CloserStep(s: State, u: State, c: nat, n: nat)
    requires Sound(u) && c < |s.closers| && n < |s.closers[c]| && After(s, u, c, n)
    ensures After(s, Step(u, CloseSettles(c)), c, n + 1)
  {
    assert s.closers[c][n..][1..] == s.closers[c][n + 1..];
  }

  lemma {:induction false} Drained(events: seq<Event>, c: nat, n: nat)
    requires c < |Run(events).closers| && n <= |Run(events).closers[c]|
    ensures After(Run(events), Run(events + Drain(c, n)), c, n)
    ensures forall e :: e in Drain(c, n) ==> OpensNone(e)
  {
    hide Run, Step;
    if n == 0 {
      assert events + [] == events;
    } else {
      Drained(events, c, n - 1);
      assert events + Drain(c, n) == events + Drain(c, n - 1) + [CloseSettles(c)];
      RunSnoc(events + Drain(c, n - 1), CloseSettles(c));
      CloserStep(Run(events), Run(events + Drain(c, n - 1)), c, n - 1);
    }
  }

  // The reset and then nothing but its own closings: it returns, and every request is
  // where it was, with an empty table.
  lemma ResetThenDrained(events: seq<Event>) returns (more: seq<Event>)
    ensures forall e :: e in more ==> OpensNone(e)
    ensures var s, u, c := Run(events), Run(events + [Reset] + more), |Run(events).closers|;
            && u.table == [] && u.requests == s.requests && u.issued == s.issued
            && |u.closers| == c + 1 && u.closers[c] == []
            && (forall d :: 0 <= d < c ==> u.closers[d] == s.closers[d])
  {
    hide Run;
    var c := |Run(events).closers|;
    RunSnoc(events, Reset);
    var n := |Run(events + [Reset]).closers[c]|;
    Drained(events + [Reset], c, n);
    more := Drain(c, n);
  }

  lemma HeldIsOpen(events: seq<Event>, o: Owner, h: Handle)
    requires Holds(Run(events), o, h) && !o.Closed?
    ensures h < Run(events).issued && h !in Run(events).closed
  {
    RunConserves(events);
    assert Owned(Run(events), h);
    assert h in Run(events).closed ==> Holds(Run(events), Closed, h);
  }

  lemma SomethingHeld(events: seq<Event>, o: Owner, h: Handle) returns (more: seq<Event>)
    requires Holds(Run(events), o, h) && (o.Local? || o.Closing?)
    ensures (forall e :: e in more ==> OpensNone(e)) && !ClosedOnReturn(events, more)
  {
    more := ResetThenDrained(events);
    assert Holds(Run(events + [Reset] + more), o, h);
    HeldIsOpen(events + [Reset] + more, o, h);
  }

  // The driver answers an open with a handle: its request has it in hand, for there is
  // no entry left to put it on.
  lemma OpenSettlesLate(s: State, tag: nat)
    requires Sound(s) && s.table == [] && tag in s.requests && s.requests[tag].phase == Opening
    ensures var t := Step(s, OpenSettles(tag, true, true));
            Holds(t, Local(tag), s.issued) && t.closers == s.closers
  {
  }

  lemma OpeningComes(events: seq<Event>, before: seq<Event>, tag: nat) returns (more: seq<Event>)
    requires forall e :: e in before ==> OpensNone(e)
    requires var u, c := Run(events + [Reset] + before), |Run(events).closers|;
             && u.table == [] && c < |u.closers| && u.closers[c] == []
             && tag in u.requests && u.requests[tag].phase == Opening
    ensures (forall e :: e in more ==> OpensNone(e)) && !ClosedOnReturn(events, more)
  {
    var u, e := Run(events + [Reset] + before), OpenSettles(tag, true, true);
    more := before + [e];
    assert events + [Reset] + more == events + [Reset] + before + [e];
    RunSnoc(events + [Reset] + before, e);
    OpenSettlesLate(u, tag);
    HeldIsOpen(events + [Reset] + more, Local(tag), u.issued);
  }

  lemma RequestInTheWay(events: seq<Event>, tag: nat) returns (more: seq<Event>)
    requires tag in Run(events).requests && Run(events).requests[tag].phase != Describing(None)
    ensures (forall e :: e in more ==> OpensNone(e)) && !ClosedOnReturn(events, more)
  {
    var r := Run(events).requests[tag];
    if LocalHandle(r.phase).Some? {
      more := SomethingHeld(events, Local(tag), LocalHandle(r.phase).value);
    } else {
      var before := ResetThenDrained(events);
      if r.phase == Opening {
        more := OpeningComes(events, before, tag);
      } else {
        var e := StatSettles(tag, Some(false));
        assert events + [Reset] + (before + [e]) == events + [Reset] + before + [e];
        RunSnoc(events + [Reset] + before, e);
        more := OpeningComes(events, before + [e], tag);
      }
    }
  }

  // Whatever settles after a reset and in whatever order, every handle the driver ever
  // returned is closed once the reset has returned, if and only if at the reset no
  // request was in front of an open or held a handle and no other closer was at work.
  lemma ClosedOnReturnIff(events: seq<Event>)
    ensures (forall more :: (forall e :: e in more ==> OpensNone(e)) ==> ClosedOnReturn(events, more))
            <==> NothingOpen(Run(events))
  {
    var s := Run(events);
    if NothingOpen(s) {
      forall more | forall e :: e in more ==> OpensNone(e) ensures ClosedOnReturn(events, more) {
        RunOneCloser(events, more);
        if Run(events + [Reset] + more).closers[|s.closers|] == [] {
          OneCloserDone(events + [Reset] + more, |s.closers|);
        }
      }
    } else {
      var _ := InTheWay(events);
    }
  }

  lemma InTheWay(events: seq<Event>) returns (more: seq<Event>)
    requires !NothingOpen(Run(events))
    ensures (forall e :: e in more ==> OpensNone(e)) && !ClosedOnReturn(events, more)
  {
    var s := Run(events);
    if tag :| tag in s.requests && s.requests[tag].phase != Describing(None) {
      more := RequestInTheWay(events, tag);
    } else {
      var d: nat :| d < |s.closers| && s.closers[d] != [];
      more := SomethingHeld(events, Closing(d), s.closers[d][0]);
    }
  }

  // An open parked in the driver: the teardown has returned, and its handle comes later.
  lemma ParkedOpenComesLate()
    ensures var s := Run([StartAttach(1, 1, "/a"), BindSettles(1, true), StartLopen(7, 1, false, false),
                          StatSettles(7, Some(false)), Reset, OpenSettles(7, true, true)]);
            && s.closers == [[]] && s.issued == 1 && 0 !in s.closed
            && 7 in s.requests && s.requests[7].phase == Unwinding(0)
  {
    hide Run, Step;
    RunOfSix(StartAttach(1, 1, "/a"), BindSettles(1, true), StartLopen(7, 1, false, false),
             StatSettles(7, Some(false)), Reset, OpenSettles(7, true, true));
    AttachedAt();
    OpeningAt();
    ReturnedAt();
    OpenSettledAt();
  }

  // The states of that run.
  const ATTACHED: State := State([0], [Entry(1, "/a", None, 0)], map[], map[], [], {}, 0, 0)
  const OPENING: State := ATTACHED.(requests := map[7 := Request(Lopen(false, false), 0, Opening)])
  const RETURNED: State := OPENING.(table := [], closers := [[]], generation := 1)

  lemma AttachedAt()
    ensures Step(Step(INITIAL, StartAttach(1, 1, "/a")), BindSettles(1, true)) == ATTACHED
  {
    var s := Step(INITIAL, StartAttach(1, 1, "/a"));
    assert s == INITIAL.(bindings := map[1 := Attach(1, "/a", 0)]);
    assert s.bindings - {1} == map[];
    assert IndexOf(s.(bindings := map[]), 1) == 0;
  }

  lemma OpeningAt()
    ensures Sound(ATTACHED)
    ensures Step(Step(ATTACHED, StartLopen(7, 1, false, false)), StatSettles(7, Some(false))) == OPENING
  {
    assert IndexOf(ATTACHED, 1) == 0;
    var s := Step(ATTACHED, StartLopen(7, 1, false, false));
    assert s == ATTACHED.(requests := map[7 := Request(Lopen(false, false), 0, Stating)]);
  }

  lemma ReturnedAt()
    ensures Sound(OPENING) && Step(OPENING, Reset) == RETURNED
  {
    assert OpenHandles(OPENING, 0) == [];
  }

  lemma OpenSettledAt()
    ensures Sound(RETURNED)
    ensures var t := Step(RETURNED, OpenSettles(7, true, true));
            t.closers == [[]] && t.issued == 1 && t.closed == {} && 7 in t.requests &&
                t.requests[7].phase == Unwinding(0)
  {
    OpenSettlesLate(RETURNED, 7);
  }

  lemma RunOfNone()
    ensures Run([]) == INITIAL
  {
  }

  lemma RunOfThree(events: seq<Event>, a: Event, b: Event, c: Event)
    ensures Run(events + [a, b, c]) == Step(Step(Step(Run(events), a), b), c)
  {
    hide Step, Run;
    RunSnoc(events, a);
    RunSnoc(events + [a], b);
    RunSnoc(events + [a] + [b], c);
    assert events + [a] + [b] + [c] == events + [a, b, c];
  }

  lemma RunOfSix(a: Event, b: Event, c: Event, d: Event, e: Event, f: Event)
    ensures Run([a, b, c, d, e, f]) == Step(Step(Step(Step(Step(Step(INITIAL, a), b), c), d), e), f)
  {
    hide Step, Run;
    RunOfNone();
    RunOfThree([], a, b, c);
    assert [] + [a, b, c] == [a, b, c];
    RunOfThree([a, b, c], d, e, f);
    assert [a, b, c] + [d, e, f] == [a, b, c, d, e, f];
  }
}
