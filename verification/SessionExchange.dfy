// Which fids outlive a version exchange or a teardown: those that a request from
// before it binds once the driver has answered.
module SessionExchange {
  import opened Wrappers
  import opened SessionHandles
  import opened SessionTeardown

  // ---------- the fids ----------

  // A fid in the table was asked for before the session was last reset.
  ghost predicate HasStale(s: State)
    requires Sound(s)
  {
    exists id :: id in s.table && s.entries[id].asked < s.generation
  }

  // A request from before the last reset binds its fid: the driver found what it was
  // to, the number is free, and the fid a walk started from is bound, whoever by.
  predicate BindsLate(s: State, e: Event)
    requires Sound(s)
  {
    e.BindSettles? && e.found && e.tag in s.bindings && CanBind(s, s.bindings[e.tag])
  }

  lemma CreatedStale(s: State, fid: nat, path: string, asked: nat)
    requires Sound(s)
    ensures HasStale(Created(s, fid, path, asked)) <==>
            HasStale(s) || (fid < NOFID && IndexOf(s, fid) == |s.table| && asked < s.generation)
  {
    var t := Created(s, fid, path, asked);
    if fid < NOFID && IndexOf(s, fid) == |s.table| {
      assert t.table == s.table + [|s.entries|] && t.entries[|s.entries|].asked == asked;
      assert |s.entries| in t.table;
      assert forall id :: id in s.table ==> id in t.table && t.entries[id] == s.entries[id];
    }
  }

  // An entry changes its path or its open state and not its age.
  lemma EntryStale(s: State, t: State)
    requires Sound(s) && Sound(t) && t.generation == s.generation && |t.entries| == |s.entries|
    requires forall id :: id in t.table ==> id in s.table
    requires forall id :: 0 <= id < |s.entries| ==> t.entries[id].asked == s.entries[id].asked
    ensures HasStale(t) ==> HasStale(s)
  {
  }

  lemma SettleAges(s: State, tag: nat, e: Event)
    requires Sound(s) && tag in s.requests
    ensures var t := Settle(s, tag, e);
            && t.generation == s.generation && t.table == s.table && |t.entries| == |s.entries|
            && forall id :: 0 <= id < |s.entries| ==>
                 t.entries[id].asked == s.entries[id].asked && t.entries[id].fid == s.entries[id].fid
  {
  }

  lemma ClunkAges(s: State, fid: nat)
    requires Sound(s)
    ensures var t := Clunked(s, fid);
            && t.generation == s.generation && |t.entries| == |s.entries| &&
               (forall id :: id in t.table ==> id in s.table)
            && forall id :: 0 <= id < |s.entries| ==>
                 t.entries[id].asked == s.entries[id].asked && t.entries[id].fid == s.entries[id].fid
  {
    if IndexOf(s, fid) < |s.table| { TableWithout(s, IndexOf(s, fid)); }
  }

  // What a binding from before the last reset needs to bind its fid.
  predicate CanBind(s: State, b: Binding)
    requires Sound(s)
  {
    && b.asked < s.generation && b.fid < NOFID && IndexOf(s, b.fid) == |s.table|
    && (b.Walk? ==> IndexOf(s, b.from) < |s.table|)
  }

  lemma BindingStale(s: State, b: Binding)
    requires Sound(s) && !HasStale(s)
    ensures HasStale(Bound(s, b)) <==> CanBind(s, b)
  {
    hide HasStale, IndexOf;
    CreatedStale(s, b.fid, b.path, b.asked);
    RepathedStale(s, b.fid, b.path);
    hide Created, Repathed;
  }

  lemma RepathedStale(s: State, fid: nat, path: string)
    requires Sound(s) && !HasStale(s)
    ensures !HasStale(Repathed(s, fid, path))
  {
    EntryStale(s, Repathed(s, fid, path));
  }

  lemma BoundStale(s: State, e: Event)
    requires Sound(s) && e.BindSettles? && !HasStale(s)
    ensures HasStale(Step(s, e)) <==> BindsLate(s, e)
  {
    hide HasStale, Bound, IndexOf;
    if e.tag in s.bindings {
      var t, b := s.(bindings := s.bindings - {e.tag}), s.bindings[e.tag];
      assert Sound(t);
      BindingsStale(s, t);
      SameIndexOf(s, t, b.fid);
      if b.Walk? { SameIndexOf(s, t, b.from); }
      BindingStale(t, b);
    }
  }

  lemma BindingsStale(s: State, t: State)
    requires Sound(s) && t == s.(bindings := t.bindings)
    ensures Sound(t) && (HasStale(t) <==> HasStale(s))
  {
  }

  lemma SameIndexOf(s: State, t: State, fid: nat)
    requires Sound(s) && Sound(t) && t.table == s.table && t.entries == s.entries
    ensures IndexOf(s, fid) == IndexOf(t, fid)
  {
    SameIndex(s, t, fid, 0);
  }

  lemma {:induction false} SameIndex(s: State, t: State, fid: nat, k: nat)
    requires Sound(s) && Sound(t) && t.table == s.table && t.entries == s.entries && k <= |s.table|
    ensures IndexFrom(s, fid, k) == IndexFrom(t, fid, k)
    decreases |s.table| - k
  {
    if k < |s.table| { SameIndex(s, t, fid, k + 1); }
  }

  lemma ClonedStale(s: State, from: nat, fid: nat)
    requires Sound(s) && !HasStale(s)
    ensures !HasStale(Cloned(s, from, fid))
  {
    var i := IndexOf(s, from);
    if i < |s.table| { CreatedStale(s, fid, s.entries[s.table[i]].path, s.generation); }
  }

  // A step makes the table hold such a fid exactly when it is such a binding.
  lemma StepStale(s: State, e: Event)
    requires Sound(s) && !HasStale(s)
    ensures HasStale(Step(s, e)) <==> BindsLate(s, e)
  {
    hide HasStale, BindsLate, IndexOf, Created, Settle, Clunked;
    if e.BindSettles? {
      BoundStale(s, e);
    } else {
      OthersBindNothing(s, e);
      if e.Clone? {
        ClonedStale(s, e.from, e.fid);
      } else {
        OtherAges(s, e);
      }
    }
  }

  lemma OthersBindNothing(s: State, e: Event)
    requires Sound(s) && !e.BindSettles?
    ensures !BindsLate(s, e)
  {
  }

  lemma OtherAges(s: State, e: Event)
    requires Sound(s) && !HasStale(s) && !e.BindSettles? && !e.Clone?
    ensures !HasStale(Step(s, e))
  {
    hide Settle, Clunked, IndexOf;
    if e.Reset? {
      assert Step(s, e).table == [];
    } else if e.Clunk? {
      ClunkAges(s, e.fid);
      EntryStale(s, Step(s, e));
    } else if e.StatSettles? || e.OpenSettles? || e.DiscardSettles? || e.DescribeSettles? || e.UseSettles? ||
        e.UnwindSettles? {
      if e.tag in s.requests { SettleAges(s, e.tag, e); }
      EntryStale(s, Step(s, e));
    } else {
      EntryStale(s, Step(s, e));
    }
  }

  // A run after a reset, up to its k-th step.
  function Since(events: seq<Event>, more: seq<Event>, k: nat): (s: State)
    requires k <= |more|
    ensures Sound(s)
  {
    Run(events + [Reset] + more[..k])
  }

  lemma SinceStep(events: seq<Event>, more: seq<Event>, k: nat)
    requires k < |more|
    ensures Since(events, more, k + 1) == Step(Since(events, more, k), more[k])
  {
    assert events + [Reset] + more[..k + 1] == events + [Reset] + more[..k] + [more[k]];
    RunSnoc(events + [Reset] + more[..k], more[k]);
  }

  lemma SinceStart(events: seq<Event>, more: seq<Event>)
    ensures Since(events, more, 0) == Step(Run(events), Reset) && !HasStale(Since(events, more, 0))
  {
    hide Run;
    assert events + [Reset] + more[..0] == events + [Reset];
    RunSnoc(events, Reset);
  }

  // Until the next reset, a fid from before this one is in the table at some time if and
  // only if some request from before it binds one then.
  lemma StaleIff(events: seq<Event>, more: seq<Event>)
    ensures (exists k: nat :: k <= |more| && HasStale(Since(events, more, k))) <==>
            (exists k: nat :: k < |more| && BindsLate(Since(events, more, k), more[k]))
  {
    hide HasStale, BindsLate, Since;
    SinceStart(events, more);
    if k: nat :| k <= |more| && HasStale(Since(events, more, k)) {
      var _ := FirstStale(events, more, k);
    }
    if k: nat :| k < |more| && BindsLate(Since(events, more, k), more[k]) {
      SinceStep(events, more, k);
      if !HasStale(Since(events, more, k)) {
        StepStale(Since(events, more, k), more[k]);
        assert HasStale(Since(events, more, k + 1));
      }
    }
  }

  lemma {:induction false} FirstStale(events: seq<Event>, more: seq<Event>, k: nat) returns (j: nat)
    requires k <= |more| && HasStale(Since(events, more, k))
    ensures j < k && BindsLate(Since(events, more, j), more[j])
    decreases k
  {
    hide HasStale, BindsLate, Since, Step;
    SinceStart(events, more);
    SinceStep(events, more, k - 1);
    if HasStale(Since(events, more, k - 1)) {
      j := FirstStale(events, more, k - 1);
    } else {
      StepStale(Since(events, more, k - 1), more[k - 1]);
      j := k - 1;
    }
  }

  // ---------- who was parked ----------

  ghost predicate FidsValid(s: State)
    requires Sound(s)
  {
    forall id :: id in s.table ==> s.entries[id].fid < NOFID
  }

  lemma CreatedFids(s: State, fid: nat, path: string, asked: nat)
    requires Sound(s) && FidsValid(s)
    ensures FidsValid(Created(s, fid, path, asked))
  {
  }

  lemma RepathedFids(s: State, fid: nat, path: string)
    requires Sound(s) && FidsValid(s)
    ensures FidsValid(Repathed(s, fid, path))
  {
  }

  lemma BindFids(s: State, e: Event)
    requires Sound(s) && FidsValid(s) && (e.Clone? || e.StartAttach? || e.StartWalk? || e.BindSettles? || e.Repath?)
    ensures FidsValid(Step(s, e))
  {
    hide Created, Repathed, IndexOf;
    match e {
      case Clone(from, fid) =>
        if IndexOf(s, from) < |s.table| {
          CreatedFids(s, fid, s.entries[s.table[IndexOf(s, from)]].path, s.generation);
        }
      case StartAttach(_, _, _) =>
      case StartWalk(_, _, _, _) =>
      case BindSettles(tag, _) =>
        if tag in s.bindings {
          var t, b := s.(bindings := s.bindings - {tag}), s.bindings[tag];
          CreatedFids(t, b.fid, b.path, b.asked);
          RepathedFids(t, b.fid, b.path);
        }
      case Repath(fid, path) => RepathedFids(s, fid, path);
    }
  }

  lemma StepFids(s: State, e: Event)
    requires Sound(s) && FidsValid(s)
    ensures FidsValid(Step(s, e))
  {
    hide Settle, Clunked, IndexOf, BindingSettled, Cloned, StartBinding, Repathed, OpenHandles;
    if e.Clone? || e.StartAttach? || e.StartWalk? || e.BindSettles? || e.Repath? {
      BindFids(s, e);
    } else if e.Clunk? {
      ClunkAges(s, e.fid);
    } else if e.StatSettles? || e.OpenSettles? || e.DiscardSettles? || e.DescribeSettles? || e.UseSettles? ||
        e.UnwindSettles? {
      if e.tag in s.requests { SettleAges(s, e.tag, e); }
    }
  }

  lemma {:induction false} RunFids(events: seq<Event>)
    ensures FidsValid(Run(events))
  {
    hide Step;
    if events != [] {
      RunFids(events[..|events| - 1]);
      StepFids(Run(events[..|events| - 1]), events[|events| - 1]);
    }
  }

  // Since one reset: what was asked for before it was parked at it.
  ghost predicate ParkedSince(at: State, s: State)
  {
    && s.generation == at.generation + 1
    && forall tag :: tag in s.bindings && s.bindings[tag].asked < s.generation ==>
         tag in at.bindings && at.bindings[tag] == s.bindings[tag]
  }

  // What waits after a step waited before it, or is of this generation.
  lemma StepBindings(s: State, e: Event)
    requires Sound(s) && !e.Reset?
    ensures var t := Step(s, e);
            && t.generation == s.generation
            && forall tag :: tag in t.bindings ==>
                 (tag in s.bindings && t.bindings[tag] == s.bindings[tag]) || t.bindings[tag].asked == s.generation
  {
    hide Settle, Clunked, IndexOf, Created, Repathed, OpenHandles;
    if e.Clunk? {
      ClunkBindings(s, e.fid);
    } else if e.Clone? {
      ClonedBindings(s, e.from, e.fid);
    } else if e.Repath? {
      BoundBindings(s, e.fid, e.path, 0);
    } else if e.BindSettles? {
      if e.tag in s.bindings {
        var t, b := s.(bindings := s.bindings - {e.tag}), s.bindings[e.tag];
        BoundBindings(t, b.fid, b.path, b.asked);
      }
    } else if e.StatSettles? || e.OpenSettles? || e.DiscardSettles? || e.DescribeSettles? || e.UseSettles? ||
        e.UnwindSettles? {
      if e.tag in s.requests { SettleBindings(s, e.tag, e); }
    }
  }

  lemma StepParked(at: State, s: State, e: Event)
    requires Sound(s) && ParkedSince(at, s) && !e.Reset?
    ensures ParkedSince(at, Step(s, e))
  {
    hide Step;
    StepBindings(s, e);
  }

  lemma ClunkBindings(s: State, fid: nat)
    requires Sound(s)
    ensures Clunked(s, fid).bindings == s.bindings && Clunked(s, fid).generation == s.generation
  {
  }

  lemma ClonedBindings(s: State, from: nat, fid: nat)
    requires Sound(s)
    ensures Cloned(s, from, fid).bindings == s.bindings && Cloned(s, from, fid).generation == s.generation
  {
  }

  lemma BoundBindings(s: State, fid: nat, path: string, asked: nat)
    requires Sound(s)
    ensures Created(s, fid, path, asked).bindings == s.bindings &&
            Created(s, fid, path, asked).generation == s.generation
    ensures Repathed(s, fid, path).bindings == s.bindings && Repathed(s, fid, path).generation == s.generation
  {
  }

  lemma SettleBindings(s: State, tag: nat, e: Event)
    requires Sound(s) && tag in s.requests
    ensures Settle(s, tag, e).bindings == s.bindings && Settle(s, tag, e).generation == s.generation
  {
  }

  ghost predicate BindingsAged(s: State) { forall tag :: tag in s.bindings ==> s.bindings[tag].asked <= s.generation }

  lemma StepAged(s: State, e: Event)
    requires Sound(s) && BindingsAged(s)
    ensures BindingsAged(Step(s, e))
  {
    if !e.Reset? {
      hide Step;
      StepBindings(s, e);
    }
  }

  lemma {:induction false} RunAged(events: seq<Event>)
    ensures BindingsAged(Run(events))
  {
    hide Step;
    if events != [] {
      RunAged(events[..|events| - 1]);
      StepAged(Run(events[..|events| - 1]), events[|events| - 1]);
    }
  }

  lemma {:induction false} SinceParked(events: seq<Event>, more: seq<Event>, k: nat)
    requires k <= |more| && forall e :: e in more ==> !e.Reset?
    ensures ParkedSince(Run(events), Since(events, more, k))
    decreases k
  {
    hide Step, Since, Run, ParkedSince;
    if k == 0 {
      SinceStart(events, more);
      RunAged(events);
      ResetParks(Run(events));
    } else {
      SinceParked(events, more, k - 1);
      SinceStep(events, more, k - 1);
      StepParked(Run(events), Since(events, more, k - 1), more[k - 1]);
    }
  }

  lemma ResetParks(s: State)
    requires Sound(s) && BindingsAged(s)
    ensures ParkedSince(s, Step(s, Reset))
  {
  }

  // A request that could bind a fid after a reset: an attach, or a walk that ends at
  // another number than it started from, of numbers that are fids.
  predicate CouldOutlive(b: Binding) { b.fid < NOFID && (b.Walk? ==> b.from < NOFID && b.from != b.fid) }

  // The request that binds late was parked in the driver at the reset.
  lemma LateWasParked(events: seq<Event>, more: seq<Event>, k: nat)
    requires k < |more| && BindsLate(Since(events, more, k), more[k]) && forall e :: e in more ==> !e.Reset?
    ensures more[k].BindSettles?
    ensures var at, s, tag := Run(events), Since(events, more, k), more[k].tag;
            tag in at.bindings && at.bindings[tag] == s.bindings[tag] && CouldOutlive(at.bindings[tag])
  {
    SinceParked(events, more, k);
    RunFids(events + [Reset] + more[..k]);
    var s := Since(events, more, k);
    var b := s.bindings[more[k].tag];
    if b.Walk? { FidInTable(s, b.from); }
  }

  lemma FidInTable(s: State, fid: nat)
    requires Sound(s) && FidsValid(s) && IndexOf(s, fid) < |s.table|
    ensures fid < NOFID
  {
    assert s.table[IndexOf(s, fid)] in s.table;
  }

  lemma FreshTag(tags: set<nat>) returns (tag: nat)
    ensures tag !in tags
  {
    if tags == {} {
      tag := 0;
    } else {
      var high := Highest(tags);
      tag := high + 1;
    }
  }

  lemma {:induction false} Highest(tags: set<nat>) returns (high: nat)
    requires tags != {}
    ensures forall t :: t in tags ==> t <= high
    decreases tags
  {
    var some :| some in tags;
    if tags == {some} {
      high := some;
    } else {
      var rest := Highest(tags - {some});
      high := if some > rest then some else rest;
      forall t | t in tags ensures t <= high { assert t == some || t in tags - {some}; }
    }
  }

  // Before the next reset a fid asked for earlier can come into the table if and only if
  // such a request is parked in the driver at this one.
  lemma OutlivesIff(events: seq<Event>)
    ensures (exists more: seq<Event> ::
               (forall e :: e in more ==> !e.Reset?) && HasStale(Run(events + [Reset] + more))) <==>
            (exists tag :: tag in Run(events).bindings && CouldOutlive(Run(events).bindings[tag]))
  {
    hide HasStale, BindsLate, Run;
    if more: seq<Event> :| (forall e :: e in more ==> !e.Reset?) && HasStale(Run(events + [Reset] + more)) {
      assert more[..|more|] == more;
      var k := FirstStale(events, more, |more|);
      LateWasParked(events, more, k);
      assert more[k].tag in Run(events).bindings;
    }
    if tag :| tag in Run(events).bindings && CouldOutlive(Run(events).bindings[tag]) {
      var _ := Outlives(events, tag);
    }
  }

  lemma Outlives(events: seq<Event>, tag: nat) returns (more: seq<Event>)
    requires tag in Run(events).bindings && CouldOutlive(Run(events).bindings[tag])
    ensures (forall e :: e in more ==> !e.Reset?) && HasStale(Run(events + [Reset] + more))
  {
    hide Run, HasStale;
    RunAged(events);
    RunSnoc(events, Reset);
    var s := Run(events);
    var r := Step(s, Reset);
    var b := s.bindings[tag];
    if b.Attach? {
      more := [BindSettles(tag, true)];
      EmptyTableBinds(r, tag);
      RunSnoc(events + [Reset], BindSettles(tag, true));
    } else {
      var other := FreshTag(s.bindings.Keys + s.requests.Keys);
      more := [StartAttach(other, b.from, "/"), BindSettles(other, true), BindSettles(tag, true)];
      RunOfThree(events + [Reset], more[0], more[1], more[2]);
      AttachThenWalk(r, tag, other);
    }
  }

  lemma EmptyTableBinds(s: State, tag: nat)
    requires Sound(s) && s.table == [] && tag in s.bindings && s.bindings[tag].Attach?
    requires s.bindings[tag].asked < s.generation && s.bindings[tag].fid < NOFID
    ensures HasStale(Step(s, BindSettles(tag, true)))
  {
    hide Bound;
    assert !HasStale(s);
    BoundStale(s, BindSettles(tag, true));
  }

  lemma AttachThenWalk(s: State, tag: nat, other: nat)
    requires Sound(s) && s.table == [] && tag in s.bindings && s.bindings[tag].Walk? && CouldOutlive(s.bindings[tag])
    requires s.bindings[tag].asked < s.generation && other !in s.bindings && other !in s.requests
    ensures HasStale(Step(Step(Step(s, StartAttach(other, s.bindings[tag].from, "/")), BindSettles(other, true)),
            BindSettles(tag, true)))
  {
    var b := s.bindings[tag];
    var s1 := Step(s, StartAttach(other, b.from, "/"));
    var s2 := Step(s1, BindSettles(other, true));
    assert tag in s2.bindings && s2.bindings[tag] == b && s2.generation == s.generation;
    assert s2.table == [|s.entries|] && s2.entries[|s.entries|] == Entry(b.from, "/", None, s.generation);
    assert !HasStale(s2);
    assert IndexOf(s2, b.from) == 0 && IndexOf(s2, b.fid) == 1;
    BoundStale(s2, BindSettles(tag, true));
  }

  // An attach waiting for its `lstat`: the exchange is over, and its fid is bound.
  lemma ParkedAttachOutlives()
    ensures var s := Run([StartAttach(1, 7, "/a"), Reset, BindSettles(1, true)]);
            && s.generation == 1 && s.closers == [[]]
            && s.table == [0] && s.entries == [Entry(7, "/a", None, 0)] && HasStale(s)
  {
    RunOfThree([], StartAttach(1, 7, "/a"), Reset, BindSettles(1, true));
    assert [] + [StartAttach(1, 7, "/a"), Reset, BindSettles(1, true)] ==
           [StartAttach(1, 7, "/a"), Reset, BindSettles(1, true)];
    hide Run, Step;
    RunOfNone();
    ExchangedAt();
    BoundLateAt();
  }

  const ASKED: State := INITIAL.(bindings := map[1 := Attach(7, "/a", 0)])
  const EXCHANGED: State := ASKED.(closers := [[]], generation := 1)

  lemma ExchangedAt()
    ensures Sound(ASKED) && Step(INITIAL, StartAttach(1, 7, "/a")) == ASKED && Step(ASKED, Reset) == EXCHANGED
  {
    assert OpenHandles(ASKED, 0) == [];
  }

  lemma BoundLateAt()
    ensures Sound(EXCHANGED)
    ensures var s := Step(EXCHANGED, BindSettles(1, true));
            && s.generation == 1 && s.closers == [[]]
            && s.table == [0] && s.entries == [Entry(7, "/a", None, 0)] && HasStale(s)
  {
    var s := Step(EXCHANGED, BindSettles(1, true));
    assert s.table == [0] && 0 in s.table && s.entries[0] == Entry(7, "/a", None, 0);
  }
}
