// What each step of a session does to its fids, said of the steps themselves: when a
// fid becomes open and how, what a request in flight goes on to, and what a start, a
// binding, a clunk and a reset leave in the table.
module SessionSteps {
  import opened Wrappers
  import opened SessionHandles

  // The fid names that entry.
  predicate Leads(s: State, fid: nat, id: nat) { id in s.table && id < |s.entries| && s.entries[id].fid == fid }

  predicate InUse(s: State, fid: nat) { exists i: nat :: i < |s.table| && Leads(s, fid, s.table[i]) }

  // Nothing but the requests may differ.
  predicate SameButRequests(s: State, t: State) { t == s.(requests := t.requests) }

  // The driver answers a request.
  predicate Settles(e: Event)
  {
    e.StatSettles? || e.OpenSettles? || e.DiscardSettles? || e.DescribeSettles? || e.UseSettles? || e.UnwindSettles?
  }

  lemma Found(s: State, fid: nat, id: nat)
    requires Sound(s) && Leads(s, fid, id)
    ensures IndexOf(s, fid) < |s.table| && s.table[IndexOf(s, fid)] == id
  {
    var j :| 0 <= j < |s.table| && s.table[j] == id;
    var i := IndexOf(s, fid);
    assert i < |s.table|;
    assert s.entries[s.table[i]].fid == s.entries[s.table[j]].fid;
  }

  lemma WhereFrom(s: State, fid: nat)
    requires Sound(s)
    ensures var i := IndexOf(s, fid);
            && (i < |s.table| <==> InUse(s, fid))
            && (i < |s.table| ==> Leads(s, fid, s.table[i]))
            && forall j :: 0 <= j < |s.table| && Leads(s, fid, s.table[j]) ==> i < |s.table| && s.table[j] == s.table[i]
  {
    var i := IndexOf(s, fid);
    if i < |s.table| { assert Leads(s, fid, s.table[i]); }
    forall j | 0 <= j < |s.table| && Leads(s, fid, s.table[j])
      ensures i < |s.table| && s.table[j] == s.table[i]
    {
      Found(s, fid, s.table[j]);
    }
  }

  // ---------- the end of an open ----------

  // What a request that has got through its open brings back.
  datatype Ending = Ending(kept: Option<Handle>, directory: bool)

  // The answers after which an open awaits nothing more: the fid names a directory and
  // the open was not for writing; the driver's handle, kept or given back, where the file
  // is not cut; the file described once more, where it was cut or made.
  function EndOf(s: State, e: Event): Option<Ending>
  {
    if !Settles(e) || e.tag !in s.requests then None
    else
      var r := s.requests[e.tag];
      var plain := r.kind.Lopen? && !r.kind.truncates;
      if e.StatSettles? && r.phase.Stating? && e.directory == Some(true) && !(r.kind.Lopen? && r.kind.writes) then
        Some(Ending(None, true))
      else if e.OpenSettles? && r.phase.Opening? && e.succeeded && e.keep &&
          plain then Some(Ending(Some(s.issued), false))
      else if e.DiscardSettles? && r.phase.Discarding? && plain then Some(Ending(None, false))
      else if e.DescribeSettles? && r.phase.Describing? && e.described then Some(Ending(r.phase.kept, false))
      else None
  }

  // Nobody closed, opened or moved the fid while the open was under way.
  predicate StillFits(s: State, r: Request)
    requires r.entry < |s.entries|
  {
    r.entry in s.table && s.entries[r.entry].open.None? &&
    (r.kind.Lcreate? ==> s.entries[r.entry].path == r.kind.parent)
  }

  lemma StepSettles(s: State, e: Event)
    requires Sound(s) && Settles(e)
    ensures Step(s, e) == if e.tag in s.requests then Settle(s, e.tag, e) else s
  {
  }

  // An open that ends on a fid that still fits leaves it open with exactly the handle it
  // kept, or none, and as a directory or not; a create leaves it naming the new file. No
  // other entry changes and the request is gone. On any other fid nothing changes, and a
  // handle that was kept is next to be closed.
  lemma OpenEnds(s: State, e: Event)
    requires Sound(s) && EndOf(s, e).Some?
    ensures var t, r, end := Step(s, e), s.requests[e.tag], EndOf(s, e).value;
            && t.table == s.table && t.bindings == s.bindings && t.closers == s.closers && t.generation == s.generation
            && (if StillFits(s, r) then
                  && t.requests == s.requests - {e.tag}
                  && t.entries == s.entries[r.entry := t.entries[r.entry]]
                  && t.entries[r.entry].open == Some(Open(end.kept, end.directory))
                  && t.entries[r.entry].path == (if r.kind.Lcreate? then r.kind.path else s.entries[r.entry].path)
                  && t.entries[r.entry].fid == s.entries[r.entry].fid
                  && t.entries[r.entry].asked == s.entries[r.entry].asked
                else
                  && t.entries == s.entries
                  && (if end.kept.None? then t.requests == s.requests - {e.tag}
                      else t.requests == s.requests[e.tag := Request(r.kind, r.entry, Unwinding(end.kept.value))]))
  {
    hide IndexOf, Step;
    StepSettles(s, e);
  }

  // Every other answer leaves the fids alone; where it sends the request, and which handle
  // it returns or closes.
  lemma SettlesOtherwise(s: State, e: Event)
    requires Sound(s) && Settles(e) && EndOf(s, e).None?
    ensures var t := Step(s, e);
            && t.table == s.table && t.entries == s.entries && t.bindings == s.bindings && t.closers == s.closers
            && t.generation == s.generation
            && (e.tag in t.requests ==> e.tag in s.requests)
            && forall other :: other != e.tag ==> (other in t.requests <==> other in s.requests) &&
                                                  (other in t.requests ==> t.requests[other] == s.requests[other])
  {
    hide IndexOf, Step;
    StepSettles(s, e);
  }

  // The step from one await to the next.
  lemma GoesOn(s: State, e: Event)
    requires Sound(s) && Settles(e) && e.tag in s.requests && EndOf(s, e).None?
    ensures var t, r := Step(s, e), s.requests[e.tag];
            var next := if e.tag in t.requests then Some(t.requests[e.tag].phase) else None;
            && (e.tag in t.requests ==> t.requests[e.tag].kind == r.kind && t.requests[e.tag].entry == r.entry)
            && (e.StatSettles? && r.phase.Stating? ==>
               next == if e.directory == Some(false) then Some(Opening) else None)
            && (e.OpenSettles? && r.phase.Opening? && !e.succeeded ==> next == None)
            && (e.OpenSettles? && r.phase.Opening? && e.succeeded && r.kind.Reopen? ==> next == Some(Using(s.issued)))
            && (e.OpenSettles? && r.phase.Opening? && e.succeeded && !r.kind.Reopen? ==>
                  next == Some(if e.keep then Describing(Some(s.issued)) else Discarding(s.issued)))
            && (e.DiscardSettles? && r.phase.Discarding? ==> next == Some(Describing(None)))
            && (e.DescribeSettles? && r.phase.Describing? ==>
                  next == if r.phase.kept.Some? then Some(Unwinding(r.phase.kept.value)) else None)
            && (e.UseSettles? && r.phase.Using? ==> next == Some(Unwinding(r.phase.handle)))
            && (e.UnwindSettles? && r.phase.Unwinding? ==> next == None)
  {
    hide IndexOf, Step;
    StepSettles(s, e);
  }

  // A handle is returned exactly by an open that succeeds, and closed by a request exactly
  // when it gave the handle back or unwound it.
  lemma HandlesMove(s: State, e: Event)
    requires Sound(s) && Settles(e) && e.tag in s.requests
    ensures var t, r := Step(s, e), s.requests[e.tag];
            && t.issued == s.issued + (if e.OpenSettles? && r.phase.Opening? && e.succeeded then 1 else 0)
            && t.closed == s.closed + (if (e.DiscardSettles? && r.phase.Discarding?) ||
                                          (e.UnwindSettles? && r.phase.Unwinding?) then {r.phase.handle} else {})
  {
    hide IndexOf, Step;
    StepSettles(s, e);
  }

  // ---------- the start of a request ----------

  // A request is let in under a free tag on a fid in use: an open or a create where it is
  // not open, a re-open where it is open on a file without a handle. It stats first, or
  // goes straight to the driver's open; a create remembers the directory it is in.
  lemma StartSays(s: State, e: Event, id: nat)
    requires Sound(s) && (e.StartLopen? || e.StartLcreate? || e.StartReopen?) && Leads(s, e.fid, id)
    ensures var entry := s.entries[id];
            var fits := if e.StartReopen? then entry.open == Some(Open(None, false)) else entry.open.None?;
            var r := if e.StartLopen? then Request(Lopen(e.truncates, e.writes), id, Stating)
                     else if e.StartLcreate? then Request(Lcreate(entry.path, e.path), id, Opening)
                     else Request(Reopen, id, Opening);
            Step(s, e) == if e.tag in s.requests || e.tag in s.bindings || !fits then s
                          else s.(requests := s.requests[e.tag := r])
  {
    Found(s, e.fid, id);
  }

  lemma StartNeedsFid(s: State, e: Event)
    requires Sound(s) && (e.StartLopen? || e.StartLcreate? || e.StartReopen?) && !InUse(s, e.fid)
    ensures Step(s, e) == s
  {
    WhereFrom(s, e.fid);
  }

  // ---------- the table ----------

  // What may be bound: a number that is a fid and not in use.
  predicate Free(s: State, fid: nat) { fid < NOFID && !InUse(s, fid) }

  // The fid is in the table, last and unopened, as a new object; nothing else changed.
  predicate Binds(s: State, t: State, fid: nat, path: string, asked: nat)
  {
    t == s.(table := s.table + [|s.entries|], entries := s.entries + [Entry(fid, path, None, asked)])
  }

  lemma CreatedSays(s: State, fid: nat, path: string, asked: nat)
    requires Sound(s)
    ensures if Free(s, fid) then Binds(s, Created(s, fid, path, asked), fid, path, asked)
            else Created(s, fid, path, asked) == s
  {
    if InUse(s, fid) {
      var i: nat :| i < |s.table| && Leads(s, fid, s.table[i]);
      Found(s, fid, s.table[i]);
    } else {
      WhereFrom(s, fid);
    }
  }

  // A walk of no names gives a free number the path of a fid that is not open.
  lemma CloneSays(s: State, from: nat, fid: nat)
    requires Sound(s)
    ensures InUse(s, from) ==> exists id: nat :: Leads(s, from, id)
    ensures forall id: nat :: Leads(s, from, id) ==>
              var t := Step(s, Clone(from, fid));
              if s.entries[id].open.None? && Free(s, fid) then Binds(s, t, fid, s.entries[id].path, s.generation)
              else t == s
    ensures !InUse(s, from) ==> Step(s, Clone(from, fid)) == s
  {
    hide Created, Binds, Free;
    if InUse(s, from) {
      var i: nat :| i < |s.table| && Leads(s, from, s.table[i]);
    } else {
      WhereFrom(s, from);
    }
    forall id: nat | Leads(s, from, id)
      ensures var t := Step(s, Clone(from, fid));
              if s.entries[id].open.None? && Free(s, fid) then Binds(s, t, fid, s.entries[id].path, s.generation)
              else t == s
    {
      Found(s, from, id);
      CreatedSays(s, fid, s.entries[id].path, s.generation);
    }
  }

  // An attach is let in under a free tag; a walk also needs an unopened fid to start at
  // and, unless it ends there too, a number not in use.
  lemma StartBindingSays(s: State, e: Event)
    requires Sound(s) && (e.StartAttach? || e.StartWalk?)
    ensures var fits := e.StartAttach? ||
                        ((exists i: nat :: i < |s.table| && Leads(s, e.from, s.table[i]) &&
                                      s.entries[s.table[i]].open.None?) &&
                         (e.fid == e.from || !InUse(s, e.fid)));
            var b := if e.StartAttach? then Attach(e.fid, e.path, s.generation)
                     else Walk(e.fid, e.path, s.generation, e.from);
            Step(s, e) == if e.tag in s.requests || e.tag in s.bindings || !fits then s
                          else s.(bindings := s.bindings[e.tag := b])
  {
    hide Leads;
    if e.StartWalk? {
      WhereFrom(s, e.from);
      WhereFrom(s, e.fid);
    }
  }

  // A binding whose names are not there leaves and binds nothing. One whose names are
  // there binds its number if that is still free; a walk looks the fid it started at up
  // again, and one that ends where it started moves that fid.
  lemma BindSays(s: State, tag: nat, found: bool)
    requires Sound(s) && tag in s.bindings
    ensures var b, t := s.bindings[tag], Step(s, BindSettles(tag, found));
            var left := s.(bindings := s.bindings - {tag});
            if !found || (b.Walk? && !InUse(s, b.from)) then t == left
            else if b.Walk? && b.fid == b.from then Moves(left, t, b.fid, b.path)
            else if Free(s, b.fid) then Binds(left, t, b.fid, b.path, b.asked)
            else t == left
  {
    hide Leads, Created, Repathed, Free, Binds, Moves;
    var b, left := s.bindings[tag], s.(bindings := s.bindings - {tag});
    Unbound(s, left, b.fid);
    CreatedSays(left, b.fid, b.path, b.asked);
    RepathedSays(left, b.fid, b.path);
    if b.Walk? {
      Unbound(s, left, b.from);
      WhereFrom(left, b.from);
    }
  }

  lemma Unbound(s: State, left: State, fid: nat)
    requires left.table == s.table && left.entries == s.entries
    ensures InUse(left, fid) <==> InUse(s, fid)
    ensures Free(left, fid) <==> Free(s, fid)
  {
    assert forall id: nat :: Leads(s, fid, id) <==> Leads(left, fid, id);
  }

  // The fid's entry has that path now, and nothing else changed; nothing at all changed if
  // no entry has that number.
  predicate Moves(s: State, t: State, fid: nat, path: string)
  {
    && t == s.(entries := t.entries) && |t.entries| == |s.entries|
    && forall id :: 0 <= id < |s.entries| ==>
         t.entries[id] == if Leads(s, fid, id) then s.entries[id].(path := path) else s.entries[id]
  }

  lemma RepathedSays(s: State, fid: nat, path: string)
    requires Sound(s)
    ensures Moves(s, Repathed(s, fid, path), fid, path)
  {
    var t := Repathed(s, fid, path);
    forall id | 0 <= id < |s.entries|
      ensures t.entries[id] == if Leads(s, fid, id) then s.entries[id].(path := path) else s.entries[id]
    {
      if Leads(s, fid, id) { Found(s, fid, id); }
    }
  }

  lemma RepathSays(s: State, fid: nat, path: string)
    requires Sound(s)
    ensures Moves(s, Step(s, Repath(fid, path)), fid, path)
  {
    RepathedSays(s, fid, path);
  }

  // After a clunk the fid is out of the table and its object is not open, its handle is
  // with a new closer, and every other fid is as it was.
  lemma ClunkSays(s: State, fid: nat, id: nat)
    requires Sound(s) && Leads(s, fid, id)
    ensures var t, held := Step(s, Clunk(fid)), s.entries[id].open;
            && !InUse(t, fid)
            && (forall other: nat, f: nat :: f != fid ==> (Leads(t, f, other) <==> Leads(s, f, other)))
            && t.entries == s.entries[id := s.entries[id].(open := None)]
            && t.closers == s.closers +
               [if held.Some? && held.value.handle.Some? then [held.value.handle.value] else []]
            && t == s.(table := t.table, entries := t.entries, closers := t.closers)
  {
    hide IndexOf;
    Found(s, fid, id);
    var i, t := IndexOf(s, fid), Step(s, Clunk(fid));
    TableWithout(s, i);
    forall other: nat, f: nat ensures Leads(t, f, other) <==> Leads(s, f, other) && f != fid {
      if Leads(s, fid, other) { Found(s, fid, other); }
    }
  }

  lemma ClunkOfNone(s: State, fid: nat)
    requires Sound(s) && !InUse(s, fid)
    ensures Step(s, Clunk(fid)) == s
  {
    WhereFrom(s, fid);
  }

  // After a reset no number is a fid; every request, binding and fid object is as it was.
  lemma ResetSays(s: State, fid: nat)
    requires Sound(s)
    ensures var t := Step(s, Reset);
            && !InUse(t, fid) && t.generation == s.generation + 1
            && t == s.(table := [], closers := t.closers, generation := t.generation)
            && |t.closers| == |s.closers| + 1 && t.closers[..|s.closers|] == s.closers
            && forall h: Handle :: h in t.closers[|s.closers|] <==>
                 exists i: nat :: i < |s.table| && s.entries[s.table[i]].open.Some? &&
                             s.entries[s.table[i]].open.value.handle == Some(h)
  {
    forall h: Handle
      ensures h in OpenHandles(s, 0) <==>
              exists i: nat :: i < |s.table| && s.entries[s.table[i]].open.Some? &&
                          s.entries[s.table[i]].open.value.handle == Some(h)
    {
      HandleListed(s, h, 0);
    }
  }

  lemma {:induction false} HandleListed(s: State, h: Handle, k: nat)
    requires Sound(s) && k <= |s.table|
    ensures h in OpenHandles(s, k) <==>
            exists i :: k <= i < |s.table| && s.entries[s.table[i]].open.Some? &&
                        s.entries[s.table[i]].open.value.handle == Some(h)
    decreases |s.table| - k
  {
    if k < |s.table| { HandleListed(s, h, k + 1); }
  }

  // ---------- over whole runs ----------

  // Only the end of an open makes a fid open, and only on the fid of its own request.
  lemma OpensOnly(s: State, e: Event, id: nat)
    requires Sound(s) && id < |s.entries|
    ensures var t := Step(s, e);
            && id < |t.entries|
            && (t.entries[id].open == s.entries[id].open || t.entries[id].open.None? ||
                (EndOf(s, e).Some? && s.requests[e.tag].entry == id && StillFits(s, s.requests[e.tag]) &&
                 t.entries[id].open == Some(Open(EndOf(s, e).value.kept, EndOf(s, e).value.directory))))
  {
    hide IndexOf, OpenHandles;
    if EndOf(s, e).Some? {
      OpenEnds(s, e);
    } else if Settles(e) {
      SettlesOtherwise(s, e);
    }
  }

  lemma NewIsUnopened(s: State, e: Event, id: nat)
    requires Sound(s) && |s.entries| <= id < |Step(s, e).entries|
    ensures Step(s, e).entries[id].open.None?
  {
    hide IndexOf, OpenHandles;
    if EndOf(s, e).Some? {
      OpenEnds(s, e);
    } else if Settles(e) {
      SettlesOtherwise(s, e);
    }
  }

  // In every run, a fid that is open was opened at the end of one request's open, with the
  // handle and the kind that one brought back, and is open with them ever since.
  lemma {:induction false} OpenHasACause(events: seq<Event>, id: nat) returns (k: nat)
    requires id < |Run(events).entries| && Run(events).entries[id].open.Some?
    ensures k < |events| && EndOf(Run(events[..k]), events[k]).Some?
    ensures var s, end := Run(events[..k]), EndOf(Run(events[..k]), events[k]).value;
            && s.requests[events[k].tag].entry == id && StillFits(s, s.requests[events[k].tag])
            && Run(events).entries[id].open == Some(Open(end.kept, end.directory))
  {
    hide EndOf, StillFits, Step;
    var before, e := events[..|events| - 1], events[|events| - 1];
    var s := Run(before);
    if id >= |s.entries| {
      NewIsUnopened(s, e, id);
      assert false;
    } else {
      OpensOnly(s, e, id);
      if Run(events).entries[id].open == s.entries[id].open {
        k := OpenHasACause(before, id);
        assert before[..k] == events[..k];
      } else {
        k := |events| - 1;
      }
    }
  }
}
