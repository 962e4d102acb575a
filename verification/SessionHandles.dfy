// Which part of a session answers for each open driver handle. Every `await`
// ends a step, and any request that waits on the driver may go on next.
module SessionHandles {
  import opened Wrappers

  type Handle = nat

  // `handle` is absent for a directory, and for a driver that keeps no open state.
  datatype Open = Open(handle: Option<Handle>, directory: bool)

  // A fid object, and the generation of the session whose request asked for it. One
  // dropped from the table may still be named by a request.
  datatype Entry = Entry(fid: nat, path: string, open: Option<Open>, asked: nat)

  datatype Kind =
    | Lopen(truncates: bool, writes: bool)
    | Lcreate(parent: string, path: string)
    | Reopen  // a read or a write through a fid that holds no handle

  // The await a request is parked at, and the handle only it knows of.
  datatype Phase =
    | Stating
    | Opening
    | Discarding(handle: Handle)
    | Describing(kept: Option<Handle>)
    | Using(handle: Handle)
    | Unwinding(handle: Handle)

  datatype Request = Request(kind: Kind, entry: nat, phase: Phase)

  // A request that is to put a fid into the table once the driver has answered: an
  // attach, or a walk of some names from a fid in it.
  datatype Binding =
    | Attach(fid: nat, path: string, asked: nat)
    | Walk(fid: nat, path: string, asked: nat, from: nat)

  datatype State = State(
    table: seq<nat>,              // the fid table in creation order, by entry
    entries: seq<Entry>,          // every fid object there ever was
    requests: map<nat, Request>,  // by tag
    bindings: map<nat, Binding>,  // by tag
    closers: seq<seq<Handle>>,    // each closes its handles one after another
    closed: set<Handle>,
    issued: nat,                  // how many handles the driver has returned
    generation: nat)              // how often the session was reset

  const INITIAL: State := State([], [], map[], map[], [], {}, 0, 0)

  // The one number that is no fid.
  const NOFID: nat := 0xFFFF_FFFF

  datatype Event =
    | Clone(from: nat, fid: nat)
    | StartAttach(tag: nat, fid: nat, path: string)
    | StartWalk(tag: nat, from: nat, fid: nat, path: string)
    | BindSettles(tag: nat, found: bool)
    | Repath(fid: nat, path: string)
    | StartLopen(tag: nat, fid: nat, truncates: bool, writes: bool)
    | StartLcreate(tag: nat, fid: nat, path: string)
    | StartReopen(tag: nat, fid: nat)
    | StatSettles(tag: nat, directory: Option<bool>)
    | OpenSettles(tag: nat, succeeded: bool, keep: bool)
    | DiscardSettles(tag: nat)
    | DescribeSettles(tag: nat, described: bool)
    | UseSettles(tag: nat)
    | UnwindSettles(tag: nat)
    | Clunk(fid: nat)
    | Reset
    | CloseSettles(closer: nat)

  // ---------- the table ----------

  predicate Sound(s: State)
  {
    && (forall i :: 0 <= i < |s.table| ==> s.table[i] < |s.entries|)
    && (forall i, j :: 0 <= i < j < |s.table| ==> s.entries[s.table[i]].fid != s.entries[s.table[j]].fid)
    && (forall tag :: tag in s.requests ==> s.requests[tag].entry < |s.entries|)
  }

  // Where a fid is in the table, or past its end.
  function IndexOf(s: State, fid: nat): (i: nat)
    requires Sound(s)
    ensures i <= |s.table|
    ensures i < |s.table| ==> s.entries[s.table[i]].fid == fid
    ensures i == |s.table| <==> forall j :: 0 <= j < |s.table| ==> s.entries[s.table[j]].fid != fid
  {
    IndexFrom(s, fid, 0)
  }

  function IndexFrom(s: State, fid: nat, k: nat): (i: nat)
    requires Sound(s) && k <= |s.table|
    ensures k <= i <= |s.table|
    ensures i < |s.table| ==> s.entries[s.table[i]].fid == fid
    ensures i == |s.table| <==> forall j :: k <= j < |s.table| ==> s.entries[s.table[j]].fid != fid
    decreases |s.table| - k
  {
    if k == |s.table| || s.entries[s.table[k]].fid == fid then k else IndexFrom(s, fid, k + 1)
  }

  // The handle an entry holds, if any.
  function HandleOf(e: Entry): Option<Handle> { if e.open.Some? then e.open.value.handle else None }

  // The handles the table's entries hold, in creation order.
  function OpenHandles(s: State, k: nat): seq<Handle>
    requires Sound(s) && k <= |s.table|
    decreases |s.table| - k
  {
    if k == |s.table| then []
    else
      var h := HandleOf(s.entries[s.table[k]]);
      (if h.Some? then [h.value] else []) + OpenHandles(s, k + 1)
  }

  // ---------- the steps ----------

  function WithRequest(s: State, tag: nat, r: Request): State { s.(requests := s.requests[tag := r]) }

  function Without(s: State, tag: nat): State { s.(requests := s.requests - {tag}) }

  function WithEntry(s: State, id: nat, e: Entry): State
    requires id < |s.entries|
  {
    s.(entries := s.entries[id := e])
  }

  // Is the entry still exactly what the request's prologue saw?
  predicate Openable(s: State, r: Request)
    requires Sound(s) && r.entry < |s.entries|
  {
    && r.entry in s.table
    && s.entries[r.entry].open.None?
    && (r.kind.Lcreate? ==> s.entries[r.entry].path == r.kind.parent)
  }

  // The end of an open: into the table, or unwound.
  function Finish(s: State, tag: nat, kept: Option<Handle>, directory: bool): (t: State)
    requires Sound(s) && tag in s.requests
    ensures Sound(t)
  {
    var r := s.requests[tag];
    var e := s.entries[r.entry];
    if Openable(s, r) then
      WithEntry(Without(s, tag), r.entry,
                e.(open := Some(Open(kept, directory)), path := if r.kind.Lcreate? then r.kind.path else e.path))
    else Drop(s, tag, kept)
  }

  // An open given up on: what it kept is closed quietly.
  function Drop(s: State, tag: nat, kept: Option<Handle>): (t: State)
    requires tag in s.requests
    ensures Sound(s) ==> Sound(t)
  {
    if kept.Some? then WithRequest(s, tag, s.requests[tag].(phase := Unwinding(kept.value))) else Without(s, tag)
  }

  // Past the open, the kind of request decides whether anything is still awaited.
  function Opened(s: State, tag: nat, kept: Option<Handle>): (t: State)
    requires Sound(s) && tag in s.requests
    ensures Sound(t)
  {
    var r := s.requests[tag];
    var described := WithRequest(s, tag, r.(phase := Describing(kept)));
    if r.kind.Lopen? && !r.kind.truncates then Finish(described, tag, kept, false) else described
  }

  function Settle(s: State, tag: nat, e: Event): (t: State)
    requires Sound(s) && tag in s.requests
    ensures Sound(t)
  {
    var r := s.requests[tag];
    match (e, r.phase)
    case (StatSettles(_, None), Stating) => Without(s, tag)
    case (StatSettles(_, Some(directory)), Stating) =>
      if !directory then WithRequest(s, tag, r.(phase := Opening))
      else if r.kind.Lopen? && r.kind.writes then Without(s, tag)
      else Finish(s, tag, None, true)
    case (OpenSettles(_, succeeded, keep), Opening) =>
      if !succeeded then Without(s, tag)
      else
        var h := s.issued;
        var t := s.(issued := h + 1);
        if r.kind.Reopen? then WithRequest(t, tag, r.(phase := Using(h)))
        else if !keep then WithRequest(t, tag, r.(phase := Discarding(h)))
        else Opened(t, tag, Some(h))
    case (DiscardSettles(_), Discarding(h)) => Opened(s.(closed := s.closed + {h}), tag, None)
    case (DescribeSettles(_, described), Describing(kept)) =>
      if described then Finish(s, tag, kept, false) else Drop(s, tag, kept)
    case (UseSettles(_), Using(h)) => WithRequest(s, tag, r.(phase := Unwinding(h)))
    case (UnwindSettles(_), Unwinding(h)) => Without(s.(closed := s.closed + {h}), tag)
    case _ => s
  }

  function Start(s: State, tag: nat, fid: nat, kind: Kind): (t: State)
    requires Sound(s)
    ensures Sound(t)
  {
    var i := IndexOf(s, fid);
    if tag in s.requests || tag in s.bindings || i == |s.table| then s
    else
      var id := s.table[i];
      var open := s.entries[id].open;
      if kind.Reopen? then
        if open.Some? && open.value.handle.None? && !open.value.directory then
          WithRequest(s, tag, Request(kind, id, Opening))
        else s
      else if open.Some? then s
      else WithRequest(s, tag, Request(if kind.Lcreate? then kind.(parent := s.entries[id].path) else kind, id,
                                       if kind.Lcreate? then Opening else Stating))
  }

  // A fid in use is never bound again.
  function Created(s: State, fid: nat, path: string, asked: nat): (t: State)
    requires Sound(s)
    ensures Sound(t)
  {
    if fid >= NOFID || IndexOf(s, fid) < |s.table| then s
    else s.(table := s.table + [|s.entries|], entries := s.entries + [Entry(fid, path, None, asked)])
  }

  // A walk of no names asks the driver nothing.
  function Cloned(s: State, from: nat, fid: nat): (t: State)
    requires Sound(s)
    ensures Sound(t)
  {
    var i := IndexOf(s, from);
    if i == |s.table| || s.entries[s.table[i]].open.Some? then s
    else Created(s, fid, s.entries[s.table[i]].path, s.generation)
  }

  // A request that waits on the driver before it binds its fid. A walk starts at a fid
  // that is not open and, unless it ends there too, at a number not in use.
  function StartBinding(s: State, tag: nat, b: Binding): (t: State)
    requires Sound(s)
    ensures Sound(t)
  {
    if tag in s.requests || tag in s.bindings then s
    else if b.Attach? then s.(bindings := s.bindings[tag := b])
    else
      var i := IndexOf(s, b.from);
      if i == |s.table| || s.entries[s.table[i]].open.Some? || (b.fid != b.from && IndexOf(s, b.fid) < |s.table|) then s
      else s.(bindings := s.bindings[tag := b])
  }

  // The driver found what was to be bound: a directory, or every name. A walk looks its
  // fid up again, and one that ends where it started moves it.
  function Bound(s: State, b: Binding): (t: State)
    requires Sound(s)
    ensures Sound(t)
  {
    match b
    case Attach(fid, path, asked) => Created(s, fid, path, asked)
    case Walk(fid, path, asked, from) =>
      if IndexOf(s, from) == |s.table| then s
      else if fid == from then Repathed(s, fid, path)
      else Created(s, fid, path, asked)
  }

  function BindingSettled(s: State, tag: nat, found: bool): (t: State)
    requires Sound(s)
    ensures Sound(t)
  {
    if tag !in s.bindings then s
    else
      var t := s.(bindings := s.bindings - {tag});
      if found then Bound(t, s.bindings[tag]) else t
  }

  function Repathed(s: State, fid: nat, path: string): (t: State)
    requires Sound(s)
    ensures Sound(t)
  {
    var i := IndexOf(s, fid);
    if i == |s.table| then s else WithEntry(s, s.table[i], s.entries[s.table[i]].(path := path))
  }

  // Out of the table first, then its handle to whoever asked.
  function Clunked(s: State, fid: nat): (t: State)
    requires Sound(s)
    ensures Sound(t)
  {
    var i := IndexOf(s, fid);
    if i == |s.table| then s
    else
      var id := s.table[i];
      var h := HandleOf(s.entries[id]);
      WithEntry(s, id, s.entries[id].(open := None)).(
        table := s.table[..i] + s.table[i + 1..],
        closers := s.closers + [if h.Some? then [h.value] else []])
  }

  function CloserSettled(s: State, c: nat): (t: State)
    requires Sound(s)
    ensures Sound(t)
  {
    if c >= |s.closers| || s.closers[c] == [] then s
    else s.(closers := s.closers[c := s.closers[c][1..]], closed := s.closed + {s.closers[c][0]})
  }

  function Step(s: State, e: Event): (t: State)
    requires Sound(s)
    ensures Sound(t)
  {
    match e
    case Clone(from, fid) => Cloned(s, from, fid)
    case StartAttach(tag, fid, path) => StartBinding(s, tag, Attach(fid, path, s.generation))
    case StartWalk(tag, from, fid, path) => StartBinding(s, tag, Walk(fid, path, s.generation, from))
    case BindSettles(tag, found) => BindingSettled(s, tag, found)
    case Repath(fid, path) => Repathed(s, fid, path)
    case StartLopen(tag, fid, truncates, writes) => Start(s, tag, fid, Lopen(truncates, writes))
    case StartLcreate(tag, fid, path) => Start(s, tag, fid, Lcreate("", path))
    case StartReopen(tag, fid) => Start(s, tag, fid, Reopen)
    case Clunk(fid) => Clunked(s, fid)
    case Reset => s.(table := [], closers := s.closers + [OpenHandles(s, 0)], generation := s.generation + 1)
    case CloseSettles(c) => CloserSettled(s, c)
    case _ => if e.tag in s.requests then Settle(s, e.tag, e) else s
  }

  function Run(events: seq<Event>): (s: State)
    ensures Sound(s)
  {
    if events == [] then INITIAL else Step(Run(events[..|events| - 1]), events[|events| - 1])
  }

  // ---------- who answers for a handle ----------

  datatype Owner = Local(tag: nat) | Held(entry: nat) | Closing(closer: nat) | Closed

  function LocalHandle(p: Phase): Option<Handle>
  {
    match p
    case Stating => None
    case Opening => None
    case Discarding(h) => Some(h)
    case Describing(kept) => kept
    case Using(h) => Some(h)
    case Unwinding(h) => Some(h)
  }

  predicate Holds(s: State, o: Owner, h: Handle)
  {
    match o
    case Local(tag) => tag in s.requests && LocalHandle(s.requests[tag].phase) == Some(h)
    case Held(id) => id in s.table && id < |s.entries| && HandleOf(s.entries[id]) == Some(h)
    case Closing(c) => c < |s.closers| && h in s.closers[c]
    case Closed => h in s.closed
  }

  predicate Distinct(hs: seq<Handle>) { forall i, j :: 0 <= i < j < |hs| ==> hs[i] != hs[j] }

  // Every issued handle has exactly one owner, the one written here.
  ghost predicate Accounted(s: State, owner: map<Handle, Owner>)
  {
    && (forall h: Handle :: h in owner <==> h < s.issued)
    && (forall o, h: Handle :: Holds(s, o, h) <==> h in owner && owner[h] == o)
  }

  ghost predicate Good(s: State, owner: map<Handle, Owner>)
  {
    Sound(s) && Accounted(s, owner) && forall c :: 0 <= c < |s.closers| ==> Distinct(s.closers[c])
  }

  // ---------- one handle changes hands ----------

  lemma Kept(s: State, t: State, owner: map<Handle, Owner>)
    requires Accounted(s, owner) && t.issued == s.issued
    requires forall o, h: Handle :: Holds(t, o, h) <==> Holds(s, o, h)
    ensures Accounted(t, owner)
  {
    hide Holds;
  }

  lemma Moved(s: State, t: State, owner: map<Handle, Owner>, h: Handle, to: Owner)
    requires Accounted(s, owner)
    requires t.issued == if h == s.issued then s.issued + 1 else s.issued
    requires h <= s.issued
    requires forall o, k: Handle :: k != h ==> (Holds(t, o, k) <==> Holds(s, o, k))
    requires forall o :: Holds(t, o, h) <==> o == to
    ensures Accounted(t, owner[h := to])
  {
    hide Holds;
  }

  lemma Unissued(s: State, owner: map<Handle, Owner>, o: Owner)
    requires Accounted(s, owner)
    ensures !Holds(s, o, s.issued)
  {
    hide Holds;
  }

  lemma Only(s: State, owner: map<Handle, Owner>, h: Handle, o: Owner, other: Owner)
    requires Accounted(s, owner) && Holds(s, o, h)
    ensures Holds(s, other, h) <==> other == o
  {
    hide Holds;
  }

  // A request goes on with the same handle in hand, or leaves with none.
  lemma Rephased(s: State, tag: nat, r: Request, owner: map<Handle, Owner>)
    requires Good(s, owner) && (tag in s.requests ==> LocalHandle(s.requests[tag].phase) == LocalHandle(r.phase))
    requires tag !in s.requests ==> LocalHandle(r.phase).None?
    ensures Accounted(WithRequest(s, tag, r), owner)
  {
    Kept(s, WithRequest(s, tag, r), owner);
  }

  lemma Left(s: State, tag: nat, owner: map<Handle, Owner>)
    requires Good(s, owner) && tag in s.requests && LocalHandle(s.requests[tag].phase).None?
    ensures Accounted(Without(s, tag), owner)
  {
    Kept(s, Without(s, tag), owner);
  }

  // The driver returns a handle to a request that has none.
  lemma Issued(s: State, tag: nat, r: Request, owner: map<Handle, Owner>)
    requires Good(s, owner) && tag in s.requests && LocalHandle(s.requests[tag].phase).None?
    requires LocalHandle(r.phase) == Some(s.issued)
    ensures Accounted(WithRequest(s.(issued := s.issued + 1), tag, r), owner[s.issued := Local(tag)])
  {
    var h, t := s.issued, WithRequest(s.(issued := s.issued + 1), tag, r);
    forall o ensures Holds(t, o, h) <==> o == Local(tag) { Unissued(s, owner, o); }
    Moved(s, t, owner, h, Local(tag));
  }

  // A request closes its handle.
  lemma ClosedByRequest(s: State, tag: nat, h: Handle, owner: map<Handle, Owner>)
    requires Good(s, owner) && tag in s.requests && LocalHandle(s.requests[tag].phase) == Some(h)
    ensures h !in s.closed
    ensures Accounted(Without(s.(closed := s.closed + {h}), tag), owner[h := Closed])
    ensures forall r: Request :: LocalHandle(r.phase).None? ==>
              Accounted(WithRequest(s.(closed := s.closed + {h}), tag, r), owner[h := Closed])
  {
    assert Holds(s, Local(tag), h);
    Only(s, owner, h, Local(tag), Closed);
    assert !Holds(s, Closed, h);
    var t := Without(s.(closed := s.closed + {h}), tag);
    forall o ensures Holds(t, o, h) <==> o == Closed { Only(s, owner, h, Local(tag), o); }
    Moved(s, t, owner, h, Closed);
    forall r: Request | LocalHandle(r.phase).None?
      ensures Accounted(WithRequest(s.(closed := s.closed + {h}), tag, r), owner[h := Closed])
    {
      var t := WithRequest(s.(closed := s.closed + {h}), tag, r);
      forall o ensures Holds(t, o, h) <==> o == Closed { Only(s, owner, h, Local(tag), o); }
      Moved(s, t, owner, h, Closed);
    }
  }

  // A handle is stored on an entry that holds none, and its request leaves.
  lemma Stored(s: State, tag: nat, kept: Option<Handle>, directory: bool, owner: map<Handle, Owner>)
    requires Good(s, owner) && tag in s.requests && LocalHandle(s.requests[tag].phase) == kept &&
             Openable(s, s.requests[tag])
    ensures Accounted(Finish(s, tag, kept, directory),
                      if kept.Some? then owner[kept.value := Held(s.requests[tag].entry)] else owner)
  {
    var id, t := s.requests[tag].entry, Finish(s, tag, kept, directory);
    if kept.None? {
      Kept(s, t, owner);
    } else {
      var h := kept.value;
      assert Holds(s, Local(tag), h);
      forall o ensures Holds(t, o, h) <==> o == Held(id) { Only(s, owner, h, Local(tag), o); }
      Moved(s, t, owner, h, Held(id));
    }
  }

  lemma FinishKeeps(s: State, tag: nat, kept: Option<Handle>, directory: bool, owner: map<Handle, Owner>)
    returns (after: map<Handle, Owner>)
    requires Good(s, owner) && tag in s.requests && LocalHandle(s.requests[tag].phase) == kept
    ensures Good(Finish(s, tag, kept, directory), after)
  {
    var r := s.requests[tag];
    if Openable(s, r) {
      Stored(s, tag, kept, directory, owner);
      after := if kept.Some? then owner[kept.value := Held(r.entry)] else owner;
    } else {
      after := DropKeeps(s, tag, kept, owner);
    }
  }

  lemma DropKeeps(s: State, tag: nat, kept: Option<Handle>, owner: map<Handle,
                    Owner>) returns (after: map<Handle, Owner>)
    requires Good(s, owner) && tag in s.requests && LocalHandle(s.requests[tag].phase) == kept
    ensures Good(Drop(s, tag, kept), after)
  {
    after := owner;
    if kept.Some? {
      Rephased(s, tag, s.requests[tag].(phase := Unwinding(kept.value)), owner);
    } else {
      Left(s, tag, owner);
    }
  }

  // From a state whose request is already past its open.
  lemma OpenedKeeps(s: State, tag: nat, kept: Option<Handle>, owner: map<Handle,
                    Owner>) returns (after: map<Handle, Owner>)
    requires Sound(s) && tag in s.requests
    requires Good(WithRequest(s, tag, s.requests[tag].(phase := Describing(kept))), owner)
    ensures Good(Opened(s, tag, kept), after)
  {
    after := owner;
    var r := s.requests[tag];
    if r.kind.Lopen? && !r.kind.truncates {
      after := FinishKeeps(WithRequest(s, tag, r.(phase := Describing(kept))), tag, kept, false, owner);
    }
  }

  lemma OpenSettled(s: State, tag: nat, e: Event, owner: map<Handle, Owner>) returns (after: map<Handle, Owner>)
    requires Good(s, owner) && tag in s.requests && e.OpenSettles? && s.requests[tag].phase == Opening
    ensures Good(Settle(s, tag, e), after)
  {
    hide Accounted, Finish, Drop, Opened;
    after := owner;
    var r, h := s.requests[tag], s.issued;
    if !e.succeeded {
      Left(s, tag, owner);
    } else {
      after := owner[h := Local(tag)];
      if r.kind.Reopen? {
        Issued(s, tag, r.(phase := Using(h)), owner);
      } else if !e.keep {
        Issued(s, tag, r.(phase := Discarding(h)), owner);
      } else {
        Issued(s, tag, r.(phase := Describing(Some(h))), owner);
        after := OpenedKeeps(s.(issued := h + 1), tag, Some(h), after);
      }
    }
  }

  lemma SettleKeeps(s: State, tag: nat, e: Event, owner: map<Handle, Owner>) returns (after: map<Handle, Owner>)
    requires Good(s, owner) && tag in s.requests
    ensures Good(Settle(s, tag, e), after)
  {
    hide Accounted, Finish, Drop, Opened;
    after := owner;
    var r := s.requests[tag];
    match (e, r.phase) {
      case (StatSettles(_, None), Stating) => Left(s, tag, owner);
      case (StatSettles(_, Some(directory)), Stating) =>
        if !directory {
          Rephased(s, tag, r.(phase := Opening), owner);
        } else if r.kind.Lopen? && r.kind.writes {
          Left(s, tag, owner);
        } else {
          after := FinishKeeps(s, tag, None, true, owner);
        }
      case (OpenSettles(_, succeeded, keep), Opening) =>
        after := OpenSettled(s, tag, e, owner);
      case (DiscardSettles(_), Discarding(h)) =>
        ClosedByRequest(s, tag, h, owner);
        after := OpenedKeeps(s.(closed := s.closed + {h}), tag, None, owner[h := Closed]);
      case (DescribeSettles(_, described), Describing(kept)) =>
        if described {
          after := FinishKeeps(s, tag, kept, false, owner);
        } else {
          after := DropKeeps(s, tag, kept, owner);
        }
      case (UseSettles(_), Using(h)) => Rephased(s, tag, r.(phase := Unwinding(h)), owner);
      case (UnwindSettles(_), Unwinding(h)) =>
        ClosedByRequest(s, tag, h, owner);
        after := owner[h := Closed];
      case _ =>
    }
  }

  // ---------- the table changes ----------

  lemma CreatedKeeps(s: State, fid: nat, path: string, asked: nat, owner: map<Handle, Owner>)
    requires Good(s, owner)
    ensures Good(Created(s, fid, path, asked), owner)
  {
    var t := Created(s, fid, path, asked);
    forall o, h: Handle ensures Holds(t, o, h) <==> Holds(s, o, h) {}
    Kept(s, t, owner);
  }

  lemma ClonedKeeps(s: State, from: nat, fid: nat, owner: map<Handle, Owner>)
    requires Good(s, owner)
    ensures Good(Cloned(s, from, fid), owner)
  {
    hide Accounted, Created;
    var i := IndexOf(s, from);
    if i < |s.table| {
      CreatedKeeps(s, fid, s.entries[s.table[i]].path, s.generation, owner);
    }
  }

  lemma BindingsKeep(s: State, bindings: map<nat, Binding>, owner: map<Handle, Owner>)
    requires Good(s, owner)
    ensures Good(s.(bindings := bindings), owner)
  {
    Kept(s, s.(bindings := bindings), owner);
  }

  lemma StartBindingKeeps(s: State, tag: nat, b: Binding, owner: map<Handle, Owner>)
    requires Good(s, owner)
    ensures Good(StartBinding(s, tag, b), owner)
  {
    hide Accounted;
    BindingsKeep(s, s.bindings[tag := b], owner);
  }

  lemma BindingSettledKeeps(s: State, tag: nat, found: bool, owner: map<Handle, Owner>)
    requires Good(s, owner)
    ensures Good(BindingSettled(s, tag, found), owner)
  {
    hide Accounted, Created, Repathed;
    if tag in s.bindings {
      var t, b := s.(bindings := s.bindings - {tag}), s.bindings[tag];
      BindingsKeep(s, s.bindings - {tag}, owner);
      CreatedKeeps(t, b.fid, b.path, b.asked, owner);
      RepathedKeeps(t, b.fid, b.path, owner);
    }
  }

  lemma RepathedKeeps(s: State, fid: nat, path: string, owner: map<Handle, Owner>)
    requires Good(s, owner)
    ensures Good(Repathed(s, fid, path), owner)
  {
    var t := Repathed(s, fid, path);
    forall o, h: Handle ensures Holds(t, o, h) <==> Holds(s, o, h) {}
    Kept(s, t, owner);
  }

  lemma StartKeeps(s: State, tag: nat, fid: nat, kind: Kind, owner: map<Handle, Owner>)
    requires Good(s, owner)
    ensures Good(Start(s, tag, fid, kind), owner)
  {
    var t := Start(s, tag, fid, kind);
    forall o, h: Handle ensures Holds(t, o, h) <==> Holds(s, o, h) {}
    Kept(s, t, owner);
  }

  lemma ClunkedKeeps(s: State, fid: nat, owner: map<Handle, Owner>) returns (after: map<Handle, Owner>)
    requires Good(s, owner)
    ensures Good(Clunked(s, fid), after)
  {
    var i, t := IndexOf(s, fid), Clunked(s, fid);
    after := owner;
    if i < |s.table| {
      var id := s.table[i];
      var h := HandleOf(s.entries[id]);
      TableWithout(s, i);
      forall o, k: Handle | h != Some(k) ensures Holds(t, o, k) <==> Holds(s, o, k) {}
      if h.None? {
        Kept(s, t, owner);
      } else {
        assert Holds(s, Held(id), h.value);
        after := owner[h.value := Closing(|s.closers|)];
        forall o ensures Holds(t, o, h.value) <==> o == Closing(|s.closers|) { Only(s, owner, h.value, Held(id), o); }
        Moved(s, t, owner, h.value, Closing(|s.closers|));
      }
    }
  }

  lemma TableWithout(s: State, i: nat)
    requires Sound(s) && i < |s.table|
    ensures var rest := s.table[..i] + s.table[i + 1..];
            forall id :: id in rest <==> id in s.table && id != s.table[i]
  {
    var rest := s.table[..i] + s.table[i + 1..];
    forall id | id in s.table && id != s.table[i] ensures id in rest {
      var j :| 0 <= j < |s.table| && s.table[j] == id;
      assert if j < i then rest[j] == id else rest[j - 1] == id;
    }
  }

  lemma {:induction false} OpenHandlesAre(s: State, owner: map<Handle, Owner>, k: nat)
    requires Good(s, owner) && k <= |s.table|
    ensures Distinct(OpenHandles(s, k))
    ensures forall h: Handle :: h in OpenHandles(s, k) <==>
            exists j :: k <= j < |s.table| && HandleOf(s.entries[s.table[j]]) == Some(h)
    decreases |s.table| - k
  {
    if k < |s.table| {
      OpenHandlesAre(s, owner, k + 1);
      var h := HandleOf(s.entries[s.table[k]]);
      if h.Some? && h.value in OpenHandles(s, k + 1) {
        var j :| k + 1 <= j < |s.table| && HandleOf(s.entries[s.table[j]]) == h;
        assert Holds(s, Held(s.table[k]), h.value) && Holds(s, Held(s.table[j]), h.value);
      }
    }
  }

  lemma ResetKeeps(s: State, owner: map<Handle, Owner>) returns (after: map<Handle, Owner>)
    requires Good(s, owner)
    ensures Good(Step(s, Reset), after)
  {
    var t, c := Step(s, Reset), |s.closers|;
    after := map h: Handle | h in owner :: if owner[h].Held? then Closing(c) else owner[h];
    OpenHandlesAre(s, owner, 0);
    forall h: Handle ensures h in OpenHandles(s, 0) <==> h in owner && owner[h].Held? {
      if h in OpenHandles(s, 0) {
        var j: nat :| j < |s.table| && HandleOf(s.entries[s.table[j]]) == Some(h);
        assert Holds(s, Held(s.table[j]), h);
      }
      if h in owner && owner[h].Held? { assert Holds(s, owner[h], h); }
    }
    forall o, h: Handle ensures Holds(t, o, h) <==> h in after && after[h] == o {
      assert Holds(s, o, h) <==> h in owner && owner[h] == o;
    }
    assert Accounted(t, after);
    forall d | 0 <= d < |t.closers| ensures Distinct(t.closers[d]) {
      assert d < c ==> t.closers[d] == s.closers[d];
    }
  }

  ghost predicate Owned(s: State, h: Handle) { exists o :: Holds(s, o, h) }

  // Every issued handle has an owner and only one, and no other number has any.
  ghost predicate Conserved(s: State)
  {
    && (forall h: Handle :: Owned(s, h) <==> h < s.issued)
    && (forall h: Handle, o, p :: Holds(s, o, h) && Holds(s, p, h) ==> o == p)
  }

  lemma StepKeeps(s: State, e: Event, owner: map<Handle, Owner>) returns (after: map<Handle, Owner>)
    requires Good(s, owner)
    ensures Good(Step(s, e), after)
  {
    hide Good, Settle, Cloned, StartBinding, BindingSettled, Repathed, Start, Clunked, CloserSettled;
    after := owner;
    match e {
      case Clone(from, fid) => ClonedKeeps(s, from, fid, owner);
      case StartAttach(tag, fid, path) => StartBindingKeeps(s, tag, Attach(fid, path, s.generation), owner);
      case StartWalk(tag, from, fid, path) => StartBindingKeeps(s, tag, Walk(fid, path, s.generation, from), owner);
      case BindSettles(tag, found) => BindingSettledKeeps(s, tag, found, owner);
      case Repath(fid, path) => RepathedKeeps(s, fid, path, owner);
      case StartLopen(tag, fid, truncates, writes) => StartKeeps(s, tag, fid, Lopen(truncates, writes), owner);
      case StartLcreate(tag, fid, path) => StartKeeps(s, tag, fid, Lcreate("", path), owner);
      case StartReopen(tag, fid) => StartKeeps(s, tag, fid, Reopen, owner);
      case Clunk(fid) => after := ClunkedKeeps(s, fid, owner);
      case Reset => after := ResetKeeps(s, owner);
      case CloseSettles(c) => after := CloserKeeps(s, c, owner);
      case _ => if e.tag in s.requests { after := SettleKeeps(s, e.tag, e, owner); }
    }
  }

  lemma {:induction false} RunGood(events: seq<Event>) returns (owner: map<Handle, Owner>)
    ensures Good(Run(events), owner)
  {
    if events == [] {
      owner := map[];
      assert forall o, h: Handle :: !Holds(INITIAL, o, h);
    } else {
      owner := RunGood(events[..|events| - 1]);
      owner := StepKeeps(Run(events[..|events| - 1]), events[|events| - 1], owner);
    }
  }

  lemma GoodIsConserved(s: State, owner: map<Handle, Owner>)
    requires Good(s, owner)
    ensures Conserved(s)
  {
    hide Holds;
    forall h: Handle ensures Owned(s, h) <==> h < s.issued {
      if h < s.issued { assert Holds(s, owner[h], h); }
    }
  }

  // Whatever arrives and in whatever order the driver's calls settle, each handle
  // the driver returned is in exactly one place: with one request, on one entry of
  // the table, with one closer, or closed.
  lemma RunConserves(events: seq<Event>)
    ensures Conserved(Run(events))
  {
    var owner := RunGood(events);
    GoodIsConserved(Run(events), owner);
  }

  // The handle whose `close()` a step is the end of.
  function CloseOf(s: State, e: Event): Option<Handle>
  {
    if e.CloseSettles? then
      if e.closer < |s.closers| && s.closers[e.closer] != [] then Some(s.closers[e.closer][0]) else None
    else if (e.DiscardSettles? || e.UnwindSettles?) && e.tag in s.requests then
      match s.requests[e.tag].phase
      case Discarding(h) => if e.DiscardSettles? then Some(h) else None
      case Unwinding(h) => if e.UnwindSettles? then Some(h) else None
      case _ => None
    else None
  }

  lemma ClosedIs(s: State, e: Event)
    requires Sound(s)
    ensures var h := CloseOf(s, e); Step(s, e).closed == if h.Some? then s.closed + {h.value} else s.closed
  {
    hide Sound, OpenHandles, Openable;
  }

  // Over a whole run nothing is closed twice: the handle a step closes was open.
  lemma ClosesOnce(events: seq<Event>, e: Event)
    ensures var s, h := Run(events), CloseOf(Run(events), e);
            if h.Some? then h.value !in s.closed && Step(s, e).closed == s.closed + {h.value}
            else Step(s, e).closed == s.closed
  {
    var s, h := Run(events), CloseOf(Run(events), e);
    ClosedIs(s, e);
    if h.Some? {
      var owner := RunGood(events);
      var o := if e.CloseSettles? then Closing(e.closer) else Local(e.tag);
      assert Holds(s, o, h.value);
      Only(s, owner, h.value, o, Closed);
      assert !Holds(s, Closed, h.value);
    }
  }

  predicate Quiet(s: State) { s.requests == map[] && forall hs :: hs in s.closers ==> hs == [] }

  // Once nothing waits on the driver, nothing has leaked: every handle is on an
  // entry a client can still clunk, or closed.
  lemma NothingLeaks(events: seq<Event>, h: Handle)
    requires Quiet(Run(events)) && h < Run(events).issued
    ensures var s := Run(events); h in s.closed || exists id :: Holds(s, Held(id), h)
    ensures var s := Run(events); h in s.closed ==> forall id :: !Holds(s, Held(id), h)
  {
    var s := Run(events);
    RunConserves(events);
    assert Owned(s, h);
    var o :| Holds(s, o, h);
    assert forall c :: 0 <= c < |s.closers| ==> s.closers[c] in s.closers;
    assert o.Held? || o.Closed?;
    if h in s.closed { assert Holds(s, Closed, h); }
  }

  lemma CloserKeeps(s: State, c: nat, owner: map<Handle, Owner>) returns (after: map<Handle, Owner>)
    requires Good(s, owner)
    ensures Good(CloserSettled(s, c), after)
    ensures c < |s.closers| && s.closers[c] != [] ==> s.closers[c][0] !in s.closed
  {
    after := owner;
    if c < |s.closers| && s.closers[c] != [] {
      var t, hs := CloserSettled(s, c), s.closers[c];
      var h := hs[0];
      assert hs == [h] + hs[1..];
      assert Holds(s, Closing(c), h);
      Only(s, owner, h, Closing(c), Closed);
      assert h !in hs[1..];
      after := owner[h := Closed];
      forall o ensures Holds(t, o, h) <==> o == Closed { Only(s, owner, h, Closing(c), o); }
      forall o, k: Handle | k != h ensures Holds(t, o, k) <==> Holds(s, o, k) { assert k in hs <==> k in hs[1..]; }
      Moved(s, t, owner, h, Closed);
      forall d | 0 <= d < |t.closers| ensures Distinct(t.closers[d]) { assert Distinct(s.closers[d]); }
    }
  }
}
