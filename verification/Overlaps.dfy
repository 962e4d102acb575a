// Any number of `Treaddir`s on one fid at once. Each waits on the driver for the
// listing and then for every entry it looks at, and meanwhile the others go on; a
// page notes its cookies on whatever cursor the fid has by then.
module Overlaps {
  import opened Wrappers
  import opened Messages
  import opened Fids
  import opened Readdir
  import opened Paging

  // Where one request is: waiting for the listing, waiting for what the driver
  // says of its next entry, or answered. A page remembers which listing it is of.
  datatype Turn =
    | Listing(budget: nat)
    | Filling(page: Page, packed: seq<Dirent>, room: nat, serial: nat)
    | Answered(reply: Result<seq<Dirent>>)

  // A fid's cursor and the requests on it; and, of the listing the cursor is for,
  // its number, the offsets its own pages noted, and those noted by pages of others.
  datatype Shared = Shared(cursor: Option<Cursor>, turns: seq<Turn>, serial: nat, own: set<nat>, stray: set<nat>)

  datatype Event =
    | Asked(offset: nat, budget: nat)
    | Listed(who: nat, listing: Result<seq<Name>>)
    | Looked(who: nat, found: Option<Attr>)
    | Renamed

  const START := Shared(None, [], 0, {}, {})

  predicate Enabled(s: Shared, e: Event)
  {
    match e
    case Listed(who, _) => who < |s.turns| && s.turns[who].Listing?
    case Looked(who, _) => who < |s.turns| && s.turns[who].Filling? &&
        s.turns[who].page.index < |s.turns[who].page.entries|
    case _ => true
  }

  function Next(page: Page, packed: seq<Dirent>, room: nat, serial: nat): Turn
  {
    if page.index >= |page.entries| then Answered(Ok(packed)) else Filling(page, packed, room, serial)
  }

  // An offset noted by a page of some listing, whichever the cursor is for.
  function Note(s: Shared, serial: nat, offset: nat): Shared
  {
    if s.cursor.None? then s
    else if serial == s.serial then s.(cursor := Noted(s.cursor, offset, offset), own := s.own + {offset})
    else s.(cursor := Noted(s.cursor, offset, offset), stray := s.stray + {offset})
  }

  function Step(s: Shared, e: Event): Shared
    requires Enabled(s, e)
  {
    match e
    case Asked(offset, budget) => Begin(s, offset, budget)
    case Listed(who, listing) =>
      if listing.Err? then s.(turns := s.turns[who := Answered(Err(listing.error))])
      else
        var page := Next(Page(listing.value, 0), [], s.turns[who].budget, s.serial + 1);
        Shared(Some(Cursor(listing.value, map[])), s.turns[who := page], s.serial + 1, {}, {})
    case Looked(who, found) => LookOnce(s, who, found)
    case Renamed => s.(cursor := None, own := {}, stray := {})
  }

  function Begin(s: Shared, offset: nat, budget: nat): Shared
  {
    match Resumed(s.cursor, offset)
    case Err(e) => s.(turns := s.turns + [Answered(Err(e))])
    case Ok(Some(page)) => s.(turns := s.turns + [Next(page, [], budget, s.serial)])
    case Ok(None) => Shared(None, s.turns + [Listing(budget)], s.serial, {}, {})
  }

  function LookOnce(s: Shared, who: nat, found: Option<Attr>): Shared
    requires Enabled(s, Looked(who, found))
  {
    var t := s.turns[who];
    var k := t.page.index;
    var name := t.page.entries[k];
    var on := Page(t.page.entries, k + 1);
    if found.None? then s.(turns := s.turns[who := Next(on, t.packed, t.room, t.serial)])
    else if !NameFits(name) then s.(turns := s.turns[who := Answered(Err(ENAMETOOLONG))])
    else if Cost(name) > t.room then
      s.(turns := s.turns[who := Answered(if t.packed == [] then Err(EINVAL) else Ok(t.packed))])
    else
      var d := Dirent(found.value.qid, k + 1, found.value.typ, name);
      Note(s.(turns := s.turns[who := Next(on, t.packed + [d], t.room - Cost(name), t.serial)]), t.serial, k + 1)
  }

  ghost predicate IsRun(events: seq<Event>)
    decreases |events|, 0
  {
    events == [] ||
    (IsRun(events[..|events| - 1]) && Enabled(Reached(events[..|events| - 1]), events[|events| - 1]))
  }

  ghost function Reached(events: seq<Event>): Shared
    requires IsRun(events)
    decreases |events|, 1
  {
    if events == [] then START else Step(Reached(events[..|events| - 1]), events[|events| - 1])
  }

  // ---------- which offsets a fid accepts ----------

  predicate Accepts(cursor: Option<Cursor>, offset: nat) { offset != 0 && Resumed(cursor, offset).Ok? }

  // Exactly what was noted since the listing, each resuming where it came from.
  // What pages of the listing itself noted lies within it.
  ghost predicate Told(s: Shared)
  {
    && (forall o: nat :: Accepts(s.cursor, o) <==> o in s.own || o in s.stray)
    && (forall o: nat :: Accepts(s.cursor, o) ==> s.cursor.value.offsets[o] == o)
    && (s.cursor.Some? ==> forall o: nat :: o in s.own ==> 0 < o <= |s.cursor.value.entries|)
    && (s.cursor.Some? ==> 0 !in s.cursor.value.offsets)
    && 0 !in s.own && 0 !in s.stray
  }

  // A page of the listing the cursor is for pages that listing.
  ghost predicate Placed(s: Shared, t: Turn)
  {
    t.Filling? ==>
      && t.serial <= s.serial
      && (t.serial == s.serial && s.cursor.Some? ==> t.page.entries == s.cursor.value.entries)
  }

  ghost predicate AllPlaced(s: Shared) { forall t :: t in s.turns ==> Placed(s, t) }

  lemma StepTold(s: Shared, e: Event)
    requires Enabled(s, e) && Told(s) && AllPlaced(s)
    ensures Told(Step(s, e))
  {
    if e.Looked? { assert Placed(s, s.turns[e.who]); }
  }

  lemma StepPlaced(s: Shared, e: Event)
    requires Enabled(s, e) && AllPlaced(s)
    ensures AllPlaced(Step(s, e))
  {
    var next := Step(s, e);
    forall t | t in next.turns ensures Placed(next, t) {
      if t in s.turns {
        assert Placed(s, t);
      } else if e.Looked? {
        assert Placed(s, s.turns[e.who]);
      }
    }
  }

  // In every run, whatever overlaps: a fid accepts exactly the offsets noted since
  // its listing was taken. So it accepts only what that listing gave if and only if
  // every offset a page of another listing noted was given by this one too.
  lemma {:induction false} RunAccepts(events: seq<Event>)
    requires IsRun(events)
    decreases |events|
    ensures var s := Reached(events);
            && Told(s) && AllPlaced(s)
            && ((forall o: nat :: Accepts(s.cursor, o) ==> o in s.own) <==> s.stray <= s.own)
  {
    if events != [] {
      var front := events[..|events| - 1];
      RunAccepts(front);
      StepTold(Reached(front), events[|events| - 1]);
      StepPlaced(Reached(front), events[|events| - 1]);
    }
    OwnIffCovered(Reached(events));
  }

  lemma OwnIffCovered(s: Shared)
    requires Told(s)
    ensures (forall o: nat :: Accepts(s.cursor, o) ==> o in s.own) <==> s.stray <= s.own
  {
    forall o: nat | o in s.stray && forall q: nat :: Accepts(s.cursor, q) ==> q in s.own ensures o in s.own {
      assert Accepts(s.cursor, o);
    }
  }

  // ---------- overlaps ----------

  // One cookie noted by a page of another listing leaves what a fid accepts as it
  // was if and only if the fid accepted that offset already.
  lemma OverlappingNote(cursor: Cursor, offset: nat)
    requires offset > 0
    ensures (forall o: nat :: Accepts(Noted(Some(cursor), offset, offset), o) <==> Accepts(Some(cursor), o))
            <==> offset in cursor.offsets
  {
    assert Accepts(Noted(Some(cursor), offset, offset), offset);
    if offset in cursor.offsets {
      forall o: nat ensures Accepts(Noted(Some(cursor), offset, offset), o) <==> Accepts(Some(cursor), o) {
        assert o in cursor.offsets[offset := offset] <==> o in cursor.offsets;
      }
    }
  }

  // Whether a page packs the entry it looked at.
  predicate Packs(t: Turn, found: Option<Attr>)
  {
    && t.Filling? && t.page.index < |t.page.entries| && found.Some?
    && NameFits(t.page.entries[t.page.index]) && Cost(t.page.entries[t.page.index]) <= t.room
  }

  // A page of another listing packs an entry whose cookie nothing has noted since
  // the listing was taken.
  predicate Strays(s: Shared, e: Event)
    requires Enabled(s, e)
  {
    && e.Looked? && s.cursor.Some? && Packs(s.turns[e.who], e.found) && s.turns[e.who].serial != s.serial
    && !Accepts(s.cursor, s.turns[e.who].page.index + 1)
  }

  // In a run, that is exactly when a step makes a fid accept an offset that it
  // refused before and that its listing did not give.
  lemma OverlapStep(events: seq<Event>, e: Event)
    requires IsRun(events) && Enabled(Reached(events), e)
    ensures var s, next := Reached(events), Step(Reached(events), e);
            (exists o: nat :: Accepts(next.cursor, o) && !Accepts(s.cursor, o) && o !in next.own) <==> Strays(s, e)
  {
    hide Accepts, IsRun, Reached, Told, AllPlaced;
    RunAccepts(events);
    var s, next := Reached(events), Step(Reached(events), e);
    if e.Looked? {
      var o := s.turns[e.who].page.index + 1;
      LookNotes(s, e);
      if Strays(s, e) { assert Accepts(next.cursor, o) && !Accepts(s.cursor, o) && o !in next.own; }
    } else {
      NothingNoted(s, e);
    }
  }

  // A look makes at most one offset accepted, and only by packing an entry.
  lemma LookNotes(s: Shared, e: Event)
    requires Enabled(s, e) && e.Looked? && Told(s)
    ensures var next, t := Step(s, e), s.turns[e.who]; var o := t.page.index + 1;
            && (forall q: nat :: Accepts(next.cursor, q) <==>
                  Accepts(s.cursor, q) || (q == o && s.cursor.Some? && Packs(t, e.found)))
            && (s.cursor.Some? && Packs(t, e.found) && t.serial == s.serial ==> o in next.own)
            && (!Accepts(s.cursor, o) && t.serial != s.serial ==> o !in next.own)
  {
  }

  lemma NothingNoted(s: Shared, e: Event)
    requires Enabled(s, e) && !e.Looked?
    ensures forall q: nat :: Accepts(Step(s, e).cursor, q) ==> Accepts(s.cursor, q)
  {
  }

  predicate Settled(s: Shared) { forall i :: 0 <= i < |s.turns| ==> s.turns[i].Answered? }

  // A client that rewinds a fid only when nothing on it is unanswered.
  ghost predicate Patient(events: seq<Event>)
    requires IsRun(events)
    decreases |events|
  {
    events == [] ||
    (var front, e := events[..|events| - 1], events[|events| - 1];
     && Patient(front)
     && (e.Asked? && e.offset == 0 ==> Settled(Reached(front))))
  }

  // Pages are of the listing the cursor was last for, and none is being filled
  // while a listing is awaited.
  ghost predicate Quiet(s: Shared)
  {
    && s.stray == {}
    && (forall i :: 0 <= i < |s.turns| && s.turns[i].Filling? ==> s.turns[i].serial == s.serial)
    && (forall i, j :: 0 <= i < |s.turns| && 0 <= j < |s.turns| && i != j && s.turns[i].Listing? ==>
       s.turns[j].Answered?)
    && (forall i :: 0 <= i < |s.turns| && s.turns[i].Listing? ==> s.cursor.None?)
  }

  lemma StepQuiet(s: Shared, e: Event)
    requires Enabled(s, e) && Quiet(s)
    requires e.Asked? && e.offset == 0 ==> Settled(s)
    ensures Quiet(Step(s, e))
  {
    match e {
      case Asked(_, _) => BeginQuiet(s, e);
      case Listed(_, _) => ListedQuiet(s, e);
      case Looked(_, _) => LookedQuiet(s, e);
      case Renamed =>
    }
  }

  lemma BeginQuiet(s: Shared, e: Event)
    requires e.Asked? && Quiet(s) && (e.offset == 0 ==> Settled(s))
    ensures Quiet(Step(s, e))
  {
    assert forall i :: 0 <= i < |s.turns| ==> Step(s, e).turns[i] == s.turns[i];
  }

  lemma ListedQuiet(s: Shared, e: Event)
    requires e.Listed? && Enabled(s, e) && Quiet(s)
    ensures Quiet(Step(s, e))
  {
  }

  lemma LookedQuiet(s: Shared, e: Event)
    requires e.Looked? && Enabled(s, e) && Quiet(s)
    ensures Quiet(Step(s, e))
  {
  }

  // Such a client is only ever served offsets its latest listing gave.
  lemma {:induction false} PatientIsSafe(events: seq<Event>)
    requires IsRun(events) && Patient(events)
    ensures forall o: nat :: Accepts(Reached(events).cursor, o) ==> o in Reached(events).own
    decreases |events|
  {
    PatientIsQuiet(events);
    RunAccepts(events);
  }

  lemma {:induction false} PatientIsQuiet(events: seq<Event>)
    requires IsRun(events) && Patient(events)
    ensures Quiet(Reached(events))
    decreases |events|
  {
    if events != [] {
      PatientIsQuiet(events[..|events| - 1]);
      StepQuiet(Reached(events[..|events| - 1]), events[|events| - 1]);
    }
  }

  // ---------- a concrete overlap ----------

  lemma RunSnoc(events: seq<Event>, e: Event)
    requires IsRun(events) && Enabled(Reached(events), e)
    ensures IsRun(events + [e]) && Reached(events + [e]) == Step(Reached(events), e)
  {
    assert (events + [e])[..|events|] == events;
  }

  // Two listings, of which the second is the fid's by then, and a page of the first
  // going on: offset 1, which no page of the second gave, is accepted all the same.
  lemma OverlappingRewind(a: Name, b: Name, c: Name, attr: Attr, budget: nat) returns (events: seq<Event>)
    requires NameFits(a) && Cost(a) <= budget
    ensures |events| == 5 && IsRun(events) && IsRun(events[..4])
    ensures |Reached(events[..4]).turns| == |Reached(events).turns| == 2
    ensures Step(Reached(events[..4]), Asked(1, budget)).turns[2] == Answered(Err(EINVAL))
    ensures Reached(events).own == {}
    ensures Step(Reached(events), Asked(1, budget)).turns[2] == Filling(Page([b, c], 1), [], budget, 2)
  {
    hide IsRun, Reached;
    events := Begun([a, b], budget);
    RunSnoc(events, Asked(0, budget));
    events := events + [Asked(0, budget)];
    RunSnoc(events, Listed(1, Ok([b, c])));
    events := events + [Listed(1, Ok([b, c]))];
    RunSnoc(events, Looked(0, Some(attr)));
    assert (events + [Looked(0, Some(attr))])[..4] == events;
    events := events + [Looked(0, Some(attr))];
  }

  // One request that has its listing.
  lemma Begun(listing: seq<Name>, budget: nat) returns (events: seq<Event>)
    requires listing != []
    ensures |events| == 2 && IsRun(events)
    ensures Reached(events) ==
            Shared(Some(Cursor(listing, map[])), [Filling(Page(listing, 0), [], budget, 1)], 1, {}, {})
  {
    events := [];
    RunSnoc(events, Asked(0, budget));
    events := events + [Asked(0, budget)];
    RunSnoc(events, Listed(0, Ok(listing)));
    events := events + [Listed(0, Ok(listing))];
  }

  // ---------- one request on its own ----------

  // The steps of one page with none of another request between them.
  function Alone(s: Shared, who: nat, look: Look): Shared
    requires who < |s.turns|
    decreases Left(s.turns[who])
  {
    if Left(s.turns[who]) == 0 then s
    else
      var k := s.turns[who].page.index;
      Alone(Step(s, Looked(who, if k in look then Some(look[k]) else None)), who, look)
  }

  function Left(t: Turn): nat
  {
    if t.Filling? && t.page.index < |t.page.entries| then |t.page.entries| - t.page.index else 0
  }

  // A whole request on its own.
  function Served(s: Shared, offset: nat, listing: Result<seq<Name>>, look: Look, budget: nat): Shared
  {
    var begun := Begin(s, offset, budget);
    var who := |s.turns|;
    Alone(if begun.turns[who].Listing? then Step(begun, Listed(who, listing)) else begun, who, look)
  }

  lemma {:induction false} NotedFront(cursor: Option<Cursor>, d: Dirent, ds: seq<Dirent>)
    ensures NotedAll(cursor, [d] + ds) == NotedAll(Noted(cursor, d.offset, d.offset), ds)
  {
    if ds == [] {
      assert [d] + ds == [d] && [d][..0] == [];
      assert NotedAll(cursor, []) == cursor;
    } else {
      assert ([d] + ds)[..|ds|] == [d] + ds[..|ds| - 1];
      NotedFront(cursor, d, ds[..|ds| - 1]);
    }
  }

  // What one look leaves of its request and of the cursor.
  lemma OneLook(s: Shared, who: nat, look: Look)
    requires who < |s.turns| && Left(s.turns[who]) > 0
    ensures var t := s.turns[who]; var entries, k := t.page.entries, t.page.index;
            var next := Step(s, Looked(who, if k in look then Some(look[k]) else None));
            && |next.turns| == |s.turns|
            && (k !in look ==>
                  && next.cursor == s.cursor
                  && next.turns[who] == Next(Page(entries, k + 1), t.packed, t.room, t.serial))
            && (k in look && (!NameFits(entries[k]) || Cost(entries[k]) > t.room) ==> next.cursor == s.cursor)
            && (k in look && !NameFits(entries[k]) ==> next.turns[who] == Answered(Err(ENAMETOOLONG)))
            && (k in look && NameFits(entries[k]) && Cost(entries[k]) > t.room ==>
                  next.turns[who] == Answered(if t.packed == [] then Err(EINVAL) else Ok(t.packed)))
            && (k in look && NameFits(entries[k]) && Cost(entries[k]) <= t.room ==>
                  && next.cursor == Noted(s.cursor, k + 1, k + 1)
                  && next.turns[who] ==
                     Next(Page(entries, k + 1), t.packed + [EntryAt(entries, look, k)], t.room - Cost(entries[k]),
                         t.serial))
  {
  }

  lemma {:induction false} AloneIsPage(s: Shared, who: nat, look: Look)
    requires who < |s.turns| && Left(s.turns[who]) > 0
    ensures var t := s.turns[who]; var taken := Take(t.page.entries, look, t.page.index, t.room);
            var end := Alone(s, who, look);
            && |end.turns| == |s.turns| && end.cursor == NotedAll(s.cursor, taken.packed)
            && end.turns[who] == Answered(Reply(t.page.entries, Joined(t.packed, taken)))
    decreases |s.turns[who].page.entries| - s.turns[who].page.index
  {
    hide NotedAll, Reply, Step, Noted;
    var t := s.turns[who];
    var entries, k := t.page.entries, t.page.index;
    OneLook(s, who, look);
    TakeStep(entries, look, k, t.room, t.packed);
    NotedNothing(s.cursor);
    EndOfPage(entries, look, t.room, t.packed);
    var next := Step(s, Looked(who, if k in look then Some(look[k]) else None));
    if k in look && NameFits(entries[k]) && Cost(entries[k]) <= t.room {
      var d := EntryAt(entries, look, k);
      var room := t.room - Cost(entries[k]);
      NotedFront(s.cursor, d, Take(entries, look, k + 1, room).packed);
      EndOfPage(entries, look, room, t.packed + [d]);
      NotedNothing(next.cursor);
    }
    if next.turns[who].Filling? {
      AloneIsPage(next, who, look);
    }
  }

  lemma EndOfPage(entries: seq<Name>, look: Look, room: nat, packed: seq<Dirent>)
    ensures Take(entries, look, |entries|, room).packed == []
    ensures Reply(entries, Joined(packed, Take(entries, look, |entries|, room))) == Ok(packed)
    ensures forall k: nat :: Reply(entries, Taken(packed, k, true)) == Err(ENAMETOOLONG)
    ensures forall k: nat :: k < |entries| ==>
              Reply(entries, Taken(packed, k, false)) == if packed == [] then Err(EINVAL) else Ok(packed)
  {
    assert packed + [] == packed;
  }

  lemma AtTheEnd(entries: seq<Name>, look: Look, room: nat)
    ensures Take(entries, look, |entries|, room).packed == []
    ensures Reply(entries, Take(entries, look, |entries|, room)) == Ok([])
  {
  }

  // With no other request in between, a request's steps come to what one read of
  // the fid's cursor answers and leaves.
  lemma AloneIsRead(s: Shared, offset: nat, listing: Result<seq<Name>>, look: Look, budget: nat)
    requires s.cursor.Some? ==> forall o: nat :: o in s.cursor.value.offsets ==>
             s.cursor.value.offsets[o] <= |s.cursor.value.entries|
    ensures var end, read := Served(s, offset, listing, look, budget), Read(s.cursor, offset, listing, look, budget);
            |end.turns| == |s.turns| + 1 && end.cursor == read.1 && end.turns[|s.turns|] == Answered(read.0)
  {
    hide Take, NotedAll, Reply;
    var who := |s.turns|;
    var begun := Begin(s, offset, budget);
    var ready := if begun.turns[who].Listing? then Step(begun, Listed(who, listing)) else begun;
    match ready.turns[who] {
      case Filling(page, packed, room, _) =>
        AloneIsPage(ready, who, look);
        var t := Take(page.entries, look, page.index, room);
        assert [] + t.packed == t.packed;
      case Answered(_) =>
        if offset == 0 && listing.Ok? {
          AtTheEnd(listing.value, look, budget);
          NotedNothing(ready.cursor);
        } else if offset != 0 && Resumed(s.cursor, offset).Ok? {
          AtTheEnd(s.cursor.value.entries, look, budget);
          NotedNothing(s.cursor);
        }
    }
  }
}
