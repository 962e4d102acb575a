// A client that reads a directory page by page, resuming each time at the last
// cookie it was shown, sees every entry that survives once and in order.
module Paging {
  import opened Wrappers
  import opened Messages
  import opened Fids
  import opened Readdir

  datatype Ask = Ask(look: Look, budget: nat)

  // Every entry of the listing fits a page of its own.
  predicate Roomy(entries: seq<Name>, budget: nat)
  {
    forall k :: 0 <= k < |entries| ==> NameFits(entries[k]) && Cost(entries[k]) <= budget
  }

  // The surviving entries of a stretch of a listing, in order.
  function Survivors(entries: seq<Name>, look: Look, k: nat, end: nat): seq<Dirent>
    requires end <= |entries|
    decreases end - k
  {
    if k >= end then []
    else (if k in look then [EntryAt(entries, look, k)] else []) + Survivors(entries, look, k + 1, end)
  }

  function TotalCost(ds: seq<Dirent>): nat { if ds == [] then 0 else Cost(ds[0].name) + TotalCost(ds[1..]) }

  function Concat(pages: seq<seq<Dirent>>): seq<Dirent> { if pages == [] then [] else pages[0] + Concat(pages[1..]) }

  // Where a page that starts at k leaves the client: after the last entry packed.
  function After(ds: seq<Dirent>, k: nat): nat { if ds == [] then k else ds[|ds| - 1].offset }

  // An entry as a client is shown it: the name of the listing, the qid and the type its
  // look found, and the cookie of the place behind it.
  predicate Shows(d: Dirent, entries: seq<Name>, look: Look, j: nat)
  {
    j < |entries| && j in look && d.name == entries[j] && d.qid == look[j].qid && d.typ == look[j].typ &&
        d.offset == j + 1
  }

  // Each of these shows an entry of the stretch that was found.
  predicate OnlyFound(ds: seq<Dirent>, entries: seq<Name>, look: Look, k: nat, end: nat)
  {
    forall i :: 0 <= i < |ds| ==> k < ds[i].offset <= end && Shows(ds[i], entries, look, ds[i].offset - 1)
  }

  predicate Ascending(ds: seq<Dirent>) { forall i, m :: 0 <= i < m < |ds| ==> ds[i].offset < ds[m].offset }

  predicate Shown(ds: seq<Dirent>, entries: seq<Name>, look: Look, j: nat)
  {
    exists i :: 0 <= i < |ds| && Shows(ds[i], entries, look, j)
  }

  lemma OneInFront(d: Dirent, others: seq<Dirent>, entries: seq<Name>, look: Look, k: nat, end: nat)
    requires k < end && Shows(d, entries, look, k) && OnlyFound(others, entries, look, k + 1, end) && Ascending(others)
    ensures OnlyFound([d] + others, entries, look, k, end) && Ascending([d] + others)
    ensures Shown([d] + others, entries, look, k)
    ensures forall j: nat :: Shown(others, entries, look, j) ==> Shown([d] + others, entries, look, j)
  {
    hide Shows;
    var ds := [d] + others;
    assert ds[0] == d && d.offset == k + 1 by { assert Shows(ds[0], entries, look, k); OffsetIs(d, entries, look, k); }
    forall j: nat | Shown(others, entries, look, j) ensures Shown(ds, entries, look, j) {
      var i :| 0 <= i < |others| && Shows(others[i], entries, look, j);
      assert ds[i + 1] == others[i];
    }
  }

  lemma OffsetIs(d: Dirent, entries: seq<Name>, look: Look, k: nat)
    requires Shows(d, entries, look, k)
    ensures d.offset == k + 1
  {
  }

  lemma EntryShows(entries: seq<Name>, look: Look, k: nat)
    requires k < |entries| && k in look
    ensures Shows(EntryAt(entries, look, k), entries, look, k)
  {
  }

  lemma StretchGrows(ds: seq<Dirent>, entries: seq<Name>, look: Look, k: nat, end: nat)
    requires OnlyFound(ds, entries, look, k + 1, end)
    ensures OnlyFound(ds, entries, look, k, end)
  {
  }

  // The survivors of a stretch are these and no others: each shows one entry of the
  // stretch that was found, later ones later entries, and none that was found is missing.
  lemma {:induction false} SurvivorsShow(entries: seq<Name>, look: Look, k: nat, end: nat)
    requires k <= end <= |entries|
    ensures var ds := Survivors(entries, look, k, end);
            && OnlyFound(ds, entries, look, k, end) && Ascending(ds)
            && forall j: nat :: k <= j < end && j in look ==> Shown(ds, entries, look, j)
    decreases end - k
  {
    hide OnlyFound, Ascending, Shown, Shows, EntryAt;
    if k < end {
      SurvivorsShow(entries, look, k + 1, end);
      var others := Survivors(entries, look, k + 1, end);
      if k in look {
        EntryShows(entries, look, k);
        OneInFront(EntryAt(entries, look, k), others, entries, look, k, end);
      } else {
        StretchGrows(others, entries, look, k, end);
        assert [] + others == others;
      }
    } else {
      NoneShow(entries, look, k, end);
    }
  }

  lemma NoneShow(entries: seq<Name>, look: Look, k: nat, end: nat)
    ensures OnlyFound([], entries, look, k, end) && Ascending([])
  {
  }

  // ---------- one page ----------

  // The entries of a page up to its last one, and the looks behind that.
  lemma {:induction false} TakeSpan(entries: seq<Name>, look: Look, k: nat, room: nat)
    requires k <= |entries|
    ensures var t := Take(entries, look, k, room); var end := After(t.packed, k);
            && k <= end <= t.stop <= |entries| && (t.packed != [] ==> k < end)
            && forall j: nat :: end <= j < t.stop ==> j !in look
    decreases |entries| - k
  {
    if k < |entries| {
      if k !in look {
        TakeSpan(entries, look, k + 1, room);
      } else if NameFits(entries[k]) && Cost(entries[k]) <= room {
        TakeSpan(entries, look, k + 1, room - Cost(entries[k]));
        AfterFront(entries, look, k, Take(entries, look, k + 1, room - Cost(entries[k])).packed);
      }
    }
  }

  lemma AfterFront(entries: seq<Name>, look: Look, k: nat, ds: seq<Dirent>)
    requires k < |entries| && k in look
    ensures After([EntryAt(entries, look, k)] + ds, k) == After(ds, k + 1)
  {
  }

  lemma {:induction false} TakeSurvives(entries: seq<Name>, look: Look, k: nat, room: nat)
    requires k <= |entries|
    ensures var t := Take(entries, look, k, room); var end := After(t.packed, k);
            end <= |entries| && t.packed == Survivors(entries, look, k, end) && TotalCost(t.packed) <= room
    decreases |entries| - k
  {
    TakeSpan(entries, look, k, room);
    if k < |entries| {
      if k !in look {
        TakeSurvives(entries, look, k + 1, room);
        TakeSpan(entries, look, k + 1, room);
      } else if NameFits(entries[k]) && Cost(entries[k]) <= room {
        var rest := Take(entries, look, k + 1, room - Cost(entries[k])).packed;
        TakeSurvives(entries, look, k + 1, room - Cost(entries[k]));
        AfterFront(entries, look, k, rest);
        assert ([EntryAt(entries, look, k)] + rest)[1..] == rest;
      }
    }
  }

  lemma {:induction false} TakeStops(entries: seq<Name>, look: Look, k: nat, room: nat)
    requires k <= |entries|
    ensures var t := Take(entries, look, k, room);
            && (t.stop < |entries| ==> t.stop in look && t.unsayable == !NameFits(entries[t.stop]))
            && (t.stop >= |entries| ==> !t.unsayable)
            && (t.stop < |entries| && !t.unsayable ==> TotalCost(t.packed) + Cost(entries[t.stop]) > room)
    decreases |entries| - k
  {
    if k < |entries| {
      if k !in look {
        TakeStops(entries, look, k + 1, room);
      } else if NameFits(entries[k]) && Cost(entries[k]) <= room {
        var rest := Take(entries, look, k + 1, room - Cost(entries[k])).packed;
        TakeStops(entries, look, k + 1, room - Cost(entries[k]));
        assert ([EntryAt(entries, look, k)] + rest)[1..] == rest;
      }
    }
  }

  // A page is exactly the survivors up to its last entry, within the budget; what
  // it passed after that entry was gone; and it stops early only for want of room.
  lemma TakeIs(entries: seq<Name>, look: Look, k: nat, room: nat)
    requires k <= |entries|
    ensures var t := Take(entries, look, k, room); var end := After(t.packed, k);
            && k <= end <= t.stop <= |entries| && (t.packed != [] ==> k < end)
            && t.packed == Survivors(entries, look, k, end) && TotalCost(t.packed) <= room
            && (forall j: nat :: end <= j < t.stop ==> j !in look)
            && (t.stop < |entries| ==> t.stop in look && t.unsayable == !NameFits(entries[t.stop]))
            && (t.stop == |entries| ==> !t.unsayable)
            && (t.stop < |entries| && !t.unsayable ==> TotalCost(t.packed) + Cost(entries[t.stop]) > room)
  {
    hide Take, Survivors, After, TotalCost;
    TakeSpan(entries, look, k, room);
    TakeSurvives(entries, look, k, room);
    TakeStops(entries, look, k, room);
  }

  // A page comes back empty and without error only at the end of the directory,
  // and fails for want of room exactly when its first survivor is too big.
  lemma RoomyPage(entries: seq<Name>, look: Look, k: nat, budget: nat)
    requires k <= |entries| && Roomy(entries, budget)
    ensures Reply(entries, Take(entries, look, k, budget)) == Ok(Take(entries, look, k, budget).packed)
    ensures var t := Take(entries, look, k, budget);
            t.packed == [] ==> t.stop == |entries| && forall j: nat :: k <= j < |entries| ==> j !in look
  {
    TakeIs(entries, look, k, budget);
  }

  lemma TooSmall(entries: seq<Name>, look: Look, k: nat, budget: nat)
    requires k <= |entries| && forall j :: 0 <= j < |entries| ==> NameFits(entries[j])
    ensures Reply(entries, Take(entries, look, k, budget)) == Err(EINVAL) <==>
            exists j: nat :: k <= j < |entries| && j in look && Cost(entries[j]) > budget &&
                             forall i: nat :: k <= i < j ==> i !in look
  {
    TakeIs(entries, look, k, budget);
    var t := Take(entries, look, k, budget);
    if t.packed != [] {
      var _ := FirstTaken(entries, look, k, budget);
    }
  }

  lemma {:induction false} FirstTaken(entries: seq<Name>, look: Look, k: nat, room: nat) returns (j: nat)
    requires k <= |entries| && Take(entries, look, k, room).packed != []
    ensures k <= j < |entries| && j in look && Cost(entries[j]) <= room && forall i: nat :: k <= i < j ==> i !in look
    decreases |entries| - k
  {
    if k in look { j := k; } else { j := FirstTaken(entries, look, k + 1, room); }
  }

  // ---------- cookies ----------

  // The offsets of a fid's cursor are cookies it packed, each resuming after the
  // entry it came with.
  predicate GoodCursor(cursor: Option<Cursor>)
  {
    cursor.Some? ==> forall o: nat :: o in cursor.value.offsets ==>
      cursor.value.offsets[o] == o && 0 < o <= |cursor.value.entries|
  }

  lemma {:induction false} NotedAllIs(cursor: Option<Cursor>, ds: seq<Dirent>)
    requires cursor.Some? && forall d :: d in ds ==> d.offset > 0
    ensures NotedAll(cursor, ds).Some? && NotedAll(cursor, ds).value.entries == cursor.value.entries
    ensures forall o: nat :: o in NotedAll(cursor, ds).value.offsets <==>
              o in cursor.value.offsets || exists d :: d in ds && d.offset == o
    ensures forall o: nat :: o in NotedAll(cursor, ds).value.offsets ==>
              NotedAll(cursor, ds).value.offsets[o] ==
              if exists d :: d in ds && d.offset == o then o else cursor.value.offsets[o]
  {
    if ds != [] {
      var front, d := ds[..|ds| - 1], ds[|ds| - 1];
      assert ds == front + [d];
      NotedAllIs(cursor, front);
    }
  }

  lemma {:induction false} SurvivorOffsets(entries: seq<Name>, look: Look, k: nat, end: nat)
    requires end <= |entries|
    ensures forall d :: d in Survivors(entries, look, k, end) ==> k < d.offset <= end && d.name == entries[d.offset - 1]
    ensures forall i, j :: 0 <= i < j < |Survivors(entries, look, k, end)| ==>
              Survivors(entries, look, k, end)[i].offset < Survivors(entries, look, k, end)[j].offset
    decreases end - k
  {
    if k < end { SurvivorOffsets(entries, look, k + 1, end); }
  }

  lemma PageKeepsCursor(cursor: Cursor, k: nat, look: Look, budget: nat)
    requires GoodCursor(Some(cursor)) && k <= |cursor.entries|
    ensures var after := PageOf(Some(cursor), Page(cursor.entries, k), look, budget).1;
            && GoodCursor(after) && after.Some? && after.value.entries == cursor.entries
            && forall o: nat :: o in after.value.offsets <==>
                 o in cursor.offsets || exists d :: d in Take(cursor.entries, look, k, budget).packed && d.offset == o
  {
    hide Take, Survivors;
    var ds := Take(cursor.entries, look, k, budget).packed;
    TakeIs(cursor.entries, look, k, budget);
    SurvivorOffsets(cursor.entries, look, k, After(ds, k));
    NotedAllIs(Some(cursor), ds);
  }

  // What one read does to the offsets a fid accepts: one it was not given is
  // refused and changes nothing, a rewind forgets them all, and a page adds its
  // own and no others.
  lemma ReadKeepsCursor(cursor: Option<Cursor>, offset: nat, listing: Result<seq<Name>>, look: Look, budget: nat)
    requires GoodCursor(cursor)
    ensures GoodCursor(Read(cursor, offset, listing, look, budget).1)
    ensures offset != 0 && (cursor.None? || offset !in cursor.value.offsets) ==>
              Read(cursor, offset, listing, look, budget) == (Err(EINVAL), cursor)
    ensures offset == 0 && listing.Ok? ==>
              var after := Read(cursor, offset, listing, look, budget).1;
              && after.Some? && after.value.entries == listing.value
              && forall o: nat :: o in after.value.offsets <==>
                 exists d :: d in Take(listing.value, look, 0, budget).packed && d.offset == o
  {
    hide Take, PageOf;
    match Resumed(cursor, offset) {
      case Err(_) =>
      case Ok(Some(page)) => PageKeepsCursor(cursor.value, page.index, look, budget);
      case Ok(None) => if listing.Ok? { PageKeepsCursor(Cursor(listing.value, map[]), 0, look, budget); }
    }
  }

  // ---------- a whole run ----------

  // Pages until one is empty or refused, each from the last cookie of the one before.
  function Client(cursor: Option<Cursor>, offset: nat, listing: seq<Name>, asks: seq<Ask>): seq<seq<Dirent>>
    decreases |asks|
  {
    if asks == [] then []
    else
      var (reply, after) := Read(cursor, offset, Ok(listing), asks[0].look, asks[0].budget);
      match reply
      case Err(_) => []
      case Ok(ds) => if ds == [] then [[]] else [ds] + Client(after, After(ds, offset), listing, asks[1..])
  }

  // Whether each entry survived, as the page that passed it found.
  ghost function Decided(entries: seq<Name>, k: nat, asks: seq<Ask>): Look
    decreases |asks|
  {
    if asks == [] then map[]
    else
      var ds := Take(entries, asks[0].look, k, asks[0].budget).packed;
      if ds == [] then map[]
      else
        var end := After(ds, k);
        (map j: nat | j in asks[0].look && k <= j < end :: asks[0].look[j]) + Decided(entries, end, asks[1..])
  }

  lemma {:induction false} DecidedFrom(entries: seq<Name>, k: nat, asks: seq<Ask>)
    requires k <= |entries|
    ensures forall j: nat :: j in Decided(entries, k, asks) ==> k <= j
    decreases |asks|
  {
    if asks != [] {
      TakeIs(entries, asks[0].look, k, asks[0].budget);
      DecidedFrom(entries, After(Take(entries, asks[0].look, k, asks[0].budget).packed, k), asks[1..]);
    }
  }

  lemma {:induction false} SurvivorsJoin(entries: seq<Name>, look: Look, k: nat, m: nat, end: nat)
    requires k <= m <= end <= |entries|
    ensures Survivors(entries, look, k, end) == Survivors(entries, look, k, m) + Survivors(entries, look, m, end)
    decreases m - k
  {
    if k < m { SurvivorsJoin(entries, look, k + 1, m, end); }
  }

  lemma {:induction false} SurvivorsSame(entries: seq<Name>, look: Look, other: Look, k: nat, end: nat)
    requires end <= |entries|
    requires forall j: nat :: k <= j < end ==> AgreeAt(look, other, j)
    ensures Survivors(entries, look, k, end) == Survivors(entries, other, k, end)
    decreases end - k
  {
    if k < end {
      assert AgreeAt(look, other, k);
      SurvivorsSame(entries, look, other, k + 1, end);
    }
  }

  lemma {:induction false} SurvivorsNone(entries: seq<Name>, look: Look, k: nat, end: nat)
    requires end <= |entries| && forall j: nat :: k <= j < end ==> j !in look
    ensures Survivors(entries, look, k, end) == []
    decreases end - k
  {
    if k < end { SurvivorsNone(entries, look, k + 1, end); }
  }

  ghost predicate AllRoomy(entries: seq<Name>, asks: seq<Ask>) { forall a :: a in asks ==> Roomy(entries, a.budget) }

  // Said of the rest of a run, from the cookie the client holds.
  ghost predicate Exact(pages: seq<seq<Dirent>>, entries: seq<Name>, k: nat, asks: seq<Ask>)
    requires k <= |entries|
  {
    && Concat(pages) == Survivors(entries, Decided(entries, k, asks), k, |entries|)
    && 0 < |pages| <= |entries| - k + 1 && pages[|pages| - 1] == []
    && forall p :: 0 <= p < |pages| && p < |asks| ==> TotalCost(pages[p]) <= asks[p].budget
  }

  lemma {:induction false} RunIsExact(cursor: Option<Cursor>, k: nat, listing: seq<Name>, asks: seq<Ask>)
    requires k <= |listing| && AllRoomy(listing, asks) && |asks| > |listing| - k
    requires k != 0 ==>
               && cursor.Some? && cursor.value.entries == listing
               && k in cursor.value.offsets && cursor.value.offsets[k] == k
    ensures Exact(Client(cursor, k, listing, asks), listing, k, asks)
    decreases |asks|
  {
    var look, budget := asks[0].look, asks[0].budget;
    var start := if k == 0 then Some(Cursor(listing, map[])) else cursor;
    var ds := Take(listing, look, k, budget).packed;
    var end := After(ds, k);
    assert asks[0] in asks;
    TakeIs(listing, look, k, budget);
    RoomyPage(listing, look, k, budget);
    assert Read(cursor, k, Ok(listing), look, budget) == (Ok(ds), NotedAll(start, ds));
    if ds == [] {
      SurvivorsNone(listing, Decided(listing, k, asks), k, |listing|);
      assert Concat([[]]) == [];
    } else {
      SurvivorOffsets(listing, look, k, end);
      NotedAllIs(start, ds);
      assert ds[|ds| - 1] in ds;
      RunIsExact(NotedAll(start, ds), end, listing, asks[1..]);
      PageThenRest(listing, k, asks, Client(NotedAll(start, ds), end, listing, asks[1..]));
    }
  }

  lemma DecidedAgrees(entries: seq<Name>, k: nat, asks: seq<Ask>, j: nat)
    requires k <= |entries| && k <= j && asks != [] && Take(entries, asks[0].look, k, asks[0].budget).packed != []
    ensures var end := After(Take(entries, asks[0].look, k, asks[0].budget).packed, k);
            if j < end then AgreeAt(asks[0].look, Decided(entries, k, asks), j)
            else end <= |entries| && AgreeAt(Decided(entries, end, asks[1..]), Decided(entries, k, asks), j)
  {
    var end := After(Take(entries, asks[0].look, k, asks[0].budget).packed, k);
    TakeIs(entries, asks[0].look, k, asks[0].budget);
    hide Take;
    DecidedFrom(entries, end, asks[1..]);
  }

  lemma PageThenRest(entries: seq<Name>, k: nat, asks: seq<Ask>, rest: seq<seq<Dirent>>)
    requires k <= |entries| && asks != [] && Take(entries, asks[0].look, k, asks[0].budget).packed != []
    requires var end := After(Take(entries, asks[0].look, k, asks[0].budget).packed, k);
             end <= |entries| && Exact(rest, entries, end, asks[1..])
    ensures Exact([Take(entries, asks[0].look, k, asks[0].budget).packed] + rest, entries, k, asks)
  {
    var look := asks[0].look;
    var ds := Take(entries, look, k, asks[0].budget).packed;
    var end, decided := After(ds, k), Decided(entries, k, asks);
    var pages := [ds] + rest;
    hide Take, Decided, Survivors, After, AgreeAt;
    TakeIs(entries, look, k, asks[0].budget);
    forall j: nat | k <= j < end ensures AgreeAt(look, decided, j) { DecidedAgrees(entries, k, asks, j); }
    forall j: nat | end <= j ensures AgreeAt(Decided(entries, end, asks[1..]), decided, j) {
      DecidedAgrees(entries, k, asks, j);
    }
    SurvivorsJoin(entries, decided, k, end, |entries|);
    SurvivorsSame(entries, look, decided, k, end);
    SurvivorsSame(entries, Decided(entries, end, asks[1..]), decided, end, |entries|);
    assert pages[1..] == rest;
    forall p | 0 <= p < |pages| && p < |asks| ensures TotalCost(pages[p]) <= asks[p].budget {
      if p > 0 { assert pages[p] == rest[p - 1] && asks[p] == asks[1..][p - 1]; }
    }
  }

  // From a rewind, with any budgets that each fit one entry and whatever vanishes
  // meanwhile: the pages are within their budgets, end with an empty one, and
  // together are the surviving entries of the listing, each once and in order.
  lemma PagingIsExact(cursor: Option<Cursor>, listing: seq<Name>, asks: seq<Ask>)
    requires AllRoomy(listing, asks) && |asks| > |listing|
    ensures Exact(Client(cursor, 0, listing, asks), listing, 0, asks)
    ensures forall j: nat :: j < |listing| ==> FoundBySome(asks, Decided(listing, 0, asks), j)
  {
    RunIsExact(cursor, 0, listing, asks);
    forall j: nat | j < |listing| ensures FoundBySome(asks, Decided(listing, 0, asks), j) {
      var _ := DecidedBySomeone(listing, 0, asks, j);
    }
  }

  // Some page's look found the entry as decided.
  ghost predicate FoundBySome(asks: seq<Ask>, decided: Look, j: nat)
  {
    exists p: nat :: p < |asks| && AgreeAt(asks[p].look, decided, j)
  }

  // Two looks that found the same of one entry.
  predicate AgreeAt(look: Look, other: Look, j: nat)
  {
    (j in look <==> j in other) && (j in look ==> look[j] == other[j])
  }

  lemma {:induction false} DecidedBySomeone(entries: seq<Name>, k: nat, asks: seq<Ask>, j: nat) returns (p: nat)
    requires k <= j < |entries| && AllRoomy(entries, asks) && |asks| > |entries| - k
    ensures p < |asks| && AgreeAt(asks[p].look, Decided(entries, k, asks), j)
    decreases |asks|
  {
    var look, budget := asks[0].look, asks[0].budget;
    var end := After(Take(entries, look, k, budget).packed, k);
    assert asks[0] in asks;
    TakeIs(entries, look, k, budget);
    RoomyPage(entries, look, k, budget);
    p := 0;
    if Take(entries, look, k, budget).packed != [] {
      DecidedAgrees(entries, k, asks, j);
      if j >= end {
        var q := DecidedBySomeone(entries, end, asks[1..], j);
        p := q + 1;
      }
    }
  }

  // A directory nothing vanishes from is listed whole.
  lemma StableListing(cursor: Option<Cursor>, listing: seq<Name>, asks: seq<Ask>, look: Look)
    requires AllRoomy(listing, asks) && |asks| > |listing| && forall a :: a in asks ==> a.look == look
    ensures Concat(Client(cursor, 0, listing, asks)) == Survivors(listing, look, 0, |listing|)
  {
    PagingIsExact(cursor, listing, asks);
    forall j: nat | j < |listing| ensures AgreeAt(Decided(listing, 0, asks), look, j) {
      assert FoundBySome(asks, Decided(listing, 0, asks), j);
    }
    SurvivorsSame(listing, Decided(listing, 0, asks), look, 0, |listing|);
  }

  // ---------- refused pages ----------

  // A page reaches a name no reply can hold, past survivors that all fit it.
  ghost predicate UnsayableAt(entries: seq<Name>, look: Look, k: nat, room: nat, m: nat)
  {
    && k <= m < |entries| && m in look && !NameFits(entries[m])
    && (forall j: nat :: k <= j < m && j in look ==> NameFits(entries[j]))
    && TotalCost(Survivors(entries, look, k, m)) <= room
  }

  lemma CostFront(d: Dirent, ds: seq<Dirent>)
    ensures TotalCost([d] + ds) == Cost(d.name) + TotalCost(ds)
  {
    assert ([d] + ds)[1..] == ds;
  }

  lemma NamedAt(entries: seq<Name>, look: Look, k: nat)
    requires k < |entries| && k in look
    ensures EntryAt(entries, look, k).name == entries[k]
  {
  }

  lemma {:induction false} UnsayableTakes(entries: seq<Name>, look: Look, k: nat, room: nat, m: nat)
    requires UnsayableAt(entries, look, k, room, m)
    ensures m < |entries| && Take(entries, look, k, room) == Taken(Survivors(entries, look, k, m), m, true)
    decreases |entries| - k
  {
    if k < m {
      hide EntryAt, Cost;
      var behind := Survivors(entries, look, k + 1, m);
      if k in look {
        CostFront(EntryAt(entries, look, k), behind);
        NamedAt(entries, look, k);
        UnsayableTakes(entries, look, k + 1, room - Cost(entries[k]), m);
      } else {
        assert [] + behind == behind;
        UnsayableTakes(entries, look, k + 1, room, m);
      }
    }
  }

  lemma StopsHere(entries: seq<Name>, look: Look, k: nat, room: nat)
    requires k < |entries| && k in look && !NameFits(entries[k])
    ensures UnsayableAt(entries, look, k, room, k)
  {
    hide NameFits;
  }

  lemma StopsFurther(entries: seq<Name>, look: Look, k: nat, room: nat, m: nat)
    requires k < |entries| && (k in look ==> NameFits(entries[k]) && Cost(entries[k]) <= room)
    requires UnsayableAt(entries, look, k + 1, if k in look then room - Cost(entries[k]) else room, m)
    ensures UnsayableAt(entries, look, k, room, m)
  {
    hide NameFits, Cost, EntryAt;
    var behind := Survivors(entries, look, k + 1, m);
    if k in look {
      CostFront(EntryAt(entries, look, k), behind);
      NamedAt(entries, look, k);
    } else {
      assert [] + behind == behind;
    }
  }

  lemma {:induction false} UnsayableStops(entries: seq<Name>, look: Look, k: nat, room: nat)
    requires Take(entries, look, k, room).unsayable
    ensures UnsayableAt(entries, look, k, room, Take(entries, look, k, room).stop)
    decreases |entries| - k
  {
    hide NameFits, Cost, EntryAt, UnsayableAt;
    if k !in look {
      UnsayableStops(entries, look, k + 1, room);
      StopsFurther(entries, look, k, room, Take(entries, look, k, room).stop);
    } else if NameFits(entries[k]) {
      UnsayableStops(entries, look, k + 1, room - Cost(entries[k]));
      StopsFurther(entries, look, k, room, Take(entries, look, k, room).stop);
    } else {
      StopsHere(entries, look, k, room);
    }
  }

  // Which is how a page comes to stop at one, having packed the survivors before it.
  lemma UnsayableIff(entries: seq<Name>, look: Look, k: nat, room: nat)
    ensures Take(entries, look, k, room).unsayable <==> exists m: nat :: UnsayableAt(entries, look, k, room, m)
    ensures forall m: nat :: UnsayableAt(entries, look, k, room, m) ==>
              m < |entries| && Take(entries, look, k, room).packed == Survivors(entries, look, k, m)
  {
    if Take(entries, look, k, room).unsayable {
      UnsayableStops(entries, look, k, room);
    }
    forall m: nat | UnsayableAt(entries, look, k, room, m)
      ensures Take(entries, look, k, room) == Taken(Survivors(entries, look, k, m), m, true)
    {
      UnsayableTakes(entries, look, k, room, m);
    }
  }

  // An entry just packed that the fid was not yet resumed after.
  ghost predicate Unshown(cursor: Cursor, ds: seq<Dirent>) { exists d :: d in ds && d.offset !in cursor.offsets }

  // A page answered with an error leaves the fid accepting more than before exactly
  // if a name no reply can hold stopped it behind an entry not shown before, and
  // any other error leaves the cursor as it was.
  lemma RefusedPageRecords(cursor: Cursor, k: nat, look: Look, budget: nat)
    requires GoodCursor(Some(cursor)) && k <= |cursor.entries|
    ensures var (reply, after) := PageOf(Some(cursor), Page(cursor.entries, k), look, budget);
            var t := Take(cursor.entries, look, k, budget);
            reply.Err? ==>
              && (reply.error == ENAMETOOLONG <==> t.unsayable)
              && (after != Some(cursor) <==> reply.error == ENAMETOOLONG && Unshown(cursor, t.packed))
  {
    hide Take;
    var t := Take(cursor.entries, look, k, budget);
    var (reply, after) := PageOf(Some(cursor), Page(cursor.entries, k), look, budget);
    PageKeepsCursor(cursor, k, look, budget);
    if reply.Err? && reply.error != ENAMETOOLONG {
      assert t.packed == [];
    } else if !Unshown(cursor, t.packed) {
      SameOffsets(cursor, after.value);
    }
  }

  // Said of the directory alone: a page is refused and leaves more offsets to resume at
  // exactly when it reaches a name no reply can hold past survivors that fit it and of
  // which one was not shown before.
  lemma RefusedAndRecordedIff(cursor: Cursor, k: nat, look: Look, budget: nat)
    requires GoodCursor(Some(cursor)) && k <= |cursor.entries|
    ensures var (reply, after) := PageOf(Some(cursor), Page(cursor.entries, k), look, budget);
            (reply.Err? && after != Some(cursor)) <==>
            exists m: nat :: UnsayableAt(cursor.entries, look, k, budget, m) &&
                             m < |cursor.entries| && Unshown(cursor, Survivors(cursor.entries, look, k, m))
  {
    hide Take, Survivors, UnsayableAt, Unshown, PageOf;
    UnsayableIff(cursor.entries, look, k, budget);
    RefusedPageRecords(cursor, k, look, budget);
    UnsayableIsRefused(cursor, k, look, budget);
  }

  lemma UnsayableIsRefused(cursor: Cursor, k: nat, look: Look, budget: nat)
    ensures Take(cursor.entries, look, k, budget).unsayable ==>
              PageOf(Some(cursor), Page(cursor.entries, k), look, budget).0 == Err(ENAMETOOLONG)
  {
    hide Take;
  }

  lemma SameOffsets(cursor: Cursor, other: Cursor)
    requires GoodCursor(Some(cursor)) && GoodCursor(Some(other)) && cursor.entries == other.entries
    requires forall o: nat :: o in cursor.offsets <==> o in other.offsets
    ensures cursor == other
  {
    assert cursor.offsets == other.offsets;
  }

  // A rewind that is answered with an error leaves an offset to resume at exactly
  // if it got to such a name with something packed.
  lemma RefusedRewindRecords(cursor: Option<Cursor>, listing: seq<Name>, look: Look, budget: nat)
    ensures var (reply, after) := Read(cursor, 0, Ok(listing), look, budget);
            var t := Take(listing, look, 0, budget);
            reply.Err? ==>
              && after.Some? && (after.value.offsets != map[] <==> reply.error == ENAMETOOLONG && t.packed != [])
  {
    RefusedPageRecords(Cursor(listing, map[]), 0, look, budget);
    var t := Take(listing, look, 0, budget);
    NotedAllKeepsListing(Some(Cursor(listing, map[])), t.packed);
    if t.packed != [] { assert t.packed[0] in t.packed; }
  }

  lemma {:induction false} NotedAllKeepsListing(cursor: Option<Cursor>, ds: seq<Dirent>)
    requires cursor.Some?
    ensures NotedAll(cursor, ds).Some? && NotedAll(cursor, ds).value.entries == cursor.value.entries
  {
    if ds != [] { NotedAllKeepsListing(cursor, ds[..|ds| - 1]); }
  }

  // For one, an entry that fits and then a name too long: the page is refused, and
  // the offset behind its first entry is accepted all the same.
  lemma RefusedPageResumes(name: Name, attr: Attr)
    requires NameFits(name)
    ensures var long: Name := seq(0x1_0000, _ => 0);
            var look := map[0 := attr, 1 := attr];
            var (reply, after) := Read(None, 0, Ok([name, long]), look, Cost(name));
            && reply == Err(ENAMETOOLONG) && Resumed(after, 1) == Ok(Some(Page([name, long], 1)))
  {
    var long: Name := seq(0x1_0000, _ => 0);
    var look := map[0 := attr, 1 := attr];
    var d := EntryAt([name, long], look, 0);
    assert Take([name, long], look, 1, 0) == Taken([], 1, true);
    assert Take([name, long], look, 0, Cost(name)) == Taken([d], 1, true);
    var start := Some(Cursor([name, long], map[]));
    assert [d][..0] == [] && NotedAll(start, []) == start && NotedAll(start, [d]) == Noted(start, 1, 1);
  }
}
