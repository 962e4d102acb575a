// Directory reading: pages cut to a byte budget from a frozen listing, resumed by
// the cookie of the last entry a client was shown.
module Readdir {
  import opened Wrappers
  import opened Bytes
  import opened Messages
  import opened Fids

  // What an `lstat` tells of an entry that still exists.
  datatype Attr = Attr(qid: Qid, typ: nat)

  // Which entries of a listing still exist, by index, when a page looks at them.
  type Look = map<nat, Attr>

  predicate LookFits(look: Look) { forall k :: k in look ==> QidFits(look[k].qid) && U8(look[k].typ) }

  predicate Countable(entries: seq<Name>) { |entries| < 0x1_0000_0000_0000_0000 }

  function Cost(name: Name): nat { 24 + |name| }

  // The entry at an index, and the cookie that resumes after it.
  function EntryAt(entries: seq<Name>, look: Look, k: nat): Dirent
    requires k < |entries| && k in look
  {
    Dirent(look[k].qid, k + 1, look[k].typ, entries[k])
  }

  // What goes into a page, where it stopped, and whether a name stopped it that no
  // reply can ever hold.
  datatype Taken = Taken(packed: seq<Dirent>, stop: nat, unsayable: bool)

  function Take(entries: seq<Name>, look: Look, k: nat, room: nat): (t: Taken)
    ensures t.stop >= k && |t.packed| <= t.stop - k
    decreases |entries| - k
  {
    if k >= |entries| then Taken([], k, false)
    else if k !in look then Take(entries, look, k + 1, room)
    else if !NameFits(entries[k]) then Taken([], k, true)
    else if Cost(entries[k]) > room then Taken([], k, false)
    else
      var t := Take(entries, look, k + 1, room - Cost(entries[k]));
      Taken([EntryAt(entries, look, k)] + t.packed, t.stop, t.unsayable)
  }

  function NotedAll(cursor: Option<Cursor>, ds: seq<Dirent>): Option<Cursor>
  {
    if ds == [] then cursor
    else
      var d := ds[|ds| - 1];
      Noted(NotedAll(cursor, ds[..|ds| - 1]), d.offset, d.offset)
  }

  // An empty reply means the end of the directory, so a page that is empty for any
  // other reason is an error.
  function Reply(entries: seq<Name>, t: Taken): Result<seq<Dirent>>
  {
    if t.unsayable then Err(ENAMETOOLONG)
    else if t.packed == [] && t.stop < |entries| then Err(EINVAL)
    else Ok(t.packed)
  }

  // One `Treaddir` on a fid: its reply, and the cursor it leaves.
  function Read(cursor: Option<Cursor>, offset: nat, listing: Result<seq<Name>>, look: Look, budget: nat):
    (Result<seq<Dirent>>, Option<Cursor>)
  {
    match Resumed(cursor, offset)
    case Err(e) => (Err(e), cursor)
    case Ok(Some(page)) => PageOf(cursor, page, look, budget)
    case Ok(None) =>
      if listing.Err? then (Err(listing.error), None)
      else PageOf(Some(Cursor(listing.value, map[])), Page(listing.value, 0), look, budget)
  }

  function PageOf(cursor: Option<Cursor>, page: Page, look: Look, budget: nat): (Result<seq<Dirent>>, Option<Cursor>)
  {
    var t := Take(page.entries, look, page.index, budget);
    (Reply(page.entries, t), NotedAll(cursor, t.packed))
  }

  // ---------- the handler ----------

  lemma NotedSnoc(cursor: Option<Cursor>, ds: seq<Dirent>, d: Dirent)
    ensures NotedAll(cursor, ds + [d]) == Noted(NotedAll(cursor, ds), d.offset, d.offset)
  {
    assert (ds + [d])[..|ds|] == ds;
  }

  // `listing` is what the driver's `readdir` answers if it is asked, `look` what
  // its `lstat` says of the entries this page reaches.
  method ReadDirectory(table: FidTable, fid: nat, offset: nat, budget: nat, listing: Result<seq<Name>>, look: Look)
    returns (r: Result<seq<Byte>>)
    requires table.Valid() && LookFits(look) && (listing.Ok? ==> Countable(listing.value))
    requires fid in table.fids && table.fids[fid].cursor.Some? ==> Countable(table.fids[fid].cursor.value.entries)
    modifies if fid in table.fids then {table.fids[fid]} else {}
    ensures table.Valid()
    ensures fid !in table.fids || table.fids[fid].open.None? ==> r == Err(EBADF)
    ensures fid in table.fids && table.fids[fid].open == Some(false) ==> r == Err(ENOTDIR)
    ensures fid in table.fids && table.fids[fid].open != Some(true) ==>
            table.fids[fid].cursor == old(table.fids[fid].cursor)
    ensures fid in table.fids ==>
            table.fids[fid].path == old(table.fids[fid].path) && table.fids[fid].open == old(table.fids[fid].open)
    ensures fid in table.fids && table.fids[fid].open == Some(true) ==>
              var answer := Read(old(table.fids[fid].cursor), offset, listing, look, budget);
              table.fids[fid].cursor == answer.1 &&
              match answer.0
              case Err(e) => r == Err(e)
              case Ok(ds) => r.Ok? && TakeDirents(r.value) == Some(ds) && |r.value| <= budget
  {
    hide PutDirents, TakeDirents, Take;
    var found := table.Require(fid);
    if found.Err? {
      return Err(EBADF);
    }
    var entry := found.value;
    if entry.open.None? {
      return Err(EBADF);
    }
    if !entry.open.value {
      return Err(ENOTDIR);
    }
    var resumed := table.Resume(entry, offset);
    var page: Page;
    match resumed {
      case Err(e) => return Err(e);
      case Ok(Some(p)) => page := p;
      case Ok(None) =>
        if listing.Err? {
          return Err(listing.error);
        }
        page := table.Snapshot(entry, listing.value);
    }
    r := FillPage(table, entry, page, budget, look);
  }

  method FillPage(table: FidTable, entry: Fid, page: Page, budget: nat, look: Look) returns (r: Result<seq<Byte>>)
    requires LookFits(look) && Countable(page.entries)
    modifies entry`cursor
    ensures var answer := PageOf(old(entry.cursor), page, look, budget);
            entry.cursor == answer.1 &&
            match answer.0
            case Err(e) => r == Err(e)
            case Ok(ds) => r.Ok? && TakeDirents(r.value) == Some(ds) && |r.value| <= budget
  {
    hide PutDirents, TakeDirents, Take, NotedAll, Noted, EntryAt;
    var packer := new DirentPacker(budget);
    var index := page.index;
    ghost var whole := Take(page.entries, look, index, budget);
    assert [] + whole.packed == whole.packed;
    NotedNothing(entry.cursor);
    while index < |page.entries|
      invariant packer.Valid() && packer.maxSize == budget && fresh(packer) && fresh(packer.writer) &&
                fresh(packer.writer.bytes)
      invariant page.index <= index
      invariant entry.cursor == NotedAll(old(entry.cursor), packer.packed)
      invariant whole == Joined(packer.packed, Take(page.entries, look, index, budget - packer.writer.length))
      decreases |page.entries| - index
    {
      TakeStep(page.entries, look, index, budget - packer.writer.length, packer.packed);
      if index in look {
        ghost var packed := packer.packed;
        var d := EntryAt(page.entries, look, index);
        EntryFits(page.entries, look, index);
        var added := packer.Add(d);
        if added.Err? {
          return Err(ENAMETOOLONG);
        }
        if !added.value { break; }
        NotedSnoc(old(entry.cursor), packed, d);
        table.NoteOffset(entry, index + 1, index + 1);
      }
      index := index + 1;
    }
    PageEnds(page.entries, look, index, budget - packer.writer.length, packer.packed);
    if packer.count == 0 && index < |page.entries| {
      return Err(EINVAL);
    }
    var block := packer.Block();
    r := Ok(block);
  }

  // What is packed already, in front of what is taken next.
  function Joined(packed: seq<Dirent>, t: Taken): Taken { t.(packed := packed + t.packed) }

  lemma NotedNothing(cursor: Option<Cursor>)
    ensures NotedAll(cursor, []) == cursor
  {
  }

  lemma EntryFits(entries: seq<Name>, look: Look, k: nat)
    requires k < |entries| && k in look && LookFits(look) && Countable(entries)
    ensures var d := EntryAt(entries, look, k);
            QidFits(d.qid) && U64(d.offset) && U8(d.typ) && d.name == entries[k] && d.offset == k + 1
  {
  }

  lemma TakeStep(entries: seq<Name>, look: Look, k: nat, room: nat, packed: seq<Dirent>)
    requires k < |entries|
    ensures Joined(packed, Take(entries, look, k, room)) ==
            if k !in look then Joined(packed, Take(entries, look, k + 1, room))
            else if !NameFits(entries[k]) then Taken(packed, k, true)
            else if Cost(entries[k]) > room then Taken(packed, k, false)
            else Joined(packed + [EntryAt(entries, look, k)], Take(entries, look, k + 1, room - Cost(entries[k])))
  {
    hide EntryAt;
    assert packed + [] == packed;
    if k in look && Cost(entries[k]) <= room {
      var t := Take(entries, look, k + 1, room - Cost(entries[k]));
      assert packed + ([EntryAt(entries, look, k)] + t.packed) == packed + [EntryAt(entries, look, k)] + t.packed;
    }
  }

  lemma PageEnds(entries: seq<Name>, look: Look, k: nat, room: nat, packed: seq<Dirent>)
    ensures k >= |entries| ==> Joined(packed, Take(entries, look, k, room)) == Taken(packed, k, false)
  {
    assert packed + [] == packed;
  }
}
