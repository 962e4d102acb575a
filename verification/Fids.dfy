// The fid table of a 9P session: fids the client chose, the readdir cursors on
// them, and the qid identities of the files they name.
module Fids {
  import opened Wrappers
  import opened Keys
  import opened Paths
  import opened PathTables
  import opened Messages

  const FID_LIMIT: nat := 0xFFFF_FFFF
  const FIRST_QID_PATH: nat := 1

  // A frozen listing, and where each cookie handed out for it resumes.
  datatype Cursor = Cursor(entries: seq<Name>, offsets: map<nat, nat>)

  datatype Page = Page(entries: seq<Name>, index: nat)

  // What an offset is answered with: a page, or nothing when it starts over.
  function Resumed(cursor: Option<Cursor>, offset: nat): Result<Option<Page>>
  {
    if offset == 0 then Ok(None)
    else if cursor.None? || offset !in cursor.value.offsets then Err(EINVAL)
    else Ok(Some(Page(cursor.value.entries, cursor.value.offsets[offset])))
  }

  // A cookie packed for the cursor in place; zero is never one, and without a
  // cursor there is nothing to resume.
  function Noted(cursor: Option<Cursor>, offset: nat, index: nat): Option<Cursor>
  {
    if offset == 0 || cursor.None? then cursor
    else Some(cursor.value.(offsets := cursor.value.offsets[offset := index]))
  }

  class Fid {
    const number: nat
    var path: string
    var open: Option<bool>  // opened, and whether as a directory
    var cursor: Option<Cursor>

    constructor (number: nat, path: string)
      ensures this.number == number && this.path == Normalize(path) && Normal(this.path)
      ensures open.None? && cursor.None?
    {
      NormalizeIdempotent(path);
      this.number, this.path, open, cursor := number, Normalize(path), None, None;
    }

    // Moving a fid drops its cursor; naming it where it is does not.
    method SetPath(next: string)
      requires Normal(path)
      modifies this`path, this`cursor
      ensures path == Normalize(next) && Normal(path)
      ensures cursor == if path == old(path) then old(cursor) else None
    {
      NormalizeIdempotent(next);
      var normalized := Normalize(next);
      if normalized != path {
        path := normalized;
        cursor := None;
      }
    }
  }

  class FidTable {
    var fids: map<nat, Fid>
    const qids: PathTable<int>
    const useDriverIno: bool

    ghost predicate Valid()
      reads this, fids.Values, qids
    {
      && qids.Valid() && NormalPaths(qids.State())
      && forall n :: n in fids ==> fids[n].number == n && n < FID_LIMIT && Normal(fids[n].path)
    }

    constructor (useDriverIno: bool)
      ensures Valid() && fids == map[] && fresh(qids) && this.useDriverIno == useDriverIno
      ensures qids.State() == Table(map[], map[], map[], FIRST_QID_PATH)
    {
      fids := map[];
      qids := new PathTable<int>(FIRST_QID_PATH);
      this.useDriverIno := useDriverIno;
    }

    method Require(fid: nat) returns (r: Result<Fid>)
      requires Valid()
      ensures r == if fid in fids then Ok(fids[fid]) else Err(EBADF)
    {
      r := if fid in fids then Ok(fids[fid]) else Err(EBADF);
    }

    // A fid in use is never bound again.
    method Create(fid: nat, path: string) returns (r: Result<Fid>)
      requires Valid()
      modifies this`fids
      ensures Valid()
      ensures r.Ok? <==> fid < FID_LIMIT && fid !in old(fids)
      ensures r.Err? ==> r.error == EINVAL && fids == old(fids)
      ensures r.Ok? ==> fresh(r.value) && fids == old(fids)[fid := r.value]
      ensures r.Ok? ==> r.value.path == Normalize(path) && r.value.open.None? && r.value.cursor.None?
    {
      if fid >= FID_LIMIT || fid in fids {
        return Err(EINVAL);
      }
      var entry := new Fid(fid, path);
      fids := fids[fid := entry];
      r := Ok(entry);
    }

    // The new fid names the same file and is not open; in place, nothing changes.
    method Clone(from: nat, to: nat) returns (r: Result<Fid>)
      requires Valid()
      modifies this`fids
      ensures Valid()
      ensures r.Ok? <==> from in old(fids) && (to == from || (to < FID_LIMIT && to !in old(fids)))
      ensures r.Err? ==> fids == old(fids) && r.error == if from in old(fids) then EINVAL else EBADF
      ensures r.Ok? && to == from ==> fids == old(fids) && r.value == fids[from]
      ensures r.Ok? && to != from ==> fresh(r.value) && fids == old(fids)[to := r.value]
      ensures r.Ok? && to != from ==> r.value.path == old(fids[from].path) && r.value.open.None? && r.value.cursor.None?
    {
      if from !in fids {
        return Err(EBADF);
      }
      if to == from {
        return Ok(fids[from]);
      }
      r := Create(to, fids[from].path);
    }

    // The fid is gone before its handle can fail to close; a second clunk finds
    // nothing to hand back.
    method Clunk(fid: nat) returns (r: Result<Fid>)
      requires Valid()
      modifies this`fids
      ensures Valid()
      ensures fid in old(fids) ==> r == Ok(old(fids)[fid]) && fids == old(fids) - {fid}
      ensures fid !in old(fids) ==> r == Err(EBADF) && fids == old(fids)
    {
      r := Require(fid);
      if r.Ok? {
        fids := fids - {fid};
      }
    }

    // ---------- paging ----------

    method Resume(entry: Fid, offset: nat) returns (r: Result<Option<Page>>)
      modifies entry`cursor
      ensures r == Resumed(old(entry.cursor), offset)
      ensures entry.cursor == if offset == 0 then None else old(entry.cursor)
    {
      if offset == 0 {
        entry.cursor := None;
        return Ok(None);
      }
      if entry.cursor.None? || offset !in entry.cursor.value.offsets {
        return Err(EINVAL);
      }
      r := Ok(Some(Page(entry.cursor.value.entries, entry.cursor.value.offsets[offset])));
    }

    method Snapshot(entry: Fid, entries: seq<Name>) returns (page: Page)
      modifies entry`cursor
      ensures entry.cursor == Some(Cursor(entries, map[])) && page == Page(entries, 0)
    {
      entry.cursor := Some(Cursor(entries, map[]));
      page := Page(entries, 0);
    }

    method NoteOffset(entry: Fid, offset: nat, index: nat)
      modifies entry`cursor
      ensures entry.cursor == Noted(old(entry.cursor), offset, index)
    {
      if offset != 0 && entry.cursor.Some? {
        entry.cursor := Some(entry.cursor.value.(offsets := entry.cursor.value.offsets[offset := index]));
      }
    }

    // ---------- qids ----------

    method QidPathFor(path: string, dev: nat, ino: int) returns (id: nat)
      requires Valid() && Normal(path)
      modifies qids
      ensures Valid() && fids == old(fids)
      ensures var key := if useDriverIno then IdentityKey(dev, ino) else None;
              (qids.State(), id) == Bind(old(qids.State()), path, key, 0) && qids.entries[id].key == key
    {
      var key := if useDriverIno then IdentityKey(dev, ino) else None;
      BindSpec(qids.State(), path, key, 0);
      id := qids.BindPath(path, key, 0);
    }

    method ReleaseQid(path: string)
      requires Valid()
      modifies qids
      ensures Valid() && qids.State() == Release(old(qids.State()), path)
    {
      qids.ReleasePath(path);
    }

    // ---------- rename ----------

    // Fids below the renamed path follow it; those that named what it replaced
    // keep their paths and lose their cursors; the rest are untouched.
    method Remap(from: string, to: string)
      requires Valid() && (from == to || Renames(from, to))
      modifies qids, fids.Values
      ensures Valid() && fids == old(fids)
      ensures if from == to then qids.State() == old(qids.State())
              else Remapped(old(qids.State()), qids.State(), from, to)
      ensures forall n :: n in fids ==>
              (fids[n].path, fids[n].cursor) == Moved(old(fids[n].path), old(fids[n].cursor), from, to)
      ensures forall n :: n in fids ==> fids[n].open == old(fids[n].open)
    {
      hide Coherent, NormalPaths, Remapped, Moved, Normal, Renames;
      if from == to {
        MovedNowhere(from);
        return;
      }
      RenamesIs(from, to);
      qids.RemapSubtree(from, to);
      MoveFids(from, to);
    }

    method MoveFids(from: string, to: string)
      requires forall n :: n in fids ==> fids[n].number == n && Normal(fids[n].path)
      requires Renames(from, to) && from != to
      modifies fids.Values
      ensures forall n :: n in fids ==> Normal(fids[n].path) && fids[n].open == old(fids[n].open)
      ensures forall n :: n in fids ==>
              (fids[n].path, fids[n].cursor) == Moved(old(fids[n].path), old(fids[n].cursor), from, to)
    {
      hide Moved, Normal, Renames;
      var todo := fids.Keys;
      while todo != {}
        invariant todo <= fids.Keys
        invariant forall n :: n in fids ==> Normal(fids[n].path) && fids[n].open == old(fids[n].open)
        invariant forall n :: n in fids && n in todo ==>
                  fids[n].path == old(fids[n].path) && fids[n].cursor == old(fids[n].cursor)
        invariant forall n :: n in fids && n !in todo ==>
                    (fids[n].path, fids[n].cursor) == Moved(old(fids[n].path), old(fids[n].cursor), from, to)
        decreases todo
      {
        var n :| n in todo;
        MoveFid(fids[n], from, to);
        todo := todo - {n};
      }
    }

    method MoveFid(entry: Fid, from: string, to: string)
      requires Normal(entry.path) && Renames(from, to) && from != to
      modifies entry`path, entry`cursor
      ensures Normal(entry.path)
      ensures (entry.path, entry.cursor) == Moved(old(entry.path), old(entry.cursor), from, to)
    {
      if IsPathInside(entry.path, from) {
        TargetSegments(entry.path, from, to);
        TargetMoves(entry.path, from, to);
        entry.SetPath(to + entry.path[|from|..]);
      } else if IsPathInside(entry.path, to) {
        entry.cursor := None;
      }
    }

    method Clear()
      requires Valid()
      modifies this`fids, qids
      ensures Valid() && fids == map[]
      ensures qids.byPath == map[] && qids.byKey == map[] && qids.nextId == old(qids.nextId)
    {
      fids := map[];
      qids.entries, qids.byPath, qids.byKey := map[], map[], map[];
    }
  }

  // Where a rename leaves a fid, and what it leaves of its cursor.
  function Moved(path: string, cursor: Option<Cursor>, from: string, to: string): (string, Option<Cursor>)
  {
    if from == to then (path, cursor)
    else if IsPathInside(path, from) then (if |from| <= |path| then Target(path, from, to) else path, None)
    else if IsPathInside(path, to) then (path, None)
    else (path, cursor)
  }

  // A fid below the old path, or at it, names what its names below it name under the new
  // path; one below the new path, or at it, stays where it is; both lose their cursor.
  // Every other fid keeps its path and its cursor, and so does every fid of a rename to
  // itself.
  lemma MovedSays(path: string, cursor: Option<Cursor>, from: string, to: string)
    requires Normal(path) && Renames(from, to)
    ensures var (next, kept) := Moved(path, cursor, from, to);
            if from != to && Segments(from) <= Segments(path) then
              Segments(next) == Segments(to) + Segments(path)[|Segments(from)|..] && Normal(next) && kept == None
            else next == path && kept == if from != to && Segments(to) <= Segments(path) then None else cursor
  {
    hide Segments, Normalize;
    RenamesIs(from, to);
    IsPathInsideIsSegmentPrefix(path, from);
    IsPathInsideIsSegmentPrefix(path, to);
    if from != to && Segments(from) <= Segments(path) {
      TargetSegments(path, from, to);
      TargetMoves(path, from, to);
    }
  }

  lemma MovedNowhere(path: string)
    ensures forall p, c :: Moved(p, c, path, path) == (p, c)
  {
  }

  lemma RenamesIs(from: string, to: string)
    requires Renames(from, to)
    ensures Normal(from) && Normal(to)
  {
  }

  lemma TargetLength(path: string, from: string, to: string)
    requires from <= path && Target(path, from, to) == path
    ensures from == to
  {
    assert path == from + path[|from|..];
    assert |to| == |from| && path[..|to|] == to;
  }

  lemma TargetMoves(path: string, from: string, to: string)
    requires Normal(path) && Renames(from, to) && from != to && IsPathInside(path, from)
    ensures |from| <= |path| && Target(path, from, to) != path
  {
    if Target(path, from, to) == path {
      TargetLength(path, from, to);
    }
  }
}
