// A file's bytes: which operations change them, and that nothing done to its names
// does, so that a handle goes on reading and writing them when the last name is gone.
module MemBytes {
  import opened Wrappers
  import opened Bytes
  import opened Paths
  import opened MemTree
  import opened MemCounts
  import opened MemWalk
  import opened MemFs
  import opened MemLaws

  // Every file of one state is in the other with the same bytes, but for one.
  ghost predicate SameFilesBut(nodes: Nodes, next: Nodes, but: Option<nat>)
  {
    forall i: nat :: i in nodes && nodes[i].body.File? ==>
      i in next && next[i].body.File? && (but != Some(i) ==> next[i].body == nodes[i].body)
  }

  lemma SameFilesThen(a: Nodes, b: Nodes, c: Nodes)
    requires SameFilesBut(a, b, None) && SameFilesBut(b, c, None)
    ensures SameFilesBut(a, c, None)
  {
  }

  lemma MakeSameFiles(fs: Fs, p: nat, name: string, body: Body)
    requires IsDir(fs.nodes, p) && fs.nextIno !in fs.nodes
    ensures SameFilesBut(fs.nodes, Make(fs, p, name, body).nodes, None)
  {
  }

  lemma CreatedSameFiles(fs: Fs, e: Entry, body: Body)
    requires Good(fs) && Place(fs, e) && e.node.None? && (body.Dir? ==> body == Dir(map[], 0))
    ensures SameFilesBut(fs.nodes, Created(fs, e, body).nodes, None)
  {
    hide Named, Inv, Canonical, Make;
    CreatedSpec(fs, e, body);
    MakeSameFiles(fs, e.parent, e.name, body);
  }

  lemma UnlinkSameFiles(fs: Fs, p: nat, name: string, i: nat)
    requires IsDir(fs.nodes, p) && i in fs.nodes
    ensures SameFilesBut(fs.nodes, UnlinkEntry(fs, p, name, i).nodes, None)
  {
  }

  lemma MoveSameFiles(fs: Fs, fp: nat, fromName: string, tp: nat, toName: string, i: nat)
    requires IsDir(fs.nodes, fp) && IsDir(fs.nodes, tp)
    ensures SameFilesBut(fs.nodes, Move(fs, fp, fromName, tp, toName, i).nodes, None)
  {
  }

  lemma HardLinkSameFiles(fs: Fs, i: nat, p: nat, name: string)
    requires i in fs.nodes && IsDir(fs.nodes, p) && !IsDir(fs.nodes, i)
    ensures SameFilesBut(fs.nodes, HardLink(fs, i, p, name).nodes, None)
  {
  }

  lemma RenamedSameFiles(fs: Fs, from: Entry, to: Entry)
    requires Good(fs) && Place(fs, from) && Place(fs, to)
    requires from.node.Some? && from.node != to.node && RenameRefusal(fs, from, to).None?
    ensures SameFilesBut(fs.nodes, Renamed(fs, from, to).nodes, None)
  {
    hide Named, Inv, Canonical, UnlinkEntry, Move, RenameRefusal;
    RenamedSpec(fs, from, to);
    var mid := Cleared(fs, to);
    if to.node.Some? { UnlinkSameFiles(fs, to.parent, to.name, to.node.value); }
    MoveSameFiles(mid, from.parent, from.name, to.parent, to.name, from.node.value);
    SameFilesThen(fs.nodes, mid.nodes, Renamed(fs, from, to).nodes);
  }

  lemma SetDataSameFiles(fs: Fs, i: nat, data: seq<Byte>)
    requires i in fs.nodes && fs.nodes[i].body.File?
    ensures SameFilesBut(fs.nodes, SetData(fs, i, data).nodes, Some(i)) &&
            SetData(fs, i, data).nodes[i].body == File(data)
  {
  }

  lemma {:induction false} MkdirAllSameFiles(fs: Fs, segs: seq<string>, k: nat, first: Option<string>)
    requires Good(fs) && k <= |segs|
    ensures SameFilesBut(fs.nodes, MkdirAllOp(fs, segs, k, first).1.nodes, None)
    decreases |segs| - k
  {
    hide Named, Good, Walk, Created, Rooted, Place;
    if k < |segs| {
      var current := Rooted(segs[..k + 1]);
      WalkPlace(fs, current, true);
      var r := Walk(fs.nodes, current, true);
      if r.Ok? && r.value.node.None? {
        var made := if first.None? then Some(current) else first;
        CreatedSameFiles(fs, r.value, Dir(map[], 0));
        var mid := Created(fs, r.value, Dir(map[], 0));
        MkdirAllSameFiles(mid, segs, k + 1, made);
        SameFilesThen(fs.nodes, mid.nodes, MkdirAllOp(mid, segs, k + 1, made).1.nodes);
      } else if r.Ok? && IsDir(fs.nodes, r.value.node.value) {
        MkdirAllSameFiles(fs, segs, k + 1, first);
      }
    }
  }

  // ---------- who changes bytes ----------

  // The file whose bytes an operation is about: by handle, or at the end of a path
  // that is truncated.
  function Writes(fs: Fs, op: Op): Option<nat>
  {
    match op
    case HandleWrite(i, _, _) => Some(i)
    case HandleTruncate(i, _) => Some(i)
    case Truncate(path, _) => NodeAt(fs, path)
    case Open(path, flags) => if flags.truncate then NodeAt(fs, path) else None
    case _ => None
  }

  function NodeAt(fs: Fs, path: string): Option<nat>
  {
    if Walk(fs.nodes, path, true).Ok? then Walk(fs.nodes, path, true).value.node else None
  }

  lemma OpenSameFiles(fs: Fs, path: string, flags: OpenFlags)
    requires Good(fs)
    ensures SameFilesBut(fs.nodes, OpenOp(fs, path, flags).1.nodes, if flags.truncate then NodeAt(fs, path) else None)
  {
    hide Named, Inv, Walk, Created, Canonical, SetData;
    var follow := !(flags.create && flags.exclusive);
    WalkPlace(fs, path, follow);
    var r := Walk(fs.nodes, path, follow);
    if r.Ok? && r.value.node.None? && flags.create {
      CreatedSameFiles(fs, r.value, File([]));
    } else if r.Ok? && r.value.node.Some? && follow && fs.nodes[r.value.node.value].body.File? {
      SetDataSameFiles(fs, r.value.node.value, Resized(fs.nodes[r.value.node.value].body.data, 0));
    }
  }

  lemma TruncateSameFiles(fs: Fs, path: string, length: nat)
    requires Good(fs)
    ensures SameFilesBut(fs.nodes, TruncateOp(fs, path, length).1.nodes, NodeAt(fs, path))
  {
    hide Named, Inv, Walk, Canonical, SetData;
    WalkPlace(fs, path, true);
    var r := Walk(fs.nodes, path, true);
    if r.Ok? && r.value.node.Some? && fs.nodes[r.value.node.value].body.File? {
      SetDataSameFiles(fs, r.value.node.value, Resized(fs.nodes[r.value.node.value].body.data, length));
    }
  }

  lemma MadeSameFiles(fs: Fs, op: Op)
    requires Good(fs) && (op.Mknod? || op.Mkdir? || op.SymlinkTo?)
    ensures SameFilesBut(fs.nodes, Apply(fs, op).nodes, None)
  {
    hide Named, Good, Walk, Created, Place;
    WalkPlace(fs, op.path, false);
    var r := Walk(fs.nodes, op.path, false);
    if r.Ok? && r.value.node.None? {
      match op
      case Mknod(_, Regular, _) => CreatedSameFiles(fs, r.value, File([]));
      case Mknod(_, SpecialType(kind), rdev) =>
        CreatedSameFiles(fs, r.value, Special(kind, if kind.CharDevice? || kind.BlockDevice? then rdev else 0));
      case Mkdir(_) => CreatedSameFiles(fs, r.value, Dir(map[], 0));
      case SymlinkTo(target, _) => CreatedSameFiles(fs, r.value, Symlink(target));
      case _ =>
    }
  }

  lemma RemovedSameFiles(fs: Fs, op: Op)
    requires Good(fs) && (op.Unlink? || op.Rmdir?)
    ensures SameFilesBut(fs.nodes, Apply(fs, op).nodes, None)
  {
    hide Named, Inv, Walk, UnlinkEntry, Canonical;
    WalkPlace(fs, op.path, false);
    var r := Walk(fs.nodes, op.path, false);
    if r.Ok? && r.value.node.Some? {
      UnlinkSameFiles(fs, r.value.parent, r.value.name, r.value.node.value);
    }
  }

  lemma RenameSameFiles(fs: Fs, oldPath: string, newPath: string)
    requires Good(fs)
    ensures SameFilesBut(fs.nodes, RenameOp(fs, oldPath, newPath).1.nodes, None)
  {
    hide Named, Good, Walk, Place, Renamed, RenameRefusal;
    WalkPlace(fs, oldPath, false);
    WalkPlace(fs, newPath, false);
    var from, to := Walk(fs.nodes, oldPath, false), Walk(fs.nodes, newPath, false);
    if from.Ok? && from.value.node.Some? && to.Ok? && from.value.node != to.value.node &&
        RenameRefusal(fs, from.value, to.value).None? {
      RenamedSameFiles(fs, from.value, to.value);
    }
  }

  lemma LinkSameFiles(fs: Fs, existingPath: string, newPath: string)
    requires Good(fs)
    ensures SameFilesBut(fs.nodes, LinkOp(fs, existingPath, newPath).1.nodes, None)
  {
    hide Named, Inv, Walk, Canonical, HardLink;
    WalkPlace(fs, existingPath, false);
    WalkPlace(fs, newPath, false);
    var from, to := Walk(fs.nodes, existingPath, false), Walk(fs.nodes, newPath, false);
    if from.Ok? && from.value.node.Some? && to.Ok? && !IsDir(fs.nodes, from.value.node.value) {
      HardLinkSameFiles(fs, from.value.node.value, to.value.parent, to.value.name);
    }
  }

  // An operation leaves every file's bytes as they were, except those of the one it
  // names to change them.
  lemma OnlyWritesWrite(fs: Fs, op: Op)
    requires Good(fs)
    ensures SameFilesBut(fs.nodes, Apply(fs, op).nodes, Writes(fs, op))
  {
    hide Good, MknodOp, OpenOp, MkdirOp, MkdirAllOp, RmdirOp, UnlinkOp, RenameOp, LinkOp, SymlinkOp, TruncateOp,
         NodeAt, SetData;
    match op
    case Open(path, flags) => OpenSameFiles(fs, path, flags);
    case MkdirAll(path) => MkdirAllSameFiles(fs, Segments(path), 0, None);
    case Rename(oldPath, newPath) => RenameSameFiles(fs, oldPath, newPath);
    case LinkTo(existingPath, newPath) => LinkSameFiles(fs, existingPath, newPath);
    case Truncate(path, length) => TruncateSameFiles(fs, path, length);
    case HandleWrite(i, from, bytes) =>
      if i in fs.nodes && fs.nodes[i].body.File? {
        SetDataSameFiles(fs, i, Written(fs.nodes[i].body.data, from, bytes));
      }
    case HandleTruncate(i, size) =>
      if i in fs.nodes && fs.nodes[i].body.File? { SetDataSameFiles(fs, i, Resized(fs.nodes[i].body.data, size)); }
    case Unlink(_) => RemovedSameFiles(fs, op);
    case Rmdir(_) => RemovedSameFiles(fs, op);
    case _ => MadeSameFiles(fs, op);
  }

  // None of a stretch of a run's operations is about one file's bytes.
  ghost predicate NoneWrites(ops: seq<Op>, m: nat, n: nat, i: nat)
    requires m <= n <= |ops|
  {
    forall k: nat :: m <= k < n ==> Writes(Run(ops[..k]), ops[k]) != Some(i)
  }

  // Whatever is made, linked, renamed, overwritten by a rename or unlinked meanwhile,
  // and whether or not any name of it is left: a file nobody writes keeps its bytes.
  lemma {:induction false} BytesOutliveNames(ops: seq<Op>, m: nat, n: nat, i: nat)
    requires m <= n <= |ops| && NoneWrites(ops, m, n, i)
    requires i in Run(ops[..m]).nodes && Run(ops[..m]).nodes[i].body.File?
    ensures i in Run(ops[..n]).nodes && Run(ops[..n]).nodes[i].body == Run(ops[..m]).nodes[i].body
    decreases n - m
  {
    hide Apply, Run, Writes, Good;
    if m < n {
      assert NoneWrites(ops, m, n - 1, i);
      BytesOutliveNames(ops, m, n - 1, i);
      RunStep(ops, n - 1);
      assert Writes(Run(ops[..n - 1]), ops[n - 1]) != Some(i);
      BytesKept(Run(ops[..n - 1]), ops[n - 1], i);
    }
  }

  lemma BytesKept(fs: Fs, op: Op, i: nat)
    requires Good(fs) && i in fs.nodes && fs.nodes[i].body.File? && Writes(fs, op) != Some(i)
    ensures i in Apply(fs, op).nodes && Apply(fs, op).nodes[i].body == fs.nodes[i].body
  {
    hide Apply, Writes, Good;
    OnlyWritesWrite(fs, op);
  }

  lemma RunStep(ops: seq<Op>, k: nat)
    requires k < |ops|
    ensures Run(ops[..k + 1]) == Apply(Run(ops[..k]), ops[k])
  {
    assert ops[..k + 1][..k] == ops[..k];
  }

  // And a write through a handle then changes them as if it still had a name.
  lemma WriteAfterAll(ops: seq<Op>, m: nat, n: nat, i: nat, from: nat, bytes: seq<Byte>)
    requires m <= n <= |ops| && NoneWrites(ops, m, n, i)
    requires i in Run(ops[..m]).nodes && Run(ops[..m]).nodes[i].body.File?
    ensures var next := Apply(Run(ops[..n]), HandleWrite(i, from, bytes)).nodes;
            i in next && next[i].body == File(Written(Run(ops[..m]).nodes[i].body.data, from, bytes))
  {
    hide Run, NoneWrites, Apply, Good, Written;
    BytesOutliveNames(ops, m, n, i);
    HandleWriteIs(Run(ops[..n]), i, from, bytes);
  }

  lemma HandleWriteIs(fs: Fs, i: nat, from: nat, bytes: seq<Byte>)
    requires Good(fs) && i in fs.nodes && fs.nodes[i].body.File?
    ensures var next := Apply(fs, HandleWrite(i, from, bytes)).nodes;
            i in next && next[i].body == File(Written(fs.nodes[i].body.data, from, bytes))
  {
    hide Good, Written;
    SetDataSameFiles(fs, i, Written(fs.nodes[i].body.data, from, bytes));
  }

  // ---------- truncating by path ----------

  // A path that was truncated leads to the same file, whose bytes are the old ones
  // cut or padded with zeros, and no other file's bytes change.
  lemma TruncateWorks(fs: Fs, path: string, length: nat)
    requires Good(fs) && TruncateOp(fs, path, length).0.Ok?
    ensures var next, at := TruncateOp(fs, path, length).1, NodeAt(fs, path);
            && at.Some? && at.value in fs.nodes && fs.nodes[at.value].body.File?
            && Walk(next.nodes, path, true) == Walk(fs.nodes, path, true)
            && at.value in next.nodes &&
               next.nodes[at.value].body == File(Resized(fs.nodes[at.value].body.data, length))
            && SameFilesBut(fs.nodes, next.nodes, at)
  {
    hide Named, Inv, Walk, SetData;
    WalkPlace(fs, path, true);
    var i := Walk(fs.nodes, path, true).value.node.value;
    SetDataSameFiles(fs, i, Resized(fs.nodes[i].body.data, length));
    SetDataWalks(fs, i, Resized(fs.nodes[i].body.data, length), path);
  }

  lemma SetDataWalks(fs: Fs, i: nat, data: seq<Byte>, path: string)
    requires Good(fs) && i in fs.nodes && fs.nodes[i].body.File?
    ensures Walk(SetData(fs, i, data).nodes, path, true) == Walk(fs.nodes, path, true)
  {
    hide Inv;
    GoodClosed(fs);
    var next := SetData(fs, i, data).nodes;
    assert SameKinds(fs.nodes, next);
    SameWalk(fs.nodes, next, Segments(path), true, 0);
  }
}
