// What a caller of the memory driver may rely on, said of paths rather than of
// nodes: what was made is found again by the path that made it, what was removed
// is not, and what failed changed nothing.
module MemLaws {
  import opened Wrappers
  import opened Paths
  import opened MemTree
  import opened MemCounts
  import opened MemWalk
  import opened MemFs

  // Nodes keep their kind and links their targets.
  ghost predicate SameKinds(nodes: Nodes, next: Nodes)
  {
    forall i: nat :: i in nodes ==>
      i in next && (IsDir(nodes, i) <==> IsDir(next, i)) && (IsSymlink(nodes, i) <==> IsSymlink(next, i)) &&
      (IsSymlink(nodes, i) ==> next[i].body.target == nodes[i].body.target)
  }

  ghost predicate Closed(nodes: Nodes)
  {
    forall d: nat, n :: Child(nodes, d, n).Some? ==> Child(nodes, d, n).value in nodes
  }

  // `next` is `nodes` with one entry set, or gone.
  ghost predicate OneEntry(nodes: Nodes, next: Nodes, p: nat, name: string, to: Option<nat>)
  {
    forall d: nat, n :: Child(next, d, n) == if d == p && n == name then to else Child(nodes, d, n)
  }

  lemma GoodClosed(fs: Fs)
    requires Good(fs)
    ensures Closed(fs.nodes) && IsDir(fs.nodes, ROOT)
  {
    var at :| Inv(fs, at);
    RootIsDir(fs.nodes, at);
  }

  // ---------- walking again after a change ----------

  // A path that led to a free place leads to what is put there.
  lemma {:induction false} DescendAfterEnter(nodes: Nodes, next: Nodes, dir: nat, segs: seq<string>, k: nat,
                    follow: bool, depth: nat, e: Entry, i: nat)
    requires depth <= MAX_SYMLINK_DEPTH && k < |segs| && dir in nodes
    requires Closed(nodes) && SameKinds(nodes, next) && ROOT in nodes
    requires Child(nodes, e.parent, e.name).None? && OneEntry(nodes, next, e.parent, e.name, Some(i))
    requires follow ==> !IsSymlink(next, i)
    requires Descend(nodes, dir, segs, k, follow, depth) == Ok(e) && e.node.None?
    ensures Descend(next, dir, segs, k, follow, depth) == Ok(e.(node := Some(i)))
    decreases MAX_SYMLINK_DEPTH - depth, |segs| - k
  {
    hide Retarget, Rooted, IsDir, Child;
    var child := Child(nodes, dir, segs[k]);
    if child.Some? {
      assert Child(next, dir, segs[k]) == child;
      if IsSymlink(nodes, child.value) && (follow || k != |segs| - 1) {
        var around := Retarget(segs[..k], nodes[child.value].body.target, segs[k + 1..]);
        WalkAfterEnter(nodes, next, around, follow, depth + 1, e, i);
      } else if k != |segs| - 1 {
        DescendAfterEnter(nodes, next, child.value, segs, k + 1, follow, depth, e, i);
      }
    }
  }

  lemma {:induction false} WalkAfterEnter(nodes: Nodes, next: Nodes, segs: seq<string>, follow: bool,
                    depth: nat, e: Entry, i: nat)
    requires depth <= MAX_SYMLINK_DEPTH
    requires Closed(nodes) && SameKinds(nodes, next) && ROOT in nodes
    requires Child(nodes, e.parent, e.name).None? && OneEntry(nodes, next, e.parent, e.name, Some(i))
    requires follow ==> !IsSymlink(next, i)
    requires WalkSegs(nodes, segs, follow, depth) == Ok(e) && e.node.None?
    ensures WalkSegs(next, segs, follow, depth) == Ok(e.(node := Some(i)))
    decreases MAX_SYMLINK_DEPTH - depth, |segs| + 1
  {
    DescendAfterEnter(nodes, next, ROOT, segs, 0, follow, depth, e, i);
  }

  // A path that led to an entry finds nothing once it is gone.
  lemma {:induction false} DescendAfterLeave(nodes: Nodes, next: Nodes, dir: nat, segs: seq<string>, k: nat,
                    depth: nat, e: Entry)
    requires depth <= MAX_SYMLINK_DEPTH && k < |segs| && dir in nodes
    requires Closed(nodes) && SameKinds(nodes, next) && ROOT in nodes
    requires OneEntry(nodes, next, e.parent, e.name, None)
    requires Descend(nodes, dir, segs, k, false, depth) == Ok(e) && e.node.Some? && e.node != Some(ROOT)
    ensures Descend(next, dir, segs, k, false, depth) == Ok(e.(node := None)) ||
            Descend(next, dir, segs, k, false, depth) == Err(ENOENT)
    decreases MAX_SYMLINK_DEPTH - depth, |segs| - k
  {
    hide Retarget, Rooted, IsDir, Child;
    var child := Child(nodes, dir, segs[k]);
    assert Child(next, dir, segs[k]) == if dir == e.parent && segs[k] == e.name then None else child;
    if child.Some? && !(dir == e.parent && segs[k] == e.name) {
      if IsSymlink(nodes, child.value) && k != |segs| - 1 {
        WalkAfterLeave(nodes, next, Retarget(segs[..k], nodes[child.value].body.target, segs[k + 1..]), depth + 1, e);
      } else if k != |segs| - 1 {
        DescendAfterLeave(nodes, next, child.value, segs, k + 1, depth, e);
      }
    }
  }

  lemma {:induction false} WalkAfterLeave(nodes: Nodes, next: Nodes, segs: seq<string>, depth: nat, e: Entry)
    requires depth <= MAX_SYMLINK_DEPTH
    requires Closed(nodes) && SameKinds(nodes, next) && ROOT in nodes
    requires OneEntry(nodes, next, e.parent, e.name, None)
    requires WalkSegs(nodes, segs, false, depth) == Ok(e) && e.node.Some? && e.node != Some(ROOT)
    ensures WalkSegs(next, segs, false, depth) == Ok(e.(node := None)) ||
            WalkSegs(next, segs, false, depth) == Err(ENOENT)
    decreases MAX_SYMLINK_DEPTH - depth, |segs| + 1
  {
    DescendAfterLeave(nodes, next, ROOT, segs, 0, depth, e);
  }

  // ---------- made, and found again ----------

  lemma MakeIsOneEntry(fs: Fs, p: nat, name: string, body: Body)
    requires IsDir(fs.nodes, p) && Child(fs.nodes, p, name).None? && fs.nextIno !in fs.nodes
    requires body.Dir? ==> body == Dir(map[], 0)
    ensures OneEntry(fs.nodes, Make(fs, p, name, body).nodes, p, name, Some(fs.nextIno))
    ensures SameKinds(fs.nodes, Make(fs, p, name, body).nodes)
    ensures IsDir(Make(fs, p, name, body).nodes, fs.nextIno) <==> body.Dir?
    ensures IsSymlink(Make(fs, p, name, body).nodes, fs.nextIno) <==> body.Symlink?
  {
    MakeEnters(fs, p, name, body);
  }

  // Whatever links the path went through on the way, walking it again finds the
  // node now there.
  lemma CreatedByPath(fs: Fs, path: string, follow: bool, e: Entry, body: Body)
    requires Good(fs) && Walk(fs.nodes, path, follow) == Ok(e) && e.node.None?
    requires body.Dir? ==> body == Dir(map[], 0)
    requires follow ==> !body.Symlink?
    ensures Place(fs, e)
    ensures Walk(Created(fs, e, body).nodes, path, follow) == Ok(e.(node := Some(fs.nextIno)))
  {
    hide Segments, Named, Inv, Make, Canonical;
    WalkPlace(fs, path, follow);
    NotTheRoot(fs, e);
    GoodClosed(fs);
    CreatedSpec(fs, e, body);
    MakeIsOneEntry(fs, e.parent, e.name, body);
    WalkAfterEnter(fs.nodes, Make(fs, e.parent, e.name, body).nodes, Segments(path), follow, 0, e, fs.nextIno);
  }

  lemma NotTheRoot(fs: Fs, e: Entry)
    requires Place(fs, e) && e.node.None?
    ensures Child(fs.nodes, e.parent, e.name).None?
  {
  }

  // A path that was made resolves, by itself, to a new node of the kind asked for.
  lemma MkdirIsFound(fs: Fs, path: string)
    requires Good(fs) && MkdirOp(fs, path).0.Ok?
    ensures var next := MkdirOp(fs, path).1; var r := Walk(next.nodes, path, false);
            r.Ok? && r.value.node == Some(fs.nextIno) && IsDir(next.nodes, fs.nextIno) && fs.nextIno !in fs.nodes
  {
    hide Walk, Good, Place;
    WalkPlace(fs, path, false);
    var e := Walk(fs.nodes, path, false).value;
    CreatedByPath(fs, path, false, e, Dir(map[], 0));
  }

  lemma SymlinkIsFound(fs: Fs, target: string, path: string)
    requires Good(fs) && SymlinkOp(fs, target, path).0.Ok?
    ensures ReadlinkOp(SymlinkOp(fs, target, path).1, path) == Ok(target)
  {
    hide Walk, Good, Place;
    WalkPlace(fs, path, false);
    var e := Walk(fs.nodes, path, false).value;
    CreatedByPath(fs, path, false, e, Symlink(target));
  }

  // Opening to create and opening again name one file, through dangling links too.
  lemma OpenTwice(fs: Fs, path: string, flags: OpenFlags, again: OpenFlags)
    requires Good(fs) && OpenOp(fs, path, flags).0.Ok? && !flags.exclusive && !again.exclusive
    requires var i := OpenOp(fs, path, flags).0.value; again.write ==> !IsDir(OpenOp(fs, path, flags).1.nodes, i)
    ensures OpenOp(OpenOp(fs, path, flags).1, path, again).0 == OpenOp(fs, path, flags).0
  {
    hide Walk, Good;
    WalkPlace(fs, path, true);
    var e := Walk(fs.nodes, path, true).value;
    var next := OpenOp(fs, path, flags).1;
    if e.node.None? {
      CreatedByPath(fs, path, true, e, File([]));
    } else {
      ResizeWalks(fs, e.node.value, path);
    }
  }

  lemma ResizeWalks(fs: Fs, i: nat, path: string)
    requires Good(fs) && i in fs.nodes
    ensures fs.nodes[i].body.File? ==> Walk(ResizeOp(fs, i, 0).nodes, path, true) == Walk(fs.nodes, path, true)
    ensures fs.nodes[i].body.File? ==> ResizeOp(fs, i, 0).nodes[i].body.File?
  {
    hide Inv;
    if fs.nodes[i].body.File? {
      GoodClosed(fs);
      var next := ResizeOp(fs, i, 0).nodes;
      assert SameKinds(fs.nodes, next);
      SameWalk(fs.nodes, next, Segments(path), true, 0);
    }
  }

  // Where no entry changes, no walk does.
  lemma {:induction false} SameWalk(nodes: Nodes, next: Nodes, segs: seq<string>, follow: bool, depth: nat)
    requires depth <= MAX_SYMLINK_DEPTH && Closed(nodes) && SameKinds(nodes, next) && ROOT in nodes
    requires forall d: nat, n :: Child(next, d, n) == Child(nodes, d, n)
    ensures WalkSegs(next, segs, follow, depth) == WalkSegs(nodes, segs, follow, depth)
    decreases MAX_SYMLINK_DEPTH - depth, |segs| + 1
  {
    if segs != [] { SameDescend(nodes, next, ROOT, segs, 0, follow, depth); }
  }

  lemma {:induction false} SameDescend(nodes: Nodes, next: Nodes, dir: nat, segs: seq<string>, k: nat,
                    follow: bool, depth: nat)
    requires depth <= MAX_SYMLINK_DEPTH && Closed(nodes) && SameKinds(nodes, next) && ROOT in nodes && dir in nodes &&
             k < |segs|
    requires forall d: nat, n :: Child(next, d, n) == Child(nodes, d, n)
    ensures Descend(next, dir, segs, k, follow, depth) == Descend(nodes, dir, segs, k, follow, depth)
    decreases MAX_SYMLINK_DEPTH - depth, |segs| - k
  {
    hide Retarget, Rooted, IsDir, Child;
    var child := Child(nodes, dir, segs[k]);
    if child.Some? {
      if IsSymlink(nodes, child.value) && (follow || k != |segs| - 1) {
        if depth < MAX_SYMLINK_DEPTH {
          SameWalk(nodes, next, Retarget(segs[..k], nodes[child.value].body.target, segs[k + 1..]), follow, depth + 1);
        }
      } else if k != |segs| - 1 {
        SameDescend(nodes, next, child.value, segs, k + 1, follow, depth);
      }
    }
  }

  // Both names of a hard link lead to the one file.
  lemma LinkedIsFound(fs: Fs, existingPath: string, newPath: string)
    requires Good(fs) && LinkOp(fs, existingPath, newPath).0.Ok?
    ensures var next, i := LinkOp(fs, existingPath, newPath).1.nodes, Walk(fs.nodes, existingPath, false).value.node;
            Walk(fs.nodes, existingPath, false).Ok? && i.Some? &&
            Walk(next, newPath, false).Ok? && Walk(next, newPath, false).value.node == i
  {
    hide Segments, Named, Inv, HardLink, Canonical;
    WalkPlace(fs, existingPath, false);
    WalkPlace(fs, newPath, false);
    var from, to := Walk(fs.nodes, existingPath, false).value, Walk(fs.nodes, newPath, false).value;
    NotTheRoot(fs, to);
    GoodClosed(fs);
    var i := from.node.value;
    HardLinkIsOneEntry(fs, i, to.parent, to.name);
    WalkAfterEnter(fs.nodes, HardLink(fs, i, to.parent, to.name).nodes, Segments(newPath), false, 0, to, i);
  }

  lemma HardLinkIsOneEntry(fs: Fs, i: nat, p: nat, name: string)
    requires i in fs.nodes && IsDir(fs.nodes, p) && !IsDir(fs.nodes, i)
    ensures OneEntry(fs.nodes, HardLink(fs, i, p, name).nodes, p, name, Some(i))
    ensures SameKinds(fs.nodes, HardLink(fs, i, p, name).nodes)
  {
  }

  // ---------- removed, and not found ----------

  lemma UnlinkIsOneEntry(fs: Fs, p: nat, name: string, i: nat)
    requires i in fs.nodes && IsDir(fs.nodes, p)
    ensures OneEntry(fs.nodes, UnlinkEntry(fs, p, name, i).nodes, p, name, None)
    ensures SameKinds(fs.nodes, UnlinkEntry(fs, p, name, i).nodes)
  {
  }

  lemma RemovedByPath(fs: Fs, path: string, e: Entry)
    requires Good(fs) && Walk(fs.nodes, path, false) == Ok(e) && e.node.Some? && e.node != Some(ROOT)
    ensures IsDir(fs.nodes, e.parent) && e.node.value in fs.nodes
    ensures var r := Walk(UnlinkEntry(fs, e.parent, e.name, e.node.value).nodes, path, false);
            r == Ok(e.(node := None)) || r == Err(ENOENT)
  {
    hide Segments, Named, Inv, UnlinkEntry, Canonical;
    WalkPlace(fs, path, false);
    GoodClosed(fs);
    UnlinkIsOneEntry(fs, e.parent, e.name, e.node.value);
    WalkAfterLeave(fs.nodes, UnlinkEntry(fs, e.parent, e.name, e.node.value).nodes, Segments(path), 0, e);
  }

  // A path that was unlinked or removed finds nothing.
  lemma UnlinkIsGone(fs: Fs, path: string)
    requires Good(fs) && (UnlinkOp(fs, path).0.Ok? || RmdirOp(fs, path).0.Ok?)
    ensures UnlinkOp(fs, path).0.Ok? ==> UnlinkOp(UnlinkOp(fs, path).1, path).0 == Err(ENOENT)
    ensures RmdirOp(fs, path).0.Ok? ==> RmdirOp(RmdirOp(fs, path).1, path).0 == Err(ENOENT)
  {
    hide Walk, Good, Place, UnlinkEntry;
    WalkPlace(fs, path, false);
    RootWalks(fs);
    var e := Walk(fs.nodes, path, false).value;
    RemovedByPath(fs, path, e);
  }

  lemma RootWalks(fs: Fs)
    requires Good(fs)
    ensures IsDir(fs.nodes, ROOT)
  {
    GoodClosed(fs);
  }

  // ---------- failures ----------

  // The errno an operation fails with, if it does.
  function Failure(fs: Fs, op: Op): Option<Errno>
    requires Good(fs)
  {
    match op
    case Mknod(path, typ, rdev) => ErrorOf(MknodOp(fs, path, typ, rdev).0)
    case Open(path, flags) => ErrorOf(OpenOp(fs, path, flags).0)
    case Mkdir(path) => ErrorOf(MkdirOp(fs, path).0)
    case MkdirAll(path) => ErrorOf(MkdirAllOp(fs, Segments(path), 0, None).0)
    case Rmdir(path) => ErrorOf(RmdirOp(fs, path).0)
    case Unlink(path) => ErrorOf(UnlinkOp(fs, path).0)
    case Rename(oldPath, newPath) => ErrorOf(RenameOp(fs, oldPath, newPath).0)
    case LinkTo(existingPath, newPath) => ErrorOf(LinkOp(fs, existingPath, newPath).0)
    case SymlinkTo(target, path) => ErrorOf(SymlinkOp(fs, target, path).0)
    case Truncate(path, length) => ErrorOf(TruncateOp(fs, path, length).0)
    case HandleWrite(_, _, _) => None
    case HandleTruncate(_, _) => None
  }

  function ErrorOf<T>(r: Result<T>): Option<Errno> { if r.Err? then Some(r.error) else None }

  // An operation that fails leaves the filesystem exactly as it was; only making
  // directories on the way to one may leave some of them behind.
  lemma FailuresChangeNothing(fs: Fs, op: Op)
    requires Good(fs) && Failure(fs, op).Some? && !op.MkdirAll?
    ensures Apply(fs, op) == fs
  {
    hide Good, Walk, Place, Created, UnlinkEntry, HardLink, Renamed, ResizeOp;
  }

  // ---------- every directory of a path ----------

  // Nothing that had a name loses it, whether or not the whole path could be made,
  // and every new name leads to a new directory.
  ghost predicate OnlyDirectoriesAdded(fs: Fs, next: Fs)
  {
    forall segs :: Named(next.nodes, segs) == Named(fs.nodes, segs) ||
      (Named(fs.nodes, segs).None? && Named(next.nodes, segs).Some? &&
       Named(next.nodes, segs).value !in fs.nodes && IsDir(next.nodes, Named(next.nodes, segs).value))
  }

  predicate LeadsToDirectory(fs: Fs, path: string)
  {
    var r := Walk(fs.nodes, path, true);
    r.Ok? && r.value.node.Some? && IsDir(fs.nodes, r.value.node.value)
  }

  lemma CreatedAdds(fs: Fs, e: Entry)
    requires Good(fs) && Place(fs, e) && e.node.None?
    ensures var next := Created(fs, e, Dir(map[], 0));
            OnlyDirectoriesAdded(fs, next) && SameKinds(fs.nodes, next.nodes) && IsDir(next.nodes, fs.nextIno)
  {
    hide Segments, Named, Inv, Canonical;
    CreatedSpec(fs, e, Dir(map[], 0));
    NotTheRoot(fs, e);
    MakeIsOneEntry(fs, e.parent, e.name, Dir(map[], 0));
    var next := Created(fs, e, Dir(map[], 0));
    forall segs ensures Named(next.nodes, segs) == Named(fs.nodes, segs) ||
                        (Named(fs.nodes, segs).None? && Named(next.nodes, segs) == Some(fs.nextIno)) {
      if segs == Segments(e.path) { PlaceIsFree(fs, e); }
    }
  }

  lemma PlaceIsFree(fs: Fs, e: Entry)
    requires Place(fs, e) && e.node.None?
    ensures Named(fs.nodes, Segments(e.path)).None?
  {
    hide Segments, Named;
  }

  lemma AddedTransitive(fs: Fs, mid: Fs, next: Fs)
    requires OnlyDirectoriesAdded(fs, mid) && OnlyDirectoriesAdded(mid, next)
    requires forall i :: i in fs.nodes ==> i in mid.nodes
    requires forall i: nat :: i in mid.nodes ==> i in next.nodes && (IsDir(mid.nodes, i) <==> IsDir(next.nodes, i))
    requires forall segs :: Named(mid.nodes, segs).Some? ==> Named(mid.nodes, segs).value in mid.nodes
    ensures OnlyDirectoriesAdded(fs, next)
  {
    hide Named, IsDir;
    forall segs ensures Named(next.nodes, segs) == Named(fs.nodes, segs) ||
      (Named(fs.nodes, segs).None? && Named(next.nodes, segs).Some? &&
       Named(next.nodes, segs).value !in fs.nodes && IsDir(next.nodes, Named(next.nodes, segs).value)) {}
  }

  lemma NamedInside(fs: Fs, segs: seq<string>)
    requires Good(fs) && Named(fs.nodes, segs).Some?
    ensures Named(fs.nodes, segs).value in fs.nodes
  {
    GoodClosed(fs);
  }

  lemma SameKindsTransitive(a: Nodes, b: Nodes, c: Nodes)
    requires SameKinds(a, b) && SameKinds(b, c)
    ensures SameKinds(a, c)
  {
    hide IsDir, IsSymlink;
  }

  lemma {:induction false} MkdirAllAdds(fs: Fs, segs: seq<string>, k: nat, first: Option<string>)
    requires Good(fs) && k <= |segs|
    ensures var next := MkdirAllOp(fs, segs, k, first).1;
            OnlyDirectoriesAdded(fs, next) && SameKinds(fs.nodes, next.nodes)
    decreases |segs| - k
  {
    hide Named, Inv, Walk, Created, Rooted;
    if k < |segs| {
      var current := Rooted(segs[..k + 1]);
      WalkPlace(fs, current, true);
      var r := Walk(fs.nodes, current, true);
      if r.Ok? && r.value.node.None? {
        var e := r.value;
        CreatedAdds(fs, e);
        var mid, made := Created(fs, e, Dir(map[], 0)), if first.None? then Some(current) else first;
        MkdirAllAdds(mid, segs, k + 1, made);
        forall s | Named(mid.nodes, s).Some? ensures Named(mid.nodes, s).value in mid.nodes { NamedInside(mid, s); }
        var next := MkdirAllOp(mid, segs, k + 1, made).1;
        AddedTransitive(fs, mid, next);
        SameKindsTransitive(fs.nodes, mid.nodes, next.nodes);
      } else if r.Ok? && IsDir(fs.nodes, r.value.node.value) {
        MkdirAllAdds(fs, segs, k + 1, first);
      }
    }
  }

  // Where it succeeds, the whole path leads to a directory.
  lemma {:induction false} MkdirAllMakes(fs: Fs, segs: seq<string>, k: nat, first: Option<string>)
    requires Good(fs) && Clean(segs) && k <= |segs| && LeadsToDirectory(fs, Rooted(segs[..k]))
    requires MkdirAllOp(fs, segs, k, first).0.Ok?
    ensures LeadsToDirectory(MkdirAllOp(fs, segs, k, first).1, Rooted(segs))
    decreases |segs| - k
  {
    hide Named, Inv, Walk, Created, Rooted, Segments;
    if k == |segs| {
      assert segs[..k] == segs;
    } else {
      var current := Rooted(segs[..k + 1]);
      WalkPlace(fs, current, true);
      var e := Walk(fs.nodes, current, true).value;
      if e.node.None? {
        CreatedByPath(fs, current, true, e, Dir(map[], 0));
        CreatedAdds(fs, e);
        MkdirAllMakes(Created(fs, e, Dir(map[], 0)), segs, k + 1, if first.None? then Some(current) else first);
      } else {
        MkdirAllMakes(fs, segs, k + 1, first);
      }
    }
  }

  // Making a path makes it lead to a directory, and takes no name away.
  lemma MkdirAllWorks(fs: Fs, path: string)
    requires Good(fs)
    ensures var r := MkdirAllOp(fs, Segments(path), 0, None);
            OnlyDirectoriesAdded(fs, r.1) && (r.0.Ok? ==> LeadsToDirectory(r.1, path))
  {
    hide Named, Inv, Created;
    MkdirAllAdds(fs, Segments(path), 0, None);
    SegmentsClean(path);
    SegmentsRooted(Segments(path));
    GoodClosed(fs);
    EmptyPath();
    assert Segments(path)[..0] == [];
    assert LeadsToDirectory(fs, Rooted([]));
    if MkdirAllOp(fs, Segments(path), 0, None).0.Ok? {
      MkdirAllMakes(fs, Segments(path), 0, None);
    }
  }

  lemma {:induction false} FirstStays(fs: Fs, segs: seq<string>, k: nat, first: string)
    requires Good(fs) && k <= |segs|
    ensures var r := MkdirAllOp(fs, segs, k, Some(first)).0; r.Ok? ==> r.value == Some(first)
    decreases |segs| - k
  {
    hide Good, Walk, Created, Rooted, Place;
    if k < |segs| {
      var current := Rooted(segs[..k + 1]);
      WalkPlace(fs, current, true);
      var r := Walk(fs.nodes, current, true);
      if r.Ok? && r.value.node.None? {
        assert Place(fs, r.value);
        FirstStays(Created(fs, r.value, Dir(map[], 0)), segs, k + 1, first);
      } else if r.Ok? && IsDir(fs.nodes, r.value.node.value) {
        FirstStays(fs, segs, k + 1, first);
      }
    }
  }

  // A path that resolves but for its last name, which nothing has.
  predicate LeadsNowhere(fs: Fs, path: string)
  {
    var r := Walk(fs.nodes, path, true);
    r.Ok? && r.value.node.None?
  }

  function PartOf(segs: seq<string>, m: nat): string
    requires m < |segs|
  {
    Rooted(segs[..m + 1])
  }

  // The first prefix of a path, from the k-th on, that leads nowhere.
  ghost predicate FirstMissing(fs: Fs, segs: seq<string>, k: nat, j: nat)
  {
    && k <= j < |segs| && LeadsNowhere(fs, PartOf(segs, j))
    && forall m: nat :: k <= m < j ==> LeadsToDirectory(fs, PartOf(segs, m))
  }

  lemma {:induction false} FirstMadeFrom(fs: Fs, segs: seq<string>, k: nat) returns (j: nat)
    requires Good(fs) && k <= |segs| && MkdirAllOp(fs, segs, k, None).0.Ok?
    ensures var first := MkdirAllOp(fs, segs, k, None).0.value;
            && (first.None? ==> MkdirAllOp(fs, segs, k, None).1 == fs &&
                                forall m: nat :: k <= m < |segs| ==> LeadsToDirectory(fs, PartOf(segs, m)))
            && (first.Some? ==> FirstMissing(fs, segs, k, j) && first == Some(PartOf(segs, j)))
    decreases |segs| - k
  {
    hide Good, Walk, Created, Rooted, Place;
    j := k;
    GoodClosed(fs);
    if k < |segs| {
      var current := Rooted(segs[..k + 1]);
      WalkPlace(fs, current, true);
      var e := Walk(fs.nodes, current, true).value;
      if e.node.None? {
        FirstStays(Created(fs, e, Dir(map[], 0)), segs, k + 1, current);
      } else {
        j := FirstMadeFrom(fs, segs, k + 1);
      }
    }
  }

  // What making a path answers: nothing if it led to a directory all along, and
  // otherwise the shortest part of it that led nowhere before.
  lemma MkdirAllAnswers(fs: Fs, path: string)
    requires Good(fs) && MkdirAllOp(fs, Segments(path), 0, None).0.Ok?
    ensures var segs, r := Segments(path), MkdirAllOp(fs, Segments(path), 0, None);
            && (r.0.value.None? <==> forall m: nat :: 0 <= m < |segs| ==> LeadsToDirectory(fs, PartOf(segs, m)))
            && (r.0.value.None? ==> r.1 == fs)
            && (r.0.value.Some? <==> exists j: nat ::
                  j < |segs| && FirstMissing(fs, segs, 0, j) && r.0.value == Some(PartOf(segs, j)))
  {
    hide Good, Walk, Rooted, Segments;
    var j := FirstMadeFrom(fs, Segments(path), 0);
    GoodClosed(fs);
    if MkdirAllOp(fs, Segments(path), 0, None).0.value.Some? {
      assert FirstMissing(fs, Segments(path), 0, j);
      assert !LeadsToDirectory(fs, PartOf(Segments(path), j));
    }
  }

  // ---------- rename, from its paths ----------

  // What a rename of two paths that resolve answers and does: refused for its own
  // subtree exactly when the target lies there; when it goes through, nothing
  // happened if both were one node, and otherwise the old subtree is where the new
  // path was.
  lemma RenameWorks(fs: Fs, oldPath: string, newPath: string, from: Entry, to: Entry)
    requires Good(fs) && from.node.Some?
    requires Walk(fs.nodes, oldPath, false) == Ok(from) && Walk(fs.nodes, newPath, false) == Ok(to)
    ensures from.node.value in fs.nodes
    ensures RenameOp(fs, oldPath, newPath).0 == Err(EINVAL) <==>
            (from.node != to.node && IsDir(fs.nodes, from.node.value) && LiesBelow(fs, from.node.value, to))
    ensures RenameOp(fs, oldPath, newPath).0.Err? || from.node == to.node ==> RenameOp(fs, oldPath, newPath).1 == fs
    ensures RenameOp(fs, oldPath, newPath).0.Ok? && from.node != to.node ==>
              forall segs :: Named(RenameOp(fs, oldPath, newPath).1.nodes, segs) ==
                             NamedAfterMove(fs.nodes, Segments(from.path), Segments(to.path), segs)
  {
    hide Named, Inv, Walk, Segments, Canonical, Renamed;
    WalkPlace(fs, oldPath, false);
    WalkPlace(fs, newPath, false);
    if IsDir(fs.nodes, from.node.value) {
      SubtreeTest(fs, from, to);
    }
    if from.node != to.node && RenameRefusal(fs, from, to).None? { RenamedSpec(fs, from, to); }
  }
}
