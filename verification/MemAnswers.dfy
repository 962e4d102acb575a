// What each operation of the memory driver answers, case by case, and what it makes,
// said of the place its path leads to.
module MemAnswers {
  import opened Wrappers
  import opened Bytes
  import opened Paths
  import opened MemTree
  import opened MemCounts
  import opened MemWalk
  import opened MemFs
  import opened MemLaws

  // What a place holds.
  predicate Vacant(e: Entry) { e.node.None? }

  predicate OnDirectory(fs: Fs, e: Entry) { e.node.Some? && IsDir(fs.nodes, e.node.value) }

  predicate OnSpecial(fs: Fs, e: Entry)
  {
    e.node.Some? && e.node.value in fs.nodes && fs.nodes[e.node.value].body.Special?
  }

  ghost predicate OnEmptyDirectory(fs: Fs, e: Entry)
  {
    OnDirectory(fs, e) && forall name :: Child(fs.nodes, e.node.value, name).None?
  }

  lemma EmptyIs(fs: Fs, e: Entry)
    ensures OnEmptyDirectory(fs, e) <==> OnDirectory(fs, e) && |fs.nodes[e.node.value].body.children| == 0
  {
    if OnDirectory(fs, e) && |fs.nodes[e.node.value].body.children| != 0 {
      var children := fs.nodes[e.node.value].body.children;
      assert children.Keys != {};
      var name :| name in children.Keys;
      assert Child(fs.nodes, e.node.value, name).Some?;
    }
  }

  // ---------- rename ----------

  // Between two places on different nodes a rename is refused for exactly one of four
  // reasons: a directory into itself, a directory onto something else, a directory onto
  // one that is not empty, anything else onto a directory. A directory may go onto
  // nothing or onto an empty directory, anything else onto nothing or onto no directory.
  lemma RenameAnswers(fs: Fs, oldPath: string, newPath: string, from: Entry, to: Entry)
    requires Good(fs) && !Vacant(from) && from.node != to.node
    requires Walk(fs.nodes, oldPath, false) == Ok(from) && Walk(fs.nodes, newPath, false) == Ok(to)
    ensures var r, directory := RenameOp(fs, oldPath, newPath).0, OnDirectory(fs, from);
            var within := directory && LiesBelow(fs, from.node.value, to);
            && (r.Ok? <==> if directory then !within && (Vacant(to) || OnEmptyDirectory(fs, to))
                           else Vacant(to) || !OnDirectory(fs, to))
            && (r == Err(EINVAL) <==> within)
            && (r == Err(ENOTDIR) <==> directory && !within && !Vacant(to) && !OnDirectory(fs, to))
            && (r == Err(ENOTEMPTY) <==> directory && !within && OnDirectory(fs, to) && !OnEmptyDirectory(fs, to))
            && (r == Err(EISDIR) <==> !directory && OnDirectory(fs, to))
  {
    hide Named, Inv, Walk, Segments, Canonical, Renamed, LiesBelow, IsPathInside, OnEmptyDirectory, Place;
    WalkPlace(fs, oldPath, false);
    WalkPlace(fs, newPath, false);
    if OnDirectory(fs, from) { SubtreeTest(fs, from, to); }
    EmptyIs(fs, to);
  }

  // A path that does not resolve answers for itself, the old one first; two names of one
  // node are left as they are.
  lemma RenameOfNothing(fs: Fs, oldPath: string, newPath: string)
    requires Good(fs)
    ensures var source, target, r := Walk(fs.nodes, oldPath, false), Walk(fs.nodes, newPath, false),
                                 RenameOp(fs, oldPath, newPath);
            && (source.Err? ==> r == (Err(source.error), fs))
            && (source.Ok? && Vacant(source.value) ==> r == (Err(ENOENT), fs))
            && (source.Ok? && !Vacant(source.value) && target.Err? ==> r == (Err(target.error), fs))
            && (source.Ok? && !Vacant(source.value) && target.Ok? && target.value.node == source.value.node ==>
               r == (Ok(()), fs))
  {
    hide Named, Inv, Walk, Segments, Canonical, Renamed, Place;
  }

  // ---------- what is made ----------

  // The path leads to a node that was not there before, and it is that.
  ghost predicate Makes(fs: Fs, next: Fs, path: string, follow: bool, body: Body)
  {
    var r := Walk(next.nodes, path, follow);
    r.Ok? && r.value.node.Some? && r.value.node.value !in fs.nodes && r.value.node.value in next.nodes &&
    next.nodes[r.value.node.value].body == body
  }

  lemma CreatedMakes(fs: Fs, path: string, follow: bool, e: Entry, body: Body)
    requires Good(fs) && Walk(fs.nodes, path, follow) == Ok(e) && Vacant(e)
    requires (body.Dir? ==> body == Dir(map[], 0)) && (follow ==> !body.Symlink?)
    ensures Place(fs, e) && Makes(fs, Created(fs, e, body), path, follow, body)
  {
    hide Walk, Good, Place;
    CreatedByPath(fs, path, follow, e, body);
  }

  // A mknod makes an empty file, or a node of the kind asked for, with a device number
  // only where it means something; anything there is in the way, and a directory or a
  // link is not made by it.
  lemma MknodAnswers(fs: Fs, path: string, typ: NodeType, rdev: int, e: Entry)
    requires Good(fs) && Walk(fs.nodes, path, false) == Ok(e)
    ensures var (r, next) := MknodOp(fs, path, typ, rdev);
            && (r == Err(EEXIST) <==> !Vacant(e))
            && (r == Err(EPERM) <==> Vacant(e) && (typ.DirectoryType? || typ.LinkType?))
            && (r.Ok? <==> Vacant(e) && (typ.Regular? || typ.SpecialType?))
            && (r.Ok? && typ.Regular? ==> Makes(fs, next, path, false, File([])))
            && (r.Ok? && (typ == SpecialType(Fifo) || typ == SpecialType(Socket)) ==>
                  Makes(fs, next, path, false, Special(typ.kind, 0)))
            && (r.Ok? && (typ == SpecialType(CharDevice) || typ == SpecialType(BlockDevice)) ==>
                  Makes(fs, next, path, false, Special(typ.kind, rdev)))
  {
    hide Walk, Good, Place, Makes;
    WalkPlace(fs, path, false);
    if Vacant(e) {
      if typ.Regular? {
        CreatedMakes(fs, path, false, e, File([]));
      } else if typ.SpecialType? {
        CreatedMakes(fs, path, false, e, Special(typ.kind,
                                                 if typ.kind.CharDevice? || typ.kind.BlockDevice? then rdev else 0));
      }
    }
  }

  lemma MkdirAnswers(fs: Fs, path: string, e: Entry)
    requires Good(fs) && Walk(fs.nodes, path, false) == Ok(e)
    ensures var (r, next) := MkdirOp(fs, path);
            && (r == Err(EEXIST) <==> !Vacant(e))
            && (Vacant(e) <==> r.Ok?)
            && (r.Ok? ==> Makes(fs, next, path, false, Dir(map[], 0)))
  {
    hide Walk, Good, Place, Makes;
    WalkPlace(fs, path, false);
    if Vacant(e) { CreatedMakes(fs, path, false, e, Dir(map[], 0)); }
  }

  // An empty target is refused before what is in the way.
  lemma SymlinkAnswers(fs: Fs, target: string, path: string, e: Entry)
    requires Good(fs) && Walk(fs.nodes, path, false) == Ok(e)
    ensures var (r, next) := SymlinkOp(fs, target, path);
            && (r == Err(ENOENT) <==> target == "")
            && (r == Err(EEXIST) <==> target != "" && !Vacant(e))
            && (r.Ok? <==> target != "" && Vacant(e))
            && (r.Ok? ==> Makes(fs, next, path, false, Symlink(target)))
  {
    hide Walk, Good, Place, Makes;
    WalkPlace(fs, path, false);
    if Vacant(e) { CreatedMakes(fs, path, false, e, Symlink(target)); }
  }

  lemma ReadlinkAnswers(fs: Fs, path: string, e: Entry)
    requires Good(fs) && Walk(fs.nodes, path, false) == Ok(e)
    ensures var r, link := ReadlinkOp(fs, path), e.node.Some? && IsSymlink(fs.nodes, e.node.value);
            && (r == Err(ENOENT) <==> Vacant(e))
            && (r == Err(EINVAL) <==> !Vacant(e) && !link)
            && (link ==> r == Ok(fs.nodes[e.node.value].body.target))
  {
    hide Walk, Good, Place;
    WalkPlace(fs, path, false);
  }

  // ---------- open ----------

  // A place an open does not get past: nothing there and nothing to be made, something
  // there that should not be, a directory to be written, a special file. Where it gets
  // past, it answers the file that is there, or a new empty one the path now leads to.
  lemma OpenAnswers(fs: Fs, path: string, flags: OpenFlags, e: Entry)
    requires Good(fs) && Walk(fs.nodes, path, !(flags.create && flags.exclusive)) == Ok(e)
    ensures var (r, next) := OpenOp(fs, path, flags);
            var writesDirectory := flags.write && OnDirectory(fs, e);
            && (r == Err(ENOENT) <==> Vacant(e) && !flags.create)
            && (r == Err(EEXIST) <==> !Vacant(e) && flags.exclusive)
            && (r == Err(EISDIR) <==> !Vacant(e) && !flags.exclusive && writesDirectory)
            && (r == Err(ENXIO) <==> !flags.exclusive && OnSpecial(fs, e))
            && (r.Ok? <==> if Vacant(e) then flags.create
                           else !flags.exclusive && !writesDirectory && !OnSpecial(fs, e))
            && (r.Ok? && !Vacant(e) ==> r == Ok(e.node.value))
            && (r.Ok? && Vacant(e) ==>
                  Makes(fs, next, path, !(flags.create && flags.exclusive), File([])) &&
                  Walk(next.nodes, path, !(flags.create && flags.exclusive)).value.node == Some(r.value))
  {
    hide Walk, Good, Canonical, Segments, Created, ResizeOp;
    var follow := !(flags.create && flags.exclusive);
    WalkPlace(fs, path, follow);
    if Vacant(e) && flags.create {
      CreatedMakes(fs, path, follow, e, File([]));
      CreatedByPath(fs, path, follow, e, File([]));
    }
  }

  // A truncating open leaves the file empty, under every name it has; any other open of
  // what is there changes nothing at all.
  lemma OpenTruncates(fs: Fs, path: string, flags: OpenFlags, e: Entry)
    requires Good(fs) && Walk(fs.nodes, path, !(flags.create && flags.exclusive)) == Ok(e) && !Vacant(e)
    requires OpenOp(fs, path, flags).0.Ok?
    ensures var next, i := OpenOp(fs, path, flags).1, e.node.value;
            if flags.truncate && !OnDirectory(fs, e) then
              && i in next.nodes && next.nodes[i].body == File([])
              && (forall j: nat :: j != i ==> (j in next.nodes <==> j in fs.nodes) &&
                                              (j in fs.nodes ==> next.nodes[j] == fs.nodes[j]))
              && forall segs :: Named(next.nodes, segs) == Named(fs.nodes, segs)
            else next == fs
  {
    hide Walk, Good, Canonical, Segments, Named;
    WalkPlace(fs, path, !(flags.create && flags.exclusive));
  }

  // ---------- removing, linking, truncating ----------

  // The root, anything but a directory, and a directory with an entry are not removed as
  // directories; where nothing stands in the way, the name alone goes.
  lemma RmdirAnswers(fs: Fs, path: string, e: Entry)
    requires Good(fs) && Walk(fs.nodes, path, false) == Ok(e)
    ensures var (r, next) := RmdirOp(fs, path);
            && (r == Err(ENOENT) <==> Vacant(e))
            && (r == Err(EBUSY) <==> e.node == Some(ROOT))
            && (r == Err(ENOTDIR) <==> !Vacant(e) && !OnDirectory(fs, e))
            && (r == Err(ENOTEMPTY) <==> OnDirectory(fs, e) && e.node != Some(ROOT) && !OnEmptyDirectory(fs, e))
            && (r.Ok? <==> OnEmptyDirectory(fs, e) && e.node != Some(ROOT))
            && (r.Ok? ==> OnlyGone(fs, next, e))
  {
    hide Walk, Good, Canonical, Segments, Named, UnlinkEntry, OnEmptyDirectory, Inv;
    WalkPlace(fs, path, false);
    EmptyIs(fs, e);
    if RmdirOp(fs, path).0.Ok? { UnlinkSpec(fs, e); }
  }

  // The place means nothing afterwards, and every other path what it did.
  ghost predicate OnlyGone(fs: Fs, next: Fs, e: Entry)
  {
    forall segs :: Named(next.nodes, segs) == if segs == Segments(e.path) then None else Named(fs.nodes, segs)
  }

  // An unlink takes anything but a directory.
  lemma UnlinkAnswers(fs: Fs, path: string, e: Entry)
    requires Good(fs) && Walk(fs.nodes, path, false) == Ok(e)
    ensures var (r, next) := UnlinkOp(fs, path);
            && (r == Err(ENOENT) <==> Vacant(e))
            && (r == Err(EISDIR) <==> OnDirectory(fs, e))
            && (r.Ok? <==> !Vacant(e) && !OnDirectory(fs, e))
            && (r.Ok? ==> OnlyGone(fs, next, e))
  {
    hide Walk, Good, Canonical, Segments, Named, UnlinkEntry, Inv;
    WalkPlace(fs, path, false);
    if UnlinkOp(fs, path).0.Ok? { UnlinkSpec(fs, e); }
  }

  // A directory gets no second name, and nothing gets one that is taken.
  lemma LinkAnswers(fs: Fs, existingPath: string, newPath: string, from: Entry, to: Entry)
    requires Good(fs) && Walk(fs.nodes, existingPath, false) == Ok(from) && Walk(fs.nodes, newPath, false) == Ok(to)
    ensures var (r, next) := LinkOp(fs, existingPath, newPath);
            && (r == Err(ENOENT) <==> Vacant(from))
            && (r == Err(EPERM) <==> OnDirectory(fs, from))
            && (r == Err(EEXIST) <==> !Vacant(from) && !OnDirectory(fs, from) && !Vacant(to))
            && (r.Ok? <==> !Vacant(from) && !OnDirectory(fs, from) && Vacant(to))
            && (r.Ok? ==> forall segs :: Named(next.nodes, segs) ==
                                         if segs == Segments(to.path) then from.node else Named(fs.nodes, segs))
  {
    hide Walk, Good, Canonical, Segments, Named, HardLink, Inv;
    WalkPlace(fs, existingPath, false);
    WalkPlace(fs, newPath, false);
    if LinkOp(fs, existingPath, newPath).0.Ok? { LinkSpec(fs, from, to); }
  }

  lemma TruncateAnswers(fs: Fs, path: string, length: nat, e: Entry)
    requires Good(fs) && Walk(fs.nodes, path, true) == Ok(e)
    ensures var r := TruncateOp(fs, path, length).0;
            && (r == Err(ENOENT) <==> Vacant(e))
            && (r == Err(EISDIR) <==> OnDirectory(fs, e))
            && (r == Err(EINVAL) <==> OnSpecial(fs, e))
            && (r.Ok? <==> !Vacant(e) && !OnDirectory(fs, e) && !OnSpecial(fs, e))
  {
    hide Walk, Good, Canonical, Segments, Named, Inv;
    WalkPlace(fs, path, true);
  }

  // An operation whose path does not resolve answers what the walk did.
  lemma Unresolved(fs: Fs, path: string, error: Errno)
    requires Good(fs)
    ensures Walk(fs.nodes, path, false) == Err(error) ==>
              && MkdirOp(fs, path).0 == Err(error) && RmdirOp(fs, path).0 == Err(error)
              && UnlinkOp(fs, path).0 == Err(error) && ReadlinkOp(fs, path) == Err(error)
              && (forall typ, rdev :: MknodOp(fs, path, typ, rdev).0 == Err(error))
              && (forall target :: SymlinkOp(fs, target, path).0 == Err(error))
              && (forall newPath :: LinkOp(fs, path, newPath).0 == Err(error))
    ensures Walk(fs.nodes, path, true) == Err(error) ==> forall length :: TruncateOp(fs, path, length).0 == Err(error)
    ensures forall flags: OpenFlags :: Walk(fs.nodes, path, !(flags.create && flags.exclusive)) == Err(error) ==>
              OpenOp(fs, path, flags).0 == Err(error)
  {
    hide Walk, Good, Place;
  }
}
