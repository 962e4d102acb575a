// The memory driver: every operation, on the state and as a method, what each
// does to the namespace, and what no run of them can break.
module MemFs {
  import opened Wrappers
  import opened Bytes
  import opened Paths
  import opened MemTree
  import opened MemCounts
  import opened MemWalk

  datatype OpenFlags = OpenFlags(read: bool, write: bool, create: bool, truncate: bool, append: bool, exclusive: bool)

  // The file types a mode can carry.
  datatype NodeType = Regular | DirectoryType | LinkType | SpecialType(kind: Kind)

  // The state is one its own bookkeeping describes.
  ghost predicate Good(fs: Fs) { exists at :: Inv(fs, at) }

  const EMPTY_FS: Fs := Fs(map[ROOT := Node(1, Dir(map[], 0))], 2, 1, 1)

  lemma EmptyGood()
    ensures Inv(EMPTY_FS, map[ROOT := []]) && Good(EMPTY_FS)
  {
    var nodes := EMPTY_FS.nodes;
    assert Named(nodes, []) == Some(ROOT);
    assert Subdirs(nodes, ROOT) == {};
    assert LiveCount(nodes, 2) == LiveCount(nodes, 1) + 1 && LiveCount(nodes, 1) == LiveCount(nodes, 0) == 0;
    assert BlockSum(nodes, 2) == BlockSum(nodes, 1) + 1 && BlockSum(nodes, 1) == BlockSum(nodes, 0) == 0;
    assert Inv(EMPTY_FS, map[ROOT := []]);
  }

  // ---------- what a walk gives an operation ----------

  ghost predicate Place(fs: Fs, e: Entry)
  {
    var segs := Segments(e.path);
    && Canonical(fs.nodes, e)
    && IsDir(fs.nodes, e.parent)
    && (e.node.Some? ==> e.node.value in fs.nodes)
    && (segs != [] ==> Child(fs.nodes, e.parent, e.name) == e.node)
    && (segs == [] <==> e.node == Some(ROOT))
  }

  lemma WalkPlace(fs: Fs, path: string, follow: bool)
    requires Good(fs)
    ensures IsDir(fs.nodes, ROOT)
    ensures var r := Walk(fs.nodes, path, follow);
            r.Ok? ==> Place(fs, r.value) &&
                      (follow && r.value.node.Some? ==> !IsSymlink(fs.nodes, r.value.node.value))
  {
    hide Walk, Segments, Named;
    var at :| Inv(fs, at);
    RootIsDir(fs.nodes, at);
    WalkCanonical(fs.nodes, path, follow);
    var r := Walk(fs.nodes, path, follow);
    if r.Ok? {
      CanonicalPlace(fs, at, r.value);
    }
  }

  lemma CanonicalPlace(fs: Fs, at: map<nat, seq<string>>, e: Entry)
    requires Inv(fs, at) && Canonical(fs.nodes, e)
    ensures Place(fs, e)
    ensures Segments(e.path) != [] ==> e.parent in at && at[e.parent] == Init(Segments(e.path))
    ensures Segments(e.path) != [] ==> Segments(e.path) == Init(Segments(e.path)) + [e.name]
  {
    hide Segments, Named, Rooted, Clean, LinksCounted, TotalsCounted;
    var segs := Segments(e.path);
    NamedRoot(fs.nodes);
    RootIsDir(fs.nodes, at);
    if segs != [] {
      assert segs == Init(segs) + [Last(segs)];
      NamedSnoc(fs.nodes, Init(segs), Last(segs));
      NamedDir(fs.nodes, at, Init(segs));
    }
    if e.node.Some? {
      NamedDir(fs.nodes, at, segs);
    }
  }

  // ---------- the operations, on the state ----------

  // A node under a name nothing has yet.
  function Created(fs: Fs, e: Entry, body: Body): (next: Fs)
    requires Good(fs) && Place(fs, e) && e.node.None? && (body.Dir? ==> body == Dir(map[], 0))
    ensures Good(next)
    ensures forall segs :: Named(next.nodes, segs) == if segs == Segments(e.path) then Some(fs.nextIno)
            else Named(fs.nodes, segs)
    ensures fs.nextIno !in fs.nodes && fs.nextIno in next.nodes && next.nodes[fs.nextIno].body == body
  {
    CreatedSpec(fs, e, body);
    Make(fs, e.parent, e.name, body)
  }

  // Making a node names it and changes no other name.
  lemma CreatedSpec(fs: Fs, e: Entry, body: Body)
    requires Good(fs) && Place(fs, e) && e.node.None? && (body.Dir? ==> body == Dir(map[], 0))
    ensures IsDir(fs.nodes, e.parent) && fs.nextIno !in fs.nodes
    ensures var next := Make(fs, e.parent, e.name, body);
            && Good(next)
            && fs.nextIno in next.nodes && next.nodes[fs.nextIno].body == body
            && forall segs :: Named(next.nodes, segs) == if segs == Segments(e.path) then Some(fs.nextIno)
               else Named(fs.nodes, segs)
  {
    hide Segments, Named, Rooted, Clean, Tree, LinksCounted, TotalsCounted;
    var at :| Inv(fs, at);
    CanonicalPlace(fs, at, e);
    MakeKeeps(fs, at, e.parent, e.name, body);
    var next := Make(fs, e.parent, e.name, body);
    forall segs
      ensures Named(next.nodes, segs) == if segs == Segments(e.path) then Some(fs.nextIno) else Named(fs.nodes, segs)
    {
      NamedEntered(fs.nodes, at, next.nodes, e.parent, e.name, fs.nextIno, segs);
    }
  }

  lemma UnlinkSpec(fs: Fs, e: Entry)
    requires Good(fs) && Place(fs, e) && e.node.Some? && e.node != Some(ROOT)
    requires IsDir(fs.nodes, e.node.value) ==> fs.nodes[e.node.value].body.children == map[]
    ensures var next := UnlinkEntry(fs, e.parent, e.name, e.node.value);
            && Good(next) && next.nodes.Keys == fs.nodes.Keys
            && forall segs :: Named(next.nodes, segs) == if segs == Segments(e.path) then None
               else Named(fs.nodes, segs)
  {
    hide Segments, Named, Rooted, Clean, Tree, LinksCounted, TotalsCounted;
    var at :| Inv(fs, at);
    CanonicalPlace(fs, at, e);
    UnlinkKeeps(fs, at, e.parent, e.name, e.node.value);
    var next := UnlinkEntry(fs, e.parent, e.name, e.node.value);
    forall segs ensures Named(next.nodes, segs) == if segs == Segments(e.path) then None else Named(fs.nodes, segs) {
      NamedRemoved(fs.nodes, at, next.nodes, e.parent, e.name, e.node.value, segs);
    }
  }

  function MknodOp(fs: Fs, path: string, typ: NodeType, rdev: int): (r: (Result<()>, Fs))
    requires Good(fs)
    ensures Good(r.1)
  {
    WalkPlace(fs, path, false);
    match Walk(fs.nodes, path, false)
    case Err(error) => (Err(error), fs)
    case Ok(e) =>
      if e.node.Some? then (Err(EEXIST), fs)
      else match typ
        case Regular => (Ok(()), Created(fs, e, File([])))
        case SpecialType(kind) =>
          (Ok(()), Created(fs, e, Special(kind, if kind.CharDevice? || kind.BlockDevice? then rdev else 0)))
        case _ => (Err(EPERM), fs)
  }

  function OpenOp(fs: Fs, path: string, flags: OpenFlags): (r: (Result<nat>, Fs))
    requires Good(fs)
    ensures Good(r.1)
  {
    var follow := !(flags.create && flags.exclusive);
    WalkPlace(fs, path, follow);
    match Walk(fs.nodes, path, follow)
    case Err(error) => (Err(error), fs)
    case Ok(e) =>
      if e.node.None? then
        if !flags.create then (Err(ENOENT), fs)
        else (Ok(fs.nextIno), Created(fs, e, File([])))
      else
        var i := e.node.value;
        if flags.exclusive then (Err(EEXIST), fs)
        else if IsDir(fs.nodes, i) && flags.write then (Err(EISDIR), fs)
        else if fs.nodes[i].body.Special? then (Err(ENXIO), fs)
        else if flags.truncate && !IsDir(fs.nodes, i) then (Ok(i), ResizeOp(fs, i, 0))
        else (Ok(i), fs)
  }

  // The bytes of a file change length, whether anything still names it or not.
  function ResizeOp(fs: Fs, i: nat, size: nat): (next: Fs)
    requires Good(fs) && i in fs.nodes && fs.nodes[i].body.File?
    ensures Good(next)
    ensures forall segs :: Named(next.nodes, segs) == Named(fs.nodes, segs)
  {
    SetDataGood(fs, i, Resized(fs.nodes[i].body.data, size));
    SetData(fs, i, Resized(fs.nodes[i].body.data, size))
  }

  lemma SetDataGood(fs: Fs, i: nat, data: seq<Byte>)
    requires Good(fs) && i in fs.nodes && fs.nodes[i].body.File?
    ensures Good(SetData(fs, i, data))
    ensures forall segs :: Named(SetData(fs, i, data).nodes, segs) == Named(fs.nodes, segs)
  {
    hide Tree, LinksCounted, TotalsCounted;
    var at :| Inv(fs, at);
    SetDataKeeps(fs, at, i, data);
  }

  // A write through an open handle, which may outlive every name of the file.
  function WriteOp(fs: Fs, i: nat, from: nat, bytes: seq<Byte>): (next: Fs)
    requires Good(fs) && i in fs.nodes && fs.nodes[i].body.File?
    ensures Good(next)
    ensures forall segs :: Named(next.nodes, segs) == Named(fs.nodes, segs)
  {
    SetDataGood(fs, i, Written(fs.nodes[i].body.data, from, bytes));
    SetData(fs, i, Written(fs.nodes[i].body.data, from, bytes))
  }

  function MkdirOp(fs: Fs, path: string): (r: (Result<()>, Fs))
    requires Good(fs)
    ensures Good(r.1)
  {
    WalkPlace(fs, path, false);
    match Walk(fs.nodes, path, false)
    case Err(error) => (Err(error), fs)
    case Ok(e) =>
      if e.node.Some? then (Err(EEXIST), fs) else (Ok(()), Created(fs, e, Dir(map[], 0)))
  }

  // Every directory of the path, from the top; what was made stays made.
  function MkdirAllOp(fs: Fs, segs: seq<string>, k: nat, first: Option<string>): (r: (Result<Option<string>>, Fs))
    requires Good(fs) && k <= |segs|
    ensures Good(r.1)
    decreases |segs| - k
  {
    if k == |segs| then (Ok(first), fs)
    else
      var current := Rooted(segs[..k + 1]);
      WalkPlace(fs, current, true);
      match Walk(fs.nodes, current, true)
      case Err(error) => (Err(error), fs)
      case Ok(e) =>
        if e.node.None? then
          MkdirAllOp(Created(fs, e, Dir(map[], 0)), segs, k + 1, if first.None? then Some(current) else first)
        else if !IsDir(fs.nodes, e.node.value) then (Err(if k == |segs| - 1 then EEXIST else ENOTDIR), fs)
        else MkdirAllOp(fs, segs, k + 1, first)
  }

  function RmdirOp(fs: Fs, path: string): (r: (Result<()>, Fs))
    requires Good(fs)
    ensures Good(r.1)
  {
    WalkPlace(fs, path, false);
    match Walk(fs.nodes, path, false)
    case Err(error) => (Err(error), fs)
    case Ok(e) =>
      if e.node.None? then (Err(ENOENT), fs)
      else if e.node == Some(ROOT) then (Err(EBUSY), fs)
      else if !IsDir(fs.nodes, e.node.value) then (Err(ENOTDIR), fs)
      else if |fs.nodes[e.node.value].body.children| > 0 then (Err(ENOTEMPTY), fs)
      else
        UnlinkSpec(fs, e);
        (Ok(()), UnlinkEntry(fs, e.parent, e.name, e.node.value))
  }

  function UnlinkOp(fs: Fs, path: string): (r: (Result<()>, Fs))
    requires Good(fs)
    ensures Good(r.1)
  {
    WalkPlace(fs, path, false);
    match Walk(fs.nodes, path, false)
    case Err(error) => (Err(error), fs)
    case Ok(e) =>
      if e.node.None? then (Err(ENOENT), fs)
      else if IsDir(fs.nodes, e.node.value) then (Err(EISDIR), fs)
      else
        UnlinkSpec(fs, e);
        (Ok(()), UnlinkEntry(fs, e.parent, e.name, e.node.value))
  }

  // What a rename checks, in order, once both ends are resolved.
  function RenameRefusal(fs: Fs, from: Entry, to: Entry): Option<Errno>
    requires from.node.Some?
  {
    var directory := IsDir(fs.nodes, from.node.value);
    if directory && IsPathInside(to.path, from.path) then Some(EINVAL)
    else if to.node.Some? && directory && !IsDir(fs.nodes, to.node.value) then Some(ENOTDIR)
    else if to.node.Some? && directory && |fs.nodes[to.node.value].body.children| > 0 then Some(ENOTEMPTY)
    else if to.node.Some? && !directory && IsDir(fs.nodes, to.node.value) then Some(EISDIR)
    else None
  }

  function Renamed(fs: Fs, from: Entry, to: Entry): Fs
    requires Place(fs, from) && Place(fs, to) && from.node.Some?
  {
    Move(Cleared(fs, to), from.parent, from.name, to.parent, to.name, from.node.value)
  }

  function RenameOp(fs: Fs, oldPath: string, newPath: string): (r: (Result<()>, Fs))
    requires Good(fs)
    ensures Good(r.1)
  {
    WalkPlace(fs, oldPath, false);
    WalkPlace(fs, newPath, false);
    match Walk(fs.nodes, oldPath, false)
    case Err(error) => (Err(error), fs)
    case Ok(from) =>
      if from.node.None? then (Err(ENOENT), fs)
      else match Walk(fs.nodes, newPath, false)
        case Err(error) => (Err(error), fs)
        case Ok(to) =>
          if from.node == to.node then (Ok(()), fs)
          else
            var refusal := RenameRefusal(fs, from, to);
            if refusal.Some? then (Err(refusal.value), fs)
            else
              RenamedSpec(fs, from, to);
              (Ok(()), Renamed(fs, from, to))
  }

  lemma RootNotEmpty(fs: Fs, at: map<nat, seq<string>>, segs: seq<string>)
    requires Inv(fs, at) && segs != [] && Named(fs.nodes, segs).Some?
    ensures |fs.nodes[ROOT].body.children| > 0
  {
    RootIsDir(fs.nodes, at);
    NamedRoot(fs.nodes);
    assert Named(fs.nodes, segs[..1]).Some? by { NamedPrefixes(fs.nodes, segs, segs[..1]); }
    assert segs[..1] == [] + [segs[0]];
    NamedSnoc(fs.nodes, [], segs[0]);
    assert segs[0] in fs.nodes[ROOT].body.children;
  }

  // The ends of a rename that was not refused: neither is the root, and the
  // new place is outside what moves.
  lemma RenameEnds(fs: Fs, at: map<nat, seq<string>>, from: Entry, to: Entry)
    requires Inv(fs, at) && Place(fs, from) && Place(fs, to)
    requires from.node.Some? && from.node != to.node && RenameRefusal(fs, from, to).None?
    ensures Segments(from.path) != [] && Segments(to.path) != []
    ensures !(Segments(from.path) <= Init(Segments(to.path)))
    ensures !(Segments(from.path) <= Segments(to.path))
    ensures to.node.Some? && IsDir(fs.nodes, to.node.value) ==> fs.nodes[to.node.value].body.children == map[]
  {
    hide Segments, Named, Rooted, Clean, LinksCounted, TotalsCounted;
    var f, t := Segments(from.path), Segments(to.path);
    RootIsDir(fs.nodes, at);
    InsideIsPrefix(t, f);
    if f != [] && t == [] {
      RootNotEmpty(fs, at, f);
    }
    if f <= Init(t) && !IsDir(fs.nodes, from.node.value) {
      PrefixIsDir(fs.nodes, f, t);
    }
    PrefixOfSnoc(f, Init(t), Last(t));
    assert t == Init(t) + [Last(t)];
  }

  lemma PrefixIsDir(nodes: Nodes, f: seq<string>, t: seq<string>)
    requires t != [] && f <= Init(t) && Named(nodes, Init(t)).Some? && IsDir(nodes, Named(nodes, Init(t)).value)
    ensures Named(nodes, f).Some? && IsDir(nodes, Named(nodes, f).value)
  {
    if f != Init(t) {
      NamedPrefix(nodes, Init(t), |f|);
      assert Init(t)[..|f|] == f;
    }
  }

  function Cleared(fs: Fs, to: Entry): Fs
    requires Place(fs, to)
  {
    if to.node.Some? then UnlinkEntry(fs, to.parent, to.name, to.node.value) else fs
  }

  // With the destination cleared, what moves is still where it was.
  lemma ClearedSpec(fs: Fs, at: map<nat, seq<string>>, from: Entry, to: Entry) returns (at1: map<nat, seq<string>>)
    requires Inv(fs, at) && Place(fs, from) && Place(fs, to)
    requires from.node.Some? && from.node != to.node && RenameRefusal(fs, from, to).None?
    ensures Inv(Cleared(fs, to), at1)
    ensures from.parent in at1 && at1[from.parent] == Init(Segments(from.path))
    ensures to.parent in at1 && at1[to.parent] == Init(Segments(to.path))
    ensures Child(Cleared(fs, to).nodes, from.parent, from.name) == from.node
    ensures Child(Cleared(fs, to).nodes, to.parent, to.name) == None
    ensures forall segs :: Named(Cleared(fs, to).nodes, segs) ==
              if segs == Segments(to.path) then None else Named(fs.nodes, segs)
  {
    hide Segments, Named, Rooted, Clean, Tree, LinksCounted, TotalsCounted, RenameRefusal, UnlinkEntry;
    RenameEnds(fs, at, from, to);
    CanonicalPlace(fs, at, from);
    CanonicalPlace(fs, at, to);
    if to.node.Some? {
      var i := to.node.value;
      UnlinkKeeps(fs, at, to.parent, to.name, i);
      at1 := at - {i};
      var next := UnlinkEntry(fs, to.parent, to.name, i);
      RemovedIsEmpty(fs.nodes, next.nodes, to.parent, to.name, i, from.name);
      RemovedIsEmpty(fs.nodes, next.nodes, to.parent, to.name, i, to.name);
      forall segs ensures Named(next.nodes, segs) == if segs == Segments(to.path) then None else Named(fs.nodes, segs) {
        NamedRemoved(fs.nodes, at, next.nodes, to.parent, to.name, i, segs);
      }
    } else {
      at1 := at;
      assert Named(fs.nodes, Segments(to.path)) == None;
    }
  }

  // A rename moves the whole subtree: afterwards the new path and everything
  // below it mean what the old path and everything below it meant, the old
  // path means nothing, and every other path means what it did.
  lemma RenamedSpec(fs: Fs, from: Entry, to: Entry)
    requires Good(fs) && Place(fs, from) && Place(fs, to)
    requires from.node.Some? && from.node != to.node && RenameRefusal(fs, from, to).None?
    ensures IsDir(Cleared(fs, to).nodes, from.parent) && IsDir(Cleared(fs, to).nodes, to.parent)
    ensures Good(Renamed(fs, from, to))
    ensures forall segs :: Named(Renamed(fs, from, to).nodes, segs) ==
              NamedAfterMove(fs.nodes, Segments(from.path), Segments(to.path), segs)
  {
    hide Segments, Named, Rooted, Clean, Tree, LinksCounted, TotalsCounted, RenameRefusal, UnlinkEntry, Move;
    var at :| Inv(fs, at);
    RenameEnds(fs, at, from, to);
    CanonicalPlace(fs, at, from);
    CanonicalPlace(fs, at, to);
    var at1 := ClearedSpec(fs, at, from, to);
    var mid, i := Cleared(fs, to), from.node.value;
    var f, t := Segments(from.path), Segments(to.path);
    MoveKeeps(mid, at1, from.parent, from.name, to.parent, to.name, i);
    forall segs ensures Named(Renamed(fs, from, to).nodes, segs) == NamedAfterMove(fs.nodes, f, t, segs) {
      NamedMoved(mid.nodes, at1, Renamed(fs, from, to).nodes, from.parent, from.name, to.parent, to.name, i, segs);
      RebasedIsNot(f, t, segs);
    }
  }

  lemma RebasedIsNot(f: seq<string>, t: seq<string>, segs: seq<string>)
    requires !(f <= t)
    ensures t <= segs ==> Rebased(segs, t, f) != t
  {
  }

  function LinkOp(fs: Fs, existingPath: string, newPath: string): (r: (Result<()>, Fs))
    requires Good(fs)
    ensures Good(r.1)
  {
    WalkPlace(fs, existingPath, false);
    WalkPlace(fs, newPath, false);
    match Walk(fs.nodes, existingPath, false)
    case Err(error) => (Err(error), fs)
    case Ok(from) =>
      if from.node.None? then (Err(ENOENT), fs)
      else if IsDir(fs.nodes, from.node.value) then (Err(EPERM), fs)
      else match Walk(fs.nodes, newPath, false)
        case Err(error) => (Err(error), fs)
        case Ok(to) =>
          if to.node.Some? then (Err(EEXIST), fs)
          else
            LinkSpec(fs, from, to);
            (Ok(()), HardLink(fs, from.node.value, to.parent, to.name))
  }

  // A hard link gives the node one more name and changes no other.
  lemma LinkSpec(fs: Fs, from: Entry, to: Entry)
    requires Good(fs) && Place(fs, from) && Place(fs, to)
    requires from.node.Some? && !IsDir(fs.nodes, from.node.value) && to.node.None?
    ensures Good(HardLink(fs, from.node.value, to.parent, to.name))
    ensures forall segs :: Named(HardLink(fs, from.node.value, to.parent, to.name).nodes, segs) ==
              if segs == Segments(to.path) then from.node else Named(fs.nodes, segs)
  {
    hide Segments, Named, Rooted, Clean, Tree, LinksCounted, TotalsCounted, HardLink;
    var at :| Inv(fs, at);
    CanonicalPlace(fs, at, to);
    var i := from.node.value;
    NamedIsLive(fs.nodes, at, Segments(from.path), i);
    HardLinkKeeps(fs, at, i, to.parent, to.name);
    var next := HardLink(fs, i, to.parent, to.name);
    forall segs
      ensures Named(next.nodes, segs) == if segs == Segments(to.path) then from.node else Named(fs.nodes, segs)
    {
      NamedEntered(fs.nodes, at, next.nodes, to.parent, to.name, i, segs);
    }
  }

  function SymlinkOp(fs: Fs, target: string, path: string): (r: (Result<()>, Fs))
    requires Good(fs)
    ensures Good(r.1)
  {
    WalkPlace(fs, path, false);
    match Walk(fs.nodes, path, false)
    case Err(error) => (Err(error), fs)
    case Ok(e) =>
      if target == "" then (Err(ENOENT), fs)
      else if e.node.Some? then (Err(EEXIST), fs)
      else (Ok(()), Created(fs, e, Symlink(target)))
  }

  function ReadlinkOp(fs: Fs, path: string): Result<string>
    requires Good(fs)
  {
    WalkPlace(fs, path, false);
    match Walk(fs.nodes, path, false)
    case Err(error) => Err(error)
    case Ok(e) =>
      if e.node.None? then Err(ENOENT)
      else if !IsSymlink(fs.nodes, e.node.value) then Err(EINVAL)
      else Ok(fs.nodes[e.node.value].body.target)
  }

  function TruncateOp(fs: Fs, path: string, length: nat): (r: (Result<()>, Fs))
    requires Good(fs)
    ensures Good(r.1)
  {
    WalkPlace(fs, path, true);
    match Walk(fs.nodes, path, true)
    case Err(error) => (Err(error), fs)
    case Ok(e) =>
      if e.node.None? then (Err(ENOENT), fs)
      else if IsDir(fs.nodes, e.node.value) then (Err(EISDIR), fs)
      else if fs.nodes[e.node.value].body.Special? then (Err(EINVAL), fs)
      else (Ok(()), ResizeOp(fs, e.node.value, length))
  }

  // ---------- runs ----------

  datatype Op =
    | Mknod(path: string, typ: NodeType, rdev: int)
    | Open(path: string, flags: OpenFlags)
    | Mkdir(path: string)
    | MkdirAll(path: string)
    | Rmdir(path: string)
    | Unlink(path: string)
    | Rename(oldPath: string, newPath: string)
    | LinkTo(existingPath: string, newPath: string)
    | SymlinkTo(target: string, path: string)
    | Truncate(path: string, length: nat)
    | HandleWrite(node: nat, from: nat, bytes: seq<Byte>)
    | HandleTruncate(node: nat, size: nat)

  function Apply(fs: Fs, op: Op): (next: Fs)
    requires Good(fs)
    ensures Good(next)
  {
    match op
    case Mknod(path, typ, rdev) => MknodOp(fs, path, typ, rdev).1
    case Open(path, flags) => OpenOp(fs, path, flags).1
    case Mkdir(path) => MkdirOp(fs, path).1
    case MkdirAll(path) => MkdirAllOp(fs, Segments(path), 0, None).1
    case Rmdir(path) => RmdirOp(fs, path).1
    case Unlink(path) => UnlinkOp(fs, path).1
    case Rename(oldPath, newPath) => RenameOp(fs, oldPath, newPath).1
    case LinkTo(existingPath, newPath) => LinkOp(fs, existingPath, newPath).1
    case SymlinkTo(target, path) => SymlinkOp(fs, target, path).1
    case Truncate(path, length) => TruncateOp(fs, path, length).1
    case HandleWrite(i, from, bytes) =>
      if i in fs.nodes && fs.nodes[i].body.File? then WriteOp(fs, i, from, bytes) else fs
    case HandleTruncate(i, size) =>
      if i in fs.nodes && fs.nodes[i].body.File? then ResizeOp(fs, i, size) else fs
  }

  // The state after any sequence of operations on a new filesystem, failed
  // ones and writes to unlinked files included.
  function Run(ops: seq<Op>): (fs: Fs)
    ensures Good(fs)
  {
    EmptyGood();
    if ops == [] then EMPTY_FS else Apply(Run(ops[..|ops| - 1]), ops[|ops| - 1])
  }

  // In every reachable state the directories form a tree and every count
  // equals what recounting the whole tree would give.
  lemma RunInvariants(ops: seq<Op>) returns (at: map<nat, seq<string>>)
    ensures var fs := Run(ops);
            && (forall d, names :: d in at && Down(fs.nodes, d, names) == Some(d) ==> names == [])
            && (forall i: nat :: i in fs.nodes ==> (fs.nodes[i].nlink > 0 <==> Reachable(fs.nodes, i)))
            && (forall i: nat :: i in fs.nodes && !IsDir(fs.nodes, i) ==> fs.nodes[i].nlink == |EntriesOf(fs.nodes, i)|)
            && (forall d: nat :: IsDir(fs.nodes, d) ==> NlinkOf(fs.nodes[d]) == 2 + |Subdirs(fs.nodes, d)|)
            && (forall d: nat :: d in at <==> IsDir(fs.nodes, d) && Reachable(fs.nodes, d))
            && fs.nodeCount == |LiveSet(fs.nodes, fs.nextIno)|
            && fs.usedBlocks == BlockSum(fs.nodes, fs.nextIno)
            && (forall i :: i in fs.nodes ==> i < fs.nextIno)
  {
    hide Run, Named, Down, Tree, Reachable, EntriesOf, Subdirs;
    var fs := Run(ops);
    at :| Inv(fs, at);
    forall d, names | d in at && Down(fs.nodes, d, names) == Some(d) ensures names == [] {
      NoCycle(fs.nodes, at, d, names);
    }
    forall i: nat | i in fs.nodes ensures fs.nodes[i].nlink > 0 <==> Reachable(fs.nodes, i) {
      LiveIffReachable(fs, at, i);
    }
    forall d: nat ensures d in at <==> IsDir(fs.nodes, d) && Reachable(fs.nodes, d) {
      if d in at { AtNamed(fs.nodes, at, d); }
    }
    LiveCountIsSize(fs.nodes, fs.nextIno);
  }

  // In every reachable state no directory has two entries, and the root has none.
  lemma RunOneEntry(ops: seq<Op>, d: nat, n: string, e: nat, m: string)
    requires var nodes := Run(ops).nodes;
             Child(nodes, d, n).Some? && IsDir(nodes, Child(nodes, d, n).value) &&
                 Child(nodes, e, m) == Child(nodes, d, n)
    ensures d == e && n == m && Child(Run(ops).nodes, d, n) != Some(ROOT)
  {
    hide Run, Tree;
    var fs := Run(ops);
    var at :| Inv(fs, at);
    OneEntryEach(fs.nodes, at, d, n, e, m);
  }

  // A place inside a directory's subtree.
  ghost predicate LiesBelow(fs: Fs, d: nat, to: Entry)
  {
    to.node != Some(ROOT) && Below(fs.nodes, d, to.parent)
  }

  // The string test a rename refuses by asks exactly whether the destination
  // is the moved directory or lies below it.
  lemma SubtreeTest(fs: Fs, from: Entry, to: Entry)
    requires Good(fs) && Place(fs, from) && Place(fs, to)
    requires from.node.Some? && IsDir(fs.nodes, from.node.value)
    ensures IsPathInside(to.path, from.path) <==>
            to.node == from.node || LiesBelow(fs, from.node.value, to)
  {
    hide Segments, Named, Rooted, Clean, LinksCounted, TotalsCounted, Below;
    var at :| Inv(fs, at);
    var f, t := Segments(from.path), Segments(to.path);
    CanonicalPlace(fs, at, from);
    CanonicalPlace(fs, at, to);
    NamedDir(fs.nodes, at, f);
    RootIsDir(fs.nodes, at);
    InsideIsPrefix(t, f);
    if to.node == from.node {
      NamedDir(fs.nodes, at, t);
    }
    if t != [] {
      InsideIsBelow(fs.nodes, at, from.node.value, to.parent);
      assert t == Init(t) + [Last(t)];
      PrefixOfSnoc(f, Init(t), Last(t));
    }
  }

  // What was made is what a walk of the place now finds.
  lemma CreatedIsFound(fs: Fs, e: Entry, body: Body)
    requires Good(fs) && Place(fs, e) && e.node.None? && (body.Dir? ==> body == Dir(map[], 0))
    ensures Walk(Created(fs, e, body).nodes, e.path, false) == Ok(e.(node := Some(fs.nextIno)))
  {
    hide Segments, Rooted, Clean, LinksCounted, TotalsCounted;
    var next := Created(fs, e, body);
    var at :| Inv(next, at);
    var segs := Segments(e.path);
    InitDiffers(segs);
    assert Named(next.nodes, Init(segs)) == Some(e.parent);
    assert IsDir(next.nodes, e.parent);
    WalkPlain(next.nodes, at, e.path, false);
  }

  lemma InitDiffers(segs: seq<string>)
    ensures segs != [] ==> Init(segs) != segs
  {
  }

  // ---------- the driver ----------

  class MemoryDriver {
    var nodes: Nodes
    var nextIno: nat
    var nodeCount: int
    var usedBlocks: int

    ghost function State(): Fs
      reads this
    {
      Fs(nodes, nextIno, nodeCount, usedBlocks)
    }

    ghost predicate Valid()
      reads this
    {
      Good(State())
    }

    constructor ()
      ensures Valid() && State() == EMPTY_FS == Run([])
    {
      EmptyGood();
      nodes, nextIno, nodeCount, usedBlocks := map[ROOT := Node(1, Dir(map[], 0))], 2, 1, 1;
    }

    // ----- the three places a total can change -----

    method NewNode(body: Body) returns (i: nat)
      modifies this
      ensures i == old(nextIno) && State() == CreateNode(old(State()), body)
    {
      i := nextIno;
      nextIno := nextIno + 1;
      nodes := nodes[i := Node(1, body)];
      nodeCount := nodeCount + 1;
      usedBlocks := usedBlocks + BlocksOf(nodes[i]);
    }

    method Link(parent: nat, name: string, i: nat)
      requires IsDir(nodes, parent)
      modifies this
      ensures State() == LinkEntry(old(State()), parent, name, i)
    {
      var dir := nodes[parent].body;
      var more := if IsDir(nodes, i) then 1 else 0;
      nodes := nodes[parent := nodes[parent].(body := Dir(dir.children[name := i], dir.subdirs + more))];
    }

    method RemoveEntry(parent: nat, name: string, i: nat)
      requires IsDir(nodes, parent) && i in nodes
      modifies this
      ensures State() == UnlinkEntry(old(State()), parent, name, i)
    {
      var dir := nodes[parent].body;
      var less := if IsDir(nodes, i) then 1 else 0;
      nodes := nodes[parent := nodes[parent].(body := Dir(dir.children - {name}, dir.subdirs - less))];
      nodes := nodes[i := nodes[i].(nlink := nodes[i].nlink - 1)];
      if nodes[i].nlink == 0 {
        nodeCount := nodeCount - 1;
        usedBlocks := usedBlocks - BlocksOf(nodes[i]);
      }
    }

    method SetBytes(i: nat, data: seq<Byte>)
      requires Valid() && i in nodes && nodes[i].body.File?
      modifies this
      ensures Valid() && State() == SetData(old(State()), i, data)
    {
      hide Good;
      SetDataGood(State(), i, data);
      var before := BlocksOf(nodes[i]);
      nodes := nodes[i := nodes[i].(body := File(data))];
      if nodes[i].nlink > 0 {
        usedBlocks := usedBlocks + (BlocksOf(nodes[i]) - before);
      }
    }

    method Resize(i: nat, size: nat)
      requires Valid() && i in nodes && nodes[i].body.File?
      modifies this
      ensures Valid() && State() == ResizeOp(old(State()), i, size)
    {
      SetBytes(i, Resized(nodes[i].body.data, size));
    }

    // ----- operations -----

    method WalkTo(path: string, follow: bool) returns (r: Result<Entry>)
      requires Valid()
      ensures r == Walk(nodes, path, follow)
      ensures r.Ok? ==> Place(State(), r.value)
    {
      WalkPlace(State(), path, follow);
      r := WalkPath(nodes, path, follow, 0);
    }

    method MakeAt(e: Entry, body: Body) returns (i: nat)
      requires Valid() && Place(State(), e) && e.node.None? && (body.Dir? ==> body == Dir(map[], 0))
      modifies this
      ensures Valid() && i == old(nextIno) && State() == Created(old(State()), e, body)
    {
      CreatedSpec(State(), e, body);
      i := NewNode(body);
      Link(e.parent, e.name, i);
    }

    method MknodAt(path: string, typ: NodeType, rdev: int) returns (r: Result<()>)
      requires Valid()
      modifies this
      ensures Valid() && (r, State()) == MknodOp(old(State()), path, typ, rdev)
    {
      var walked := WalkTo(path, false);
      if walked.Err? { return Err(walked.error); }
      var e := walked.value;
      if e.node.Some? { return Err(EEXIST); }
      if typ.Regular? {
        var _ := MakeAt(e, File([]));
        return Ok(());
      }
      if !typ.SpecialType? { return Err(EPERM); }
      var _ := MakeAt(e, Special(typ.kind, if typ.kind.CharDevice? || typ.kind.BlockDevice? then rdev else 0));
      return Ok(());
    }

    method OpenAt(path: string, flags: OpenFlags) returns (r: Result<nat>)
      requires Valid()
      modifies this
      ensures Valid() && (r, State()) == OpenOp(old(State()), path, flags)
    {
      WalkPlace(State(), path, !(flags.create && flags.exclusive));
      var walked := WalkTo(path, !(flags.create && flags.exclusive));
      if walked.Err? { return Err(walked.error); }
      var e := walked.value;
      if e.node.None? {
        if !flags.create { return Err(ENOENT); }
        var i := MakeAt(e, File([]));
        return Ok(i);
      }
      var node := e.node.value;
      if flags.exclusive { return Err(EEXIST); }
      if IsDir(nodes, node) && flags.write { return Err(EISDIR); }
      if nodes[node].body.Special? { return Err(ENXIO); }
      if flags.truncate && !IsDir(nodes, node) {
        Resize(node, 0);
      }
      return Ok(node);
    }

    method MkdirAt(path: string) returns (r: Result<()>)
      requires Valid()
      modifies this
      ensures Valid() && (r, State()) == MkdirOp(old(State()), path)
    {
      var walked := WalkTo(path, false);
      if walked.Err? { return Err(walked.error); }
      if walked.value.node.Some? { return Err(EEXIST); }
      var _ := MakeAt(walked.value, Dir(map[], 0));
      return Ok(());
    }

    method MkdirAllAt(path: string) returns (r: Result<Option<string>>)
      requires Valid()
      modifies this
      ensures Valid() && (r, State()) == MkdirAllOp(old(State()), Segments(path), 0, None)
    {
      hide Segments, Rooted, Clean, Place, Walk, CleanName;
      var segments := SplitPath(path);
      var first := None;
      var current := "/";
      var k := 0;
      EmptyPath();
      while k < |segments|
        invariant Valid() && 0 <= k <= |segments|
        invariant Clean(segments) && current == Rooted(segments[..k])
        invariant MkdirAllOp(State(), segments, k, first) == MkdirAllOp(old(State()), segments, 0, None)
      {
        NextComponent(segments, k);
        current := JoinPath([current, segments[k]]);
        WalkPlace(State(), current, true);
        var walked := WalkTo(current, true);
        if walked.Err? { return Err(walked.error); }
        var e := walked.value;
        if e.node.None? {
          var _ := MakeAt(e, Dir(map[], 0));
          if first.None? { first := Some(current); }
        } else if !IsDir(nodes, e.node.value) {
          return Err(if k == |segments| - 1 then EEXIST else ENOTDIR);
        }
        k := k + 1;
      }
      return Ok(first);
    }

    method RmdirAt(path: string) returns (r: Result<()>)
      requires Valid()
      modifies this
      ensures Valid() && (r, State()) == RmdirOp(old(State()), path)
    {
      var walked := WalkTo(path, false);
      if walked.Err? { return Err(walked.error); }
      var e := walked.value;
      if e.node.None? { return Err(ENOENT); }
      if e.node == Some(ROOT) { return Err(EBUSY); }
      if !IsDir(nodes, e.node.value) { return Err(ENOTDIR); }
      if |nodes[e.node.value].body.children| > 0 { return Err(ENOTEMPTY); }
      UnlinkSpec(State(), e);
      RemoveEntry(e.parent, e.name, e.node.value);
      return Ok(());
    }

    method UnlinkAt(path: string) returns (r: Result<()>)
      requires Valid()
      modifies this
      ensures Valid() && (r, State()) == UnlinkOp(old(State()), path)
    {
      var walked := WalkTo(path, false);
      if walked.Err? { return Err(walked.error); }
      var e := walked.value;
      if e.node.None? { return Err(ENOENT); }
      if IsDir(nodes, e.node.value) { return Err(EISDIR); }
      UnlinkSpec(State(), e);
      RemoveEntry(e.parent, e.name, e.node.value);
      return Ok(());
    }

    method RenameTo(oldPath: string, newPath: string) returns (r: Result<()>)
      requires Valid()
      modifies this
      ensures Valid() && (r, State()) == RenameOp(old(State()), oldPath, newPath)
    {
      hide Segments, Rooted, Clean, Named, Good, Canonical, Renamed;
      var walkedFrom := WalkTo(oldPath, false);
      if walkedFrom.Err? { return Err(walkedFrom.error); }
      var from := walkedFrom.value;
      if from.node.None? { return Err(ENOENT); }
      var walkedTo := WalkTo(newPath, false);
      if walkedTo.Err? { return Err(walkedTo.error); }
      var to := walkedTo.value;
      if from.node == to.node { return Ok(()); }
      var directory := IsDir(nodes, from.node.value);
      if directory && IsPathInside(to.path, from.path) { return Err(EINVAL); }
      if to.node.Some? {
        if directory {
          if !IsDir(nodes, to.node.value) { return Err(ENOTDIR); }
          if |nodes[to.node.value].body.children| > 0 { return Err(ENOTEMPTY); }
        } else if IsDir(nodes, to.node.value) {
          return Err(EISDIR);
        }
      }
      MoveEntry(from, to);
      return Ok(());
    }

    method MoveEntry(from: Entry, to: Entry)
      requires Valid() && Place(State(), from) && Place(State(), to)
      requires from.node.Some? && from.node != to.node && RenameRefusal(State(), from, to).None?
      modifies this
      ensures Valid() && State() == Renamed(old(State()), from, to)
    {
      hide Good, Canonical, Segments, RenameRefusal;
      RenamedSpec(State(), from, to);
      if to.node.Some? {
        RemoveEntry(to.parent, to.name, to.node.value);
      }
      // Not an unlink: the node is moving, so its links and the totals stay.
      TakeOut(from.parent, from.name, from.node.value);
      Link(to.parent, to.name, from.node.value);
    }

    method TakeOut(parent: nat, name: string, i: nat)
      requires IsDir(nodes, parent)
      modifies this
      ensures State() == TakeEntry(old(State()), parent, name, i)
    {
      var dir := nodes[parent].body;
      var less := if IsDir(nodes, i) then 1 else 0;
      nodes := nodes[parent := nodes[parent].(body := Dir(dir.children - {name}, dir.subdirs - less))];
    }

    method LinkAt(existingPath: string, newPath: string) returns (r: Result<()>)
      requires Valid()
      modifies this
      ensures Valid() && (r, State()) == LinkOp(old(State()), existingPath, newPath)
    {
      hide Segments, Rooted, Named, Good, Canonical;
      var walkedFrom := WalkTo(existingPath, false);
      if walkedFrom.Err? { return Err(walkedFrom.error); }
      var from := walkedFrom.value;
      if from.node.None? { return Err(ENOENT); }
      var i := from.node.value;
      if IsDir(nodes, i) { return Err(EPERM); }
      var walkedTo := WalkTo(newPath, false);
      if walkedTo.Err? { return Err(walkedTo.error); }
      var to := walkedTo.value;
      if to.node.Some? { return Err(EEXIST); }
      LinkSpec(State(), from, to);
      nodes := nodes[i := nodes[i].(nlink := nodes[i].nlink + 1)];
      Link(to.parent, to.name, i);
      return Ok(());
    }

    method SymlinkAt(target: string, path: string) returns (r: Result<()>)
      requires Valid()
      modifies this
      ensures Valid() && (r, State()) == SymlinkOp(old(State()), target, path)
    {
      var walked := WalkTo(path, false);
      if walked.Err? { return Err(walked.error); }
      if target == "" { return Err(ENOENT); }
      if walked.value.node.Some? { return Err(EEXIST); }
      var _ := MakeAt(walked.value, Symlink(target));
      return Ok(());
    }

    method TruncateAt(path: string, length: nat) returns (r: Result<()>)
      requires Valid()
      modifies this
      ensures Valid() && (r, State()) == TruncateOp(old(State()), path, length)
    {
      WalkPlace(State(), path, true);
      var walked := WalkTo(path, true);
      if walked.Err? { return Err(walked.error); }
      var e := walked.value;
      if e.node.None? { return Err(ENOENT); }
      if IsDir(nodes, e.node.value) { return Err(EISDIR); }
      if nodes[e.node.value].body.Special? { return Err(EINVAL); }
      Resize(e.node.value, length);
      return Ok(());
    }

    method WriteNode(i: nat, from: nat, bytes: seq<Byte>)
      requires Valid() && i in nodes && nodes[i].body.File?
      modifies this
      ensures Valid() && State() == WriteOp(old(State()), i, from, bytes)
    {
      SetBytes(i, Written(nodes[i].body.data, from, bytes));
    }

    lemma TotalsHere()
      requires Valid()
      ensures nodeCount == |LiveSet(nodes, nextIno)| && usedBlocks == BlockSum(nodes, nextIno)
    {
      TotalsAre(State());
    }

    // What `statfs` has free, out of a million blocks and a million files.
    method Statfs(path: string) returns (r: Result<(int, int)>)
      requires Valid()
      ensures r.Ok? ==>
                r.value == (0x10_0000 - BlockSum(nodes, nextIno), 0x10_0000 - |LiveSet(nodes, nextIno)|)
    {
      hide *;
      TotalsHere();
      var walked := WalkTo(path, true);
      if walked.Err? { return Err(walked.error); }
      if walked.value.node.None? { return Err(ENOENT); }
      return Ok((0x10_0000 - usedBlocks, 0x10_0000 - nodeCount));
    }
  }

  lemma TotalsAre(fs: Fs)
    requires Good(fs)
    ensures fs.nodeCount == |LiveSet(fs.nodes, fs.nextIno)| && fs.usedBlocks == BlockSum(fs.nodes, fs.nextIno)
  {
    hide Tree, LinksCounted;
    var at :| Inv(fs, at);
    LiveCountIsSize(fs.nodes, fs.nextIno);
  }

  lemma NextComponent(segments: seq<string>, k: nat)
    requires Clean(segments) && k < |segments|
    ensures JoinPath([Rooted(segments[..k]), segments[k]]) == Rooted(segments[..k + 1])
  {
    assert CleanName(segments[k]);
    SegmentsRooted(segments[..k]);
    JoinPathChild(Rooted(segments[..k]), segments[k]);
    assert segments[..k] + [segments[k]] == segments[..k + 1];
  }
}
