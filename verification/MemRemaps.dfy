// The remap that a session makes of a rename's two paths, beside what the memory
// driver did with them: when the tables go on agreeing with the filesystem.
module MemRemaps {
  import opened Wrappers
  import opened Paths
  import opened MemTree
  import opened MemCounts
  import opened MemWalk
  import opened MemFs
  import opened MemRenames
  import Identities
  import MemLaws
  import PathTables

  // ---------- the tables beside the filesystem ----------

  // Every bound path leads to the node its entry stands for.
  ghost predicate Faithful<V>(t: PathTables.Table<V>, stands: map<nat, nat>, nodes: Nodes)
  {
    forall p :: p in t.byPath ==> t.byPath[p] in stands && Named(nodes, Segments(p)) == Some(stands[t.byPath[p]])
  }

  // No binding that is still right is lost.
  ghost predicate Complete<V>(t: PathTables.Table<V>, u: PathTables.Table<V>, stands: map<nat, nat>, nodes: Nodes)
  {
    forall p :: p in t.byPath && p !in u.byPath ==>
      t.byPath[p] !in stands || Named(nodes, Segments(p)) != Some(stands[t.byPath[p]])
  }

  lemma InsideIs(q: string, p: string)
    requires Normal(q) && Normal(p)
    ensures IsPathInside(q, p) <==> Segments(p) <= Segments(q)
  {
    IsPathInsideIsSegmentPrefix(q, p);
  }

  // A path the remap leaves bound, over segments: where it came from.
  lemma OriginSegments<V>(t: PathTables.Table<V>, from: string, to: string, q: string)
    requires PathTables.NormalPaths(t) && PathTables.Renames(from, to) && PathTables.Survives(t.byPath, from, to, q)
    ensures PathTables.Origin(q, from, to) in t.byPath
    ensures var f, o, segs := Segments(from), Segments(to), Segments(q);
            && (o <= segs <==> IsPathInside(q, to))
            && Segments(PathTables.Origin(q, from, to)) == (if o <= segs then Rebased(segs, o, f) else segs)
            && (!(o <= segs) ==> !(f <= segs))
  {
    hide Segments, Normal, IsPathInside;
    var origin := PathTables.Origin(q, from, to);
    if IsPathInside(q, to) {
      PathTables.TargetBack(q, from, to);
      PathTables.TargetSegments(origin, from, to);
      InsideIs(origin, from);
    } else {
      InsideIs(q, from);
    }
    InsideIs(q, to);
  }

  lemma FaithfulAt<V>(nodes: Nodes, next: Nodes, from: string, to: string, t: PathTables.Table<V>,
                      u: PathTables.Table<V>,
                      stands: map<nat, nat>, q: string)
    requires PathTables.NormalPaths(t) && PathTables.Renames(from, to) && Faithful(t, stands, nodes)
    requires PathTables.Remapped(t, u, from, to) && q in u.byPath
    requires Named(next, Segments(q)) == NamedAfterMove(nodes, Segments(from), Segments(to), Segments(q))
    ensures u.byPath[q] in stands && Named(next, Segments(q)) == Some(stands[u.byPath[q]])
  {
    hide Segments, Named, Normal, IsPathInside, PathTables.Coherent, PathTables.Survives, PathTables.Origin;
    OriginSegments(t, from, to, q);
    assert PathTables.Origin(q, from, to) in t.byPath;
  }

  // After a rename that moved something between canonical paths.
  lemma MovedStaysFaithful<V>(fs: Fs, from: Entry, to: Entry, t: PathTables.Table<V>, u: PathTables.Table<V>,
                              stands: map<nat, nat>)
    requires Good(fs) && Place(fs, from) && Place(fs, to)
    requires from.node.Some? && from.node != to.node && RenameRefusal(fs, from, to).None?
    requires PathTables.NormalPaths(t) && Faithful(t, stands, fs.nodes)
    requires PathTables.Remapped(t, u, from.path, to.path)
    ensures Faithful(u, stands, Renamed(fs, from, to).nodes)
  {
    hide Segments, Named, Good, Canonical, PathTables.Remapped, PathTables.NormalPaths, PathTables.Renames,
         PathTables.Unrelated, Renamed, RenameRefusal;
    MovedEnds(fs, from, to);
    RenamedSpec(fs, from, to);
    forall q | q in u.byPath
      ensures u.byPath[q] in stands && Named(Renamed(fs, from, to).nodes, Segments(q)) == Some(stands[u.byPath[q]])
    {
      FaithfulAt(fs.nodes, Renamed(fs, from, to).nodes, from.path, to.path, t, u, stands, q);
    }
  }

  // A binding that is lost was at the place taken, and something else is there now.
  lemma LostIsWrong<V>(fs: Fs, from: Entry, to: Entry, t: PathTables.Table<V>, u: PathTables.Table<V>,
      stands: map<nat, nat>, p: string)
    requires Good(fs) && Place(fs, from) && Place(fs, to)
    requires from.node.Some? && from.node != to.node && RenameRefusal(fs, from, to).None?
    requires PathTables.NormalPaths(t) && Faithful(t, stands, fs.nodes) && PathTables.Remapped(t, u, from.path, to.path)
    requires p in t.byPath && p !in u.byPath
    ensures Named(Renamed(fs, from, to).nodes, Segments(p)) != Some(stands[t.byPath[p]])
  {
    MovedEnds(fs, from, to);
    RenamedSpec(fs, from, to);
    assert !PathTables.Survives(t.byPath, from.path, to.path, p);
    hide Segments, Named, Inv, Canonical, PathTables.Coherent, Renamed;
    var f, o, segs := Segments(from.path), Segments(to.path), Segments(p);
    InsideIs(p, from.path);
    InsideIs(p, to.path);
    PathTables.InsideOne(p, from.path, to.path);
    if o <= segs {
      AtThePlaceTaken(fs, from, to, segs);
      assert Rebased(segs, o, f) == f;
    }
  }

  // Nothing but the place itself can be named at or below where a rename puts things.
  lemma AtThePlaceTaken(fs: Fs, from: Entry, to: Entry, segs: seq<string>)
    requires Good(fs) && Place(fs, from) && Place(fs, to)
    requires from.node.Some? && from.node != to.node && RenameRefusal(fs, from, to).None?
    requires Segments(to.path) <= segs && Named(fs.nodes, segs).Some?
    ensures segs == Segments(to.path) && Named(fs.nodes, segs) == to.node
  {
    hide Segments, Rooted, Clean, LinksCounted, TotalsCounted, RenameRefusal, Named;
    var at :| Inv(fs, at);
    RenameEnds(fs, at, from, to);
    if Segments(to.path) < segs {
      NamedBelow(fs.nodes, Segments(to.path), segs);
    }
  }

  // The session renames in the driver and then remaps the same two paths. Where those
  // are the places themselves, with no link on the way, every bound path goes on
  // leading to what its entry stands for; and no right binding is lost if and only if
  // the two were different nodes, or one path, or not bound.
  lemma RenameThenRemap<V>(fs: Fs, oldPath: string, newPath: string, t: PathTables.Table<V>, u: PathTables.Table<V>,
                           stands: map<nat, nat>)
    requires Good(fs) && RenameOp(fs, oldPath, newPath).0.Ok?
    requires Walk(fs.nodes, oldPath, false).value.path == oldPath &&
             Walk(fs.nodes, newPath, false).value.path == newPath
    requires PathTables.Coherent(t) && PathTables.NormalPaths(t) && Faithful(t, stands, fs.nodes)
    requires PathTables.Remapped(t, u, oldPath, newPath)
    ensures var next := RenameOp(fs, oldPath, newPath).1.nodes;
            && Faithful(u, stands, next)
            && (Complete(t, u, stands, next) <==>
                  Walk(fs.nodes, oldPath, false).value.node != Walk(fs.nodes, newPath, false).value.node
                  || oldPath == newPath || (oldPath !in t.byPath && newPath !in t.byPath))
  {
    hide Named, Segments, Inv, Canonical, Normal, Walk, PathTables.Coherent, PathTables.Remapped, Renamed,
         RenameRefusal, PathTables.NormalPaths;
    WalkPlace(fs, oldPath, false);
    WalkPlace(fs, newPath, false);
    var from, to := Walk(fs.nodes, oldPath, false).value, Walk(fs.nodes, newPath, false).value;
    if from.node != to.node {
      MovedStaysFaithful(fs, from, to, t, u, stands);
      forall p | p in t.byPath && p !in u.byPath
        ensures Named(Renamed(fs, from, to).nodes, Segments(p)) != Some(stands[t.byPath[p]])
      {
        LostIsWrong(fs, from, to, t, u, stands, p);
      }
    } else {
      SameNodeRemapped(fs, from, to, t, u, stands);
    }
  }

  // A directory has one path.
  lemma OneDirectoryPath(fs: Fs, from: Entry, to: Entry)
    requires Good(fs) && Place(fs, from) && Place(fs, to) && from.node.Some? && from.node == to.node
    ensures from.path == to.path || !IsDir(fs.nodes, from.node.value)
  {
    hide Segments, Named, Rooted, Clean, LinksCounted, TotalsCounted;
    var at :| Inv(fs, at);
    if IsDir(fs.nodes, from.node.value) {
      NamedDir(fs.nodes, at, Segments(from.path));
      NamedDir(fs.nodes, at, Segments(to.path));
    }
  }

  // Below what is no directory only its own path is bound.
  lemma OnlyItself<V>(fs: Fs, e: Entry, t: PathTables.Table<V>, stands: map<nat, nat>, p: string)
    requires Place(fs, e) && e.node.Some? && !IsDir(fs.nodes, e.node.value) && Normal(e.path)
    requires PathTables.NormalPaths(t) && Faithful(t, stands, fs.nodes) && p in t.byPath
    ensures IsPathInside(p, e.path) <==> p == e.path
    ensures p == e.path ==> Named(fs.nodes, Segments(p)) == e.node
  {
    hide Segments, Named, IsPathInside, Rooted;
    InsideIs(p, e.path);
    InsideIs(e.path, e.path);
    PathTables.NotTheRoot(p);
    PathTables.NotTheRoot(e.path);
    if Segments(e.path) <= Segments(p) && Segments(e.path) != Segments(p) {
      NamedBelow(fs.nodes, Segments(e.path), Segments(p));
    }
  }

  lemma PlaceIsNormal(fs: Fs, e: Entry)
    requires Place(fs, e)
    ensures Normal(e.path)
  {
    SegmentsRooted(Segments(e.path));
  }

  // Two paths of one file: after the remap the second is bound if the first was, to
  // what that was, the first is not, and nothing else changes.
  lemma SecondName<V>(fs: Fs, from: Entry, to: Entry, t: PathTables.Table<V>, u: PathTables.Table<V>,
                      stands: map<nat, nat>, q: string)
    requires Place(fs, from) && Place(fs, to) && from.node.Some? && from.node == to.node
    requires !IsDir(fs.nodes, from.node.value) && from.path != to.path
    requires PathTables.NormalPaths(t) && Faithful(t, stands, fs.nodes)
    requires PathTables.Remapped(t, u, from.path, to.path)
    ensures q in u.byPath <==> if q == to.path then from.path in t.byPath else q in t.byPath && q != from.path
    ensures q in u.byPath ==> u.byPath[q] == t.byPath[if q == to.path then from.path else q]
  {
    hide Segments, Named, Normal, Canonical, PathTables.Coherent;
    PlaceIsNormal(fs, from);
    PlaceIsNormal(fs, to);
    if q in t.byPath {
      OnlyItself(fs, from, t, stands, q);
      OnlyItself(fs, to, t, stands, q);
    }
    if from.path in t.byPath {
      OnlyItself(fs, from, t, stands, from.path);
      OnlyItself(fs, to, t, stands, from.path);
    }
    if IsPathInside(q, to.path) {
      PathTables.TargetBack(q, from.path, to.path);
      var origin := PathTables.Target(q, to.path, from.path);
      if origin in t.byPath {
        OnlyItself(fs, from, t, stands, origin);
        OnlyItself(fs, to, t, stands, origin);
      }
      TargetEnds(q, from.path, to.path);
    }
    assert q in u.byPath <==> PathTables.Survives(t.byPath, from.path, to.path, q);
  }

  lemma TargetEnds(q: string, from: string, to: string)
    requires IsPathInside(q, to)
    ensures |to| <= |q| && (PathTables.Target(q, to, from) == from <==> q == to)
  {
    assert q[..|to|] == to;
    assert q == to + q[|to|..];
  }

  // Between two names of one node the driver does nothing.
  lemma SameNodeRemapped<V>(fs: Fs, from: Entry, to: Entry, t: PathTables.Table<V>, u: PathTables.Table<V>,
                            stands: map<nat, nat>)
    requires Good(fs) && Place(fs, from) && Place(fs, to) && from.node.Some? && from.node == to.node
    requires PathTables.Coherent(t) && PathTables.NormalPaths(t) && Faithful(t, stands, fs.nodes)
    requires PathTables.Remapped(t, u, from.path, to.path)
    ensures Faithful(u, stands, fs.nodes)
    ensures Complete(t, u, stands, fs.nodes) <==>
            from.path == to.path || (from.path !in t.byPath && to.path !in t.byPath)
  {
    hide Segments, Named, Normal, Canonical, Good, PathTables.Coherent, PathTables.Remapped, PathTables.NormalPaths;
    OneDirectoryPath(fs, from, to);
    if from.path == to.path {
      Identities.RemapToItself(t, u, from.path);
    } else {
      assert Named(fs.nodes, Segments(from.path)) == from.node && Named(fs.nodes, Segments(to.path)) == to.node by {
        PlaceIsNamed(fs, from);
        PlaceIsNamed(fs, to);
      }
      forall q ensures
        && (q in u.byPath <==> if q == to.path then from.path in t.byPath else q in t.byPath && q != from.path)
        && (q in u.byPath ==> u.byPath[q] == t.byPath[if q == to.path then from.path else q])
      {
        SecondName(fs, from, to, t, u, stands, q);
      }
      SecondNameAgrees(fs.nodes, from, to, t, u, stands);
    }
  }

  lemma PlaceIsNamed(fs: Fs, e: Entry)
    requires Place(fs, e)
    ensures Named(fs.nodes, Segments(e.path)) == e.node
  {
    hide Segments, Named;
  }

  lemma SecondNameAgrees<V>(nodes: Nodes, from: Entry, to: Entry, t: PathTables.Table<V>, u: PathTables.Table<V>,
                            stands: map<nat, nat>)
    requires from.path != to.path && from.node == to.node && Faithful(t, stands, nodes)
    requires Named(nodes, Segments(from.path)) == from.node && Named(nodes, Segments(to.path)) == to.node
    requires forall q :: q in u.byPath <==>
             if q == to.path then from.path in t.byPath else q in t.byPath && q != from.path
    requires forall q :: q in u.byPath ==> u.byPath[q] == t.byPath[if q == to.path then from.path else q]
    ensures Faithful(u, stands, nodes)
    ensures Complete(t, u, stands, nodes) <==> from.path !in t.byPath && to.path !in t.byPath
  {
    hide Segments, Named;
  }

  // ---------- paths with links on the way ----------

  // A path that a walk does not end at has no name of its own.
  lemma NotItself(fs: Fs, path: string, e: Entry)
    requires Good(fs) && Normal(path) && Walk(fs.nodes, path, false) == Ok(e) && e.path != path
    ensures Named(fs.nodes, Segments(path)).None?
  {
    hide Segments, Named, Rooted, Clean, LinksCounted, TotalsCounted;
    var at :| Inv(fs, at);
    var segs := Segments(path);
    PathTables.NotTheRoot(path);
    EmptyPath();
    if segs != [] && Named(fs.nodes, segs).Some? {
      assert segs == Init(segs) + [Last(segs)];
      NamedSnoc(fs.nodes, Init(segs), Last(segs));
      NamedPrefixes(fs.nodes, segs, Init(segs));
      WalkPlain(fs.nodes, at, path, false);
    }
  }

  // So nothing is bound at or below it.
  lemma NothingInside<V>(nodes: Nodes, t: PathTables.Table<V>, stands: map<nat, nat>, path: string, p: string)
    requires Normal(path) && Named(nodes, Segments(path)).None?
    requires PathTables.NormalPaths(t) && Faithful(t, stands, nodes) && p in t.byPath
    ensures !IsPathInside(p, path)
  {
    hide Segments, Named, Normal, IsPathInside;
    InsideIs(p, path);
    if Segments(path) <= Segments(p) {
      NamedPrefixes(nodes, Segments(p), Segments(path));
    }
  }

  // A walk along directories comes to each of them in turn.
  lemma {:induction false} DescendTo(nodes: Nodes, segs: seq<string>, i: nat)
    requires i < |segs| && (i > 0 ==> Named(nodes, segs[..i]).Some? && IsDir(nodes, Named(nodes, segs[..i]).value))
    requires IsDir(nodes, ROOT)
    ensures Named(nodes, segs[..i]).Some?
    ensures Descend(nodes, ROOT, segs, 0, false, 0) == Descend(nodes, Named(nodes, segs[..i]).value, segs, i, false, 0)
  {
    hide Rooted, Retarget, Named;
    NamedRoot(nodes);
    if i == 0 {
      assert segs[..0] == [];
    } else {
      assert segs[..i] == segs[..i - 1] + [segs[i - 1]];
      NamedSnoc(nodes, segs[..i - 1], segs[i - 1]);
      DescendTo(nodes, segs, i - 1);
    }
  }

  // A walk that ends at a place it passes on the way has gone through a link there.
  lemma PassedPlaceIsLink(fs: Fs, path: string, e: Entry)
    requires Good(fs) && Normal(path) && Walk(fs.nodes, path, false) == Ok(e) && Place(fs, e)
    requires Segments(e.path) != [] && Segments(e.path) < Segments(path)
    requires e.node.Some? && IsDir(fs.nodes, e.node.value) ==> fs.nodes[e.node.value].body.children == map[]
    ensures e.node.Some? && IsSymlink(fs.nodes, e.node.value)
  {
    hide Segments, Named, Rooted, Clean, Retarget;
    MemLaws.GoodClosed(fs);
    var segs, o := Segments(path), Segments(e.path);
    var i := |o| - 1;
    assert segs[..i] == Init(o) && segs[i] == Last(o) && o == Init(o) + [Last(o)];
    NamedRoot(fs.nodes);
    PlaceParent(fs, e);
    RootedIs(path);
    if e.node.Some? { EmptyHasNothing(fs.nodes, e.node.value); }
    DescendTo(fs.nodes, segs, i);
    PathsDiffer(path, e.path);
  }

  lemma EmptyHasNothing(nodes: Nodes, d: nat)
    requires IsDir(nodes, d) ==> nodes[d].body.children == map[]
    ensures forall name :: Child(nodes, d, name).None?
  {
  }

  lemma PlaceParent(fs: Fs, e: Entry)
    requires Place(fs, e) && Segments(e.path) != []
    ensures Named(fs.nodes, Init(Segments(e.path))) == Some(e.parent) && IsDir(fs.nodes, e.parent)
    ensures Child(fs.nodes, e.parent, Last(Segments(e.path))) == e.node
  {
    hide Segments, Named;
  }

  lemma PathsDiffer(a: string, b: string)
    requires Segments(a) != Segments(b)
    ensures a != b
  {
  }

  lemma RootedIs(path: string)
    requires Normal(path)
    ensures Rooted(Segments(path)) == path
  {
    PathTables.NotTheRoot(path);
  }

  // Nothing has a name at or below a path that a rename reached through a link.
  lemma NothingArrives(fs: Fs, newPath: string, from: Entry, to: Entry, segs: seq<string>)
    requires Good(fs) && Place(fs, from) && Place(fs, to) && Normal(newPath)
    requires from.node.Some? && from.node != to.node && RenameRefusal(fs, from, to).None?
    requires Walk(fs.nodes, newPath, false) == Ok(to) && to.path != newPath && Segments(newPath) <= segs
    ensures NamedAfterMove(fs.nodes, Segments(from.path), Segments(to.path), segs).None?
  {
    hide Segments, Named, Rooted, Clean, LinksCounted, TotalsCounted, Walk, Normal;
    var at :| Inv(fs, at);
    var f, o, n := Segments(from.path), Segments(to.path), Segments(newPath);
    NotItself(fs, newPath, to);
    RenameEnds(fs, at, from, to);
    PlaceIsNormal(fs, to);
    RootedIs(newPath);
    RootedIs(to.path);
    PlaceParent(fs, to);
    if o <= segs {
      PathTables.PrefixesCompare(o, n, segs);
      if n <= o && n != o {
        PrefixOfSnoc(n, Init(o), Last(o));
        assert o == Init(o) + [Last(o)];
        NamedPrefixes(fs.nodes, Init(o), n);
      } else {
        ArrivesBelowFile(fs, newPath, from, to, segs);
      }
    } else if Named(fs.nodes, segs).Some? {
      NamedPrefixes(fs.nodes, segs, n);
    }
  }

  lemma ArrivesBelowFile(fs: Fs, newPath: string, from: Entry, to: Entry, segs: seq<string>)
    requires Good(fs) && Place(fs, from) && Place(fs, to) && Normal(newPath)
    requires from.node.Some? && RenameRefusal(fs, from, to).None? && Walk(fs.nodes, newPath, false) == Ok(to)
    requires Segments(to.path) != [] && Segments(to.path) < Segments(newPath) <= segs
    requires to.node.Some? && IsDir(fs.nodes, to.node.value) ==> fs.nodes[to.node.value].body.children == map[]
    ensures Named(fs.nodes, Rebased(segs, Segments(to.path), Segments(from.path))).None?
  {
    hide Segments, Named, Rooted, Clean, Walk, Normal, Good;
    PassedPlaceIsLink(fs, newPath, to);
    PlaceIsNamed(fs, from);
    var f, moved := Segments(from.path), Rebased(segs, Segments(to.path), Segments(from.path));
    assert f < moved;
    if Named(fs.nodes, moved).Some? {
      NamedBelow(fs.nodes, f, moved);
    }
  }

  ghost predicate NothingBound<V>(t: PathTables.Table<V>, path: string)
  {
    forall p :: p in t.byPath ==> !IsPathInside(p, path)
  }

  // What is bound and wrong after a rename that moved something, where a link is on
  // the way of one path or the other.
  lemma WrongAfterMove<V>(fs: Fs, oldPath: string, newPath: string, from: Entry, to: Entry, t: PathTables.Table<V>,
                          u: PathTables.Table<V>, stands: map<nat, nat>)
    requires Good(fs) && Place(fs, from) && Place(fs, to) && PathTables.Renames(oldPath, newPath)
    requires Walk(fs.nodes, oldPath, false) == Ok(from) && Walk(fs.nodes, newPath, false) == Ok(to)
    requires from.node.Some? && from.node != to.node && RenameRefusal(fs, from, to).None?
    requires PathTables.NormalPaths(t) && Faithful(t, stands, fs.nodes) && PathTables.Remapped(t, u, oldPath, newPath)
    requires oldPath != from.path || newPath != to.path
    ensures Faithful(u, stands, Renamed(fs, from, to).nodes) ==>
              NothingBound(t, from.path) && (newPath == to.path || to.path !in t.byPath)
  {
    hide Segments, Named, Good, Canonical, Walk, Normal, Renamed, RenameRefusal, PathTables.Coherent,
         PathTables.NormalPaths;
    if Faithful(u, stands, Renamed(fs, from, to).nodes) {
      forall p | p in t.byPath ensures !IsPathInside(p, from.path) {
        if IsPathInside(p, from.path) { MovedIsWrong(fs, oldPath, newPath, from, to, t, u, stands, p); }
      }
      if newPath != to.path && to.path in t.byPath {
        TakenIsWrong(fs, oldPath, newPath, from, to, t, u, stands);
      }
    }
  }

  lemma MovedIsWrong<V>(fs: Fs, oldPath: string, newPath: string, from: Entry, to: Entry, t: PathTables.Table<V>,
                        u: PathTables.Table<V>, stands: map<nat, nat>, p: string)
    requires Good(fs) && Place(fs, from) && Place(fs, to) && PathTables.Renames(oldPath, newPath)
    requires Walk(fs.nodes, oldPath, false) == Ok(from) && Walk(fs.nodes, newPath, false) == Ok(to)
    requires from.node.Some? && from.node != to.node && RenameRefusal(fs, from, to).None?
    requires PathTables.NormalPaths(t) && Faithful(t, stands, fs.nodes) && PathTables.Remapped(t, u, oldPath, newPath)
    requires oldPath != from.path || newPath != to.path
    requires p in t.byPath && IsPathInside(p, from.path)
    ensures !Faithful(u, stands, Renamed(fs, from, to).nodes)
  {
    hide Segments, Named, Good, Canonical, Walk, Normal, Renamed, RenameRefusal, PathTables.Coherent;
    MovedEnds(fs, from, to);
    RenamedSpec(fs, from, to);
    PathTables.InsideOne(p, from.path, to.path);
    InsideIs(p, from.path);
    InsideIs(p, to.path);
    if newPath != to.path {
      NotItself(fs, newPath, to);
      NothingInside(fs.nodes, t, stands, newPath, p);
    }
    if oldPath == from.path {
      PathTables.TargetSegments(p, oldPath, newPath);
      var q := PathTables.Target(p, oldPath, newPath);
      assert PathTables.Survives(t.byPath, oldPath, newPath, q);
      NothingArrives(fs, newPath, from, to, Segments(q));
      assert q in u.byPath;
    } else {
      NotItself(fs, oldPath, from);
      NothingInside(fs.nodes, t, stands, oldPath, p);
      assert PathTables.Survives(t.byPath, oldPath, newPath, p);
      assert p in u.byPath;
    }
  }

  lemma TakenIsWrong<V>(fs: Fs, oldPath: string, newPath: string, from: Entry, to: Entry, t: PathTables.Table<V>,
                        u: PathTables.Table<V>, stands: map<nat, nat>)
    requires Good(fs) && Place(fs, from) && Place(fs, to) && PathTables.Renames(oldPath, newPath)
    requires Walk(fs.nodes, oldPath, false) == Ok(from) && Walk(fs.nodes, newPath, false) == Ok(to)
    requires from.node.Some? && from.node != to.node && RenameRefusal(fs, from, to).None?
    requires PathTables.NormalPaths(t) && Faithful(t, stands, fs.nodes) && PathTables.Remapped(t, u, oldPath, newPath)
    requires newPath != to.path && to.path in t.byPath
    ensures !Faithful(u, stands, Renamed(fs, from, to).nodes)
  {
    hide Segments, Named, Good, Canonical, Walk, Normal, Renamed, RenameRefusal, PathTables.Coherent;
    var p := to.path;
    MovedEnds(fs, from, to);
    RenamedSpec(fs, from, to);
    NotItself(fs, newPath, to);
    NothingInside(fs.nodes, t, stands, newPath, p);
    if oldPath != from.path {
      NotItself(fs, oldPath, from);
      NothingInside(fs.nodes, t, stands, oldPath, p);
    }
    assert PathTables.Survives(t.byPath, oldPath, newPath, p) && PathTables.Origin(p, oldPath, newPath) == p;
    PlaceIsNamed(fs, from);
    PlaceIsNamed(fs, to);
    assert Rebased(Segments(p), Segments(p), Segments(from.path)) == Segments(from.path);
    assert p in u.byPath && u.byPath[p] == t.byPath[p];
  }

  // And with nothing bound at what moves or at what it takes the place of, nothing is
  // wrong.
  lemma RightAfterMove<V>(fs: Fs, oldPath: string, newPath: string, from: Entry, to: Entry, t: PathTables.Table<V>,
                          u: PathTables.Table<V>, stands: map<nat, nat>)
    requires Good(fs) && Place(fs, from) && Place(fs, to) && PathTables.Renames(oldPath, newPath)
    requires Walk(fs.nodes, oldPath, false) == Ok(from) && Walk(fs.nodes, newPath, false) == Ok(to)
    requires from.node.Some? && from.node != to.node && RenameRefusal(fs, from, to).None?
    requires PathTables.NormalPaths(t) && Faithful(t, stands, fs.nodes) && PathTables.Remapped(t, u, oldPath, newPath)
    requires NothingBound(t, from.path) && (newPath == to.path || to.path !in t.byPath)
    ensures Faithful(u, stands, Renamed(fs, from, to).nodes)
  {
    hide Segments, Named, Good, Canonical, Walk, Normal, Renamed, RenameRefusal, PathTables.Coherent,
         PathTables.Renames;
    MovedEnds(fs, from, to);
    RenamedSpec(fs, from, to);
    forall q | q in u.byPath
      ensures u.byPath[q] in stands && Named(Renamed(fs, from, to).nodes, Segments(q)) == Some(stands[u.byPath[q]])
    {
      RightAt(fs, oldPath, newPath, from, to, t, u, stands, q);
    }
  }

  lemma RightAt<V>(fs: Fs, oldPath: string, newPath: string, from: Entry, to: Entry, t: PathTables.Table<V>,
                   u: PathTables.Table<V>, stands: map<nat, nat>, q: string)
    requires Good(fs) && Place(fs, from) && Place(fs, to) && PathTables.Renames(oldPath, newPath)
    requires Walk(fs.nodes, oldPath, false) == Ok(from)
    requires from.node.Some? && from.node != to.node && RenameRefusal(fs, from, to).None?
    requires PathTables.NormalPaths(t) && Faithful(t, stands, fs.nodes) && PathTables.Remapped(t, u, oldPath, newPath)
    requires NothingBound(t, from.path) && (newPath == to.path || to.path !in t.byPath) && q in u.byPath
    ensures q in t.byPath && u.byPath[q] == t.byPath[q]
    ensures NamedAfterMove(fs.nodes, Segments(from.path), Segments(to.path), Segments(q)) ==
            Named(fs.nodes, Segments(q))
  {
    hide Segments, Named, Good, Canonical, Walk, Normal, RenameRefusal, PathTables.Coherent;
    assert PathTables.Survives(t.byPath, oldPath, newPath, q);
    var origin := PathTables.Origin(q, oldPath, newPath);
    if IsPathInside(q, newPath) && oldPath != from.path {
      NotItself(fs, oldPath, from);
      NothingInside(fs.nodes, t, stands, oldPath, origin);
    }
    assert !IsPathInside(q, newPath) && q in t.byPath;
    PlaceIsNormal(fs, from);
    PlaceIsNormal(fs, to);
    InsideIs(q, from.path);
    InsideIs(q, to.path);
    if Segments(to.path) <= Segments(q) {
      AtThePlaceTaken(fs, from, to, Segments(q));
      RootedIs(q);
      RootedIs(to.path);
    }
  }

  // ---------- every rename ----------

  // Whether what is bound is still right after a rename that succeeds and the remap of
  // its two paths.
  ghost predicate StaysRight<V>(oldPath: string, newPath: string, from: Entry, to: Entry, t: PathTables.Table<V>)
  {
    if from.node == to.node then
      oldPath == newPath || newPath == to.path || NothingBound(t, oldPath)
    else
      || (oldPath == from.path && newPath == to.path)
      || (NothingBound(t, from.path) && (newPath == to.path || to.path !in t.byPath))
  }

  // It is if and only if both paths are the places themselves, with no link on the way,
  // or nothing is bound that the difference makes wrong. `from` and `to` are where the
  // walks of the two paths end.
  lemma RemapIsRightIff<V>(fs: Fs, oldPath: string, newPath: string, from: Entry, to: Entry, t: PathTables.Table<V>,
                           u: PathTables.Table<V>, stands: map<nat, nat>)
    requires Good(fs) && RenameOp(fs, oldPath, newPath).0.Ok? && PathTables.Renames(oldPath, newPath)
    requires Walk(fs.nodes, oldPath, false) == Ok(from) && Walk(fs.nodes, newPath, false) == Ok(to)
    requires PathTables.Coherent(t) && PathTables.NormalPaths(t) && Faithful(t, stands, fs.nodes)
    requires PathTables.Remapped(t, u, oldPath, newPath)
    ensures Faithful(u, stands, RenameOp(fs, oldPath, newPath).1.nodes) <==> StaysRight(oldPath, newPath, from, to, t)
  {
    hide Named, Segments, Inv, Canonical, Normal, Walk, PathTables.Coherent, PathTables.Remapped, Renamed,
         RenameRefusal, PathTables.NormalPaths, PathTables.Renames, NothingBound, Faithful;
    WalkPlace(fs, oldPath, false);
    WalkPlace(fs, newPath, false);
    if from.node == to.node {
      SameNodeIsRightIff(fs, oldPath, newPath, from, to, t, u, stands);
    } else if oldPath == from.path && newPath == to.path {
      MovedStaysFaithful(fs, from, to, t, u, stands);
    } else {
      WrongAfterMove(fs, oldPath, newPath, from, to, t, u, stands);
      if NothingBound(t, from.path) && (newPath == to.path || to.path !in t.byPath) {
        RightAfterMove(fs, oldPath, newPath, from, to, t, u, stands);
      }
    }
  }

  lemma SameNodeIsRightIff<V>(fs: Fs, oldPath: string, newPath: string, from: Entry, to: Entry, t: PathTables.Table<V>,
                              u: PathTables.Table<V>, stands: map<nat, nat>)
    requires Good(fs) && Place(fs, from) && Place(fs, to) && PathTables.Renames(oldPath, newPath)
    requires Walk(fs.nodes, oldPath, false) == Ok(from) && Walk(fs.nodes, newPath, false) == Ok(to)
    requires from.node.Some? && from.node == to.node
    requires PathTables.Coherent(t) && PathTables.NormalPaths(t) && Faithful(t, stands, fs.nodes)
    requires PathTables.Remapped(t, u, oldPath, newPath)
    ensures Faithful(u, stands, fs.nodes) <==> oldPath == newPath || newPath == to.path || NothingBound(t, oldPath)
  {
    hide Named, Segments, Inv, Canonical, Normal, Walk, PathTables.Coherent, PathTables.Remapped,
         PathTables.NormalPaths, Faithful,
         NothingBound;
    if oldPath == newPath {
      Identities.RemapToItself(t, u, oldPath);
      SamePathsFaithful(fs.nodes, t, u, stands);
    } else {
      if oldPath != from.path {
        NotItself(fs, oldPath, from);
        NothingBoundInside(fs.nodes, t, stands, oldPath);
      }
      if NothingBound(t, oldPath) {
        NothingMoves(fs.nodes, oldPath, newPath, t, u, stands);
      } else if newPath == to.path {
        SameNodeRemapped(fs, from, to, t, u, stands);
      } else {
        NotItself(fs, newPath, to);
        SomethingMovesWrong(fs.nodes, oldPath, newPath, t, u, stands);
      }
    }
  }

  lemma SamePathsFaithful<V>(nodes: Nodes, t: PathTables.Table<V>, u: PathTables.Table<V>, stands: map<nat, nat>)
    requires Faithful(t, stands, nodes) && u.byPath == t.byPath
    ensures Faithful(u, stands, nodes)
  {
  }

  lemma NothingBoundInside<V>(nodes: Nodes, t: PathTables.Table<V>, stands: map<nat, nat>, path: string)
    requires Normal(path) && Named(nodes, Segments(path)).None?
    requires PathTables.NormalPaths(t) && Faithful(t, stands, nodes)
    ensures NothingBound(t, path)
  {
    hide Named, Segments, Normal, IsPathInside, Faithful, PathTables.NormalPaths;
    forall p | p in t.byPath ensures !IsPathInside(p, path) { NothingInside(nodes, t, stands, path, p); }
  }

  lemma NothingMoves<V>(nodes: Nodes, oldPath: string, newPath: string, t: PathTables.Table<V>, u: PathTables.Table<V>,
                        stands: map<nat, nat>)
    requires NothingBound(t, oldPath) && Faithful(t, stands, nodes) && PathTables.Remapped(t, u, oldPath, newPath)
    ensures Faithful(u, stands, nodes)
  {
    hide Named, Segments, IsPathInside, PathTables.Coherent;
    assert forall q :: q in u.byPath ==> PathTables.Survives(t.byPath, oldPath, newPath, q);
  }

  lemma SomethingMovesWrong<V>(nodes: Nodes, oldPath: string, newPath: string, t: PathTables.Table<V>,
                               u: PathTables.Table<V>, stands: map<nat, nat>)
    requires PathTables.Renames(oldPath, newPath) && Named(nodes, Segments(newPath)).None?
    requires PathTables.NormalPaths(t) && Faithful(t, stands, nodes) && PathTables.Remapped(t, u, oldPath, newPath)
    requires !NothingBound(t, oldPath)
    ensures !Faithful(u, stands, nodes)
  {
    hide Named, Segments, IsPathInside, PathTables.Coherent, Normal;
    var p :| p in t.byPath && IsPathInside(p, oldPath);
    NothingInside(nodes, t, stands, newPath, p);
    PathTables.TargetSegments(p, oldPath, newPath);
    var q := PathTables.Target(p, oldPath, newPath);
    assert PathTables.Survives(t.byPath, oldPath, newPath, q);
    assert q in u.byPath;
    if Named(nodes, Segments(q)).Some? {
      InsideIs(q, newPath);
      NamedPrefixes(nodes, Segments(q), Segments(newPath));
    }
  }
}
