// What a rename that succeeds says of its two paths, and one through a link, after
// which the path tables no longer agree with the filesystem.
module MemRenames {
  import opened Wrappers
  import opened Paths
  import opened MemTree
  import opened MemCounts
  import opened MemWalk
  import opened MemFs
  import MemBytes
  import MemLaws
  import PathTables

  // ---------- the ends of a rename ----------

  // What moves and where it goes are unrelated places, and neither is the root.
  lemma MovedEnds(fs: Fs, from: Entry, to: Entry)
    requires Good(fs) && Place(fs, from) && Place(fs, to)
    requires from.node.Some? && from.node != to.node && RenameRefusal(fs, from, to).None?
    ensures PathTables.Renames(from.path, to.path) && PathTables.Unrelated(from.path, to.path)
  {
    hide Segments, Named, Rooted, Clean, LinksCounted, TotalsCounted, RenameRefusal;
    var at :| Inv(fs, at);
    var f, t := Segments(from.path), Segments(to.path);
    RenameEnds(fs, at, from, to);
    SegmentsRooted(f);
    SegmentsRooted(t);
    RootedLength(f);
    RootedLength(t);
    InsideIsPrefix(f, t);
    InsideIsPrefix(t, f);
    if t <= f {
      NothingBelow(fs, at, from, to);
    }
  }

  // Whatever has a name below it is a directory, and not an empty one.
  lemma NamedBelow(nodes: Nodes, segs: seq<string>, below: seq<string>)
    requires segs < below && Named(nodes, below).Some?
    ensures Named(nodes, segs).Some? && IsDir(nodes, Named(nodes, segs).value)
    ensures nodes[Named(nodes, segs).value].body.children != map[]
  {
    var name := below[|segs|];
    assert segs + [name] <= below;
    NamedSnoc(nodes, segs, name);
    NamedPrefixes(nodes, below, segs + [name]);
  }

  // What is replaced has nothing in it.
  lemma NothingBelow(fs: Fs, at: map<nat, seq<string>>, from: Entry, to: Entry)
    requires Inv(fs, at) && Place(fs, from) && Place(fs, to)
    requires from.node.Some? && from.node != to.node
    requires to.node.Some? && IsDir(fs.nodes, to.node.value) ==> fs.nodes[to.node.value].body.children == map[]
    ensures !(Segments(to.path) <= Segments(from.path))
  {
    hide Segments, Rooted, Clean, Inv, Named;
    var f, t := Segments(from.path), Segments(to.path);
    if t <= f && t != f {
      NamedBelow(fs.nodes, t, f);
    }
  }

  // A walk of a path with names in it never ends at the root, wherever links take it.
  lemma {:induction false} WalkBelowRoot(nodes: Nodes, segs: seq<string>, depth: nat)
    requires depth <= MAX_SYMLINK_DEPTH && Clean(segs) && segs != []
    ensures var r := WalkSegs(nodes, segs, false, depth); r.Ok? ==> Segments(r.value.path) != []
    decreases MAX_SYMLINK_DEPTH - depth, |segs| + 1
  {
    DescendBelowRoot(nodes, ROOT, segs, 0, depth);
  }

  lemma {:induction false} DescendBelowRoot(nodes: Nodes, dir: nat, segs: seq<string>, i: nat, depth: nat)
    requires depth <= MAX_SYMLINK_DEPTH && i < |segs| && Clean(segs)
    ensures var r := Descend(nodes, dir, segs, i, false, depth); r.Ok? ==> Segments(r.value.path) != []
    decreases MAX_SYMLINK_DEPTH - depth, |segs| - i
  {
    hide Segments, Rooted, Clean, Retarget;
    SegmentsRooted(segs);
    var child := Child(nodes, dir, segs[i]);
    if IsDir(nodes, dir) && child.Some? && i != |segs| - 1 {
      if IsSymlink(nodes, child.value) {
        if depth < MAX_SYMLINK_DEPTH && nodes[child.value].body.target != "" {
          var target := nodes[child.value].body.target;
          CleanParts(segs, i);
          RetargetClean(segs[..i], target, segs[i + 1..]);
          RetargetKeepsRest(segs[..i], target, segs[i + 1..]);
          WalkBelowRoot(nodes, Retarget(segs[..i], target, segs[i + 1..]), depth + 1);
        }
      } else {
        DescendBelowRoot(nodes, child.value, segs, i + 1, depth);
      }
    }
  }

  lemma RetargetKeepsRest(before: seq<string>, target: string, after: seq<string>)
    requires after != []
    ensures Retarget(before, target, after) != []
  {
  }

  // So the paths of a rename that succeeds are not the root, or both are.
  lemma RenameSparesRoot(fs: Fs, oldPath: string, newPath: string)
    requires Good(fs) && Normal(oldPath) && Normal(newPath) && RenameOp(fs, oldPath, newPath).0.Ok?
    ensures (oldPath == "/" && newPath == "/") || PathTables.Renames(oldPath, newPath)
  {
    hide Segments, Named, Rooted, Clean, LinksCounted, TotalsCounted, Normal, Canonical;
    WalkPlace(fs, oldPath, false);
    WalkPlace(fs, newPath, false);
    var from, to := Walk(fs.nodes, oldPath, false).value, Walk(fs.nodes, newPath, false).value;
    EndAtRoot(fs, oldPath, from);
    EndAtRoot(fs, newPath, to);
    if from.node != to.node {
      MovedEnds(fs, from, to);
    }
  }

  lemma EndAtRoot(fs: Fs, path: string, e: Entry)
    requires Good(fs) && Normal(path) && Walk(fs.nodes, path, false) == Ok(e)
    ensures path == "/" <==> e.node == Some(ROOT)
    ensures path == "/" ==> e.path == "/"
  {
    hide Named, LinksCounted, TotalsCounted;
    WalkPlace(fs, path, false);
    SegmentsClean(path);
    RootedLength(Segments(path));
    if path == "/" {
      EmptyPath();
    } else {
      WalkBelowRoot(fs.nodes, Segments(path), 0);
    }
  }

  // ---------- paths through links ----------

  // A rename of "/l/x" to "/l", where "/l" is a link to the directory of "x": the file
  // takes the link's place.
  ghost predicate ThroughLink(fs: Fs, l: nat, d: nat, x: nat)
  {
    && Named(fs.nodes, ["l"]) == Some(l) && l in fs.nodes && fs.nodes[l].body == Symlink("/d")
    && Named(fs.nodes, ["d"]) == Some(d) && IsDir(fs.nodes, d)
    && Named(fs.nodes, ["d", "x"]) == Some(x) && x in fs.nodes && fs.nodes[x].body.File?
  }

  lemma Spelled()
    ensures Clean(["l"]) && Clean(["l", "x"]) && Clean(["d", "x"]) && Clean(["d"])
    ensures Rooted(["l"]) == "/l" && Rooted(["l", "x"]) == "/l/x" && Rooted(["d", "x"]) == "/d/x" &&
            Rooted(["d"]) == "/d"
    ensures Segments("/l") == ["l"] && Segments("/l/x") == ["l", "x"] && Segments("/d/x") == ["d", "x"] &&
            Segments("/d") == ["d"]
    ensures Normal("/l") && Normal("/l/x")
  {
    assert Rooted(["l"]) == "/l" && Rooted(["d"]) == "/d";
    assert Rooted(["l", "x"]) == "/l/x" by { assert ["l", "x"][1..] == ["x"]; }
    assert Rooted(["d", "x"]) == "/d/x" by { assert ["d", "x"][1..] == ["x"]; }
    assert SlashFree("l") && SlashFree("d") && SlashFree("x");
    SegmentsRooted(["l"]);
    SegmentsRooted(["d"]);
    SegmentsRooted(["l", "x"]);
    SegmentsRooted(["d", "x"]);
  }

  lemma LinkWalks(fs: Fs, l: nat, d: nat, x: nat)
    requires Good(fs) && ThroughLink(fs, l, d, x)
    ensures Walk(fs.nodes, "/l", false) == Ok(Entry(ROOT, "l", Some(l), "/l"))
    ensures Walk(fs.nodes, "/l/x", false) == Ok(Entry(d, "x", Some(x), "/d/x"))
  {
    hide Segments, Inv;
    MemLaws.GoodClosed(fs);
    Spelled();
    NamedOne(fs.nodes, "l");
    NamedOne(fs.nodes, "d");
    assert ["d", "x"] == ["d"] + ["x"];
    NamedSnoc(fs.nodes, ["d"], "x");
    RetargetsToD();
    assert Descend(fs.nodes, d, ["d", "x"], 1, false, 1) == Ok(Entry(d, "x", Some(x), "/d/x"));
    assert WalkSegs(fs.nodes, ["d", "x"], false, 1) == Ok(Entry(d, "x", Some(x), "/d/x"));
  }

  lemma NamedOne(nodes: Nodes, name: string)
    ensures Named(nodes, [name]) == Child(nodes, ROOT, name)
  {
    assert [] + [name] == [name];
    NamedRoot(nodes);
    NamedSnoc(nodes, [], name);
  }

  lemma RetargetsToD()
    ensures Retarget(["l", "x"][..0], "/d", ["l", "x"][1..]) == ["d", "x"]
  {
    hide Segments;
    Spelled();
    assert Fold(Split("/d"), []) == Segments("/d") by { SegmentsAre("/d"); }
    assert ["l", "x"][1..] == ["x"];
  }

  lemma SegmentsAre(path: string)
    ensures Segments(path) == Fold(Split(path), [])
  {
  }

  lemma RenameGoes(fs: Fs, oldPath: string, newPath: string, from: Entry, to: Entry)
    requires Good(fs) && Walk(fs.nodes, oldPath, false) == Ok(from) && Walk(fs.nodes, newPath, false) == Ok(to)
    requires from.node.Some? && from.node != to.node && RenameRefusal(fs, from, to).None?
    ensures Place(fs, from) && Place(fs, to) && RenameOp(fs, oldPath, newPath) == (Ok(()), Renamed(fs, from, to))
    ensures forall segs :: Named(Renamed(fs, from, to).nodes, segs) ==
              NamedAfterMove(fs.nodes, Segments(from.path), Segments(to.path), segs)
  {
    hide Segments, Named, Inv, Canonical, Walk, Renamed, RenameRefusal;
    WalkPlace(fs, oldPath, false);
    WalkPlace(fs, newPath, false);
    RenamedSpec(fs, from, to);
  }

  lemma LinkReplaced(fs: Fs, l: nat, d: nat, x: nat)
    requires Good(fs) && ThroughLink(fs, l, d, x)
    ensures RenameOp(fs, "/l/x", "/l").0 == Ok(())
    ensures var next := RenameOp(fs, "/l/x", "/l").1.nodes;
            Named(next, ["l"]) == Some(x) && Named(next, ["d", "x"]).None?
  {
    hide Segments, Named, Good, Place, Renamed, RenameOp, Rooted, Normal, Clean;
    Spelled();
    LinkWalks(fs, l, d, x);
    RenameGoes(fs, "/l/x", "/l", Entry(d, "x", Some(x), "/d/x"), Entry(ROOT, "l", Some(l), "/l"));
    assert Rebased(["l"], ["l"], ["d", "x"]) == ["d", "x"];
  }

  lemma LinkRemapped<V>(t: PathTables.Table<V>, u: PathTables.Table<V>)
    requires "/d/x" in t.byPath && PathTables.Remapped(t, u, "/l/x", "/l")
    ensures "/d/x" in u.byPath && u.byPath["/d/x"] == t.byPath["/d/x"] && "/l" !in u.byPath
  {
    assert PathTables.Target("/l", "/l", "/l/x") == "/l/x";
    assert "/d/x"[1] == 'd' && "/l"[1] == 'l' && "/l/"[1] == 'l' && "/l/x"[1] == 'l' && "/l/x/"[1] == 'l';
    assert !IsPathInside("/d/x", "/l") && !IsPathInside("/d/x", "/l/x");
    assert PathTables.Survives(t.byPath, "/l/x", "/l", "/d/x");
  }

  lemma LinkNested()
    ensures IsPathInside("/l/x", "/l") && PathTables.Renames("/l/x", "/l") && !PathTables.Unrelated("/l/x", "/l")
  {
    Spelled();
    assert "/l/x"[..3] == "/l/";
  }

  // The rename succeeds between two paths of which one is inside the other, and the
  // remap of those two leaves the file's old place bound, where nothing is left, and
  // its new place unbound.
  lemma RenameThroughLink<V>(fs: Fs, l: nat, d: nat, x: nat, t: PathTables.Table<V>, u: PathTables.Table<V>)
    requires Good(fs) && ThroughLink(fs, l, d, x)
    requires "/d/x" in t.byPath && PathTables.Remapped(t, u, "/l/x", "/l")
    ensures RenameOp(fs, "/l/x", "/l").0 == Ok(()) && IsPathInside("/l/x", "/l")
    ensures PathTables.Renames("/l/x", "/l") && !PathTables.Unrelated("/l/x", "/l")
    ensures var next := RenameOp(fs, "/l/x", "/l").1.nodes;
            Named(next, ["l"]) == Some(x) && Named(next, ["d", "x"]).None?
    ensures "/d/x" in u.byPath && u.byPath["/d/x"] == t.byPath["/d/x"] && "/l" !in u.byPath
  {
    hide Named, Segments, Rooted, Normal, RenameOp, Good, ThroughLink, PathTables.Remapped, IsPathInside;
    LinkNested();
    LinkReplaced(fs, l, d, x);
    LinkRemapped(t, u);
  }

  // ---------- such a filesystem ----------

  // A node made under a name no node has.
  lemma MadeAt(fs: Fs, segs: seq<string>, body: Body)
    requires Good(fs) && Clean(segs) && segs != [] && Named(fs.nodes, segs).None?
    requires Named(fs.nodes, Init(segs)).Some? && IsDir(fs.nodes, Named(fs.nodes, Init(segs)).value)
    requires body.Dir? ==> body == Dir(map[], 0)
    ensures var e := Entry(Named(fs.nodes, Init(segs)).value, Last(segs), None, Rooted(segs));
            && Walk(fs.nodes, Rooted(segs), false) == Ok(e) && Place(fs, e)
            && MemLaws.SameKinds(fs.nodes, Created(fs, e, body).nodes)
            && MemBytes.SameFilesBut(fs.nodes, Created(fs, e, body).nodes, None)
            && Segments(e.path) == segs
  {
    hide Segments, Named, Rooted, Clean, LinksCounted, TotalsCounted, Make;
    var at :| Inv(fs, at);
    SegmentsRooted(segs);
    WalkPlain(fs.nodes, at, Rooted(segs), false);
    WalkPlace(fs, Rooted(segs), false);
    var e := Entry(Named(fs.nodes, Init(segs)).value, Last(segs), None, Rooted(segs));
    CreatedSpec(fs, e, body);
    MemLaws.MakeIsOneEntry(fs, e.parent, e.name, body);
    MemBytes.CreatedSameFiles(fs, e, body);
  }

  // The three operations that make such a link, each on any state it can come to.
  lemma MkdirD(fs: Fs)
    requires Good(fs) && Named(fs.nodes, []) == Some(ROOT) && IsDir(fs.nodes, ROOT) && Named(fs.nodes, ["d"]).None?
    ensures var next := Apply(fs, Mkdir("/d"));
            && (forall segs :: Named(next.nodes, segs) == if segs == ["d"] then Some(fs.nextIno)
               else Named(fs.nodes, segs))
            && IsDir(next.nodes, fs.nextIno) && MemLaws.SameKinds(fs.nodes, next.nodes)
  {
    hide Segments, Named, Inv, Rooted, Walk, Created;
    Spelled();
    MadeAt(fs, ["d"], Dir(map[], 0));
  }

  lemma MknodX(fs: Fs, d: nat)
    requires Good(fs) && Named(fs.nodes, ["d"]) == Some(d) && IsDir(fs.nodes, d) && Named(fs.nodes, ["d", "x"]).None?
    ensures var next := Apply(fs, Mknod("/d/x", Regular, 0));
            && (forall segs :: Named(next.nodes, segs) == if segs == ["d", "x"] then Some(fs.nextIno)
               else Named(fs.nodes, segs))
            && fs.nextIno in next.nodes && next.nodes[fs.nextIno].body.File? && MemLaws.SameKinds(fs.nodes, next.nodes)
  {
    hide Segments, Named, Inv, Rooted, Walk, Created;
    Spelled();
    assert Init(["d", "x"]) == ["d"];
    MadeAt(fs, ["d", "x"], File([]));
  }

  lemma SymlinkL(fs: Fs)
    requires Good(fs) && Named(fs.nodes, []) == Some(ROOT) && IsDir(fs.nodes, ROOT) && Named(fs.nodes, ["l"]).None?
    ensures var next := Apply(fs, SymlinkTo("/d", "/l"));
            && (forall segs :: Named(next.nodes, segs) == if segs == ["l"] then Some(fs.nextIno)
               else Named(fs.nodes, segs))
            && fs.nextIno in next.nodes && next.nodes[fs.nextIno].body == Symlink("/d")
            && MemLaws.SameKinds(fs.nodes, next.nodes) && MemBytes.SameFilesBut(fs.nodes, next.nodes, None)
  {
    hide Segments, Named, Inv, Rooted, Walk, Created;
    Spelled();
    MadeAt(fs, ["l"], Symlink("/d"));
  }

  // On a new filesystem they make one that has such a link.
  lemma LinksAreReached() returns (ops: seq<Op>, l: nat, d: nat, x: nat)
    ensures ThroughLink(Run(ops), l, d, x)
  {
    hide Named, Good, Apply, Run;
    EmptyGood();
    EmptyNames();
    assert ["l"][0][0] == 'l' && ["d"][0][0] == 'd' && |["d", "x"]| == 2;
    MkdirD(EMPTY_FS);
    var fs1 := Apply(EMPTY_FS, Mkdir("/d"));
    MknodX(fs1, EMPTY_FS.nextIno);
    var fs2 := Apply(fs1, Mknod("/d/x", Regular, 0));
    SymlinkL(fs2);
    ops, l, d, x := [Mkdir("/d"), Mknod("/d/x", Regular, 0), SymlinkTo("/d", "/l")], fs2.nextIno, EMPTY_FS.nextIno,
        fs1.nextIno;
    RunOfThree(ops[0], ops[1], ops[2]);
  }

  lemma EmptyNames()
    ensures Named(EMPTY_FS.nodes, []) == Some(ROOT) && IsDir(EMPTY_FS.nodes, ROOT)
    ensures forall name :: Named(EMPTY_FS.nodes, [name]).None?
    ensures forall a, b :: Named(EMPTY_FS.nodes, [a, b]).None?
  {
    forall name ensures Named(EMPTY_FS.nodes, [name]).None? { NamedOne(EMPTY_FS.nodes, name); }
    forall a, b ensures Named(EMPTY_FS.nodes, [a, b]).None? {
      NamedOne(EMPTY_FS.nodes, a);
      assert [a] + [b] == [a, b];
      NamedSnoc(EMPTY_FS.nodes, [a], b);
    }
  }

  lemma RunOfThree(a: Op, b: Op, c: Op)
    ensures Good(EMPTY_FS) && Run([a, b, c]) == Apply(Apply(Apply(EMPTY_FS, a), b), c)
  {
    hide Apply;
    EmptyGood();
    assert [a, b, c][..2] == [a, b] && [a, b][..1] == [a] && [a][..0] == [];
    assert Run([]) == EMPTY_FS;
    assert Run([a]) == Apply(Run([]), a);
    assert Run([a, b]) == Apply(Run([a]), b);
  }
}
