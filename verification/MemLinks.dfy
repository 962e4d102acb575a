// What a walk does at each name, said in paths: where a link leads, what a missing
// name and a file on the way answer, and how often links are followed.
module MemLinks {
  import opened Wrappers
  import opened Paths
  import opened MemTree
  import opened MemWalk

  // The walk of a path after so many links.
  function WalkAfter(nodes: Nodes, path: string, follow: bool, links: nat): Result<Entry>
    requires links <= MAX_SYMLINK_DEPTH
  {
    WalkSegs(nodes, Segments(path), follow, links)
  }

  // The first `k` names of the path lead, each looked up plainly, to that directory.
  ghost predicate Reaches(nodes: Nodes, path: string, k: nat, d: nat)
  {
    k <= |Segments(path)| && Named(nodes, Segments(path)[..k]) == Some(d) && IsDir(nodes, d)
  }

  lemma {:induction false} DescendReaches(nodes: Nodes, segs: seq<string>, k: nat, d: nat, follow: bool, depth: nat)
    requires depth <= MAX_SYMLINK_DEPTH && k < |segs|
    requires Named(nodes, segs[..k]) == Some(d) && IsDir(nodes, d)
    ensures Descend(nodes, ROOT, segs, 0, follow, depth) == Descend(nodes, d, segs, k, follow, depth)
  {
    hide Rooted, Retarget, Named;
    NamedRoot(nodes);
    if k == 0 {
      assert segs[..0] == [];
    } else {
      assert segs[..k] == segs[..k - 1] + [segs[k - 1]];
      NamedSnoc(nodes, segs[..k - 1], segs[k - 1]);
      var p := Named(nodes, segs[..k - 1]).value;
      DescendReaches(nodes, segs, k - 1, p, follow, depth);
    }
  }

  // ---------- paths put together ----------

  lemma SegmentsOver(a: string, b: string)
    ensures Segments(a + "/" + b) == Fold(Split(b), Segments(a))
  {
    hide Split, Fold;
    SplitConcat(a, b);
    FoldConcat(Split(a), Split(b), []);
  }

  lemma SegmentsOverClean(a: string, after: seq<string>)
    requires Clean(after)
    ensures Segments(a + "/" + Join(after)) == Segments(a) + after
  {
    SegmentsOver(a, Join(after));
    if after == [] {
      assert Split("") == [""];
      assert Fold([""], Segments(a)) == Fold([], Segments(a));
    } else {
      assert forall i :: 0 <= i < |after| ==> CleanName(after[i]) ==> SlashFree(after[i]);
      SplitJoin(after);
      FoldOfClean(after, Segments(a));
    }
  }

  lemma LinkSegments(segs: seq<string>, k: nat, target: string)
    requires Clean(segs) && k < |segs| && target != ""
    ensures Segments((if target[0] == '/' then target else Rooted(segs[..k]) + "/" + target) + "/" +
            Join(segs[k + 1..]))
            == Retarget(segs[..k], target, segs[k + 1..])
  {
    hide Split, Fold, Rooted, Clean, Join;
    CleanParts(segs, k);
    SegmentsRooted(segs[..k]);
    SegmentsOver(Rooted(segs[..k]), target);
    SegmentsOverClean(if target[0] == '/' then target else Rooted(segs[..k]) + "/" + target, segs[k + 1..]);
  }

  // ---------- one name ----------

  // A link that is followed sends the walk, one link further, to its target and the names
  // after it: from the root if the target says so, from the link's own directory if not.
  // Past forty links there is an end to it, and an empty target leads nowhere.
  lemma FollowsLink(nodes: Nodes, path: string, follow: bool, links: nat, k: nat, d: nat, link: nat)
    requires links <= MAX_SYMLINK_DEPTH && Reaches(nodes, path, k, d) && k < |Segments(path)|
    requires Child(nodes, d, Segments(path)[k]) == Some(link) && IsSymlink(nodes, link)
    requires follow || k < |Segments(path)| - 1
    ensures var segs, target := Segments(path), nodes[link].body.target;
            WalkAfter(nodes, path, follow, links) ==
            if links == 40 then Err(ELOOP)
            else if target == "" then Err(ENOENT)
            else if target[0] == '/' then WalkAfter(nodes, target + "/" + Join(segs[k + 1..]), follow, links + 1)
            else WalkAfter(nodes, Rooted(segs[..k]) + "/" + target + "/" + Join(segs[k + 1..]), follow, links + 1)
  {
    hide Segments, Rooted, Retarget, Named, Join, Clean;
    var segs, target := Segments(path), nodes[link].body.target;
    SegmentsClean(path);
    DescendReaches(nodes, segs, k, d, follow, links);
    if links < 40 && target != "" { LinkSegments(segs, k, target); }
  }

  // A name that is not there: the place it could be made at if it is the last, and an
  // error if more names follow.
  lemma MissingName(nodes: Nodes, path: string, follow: bool, links: nat, k: nat, d: nat)
    requires links <= MAX_SYMLINK_DEPTH && Reaches(nodes, path, k, d) && k < |Segments(path)|
    requires Child(nodes, d, Segments(path)[k]).None?
    ensures WalkAfter(nodes, path, follow, links) ==
            if k == |Segments(path)| - 1 then Ok(Entry(d, Segments(path)[k], None, Normalize(path))) else Err(ENOENT)
  {
    hide Segments, Rooted, Retarget, Named;
    DescendReaches(nodes, Segments(path), k, d, follow, links);
  }

  // A last name that is there and is not followed is where the walk ends; a file on the
  // way is an error.
  lemma PlainName(nodes: Nodes, path: string, follow: bool, links: nat, k: nat, d: nat, i: nat)
    requires links <= MAX_SYMLINK_DEPTH && Reaches(nodes, path, k, d) && k < |Segments(path)|
    requires Child(nodes, d, Segments(path)[k]) == Some(i)
    requires IsSymlink(nodes, i) ==> !follow && k == |Segments(path)| - 1
    ensures k == |Segments(path)| - 1 ==>
              WalkAfter(nodes, path, follow, links) == Ok(Entry(d, Segments(path)[k], Some(i), Normalize(path)))
    ensures k < |Segments(path)| - 1 && !IsDir(nodes, i) ==> WalkAfter(nodes, path, follow, links) == Err(ENOTDIR)
  {
    hide Segments, Rooted, Retarget, Named;
    DescendReaches(nodes, Segments(path), k, d, follow, links);
  }

  // These are all the cases: from the root a walk passes directories, and it comes to its
  // last name, to one that is not there, to a link it follows or to a file.
  lemma {:induction false} WalkComesTo(nodes: Nodes, path: string, follow: bool, k: nat, d: nat) returns (m: nat,
      p: nat)
    requires Reaches(nodes, path, k, d) && k < |Segments(path)|
    ensures Reaches(nodes, path, m, p) && m < |Segments(path)|
    ensures var child := Child(nodes, p, Segments(path)[m]);
            || child.None?
            || (IsSymlink(nodes, child.value) && (follow || m < |Segments(path)| - 1))
            || (m < |Segments(path)| - 1 && !IsDir(nodes, child.value))
            || m == |Segments(path)| - 1
    decreases |Segments(path)| - k
  {
    hide Segments, Named;
    var segs := Segments(path);
    var child := Child(nodes, d, segs[k]);
    m, p := k, d;
    if k < |segs| - 1 && child.Some? && IsDir(nodes, child.value) {
      assert segs[..k + 1] == segs[..k] + [segs[k]];
      NamedSnoc(nodes, segs[..k], segs[k]);
      m, p := WalkComesTo(nodes, path, follow, k + 1, child.value);
    }
  }

  // ---------- what follows ----------

  lemma RootWalk(nodes: Nodes, path: string, follow: bool, links: nat)
    requires links <= MAX_SYMLINK_DEPTH && Segments(path) == []
    ensures WalkAfter(nodes, path, follow, links) == Ok(Entry(ROOT, "", Some(ROOT), "/"))
  {
  }

  lemma NameOver(dir: string, name: string)
    requires CleanName(name)
    ensures Segments(dir + "/" + name) == Segments(dir) + [name]
  {
    assert Join([name]) == name;
    SegmentsOverClean(dir, [name]);
  }

  lemma ReachesBelow(nodes: Nodes, dir: string, name: string, d: nat)
    requires CleanName(name) && Reaches(nodes, dir, |Segments(dir)|, d)
    ensures Segments(dir + "/" + name) == Segments(dir) + [name]
    ensures Reaches(nodes, dir + "/" + name, |Segments(dir)|, d)
  {
    hide Segments, Named;
    NameOver(dir, name);
    assert Segments(dir)[..|Segments(dir)|] == Segments(dir) == Segments(dir + "/" + name)[..|Segments(dir)|];
  }

  lemma SameSegments(nodes: Nodes, a: string, b: string, follow: bool, links: nat)
    requires links <= MAX_SYMLINK_DEPTH && Segments(a) == Segments(b)
    ensures WalkAfter(nodes, a, follow, links) == WalkAfter(nodes, b, follow, links)
  {
  }

  lemma SiblingPath(dir: string, target: string)
    requires CleanName(target)
    ensures Segments(Rooted(Segments(dir)) + "/" + target + "/" + Join([])) == Segments(dir + "/" + target)
  {
    hide Segments, Rooted;
    SegmentsClean(dir);
    SegmentsRooted(Segments(dir));
    NameOver(dir, target);
    NameOver(Rooted(Segments(dir)), target);
    SegmentsOverClean(Rooted(Segments(dir)) + "/" + target, []);
  }

  // A link that names what lies beside it leads where that name does, one link further.
  lemma LinkBeside(nodes: Nodes, dir: string, name: string, d: nat, link: nat, links: nat)
    requires links < MAX_SYMLINK_DEPTH && CleanName(name) && Reaches(nodes, dir, |Segments(dir)|, d)
    requires Child(nodes, d, name) == Some(link) && IsSymlink(nodes, link) && CleanName(nodes[link].body.target)
    ensures WalkAfter(nodes, dir + "/" + name, true, links) ==
            WalkAfter(nodes, dir + "/" + nodes[link].body.target, true, links + 1)
  {
    hide Segments, Rooted, Named, WalkAfter;
    var k, path, target := |Segments(dir)|, dir + "/" + name, nodes[link].body.target;
    ReachesBelow(nodes, dir, name, d);
    assert Segments(path)[k + 1..] == [] && Segments(path)[..k] == Segments(dir);
    FollowsLink(nodes, path, true, links, k, d, link);
    SiblingPath(dir, target);
    SameSegments(nodes, Rooted(Segments(dir)) + "/" + target + "/" + Join([]), dir + "/" + target, true, links + 1);
  }

  // So a link to a file beside it is that file, in the link's own directory.
  lemma LinkBesideFile(nodes: Nodes, dir: string, name: string, d: nat, link: nat, i: nat)
    requires CleanName(name) && Reaches(nodes, dir, |Segments(dir)|, d)
    requires Child(nodes, d, name) == Some(link) && IsSymlink(nodes, link) && CleanName(nodes[link].body.target)
    requires Child(nodes, d, nodes[link].body.target) == Some(i) && !IsSymlink(nodes, i)
    ensures Walk(nodes, dir + "/" + name, true) ==
            Ok(Entry(d, nodes[link].body.target, Some(i), Normalize(dir + "/" + nodes[link].body.target)))
  {
    hide Segments, Named;
    var target := nodes[link].body.target;
    LinkBeside(nodes, dir, name, d, link, 0);
    ReachesBelow(nodes, dir, target, d);
    PlainName(nodes, dir + "/" + target, true, 1, |Segments(dir)|, d, i);
  }

  // And a link to itself is the end of every walk that follows it.
  lemma {:induction false} LinkToItself(nodes: Nodes, dir: string, name: string, d: nat, link: nat, links: nat)
    requires links <= MAX_SYMLINK_DEPTH && CleanName(name) && Reaches(nodes, dir, |Segments(dir)|, d)
    requires Child(nodes, d, name) == Some(link) && IsSymlink(nodes, link) && nodes[link].body.target == name
    ensures WalkAfter(nodes, dir + "/" + name, true, links) == Err(ELOOP)
    decreases MAX_SYMLINK_DEPTH - links
  {
    hide Segments, Named, WalkAfter;
    ReachesBelow(nodes, dir, name, d);
    if links < MAX_SYMLINK_DEPTH {
      LinkBeside(nodes, dir, name, d, link, links);
      LinkToItself(nodes, dir, name, d, link, links + 1);
    } else {
      FollowsLink(nodes, dir + "/" + name, true, links, |Segments(dir)|, d, link);
    }
  }
}
