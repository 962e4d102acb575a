// Path resolution in the memory filesystem: a scan over the string, following
// symlinks to a fixed depth, and why what it returns is a canonical place.
module MemWalk {
  import opened Wrappers
  import opened Paths
  import opened MemTree

  const MAX_SYMLINK_DEPTH: nat := 40

  // Where a walk ended: at which name of which directory, on which node if the name
  // has one, and under which path once no link is left in it.
  datatype Entry = Entry(parent: nat, name: string, node: Option<nat>, path: string)

  predicate IsSymlink(nodes: Nodes, i: nat) { i in nodes && nodes[i].body.Symlink? }

  // ---------- the meaning of a walk ----------

  // Everything before a link, then its target resolved lexically from there,
  // then everything after it.
  function Retarget(before: seq<string>, target: string, after: seq<string>): seq<string>
  {
    Fold(Split(target), if target != "" && target[0] == '/' then [] else before) + after
  }

  function WalkSegs(nodes: Nodes, segs: seq<string>, follow: bool, depth: nat): Result<Entry>
    requires depth <= MAX_SYMLINK_DEPTH
    decreases MAX_SYMLINK_DEPTH - depth, |segs| + 1
  {
    if segs == [] then Ok(Entry(ROOT, "", Some(ROOT), "/"))
    else Descend(nodes, ROOT, segs, 0, follow, depth)
  }

  function Descend(nodes: Nodes, dir: nat, segs: seq<string>, i: nat, follow: bool, depth: nat): Result<Entry>
    requires depth <= MAX_SYMLINK_DEPTH && i < |segs|
    decreases MAX_SYMLINK_DEPTH - depth, |segs| - i
  {
    var last := i == |segs| - 1;
    if !IsDir(nodes, dir) then Err(ENOTDIR)
    else
      var child := Child(nodes, dir, segs[i]);
      if child.None? then
        if last then Ok(Entry(dir, segs[i], None, Rooted(segs))) else Err(ENOENT)
      else if IsSymlink(nodes, child.value) && (follow || !last) then
        if depth >= MAX_SYMLINK_DEPTH then Err(ELOOP)
        else if nodes[child.value].body.target == "" then Err(ENOENT)
        else WalkSegs(nodes, Retarget(segs[..i], nodes[child.value].body.target, segs[i + 1..]), follow, depth + 1)
      else if last then Ok(Entry(dir, segs[i], child, Rooted(segs)))
      else Descend(nodes, child.value, segs, i + 1, follow, depth)
  }

  function Walk(nodes: Nodes, path: string, follow: bool): Result<Entry>
  {
    WalkSegs(nodes, Segments(path), follow, 0)
  }

  // ---------- what a walk returns is canonical ----------

  // The entry's path, followed by plain lookups alone, leads to the entry.
  ghost predicate Canonical(nodes: Nodes, e: Entry)
  {
    var segs := Segments(e.path);
    && Clean(segs) && e.path == Rooted(segs)
    && e.node == Named(nodes, segs)
    && (segs == [] ==> e.parent == ROOT && e.name == "" && e.node == Some(ROOT))
    && (segs != [] ==>
          Named(nodes, Init(segs)) == Some(e.parent) && IsDir(nodes, e.parent) && e.name == Last(segs))
  }

  lemma RetargetClean(before: seq<string>, target: string, after: seq<string>)
    requires Clean(before) && Clean(after)
    ensures Clean(Retarget(before, target, after))
  {
    SplitPartsSlashFree(target);
    FoldClean(Split(target), if target != "" && target[0] == '/' then [] else before);
  }

  lemma {:induction false} WalkSegsCanonical(nodes: Nodes, segs: seq<string>, follow: bool, depth: nat)
    requires depth <= MAX_SYMLINK_DEPTH && Clean(segs)
    ensures var r := WalkSegs(nodes, segs, follow, depth);
            r.Ok? ==>
              && Canonical(nodes, r.value)
              && (follow && r.value.node.Some? ==> !IsSymlink(nodes, r.value.node.value) || r.value.node == Some(ROOT))
    decreases MAX_SYMLINK_DEPTH - depth, |segs| + 1
  {
    hide Segments, Rooted, Clean;
    if segs == [] {
      EmptyPath();
    } else {
      DescendCanonical(nodes, ROOT, segs, 0, follow, depth);
    }
  }

  lemma EmptyPath()
    ensures Clean([]) && Rooted([]) == "/" && Segments("/") == []
  {
    SegmentsRooted([]);
  }

  lemma {:induction false} DescendCanonical(nodes: Nodes, dir: nat, segs: seq<string>, i: nat, follow: bool, depth: nat)
    requires depth <= MAX_SYMLINK_DEPTH && i < |segs| && Clean(segs)
    requires Named(nodes, segs[..i]) == Some(dir)
    ensures var r := Descend(nodes, dir, segs, i, follow, depth);
            r.Ok? ==>
              && Canonical(nodes, r.value)
              && (follow && r.value.node.Some? ==> !IsSymlink(nodes, r.value.node.value) || r.value.node == Some(ROOT))
    decreases MAX_SYMLINK_DEPTH - depth, |segs| - i
  {
    hide Segments, Rooted, Clean, Retarget;
    SegmentsRooted(segs);
    assert segs[..i + 1] == segs[..i] + [segs[i]];
    NamedSnoc(nodes, segs[..i], segs[i]);
    if IsDir(nodes, dir) {
      var child := Child(nodes, dir, segs[i]);
      if i == |segs| - 1 {
        assert segs[..i + 1] == segs && Init(segs) == segs[..i] && Last(segs) == segs[i];
      }
      if child.Some? {
        if IsSymlink(nodes, child.value) && (follow || i != |segs| - 1) {
          if depth < MAX_SYMLINK_DEPTH && nodes[child.value].body.target != "" {
            CleanParts(segs, i);
            RetargetClean(segs[..i], nodes[child.value].body.target, segs[i + 1..]);
            WalkSegsCanonical(nodes, Retarget(segs[..i], nodes[child.value].body.target, segs[i + 1..]), follow,
                depth + 1);
          }
        } else if i != |segs| - 1 {
          DescendCanonical(nodes, child.value, segs, i + 1, follow, depth);
        }
      }
    }
  }

  lemma CleanParts(segs: seq<string>, i: nat)
    requires Clean(segs) && i < |segs|
    ensures Clean(segs[..i]) && Clean(segs[i + 1..])
  {
  }

  // Every walk answers a canonical place, whatever links it went through.
  lemma WalkCanonical(nodes: Nodes, path: string, follow: bool)
    ensures var r := Walk(nodes, path, follow); r.Ok? ==> Canonical(nodes, r.value)
    ensures var r := Walk(nodes, path, follow);
            r.Ok? && follow && IsDir(nodes, ROOT) && r.value.node.Some? ==> !IsSymlink(nodes, r.value.node.value)
  {
    SegmentsClean(path);
    WalkSegsCanonical(nodes, Segments(path), follow, 0);
  }

  // A walk along directories alone is a plain lookup.
  lemma WalkPlain(nodes: Nodes, at: map<nat, seq<string>>, path: string, follow: bool)
    requires Tree(nodes, at) && Segments(path) != []
    requires Named(nodes, Init(Segments(path))).Some? && IsDir(nodes, Named(nodes, Init(Segments(path))).value)
    requires var node := Named(nodes, Segments(path)); !follow || node.None? || !IsSymlink(nodes, node.value)
    ensures var segs := Segments(path);
            Walk(nodes, path, follow) ==
            Ok(Entry(Named(nodes, Init(segs)).value, Last(segs), Named(nodes, segs), Rooted(segs)))
  {
    hide Segments;
    NamedRoot(nodes);
    assert Segments(path)[..0] == [];
    DescendPlain(nodes, ROOT, Segments(path), 0, follow);
  }

  lemma {:induction false} DescendPlain(nodes: Nodes, dir: nat, segs: seq<string>, i: nat, follow: bool)
    requires i < |segs| && Named(nodes, segs[..i]) == Some(dir)
    requires Named(nodes, Init(segs)).Some? && IsDir(nodes, Named(nodes, Init(segs)).value)
    requires !follow || Named(nodes, segs).None? || !IsSymlink(nodes, Named(nodes, segs).value)
    ensures Descend(nodes, dir, segs, i, follow, 0) ==
            Ok(Entry(Named(nodes, Init(segs)).value, Last(segs), Named(nodes, segs), Rooted(segs)))
    decreases |segs| - i
  {
    hide Rooted;
    assert segs[..i + 1] == segs[..i] + [segs[i]];
    NamedSnoc(nodes, segs[..i], segs[i]);
    if i == |segs| - 1 {
      assert segs[..i + 1] == segs && Init(segs) == segs[..i];
    } else {
      NamedPrefixDir(nodes, segs, i);
      NamedPrefixDir(nodes, segs, i + 1);
      DescendPlain(nodes, Named(nodes, segs[..i + 1]).value, segs, i + 1, follow);
    }
  }

  lemma NamedPrefixDir(nodes: Nodes, segs: seq<string>, i: nat)
    requires i < |segs| && Named(nodes, Init(segs)).Some? && IsDir(nodes, Named(nodes, Init(segs)).value)
    ensures Named(nodes, segs[..i]).Some? && IsDir(nodes, Named(nodes, segs[..i]).value)
  {
    if i == |segs| - 1 {
      assert segs[..i] == Init(segs);
    } else {
      NamedPrefix(nodes, Init(segs), i);
      assert Init(segs)[..i] == segs[..i];
    }
  }

  // ---------- the scan over the string ----------

  function IndexOf(s: string, c: char, from: nat): (at: int)
    requires from <= |s|
    ensures -1 <= at < |s|
    ensures at >= 0 ==> from <= at && s[at] == c && forall k :: from <= k < at ==> s[k] != c
    ensures at == -1 ==> forall k :: from <= k < |s| ==> s[k] != c
    decreases |s| - from
  {
    if from == |s| then -1 else if s[from] == c then from else IndexOf(s, c, from + 1)
  }

  // Everything before segment i, without its separator; and after it.
  function Before(segs: seq<string>, i: nat): string
    requires i <= |segs|
  {
    if i == 0 then "" else Rooted(segs[..i])
  }

  function Behind(segs: seq<string>, i: nat): string
    requires i < |segs|
  {
    if i == |segs| - 1 then "" else "/" + Join(segs[i + 1..])
  }

  lemma SegmentSpan(segs: seq<string>, i: nat)
    requires Clean(segs) && i < |segs|
    ensures Rooted(segs) == Before(segs, i) + ("/" + (segs[i] + Behind(segs, i)))
  {
    var head, tail := segs[..i], segs[i..];
    assert segs == head + tail;
    assert Join(tail) == segs[i] + Behind(segs, i) by { assert tail[1..] == segs[i + 1..]; }
    if i == 0 {
      assert head + tail == tail;
    } else {
      RootedConcat(head, tail);
    }
  }

  lemma ConcatSlices(a: string, name: string, b: string)
    ensures var path := a + ("/" + (name + b));
            && |path| == |a| + 1 + |name| + |b| && path[..|a|] == a
            && path[|a| + 1..|a| + 1 + |name|] == name && path[|a| + 1 + |name|..] == b
  {
    var path := a + ("/" + (name + b));
    assert path[..|a|] == a;
    assert path[|a| + 1..|a| + 1 + |name|] == name;
    assert path[|a| + 1 + |name|..] == b;
  }

  lemma SpanSlices(a: string, name: string, b: string)
    requires SlashFree(name) && (b == "" || b[0] == '/')
    ensures var path, start := a + ("/" + (name + b)), |a| + 1;
            var end := if IndexOf(path, '/', start) == -1 then |path| else IndexOf(path, '/', start);
            && start <= |path| && end == start + |name|
            && (IndexOf(path, '/', start) == -1 <==> b == "")
            && path[..start - 1] == a && path[start..end] == name && path[end..] == b
  {
    var path, start := a + ("/" + (name + b)), |a| + 1;
    ConcatSlices(a, name, b);
    assert forall k :: start <= k < start + |name| ==> path[k] == name[k - start];
    if b != "" {
      assert path[start + |name|] == b[0];
    }
  }

  lemma BeforeNext(segs: seq<string>, i: nat)
    requires Clean(segs) && i + 1 < |segs|
    ensures |Before(segs, i + 1)| == |Before(segs, i)| + 1 + |segs[i]|
  {
    assert segs[..i + 1] == segs[..i] + [segs[i]];
    if i > 0 {
      RootedConcat(segs[..i], [segs[i]]);
    }
  }

  lemma RestSegments(base: string, after: seq<string>)
    requires Clean(after)
    ensures Segments(base + (if after == [] then "" else "/" + Join(after))) == Segments(base) + after
  {
    if after == [] {
      assert base + "" == base;
    } else {
      assert base + ("/" + Join(after)) == base + "/" + Join(after);
      SplitConcat(base, Join(after));
      assert forall k :: 0 <= k < |after| ==> CleanName(after[k]) ==> SlashFree(after[k]);
      SplitJoin(after);
      FoldConcat(Split(base), after, []);
      FoldOfClean(after, Segments(base));
    }
  }

  lemma BeforeSegments(before: seq<string>)
    requires Clean(before)
    ensures Segments(Before(before, |before|)) == before
  {
    assert before[..|before|] == before;
    if before == [] {
      assert Split("") == [""];
      assert Fold([""], []) == Fold([], []);
    } else {
      SegmentsRooted(before);
    }
  }

  lemma BaseSegments(before: seq<string>, target: string)
    requires Clean(before)
    ensures Segments(Before(before, |before|) + "/" + target) == Fold(Split(target), before)
  {
    hide Split, Fold, Before;
    BeforeSegments(before);
    SplitConcat(Before(before, |before|), target);
    FoldConcat(Split(Before(before, |before|)), Split(target), []);
  }

  // The string a link sends the walk to means what `Retarget` says.
  lemma LinkPath(segs: seq<string>, i: nat, target: string)
    requires Clean(segs) && i < |segs| && target != ""
    ensures var base := if target[0] == '/' then target else Before(segs, i) + "/" + target;
            Segments(base + Behind(segs, i)) == Retarget(segs[..i], target, segs[i + 1..])
  {
    CleanParts(segs, i);
    var base := if target[0] == '/' then target else Before(segs, i) + "/" + target;
    RestSegments(base, segs[i + 1..]);
    BaseSegments(segs[..i], target);
    assert segs[..i][..i] == segs[..i];
  }

  method WalkPath(nodes: Nodes, path: string, follow: bool, depth: nat) returns (r: Result<Entry>)
    requires depth <= MAX_SYMLINK_DEPTH && IsDir(nodes, ROOT)
    ensures r == WalkSegs(nodes, Segments(path), follow, depth)
    decreases MAX_SYMLINK_DEPTH - depth
  {
    hide Segments, Clean, Split, Join, Fold, Retarget, Normalize;
    var normalized := NormalizePath(path);
    ghost var segs := Segments(path);
    SegmentsClean(path);
    NormalizedIsRooted(path);
    RootedLength(segs);
    if normalized == "/" {
      return Ok(Entry(ROOT, "", Some(ROOT), "/"));
    }
    var directory := ROOT;
    var start := 1;
    ghost var i := 0;
    while true
      invariant 0 <= i < |segs| && start == |Before(segs, i)| + 1
      invariant Descend(nodes, directory, segs, i, follow, depth) == WalkSegs(nodes, segs, follow, depth)
      decreases |segs| - i
    {
      SegmentSpan(segs, i);
      CleanAt(segs, i);
      SpanSlices(Before(segs, i), segs[i], Behind(segs, i));
      var end := IndexOf(normalized, '/', start);
      var last := end == -1;
      if last {
        end := |normalized|;
      }
      var name := normalized[start..end];
      if !IsDir(nodes, directory) {
        return Err(ENOTDIR);
      }
      if name !in nodes[directory].body.children {
        return if last then Ok(Entry(directory, name, None, normalized)) else Err(ENOENT);
      }
      var node := nodes[directory].body.children[name];
      if IsSymlink(nodes, node) && (follow || !last) {
        if depth >= MAX_SYMLINK_DEPTH {
          return Err(ELOOP);
        }
        var target := nodes[node].body.target;
        if target == "" {
          return Err(ENOENT);
        }
        LinkPath(segs, i, target);
        var base := if target[0] == '/' then target else normalized[..start - 1] + "/" + target;
        r := WalkPath(nodes, base + normalized[end..], follow, depth + 1);
        return;
      }
      if last {
        return Ok(Entry(directory, name, Some(node), normalized));
      }
      BeforeNext(segs, i);
      directory := node;
      start := end + 1;
      i := i + 1;
    }
  }

  lemma NormalizedIsRooted(path: string)
    ensures Normalize(path) == Rooted(Segments(path))
  {
  }

  lemma CleanAt(segs: seq<string>, i: nat)
    requires Clean(segs) && i < |segs|
    ensures SlashFree(segs[i])
    ensures Behind(segs, i) == "" <==> i == |segs| - 1
    ensures Behind(segs, i) != "" ==> Behind(segs, i)[0] == '/'
  {
    assert CleanName(segs[i]);
  }
}
