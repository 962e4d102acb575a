// The tables built on path tables that hand out identities: FUSE nodeids with
// their lookup counts and 9P qid paths. What no run of either can ever do.
module Identities {
  import opened Wrappers
  import opened Keys
  import opened Paths
  import opened PathTables

  // ---------- every change either table makes ----------

  datatype Op<V> =
    | BindOp(path: string, key: Option<string>, made: V)
    | ReleaseOp(path: string)
    | RemapOp(from: string, to: string)
    | InfoOp(id: nat, info: V)
    | DropOp(id: nat)

  // The kernel forgot an entry for good.
  function Dropped<V>(t: Table<V>, i: nat): Table<V>
    requires i in t.entries
  {
    t.(entries := t.entries - {i}, byPath := t.byPath - t.entries[i].paths,
       byKey := ReleasedKey(t.byKey, t.entries[i].key, i))
  }

  ghost predicate Step<V>(t: Table<V>, op: Op<V>, u: Table<V>)
    requires Coherent(t)
  {
    match op
    case BindOp(path, key, info) => u == Bind(t, path, key, info).0
    case ReleaseOp(path) => u == Release(t, path)
    case RemapOp(from, to) => Remapped(t, u, from, to)
    case InfoOp(i, info) =>
      u == if i in t.entries then t.(entries := t.entries[i := t.entries[i].(info := info)]) else t
    case DropOp(i) => u == if i in t.entries then Dropped(t, i) else t
  }

  // What every step keeps: coherence, the counter's growth, and for each id
  // either its absence or its key.
  ghost predicate Kept<V>(t: Table<V>, u: Table<V>)
  {
    && Coherent(u) && t.nextId <= u.nextId
    && (forall i :: i < t.nextId && i in u.entries ==> i in t.entries)
    && (forall i :: i in t.entries && i in u.entries && t.entries[i].key.Some? ==> u.entries[i].key == t.entries[i].key)
    && (forall i :: i < t.nextId && i in u.entries && t.entries[i].paths == {} ==> u.entries[i].paths == {})
  }

  lemma StepKeeps<V>(t: Table<V>, op: Op<V>, u: Table<V>)
    requires Coherent(t) && Step(t, op, u)
    ensures Kept(t, u)
  {
    hide Coherent, Bind, Release, Remapped, Dropped, Kept;
    match op
    case BindOp(path, key, info) => BindKeeps(t, path, key, info);
    case ReleaseOp(path) => ReleaseKeeps(t, path);
    case RemapOp(from, to) => RemapKeeps(t, u, from, to);
    case InfoOp(i, info) => if i in t.entries { InfoKeeps(t, i, info); } else { SameKeeps(t); }
    case DropOp(i) => if i in t.entries { DropKeeps(t, i); } else { SameKeeps(t); }
  }

  lemma SameKeeps<V>(t: Table<V>)
    requires Coherent(t)
    ensures Kept(t, t)
  {
  }

  lemma BindKeeps<V>(t: Table<V>, path: string, key: Option<string>, info: V)
    requires Coherent(t)
    ensures Kept(t, Bind(t, path, key, info).0)
  {
    hide Bind;
    BindSpec(t, path, key, info);
  }

  lemma ReleaseKeeps<V>(t: Table<V>, path: string)
    requires Coherent(t)
    ensures Kept(t, Release(t, path))
  {
    if path in t.byPath { DetachCoherent(t, path); }
  }

  lemma RemapKeeps<V>(t: Table<V>, u: Table<V>, from: string, to: string)
    requires Coherent(t) && Remapped(t, u, from, to)
    ensures Kept(t, u)
  {
    hide Survives, Origin;
    RemapKeepsEmpty(t, u, from, to);
  }

  lemma InfoKeeps<V>(t: Table<V>, i: nat, info: V)
    requires Coherent(t) && i in t.entries
    ensures Kept(t, t.(entries := t.entries[i := t.entries[i].(info := info)]))
  {
    InfoCoherent(t, i, info);
  }

  lemma DropKeeps<V>(t: Table<V>, i: nat)
    requires Coherent(t) && i in t.entries
    ensures Kept(t, Dropped(t, i))
  {
    DroppedCoherent(t, i);
  }

  lemma RemapKeepsEmpty<V>(t: Table<V>, u: Table<V>, from: string, to: string)
    requires Coherent(t) && Remapped(t, u, from, to)
    ensures forall i :: i in t.entries && t.entries[i].paths == {} ==> u.entries[i].paths == {}
  {
    forall i, q | i in u.entries && q in u.entries[i].paths ensures t.entries[i].paths != {} {
      assert u.byPath[q] == i && t.byPath[Origin(q, from, to)] == i;
      assert Origin(q, from, to) in t.entries[i].paths;
    }
  }

  lemma InfoCoherent<V>(t: Table<V>, i: nat, info: V)
    requires Coherent(t) && i in t.entries
    ensures Coherent(t.(entries := t.entries[i := t.entries[i].(info := info)]))
  {
  }

  lemma DroppedCoherent<V>(t: Table<V>, i: nat)
    requires Coherent(t) && i in t.entries
    ensures Coherent(Dropped(t, i))
  {
    var u := Dropped(t, i);
    forall j, p | j in u.entries && p in u.entries[j].paths ensures p in u.byPath && u.byPath[p] == j {
      assert p in t.byPath && t.byPath[p] == j;
    }
    assert PathsAgree(u);
    forall k | k in u.byKey
      ensures u.byKey[k] in u.entries && u.entries[u.byKey[k]].key == Some(k) && u.entries[u.byKey[k]].paths != {}
    {
      assert k in t.byKey && u.byKey[k] == t.byKey[k];
    }
    assert KeysAgree(u);
  }

  lemma KeptTransitive<V>(t: Table<V>, u: Table<V>, v: Table<V>)
    requires Coherent(t) && Kept(t, u) && Kept(u, v)
    ensures Kept(t, v)
  {
  }

  lemma KeptCoherent<V>(t: Table<V>, u: Table<V>)
    requires Kept(t, u)
    ensures Coherent(u)
  {
  }

  // ---------- runs ----------

  ghost predicate Run<V>(states: seq<Table<V>>, ops: seq<Op<V>>)
  {
    && |states| == |ops| + 1
    && forall k :: 0 <= k < |ops| ==> Coherent(states[k]) && Step(states[k], ops[k], states[k + 1])
  }

  lemma {:induction false} RunKeeps<V>(states: seq<Table<V>>, ops: seq<Op<V>>, a: nat, b: nat)
    requires Run(states, ops) && Coherent(states[0]) && a <= b <= |ops|
    ensures Coherent(states[a]) && Kept(states[a], states[b])
  {
    hide Coherent, Kept, Step;
    if a == b {
      if a > 0 {
        StepKeeps(states[a - 1], ops[a - 1], states[a]);
        KeptCoherent(states[a - 1], states[a]);
      }
      SameKeeps(states[a]);
    } else {
      RunKeeps(states, ops, a, b - 1);
      StepKeeps(states[b - 1], ops[b - 1], states[b]);
      KeptTransitive(states[a], states[b - 1], states[b]);
    }
  }

  // The id the bind at step `a` answers.
  ghost function Answer<V>(states: seq<Table<V>>, ops: seq<Op<V>>, a: nat): nat
    requires Run(states, ops) && a < |ops| && ops[a].BindOp?
  {
    Bind(states[a], ops[a].path, ops[a].key, ops[a].made).1
  }

  // No id is ever answered for two different identity keys.
  lemma NoAlias<V>(states: seq<Table<V>>, ops: seq<Op<V>>, a: nat, b: nat)
    requires Run(states, ops) && a < b < |ops|
    requires ops[a].BindOp? && ops[b].BindOp? && ops[a].key.Some? && ops[b].key.Some?
    requires Answer(states, ops, a) == Answer(states, ops, b)
    ensures ops[a].key == ops[b].key
  {
    BindSpec(states[a], ops[a].path, ops[a].key, ops[a].made);
    BindSpec(states[b], ops[b].path, ops[b].key, ops[b].made);
    RunKeeps(states, ops, a + 1, b + 1);
  }

  // Once an id has no path left, or was dropped, no later bind answers it and
  // no path ever leads to it again.
  lemma DeadStaysDead<V>(states: seq<Table<V>>, ops: seq<Op<V>>, a: nat, b: nat, i: nat)
    requires Run(states, ops) && Coherent(states[0]) && a <= b <= |ops|
    requires i < states[a].nextId && (i in states[a].entries ==> states[a].entries[i].paths == {})
    ensures i in states[b].entries ==> i in states[a].entries && states[b].entries[i].paths == {}
    ensures forall p :: p in states[b].byPath ==> states[b].byPath[p] != i
    ensures b < |ops| && ops[b].BindOp? ==> Answer(states, ops, b) != i
  {
    RunKeeps(states, ops, a, b);
    assert Coherent(states[b]);
    if b < |ops| && ops[b].BindOp? {
      BindSpec(states[b], ops[b].path, ops[b].key, ops[b].made);
    }
  }

  // Two paths bound to one key lead to one id, and while either is bound a
  // bind of that key answers it.
  lemma OneKeyOneId<V>(t: Table<V>, p: string, q: string, r: string, info: V)
    requires Coherent(t) && p in t.byPath && q in t.byPath
    requires t.entries[t.byPath[p]].key.Some? && t.entries[t.byPath[p]].key == t.entries[t.byPath[q]].key
    ensures t.byPath[p] == t.byPath[q]
    ensures Bind(t, r, t.entries[t.byPath[p]].key, info).1 == t.byPath[p]
  {
    assert p in t.entries[t.byPath[p]].paths && q in t.entries[t.byPath[q]].paths;
    BindSpec(t, r, t.entries[t.byPath[p]].key, info);
  }

  // The rename's closed form over segments: below `to` afterwards is exactly what was
  // below `from` and not below `to`, with the ids it had, and only that is left of
  // what was below `from`.
  lemma RemapBelow<V>(t: Table<V>, u: Table<V>, from: string, to: string, below: seq<string>)
    requires Coherent(t) && NormalPaths(t) && Renames(from, to) && Remapped(t, u, from, to) && Clean(below)
    ensures var oldPath, newPath := Rooted(Segments(from) + below), Rooted(Segments(to) + below);
            && (newPath in u.byPath <==> oldPath in t.byPath && (from == to || !IsPathInside(oldPath, to)))
            && (newPath in u.byPath ==> u.byPath[newPath] == t.byPath[oldPath])
            && (from != to && !IsPathInside(oldPath, to) ==> oldPath !in u.byPath)
            && (Unrelated(from, to) ==> !IsPathInside(oldPath, to))
  {
    var f, o := Segments(from), Segments(to);
    SegmentsClean(from);
    SegmentsClean(to);
    RootedLength(f);
    RootedLength(o);
    RebasePath(f, o, below);
    RebasePath(o, f, below);
    InsideIsPrefix(o + below, o);
    InsideIsPrefix(f + below, f);
    SegmentsRooted(f + below);
    var oldPath, newPath := Rooted(f + below), Rooted(o + below);
    assert Target(newPath, to, from) == oldPath;
    assert Survives(t.byPath, from, to, newPath) <==> oldPath in t.byPath && (from == to || !IsPathInside(oldPath, to));
    if Unrelated(from, to) {
      InsideOne(oldPath, from, to);
    }
  }

  lemma TargetSelf(q: string, path: string)
    requires IsPathInside(q, path)
    ensures |path| <= |q| && Target(q, path, path) == q
  {
    assert q[..|path|] == path;
  }

  // Renaming a path to itself changes no binding.
  lemma RemapToItself<V>(t: Table<V>, u: Table<V>, path: string)
    requires Coherent(t) && Remapped(t, u, path, path)
    ensures u.byPath == t.byPath && forall i :: i in t.entries ==> u.entries[i].paths == t.entries[i].paths
  {
    hide IsPathInside, Target;
    forall q ensures (Survives(t.byPath, path, path, q) <==> q in t.byPath) && Origin(q, path, path) == q {
      if IsPathInside(q, path) { TargetSelf(q, path); }
    }
    assert u.byPath == t.byPath;
    forall i | i in t.entries ensures u.entries[i].paths == t.entries[i].paths {
      forall p ensures p in u.entries[i].paths <==> p in t.entries[i].paths {
        assert p in u.entries[i].paths <==> p in u.byPath && u.byPath[p] == i;
      }
    }
  }
}
