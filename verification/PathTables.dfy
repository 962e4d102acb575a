// The table shape the inode, qid and lock tables share: path -> entry,
// identity key -> entry, each entry knowing its own paths; and the subtree
// rewrite a rename drives through them.
module PathTables {
  import opened Wrappers
  import opened Paths

  // One tracked object. Its id stands for the object itself.
  datatype Entry<V> = Entry(key: Option<string>, paths: set<string>, info: V)

  datatype Table<V> = Table(entries: map<nat, Entry<V>>, byPath: map<string, nat>, byKey: map<string, nat>, nextId: nat)

  // ---------- coherence ----------

  ghost predicate PathsAgree<V>(t: Table<V>)
  {
    && (forall p :: p in t.byPath ==> t.byPath[p] in t.entries && p in t.entries[t.byPath[p]].paths)
    && (forall i, p :: i in t.entries && p in t.entries[i].paths ==> p in t.byPath && t.byPath[p] == i)
  }

  ghost predicate KeysAgree<V>(t: Table<V>)
  {
    && (forall k :: k in t.byKey ==>
          t.byKey[k] in t.entries && t.entries[t.byKey[k]].key == Some(k) && t.entries[t.byKey[k]].paths != {})
    && (forall i :: i in t.entries && t.entries[i].key.Some? && t.entries[i].paths != {} ==>
          t.entries[i].key.value in t.byKey && t.byKey[t.entries[i].key.value] == i)
  }

  // byPath[p] = i exactly when p is one of i's paths; byKey[k] = i exactly
  // when i has key k and at least one path; ids stay below the counter.
  ghost predicate Coherent<V>(t: Table<V>)
  {
    PathsAgree(t) && KeysAgree(t) && forall i :: i in t.entries ==> i < t.nextId
  }

  ghost predicate NormalPaths<V>(t: Table<V>) { forall p :: p in t.byPath ==> Normal(p) }

  // ---------- the primitives ----------

  function Attach<V>(t: Table<V>, i: nat, path: string): Table<V>
    requires i in t.entries
  {
    var e := t.entries[i];
    t.(entries := t.entries[i := e.(paths := e.paths + {path})],
       byPath := t.byPath[path := i],
       byKey := if e.key.Some? then t.byKey[e.key.value := i] else t.byKey)
  }

  // The key is given up with the last path, and only if it is still owned.
  function Detach<V>(t: Table<V>, i: nat, path: string): Table<V>
    requires i in t.entries
  {
    var e := t.entries[i];
    t.(entries := t.entries[i := e.(paths := e.paths - {path})],
       byPath := t.byPath - {path},
       byKey := if e.paths - {path} == {} then ReleasedKey(t.byKey, e.key, i) else t.byKey)
  }

  function ReleasedKey(byKey: map<string, nat>, key: Option<string>, i: nat): map<string, nat>
  {
    if key.Some? && key.value in byKey && byKey[key.value] == i then byKey - {key.value} else byKey
  }

  function Found<V>(t: Table<V>, path: string, key: Option<string>): Option<nat>
  {
    if key.Some? && key.value in t.byKey then Some(t.byKey[key.value])
    else if path in t.byPath && t.byPath[path] in t.entries &&
            (t.entries[t.byPath[path]].key.None? || t.entries[t.byPath[path]].key == key) then Some(t.byPath[path])
    else None
  }

  // The entry a bind settles on, made if there is none.
  function Settled<V>(t: Table<V>, path: string, key: Option<string>, info: V): (r: (Table<V>, nat))
  {
    var found := Found(t, path, key);
    if found.Some? then (t, found.value)
    else (t.(entries := t.entries[t.nextId := Entry(key, {}, info)], nextId := t.nextId + 1), t.nextId)
  }

  // A different entry the path led to no longer answers to it.
  function Displaced<V>(t: Table<V>, path: string, i: nat): Table<V>
    requires PathsAgree(t)
  {
    if path in t.byPath && t.byPath[path] != i then Detach(t, t.byPath[path], path) else t
  }

  // Adopting a key, never swapping one.
  function Adopted<V>(t: Table<V>, i: nat, key: Option<string>): Table<V>
    requires i in t.entries
  {
    if key.Some? && t.entries[i].key.None? then t.(entries := t.entries[i := t.entries[i].(key := key)]) else t
  }

  // `path` holds the file `key` names: reuse the entry for it or make one, drop
  // a different one the path led to, adopt the key, and attach.
  function Bind<V>(t: Table<V>, path: string, key: Option<string>, info: V): (r: (Table<V>, nat))
    requires Coherent(t)
    ensures r.1 in r.0.entries
  {
    var (t1, i) := Settled(t, path, key, info);
    SettledSpec(t, path, key, info);
    var t2 := Displaced(t1, path, i);
    (Attach(Adopted(t2, i, key), i, path), i)
  }

  // A path stopped existing.
  function Release<V>(t: Table<V>, path: string): Table<V>
    requires PathsAgree(t)
  {
    if path in t.byPath then Detach(t, t.byPath[path], path) else t
  }

  // Coherent but for entry i, whose own key may not be filed yet.
  ghost predicate CoherentBut<V>(t: Table<V>, i: nat)
  {
    && PathsAgree(t)
    && (forall j :: j in t.entries ==> j < t.nextId)
    && (forall k :: k in t.byKey ==>
          t.byKey[k] in t.entries && t.entries[t.byKey[k]].key == Some(k) && t.entries[t.byKey[k]].paths != {})
    && (forall j :: j in t.entries && j != i && t.entries[j].key.Some? && t.entries[j].paths != {} ==>
          t.entries[j].key.value in t.byKey && t.byKey[t.entries[j].key.value] == j)
    && (i in t.entries && t.entries[i].key.Some? && t.entries[i].key.value in t.byKey ==>
          t.byKey[t.entries[i].key.value] == i)
  }

  lemma AttachCoherent<V>(t: Table<V>, i: nat, path: string)
    requires CoherentBut(t, i) && i in t.entries
    requires path in t.byPath ==> t.byPath[path] == i
    ensures Coherent(Attach(t, i, path))
    ensures Attach(t, i, path).byPath == t.byPath[path := i] && Attach(t, i, path).nextId == t.nextId
    ensures Attach(t, i, path).entries == t.entries[i := t.entries[i].(paths := t.entries[i].paths + {path})]
  {
    var u := Attach(t, i, path);
    assert path in u.entries[i].paths;
    assert PathsAgree(u) by {
      forall p | p in u.byPath ensures u.byPath[p] in u.entries && p in u.entries[u.byPath[p]].paths {
        if p != path { assert p in t.byPath; }
      }
    }
    assert KeysAgree(u) by {
      forall k | k in u.byKey
        ensures u.byKey[k] in u.entries && u.entries[u.byKey[k]].key == Some(k) && u.entries[u.byKey[k]].paths != {}
      {
        if t.entries[i].key != Some(k) { assert k in t.byKey; }
      }
    }
  }

  lemma DetachCoherent<V>(t: Table<V>, path: string)
    requires Coherent(t) && path in t.byPath
    ensures Coherent(Detach(t, t.byPath[path], path))
  {
    var i := t.byPath[path];
    var u := Detach(t, i, path);
    assert KeysAgree(u) by {
      forall k | k in u.byKey
        ensures u.byKey[k] in u.entries && u.entries[u.byKey[k]].key == Some(k) && u.entries[u.byKey[k]].paths != {}
      {
        assert k in t.byKey && u.byKey[k] == t.byKey[k];
      }
    }
  }

  lemma SettledSpec<V>(t: Table<V>, path: string, key: Option<string>, info: V)
    requires Coherent(t)
    ensures var (u, i) := Settled(t, path, key, info);
            && Coherent(u) && i in u.entries
            && (u.entries[i].key == key || u.entries[i].key.None?)
            && (key.Some? && key.value in u.byKey ==> u.byKey[key.value] == i)
            && u.byPath == t.byPath && u.byKey == t.byKey
            && (i in t.entries ==> u == t && t.entries[i].paths != {})
            && (i !in t.entries ==>
                  i == t.nextId && u.nextId == i + 1 && u.entries == t.entries[i := Entry(key, {}, info)])
  {
  }

  lemma AdoptedCoherent<V>(t: Table<V>, i: nat, key: Option<string>)
    requires Coherent(t) && i in t.entries
    requires t.entries[i].key == key || t.entries[i].key.None?
    requires key.Some? && key.value in t.byKey ==> t.byKey[key.value] == i
    ensures CoherentBut(Adopted(t, i, key), i)
    ensures Adopted(t, i, key) == t.(entries := t.entries[i := t.entries[i].(key := key)])
  {
    var u := Adopted(t, i, key);
    forall k | k in u.byKey
      ensures u.byKey[k] in u.entries && u.entries[u.byKey[k]].key == Some(k) && u.entries[u.byKey[k]].paths != {}
    {
      assert k in t.byKey && t.entries[t.byKey[k]].key == Some(k);
    }
    assert t.entries[i].key == key ==> t.entries[i := t.entries[i].(key := key)] == t.entries;
  }

  lemma DisplacedSpec<V>(t: Table<V>, path: string, i: nat)
    requires Coherent(t) && i in t.entries
    ensures var u := Displaced(t, path, i);
            && Coherent(u) && u.entries.Keys == t.entries.Keys && u.nextId == t.nextId
            && (path in u.byPath ==> u.byPath[path] == i)
            && u.byPath[path := i] == t.byPath[path := i]
            && u.entries[i] == t.entries[i]
            && (forall j :: j in t.entries && j != i ==>
                  u.entries[j] == t.entries[j].(paths := t.entries[j].paths - {path}))
            && (forall k :: k in u.byKey ==> k in t.byKey && u.byKey[k] == t.byKey[k])
  {
    if path in t.byPath && t.byPath[path] != i {
      DetachCoherent(t, path);
    }
    forall j | j in t.entries && j != i
      ensures Displaced(t, path, i).entries[j] == t.entries[j].(paths := t.entries[j].paths - {path})
    {
      if !(path in t.byPath && t.byPath[path] == j) {
        assert path !in t.entries[j].paths;
        assert t.entries[j].paths - {path} == t.entries[j].paths;
      }
    }
  }

  // What a bind does: the path and the key name the returned entry afterwards,
  // the entry was already either the key's, or the path's and not
  // contradicted, or is new; every other path and key is as it was.
  lemma BindSpec<V>(t: Table<V>, path: string, key: Option<string>, info: V)
    requires Coherent(t)
    ensures var (u, i) := Bind(t, path, key, info);
            && Coherent(u)
            && u.byPath == t.byPath[path := i]
            && u.entries[i].key == key
            && u.entries.Keys == t.entries.Keys + {i}
            && (key.Some? && key.value in t.byKey ==> i == t.byKey[key.value])
            && (i in t.entries ==> t.entries[i].paths != {} && u.nextId == t.nextId)
            && (i in t.entries && t.entries[i].key.Some? ==> t.entries[i].key == key)
            && (i in t.entries ==> u.entries[i] == Entry(key, t.entries[i].paths + {path}, t.entries[i].info))
            && (i !in t.entries ==> i == t.nextId && u.nextId == i + 1 && u.entries[i] == Entry(key, {path}, info))
            && (forall j :: j in t.entries && j != i ==>
                  u.entries[j] == t.entries[j].(paths := t.entries[j].paths - {path}))
  {
    hide Settled, Found, Displaced, Adopted, Attach, PathsAgree, KeysAgree, CoherentBut;
    var (t1, i) := Settled(t, path, key, info);
    SettledSpec(t, path, key, info);
    var t2 := Displaced(t1, path, i);
    DisplacedSpec(t1, path, i);
    AdoptedCoherent(t2, i, key);
    AttachCoherent(Adopted(t2, i, key), i, path);
  }

  // ---------- rename ----------

  // Detaching a set of paths, in any order.
  ghost function DetachedAll<V>(t: Table<V>, gone: set<string>): Table<V>
    requires PathsAgree(t)
  {
    var entries := map i | i in t.entries :: t.entries[i].(paths := t.entries[i].paths - gone);
    Table(entries, t.byPath - gone,
          map k | k in t.byKey && (t.byKey[k] in entries ==> entries[t.byKey[k]].paths != {}) :: t.byKey[k], t.nextId)
  }

  lemma DetachOneMore<V>(t: Table<V>, gone: set<string>, path: string)
    requires Coherent(t) && path in t.byPath && path !in gone
    ensures var u := DetachedAll(t, gone);
            t.byPath[path] in u.entries && Detach(u, t.byPath[path], path) == DetachedAll(t, gone + {path})
  {
    hide ReleasedKey;
    var u, i := DetachedAll(t, gone), t.byPath[path];
    var v, w := Detach(u, i, path), DetachedAll(t, gone + {path});
    forall j | j in t.entries ensures v.entries[j].paths == w.entries[j].paths {
      if j != i {
        assert path !in t.entries[j].paths;
      }
    }
    assert v.entries == w.entries;
    assert v.byPath == w.byPath;
    DetachOneMoreKey(t, gone, path);
  }

  lemma DetachedKey<V>(t: Table<V>, gone: set<string>, k: string)
    requires Coherent(t)
    ensures var u := DetachedAll(t, gone);
            && (k in u.byKey <==> k in t.byKey && t.entries[t.byKey[k]].paths - gone != {})
            && (k in u.byKey ==> u.byKey[k] == t.byKey[k])
  {
  }

  // What a detached path changes of the paths left to a key's entry.
  lemma DetachedPaths<V>(t: Table<V>, gone: set<string>, path: string, i: nat)
    requires Coherent(t) && path in t.byPath && path !in gone && i in t.entries
    ensures i == t.byPath[path] ==>
            t.entries[i].paths - gone != {} &&
                t.entries[i].paths - gone - {path} == t.entries[i].paths - (gone + {path})
    ensures i != t.byPath[path] ==> t.entries[i].paths - (gone + {path}) == t.entries[i].paths - gone
  {
    if i == t.byPath[path] {
      assert path in t.entries[i].paths - gone;
    } else {
      assert path !in t.entries[i].paths;
    }
  }

  lemma DetachOneMoreKey<V>(t: Table<V>, gone: set<string>, path: string)
    requires Coherent(t) && path in t.byPath && path !in gone
    ensures var u, i := DetachedAll(t, gone), t.byPath[path];
            (if u.entries[i].paths - {path} == {} then ReleasedKey(u.byKey, u.entries[i].key, i) else u.byKey) ==
            DetachedAll(t, gone + {path}).byKey
  {
    var i := t.byPath[path];
    var e := t.entries[i];
    var u, w := DetachedAll(t, gone), DetachedAll(t, gone + {path});
    var left := if e.paths - gone - {path} == {} then ReleasedKey(u.byKey, e.key, i) else u.byKey;
    assert u.entries[i].paths == e.paths - gone && u.entries[i].key == e.key;
    hide DetachedAll;
    forall k ensures (k in left <==> k in w.byKey) && (k in left ==> left[k] == w.byKey[k]) {
      DetachedKey(t, gone, k);
      DetachedKey(t, gone + {path}, k);
      if k in t.byKey { DetachedPaths(t, gone, path, t.byKey[k]); }
    }
    SameMap(left, w.byKey);
  }

  lemma SameMap(a: map<string, nat>, b: map<string, nat>)
    requires forall k :: (k in a <==> k in b) && (k in a ==> a[k] == b[k])
    ensures a == b
  {
  }

  lemma DetachedAllCoherent<V>(t: Table<V>, gone: set<string>)
    requires Coherent(t)
    ensures Coherent(DetachedAll(t, gone))
  {
    var u := DetachedAll(t, gone);
    forall i | i in u.entries && u.entries[i].key.Some? && u.entries[i].paths != {}
      ensures u.entries[i].key.value in u.byKey && u.byKey[u.entries[i].key.value] == i
    {
      assert t.entries[i].paths != {};
    }
  }

  // Where a tracked path goes.
  function Target(path: string, from: string, to: string): string
    requires |from| <= |path|
  {
    to + path[|from|..]
  }

  ghost predicate Renames(from: string, to: string) { Normal(from) && Normal(to) && from != "/" && to != "/" }

  // Neither end of a rename is inside the other.
  ghost predicate Unrelated(from: string, to: string) { !IsPathInside(from, to) && !IsPathInside(to, from) }

  lemma TargetOfSegments(f: seq<string>, t: seq<string>, below: seq<string>)
    requires Clean(f) && Clean(t) && Clean(below) && f != [] && t != []
    ensures var path, from, to := Rooted(f + below), Rooted(f), Rooted(t);
            |from| <= |path| && Target(path, from, to) == Rooted(t + below)
    ensures Normal(Rooted(t + below)) && Segments(Rooted(t + below)) == t + below
    ensures IsPathInside(Rooted(t + below), Rooted(t))
  {
    assert Clean(t + below) by {
      forall i | 0 <= i < |t + below| ensures CleanName((t + below)[i]) {
        assert CleanName(if i < |t| then t[i] else below[i - |t|]);
      }
    }
    hide Clean, Rooted, Segments, Normal, IsPathInside;
    RebasePath(f, t, below);
    SegmentsRooted(t + below);
    InsideIsPrefix(t + below, t);
  }

  lemma CleanParts(a: seq<string>, n: nat)
    requires Clean(a) && n <= |a|
    ensures Clean(a[n..])
  {
    forall i | 0 <= i < |a[n..]| ensures CleanName(a[n..][i]) { assert CleanName(a[n + i]); }
  }

  lemma NotTheRoot(path: string)
    requires Normal(path)
    ensures Rooted(Segments(path)) == path && Clean(Segments(path)) && (path != "/" ==> Segments(path) != [])
  {
    SegmentsClean(path);
    RootedLength(Segments(path));
  }

  lemma TargetSegments(path: string, from: string, to: string)
    requires Normal(path) && Normal(from) && Normal(to) && from != "/" && to != "/"
    requires IsPathInside(path, from)
    ensures |from| <= |path| && Normal(Target(path, from, to)) && IsPathInside(Target(path, from, to), to)
    ensures |Segments(from)| <= |Segments(path)|
    ensures Segments(Target(path, from, to)) == Segments(to) + Segments(path)[|Segments(from)|..]
    ensures |to| <= |Target(path, from, to)| && Target(Target(path, from, to), to, from) == path
  {
    hide Clean, Rooted, Segments, Normal, IsPathInside, Target;
    var f, t, p := Segments(from), Segments(to), Segments(path);
    NotTheRoot(from);
    NotTheRoot(to);
    NotTheRoot(path);
    IsPathInsideIsSegmentPrefix(path, from);
    var below := p[|f|..];
    assert p == f + below;
    CleanParts(p, |f|);
    TargetOfSegments(f, t, below);
    TargetOfSegments(t, f, below);
  }

  // Both ends of the rename, said of paths: inside `to` is afterwards what was inside
  // `from` and not inside `to` already, and elsewhere what was inside neither.
  ghost predicate Survives<X>(byPath: map<string, X>, from: string, to: string, q: string)
  {
    if IsPathInside(q, to) then
      && |to| <= |q| && Target(q, to, from) in byPath && IsPathInside(Target(q, to, from), from)
      && (from == to || !IsPathInside(Target(q, to, from), to))
    else q in byPath && !IsPathInside(q, from)
  }

  ghost function Origin(q: string, from: string, to: string): string
  {
    if IsPathInside(q, to) && |to| <= |q| then Target(q, to, from) else q
  }

  // The closed form of a rename: afterwards `q` names what `Origin(q)` named
  // before, for exactly the `q` that survive, and every entry's own paths and
  // key agree.
  ghost predicate Remapped<V>(t: Table<V>, u: Table<V>, from: string, to: string)
  {
    && Coherent(u)
    && (forall q :: q in u.byPath ==> Survives(t.byPath, from, to, q))
    && (forall q :: Survives(t.byPath, from, to, q) ==>
          Origin(q, from, to) in t.byPath && q in u.byPath && u.byPath[q] == t.byPath[Origin(q, from, to)])
    && u.entries.Keys == t.entries.Keys && u.nextId == t.nextId
    && (forall i :: i in t.entries ==> u.entries[i].key == t.entries[i].key && u.entries[i].info == t.entries[i].info)
  }

  // An entry's paths when those in `out` are unfiled and `back` is filed again.
  ghost function RefiledPaths(paths: set<string>, i: nat, out: set<string>, back: map<string, nat>): set<string>
  {
    (paths - out) + (set q | q in back && back[q] == i)
  }

  // What the removal pass and the re-attaching pass have done so far; keys are
  // kept throughout.
  ghost function Refiled<V>(t: Table<V>, out: set<string>, back: map<string, nat>): Table<V>
  {
    t.(entries := map i | i in t.entries ::
                    t.entries[i].(paths := RefiledPaths(t.entries[i].paths, i, out, back)),
       byPath := (t.byPath - out) + back)
  }

  lemma RefiledNothing<V>(t: Table<V>)
    ensures Refiled(t, {}, map[]) == t
  {
    forall i | i in t.entries ensures RefiledPaths(t.entries[i].paths, i, {}, map[]) == t.entries[i].paths {
    }
    assert Refiled(t, {}, map[]).entries == t.entries && Refiled(t, {}, map[]).byPath == t.byPath;
  }

  ghost function Unfiled<V>(t: Table<V>, i: nat, path: string): Table<V>
    requires i in t.entries
  {
    t.(entries := t.entries[i := t.entries[i].(paths := t.entries[i].paths - {path})], byPath := t.byPath - {path})
  }

  lemma UnfileOneMore<V>(t: Table<V>, out: set<string>, path: string)
    requires PathsAgree(t) && path in t.byPath
    ensures t.byPath[path] in Refiled(t, out, map[]).entries
    ensures Unfiled(Refiled(t, out, map[]), t.byPath[path], path) == Refiled(t, out + {path}, map[])
  {
    hide RefiledPaths;
    var i := t.byPath[path];
    var v, w := Unfiled(Refiled(t, out, map[]), i, path), Refiled(t, out + {path}, map[]);
    forall j | j in t.entries ensures v.entries[j] == w.entries[j] {
      UnfiledPaths(t.entries[j].paths, j, out, path);
      assert path in t.entries[j].paths <==> j == i;
    }
    assert v.entries == w.entries;
    assert v.byPath == w.byPath;
  }

  lemma UnfiledPaths(paths: set<string>, j: nat, out: set<string>, path: string)
    ensures path in paths ==> RefiledPaths(paths, j, out, map[]) - {path} == RefiledPaths(paths, j, out + {path}, map[])
    ensures path !in paths ==> RefiledPaths(paths, j, out, map[]) == RefiledPaths(paths, j, out + {path}, map[])
  {
  }

  lemma RefileEntries<V>(t: Table<V>, out: set<string>, back: map<string, nat>, i: nat, path: string)
    requires i in t.entries && path !in back
    ensures var r := Refiled(t, out, back);
            i in r.entries &&
            r.entries[i := r.entries[i].(paths := r.entries[i].paths + {path})] ==
            Refiled(t, out, back[path := i]).entries
  {
    hide RefiledPaths;
    var r, w := Refiled(t, out, back), Refiled(t, out, back[path := i]);
    forall j | j in t.entries
      ensures w.entries[j] == if j == i then r.entries[i].(paths := r.entries[i].paths + {path}) else r.entries[j]
    {
      RefiledOnePath(t.entries[j].paths, j, out, back, i, path);
    }
  }

  lemma RefileOneMore<V>(t: Table<V>, out: set<string>, back: map<string, nat>, i: nat, path: string)
    requires i in t.entries && path !in back
    requires t.entries[i].key.Some? ==> t.entries[i].key.value in t.byKey && t.byKey[t.entries[i].key.value] == i
    ensures i in Refiled(t, out, back).entries
    ensures Attach(Refiled(t, out, back), i, path) == Refiled(t, out, back[path := i])
  {
    hide RefiledPaths;
    var r := Refiled(t, out, back);
    assert r.entries[i].key == t.entries[i].key && r.byKey == t.byKey;
    assert t.entries[i].key.Some? ==> t.byKey[t.entries[i].key.value := i] == t.byKey;
    assert (t.byPath - out) + back[path := i] == ((t.byPath - out) + back)[path := i];
    RefileEntries(t, out, back, i, path);
  }

  lemma RefiledOnePath(paths: set<string>, j: nat, out: set<string>, back: map<string, nat>, i: nat, path: string)
    requires path !in back
    ensures RefiledPaths(paths, j, out, back[path := i]) ==
            RefiledPaths(paths, j, out, back) + (if j == i then {path} else {})
  {
  }

  lemma PrefixesCompare<T>(a: seq<T>, b: seq<T>, s: seq<T>)
    requires a <= s && b <= s
    ensures a <= b || b <= a
  {
  }

  // A normalized path cannot be inside both of two unrelated directories.
  lemma InsideOne(path: string, from: string, to: string)
    requires Normal(path) && Renames(from, to) && Unrelated(from, to)
    ensures !(IsPathInside(path, from) && IsPathInside(path, to))
  {
    IsPathInsideIsSegmentPrefix(path, from);
    IsPathInsideIsSegmentPrefix(path, to);
    IsPathInsideIsSegmentPrefix(from, to);
    IsPathInsideIsSegmentPrefix(to, from);
    if IsPathInside(path, from) && IsPathInside(path, to) {
      PrefixesCompare(Segments(from), Segments(to), Segments(path));
    }
  }

  lemma TargetBack(q: string, from: string, to: string)
    requires IsPathInside(q, to)
    ensures |to| <= |q| && |from| <= |Target(q, to, from)| && Target(Target(q, to, from), from, to) == q
  {
    assert q[..|to|] == to;
    DropPrefix(from, q[|to|..]);
  }

  // The moved paths, filed under their new names.
  ghost predicate FiledBack(mid: map<string, nat>, done: set<string>, back: map<string, nat>, from: string, to: string)
  {
    && (forall q :: q in back <==> IsPathInside(q, to) && |to| <= |q| && Target(q, to, from) in done)
    && (forall q :: q in back && Target(q, to, from) in mid ==> back[q] == mid[Target(q, to, from)])
  }

  // The table between the passes: everything under the destination is gone.
  ghost predicate Cleared<V>(t: Table<V>, mid: Table<V>, from: string, to: string)
  {
    && Coherent(mid)
    && (forall p :: p in mid.byPath <==> p in t.byPath && (from == to || !IsPathInside(p, to)))
    && (forall p :: p in mid.byPath ==> mid.byPath[p] == t.byPath[p])
    && mid.entries.Keys == t.entries.Keys && mid.nextId == t.nextId
    && (forall i :: i in t.entries ==>
       mid.entries[i].key == t.entries[i].key && mid.entries[i].info == t.entries[i].info)
  }

  lemma RefiledByPath<V>(mid: Table<V>, out: set<string>, back: map<string, nat>, p: string)
    requires PathsAgree(mid)
    requires forall q :: q in back ==> back[q] in mid.entries && (q in mid.byPath ==> q in out)
    ensures var u := Refiled(mid, out, back);
            p in u.byPath ==> u.byPath[p] in u.entries && p in u.entries[u.byPath[p]].paths
  {
    if p in Refiled(mid, out, back).byPath && p !in back { assert p in mid.byPath; }
  }

  lemma RefiledBack<V>(mid: Table<V>, out: set<string>, back: map<string, nat>, i: nat, p: string)
    requires PathsAgree(mid)
    requires forall q :: q in back ==> back[q] in mid.entries && (q in mid.byPath ==> q in out)
    ensures var u := Refiled(mid, out, back);
            i in u.entries && p in u.entries[i].paths ==> p in u.byPath && u.byPath[p] == i
  {
    if p in back && p !in out { assert p !in mid.byPath; }
  }

  lemma RefiledPathsAgree<V>(mid: Table<V>, out: set<string>, back: map<string, nat>)
    requires PathsAgree(mid)
    requires forall q :: q in back ==> back[q] in mid.entries && (q in mid.byPath ==> q in out)
    ensures PathsAgree(Refiled(mid, out, back))
  {
    hide Refiled;
    var u := Refiled(mid, out, back);
    forall p | p in u.byPath ensures u.byPath[p] in u.entries && p in u.entries[u.byPath[p]].paths {
      RefiledByPath(mid, out, back, p);
    }
    forall i, p | i in u.entries && p in u.entries[i].paths ensures p in u.byPath && u.byPath[p] == i {
      RefiledBack(mid, out, back, i, p);
    }
  }

  lemma RefiledKeysAgree<V>(mid: Table<V>, out: set<string>, back: map<string, nat>)
    requires Coherent(mid)
    requires forall i :: i in mid.entries ==>
      (mid.entries[i].paths == {} <==> RefiledPaths(mid.entries[i].paths, i, out, back) == {})
    ensures KeysAgree(Refiled(mid, out, back))
  {
    hide RefiledPaths;
  }

  lemma RefiledCoherent<V>(mid: Table<V>, out: set<string>, back: map<string, nat>, from: string, to: string)
    requires Coherent(mid) && Renames(from, to)
    requires forall p :: p in mid.byPath ==> Normal(p)
    requires out == set p | p in mid.byPath && IsPathInside(p, from)
    requires forall p :: p in mid.byPath && p !in out ==> !IsPathInside(p, to)
    requires FiledBack(mid.byPath, out, back, from, to)
    ensures Coherent(Refiled(mid, out, back))
  {
    forall q | q in back
      ensures back[q] in mid.entries && mid.entries[back[q]].paths != {} && (q in mid.byPath ==> q in out)
    {
      assert Target(q, to, from) in mid.entries[back[q]].paths;
    }
    RefiledPathsAgree(mid, out, back);
    forall i | i in mid.entries
      ensures mid.entries[i].paths == {} <==> RefiledPaths(mid.entries[i].paths, i, out, back) == {}
    {
      if p :| p in mid.entries[i].paths {
        if p in out {
          TargetSegments(p, from, to);
          assert Target(p, from, to) in back && back[Target(p, from, to)] == i;
        }
        assert (if p in out then Target(p, from, to) else p) in RefiledPaths(mid.entries[i].paths, i, out, back);
      }
    }
    RefiledKeysAgree(mid, out, back);
  }

  lemma RefiledSurvives<V>(t: Table<V>, mid: Table<V>, out: set<string>, back: map<string, nat>,
                    from: string, to: string, q: string)
    requires NormalPaths(t) && Renames(from, to) && Cleared(t, mid, from, to)
    requires out == set p | p in mid.byPath && IsPathInside(p, from)
    requires FiledBack(mid.byPath, out, back, from, to) && q in Refiled(mid, out, back).byPath
    ensures Survives(t.byPath, from, to, q) && Normal(q)
  {
    hide Normal, IsPathInside;
    if q in back {
      TargetBack(q, from, to);
      TargetSegments(Target(q, to, from), from, to);
    } else if from != to {
      assert q in mid.byPath;
    } else if IsPathInside(q, to) {
      TargetBack(q, from, to);
    }
  }

  lemma SurvivorFiled<V>(t: Table<V>, mid: Table<V>, out: set<string>, back: map<string, nat>,
                    from: string, to: string, q: string)
    requires NormalPaths(t) && Renames(from, to) && Cleared(t, mid, from, to)
    requires out == set p | p in mid.byPath && IsPathInside(p, from)
    requires FiledBack(mid.byPath, out, back, from, to) && Survives(t.byPath, from, to, q)
    ensures var u, origin := Refiled(mid, out, back), Origin(q, from, to);
            origin in t.byPath && q in u.byPath && u.byPath[q] == t.byPath[origin]
  {
    hide Normal, IsPathInside;
    if from == to && IsPathInside(q, to) {
      TargetBack(q, from, to);
    }
  }

  // Once everything inside `to` is gone, no moved path takes the name of another.
  lemma TargetIsClear<V>(t: Table<V>, mid: Table<V>, from: string, to: string, p: string)
    requires Renames(from, to) && from != to && Cleared(t, mid, from, to) && NormalPaths(t)
    requires p in mid.byPath && IsPathInside(p, from)
    ensures |from| <= |p| && Target(p, from, to) !in mid.byPath
  {
    TargetSegments(p, from, to);
  }

  lemma RefiledIsRemapped<V>(t: Table<V>, mid: Table<V>, out: set<string>, back: map<string, nat>,
                    from: string, to: string)
    requires Coherent(t) && NormalPaths(t) && Renames(from, to) && Cleared(t, mid, from, to)
    requires out == set p | p in mid.byPath && IsPathInside(p, from)
    requires FiledBack(mid.byPath, out, back, from, to)
    ensures Remapped(t, Refiled(mid, out, back), from, to) && NormalPaths(Refiled(mid, out, back))
  {
    hide Coherent, Survives, Origin, Normal, IsPathInside, FiledBack, Refiled, Renames;
    var u := Refiled(mid, out, back);
    ClearedStays(t, mid, out, from, to);
    RefiledCoherent(mid, out, back, from, to);
    RefiledKeepsKeys(mid, out, back);
    forall q | q in u.byPath ensures Survives(t.byPath, from, to, q) && Normal(q) {
      RefiledSurvives(t, mid, out, back, from, to, q);
    }
    forall q | Survives(t.byPath, from, to, q)
      ensures Origin(q, from, to) in t.byPath && q in u.byPath && u.byPath[q] == t.byPath[Origin(q, from, to)]
    {
      SurvivorFiled(t, mid, out, back, from, to, q);
    }
  }

  lemma ClearedStays<V>(t: Table<V>, mid: Table<V>, out: set<string>, from: string, to: string)
    requires NormalPaths(t) && Cleared(t, mid, from, to)
    requires out == set p | p in mid.byPath && IsPathInside(p, from)
    ensures forall p :: p in mid.byPath ==> Normal(p)
    ensures forall p :: p in mid.byPath && p !in out ==> !IsPathInside(p, to)
  {
    hide Normal, IsPathInside;
  }

  lemma RefiledKeepsKeys<V>(mid: Table<V>, out: set<string>, back: map<string, nat>)
    ensures var u := Refiled(mid, out, back);
            && u.entries.Keys == mid.entries.Keys && u.nextId == mid.nextId
            && forall i :: i in mid.entries ==>
               u.entries[i].key == mid.entries[i].key && u.entries[i].info == mid.entries[i].info
  {
    hide RefiledPaths;
  }

  class PathTable<V(0)> {
    var entries: map<nat, Entry<V>>
    var byPath: map<string, nat>
    var byKey: map<string, nat>
    var nextId: nat

    ghost function State(): Table<V>
      reads this
    {
      Table(entries, byPath, byKey, nextId)
    }

    ghost predicate Valid()
      reads this
    {
      Coherent(State())
    }

    constructor (firstId: nat)
      ensures State() == Table(map[], map[], map[], firstId) && Valid()
    {
      entries, byPath, byKey, nextId := map[], map[], map[], firstId;
    }

    method AttachPath(i: nat, path: string)
      requires i in entries
      modifies this
      ensures State() == Attach(old(State()), i, path)
    {
      entries := entries[i := entries[i].(paths := entries[i].paths + {path})];
      byPath := byPath[path := i];
      if entries[i].key.Some? {
        byKey := byKey[entries[i].key.value := i];
      }
    }

    method DetachPath(i: nat, path: string)
      requires i in entries
      modifies this
      ensures State() == Detach(old(State()), i, path)
    {
      entries := entries[i := entries[i].(paths := entries[i].paths - {path})];
      byPath := byPath - {path};
      if entries[i].paths == {} {
        ReleaseKey(i);
      }
    }

    method ReleaseKey(i: nat)
      requires i in entries
      modifies this`byKey
      ensures byKey == ReleasedKey(old(byKey), entries[i].key, i)
    {
      var key := entries[i].key;
      if key.Some? && key.value in byKey && byKey[key.value] == i {
        byKey := byKey - {key.value};
      }
    }

    method BindPath(path: string, key: Option<string>, info: V) returns (i: nat)
      requires Valid()
      modifies this
      ensures (State(), i) == Bind(old(State()), path, key, info)
      ensures Valid() && path in byPath && byPath[path] == i && entries[i].key == key
    {
      BindSpec(State(), path, key, info);
      var hasPrevious := path in byPath;
      var previous := if hasPrevious then byPath[path] else 0;
      var found := None;
      if key.Some? && key.value in byKey {
        found := Some(byKey[key.value]);
      } else if hasPrevious && (entries[previous].key.None? || entries[previous].key == key) {
        found := Some(previous);
      }
      if found.Some? {
        i := found.value;
      } else {
        i := nextId;
        nextId := nextId + 1;
        entries := entries[i := Entry(key, {}, info)];
      }
      if hasPrevious && previous != i {
        DetachPath(previous, path);
      }
      if key.Some? && entries[i].key.None? {
        entries := entries[i := entries[i].(key := key)];
      }
      AttachPath(i, path);
    }

    method ReleasePath(path: string)
      requires Valid()
      modifies this
      ensures State() == Release(old(State()), path) && Valid()
    {
      if path in byPath {
        DetachCoherent(State(), path);
        DetachPath(byPath[path], path);
      }
    }

    // Everything tracked at or under the destination has just been replaced.
    method DetachInside(to: string)
      requires Valid()
      modifies this
      ensures State() == DetachedAll(old(State()), set p | p in old(byPath) && IsPathInside(p, to)) && Valid()
    {
      ghost var was := State();
      var todo := byPath.Keys;
      ghost var gone: set<string> := {};
      assert DetachedAll(was, gone) == was by {
        assert forall i :: i in was.entries ==> was.entries[i].paths - gone == was.entries[i].paths;
        assert DetachedAll(was, gone).entries == was.entries;
        assert DetachedAll(was, gone).byKey == was.byKey;
        assert DetachedAll(was, gone).byPath == was.byPath;
      }
      while todo != {}
        invariant todo <= was.byPath.Keys && gone <= was.byPath.Keys && gone !! todo
        invariant gone == set p | p in was.byPath && p !in todo && IsPathInside(p, to)
        invariant State() == DetachedAll(was, gone)
        decreases todo
      {
        var path :| path in todo;
        todo := todo - {path};
        if IsPathInside(path, to) {
          DetachOneMore(was, gone, path);
          DetachPath(byPath[path], path);
          gone := gone + {path};
        }
      }
      DetachedAllCoherent(was, gone);
      assert gone == set p | p in was.byPath && IsPathInside(p, to);
    }

    method UnfilePath(i: nat, path: string)
      requires i in entries
      modifies this
      ensures State() == Unfiled(old(State()), i, path)
    {
      byPath := byPath - {path};
      entries := entries[i := entries[i].(paths := entries[i].paths - {path})];
    }

    // First pass: moving paths are unfiled, and not detached, since no entry
    // may lose a key it is about to be filed under again.
    method Unfile(moving: set<string>, values: map<string, nat>)
      requires Valid()
      requires forall p :: p in moving ==> p in byPath && p in values && byPath[p] == values[p]
      modifies this
      ensures State() == Refiled(old(State()), moving, map[])
    {
      hide Refiled, Unfiled;
      ghost var mid := State();
      var todo := moving;
      RefiledNothing(mid);
      assert moving - todo == {};
      while todo != {}
        invariant todo <= moving
        invariant State() == Refiled(mid, moving - todo, map[])
        decreases todo
      {
        var path :| path in todo;
        UnfileOneMore(mid, moving - todo, path);
        UnfilePath(values[path], path);
        assert (moving - todo) + {path} == moving - (todo - {path});
        todo := todo - {path};
      }
      assert moving - todo == moving;
    }

    // Second pass: the moved paths are attached under their new names.
    method AttachMoved(moving: set<string>, values: map<string, nat>, from: string, to: string, ghost mid: Table<V>)
      returns (ghost back: map<string, nat>)
      requires Coherent(mid) && NormalPaths(mid) && Renames(from, to)
      requires forall p :: p in moving ==>
        p in mid.byPath && p in values && mid.byPath[p] == values[p] && IsPathInside(p, from)
      requires State() == Refiled(mid, moving, map[])
      modifies this
      ensures FiledBack(mid.byPath, moving, back, from, to)
      ensures State() == Refiled(mid, moving, back)
    {
      hide Refiled, Attach, FiledBack, IsPathInside, Segments, Rooted, Normal, Normalize;
      var todo := moving;
      back := map[];
      FiledNothing(mid.byPath, from, to);
      assert moving - todo == {};
      while todo != {}
        invariant todo <= moving
        invariant FiledBack(mid.byPath, moving - todo, back, from, to)
        invariant State() == Refiled(mid, moving, back)
        decreases todo
      {
        var path :| path in todo;
        FileOneMore(mid.byPath, moving - todo, back, from, to, path);
        OwnsKey(mid, path);
        var target := Target(path, from, to);
        RefileOneMore(mid, moving, back, values[path], target);
        AttachPath(values[path], target);
        back := back[target := values[path]];
        assert (moving - todo) + {path} == moving - (todo - {path});
        todo := todo - {path};
      }
      assert moving - todo == moving;
    }

    // `from` was renamed to `to`: the shared subtree walk. Two passes, though a new name
    // is one still to be moved only where both ends are one.
    method RemapSubtree(from: string, to: string)
      requires Valid() && NormalPaths(State()) && Renames(from, to)
      modifies this
      ensures Remapped(old(State()), State(), from, to) && NormalPaths(State()) && Valid()
    {
      ghost var was := State();
      if from != to {
        DetachInside(to);
      }
      ghost var mid := State();
      assert Cleared(was, mid, from, to);
      var moving := set p | p in byPath && IsPathInside(p, from);
      var values := byPath;
      Unfile(moving, values);
      ghost var back := AttachMoved(moving, values, from, to, mid);
      RefiledIsRemapped(was, mid, moving, back, from, to);
    }
  }

  lemma OwnsKey<V>(t: Table<V>, path: string)
    requires Coherent(t) && path in t.byPath
    ensures var i := t.byPath[path];
            i in t.entries &&
            (t.entries[i].key.Some? ==> t.entries[i].key.value in t.byKey && t.byKey[t.entries[i].key.value] == i)
  {
    assert path in t.entries[t.byPath[path]].paths;
  }

  lemma FiledNothing(mid: map<string, nat>, from: string, to: string)
    ensures FiledBack(mid, {}, map[], from, to)
  {
  }

  lemma FileOneMore(mid: map<string, nat>, done: set<string>, back: map<string, nat>, from: string, to: string,
                    path: string)
    requires FiledBack(mid, done, back, from, to) && path in mid && path !in done
    requires Normal(path) && Renames(from, to) && IsPathInside(path, from)
    ensures |from| <= |path|
    ensures Target(path, from, to) !in back
    ensures FiledBack(mid, done + {path}, back[Target(path, from, to) := mid[path]], from, to)
  {
    hide Segments, Rooted, Normalize, Normal;
    TargetSegments(path, from, to);
    var target := Target(path, from, to);
    var next := back[target := mid[path]];
    forall q ensures q in next <==> IsPathInside(q, to) && |to| <= |q| && Target(q, to, from) in done + {path} {
      if IsPathInside(q, to) { TargetBack(q, from, to); }
    }
  }
}
