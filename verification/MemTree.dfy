// The memory filesystem's graph of nodes: what names it gives to what, why
// every operation keeps it a tree, and the closed form of each change.
module MemTree {
  import opened Wrappers
  import opened Bytes

  const ROOT: nat := 1

  datatype Kind = Fifo | Socket | CharDevice | BlockDevice

  datatype Body =
    | File(data: seq<Byte>)
    | Dir(children: map<string, nat>, subdirs: int)
    | Symlink(target: string)
    | Special(kind: Kind, rdev: int)

  // A node, referred to by its inode number.
  datatype Node = Node(nlink: int, body: Body)

  type Nodes = map<nat, Node>

  predicate IsDir(nodes: Nodes, i: nat) { i in nodes && nodes[i].body.Dir? }

  function Child(nodes: Nodes, d: nat, name: string): Option<nat>
  {
    if IsDir(nodes, d) && name in nodes[d].body.children then Some(nodes[d].body.children[name]) else None
  }

  function Init<T>(s: seq<T>): seq<T>
    requires s != []
  {
    s[..|s| - 1]
  }

  function Last<T>(s: seq<T>): T
    requires s != []
  {
    s[|s| - 1]
  }

  // The node a path of plain names leads to, from the root, following nothing.
  function Named(nodes: Nodes, segs: seq<string>): Option<nat>
  {
    if segs == [] then Some(ROOT)
    else
      var d := Named(nodes, Init(segs));
      if d.None? then None else Child(nodes, d.value, Last(segs))
  }

  // ---------- the tree ----------

  // `at` gives each live directory its one path. Entries exist only in live
  // directories, lead to nodes, and a directory's path is its parent's with
  // its name behind it.
  ghost predicate Tree(nodes: Nodes, at: map<nat, seq<string>>)
  {
    && ROOT in at && at[ROOT] == []
    && (forall d :: d in at ==> IsDir(nodes, d))
    && (forall d {:trigger Named(nodes, at[d])} :: d in at ==> Named(nodes, at[d]) == Some(d))
    && (forall d :: IsDir(nodes, d) && d !in at ==> nodes[d].body.children == map[])
    && (forall d, name :: Child(nodes, d, name).Some? ==>
          var c := Child(nodes, d, name).value;
          c in nodes && (IsDir(nodes, c) ==> c in at && d in at && at[c] == at[d] + [name]))
  }

  lemma ChildInLiveDir(nodes: Nodes, at: map<nat, seq<string>>, d: nat, name: string)
    requires Tree(nodes, at) && Child(nodes, d, name).Some?
    ensures d in at
  {
  }

  // A path that names a directory is that directory's one path.
  lemma {:induction false} NamedDir(nodes: Nodes, at: map<nat, seq<string>>, segs: seq<string>)
    requires Tree(nodes, at) && Named(nodes, segs).Some?
    ensures Named(nodes, segs).value in nodes
    ensures IsDir(nodes, Named(nodes, segs).value) ==>
              Named(nodes, segs).value in at && at[Named(nodes, segs).value] == segs
  {
    if segs != [] {
      var d := Named(nodes, Init(segs)).value;
      NamedDir(nodes, at, Init(segs));
      assert Child(nodes, d, Last(segs)).Some?;
      assert segs == Init(segs) + [Last(segs)];
    }
  }

  lemma {:induction false} NamedPrefix(nodes: Nodes, segs: seq<string>, n: nat)
    requires Named(nodes, segs).Some? && n < |segs|
    ensures Named(nodes, segs[..n]).Some? && IsDir(nodes, Named(nodes, segs[..n]).value)
  {
    if n < |segs| - 1 {
      NamedPrefix(nodes, Init(segs), n);
      assert Init(segs)[..n] == segs[..n];
    }
  }

  lemma NamedSnoc(nodes: Nodes, segs: seq<string>, name: string)
    ensures Named(nodes, segs + [name]) ==
            if Named(nodes, segs).None? then None else Child(nodes, Named(nodes, segs).value, name)
  {
    assert Init(segs + [name]) == segs && Last(segs + [name]) == name;
  }

  lemma SnocInjective(a: seq<string>, x: string, b: seq<string>, y: string)
    ensures a + [x] == b + [y] <==> a == b && x == y
  {
    assert Init(a + [x]) == a && Last(a + [x]) == x && Init(b + [y]) == b && Last(b + [y]) == y;
  }

  // Where following names downward from a directory leads.
  function Down(nodes: Nodes, d: nat, names: seq<string>): Option<nat>
  {
    if names == [] then Some(d)
    else
      var e := Down(nodes, d, Init(names));
      if e.None? then None else Child(nodes, e.value, Last(names))
  }

  // One directory is another or lies in its subtree.
  ghost predicate Below(nodes: Nodes, d: nat, e: nat) { exists names :: Down(nodes, d, names) == Some(e) }

  lemma {:induction false} NamedDown(nodes: Nodes, segs: seq<string>, names: seq<string>)
    requires Named(nodes, segs).Some?
    ensures Named(nodes, segs + names) == Down(nodes, Named(nodes, segs).value, names)
  {
    if names == [] {
      assert segs + names == segs;
    } else {
      NamedDown(nodes, segs, Init(names));
      assert Init(segs + names) == segs + Init(names) && Last(segs + names) == Last(names);
    }
  }

  // The graph of directories is a tree: the root has no entry, every other
  // live directory exactly one, and none reaches itself.
  lemma OneEntryEach(nodes: Nodes, at: map<nat, seq<string>>, d: nat, n: string, e: nat, m: string)
    requires Tree(nodes, at)
    requires Child(nodes, d, n).Some? && IsDir(nodes, Child(nodes, d, n).value)
    requires Child(nodes, e, m) == Child(nodes, d, n)
    ensures d == e && n == m && Child(nodes, d, n) != Some(ROOT)
  {
    var c := Child(nodes, d, n).value;
    assert at[c] == at[d] + [n] == at[e] + [m];
    assert at[d] == Init(at[c]) == at[e];
    assert Last(at[d] + [n]) == n && Last(at[e] + [m]) == m;
    assert Named(nodes, at[d]) == Some(d) && Named(nodes, at[e]) == Some(e);
  }

  lemma NoCycle(nodes: Nodes, at: map<nat, seq<string>>, d: nat, names: seq<string>)
    requires Tree(nodes, at) && d in at && Down(nodes, d, names) == Some(d)
    ensures names == []
  {
    NamedDown(nodes, at[d], names);
    NamedDir(nodes, at, at[d] + names);
    assert |at[d] + names| == |at[d]|;
  }

  // Whether `to` lies in the subtree below `from` is a question about paths.
  lemma InsideIsBelow(nodes: Nodes, at: map<nat, seq<string>>, d: nat, e: nat)
    requires Tree(nodes, at) && d in at && e in at
    ensures at[d] <= at[e] <==> Below(nodes, d, e)
  {
    if at[d] <= at[e] {
      var names := at[e][|at[d]|..];
      NamedDown(nodes, at[d], names);
      assert at[d] + names == at[e];
      assert Down(nodes, d, names) == Some(e);
    }
    if names :| Down(nodes, d, names) == Some(e) {
      NamedDown(nodes, at[d], names);
      NamedDir(nodes, at, at[d] + names);
    }
  }

  // ---------- changes to one directory's entries ----------

  // Same nodes and same kinds, and the same entries but for those named.
  ghost predicate SameDirs(nodes: Nodes, next: Nodes)
  {
    forall i :: i in nodes ==> i in next && (IsDir(nodes, i) <==> IsDir(next, i))
  }

  // `next` has one entry more: `name` in `p`, leading to `i`. If `i` is a
  // directory it is a new and empty one.
  ghost predicate Entered(nodes: Nodes, next: Nodes, p: nat, name: string, i: nat)
  {
    && SameDirs(nodes, next)
    && i in next && IsDir(nodes, p) && Child(nodes, p, name) == None
    && (forall j :: j in next && j !in nodes ==> j == i)
    && (IsDir(next, i) ==> i !in nodes && next[i].body.children == map[])
    && (forall d, n :: Child(next, d, n) == if d == p && n == name then Some(i) else Child(nodes, d, n))
  }

  lemma NamedRoot(nodes: Nodes)
    ensures Named(nodes, []) == Some(ROOT)
  {
  }

  lemma AtNamed(nodes: Nodes, at: map<nat, seq<string>>, d: nat)
    requires Tree(nodes, at) && d in at
    ensures IsDir(nodes, d) && Named(nodes, at[d]) == Some(d)
  {
  }

  // What a new entry leads to has no entries, before or after.
  lemma EnteredIsEmpty(nodes: Nodes, next: Nodes, p: nat, name: string, i: nat, n: string)
    requires Entered(nodes, next, p, name, i)
    ensures i != p && Child(next, i, n) == None
  {
    assert IsDir(next, i) || Child(next, i, n) == None;
  }

  // Creating a name: it now leads to the node, and every other path leads
  // where it did.
  lemma {:induction false} NamedEntered(nodes: Nodes, at: map<nat, seq<string>>, next: Nodes, p: nat,
                    name: string, i: nat, segs: seq<string>)
    requires Tree(nodes, at) && Entered(nodes, next, p, name, i) && p in at
    ensures Named(next, segs) == if segs == at[p] + [name] then Some(i) else Named(nodes, segs)
  {
    hide Tree, Named, Child;
    NamedRoot(nodes);
    NamedRoot(next);
    if segs != [] {
      var init, last := Init(segs), Last(segs);
      assert segs == init + [last];
      NamedEntered(nodes, at, next, p, name, i, init);
      NamedSnoc(nodes, init, last);
      NamedSnoc(next, init, last);
      NamedSnoc(nodes, at[p], name);
      AtNamed(nodes, at, p);
      SnocInjective(init, last, at[p], name);
      EnteredIsEmpty(nodes, next, p, name, i, last);
      if Named(nodes, init).Some? {
        NamedDir(nodes, at, init);
      }
    }
  }

  lemma EnteredTree(nodes: Nodes, at: map<nat, seq<string>>, next: Nodes, p: nat, name: string, i: nat)
    requires Tree(nodes, at) && Entered(nodes, next, p, name, i) && p in at
    ensures Tree(next, if IsDir(next, i) then at[i := at[p] + [name]] else at)
  {
    var at' := if IsDir(next, i) then at[i := at[p] + [name]] else at;
    assert i !in at || !IsDir(next, i);
    NamedSnoc(nodes, at[p], name);
    forall d | d in at' ensures IsDir(next, d) && Named(next, at'[d]) == Some(d) {
      NamedEntered(nodes, at, next, p, name, i, at'[d]);
    }
    forall d | IsDir(next, d) && d !in at' ensures next[d].body.children == map[] {
      assert d in nodes && IsDir(nodes, d) && nodes[d].body.children == map[];
      forall n ensures n !in next[d].body.children {
        assert Child(next, d, n) == Child(nodes, d, n);
      }
    }
    forall d, n | Child(next, d, n).Some?
      ensures var c := Child(next, d, n).value;
              c in next && (IsDir(next, c) ==> c in at' && d in at' && at'[c] == at'[d] + [n])
    {
      if !(d == p && n == name) {
        assert Child(nodes, d, n).Some? && Child(nodes, d, n).value in nodes;
      }
    }
  }

  // `next` has one entry fewer: `name` of `p`, which led to a node holding no
  // entries itself.
  ghost predicate Removed(nodes: Nodes, next: Nodes, p: nat, name: string, i: nat)
  {
    && SameDirs(nodes, next) && next.Keys == nodes.Keys
    && Child(nodes, p, name) == Some(i)
    && (IsDir(nodes, i) ==> nodes[i].body.children == map[])
    && (forall d, n :: Child(next, d, n) == if d == p && n == name then None else Child(nodes, d, n))
  }

  lemma {:induction false} NamedRemoved(nodes: Nodes, at: map<nat, seq<string>>, next: Nodes, p: nat,
                    name: string, i: nat, segs: seq<string>)
    requires Tree(nodes, at) && Removed(nodes, next, p, name, i) && p in at
    ensures Named(next, segs) == if segs == at[p] + [name] then None else Named(nodes, segs)
  {
    hide Tree, Named, Child;
    NamedRoot(nodes);
    NamedRoot(next);
    if segs != [] {
      var init, last := Init(segs), Last(segs);
      assert segs == init + [last];
      NamedRemoved(nodes, at, next, p, name, i, init);
      NamedSnoc(nodes, init, last);
      NamedSnoc(next, init, last);
      NamedSnoc(nodes, at[p], name);
      AtNamed(nodes, at, p);
      SnocInjective(init, last, at[p], name);
      RemovedIsEmpty(nodes, next, p, name, i, last);
      if Named(nodes, init).Some? {
        NamedDir(nodes, at, init);
      }
    }
  }

  lemma RemovedIsEmpty(nodes: Nodes, next: Nodes, p: nat, name: string, i: nat, n: string)
    requires Removed(nodes, next, p, name, i)
    ensures Child(nodes, i, n) == None
  {
  }

  lemma RemovedTree(nodes: Nodes, at: map<nat, seq<string>>, next: Nodes, p: nat, name: string, i: nat)
    requires Tree(nodes, at) && Removed(nodes, next, p, name, i) && p in at
    ensures Tree(next, at - {i})
  {
    hide Named;
    var at' := at - {i};
    assert IsDir(nodes, i) ==> at[i] == at[p] + [name];
    assert |at[p] + [name]| > 0;
    forall d | d in at' ensures IsDir(next, d) && Named(next, at'[d]) == Some(d) {
      NamedRemoved(nodes, at, next, p, name, i, at[d]);
      NamedSnoc(nodes, at[p], name);
    }
    forall d | IsDir(next, d) && d !in at' ensures next[d].body.children == map[] {
      assert nodes[d].body.children == map[];
      forall n ensures n !in next[d].body.children {
        assert Child(next, d, n) == if d == p && n == name then None else Child(nodes, d, n);
      }
    }
    forall d, n | Child(next, d, n).Some?
      ensures var c := Child(next, d, n).value;
              c in next && (IsDir(next, c) ==> c in at' && d in at' && at'[c] == at'[d] + [n])
    {
      RemovedEntry(nodes, at, next, p, name, i, d, n);
    }
  }

  lemma RemovedEntry(nodes: Nodes, at: map<nat, seq<string>>, next: Nodes, p: nat, name: string, i: nat,
                    d: nat, n: string)
    requires Tree(nodes, at) && Removed(nodes, next, p, name, i) && p in at && Child(next, d, n).Some?
    ensures var c := Child(next, d, n).value;
            c in next && d != i && (IsDir(next, c) ==> c in at && d in at && at[c] == at[d] + [n] && c != i)
  {
    hide Named;
    assert Child(nodes, d, n) == Child(next, d, n);
    RemovedIsEmpty(nodes, next, p, name, i, n);
    if IsDir(nodes, Child(nodes, d, n).value) && Child(nodes, d, n) == Child(nodes, p, name) {
      OneEntryEach(nodes, at, d, n, p, name);
    }
  }

  // ---------- moving an entry, with everything below it ----------

  // `next` names `i` by `toName` in `tp` instead of by `fromName` in `fp`.
  ghost predicate Moved(nodes: Nodes, next: Nodes, fp: nat, fromName: string, tp: nat, toName: string, i: nat)
  {
    && SameDirs(nodes, next) && next.Keys == nodes.Keys
    && Child(nodes, fp, fromName) == Some(i) && IsDir(nodes, tp) && Child(nodes, tp, toName) == None
    && (forall d, n :: Child(next, d, n) ==
          if d == tp && n == toName then Some(i)
          else if d == fp && n == fromName then None
          else Child(nodes, d, n))
  }

  // A path with its first segments replaced.
  function Rebased(segs: seq<string>, from: seq<string>, to: seq<string>): seq<string>
    requires from <= segs
  {
    to + segs[|from|..]
  }

  // What the moved filesystem calls `segs`, in the old one's terms.
  function NamedAfterMove(nodes: Nodes, from: seq<string>, to: seq<string>, segs: seq<string>): Option<nat>
  {
    if to <= segs then Named(nodes, Rebased(segs, to, from))
    else if from <= segs then None
    else Named(nodes, segs)
  }

  lemma NamedPrefixes(nodes: Nodes, segs: seq<string>, short: seq<string>)
    requires Named(nodes, segs).Some? && short <= segs
    ensures Named(nodes, short).Some?
  {
    if short != segs {
      NamedPrefix(nodes, segs, |short|);
      assert segs[..|short|] == short;
    }
  }

  // The two ends of a move that passed the subtree test are unrelated paths.
  lemma MoveEnds(nodes: Nodes, at: map<nat, seq<string>>, next: Nodes, fp: nat, fromName: string, tp: nat,
                    toName: string, i: nat)
    requires Tree(nodes, at) && Moved(nodes, next, fp, fromName, tp, toName, i) && fp in at && tp in at
    ensures var from, to := at[fp] + [fromName], at[tp] + [toName];
            Named(nodes, from) == Some(i) && Named(nodes, to) == None && !(to <= from)
  {
    hide Tree, Named, Child;
    var from, to := at[fp] + [fromName], at[tp] + [toName];
    AtNamed(nodes, at, fp);
    AtNamed(nodes, at, tp);
    NamedSnoc(nodes, at[fp], fromName);
    NamedSnoc(nodes, at[tp], toName);
    if to <= from {
      NamedPrefixes(nodes, from, to);
    }
  }

  lemma PrefixOfSnoc(p: seq<string>, init: seq<string>, last: string)
    ensures p <= init + [last] <==> p <= init || p == init + [last]
  {
  }

  lemma {:induction false} NamedMoved(nodes: Nodes, at: map<nat, seq<string>>, next: Nodes, fp: nat, fromName: string,
                                      tp: nat, toName: string, i: nat, segs: seq<string>)
    requires Tree(nodes, at) && Moved(nodes, next, fp, fromName, tp, toName, i) && fp in at && tp in at
    requires !(at[fp] + [fromName] <= at[tp])
    ensures Named(next, segs) == NamedAfterMove(nodes, at[fp] + [fromName], at[tp] + [toName], segs)
  {
    hide Tree, Named, Moved, Child;
    NamedRoot(nodes);
    NamedRoot(next);
    if segs != [] {
      var init, last := Init(segs), Last(segs);
      assert segs == init + [last];
      NamedMoved(nodes, at, next, fp, fromName, tp, toName, i, init);
      if at[tp] + [toName] <= init {
        MovedBelow(nodes, at, next, fp, fromName, tp, toName, i, init, last);
      } else {
        MovedBeside(nodes, at, next, fp, fromName, tp, toName, i, init, last);
      }
    }
  }

  // Outside the new name, one lookup more.
  lemma MovedBeside(nodes: Nodes, at: map<nat, seq<string>>, next: Nodes, fp: nat, fromName: string,
                    tp: nat, toName: string, i: nat, init: seq<string>, last: string)
    requires Tree(nodes, at) && Moved(nodes, next, fp, fromName, tp, toName, i) && fp in at && tp in at
    requires !(at[fp] + [fromName] <= at[tp])
    requires !(at[tp] + [toName] <= init)
    requires Named(next, init) == NamedAfterMove(nodes, at[fp] + [fromName], at[tp] + [toName], init)
    ensures Named(next, init + [last]) == NamedAfterMove(nodes, at[fp] + [fromName], at[tp] + [toName], init + [last])
  {
    hide Tree, Named, Child;
    var from, to := at[fp] + [fromName], at[tp] + [toName];
    MoveEnds(nodes, at, next, fp, fromName, tp, toName, i);
    AtNamed(nodes, at, fp);
    AtNamed(nodes, at, tp);
    NamedSnoc(nodes, init, last);
    NamedSnoc(next, init, last);
    SnocInjective(init, last, at[tp], toName);
    SnocInjective(init, last, at[fp], fromName);
    PrefixOfSnoc(to, init, last);
    PrefixOfSnoc(from, init, last);
    assert Rebased(to, to, from) == from;
    if Named(nodes, init).Some? {
      NamedDir(nodes, at, init);
    }
  }

  // Below the new name, lookups are the old ones below the old name.
  lemma MovedBelow(nodes: Nodes, at: map<nat, seq<string>>, next: Nodes, fp: nat, fromName: string,
                   tp: nat, toName: string, i: nat, init: seq<string>, last: string)
    requires Tree(nodes, at) && Moved(nodes, next, fp, fromName, tp, toName, i) && fp in at && tp in at
    requires !(at[fp] + [fromName] <= at[tp])
    requires at[tp] + [toName] <= init
    requires Named(next, init) == NamedAfterMove(nodes, at[fp] + [fromName], at[tp] + [toName], init)
    ensures Named(next, init + [last]) == NamedAfterMove(nodes, at[fp] + [fromName], at[tp] + [toName], init + [last])
  {
    hide Tree, Named;
    var from, to := at[fp] + [fromName], at[tp] + [toName];
    var before := Rebased(init, to, from);
    assert Rebased(init + [last], to, from) == before + [last];
    NamedSnoc(nodes, before, last);
    NamedSnoc(next, init, last);
    if Named(nodes, before).Some? {
      NamedDir(nodes, at, before);
      assert from <= before && |at[fp]| < |from|;
    }
  }

  function MovedAt(at: map<nat, seq<string>>, from: seq<string>, to: seq<string>): map<nat, seq<string>>
  {
    map d | d in at :: if from <= at[d] then Rebased(at[d], from, to) else at[d]
  }

  lemma RebasedBack(segs: seq<string>, from: seq<string>, to: seq<string>)
    requires from <= segs
    ensures to <= Rebased(segs, from, to) && Rebased(Rebased(segs, from, to), to, from) == segs
  {
  }

  // A rename that passed the subtree test keeps the tree a tree.
  lemma MovedTree(nodes: Nodes, at: map<nat, seq<string>>, next: Nodes, fp: nat, fromName: string,
                  tp: nat, toName: string, i: nat)
    requires Tree(nodes, at) && Moved(nodes, next, fp, fromName, tp, toName, i) && fp in at && tp in at
    requires !(at[fp] + [fromName] <= at[tp])
    ensures Tree(next, MovedAt(at, at[fp] + [fromName], at[tp] + [toName]))
  {
    hide Named;
    var from, to := at[fp] + [fromName], at[tp] + [toName];
    var at' := MovedAt(at, from, to);
    forall d | d in at' ensures IsDir(next, d) && Named(next, at'[d]) == Some(d) {
      MovedDir(nodes, at, next, fp, fromName, tp, toName, i, d);
    }
    forall d | IsDir(next, d) && d !in at' ensures next[d].body.children == map[] {
      assert nodes[d].body.children == map[];
      forall n ensures n !in next[d].body.children {
        assert Child(nodes, d, n) == None && Child(next, d, n) == None;
      }
    }
    forall d, n | Child(next, d, n).Some?
      ensures var c := Child(next, d, n).value;
              c in next && (IsDir(next, c) ==> c in at' && d in at' && at'[c] == at'[d] + [n])
    {
      MovedEntry(nodes, at, next, fp, fromName, tp, toName, i, d, n);
    }
  }

  lemma MovedDir(nodes: Nodes, at: map<nat, seq<string>>, next: Nodes, fp: nat, fromName: string,
                 tp: nat, toName: string, i: nat, d: nat)
    requires Tree(nodes, at) && Moved(nodes, next, fp, fromName, tp, toName, i) && fp in at && tp in at
    requires !(at[fp] + [fromName] <= at[tp]) && d in at
    ensures IsDir(next, d)
    ensures Named(next, MovedAt(at, at[fp] + [fromName], at[tp] + [toName])[d]) == Some(d)
  {
    hide Tree, Named;
    var from, to := at[fp] + [fromName], at[tp] + [toName];
    var now := MovedAt(at, from, to)[d];
    AtNamed(nodes, at, d);
    NamedMoved(nodes, at, next, fp, fromName, tp, toName, i, now);
    MoveEnds(nodes, at, next, fp, fromName, tp, toName, i);
    if from <= at[d] {
      RebasedBack(at[d], from, to);
    } else if to <= at[d] {
      NamedPrefixes(nodes, at[d], to);
    }
  }

  lemma MovedEntry(nodes: Nodes, at: map<nat, seq<string>>, next: Nodes, fp: nat, fromName: string,
                   tp: nat, toName: string, i: nat, d: nat, n: string)
    requires Tree(nodes, at) && Moved(nodes, next, fp, fromName, tp, toName, i) && fp in at && tp in at
    requires !(at[fp] + [fromName] <= at[tp])
    requires Child(next, d, n).Some?
    ensures var c := Child(next, d, n).value;
            var at' := MovedAt(at, at[fp] + [fromName], at[tp] + [toName]);
            c in next && (IsDir(next, c) ==> c in at' && d in at' && at'[c] == at'[d] + [n])
  {
    hide Named;
    var from, to := at[fp] + [fromName], at[tp] + [toName];
    var c := Child(next, d, n).value;
    assert Child(nodes, fp, fromName) == Some(i);
    assert Rebased(from, from, to) == to;
    if !(d == tp && n == toName) && IsDir(nodes, c) {
      assert Child(nodes, d, n) == Some(c) && at[c] == at[d] + [n];
      PrefixOfSnoc(from, at[d], n);
      SnocInjective(at[d], n, at[fp], fromName);
      AtNamed(nodes, at, d);
      AtNamed(nodes, at, fp);
      if from <= at[d] {
        assert Rebased(at[c], from, to) == Rebased(at[d], from, to) + [n];
      }
    }
  }
}
