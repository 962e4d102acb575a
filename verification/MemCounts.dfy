// The memory filesystem's running totals and link counts, and the proof that
// each primitive change leaves them equal to a full recount.
module MemCounts {
  import opened Wrappers
  import opened Bytes
  import opened MemTree

  const BLOCK_SIZE: nat := 4096

  // ---------- sizes ----------

  function Utf8Width(c: char): nat
  {
    if (c as int) < 0x80 then 1 else if (c as int) < 0x800 then 2 else if (c as int) < 0x1_0000 then 3 else 4
  }

  function Utf8Length(s: string): nat
  {
    if s == "" then 0 else Utf8Width(s[0]) + Utf8Length(s[1..])
  }

  function SizeOf(node: Node): nat
  {
    match node.body
    case File(data) => |data|
    case Dir(_, _) => BLOCK_SIZE
    case Symlink(target) => Utf8Length(target)
    case Special(_, _) => 0
  }

  function BlocksOf(node: Node): nat { (SizeOf(node) + BLOCK_SIZE - 1) / BLOCK_SIZE }

  // As many blocks of 4096 bytes as hold a file's bytes or a link's target, and no more;
  // one for a directory, none for a special file.
  lemma BlocksHold(node: Node)
    ensures var blocks := BlocksOf(node);
            match node.body
            case File(data) => 4096 * blocks - 4096 < |data| <= 4096 * blocks
            case Dir(_, _) => blocks == 1
            case Symlink(target) => 4096 * blocks - 4096 < Utf8Length(target) <= 4096 * blocks
            case Special(_, _) => blocks == 0
  {
  }

  // A directory's links are itself, its entry, and one `..` per subdirectory.
  function NlinkOf(node: Node): int
  {
    if node.body.Dir? then 2 + node.body.subdirs else node.nlink
  }

  // ---------- the state and its recount ----------

  datatype Fs = Fs(nodes: Nodes, nextIno: nat, nodeCount: int, usedBlocks: int)

  function LiveOne(nodes: Nodes, i: nat): nat { if i in nodes && nodes[i].nlink > 0 then 1 else 0 }

  function BlocksOne(nodes: Nodes, i: nat): nat { if i in nodes && nodes[i].nlink > 0 then BlocksOf(nodes[i]) else 0 }

  function LiveCount(nodes: Nodes, k: nat): nat
  {
    if k == 0 then 0 else LiveCount(nodes, k - 1) + LiveOne(nodes, k - 1)
  }

  function BlockSum(nodes: Nodes, k: nat): nat
  {
    if k == 0 then 0 else BlockSum(nodes, k - 1) + BlocksOne(nodes, k - 1)
  }

  // The entries naming a node, and a directory's subdirectories.
  function EntriesOf(nodes: Nodes, i: nat): set<(nat, string)>
  {
    set d, n | d in nodes && nodes[d].body.Dir? && n in nodes[d].body.children && nodes[d].body.children[n] == i
      :: (d, n)
  }

  function Subdirs(nodes: Nodes, d: nat): set<string>
    requires IsDir(nodes, d)
  {
    set n | n in nodes[d].body.children && IsDir(nodes, nodes[d].body.children[n])
  }

  ghost predicate LinksCounted(nodes: Nodes, at: map<nat, seq<string>>)
  {
    && (forall i :: i in nodes && !IsDir(nodes, i) ==> nodes[i].nlink == |EntriesOf(nodes, i)|)
    && (forall i :: IsDir(nodes, i) ==> nodes[i].nlink == if i in at then 1 else 0)
    && (forall d :: IsDir(nodes, d) ==> nodes[d].body.subdirs == |Subdirs(nodes, d)|)
  }

  ghost predicate TotalsCounted(fs: Fs)
  {
    && (forall i :: i in fs.nodes ==> i < fs.nextIno)
    && fs.nodeCount == LiveCount(fs.nodes, fs.nextIno)
    && fs.usedBlocks == BlockSum(fs.nodes, fs.nextIno)
  }

  // Everything the filesystem keeps true of itself.
  ghost predicate Inv(fs: Fs, at: map<nat, seq<string>>)
  {
    Tree(fs.nodes, at) && LinksCounted(fs.nodes, at) && TotalsCounted(fs)
  }

  // ---------- what the totals mean ----------

  lemma EntryIff(nodes: Nodes, i: nat, d: nat, n: string)
    ensures (d, n) in EntriesOf(nodes, i) <==> Child(nodes, d, n) == Some(i)
  {
  }

  lemma SubdirIff(nodes: Nodes, d: nat, n: string)
    requires IsDir(nodes, d)
    ensures n in Subdirs(nodes, d) <==> Child(nodes, d, n).Some? && IsDir(nodes, Child(nodes, d, n).value)
  {
  }

  lemma LiveIsNamed(nodes: Nodes, at: map<nat, seq<string>>, i: nat) returns (segs: seq<string>)
    requires Tree(nodes, at) && LinksCounted(nodes, at) && i in nodes && nodes[i].nlink > 0
    ensures Named(nodes, segs) == Some(i)
  {
    hide Tree, Named;
    if IsDir(nodes, i) {
      AtNamed(nodes, at, i);
      segs := at[i];
    } else {
      var e :| e in EntriesOf(nodes, i);
      EntryIff(nodes, i, e.0, e.1);
      ChildInLiveDir(nodes, at, e.0, e.1);
      AtNamed(nodes, at, e.0);
      NamedSnoc(nodes, at[e.0], e.1);
      segs := at[e.0] + [e.1];
    }
  }

  lemma NamedIsLive(nodes: Nodes, at: map<nat, seq<string>>, segs: seq<string>, i: nat)
    requires Tree(nodes, at) && LinksCounted(nodes, at) && Named(nodes, segs) == Some(i)
    ensures i in nodes && nodes[i].nlink > 0
  {
    hide Tree, Named;
    NamedDir(nodes, at, segs);
    NamedRoot(nodes);
    RootIsDir(nodes, at);
    if !IsDir(nodes, i) {
      assert segs == Init(segs) + [Last(segs)];
      NamedSnoc(nodes, Init(segs), Last(segs));
      EntryIff(nodes, i, Named(nodes, Init(segs)).value, Last(segs));
      assert |EntriesOf(nodes, i)| > 0;
    }
  }

  lemma RootIsDir(nodes: Nodes, at: map<nat, seq<string>>)
    requires Tree(nodes, at)
    ensures IsDir(nodes, ROOT) && ROOT in at && at[ROOT] == []
  {
  }

  ghost predicate Reachable(nodes: Nodes, i: nat) { exists segs :: Named(nodes, segs) == Some(i) }

  // A node is linked exactly when some path from the root leads to it.
  lemma LiveIffReachable(fs: Fs, at: map<nat, seq<string>>, i: nat)
    requires Inv(fs, at) && i in fs.nodes
    ensures fs.nodes[i].nlink > 0 <==> Reachable(fs.nodes, i)
  {
    hide Tree, Named, LinksCounted;
    if fs.nodes[i].nlink > 0 {
      var segs := LiveIsNamed(fs.nodes, at, i);
    }
    if segs :| Named(fs.nodes, segs) == Some(i) {
      NamedIsLive(fs.nodes, at, segs, i);
    }
  }

  function LiveSet(nodes: Nodes, k: nat): set<nat> { set i | i in nodes && i < k && nodes[i].nlink > 0 }

  lemma LiveSetGrows(nodes: Nodes, k: nat)
    ensures LiveSet(nodes, 0) == {}
    ensures LiveSet(nodes, k + 1) == LiveSet(nodes, k) + (if LiveOne(nodes, k) == 1 then {k} else {})
    ensures k !in LiveSet(nodes, k) && LiveOne(nodes, k) <= 1
  {
    forall i: nat
      ensures i in LiveSet(nodes, k + 1) <==> i in LiveSet(nodes, k) || (i == k && LiveOne(nodes, k) == 1)
    {}
  }

  lemma {:induction false} LiveCountIsSize(nodes: Nodes, k: nat)
    ensures LiveCount(nodes, k) == |LiveSet(nodes, k)|
  {
    hide LiveSet, LiveOne;
    LiveSetGrows(nodes, if k > 0 then k - 1 else 0);
    if k > 0 {
      LiveCountIsSize(nodes, k - 1);
    }
  }

  // `statfs` counts exactly the nodes a walk of the whole tree would find.
  lemma NodeCountIsReachable(fs: Fs, at: map<nat, seq<string>>, found: set<nat>)
    requires Inv(fs, at)
    requires forall i :: i in found <==> i in fs.nodes && Reachable(fs.nodes, i)
    ensures fs.nodeCount == |found|
  {
    hide Tree, LinksCounted, LiveCount, BlockSum, Reachable;
    LiveCountIsSize(fs.nodes, fs.nextIno);
    forall i: nat ensures i in found <==> i in LiveSet(fs.nodes, fs.nextIno) {
      if i in fs.nodes {
        LiveIffReachable(fs, at, i);
        assert i < fs.nextIno;
      }
    }
    assert found == LiveSet(fs.nodes, fs.nextIno);
  }

  // ---------- sums under a change of one node ----------

  lemma {:induction false} SumsChange(nodes: Nodes, next: Nodes, k: nat, i: nat)
    requires forall j :: j != i ==> LiveOne(nodes, j) == LiveOne(next, j) && BlocksOne(nodes, j) == BlocksOne(next, j)
    ensures LiveCount(next, k) == LiveCount(nodes, k) + (if i < k then LiveOne(next, i) - LiveOne(nodes, i) else 0)
    ensures BlockSum(next, k) == BlockSum(nodes, k) + (if i < k then BlocksOne(next, i) - BlocksOne(nodes, i) else 0)
  {
    if k > 0 {
      SumsChange(nodes, next, k - 1, i);
    }
  }

  // ---------- the primitives ----------

  function WithChildren(nodes: Nodes, d: nat, children: map<string, nat>, subdirs: int): Nodes
    requires IsDir(nodes, d)
  {
    nodes[d := nodes[d].(body := Dir(children, subdirs))]
  }

  // A node joins the filesystem; its caller links it on the next line.
  function CreateNode(fs: Fs, body: Body): Fs
  {
    Fs(fs.nodes[fs.nextIno := Node(1, body)], fs.nextIno + 1, fs.nodeCount + 1,
       fs.usedBlocks + BlocksOf(Node(1, body)))
  }

  function LinkEntry(fs: Fs, p: nat, name: string, i: nat): Fs
    requires IsDir(fs.nodes, p)
  {
    var dir := fs.nodes[p].body;
    fs.(nodes := WithChildren(fs.nodes, p, dir.children[name := i],
                              dir.subdirs + (if IsDir(fs.nodes, i) then 1 else 0)))
  }

  function UnlinkEntry(fs: Fs, p: nat, name: string, i: nat): Fs
    requires IsDir(fs.nodes, p) && i in fs.nodes
  {
    var dir := fs.nodes[p].body;
    var nodes := WithChildren(fs.nodes, p, dir.children - {name}, dir.subdirs - (if IsDir(fs.nodes, i) then 1 else 0));
    var node := nodes[i].(nlink := nodes[i].nlink - 1);
    Fs(nodes[i := node], fs.nextIno, fs.nodeCount - (if node.nlink == 0 then 1 else 0),
       fs.usedBlocks - (if node.nlink == 0 then BlocksOf(node) else 0))
  }

  // Not an unlink: the node is moving, so its links and the totals stay.
  function TakeEntry(fs: Fs, p: nat, name: string, i: nat): Fs
    requires IsDir(fs.nodes, p)
  {
    var dir := fs.nodes[p].body;
    fs.(nodes := WithChildren(fs.nodes, p, dir.children - {name},
                              dir.subdirs - (if IsDir(fs.nodes, i) then 1 else 0)))
  }

  function Make(fs: Fs, p: nat, name: string, body: Body): Fs
    requires IsDir(fs.nodes, p) && fs.nextIno != p
  {
    LinkEntry(CreateNode(fs, body), p, name, fs.nextIno)
  }

  function Move(fs: Fs, fp: nat, fromName: string, tp: nat, toName: string, i: nat): Fs
    requires IsDir(fs.nodes, fp) && IsDir(fs.nodes, tp)
  {
    LinkEntry(TakeEntry(fs, fp, fromName, i), tp, toName, i)
  }

  function HardLink(fs: Fs, i: nat, p: nat, name: string): Fs
    requires i in fs.nodes && IsDir(fs.nodes, p) && !IsDir(fs.nodes, i)
  {
    LinkEntry(fs.(nodes := fs.nodes[i := fs.nodes[i].(nlink := fs.nodes[i].nlink + 1)]), p, name, i)
  }

  // A file's bytes change; the totals follow only while it is linked.
  function SetData(fs: Fs, i: nat, data: seq<Byte>): Fs
    requires i in fs.nodes
  {
    var node := fs.nodes[i].(body := File(data));
    fs.(nodes := fs.nodes[i := node],
        usedBlocks := fs.usedBlocks + (if fs.nodes[i].nlink > 0 then BlocksOf(node) - BlocksOf(fs.nodes[i]) else 0))
  }

  // ---------- an entry more ----------

  lemma EnteredEntries(nodes: Nodes, at: map<nat, seq<string>>, next: Nodes, p: nat, name: string, i: nat, j: nat)
    requires Tree(nodes, at) && Entered(nodes, next, p, name, i) && j in next
    ensures |EntriesOf(next, j)| == |EntriesOf(nodes, j)| + (if j == i then 1 else 0)
    ensures j !in nodes ==> EntriesOf(nodes, j) == {}
  {
    hide EntriesOf;
    forall e ensures e in EntriesOf(next, j) <==> e in EntriesOf(nodes, j) || (j == i && e == (p, name)) {
      EntryIff(nodes, j, e.0, e.1);
      EntryIff(next, j, e.0, e.1);
    }
    EntryIff(nodes, i, p, name);
    assert EntriesOf(next, j) == EntriesOf(nodes, j) + (if j == i then {(p, name)} else {});
    forall e ensures e in EntriesOf(nodes, j) ==> j in nodes { EntryIff(nodes, j, e.0, e.1); }
  }

  lemma EnteredSubdirs(nodes: Nodes, at: map<nat, seq<string>>, next: Nodes, p: nat, name: string, i: nat, d: nat)
    requires Tree(nodes, at) && Entered(nodes, next, p, name, i) && IsDir(next, d)
    ensures d in nodes ==> IsDir(nodes, d)
    ensures d in nodes ==> |Subdirs(next, d)| == |Subdirs(nodes, d)| + Bump(d == p && IsDir(next, i))
    ensures d !in nodes ==> Subdirs(next, d) == {}
  {
    if d in nodes {
      forall n ensures n in Subdirs(next, d) <==> n in Subdirs(nodes, d) || (d == p && n == name && IsDir(next, i)) {
        SubdirIff(nodes, d, n);
        SubdirIff(next, d, n);
      }
      if d == p {
        SubdirIff(nodes, p, name);
      }
      assert Subdirs(next, d) == Subdirs(nodes, d) + (if d == p && IsDir(next, i) then {name} else {});
    }
  }

  function Bump(b: bool): nat { if b then 1 else 0 }

  // The counters kept beside the entries moved in step with an entry made.
  ghost predicate CountersEntered(nodes: Nodes, next: Nodes, p: nat, i: nat)
  {
    && SameDirs(nodes, next)
    && (forall j :: j in nodes && j != i ==> next[j].nlink == nodes[j].nlink)
    && (IsDir(next, i) ==> next[i].nlink == 1 && next[i].body.subdirs == 0)
    && (i in next && !IsDir(next, i) ==> next[i].nlink == (if i in nodes then nodes[i].nlink else 0) + 1)
    && (forall d :: IsDir(nodes, d) ==> next[d].body.subdirs == nodes[d].body.subdirs + Bump(d == p && IsDir(next, i)))
  }

  lemma EnteredCounts(nodes: Nodes, at: map<nat, seq<string>>, next: Nodes, p: nat, name: string, i: nat)
    requires Tree(nodes, at) && LinksCounted(nodes, at) && Entered(nodes, next, p, name, i) && p in at
    requires CountersEntered(nodes, next, p, i)
    ensures LinksCounted(next, if IsDir(next, i) then at[i := at[p] + [name]] else at)
  {
    hide Tree, EntriesOf, Subdirs, Child;
    forall j | j in next && !IsDir(next, j) ensures next[j].nlink == |EntriesOf(next, j)| {
      EnteredEntries(nodes, at, next, p, name, i, j);
    }
    forall d | IsDir(next, d) ensures next[d].body.subdirs == |Subdirs(next, d)| {
      EnteredSubdirs(nodes, at, next, p, name, i, d);
    }
  }

  lemma MakeEnters(fs: Fs, p: nat, name: string, body: Body)
    requires IsDir(fs.nodes, p) && Child(fs.nodes, p, name) == None && fs.nextIno !in fs.nodes
    requires body.Dir? ==> body == Dir(map[], 0)
    ensures Entered(fs.nodes, Make(fs, p, name, body).nodes, p, name, fs.nextIno)
    ensures CountersEntered(fs.nodes, Make(fs, p, name, body).nodes, p, fs.nextIno)
    ensures IsDir(Make(fs, p, name, body).nodes, fs.nextIno) <==> body.Dir?
  {
  }

  lemma MakeTotals(fs: Fs, p: nat, name: string, body: Body)
    requires IsDir(fs.nodes, p) && TotalsCounted(fs)
    ensures fs.nextIno !in fs.nodes && TotalsCounted(Make(fs, p, name, body))
  {
    var i, next := fs.nextIno, Make(fs, p, name, body);
    SumsChange(fs.nodes, next.nodes, i, i);
    assert next.nodes[i] == Node(1, body);
  }

  // Making a node under a free name.
  lemma MakeKeeps(fs: Fs, at: map<nat, seq<string>>, p: nat, name: string, body: Body)
    requires Inv(fs, at) && p in at && Child(fs.nodes, p, name) == None
    requires body.Dir? ==> body == Dir(map[], 0)
    ensures fs.nextIno !in fs.nodes && IsDir(fs.nodes, p)
    ensures Entered(fs.nodes, Make(fs, p, name, body).nodes, p, name, fs.nextIno)
    ensures Inv(Make(fs, p, name, body), if body.Dir? then at[fs.nextIno := at[p] + [name]] else at)
  {
    AtNamed(fs.nodes, at, p);
    hide Tree, LinksCounted, TotalsCounted, Entered, CountersEntered, Make, IsDir, Child;
    MakeTotals(fs, p, name, body);
    MakeEnters(fs, p, name, body);
    EnteredTree(fs.nodes, at, Make(fs, p, name, body).nodes, p, name, fs.nextIno);
    EnteredCounts(fs.nodes, at, Make(fs, p, name, body).nodes, p, name, fs.nextIno);
  }

  lemma HardLinkEnters(fs: Fs, i: nat, p: nat, name: string)
    requires IsDir(fs.nodes, p) && Child(fs.nodes, p, name) == None && i in fs.nodes && !IsDir(fs.nodes, i)
    ensures Entered(fs.nodes, HardLink(fs, i, p, name).nodes, p, name, i)
    ensures CountersEntered(fs.nodes, HardLink(fs, i, p, name).nodes, p, i)
    ensures !IsDir(HardLink(fs, i, p, name).nodes, i)
  {
  }

  lemma HardLinkTotals(fs: Fs, i: nat, p: nat, name: string)
    requires IsDir(fs.nodes, p) && i in fs.nodes && !IsDir(fs.nodes, i) && TotalsCounted(fs) && fs.nodes[i].nlink > 0
    ensures TotalsCounted(HardLink(fs, i, p, name))
  {
    SumsChange(fs.nodes, HardLink(fs, i, p, name).nodes, fs.nextIno, i);
  }

  // One more name for a node that is not a directory.
  lemma HardLinkKeeps(fs: Fs, at: map<nat, seq<string>>, i: nat, p: nat, name: string)
    requires Inv(fs, at) && p in at && Child(fs.nodes, p, name) == None
    requires i in fs.nodes && !IsDir(fs.nodes, i) && fs.nodes[i].nlink > 0
    ensures IsDir(fs.nodes, p) && Entered(fs.nodes, HardLink(fs, i, p, name).nodes, p, name, i)
    ensures Inv(HardLink(fs, i, p, name), at)
  {
    AtNamed(fs.nodes, at, p);
    hide Tree, LinksCounted, TotalsCounted, Entered, CountersEntered, HardLink, IsDir, Child;
    HardLinkTotals(fs, i, p, name);
    HardLinkEnters(fs, i, p, name);
    EnteredTree(fs.nodes, at, HardLink(fs, i, p, name).nodes, p, name, i);
    EnteredCounts(fs.nodes, at, HardLink(fs, i, p, name).nodes, p, name, i);
  }

  // ---------- an entry fewer ----------

  lemma RemovedEntries(nodes: Nodes, next: Nodes, p: nat, name: string, i: nat, j: nat)
    requires Removed(nodes, next, p, name, i)
    ensures |EntriesOf(next, j)| == |EntriesOf(nodes, j)| - (if j == i then 1 else 0)
  {
    hide EntriesOf;
    forall e ensures e in EntriesOf(next, j) <==> e in EntriesOf(nodes, j) && e != (p, name) {
      EntryIff(nodes, j, e.0, e.1);
      EntryIff(next, j, e.0, e.1);
    }
    EntryIff(nodes, j, p, name);
    assert EntriesOf(next, j) == EntriesOf(nodes, j) - {(p, name)};
  }

  lemma RemovedSubdirs(nodes: Nodes, next: Nodes, p: nat, name: string, i: nat, d: nat)
    requires Removed(nodes, next, p, name, i) && IsDir(nodes, d)
    ensures |Subdirs(next, d)| == |Subdirs(nodes, d)| - Bump(d == p && IsDir(nodes, i))
  {
    forall n ensures n in Subdirs(next, d) <==> n in Subdirs(nodes, d) && !(d == p && n == name) {
      SubdirIff(nodes, d, n);
      SubdirIff(next, d, n);
    }
    if d == p {
      SubdirIff(nodes, p, name);
    }
    assert Subdirs(next, d) == Subdirs(nodes, d) - (if d == p then {name} else {});
  }

  ghost predicate CountersRemoved(nodes: Nodes, next: Nodes, p: nat, i: nat)
  {
    && SameDirs(nodes, next)
    && (forall j :: j in nodes ==> next[j].nlink == nodes[j].nlink - Bump(j == i))
    && (forall d :: IsDir(nodes, d) ==> next[d].body.subdirs == nodes[d].body.subdirs - Bump(d == p && IsDir(nodes, i)))
  }

  lemma RemovedCounts(nodes: Nodes, at: map<nat, seq<string>>, next: Nodes, p: nat, name: string, i: nat)
    requires LinksCounted(nodes, at) && Removed(nodes, next, p, name, i) && CountersRemoved(nodes, next, p, i)
    requires IsDir(nodes, i) ==> i in at
    ensures LinksCounted(next, at - {i})
  {
    hide EntriesOf, Subdirs, Child;
    forall j | j in next && !IsDir(next, j) ensures next[j].nlink == |EntriesOf(next, j)| {
      RemovedEntries(nodes, next, p, name, i, j);
    }
    forall d | IsDir(next, d) ensures next[d].body.subdirs == |Subdirs(next, d)| {
      RemovedSubdirs(nodes, next, p, name, i, d);
    }
  }

  lemma UnlinkRemoves(fs: Fs, p: nat, name: string, i: nat)
    requires Child(fs.nodes, p, name) == Some(i) && i in fs.nodes
    requires IsDir(fs.nodes, i) ==> fs.nodes[i].body.children == map[]
    ensures i != p && Removed(fs.nodes, UnlinkEntry(fs, p, name, i).nodes, p, name, i)
    ensures CountersRemoved(fs.nodes, UnlinkEntry(fs, p, name, i).nodes, p, i)
  {
    assert i != p;
  }

  lemma UnlinkTotals(fs: Fs, p: nat, name: string, i: nat)
    requires IsDir(fs.nodes, p) && i in fs.nodes && TotalsCounted(fs) && fs.nodes[i].nlink > 0 && i != p
    ensures TotalsCounted(UnlinkEntry(fs, p, name, i))
  {
    SumsChange(fs.nodes, UnlinkEntry(fs, p, name, i).nodes, fs.nextIno, i);
  }

  lemma EntryIsLive(nodes: Nodes, at: map<nat, seq<string>>, p: nat, name: string)
    requires Tree(nodes, at) && LinksCounted(nodes, at) && Child(nodes, p, name).Some?
    ensures p in at && IsDir(nodes, p)
    ensures var i := Child(nodes, p, name).value; i in nodes && nodes[i].nlink > 0 && (IsDir(nodes, i) ==> i in at)
  {
    hide EntriesOf;
    EntryIff(nodes, Child(nodes, p, name).value, p, name);
    assert |EntriesOf(nodes, Child(nodes, p, name).value)| > 0;
  }

  // An entry goes, and with the last one the node leaves the totals.
  lemma UnlinkKeeps(fs: Fs, at: map<nat, seq<string>>, p: nat, name: string, i: nat)
    requires Inv(fs, at) && Child(fs.nodes, p, name) == Some(i)
    requires IsDir(fs.nodes, i) ==> fs.nodes[i].body.children == map[]
    ensures p in at && IsDir(fs.nodes, p) && i in fs.nodes
    ensures Removed(fs.nodes, UnlinkEntry(fs, p, name, i).nodes, p, name, i)
    ensures Inv(UnlinkEntry(fs, p, name, i), at - {i})
  {
    hide Tree, LinksCounted, TotalsCounted, Removed, CountersRemoved, UnlinkEntry, IsDir, Child;
    EntryIsLive(fs.nodes, at, p, name);
    UnlinkRemoves(fs, p, name, i);
    UnlinkTotals(fs, p, name, i);
    RemovedTree(fs.nodes, at, UnlinkEntry(fs, p, name, i).nodes, p, name, i);
    RemovedCounts(fs.nodes, at, UnlinkEntry(fs, p, name, i).nodes, p, name, i);
  }

  // ---------- an entry elsewhere ----------

  lemma MovedEntries(nodes: Nodes, next: Nodes, fp: nat, fromName: string, tp: nat, toName: string, i: nat, j: nat)
    requires MemTree.Moved(nodes, next, fp, fromName, tp, toName, i)
    ensures |EntriesOf(next, j)| == |EntriesOf(nodes, j)|
  {
    hide EntriesOf;
    forall e
      ensures e in EntriesOf(next, j) <==>
              (e in EntriesOf(nodes, j) && e != (fp, fromName)) || (j == i && e == (tp, toName))
    {
      EntryIff(nodes, j, e.0, e.1);
      EntryIff(next, j, e.0, e.1);
    }
    EntryIff(nodes, j, fp, fromName);
    EntryIff(nodes, j, tp, toName);
    if j == i {
      assert EntriesOf(next, j) == EntriesOf(nodes, j) - {(fp, fromName)} + {(tp, toName)};
    } else {
      assert EntriesOf(next, j) == EntriesOf(nodes, j);
    }
  }

  lemma MovedSubdirs(nodes: Nodes, next: Nodes, fp: nat, fromName: string, tp: nat, toName: string, i: nat, d: nat)
    requires MemTree.Moved(nodes, next, fp, fromName, tp, toName, i) && IsDir(nodes, d)
    ensures |Subdirs(next, d)| ==
            |Subdirs(nodes, d)| - Bump(d == fp && IsDir(nodes, i)) + Bump(d == tp && IsDir(nodes, i))
  {
    hide Subdirs;
    var gone := d == fp && IsDir(nodes, i);
    var come := d == tp && IsDir(nodes, i);
    forall n
      ensures n in Subdirs(next, d) <==> (n in Subdirs(nodes, d) && !(gone && n == fromName)) || (come && n == toName)
    {
      SubdirIff(nodes, d, n);
      SubdirIff(next, d, n);
    }
    SubdirIff(nodes, d, fromName);
    SubdirIff(nodes, d, toName);
    SetSwap(Subdirs(nodes, d), Subdirs(next, d), gone, fromName, come, toName);
  }

  lemma SetSwap(s: set<string>, t: set<string>, gone: bool, x: string, come: bool, y: string)
    requires forall n :: n in t <==> (n in s && !(gone && n == x)) || (come && n == y)
    requires gone ==> x in s
    requires come ==> y !in s
    ensures |t| == |s| - Bump(gone) + Bump(come)
  {
    var less := if gone then s - {x} else s;
    assert t == if come then less + {y} else less;
  }

  ghost predicate CountersMoved(nodes: Nodes, next: Nodes, fp: nat, tp: nat, i: nat)
  {
    && SameDirs(nodes, next)
    && (forall j :: j in nodes ==> next[j].nlink == nodes[j].nlink)
    && (forall d :: IsDir(nodes, d) ==>
          next[d].body.subdirs ==
          nodes[d].body.subdirs - Bump(d == fp && IsDir(nodes, i)) + Bump(d == tp && IsDir(nodes, i)))
  }

  lemma MovedCounts(nodes: Nodes, at: map<nat, seq<string>>, next: Nodes, fp: nat, fromName: string, tp: nat,
                    toName: string,
                    i: nat, at': map<nat, seq<string>>)
    requires LinksCounted(nodes, at) && MemTree.Moved(nodes, next, fp, fromName, tp, toName, i)
    requires at'.Keys == at.Keys && CountersMoved(nodes, next, fp, tp, i)
    ensures LinksCounted(next, at')
  {
    hide EntriesOf, Subdirs, Child;
    forall j | j in next && !IsDir(next, j) ensures next[j].nlink == |EntriesOf(next, j)| {
      MovedEntries(nodes, next, fp, fromName, tp, toName, i, j);
    }
    forall d | IsDir(next, d) ensures next[d].body.subdirs == |Subdirs(next, d)| {
      MovedSubdirs(nodes, next, fp, fromName, tp, toName, i, d);
    }
    forall d ensures d in at' <==> d in at { assert d in at'.Keys <==> d in at.Keys; }
  }

  lemma MoveMoves(fs: Fs, fp: nat, fromName: string, tp: nat, toName: string, i: nat)
    requires IsDir(fs.nodes, tp) && i in fs.nodes
    requires Child(fs.nodes, fp, fromName) == Some(i) && Child(fs.nodes, tp, toName) == None
    ensures MemTree.Moved(fs.nodes, Move(fs, fp, fromName, tp, toName, i).nodes, fp, fromName, tp, toName, i)
    ensures CountersMoved(fs.nodes, Move(fs, fp, fromName, tp, toName, i).nodes, fp, tp, i)
  {
  }

  lemma MovedAtKeys(at: map<nat, seq<string>>, from: seq<string>, to: seq<string>)
    ensures MovedAt(at, from, to).Keys == at.Keys
  {
  }

  lemma MoveTotals(fs: Fs, fp: nat, fromName: string, tp: nat, toName: string, i: nat)
    requires IsDir(fs.nodes, fp) && IsDir(fs.nodes, tp) && TotalsCounted(fs)
    ensures TotalsCounted(Move(fs, fp, fromName, tp, toName, i))
  {
    SumsChange(fs.nodes, Move(fs, fp, fromName, tp, toName, i).nodes, fs.nextIno, fs.nextIno);
  }

  // An entry moves, with the whole subtree below it, and no count changes.
  lemma MoveKeeps(fs: Fs, at: map<nat, seq<string>>, fp: nat, fromName: string, tp: nat, toName: string, i: nat)
    requires Inv(fs, at) && tp in at
    requires Child(fs.nodes, fp, fromName) == Some(i) && Child(fs.nodes, tp, toName) == None
    requires fp in at ==> !(at[fp] + [fromName] <= at[tp])
    ensures fp in at && IsDir(fs.nodes, fp) && IsDir(fs.nodes, tp)
    ensures MemTree.Moved(fs.nodes, Move(fs, fp, fromName, tp, toName, i).nodes, fp, fromName, tp, toName, i)
    ensures Inv(Move(fs, fp, fromName, tp, toName, i), MovedAt(at, at[fp] + [fromName], at[tp] + [toName]))
  {
    AtNamed(fs.nodes, at, tp);
    hide Tree, LinksCounted, TotalsCounted, MemTree.Moved, CountersMoved, Move, IsDir, Child, MovedAt;
    EntryIsLive(fs.nodes, at, fp, fromName);
    MovedAtKeys(at, at[fp] + [fromName], at[tp] + [toName]);
    MoveMoves(fs, fp, fromName, tp, toName, i);
    MoveTotals(fs, fp, fromName, tp, toName, i);
    MovedTree(fs.nodes, at, Move(fs, fp, fromName, tp, toName, i).nodes, fp, fromName, tp, toName, i);
    MovedCounts(fs.nodes, at, Move(fs, fp, fromName, tp, toName, i).nodes, fp, fromName, tp, toName, i,
                MovedAt(at, at[fp] + [fromName], at[tp] + [toName]));
  }

  // ---------- a file's bytes ----------

  lemma {:induction false} SameChildrenSameNames(nodes: Nodes, next: Nodes, segs: seq<string>)
    requires forall d, n :: Child(next, d, n) == Child(nodes, d, n)
    ensures Named(next, segs) == Named(nodes, segs)
  {
    if segs != [] {
      SameChildrenSameNames(nodes, next, Init(segs));
    }
  }

  lemma SameChildrenTree(nodes: Nodes, at: map<nat, seq<string>>, next: Nodes)
    requires Tree(nodes, at) && SameDirs(nodes, next) && next.Keys == nodes.Keys
    requires forall d, n :: Child(next, d, n) == Child(nodes, d, n)
    ensures Tree(next, at)
  {
    forall d | d in at ensures Named(next, at[d]) == Some(d) {
      SameChildrenSameNames(nodes, next, at[d]);
    }
    forall d | IsDir(next, d) && d !in at ensures next[d].body.children == map[] {
      forall n ensures n !in next[d].body.children { assert Child(next, d, n) == Child(nodes, d, n); }
    }
  }

  lemma SameChildrenCounts(nodes: Nodes, at: map<nat, seq<string>>, next: Nodes)
    requires LinksCounted(nodes, at) && SameDirs(nodes, next) && next.Keys == nodes.Keys
    requires forall d, n :: Child(next, d, n) == Child(nodes, d, n)
    requires forall j :: j in nodes ==> next[j].nlink == nodes[j].nlink
    requires forall d :: IsDir(nodes, d) ==> next[d].body.subdirs == nodes[d].body.subdirs
    ensures LinksCounted(next, at)
  {
    hide EntriesOf, Subdirs, Child;
    forall j | j in next && !IsDir(next, j) ensures EntriesOf(next, j) == EntriesOf(nodes, j) {
      forall e ensures e in EntriesOf(next, j) <==> e in EntriesOf(nodes, j) {
        EntryIff(nodes, j, e.0, e.1);
        EntryIff(next, j, e.0, e.1);
      }
    }
    forall d | IsDir(next, d) ensures Subdirs(next, d) == Subdirs(nodes, d) {
      forall n ensures n in Subdirs(next, d) <==> n in Subdirs(nodes, d) {
        SubdirIff(nodes, d, n);
        SubdirIff(next, d, n);
      }
    }
  }

  // A file's bytes change, linked or not.
  lemma SetDataKeeps(fs: Fs, at: map<nat, seq<string>>, i: nat, data: seq<Byte>)
    requires Inv(fs, at) && i in fs.nodes && fs.nodes[i].body.File?
    ensures Inv(SetData(fs, i, data), at)
    ensures forall segs :: Named(SetData(fs, i, data).nodes, segs) == Named(fs.nodes, segs)
  {
    hide Tree, LinksCounted, Named;
    var next := SetData(fs, i, data);
    assert forall d, n :: Child(next.nodes, d, n) == Child(fs.nodes, d, n);
    forall segs ensures Named(next.nodes, segs) == Named(fs.nodes, segs) {
      SameChildrenSameNames(fs.nodes, next.nodes, segs);
    }
    SameChildrenTree(fs.nodes, at, next.nodes);
    SameChildrenCounts(fs.nodes, at, next.nodes);
    SumsChange(fs.nodes, next.nodes, fs.nextIno, i);
  }
}
