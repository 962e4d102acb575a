// The FUSE inode table: nodeids that stay resolvable until the kernel has
// forgotten every lookup it was handed.
module Inodes {
  import opened Wrappers
  import opened Keys
  import opened Paths
  import opened PathTables
  import opened Identities

  const FUSE_ROOT_ID: nat := 1

  // ---------- lookup counting over runs ----------

  datatype LookupOp =
    | Names(op: Op<int>)
    | Acquire(id: nat)
    | Forget(id: nat, count: int)

  function Lookups(count: int): int { if count > 0 then count else 0 }

  function AcquireOp(t: Table<int>, i: nat): Op<int>
  {
    InfoOp(i, if i in t.entries then t.entries[i].info + 1 else 0)
  }

  // The whole entry goes when the count reaches zero; the root never does.
  function ForgetOp(t: Table<int>, i: nat, count: int): Op<int>
  {
    if i !in t.entries then InfoOp(i, 0)
    else if i == FUSE_ROOT_ID then InfoOp(i, t.entries[i].info)
    else if t.entries[i].info - Lookups(count) > 0 then InfoOp(i, t.entries[i].info - Lookups(count))
    else DropOp(i)
  }

  // Which table change a lookup operation makes in this state.
  function OpOf(t: Table<int>, op: LookupOp): Op<int>
  {
    match op
    case Names(o) => o
    case Acquire(i) => AcquireOp(t, i)
    case Forget(i, count) => ForgetOp(t, i, count)
  }

  ghost predicate LookupRun(states: seq<Table<int>>, ops: seq<LookupOp>)
  {
    && |states| == |ops| + 1
    && Coherent(states[0])
    && forall k :: 0 <= k < |ops| ==>
         && (ops[k].Names? ==> ops[k].op.BindOp? || ops[k].op.ReleaseOp? || ops[k].op.RemapOp?)
         && Coherent(states[k]) && Step(states[k], OpOf(states[k], ops[k]), states[k + 1])
  }

  function Delta(op: LookupOp, i: nat): int
  {
    match op
    case Names(_) => 0
    case Acquire(j) => if j == i then 1 else 0
    case Forget(j, count) => if j == i then -Lookups(count) else 0
  }

  // Lookups outstanding after the first n operations, starting from `held`.
  function Balance(held: int, ops: seq<LookupOp>, i: nat, n: nat): int
    requires n <= |ops|
  {
    if n == 0 then held else Balance(held, ops, i, n - 1) + Delta(ops[n - 1], i)
  }

  ghost predicate NeverSettled(held: int, ops: seq<LookupOp>, i: nat, n: nat)
    requires n <= |ops|
  {
    forall k :: 0 <= k < n && ops[k].Forget? && ops[k].id == i ==> Balance(held, ops, i, k + 1) > 0
  }

  lemma StepInfo(t: Table<int>, op: LookupOp, u: Table<int>, i: nat)
    requires Coherent(t) && Step(t, OpOf(t, op), u) && i != FUSE_ROOT_ID && i < t.nextId
    requires op.Names? ==> op.op.BindOp? || op.op.ReleaseOp? || op.op.RemapOp?
    ensures Coherent(u) && i < u.nextId
    ensures i !in t.entries ==> i !in u.entries
    ensures i in t.entries ==>
              (i in u.entries <==> !(op.Forget? && op.id == i) || t.entries[i].info + Delta(op, i) > 0)
    ensures i in t.entries && i in u.entries ==> u.entries[i].info == t.entries[i].info + Delta(op, i)
  {
    StepKeeps(t, OpOf(t, op), u);
    if op.Names? && op.op.BindOp? {
      BindSpec(t, op.op.path, op.op.key, op.op.made);
    }
  }

  lemma SettledOneMore(held: int, ops: seq<LookupOp>, i: nat, n: nat)
    requires 0 < n <= |ops|
    ensures NeverSettled(held, ops, i, n) <==>
            NeverSettled(held, ops, i, n - 1) &&
            (!(ops[n - 1].Forget? && ops[n - 1].id == i) || Balance(held, ops, i, n) > 0)
  {
  }

  // In every run an inode is resolvable exactly until one of its forgets leaves
  // no lookup outstanding, whatever unlinks, binds and renames come between;
  // and while it is, its count is acquires minus forgets.
  lemma {:induction false} ResolvableUntilForgotten(states: seq<Table<int>>, ops: seq<LookupOp>, i: nat, n: nat)
    requires LookupRun(states, ops) && n <= |ops|
    requires i in states[0].entries && i != FUSE_ROOT_ID
    ensures Coherent(states[n]) && i < states[n].nextId
    ensures i in states[n].entries <==> NeverSettled(states[0].entries[i].info, ops, i, n)
    ensures i in states[n].entries ==>
              states[n].entries[i].info == Balance(states[0].entries[i].info, ops, i, n)
  {
    hide OpOf, Step, PathsAgree, KeysAgree, Delta;
    if n > 0 {
      ResolvableUntilForgotten(states, ops, i, n - 1);
      StepInfo(states[n - 1], ops[n - 1], states[n], i);
      var held := states[0].entries[i].info;
      assert Balance(held, ops, i, n) == Balance(held, ops, i, n - 1) + Delta(ops[n - 1], i);
      SettledOneMore(held, ops, i, n);
    }
  }

  // ---------- clearing ----------

  function Emptied(t: Table<int>): Table<int>
    requires FUSE_ROOT_ID in t.entries
  {
    Table(map[FUSE_ROOT_ID := t.entries[FUSE_ROOT_ID].(paths := {"/"})], map["/" := FUSE_ROOT_ID], map[], t.nextId)
  }

  const FRESH: Table<int> := Table(map[FUSE_ROOT_ID := Entry(None, {"/"}, 1)], map["/" := FUSE_ROOT_ID], map[], 2)

  // A root bound to a file with an inode number adopts its key, and clearing then
  // leaves the root with a key the table does not know.
  lemma ClearMayDisagree(dev: nat, ino: int)
    requires ino > 0
    ensures Coherent(FRESH)
    ensures var (bound, nodeid) := Bind(FRESH, "/", IdentityKey(dev, ino), 0);
            && nodeid == FUSE_ROOT_ID && Coherent(bound) && bound.entries[FUSE_ROOT_ID].key.Some?
            && !Coherent(Emptied(bound))
  {
    assert "/" in FRESH.entries[FUSE_ROOT_ID].paths;
    BindSpec(FRESH, "/", IdentityKey(dev, ino), 0);
    var bound := Bind(FRESH, "/", IdentityKey(dev, ino), 0).0;
    assert "/" in Emptied(bound).entries[FUSE_ROOT_ID].paths;
  }

  // ---------- the table ----------

  class InodeTable {
    const table: PathTable<int>
    const useDriverIno: bool

    ghost predicate Valid()
      reads this, table
    {
      table.Valid() && NormalPaths(table.State()) && FUSE_ROOT_ID in table.entries
    }

    constructor (useDriverIno: bool)
      ensures Valid() && fresh(table) && this.useDriverIno == useDriverIno
      ensures table.State() == FRESH
    {
      this.useDriverIno := useDriverIno;
      table := new PathTable<int>(FUSE_ROOT_ID);
      new;
      BindSpec(table.State(), "/", None, 1);
      var root := table.BindPath("/", None, 1);
      SegmentsRooted([]);
    }

    method Bind(path: string, dev: nat, ino: int) returns (nodeid: nat)
      requires Valid() && Normal(path)
      modifies table
      ensures Valid()
      ensures var key := if useDriverIno then IdentityKey(dev, ino) else None;
              && (table.State(), nodeid) == PathTables.Bind(old(table.State()), path, key, 0)
              && nodeid in table.entries && table.entries[nodeid].key == key
              && table.byPath == old(table.byPath)[path := nodeid]
    {
      var key := if useDriverIno then IdentityKey(dev, ino) else None;
      BindSpec(table.State(), path, key, 0);
      nodeid := table.BindPath(path, key, 0);
    }

    method AcquireInode(nodeid: nat)
      requires Valid()
      modifies table
      ensures Valid() && Step(old(table.State()), OpOf(old(table.State()), Acquire(nodeid)), table.State())
    {
      if nodeid in table.entries {
        InfoCoherent(table.State(), nodeid, table.entries[nodeid].info + 1);
        table.entries := table.entries[nodeid := table.entries[nodeid].(info := table.entries[nodeid].info + 1)];
      }
    }

    method ForgetInode(nodeid: nat, count: int) returns (gone: bool)
      requires Valid()
      modifies table
      ensures Valid() && Step(old(table.State()), OpOf(old(table.State()), Forget(nodeid, count)), table.State())
      ensures gone <==> nodeid in old(table.entries) && nodeid !in table.entries
    {
      if nodeid !in table.entries || nodeid == FUSE_ROOT_ID {
        return false;
      }
      var inode := table.entries[nodeid];
      var left := inode.info - (if count > 0 then count else 0);
      if left > 0 {
        InfoCoherent(table.State(), nodeid, left);
        table.entries := table.entries[nodeid := inode.(info := left)];
        return false;
      }
      DroppedCoherent(table.State(), nodeid);
      table.byPath := table.byPath - inode.paths;
      table.ReleaseKey(nodeid);
      table.entries := table.entries - {nodeid};
      return true;
    }

    method Unbind(path: string) returns (nodeid: Option<nat>)
      requires Valid()
      modifies table
      ensures Valid() && Step(old(table.State()), ReleaseOp(path), table.State())
      ensures nodeid == if path in old(table.byPath) then Some(old(table.byPath)[path]) else None
      ensures nodeid.Some? ==> nodeid.value in table.entries
    {
      nodeid := if path in table.byPath then Some(table.byPath[path]) else None;
      table.ReleasePath(path);
    }

    method Remap(from: string, to: string)
      requires Valid() && Renames(from, to)
      modifies table
      ensures Valid() && Step(old(table.State()), RemapOp(from, to), table.State())
    {
      table.RemapSubtree(from, to);
    }

    // Everything but the root goes. The root keeps an identity it adopted, but
    // not the table's entry for it, so the tables agree afterwards if and only
    // if it had adopted none.
    method Clear()
      requires Valid()
      modifies table
      ensures Valid() <==> old(table.entries[FUSE_ROOT_ID].key).None?
      ensures table.State() == Emptied(old(table.State()))
    {
      SegmentsRooted([]);
      table.entries := map[FUSE_ROOT_ID := table.entries[FUSE_ROOT_ID].(paths := {"/"})];
      table.byPath := map["/" := FUSE_ROOT_ID];
      table.byKey := map[];
      assert "/" in table.entries[FUSE_ROOT_ID].paths;
    }
  }
}
