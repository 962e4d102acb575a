// The byte-range algebra of POSIX record locks over one file's list of
// granted ranges: subtract, replace, coalesce, and what each does to bytes.
module ByteRanges {
  import opened Wrappers
  import opened Keys

  // One past the last addressable byte.
  const EOF_END: nat := 0x1_0000_0000_0000_0000

  const RDLCK: nat := 0
  const WRLCK: nat := 1
  const UNLCK: nat := 2

  // One granted range, [start, end).
  datatype Lock = Lock(start: nat, end: nat, typ: nat, ownerKey: string,
                       procId: nat, clientId: string, holder: nat, fid: nat)

  // What an owner holds on one byte: all a lock is, apart from its extent.
  datatype Grant = Grant(typ: nat, holder: nat, fid: nat)

  // ---------- keys ----------

  // The client id follows the first colon, whatever colons it holds itself.
  function OwnerKey(procId: int, clientId: string): string
  {
    Decimal(procId % 0x1_0000_0000) + ":" + clientId
  }

  function GroupKey(lock: Lock): string
  {
    Decimal(lock.holder) + ":" + (Decimal(lock.fid) + ":" + lock.ownerKey)
  }

  predicate SameGroup(a: Lock, b: Lock)
  {
    a.holder == b.holder && a.fid == b.fid && a.ownerKey == b.ownerKey
  }

  // Two owners build the same key only if they are the same process of the
  // same client.
  lemma OwnerKeyInjective(p: int, c: string, q: int, d: string)
    ensures OwnerKey(p, c) == OwnerKey(q, d) <==> p % 0x1_0000_0000 == q % 0x1_0000_0000 && c == d
  {
    if OwnerKey(p, c) == OwnerKey(q, d) {
      ColonSplits(Decimal(p % 0x1_0000_0000), c, Decimal(q % 0x1_0000_0000), d);
      DecimalInjective(p % 0x1_0000_0000, q % 0x1_0000_0000);
    }
  }

  lemma GroupKeyInjective(a: Lock, b: Lock)
    ensures GroupKey(a) == GroupKey(b) <==> SameGroup(a, b)
  {
    if GroupKey(a) == GroupKey(b) {
      ColonSplits(Decimal(a.holder), Decimal(a.fid) + ":" + a.ownerKey,
                  Decimal(b.holder), Decimal(b.fid) + ":" + b.ownerKey);
      ColonSplits(Decimal(a.fid), a.ownerKey, Decimal(b.fid), b.ownerKey);
      DecimalInjective(a.holder, b.holder);
      DecimalInjective(a.fid, b.fid);
    }
  }

  // ---------- what a list of ranges means ----------

  predicate Overlaps(lock: Lock, start: nat, end: nat) { lock.start < end && start < lock.end }

  // POSIX conflict: another owner's range, at least one side a write lock.
  predicate Conflicts(lock: Lock, ownerKey: string, typ: nat)
  {
    lock.ownerKey != ownerKey && (lock.typ == WRLCK || typ == WRLCK)
  }

  predicate Covers(lock: Lock, owner: string, b: nat) { lock.ownerKey == owner && lock.start <= b < lock.end }

  function GrantOf(lock: Lock): Grant { Grant(lock.typ, lock.holder, lock.fid) }

  // The function from (owner, byte) that a list of ranges stands for.
  function At(locks: seq<Lock>, owner: string, b: nat): Option<Grant>
  {
    if locks == [] then None
    else if Covers(locks[0], owner, b) then Some(GrantOf(locks[0]))
    else At(locks[1..], owner, b)
  }

  // Two ranges of one owner never share a byte.
  predicate Apart(a: Lock, b: Lock) { a.ownerKey == b.ownerKey ==> a.end <= b.start || b.end <= a.start }

  predicate Disjoint(locks: seq<Lock>)
  {
    forall i, j :: 0 <= i < j < |locks| ==> Apart(locks[i], locks[j])
  }

  predicate WellFormed(lock: Lock)
  {
    lock.start < lock.end <= EOF_END && (lock.typ == RDLCK || lock.typ == WRLCK)
  }

  predicate AllWellFormed(locks: seq<Lock>) { forall i :: 0 <= i < |locks| ==> WellFormed(locks[i]) }

  predicate Mergeable(a: Lock, b: Lock) { SameGroup(a, b) && a.typ == b.typ && a.end == b.start }

  // No two ranges of one group and type touch: none is left split.
  predicate NoneTouch(locks: seq<Lock>)
  {
    forall i, j :: 0 <= i < |locks| && 0 <= j < |locks| ==> !Mergeable(locks[i], locks[j])
  }

  predicate Canonical(locks: seq<Lock>) { AllWellFormed(locks) && Disjoint(locks) && NoneTouch(locks) }

  predicate SortedByStart(locks: seq<Lock>)
  {
    forall i, j :: 0 <= i < j < |locks| ==> locks[i].start <= locks[j].start
  }

  // No byte is write-locked by one owner while another owner holds it.
  ghost predicate Safe(locks: seq<Lock>)
  {
    forall o, p, b: nat :: o != p && At(locks, o, b).Some? && At(locks, p, b).Some? ==>
      At(locks, o, b).value.typ == RDLCK
  }

  lemma {:induction false} AtWitness(locks: seq<Lock>, o: string, b: nat) returns (i: nat)
    requires At(locks, o, b).Some?
    ensures i < |locks| && Covers(locks[i], o, b) && At(locks, o, b) == Some(GrantOf(locks[i]))
  {
    if Covers(locks[0], o, b) {
      i := 0;
    } else {
      i := AtWitness(locks[1..], o, b);
      i := i + 1;
    }
  }

  lemma {:induction false} AtCovered(locks: seq<Lock>, i: nat, o: string, b: nat)
    requires Disjoint(locks) && i < |locks| && Covers(locks[i], o, b)
    ensures At(locks, o, b) == Some(GrantOf(locks[i]))
  {
    if i > 0 {
      assert Apart(locks[0], locks[i]);
      DisjointTail(locks);
      AtCovered(locks[1..], i - 1, o, b);
    }
  }

  lemma DisjointTail(locks: seq<Lock>)
    requires Disjoint(locks) && locks != []
    ensures Disjoint(locks[1..])
  {
    var tail := locks[1..];
    forall i, j | 0 <= i < j < |tail| ensures Apart(tail[i], tail[j]) {
      assert Apart(locks[i + 1], locks[j + 1]);
    }
  }

  lemma {:induction false} AtConcat(a: seq<Lock>, c: seq<Lock>, o: string, b: nat)
    ensures At(a + c, o, b) == if At(a, o, b).Some? then At(a, o, b) else At(c, o, b)
  {
    if a == [] {
      assert a + c == c;
    } else {
      assert (a + c)[1..] == a[1..] + c;
      AtConcat(a[1..], c, o, b);
    }
  }

  // Two disjoint lists with the same ranges mean the same, whatever their order.
  lemma AtSameRanges(x: seq<Lock>, y: seq<Lock>, o: string, b: nat)
    requires Disjoint(x) && Disjoint(y)
    requires forall l :: l in x <==> l in y
    ensures At(x, o, b) == At(y, o, b)
  {
    if At(x, o, b).Some? {
      var i := AtWitness(x, o, b);
      assert x[i] in y;
      var j :| 0 <= j < |y| && y[j] == x[i];
      AtCovered(y, j, o, b);
    } else if At(y, o, b).Some? {
      var i := AtWitness(y, o, b);
      assert y[i] in x;
      var j :| 0 <= j < |x| && x[j] == y[i];
      AtCovered(x, j, o, b);
    }
  }

  // ---------- subtract ----------

  // What is left of one range when its owner gives up [start, end).
  function Pieces(lock: Lock, owner: string, start: nat, end: nat): seq<Lock>
  {
    if lock.ownerKey != owner || !Overlaps(lock, start, end) then [lock]
    else (if lock.start < start then [lock.(end := start)] else []) +
         (if lock.end > end then [lock.(start := end)] else [])
  }

  function Subtract(locks: seq<Lock>, owner: string, start: nat, end: nat): seq<Lock>
  {
    if locks == [] then []
    else Subtract(locks[..|locks| - 1], owner, start, end) + Pieces(locks[|locks| - 1], owner, start, end)
  }

  method SubtractRange(locks: seq<Lock>, ownerKey: string, start: nat, end: nat) returns (kept: seq<Lock>)
    ensures kept == Subtract(locks, ownerKey, start, end)
  {
    kept := [];
    for n := 0 to |locks|
      invariant kept == Subtract(locks[..n], ownerKey, start, end)
    {
      var lock := locks[n];
      assert locks[..n + 1][..n] == locks[..n];
      if lock.ownerKey != ownerKey || !Overlaps(lock, start, end) {
        kept := kept + [lock];
        continue;
      }
      if lock.start < start {
        kept := kept + [lock.(end := start)];
      }
      if lock.end > end {
        kept := kept + [lock.(start := end)];
      }
    }
    assert locks[..|locks|] == locks;
  }

  function Erased(held: Option<Grant>, o: string, b: nat, owner: string, start: nat, end: nat): Option<Grant>
  {
    if o == owner && start <= b < end then None else held
  }

  lemma AtPieces(lock: Lock, owner: string, start: nat, end: nat, o: string, b: nat)
    requires start < end
    ensures At(Pieces(lock, owner, start, end), o, b) == Erased(At([lock], o, b), o, b, owner, start, end)
  {
    AtConcat(if lock.start < start then [lock.(end := start)] else [],
             if lock.end > end then [lock.(start := end)] else [], o, b);
  }

  // Subtracting erases exactly the owner's bytes in [start, end).
  lemma {:induction false} SubtractAt(locks: seq<Lock>, owner: string, start: nat, end: nat, o: string, b: nat)
    requires start < end
    ensures At(Subtract(locks, owner, start, end), o, b) == Erased(At(locks, o, b), o, b, owner, start, end)
  {
    if locks != [] {
      var init, last := locks[..|locks| - 1], locks[|locks| - 1];
      SubtractAt(init, owner, start, end, o, b);
      AtPieces(last, owner, start, end, o, b);
      AtConcat(Subtract(init, owner, start, end), Pieces(last, owner, start, end), o, b);
      AtConcat(init, [last], o, b);
      assert init + [last] == locks;
    }
  }

  lemma {:induction false} SubtractOrigin(locks: seq<Lock>, owner: string, start: nat, end: nat, p: Lock)
    returns (i: nat)
    requires p in Subtract(locks, owner, start, end)
    ensures i < |locks| && p in Pieces(locks[i], owner, start, end)
  {
    var init, n := locks[..|locks| - 1], |locks| - 1;
    if p in Pieces(locks[n], owner, start, end) {
      i := n;
    } else {
      i := SubtractOrigin(init, owner, start, end, p);
    }
  }

  lemma {:induction false} PieceKept(locks: seq<Lock>, owner: string, start: nat, end: nat, i: nat, p: Lock)
    requires i < |locks| && p in Pieces(locks[i], owner, start, end)
    ensures p in Subtract(locks, owner, start, end)
  {
    if i < |locks| - 1 {
      PieceKept(locks[..|locks| - 1], owner, start, end, i, p);
    }
  }

  lemma PrefixCanonical(locks: seq<Lock>, n: nat)
    requires Canonical(locks) && n <= |locks|
    ensures Canonical(locks[..n])
  {
    var init := locks[..n];
    forall i, j | 0 <= i < j < |init| ensures Apart(init[i], init[j]) { assert Apart(locks[i], locks[j]); }
    forall i, j | 0 <= i < |init| && 0 <= j < |init| ensures !Mergeable(init[i], init[j]) {
      assert !Mergeable(locks[i], locks[j]);
    }
    forall i | 0 <= i < |init| ensures WellFormed(init[i]) { assert WellFormed(locks[i]); }
  }

  // A piece is part of its range, and of nothing the owner gave up.
  predicate PieceOf(p: Lock, lock: Lock, owner: string, start: nat, end: nat)
  {
    && lock.start <= p.start < p.end <= lock.end
    && p == lock.(start := p.start, end := p.end)
    && (p.ownerKey == owner ==> p.end <= start || end <= p.start)
    && (p.start == lock.start || (p.start == end && lock.start < end))
    && (p.end == lock.end || (p.end == start && start < lock.end))
  }

  lemma PiecesShape(lock: Lock, owner: string, start: nat, end: nat)
    requires WellFormed(lock) && start < end
    ensures forall p :: p in Pieces(lock, owner, start, end) ==> PieceOf(p, lock, owner, start, end)
    ensures Canonical(Pieces(lock, owner, start, end))
    ensures SortedByStart(Pieces(lock, owner, start, end))
  {
  }

  lemma {:induction false} SubtractCanonical(locks: seq<Lock>, owner: string, start: nat, end: nat)
    requires Canonical(locks) && start < end
    ensures Canonical(Subtract(locks, owner, start, end))
    ensures forall p :: p in Subtract(locks, owner, start, end) && p.ownerKey == owner ==>
              p.end <= start || end <= p.start
  {
    if locks != [] {
      var n := |locks| - 1;
      var init := locks[..n];
      PrefixCanonical(locks, n);
      SubtractCanonical(init, owner, start, end);
      var a, c := Subtract(init, owner, start, end), Pieces(locks[n], owner, start, end);
      assert WellFormed(locks[n]);
      PiecesShape(locks[n], owner, start, end);
      forall p, q | p in a && q in c ensures Apart(p, q) && !Mergeable(p, q) && !Mergeable(q, p) {
        var i := SubtractOrigin(init, owner, start, end, p);
        assert init[i] == locks[i] && WellFormed(locks[i]) && Apart(locks[i], locks[n]);
        assert !Mergeable(locks[i], locks[n]) && !Mergeable(locks[n], locks[i]);
        PiecesShape(locks[i], owner, start, end);
        assert PieceOf(p, locks[i], owner, start, end);
        assert PieceOf(q, locks[n], owner, start, end);
      }
      ConcatCanonical(a, c);
    }
  }

  lemma ConcatCanonical(a: seq<Lock>, c: seq<Lock>)
    requires Canonical(a) && Canonical(c)
    requires forall p, q :: p in a && q in c ==> Apart(p, q) && !Mergeable(p, q) && !Mergeable(q, p)
    ensures Canonical(a + c)
  {
    var s := a + c;
    forall i | 0 <= i < |s| ensures WellFormed(s[i]) { assert s[i] in a || s[i] in c; }
    forall i, j | 0 <= i < j < |s| ensures Apart(s[i], s[j]) {
      if j < |a| {
        assert Apart(a[i], a[j]);
      } else if i < |a| {
        assert s[i] in a && s[j] in c;
      } else {
        assert Apart(c[i - |a|], c[j - |a|]);
      }
    }
    forall i, j | 0 <= i < |s| && 0 <= j < |s| ensures !Mergeable(s[i], s[j]) {
      assert s[i] in (if i < |a| then a else c) && s[j] in (if j < |a| then a else c);
      if i < |a| && j < |a| {
        assert !Mergeable(a[i], a[j]);
      } else if i >= |a| && j >= |a| {
        assert !Mergeable(c[i - |a|], c[j - |a|]);
      }
    }
  }

  // [start, end) lies strictly inside the range, so giving it up splits it.
  predicate Splits(lock: Lock, owner: string, start: nat, end: nat)
  {
    lock.ownerKey == owner && lock.start < start && end < lock.end
  }

  // At most one range is split, so an unlock adds at most one.
  lemma {:induction false} SubtractLength(locks: seq<Lock>, owner: string, start: nat, end: nat)
    requires Canonical(locks) && start < end
    ensures |Subtract(locks, owner, start, end)| <= |locks| + 1
    ensures |Subtract(locks, owner, start, end)| > |locks| ==>
              exists i :: 0 <= i < |locks| && Splits(locks[i], owner, start, end)
  {
    if locks != [] {
      var n := |locks| - 1;
      var init := locks[..n];
      PrefixCanonical(locks, n);
      SubtractLength(init, owner, start, end);
      if |Subtract(init, owner, start, end)| > n {
        var i :| 0 <= i < |init| && Splits(init[i], owner, start, end);
        assert Splits(locks[i], owner, start, end) && Apart(locks[i], locks[n]) && WellFormed(locks[n]);
        assert |Pieces(locks[n], owner, start, end)| <= 1;
      } else if |Pieces(locks[n], owner, start, end)| > 1 {
        assert Splits(locks[n], owner, start, end);
      }
    }
  }

  // ---------- when an unlock leaves the list sorted ----------

  // The owner's range reaches past the end of what it gives up, so the piece
  // that survives starts at `end`, later than the range did.
  predicate Trimmed(lock: Lock, owner: string, start: nat, end: nat)
  {
    lock.ownerKey == owner && Overlaps(lock, start, end) && end < lock.end
  }

  predicate NothingBehindTrim(locks: seq<Lock>, owner: string, start: nat, end: nat)
  {
    forall i, j :: 0 <= i < j < |locks| && Trimmed(locks[i], owner, start, end) ==> end <= locks[j].start
  }

  lemma SortedParts(a: seq<Lock>, c: seq<Lock>)
    requires SortedByStart(a + c)
    ensures SortedByStart(a) && SortedByStart(c)
    ensures forall p, q :: p in a && q in c ==> p.start <= q.start
  {
    var s := a + c;
    forall i, j | 0 <= i < j < |a| ensures a[i].start <= a[j].start { assert s[i].start <= s[j].start; }
    forall i, j | 0 <= i < j < |c| ensures c[i].start <= c[j].start {
      assert s[i + |a|].start <= s[j + |a|].start;
    }
    forall p, q | p in a && q in c ensures p.start <= q.start {
      var i :| 0 <= i < |a| && a[i] == p;
      var j :| 0 <= j < |c| && c[j] == q;
      assert s[i].start <= s[j + |a|].start;
    }
  }

  lemma SortedConcat(a: seq<Lock>, c: seq<Lock>)
    requires SortedByStart(a) && SortedByStart(c)
    requires forall p, q :: p in a && q in c ==> p.start <= q.start
    ensures SortedByStart(a + c)
  {
    var s := a + c;
    forall i, j | 0 <= i < j < |s| ensures s[i].start <= s[j].start {
      assert s[i] in (if i < |a| then a else c) && s[j] in (if j < |a| then a else c);
    }
  }

  lemma BehindTrim(locks: seq<Lock>, i: nat, owner: string, start: nat, end: nat)
    requires Canonical(locks) && SortedByStart(locks) && start < end
    requires i < |locks| - 1 && Trimmed(locks[i], owner, start, end)
    requires SortedByStart(Subtract(locks, owner, start, end))
    ensures end <= locks[|locks| - 1].start
  {
    var n := |locks| - 1;
    var init := locks[..n];
    var a, c := Subtract(init, owner, start, end), Pieces(locks[n], owner, start, end);
    SortedParts(a, c);
    assert WellFormed(locks[i]) && WellFormed(locks[n]) && Apart(locks[i], locks[n]);
    assert locks[i].start <= locks[n].start;
    var p := locks[i].(start := end);
    assert p in Pieces(init[i], owner, start, end);
    PieceKept(init, owner, start, end, i, p);
    assert locks[n].ownerKey == owner ==> end <= locks[n].start;
    assert locks[n].ownerKey != owner ==> locks[n] in c;
  }

  lemma {:induction false} SortedThenNothingBehind(locks: seq<Lock>, owner: string, start: nat, end: nat)
    requires Canonical(locks) && SortedByStart(locks) && start < end
    requires SortedByStart(Subtract(locks, owner, start, end))
    ensures NothingBehindTrim(locks, owner, start, end)
  {
    if locks != [] {
      var n := |locks| - 1;
      var init := locks[..n];
      PrefixCanonical(locks, n);
      SortedParts(Subtract(init, owner, start, end), Pieces(locks[n], owner, start, end));
      SortedThenNothingBehind(init, owner, start, end);
      forall i, j | 0 <= i < j < |locks| && Trimmed(locks[i], owner, start, end) ensures end <= locks[j].start {
        if j == n {
          BehindTrim(locks, i, owner, start, end);
        } else {
          assert Trimmed(init[i], owner, start, end) && init[j] == locks[j];
        }
      }
    }
  }

  lemma {:induction false} NothingBehindThenSorted(locks: seq<Lock>, owner: string, start: nat, end: nat)
    requires Canonical(locks) && SortedByStart(locks) && start < end
    requires NothingBehindTrim(locks, owner, start, end)
    ensures SortedByStart(Subtract(locks, owner, start, end))
  {
    if locks != [] {
      var n := |locks| - 1;
      var init := locks[..n];
      PrefixCanonical(locks, n);
      forall i, j | 0 <= i < j < |init| && Trimmed(init[i], owner, start, end) ensures end <= init[j].start {
        assert Trimmed(locks[i], owner, start, end);
      }
      NothingBehindThenSorted(init, owner, start, end);
      var a, c := Subtract(init, owner, start, end), Pieces(locks[n], owner, start, end);
      forall p, q | p in a && q in c ensures p.start <= q.start {
        var i := SubtractOrigin(init, owner, start, end, p);
        PieceOrder(locks, i, n, owner, start, end, p, q);
      }
      assert WellFormed(locks[n]);
      PiecesShape(locks[n], owner, start, end);
      SortedConcat(a, c);
    }
  }

  lemma PieceOrder(locks: seq<Lock>, i: nat, j: nat, owner: string, start: nat, end: nat, p: Lock, q: Lock)
    requires Canonical(locks) && SortedByStart(locks) && start < end
    requires NothingBehindTrim(locks, owner, start, end)
    requires i < j < |locks|
    requires p in Pieces(locks[i], owner, start, end) && q in Pieces(locks[j], owner, start, end)
    ensures p.start <= q.start
  {
    assert WellFormed(locks[i]) && WellFormed(locks[j]) && locks[i].start <= locks[j].start;
    PiecesShape(locks[i], owner, start, end);
    PiecesShape(locks[j], owner, start, end);
    assert PieceOf(p, locks[i], owner, start, end) && PieceOf(q, locks[j], owner, start, end);
    assert p.start != locks[i].start ==> Trimmed(locks[i], owner, start, end);
  }

  // An unlock of a sorted list leaves it sorted if and only if no range that
  // starts before `end` is listed behind the one it trims.
  lemma UnlockSortedIff(locks: seq<Lock>, owner: string, start: nat, end: nat)
    requires Canonical(locks) && SortedByStart(locks) && start < end
    ensures SortedByStart(Subtract(locks, owner, start, end)) <==> NothingBehindTrim(locks, owner, start, end)
  {
    if SortedByStart(Subtract(locks, owner, start, end)) {
      SortedThenNothingBehind(locks, owner, start, end);
    }
    if NothingBehindTrim(locks, owner, start, end) {
      NothingBehindThenSorted(locks, owner, start, end);
    }
  }

  // The smallest way it happens: two readers, one of whom unlocks the middle.
  lemma UnlockMayUnsort()
    ensures var a := Lock(0, 100, RDLCK, "1:a", 1, "a", 1, 1);
            var b := Lock(10, 20, RDLCK, "2:b", 2, "b", 2, 1);
            && Canonical([a, b]) && SortedByStart([a, b])
            && Subtract([a, b], "1:a", 30, 40) == [a.(end := 30), a.(start := 40), b]
            && !SortedByStart(Subtract([a, b], "1:a", 30, 40))
  {
    var a := Lock(0, 100, RDLCK, "1:a", 1, "a", 1, 1);
    var b := Lock(10, 20, RDLCK, "2:b", 2, "b", 2, 1);
    assert "1:a"[0] != "2:b"[0];
    assert [a, b][..1] == [a] && [a][..0] == [];
    assert Subtract([a], "1:a", 30, 40) == [a.(end := 30), a.(start := 40)];
    var s := Subtract([a, b], "1:a", 30, 40);
    assert s == [a.(end := 30), a.(start := 40), b];
    assert s[1].start > s[2].start;
  }
}
