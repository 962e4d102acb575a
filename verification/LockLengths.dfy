// How long a file's list of locks gets: exactly, from the bytes, and when that is
// past the limit, which is looked at only before a grant.
module LockLengths {
  import opened Wrappers
  import opened ByteRanges
  import opened Coalescing
  import opened LockTables

  // ---------- a canonical list counts runs of bytes ----------

  // An owner's byte that is not held just as the byte before it.
  predicate Begins(locks: seq<Lock>, o: string, b: nat)
  {
    At(locks, o, b).Some? && (b == 0 || At(locks, o, b - 1) != At(locks, o, b))
  }

  function Beginnings(locks: seq<Lock>): set<(string, nat)>
  {
    set i: nat | i < |locks| :: (locks[i].ownerKey, locks[i].start)
  }

  lemma BeginsAtRange(locks: seq<Lock>, i: nat)
    requires Canonical(locks) && i < |locks|
    ensures Begins(locks, locks[i].ownerKey, locks[i].start)
  {
    var o, b := locks[i].ownerKey, locks[i].start;
    assert WellFormed(locks[i]);
    AtCovered(locks, i, o, b);
    if b > 0 && At(locks, o, b - 1).Some? {
      var j := AtWitness(locks, o, b - 1);
      AtCovered(locks, j, o, b - 1);
      if j < i { assert Apart(locks[j], locks[i]); } else if i < j { assert Apart(locks[i], locks[j]); }
      assert !Mergeable(locks[j], locks[i]);
    }
  }

  lemma RangeWhereBegins(locks: seq<Lock>, o: string, b: nat)
    requires Canonical(locks) && Begins(locks, o, b)
    ensures (o, b) in Beginnings(locks)
  {
    var i := AtWitness(locks, o, b);
    if locks[i].start < b {
      AtCovered(locks, i, o, b);
      AtCovered(locks, i, o, b - 1);
    }
  }

  lemma StartsDiffer(locks: seq<Lock>, i: nat, j: nat)
    requires Canonical(locks) && i < j < |locks|
    ensures (locks[i].ownerKey, locks[i].start) != (locks[j].ownerKey, locks[j].start)
  {
    assert Apart(locks[i], locks[j]) && WellFormed(locks[i]) && WellFormed(locks[j]);
  }

  lemma {:induction false} BeginningsCount(locks: seq<Lock>)
    requires Canonical(locks)
    ensures |Beginnings(locks)| == |locks|
  {
    if locks != [] {
      var n := |locks| - 1;
      var init, x := locks[..n], (locks[n].ownerKey, locks[n].start);
      PrefixCanonical(locks, n);
      BeginningsCount(init);
      forall i: nat | i < n ensures (init[i].ownerKey, init[i].start) != x { StartsDiffer(locks, i, n); }
      assert Beginnings(locks) == Beginnings(init) + {x};
    }
  }

  // So a canonical list is as long as the bytes have runs, whatever its order.
  lemma RunsAreRanges(locks: seq<Lock>)
    requires Canonical(locks)
    ensures |Beginnings(locks)| == |locks|
    ensures forall o, b: nat :: (o, b) in Beginnings(locks) <==> Begins(locks, o, b)
  {
    BeginningsCount(locks);
    forall o, b: nat ensures (o, b) in Beginnings(locks) <==> Begins(locks, o, b) {
      if (o, b) in Beginnings(locks) {
        var i: nat :| i < |locks| && (locks[i].ownerKey, locks[i].start) == (o, b);
        BeginsAtRange(locks, i);
      } else if Begins(locks, o, b) {
        RangeWhereBegins(locks, o, b);
      }
    }
  }

  // ---------- the length after a request ----------

  // The owner's ranges that start in [start, end], the end included.
  function StartingIn(locks: seq<Lock>, owner: string, start: nat, end: nat): set<(string, nat)>
  {
    set p | p in Beginnings(locks) && p.0 == owner && start <= p.1 <= end
  }

  // The bytes of [start, end) become one owner's, or nobody's, and no others change.
  ghost predicate Overwritten(locks: seq<Lock>, next: seq<Lock>, owner: string, start: nat, end: nat,
      held: Option<Grant>)
  {
    forall o, b: nat :: At(next, o, b) == if o == owner && start <= b < end then held else At(locks, o, b)
  }

  // A range of its own for what is held now, unless it continues the one before it.
  function OwnRange(locks: seq<Lock>, owner: string, start: nat, held: Option<Grant>): set<(string, nat)>
  {
    if held.Some? && (start == 0 || At(locks, owner, start - 1) != held) then {(owner, start)} else {}
  }

  // And one for what is held behind, unless that continues it.
  function RangeBehind(locks: seq<Lock>, owner: string, end: nat, held: Option<Grant>): set<(string, nat)>
  {
    if At(locks, owner, end).Some? && At(locks, owner, end) != held then {(owner, end)} else {}
  }

  lemma BeginsAfter(locks: seq<Lock>, next: seq<Lock>, owner: string, start: nat, end: nat, held: Option<Grant>,
      o: string, b: nat)
    requires start < end && Overwritten(locks, next, owner, start, end, held)
    ensures Begins(next, o, b) <==>
            (Begins(locks, o, b) && !(o == owner && start <= b <= end)) ||
            (o, b) in OwnRange(locks, owner, start, held) + RangeBehind(locks, owner, end, held)
  {
  }

  lemma LengthAfter(locks: seq<Lock>, next: seq<Lock>, owner: string, start: nat, end: nat, held: Option<Grant>)
    requires Canonical(locks) && Canonical(next) && start < end && Overwritten(locks, next, owner, start, end, held)
    ensures |next| == |locks| - |StartingIn(locks, owner, start, end)|
                      + |OwnRange(locks, owner, start, held)| + |RangeBehind(locks, owner, end, held)|
  {
    hide At, Canonical, Begins, Overwritten, OwnRange, RangeBehind;
    RunsAreRanges(locks);
    RunsAreRanges(next);
    var gone, own := StartingIn(locks, owner, start, end), OwnRange(locks, owner, start, held);
    var behind := RangeBehind(locks, owner, end, held);
    forall o, b: nat ensures (o, b) in Beginnings(next) <==> (o, b) in Beginnings(locks) - gone + (own + behind) {
      BeginsAfter(locks, next, owner, start, end, held, o, b);
    }
    SameSet(Beginnings(next), Beginnings(locks) - gone + (own + behind));
    NewRanges(locks, owner, start, end, held);
    assert gone <= Beginnings(locks);
    assert |Beginnings(locks) - gone| == |Beginnings(locks)| - |gone|;
    assert |own + behind| == |own| + |behind|;
  }

  lemma SameSet(a: set<(string, nat)>, b: set<(string, nat)>)
    requires forall o, k: nat :: (o, k) in a <==> (o, k) in b
    ensures a == b
  {
    forall p ensures p in a <==> p in b { assert p == (p.0, p.1); }
  }

  lemma NewRanges(locks: seq<Lock>, owner: string, start: nat, end: nat, held: Option<Grant>)
    requires start < end
    ensures var gone, own, behind :=
              StartingIn(locks, owner, start, end), OwnRange(locks, owner, start, held),
              RangeBehind(locks, owner, end, held);
            own * behind == {} && (Beginnings(locks) - gone) * (own + behind) == {}
  {
  }

  // ---------- unlocks ----------

  lemma UnlockLength(locks: seq<Lock>, owner: string, start: nat, end: nat)
    requires Canonical(locks) && start < end
    ensures |Subtract(locks, owner, start, end)| ==
            |locks| - |StartingIn(locks, owner, start, end)| + if At(locks, owner, end).Some? then 1 else 0
  {
    hide Subtract;
    var next := Subtract(locks, owner, start, end);
    SubtractCanonical(locks, owner, start, end);
    forall o, b: nat ensures At(next, o, b) == if o == owner && start <= b < end then None else At(locks, o, b) {
      SubtractAt(locks, owner, start, end, o, b);
    }
    LengthAfter(locks, next, owner, start, end, None);
  }

  // Nothing of the owner's starts in a stretch and its end is held exactly when one
  // range reaches over the whole of it.
  lemma ReachesOver(locks: seq<Lock>, owner: string, start: nat, end: nat)
    requires Canonical(locks) && start < end
    ensures StartingIn(locks, owner, start, end) == {} && At(locks, owner, end).Some? <==>
            exists i :: 0 <= i < |locks| && Splits(locks[i], owner, start, end)
    ensures forall i :: 0 <= i < |locks| && Splits(locks[i], owner, start, end) ==>
            At(locks, owner, end) == Some(GrantOf(locks[i]))
  {
    if StartingIn(locks, owner, start, end) == {} && At(locks, owner, end).Some? {
      var i := AtWitness(locks, owner, end);
      var p := (locks[i].ownerKey, locks[i].start);
      assert p in Beginnings(locks);
      assert p !in StartingIn(locks, owner, start, end);
      assert Splits(locks[i], owner, start, end);
    }
    forall i: nat | i < |locks| && Splits(locks[i], owner, start, end)
      ensures StartingIn(locks, owner, start, end) == {} && At(locks, owner, end) == Some(GrantOf(locks[i]))
    {
      AtCovered(locks, i, owner, end);
      NothingStartsInside(locks, i, owner, start, end);
    }
  }

  lemma NothingStartsInside(locks: seq<Lock>, i: nat, owner: string, start: nat, end: nat)
    requires Canonical(locks) && i < |locks| && Splits(locks[i], owner, start, end)
    ensures StartingIn(locks, owner, start, end) == {}
  {
    forall j: nat | j < |locks| ensures !(locks[j].ownerKey == owner && start <= locks[j].start <= end) {
      assert WellFormed(locks[j]);
      if j < i { assert Apart(locks[j], locks[i]); } else if i < j { assert Apart(locks[i], locks[j]); }
    }
  }

  // An unlock lengthens a list, and then by one, exactly when it lies strictly
  // inside a range of its owner's.
  lemma UnlockGrowsIff(locks: seq<Lock>, owner: string, start: nat, end: nat)
    requires Canonical(locks) && start < end
    ensures |Subtract(locks, owner, start, end)| > |locks| <==>
            exists i :: 0 <= i < |locks| && Splits(locks[i], owner, start, end)
    ensures |Subtract(locks, owner, start, end)| <= |locks| + 1
  {
    hide Subtract, At, Splits, StartingIn;
    UnlockLength(locks, owner, start, end);
    ReachesOver(locks, owner, start, end);
    EmptyIffZero(StartingIn(locks, owner, start, end));
  }

  lemma EmptyIffZero(s: set<(string, nat)>)
    ensures s == {} <==> |s| == 0
  {
  }

  // ---------- grants ----------

  lemma GrantLength(locks: seq<Lock>, granted: Lock)
    requires Canonical(locks) && WellFormed(granted)
    ensures var held := Some(GrantOf(granted));
            |Replaced(locks, granted)| ==
            |locks| - |StartingIn(locks, granted.ownerKey, granted.start, granted.end)|
            + |OwnRange(locks, granted.ownerKey, granted.start, held)|
            + |RangeBehind(locks, granted.ownerKey, granted.end, held)|
  {
    hide Replaced, At;
    ReplacedSpec(locks, granted);
    LengthAfter(locks, Replaced(locks, granted), granted.ownerKey, granted.start, granted.end, Some(GrantOf(granted)));
  }

  // A grant lengthens a list by two exactly when it lies strictly inside a range
  // its owner holds otherwise.
  lemma GrantGrowsByTwoIff(locks: seq<Lock>, granted: Lock)
    requires Canonical(locks) && WellFormed(granted)
    ensures |Replaced(locks, granted)| == |locks| + 2 <==>
            exists i :: 0 <= i < |locks| && Splits(locks[i], granted.ownerKey, granted.start, granted.end)
                        && GrantOf(locks[i]) != GrantOf(granted)
    ensures |Replaced(locks, granted)| <= |locks| + 2
  {
    hide Replaced;
    var o, start, end := granted.ownerKey, granted.start, granted.end;
    GrantLength(locks, granted);
    ReachesOver(locks, o, start, end);
    EmptyIffZero(StartingIn(locks, o, start, end));
    forall i: nat | i < |locks| && Splits(locks[i], o, start, end)
      ensures start > 0 && At(locks, o, start - 1) == Some(GrantOf(locks[i]))
    {
      AtCovered(locks, i, o, start - 1);
    }
  }

  // ---------- the limit ----------

  // One range takes a list within the limit past it.
  predicate Overruns(locks: seq<Lock>, holder: nat, request: Request, max: nat)
  {
    && RangeOf(request.start, request.length).Ok?
    && var end := RangeOf(request.start, request.length).value.1;
    exists i :: 0 <= i < |locks| && Splits(locks[i], KeyOf(request), request.start, end) &&
                if request.typ == UNLCK then |locks| == max
                else |locks| + 1 == max && GrantOf(locks[i]) != GrantOf(Granted(holder, request, end))
  }

  // A request that succeeds takes a list within the limit past it exactly when it
  // lies strictly inside one of its owner's ranges, and is an unlock of a full list
  // or a lock of another kind with one place left.
  lemma PastLimitIff(locks: seq<Lock>, holder: nat, request: Request, max: nat)
    requires Canonical(locks) && Safe(locks) && request.start < EOF_END && |locks| <= max
    requires Locked(locks, holder, request, max).0 == Ok(SUCCESS)
    ensures |Locked(locks, holder, request, max).1| > max <==> Overruns(locks, holder, request, max)
  {
    hide Subtract, Replaced, Canonical, Safe, Blocked, OwnerKey, Splits, GrantOf;
    var end := RangeOf(request.start, request.length).value.1;
    if request.typ == UNLCK {
      UnlockGrowsIff(locks, KeyOf(request), request.start, end);
    } else {
      GrantGrowsByTwoIff(locks, Granted(holder, request, end));
    }
  }

  // ---------- no limit holds against unlocks ----------

  predicate Whole(lock: Lock) { lock.start == 0 && lock.end == EOF_END }

  // Every other byte of a file, so many of them, and then all the rest.
  function Teeth(lock: Lock, n: nat): seq<Lock>
  {
    if n == 0 then [] else Teeth(lock, n - 1) + [lock.(start := 2 * n - 2, end := 2 * n - 1)]
  }

  function Comb(lock: Lock, n: nat): seq<Lock> { Teeth(lock, n) + [lock.(start := 2 * n)] }

  lemma {:induction false} TeethApart(lock: Lock, n: nat, start: nat, end: nat)
    requires 2 * n <= start
    ensures |Teeth(lock, n)| == n && Subtract(Teeth(lock, n), lock.ownerKey, start, end) == Teeth(lock, n)
  {
    if n > 0 { TeethApart(lock, n - 1, start, end); }
  }

  lemma SubtractSnoc(locks: seq<Lock>, last: Lock, owner: string, start: nat, end: nat)
    ensures Subtract(locks + [last], owner, start, end) == Subtract(locks, owner, start, end) +
            Pieces(last, owner, start, end)
  {
    assert (locks + [last])[..|locks|] == locks;
  }

  lemma CombStep(lock: Lock, n: nat)
    requires Whole(lock) && 2 * n + 2 < EOF_END
    ensures Subtract(Comb(lock, n), lock.ownerKey, 2 * n + 1, 2 * n + 2) == Comb(lock, n + 1)
  {
    hide Teeth, Subtract, Pieces;
    var last, tooth, rest := lock.(start := 2 * n), lock.(start := 2 * n, end := 2 * n + 1), lock.(start := 2 * n + 2);
    TeethApart(lock, n, 2 * n + 1, 2 * n + 2);
    SubtractSnoc(Teeth(lock, n), last, lock.ownerKey, 2 * n + 1, 2 * n + 2);
    LastTorn(lock, n);
    MoreTeeth(lock, n);
    assert Teeth(lock, n) + [tooth, rest] == Teeth(lock, n) + [tooth] + [rest];
  }

  lemma LastTorn(lock: Lock, n: nat)
    requires Whole(lock) && 2 * n + 2 < EOF_END
    ensures Pieces(lock.(start := 2 * n), lock.ownerKey, 2 * n + 1, 2 * n + 2)
            == [lock.(start := 2 * n, end := 2 * n + 1), lock.(start := 2 * n + 2)]
  {
  }

  lemma MoreTeeth(lock: Lock, n: nat)
    ensures Teeth(lock, n + 1) == Teeth(lock, n) + [lock.(start := 2 * n, end := 2 * n + 1)]
  {
  }

  const FILE: string := "/f"

  function LockAll(): Request { Request(FILE, 0, WRLCK, 0, 0, 0, "") }

  function UnlockByte(b: nat): Request { Request(FILE, 0, UNLCK, b, 1, 0, "") }

  // One lock of a whole file and so many unlocks of one byte leave one range more
  // than there were unlocks, under any limit that grants the lock.
  lemma {:induction false} UnlocksPassAnyLimit(max: nat, n: nat) returns (states: seq<Files>, ops: seq<Op>)
    requires max >= 1 && 2 * n < EOF_END
    ensures Run(states, max, ops) && |ops| == n + 1
    ensures states[|ops|] == map[FILE := Comb(Granted(0, LockAll(), EOF_END), n)] && |states[|ops|][FILE]| == n + 1
  {
    hide Comb, OwnerKey, Locked;
    var lock := Granted(0, LockAll(), EOF_END);
    CombLength(lock, n);
    if n == 0 {
      LockedWhole(max);
      ops := [Locking(0, LockAll())];
      states := [map[], map[FILE := Comb(lock, 0)]];
    } else {
      var before, front := UnlocksPassAnyLimit(max, n - 1);
      var op, next := Locking(0, UnlockByte(2 * n - 1)), map[FILE := Comb(lock, n)];
      UnlockOneByte(lock, max, n);
      ops, states := front + [op], before + [next];
      RunSnoc(before, max, front, op, next);
    }
  }

  lemma UnlockOneByte(lock: Lock, max: nat, n: nat)
    requires n > 0 && 2 * n < EOF_END && lock == Granted(0, LockAll(), EOF_END)
    ensures var op := Locking(0, UnlockByte(2 * n - 1));
            Wire(op) && Step(map[FILE := Comb(lock, n - 1)], max, op, map[FILE := Comb(lock, n)])
  {
    hide Comb, Subtract, OwnerKey;
    CombStep(lock, n - 1);
    CombLength(lock, n);
  }

  lemma CombLength(lock: Lock, n: nat)
    ensures |Comb(lock, n)| == n + 1
  {
    TeethApart(lock, n, 2 * n, 2 * n);
  }

  lemma LockedWhole(max: nat)
    requires max >= 1
    ensures Locked([], 0, LockAll(), max) == (Ok(SUCCESS), Comb(Granted(0, LockAll(), EOF_END), 0))
  {
    hide OwnerKey;
    var lock := Granted(0, LockAll(), EOF_END);
    assert Sort([lock]) == [lock] by { assert [lock][..0] == [] && Sort([]) == []; }
    assert Merged([lock]) == [lock] by { assert [lock][..0] == [] && Merged([]) == []; }
    assert Replaced([], lock) == [lock] by { assert [] + [lock] == [lock]; }
    assert [] + [lock] == [lock];
  }

  lemma RunSnoc(states: seq<Files>, max: nat, ops: seq<Op>, op: Op, next: Files)
    requires Run(states, max, ops) && Wire(op) && Step(states[|ops|], max, op, next)
    ensures Run(states + [next], max, ops + [op])
  {
    hide Step, Wire;
    var s, o := states + [next], ops + [op];
    forall k | 0 <= k < |o| ensures Wire(o[k]) && Step(s[k], max, o[k], s[k + 1]) {
      if k < |ops| { assert Wire(ops[k]) && Step(states[k], max, ops[k], states[k + 1]); }
    }
  }
}
