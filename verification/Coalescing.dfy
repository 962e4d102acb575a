// Granting a range: sort by start, join what touches, and the theorem that
// the new list means the old one with exactly the granted bytes rewritten.
module Coalescing {
  import opened Wrappers
  import opened ByteRanges

  // ---------- the stable sort ----------

  // After every range that starts no later.
  function Insert(x: Lock, sorted: seq<Lock>): seq<Lock>
  {
    if sorted == [] then [x]
    else if x.start < sorted[|sorted| - 1].start then
      Insert(x, sorted[..|sorted| - 1]) + [sorted[|sorted| - 1]]
    else sorted + [x]
  }

  function Sort(locks: seq<Lock>): seq<Lock>
  {
    if locks == [] then [] else Insert(locks[|locks| - 1], Sort(locks[..|locks| - 1]))
  }

  function StartingAt(locks: seq<Lock>, start: nat): seq<Lock>
  {
    if locks == [] then []
    else StartingAt(locks[..|locks| - 1], start) +
         (if locks[|locks| - 1].start == start then [locks[|locks| - 1]] else [])
  }

  lemma {:induction false} InsertSorts(x: Lock, sorted: seq<Lock>)
    requires SortedByStart(sorted)
    ensures SortedByStart(Insert(x, sorted))
    ensures forall m :: m in Insert(x, sorted) <==> m in sorted || m == x
  {
    if sorted != [] && x.start < sorted[|sorted| - 1].start {
      InsertSorts(x, sorted[..|sorted| - 1]);
      var inner := Insert(x, sorted[..|sorted| - 1]);
      forall i | 0 <= i < |inner| ensures inner[i].start <= sorted[|sorted| - 1].start {
        assert inner[i] in inner;
      }
    }
  }

  lemma {:induction false} InsertMultiset(x: Lock, sorted: seq<Lock>)
    ensures multiset(Insert(x, sorted)) == multiset(sorted) + multiset{x}
  {
    if sorted != [] && x.start < sorted[|sorted| - 1].start {
      InsertMultiset(x, sorted[..|sorted| - 1]);
      assert sorted == sorted[..|sorted| - 1] + [sorted[|sorted| - 1]];
    }
  }

  lemma StartingAtAppend(s: seq<Lock>, x: Lock, k: nat)
    ensures StartingAt(s + [x], k) == StartingAt(s, k) + (if x.start == k then [x] else [])
  {
    assert (s + [x])[..|s|] == s;
  }

  lemma {:induction false} InsertStable(x: Lock, sorted: seq<Lock>, k: nat)
    requires SortedByStart(sorted)
    ensures StartingAt(Insert(x, sorted), k) == StartingAt(sorted + [x], k)
  {
    if sorted != [] && x.start < sorted[|sorted| - 1].start {
      var init, last := sorted[..|sorted| - 1], sorted[|sorted| - 1];
      InsertStable(x, init, k);
      StartingAtAppend(Insert(x, init), last, k);
      StartingAtAppend(init, x, k);
      StartingAtAppend(sorted, x, k);
    }
  }

  lemma {:induction false} SortSorts(locks: seq<Lock>)
    ensures SortedByStart(Sort(locks))
  {
    if locks != [] {
      SortSorts(locks[..|locks| - 1]);
      InsertSorts(locks[|locks| - 1], Sort(locks[..|locks| - 1]));
    }
  }

  lemma {:induction false} SortMultiset(locks: seq<Lock>)
    ensures multiset(Sort(locks)) == multiset(locks)
  {
    hide Insert;
    if locks != [] {
      var init, last := locks[..|locks| - 1], locks[|locks| - 1];
      SortMultiset(init);
      InsertMultiset(last, Sort(init));
      assert locks == init + [last];
    }
  }

  // The sort keeps the order of ranges that start together.
  lemma {:induction false} SortStable(locks: seq<Lock>, k: nat)
    ensures StartingAt(Sort(locks), k) == StartingAt(locks, k)
  {
    if locks != [] {
      var init, last := locks[..|locks| - 1], locks[|locks| - 1];
      SortStable(init, k);
      SortSorts(init);
      InsertStable(last, Sort(init), k);
      StartingAtAppend(Sort(init), last, k);
    }
  }

  lemma SortSameRanges(locks: seq<Lock>)
    ensures SortedByStart(Sort(locks)) && |Sort(locks)| == |locks|
    ensures forall l :: l in Sort(locks) <==> l in locks
  {
    SortSorts(locks);
    SortMultiset(locks);
    forall l ensures l in Sort(locks) <==> l in locks {
      assert l in multiset(Sort(locks)) <==> l in multiset(locks);
    }
    assert |Sort(locks)| == |multiset(Sort(locks))| == |multiset(locks)| == |locks|;
  }

  lemma PrefixDisjoint(locks: seq<Lock>, n: nat)
    requires Disjoint(locks) && n < |locks|
    ensures Disjoint(locks[..n])
    ensures forall m :: m in locks[..n] ==> Apart(m, locks[n])
  {
    forall i, j | 0 <= i < j < n ensures Apart(locks[..n][i], locks[..n][j]) { assert Apart(locks[i], locks[j]); }
    forall m | m in locks[..n] ensures Apart(m, locks[n]) {
      var i :| 0 <= i < n && locks[..n][i] == m;
      assert Apart(locks[i], locks[n]);
    }
  }

  lemma {:induction false} SortDisjoint(locks: seq<Lock>)
    requires Disjoint(locks)
    ensures Disjoint(Sort(locks))
  {
    if locks != [] {
      var n := |locks| - 1;
      PrefixDisjoint(locks, n);
      SortDisjoint(locks[..n]);
      SortSameRanges(locks[..n]);
      InsertDisjoint(locks[n], Sort(locks[..n]));
    }
  }

  lemma {:induction false} InsertDisjoint(x: Lock, s: seq<Lock>)
    requires Disjoint(s) && SortedByStart(s) && forall m :: m in s ==> Apart(m, x)
    ensures Disjoint(Insert(x, s))
  {
    if s != [] && x.start < s[|s| - 1].start {
      var n := |s| - 1;
      PrefixDisjoint(s, n);
      InsertDisjoint(x, s[..n]);
      InsertSorts(x, s[..n]);
      assert Apart(s[n], x);
      AppendDisjoint(Insert(x, s[..n]), s[n]);
    } else {
      AppendDisjoint(s, x);
    }
  }

  lemma AppendDisjoint(s: seq<Lock>, x: Lock)
    requires Disjoint(s) && forall m :: m in s ==> Apart(m, x)
    ensures Disjoint(s + [x])
  {
    forall i, j | 0 <= i < j < |s| + 1 ensures Apart((s + [x])[i], (s + [x])[j]) {
      if j < |s| { assert Apart(s[i], s[j]); } else { assert s[i] in s; }
    }
  }

  // ---------- joining ----------

  // Where the group's latest range is, or -1.
  function LastOf(merged: seq<Lock>, groupKey: string): (at: int)
    ensures -1 <= at < |merged|
    ensures at >= 0 ==> GroupKey(merged[at]) == groupKey
    ensures forall j :: at < j < |merged| ==> GroupKey(merged[j]) != groupKey
  {
    if merged == [] then -1
    else if GroupKey(merged[|merged| - 1]) == groupKey then |merged| - 1
    else LastOf(merged[..|merged| - 1], groupKey)
  }

  predicate Joins(merged: seq<Lock>, lock: Lock)
  {
    var i := LastOf(merged, GroupKey(lock));
    i >= 0 && merged[i].typ == lock.typ && merged[i].end >= lock.start
  }

  function Extended(last: Lock, lock: Lock): Lock
  {
    last.(end := if last.end > lock.end then last.end else lock.end)
  }

  function Merge(merged: seq<Lock>, lock: Lock): seq<Lock>
  {
    if Joins(merged, lock) then
      var i := LastOf(merged, GroupKey(lock));
      merged[i := Extended(merged[i], lock)]
    else merged + [lock]
  }

  function Merged(sorted: seq<Lock>): seq<Lock>
  {
    if sorted == [] then [] else Merge(Merged(sorted[..|sorted| - 1]), sorted[|sorted| - 1])
  }

  function Coalesced(locks: seq<Lock>): seq<Lock> { Merged(Sort(locks)) }

  // The map holds each group's latest range, and nothing else.
  ghost predicate Tracks(lastOf: map<string, nat>, merged: seq<Lock>)
  {
    && (forall k :: k in lastOf ==> lastOf[k] == LastOf(merged, k))
    && (forall k :: LastOf(merged, k) >= 0 ==> k in lastOf)
  }

  lemma TracksExtended(lastOf: map<string, nat>, merged: seq<Lock>, at: nat, last: Lock)
    requires Tracks(lastOf, merged) && at < |merged| && GroupKey(last) == GroupKey(merged[at])
    ensures Tracks(lastOf, merged[at := last])
  {
    hide GroupKey;
    forall k ensures LastOf(merged[at := last], k) == LastOf(merged, k) {
      SameKeysSameLast(merged, merged[at := last], k);
    }
  }

  lemma SameKeysSameLast(a: seq<Lock>, b: seq<Lock>, k: string)
    requires |a| == |b| && forall i :: 0 <= i < |a| ==> GroupKey(a[i]) == GroupKey(b[i])
    ensures LastOf(a, k) == LastOf(b, k)
  {
    hide GroupKey;
    var i, j := LastOf(a, k), LastOf(b, k);
    assert i >= 0 ==> GroupKey(b[i]) == k;
    assert j >= 0 ==> GroupKey(a[j]) == k;
  }

  lemma TracksAppended(lastOf: map<string, nat>, merged: seq<Lock>, lock: Lock)
    requires Tracks(lastOf, merged)
    ensures Tracks(lastOf[GroupKey(lock) := |merged|], merged + [lock])
  {
    hide GroupKey;
    forall k ensures LastOf(merged + [lock], k) == if GroupKey(lock) == k then |merged| else LastOf(merged, k) {
      assert (merged + [lock])[..|merged|] == merged;
    }
  }

  method Coalesce(locks: seq<Lock>) returns (merged: seq<Lock>)
    ensures merged == Coalesced(locks)
  {
    hide GroupKey, LastOf, Sort, Merged;
    MergedEmpty();
    var sorted := Sort(locks);
    merged := [];
    // Tracked per group, because two owners' ranges interleave in start order.
    var lastOf: map<string, nat> := map[];
    for n := 0 to |sorted|
      invariant merged == Merged(sorted[..n])
      invariant Tracks(lastOf, merged)
    {
      var lock := sorted[n];
      MergedStep(sorted, n);
      var groupKey := GroupKey(lock);
      if groupKey in lastOf {
        var at := lastOf[groupKey];
        var last := merged[at];
        if last.typ == lock.typ && last.end >= lock.start {
          SameGroupKey(last, lock);
          TracksExtended(lastOf, merged, at, Extended(last, lock));
          merged := merged[at := Extended(last, lock)];
          continue;
        }
      }
      TracksAppended(lastOf, merged, lock);
      merged := merged + [lock];
      lastOf := lastOf[groupKey := |merged| - 1];
    }
    assert sorted[..|sorted|] == sorted;
  }

  lemma MergedEmpty()
    ensures Merged([]) == []
    ensures Tracks(map[], [])
  {
  }

  lemma MergedStep(sorted: seq<Lock>, n: nat)
    requires n < |sorted|
    ensures Merged(sorted[..n + 1]) == Merge(Merged(sorted[..n]), sorted[n])
  {
    assert sorted[..n + 1][..n] == sorted[..n];
  }

  lemma SameGroupKey(last: Lock, lock: Lock)
    ensures GroupKey(Extended(last, lock)) == GroupKey(last)
  {
  }

  // The range may follow what has been merged so far: it starts no earlier
  // than anything there and shares no byte with its owner's ranges.
  predicate Follows(merged: seq<Lock>, lock: Lock)
  {
    forall m :: m in merged ==> m.start <= lock.start && Apart(m, lock)
  }

  lemma JoinTouches(merged: seq<Lock>, lock: Lock)
    requires Canonical(merged) && WellFormed(lock) && Follows(merged, lock) && Joins(merged, lock)
    ensures var last := merged[LastOf(merged, GroupKey(lock))];
            Mergeable(last, lock) && Extended(last, lock) == last.(end := lock.end)
  {
    var i := LastOf(merged, GroupKey(lock));
    GroupKeyInjective(merged[i], lock);
    assert WellFormed(merged[i]) && merged[i] in merged;
  }

  lemma JoinCanonical(merged: seq<Lock>, lock: Lock)
    requires Canonical(merged) && SortedByStart(merged) && WellFormed(lock) && Follows(merged, lock)
    requires Joins(merged, lock)
    ensures Canonical(Merge(merged, lock)) && SortedByStart(Merge(merged, lock))
  {
    hide GroupKey;
    var next, i := Merge(merged, lock), LastOf(merged, GroupKey(lock));
    JoinTouches(merged, lock);
    forall j | 0 <= j < |merged|
      ensures WellFormed(merged[j]) && merged[j].start <= lock.start && Apart(merged[j], lock)
    {
      assert merged[j] in merged;
    }
    forall j, k | 0 <= j < k < |next| ensures Apart(next[j], next[k]) {
      assert Apart(merged[j], merged[k]);
    }
    forall j, k | 0 <= j < |next| && 0 <= k < |next| ensures !Mergeable(next[j], next[k]) {
      assert !Mergeable(merged[j], merged[k]);
    }
  }

  lemma AppendCanonical(merged: seq<Lock>, lock: Lock)
    requires Canonical(merged) && SortedByStart(merged) && WellFormed(lock) && Follows(merged, lock)
    requires !Joins(merged, lock)
    ensures Canonical(merged + [lock]) && SortedByStart(merged + [lock])
  {
    hide GroupKey;
    var i := LastOf(merged, GroupKey(lock));
    forall m | m in merged ensures !Mergeable(m, lock) && !Mergeable(lock, m) {
      var j :| 0 <= j < |merged| && merged[j] == m;
      assert WellFormed(merged[j]);
      GroupKeyInjective(m, lock);
      if i >= 0 {
        GroupKeyInjective(merged[i], lock);
        assert merged[i] in merged && WellFormed(merged[i]);
        if j < i { assert Apart(merged[j], merged[i]); }
      }
    }
    assert Canonical([lock]);
    ConcatCanonical(merged, [lock]);
    SortedConcat(merged, [lock]);
  }

  lemma MergeCanonical(merged: seq<Lock>, lock: Lock)
    requires Canonical(merged) && SortedByStart(merged) && WellFormed(lock) && Follows(merged, lock)
    ensures Canonical(Merge(merged, lock)) && SortedByStart(Merge(merged, lock))
  {
    if Joins(merged, lock) {
      JoinCanonical(merged, lock);
    } else {
      AppendCanonical(merged, lock);
    }
  }

  lemma MergeAt(merged: seq<Lock>, lock: Lock, o: string, b: nat)
    requires Canonical(merged) && SortedByStart(merged) && WellFormed(lock) && Follows(merged, lock)
    ensures At(Merge(merged, lock), o, b) == At(merged + [lock], o, b)
  {
    var next, i := Merge(merged, lock), LastOf(merged, GroupKey(lock));
    if Joins(merged, lock) {
      JoinTouches(merged, lock);
      MergeCanonical(merged, lock);
      AtConcat(merged, [lock], o, b);
      if At(next, o, b).Some? {
        var k := AtWitness(next, o, b);
        if k != i || Covers(merged[i], o, b) {
          assert Covers(merged[k], o, b);
          AtCovered(merged, k, o, b);
        } else {
          assert Covers(lock, o, b);
          if At(merged, o, b).Some? {
            var j := AtWitness(merged, o, b);
            assert Covers(next[j], o, b);
            AtCovered(next, j, o, b);
          }
        }
      } else {
        if At(merged, o, b).Some? {
          var j := AtWitness(merged, o, b);
          AtCovered(next, j, o, b);
        }
        if Covers(lock, o, b) {
          AtCovered(next, i, o, b);
        }
      }
    }
  }

  lemma MergeFollows(merged: seq<Lock>, lock: Lock, later: Lock)
    requires Canonical(merged) && WellFormed(lock) && Follows(merged, lock)
    requires WellFormed(later) && Follows(merged, later) && lock.start <= later.start && Apart(lock, later)
    ensures Follows(Merge(merged, lock), later)
  {
    if Joins(merged, lock) {
      JoinTouches(merged, lock);
      var i := LastOf(merged, GroupKey(lock));
      assert merged[i] in merged;
      forall m | m in Merge(merged, lock) ensures m.start <= later.start && Apart(m, later) {
        assert m in merged || m == Extended(merged[i], lock);
      }
    }
  }

  lemma {:induction false} MergedSpec(sorted: seq<Lock>)
    requires SortedByStart(sorted) && Disjoint(sorted) && AllWellFormed(sorted)
    ensures Canonical(Merged(sorted)) && SortedByStart(Merged(sorted))
    ensures |Merged(sorted)| <= |sorted|
    ensures forall o, b: nat :: At(Merged(sorted), o, b) == At(sorted, o, b)
    ensures forall later: Lock :: WellFormed(later) && Follows(sorted, later) ==> Follows(Merged(sorted), later)
  {
    if sorted != [] {
      var n := |sorted| - 1;
      var init, lock := sorted[..n], sorted[n];
      assert sorted == init + [lock] && WellFormed(lock);
      forall i, j | 0 <= i < j < n ensures Apart(init[i], init[j]) { assert Apart(sorted[i], sorted[j]); }
      forall i | 0 <= i < n ensures WellFormed(init[i]) { assert WellFormed(sorted[i]); }
      MergedSpec(init);
      var merged := Merged(init);
      forall m | m in init ensures m.start <= lock.start && Apart(m, lock) {
        var i :| 0 <= i < n && init[i] == m;
        assert Apart(sorted[i], sorted[n]);
      }
      assert Follows(init, lock);
      MergeCanonical(merged, lock);
      forall o, b: nat ensures At(Merged(sorted), o, b) == At(sorted, o, b) {
        MergeAt(merged, lock, o, b);
        AtConcat(merged, [lock], o, b);
        AtConcat(init, [lock], o, b);
      }
      forall later: Lock | WellFormed(later) && Follows(sorted, later) ensures Follows(Merged(sorted), later) {
        assert Follows(init, later) && lock in sorted;
        MergeFollows(merged, lock, later);
      }
    }
  }

  // Coalescing changes no byte, and whatever it is given comes out canonical.
  lemma CoalescedSpec(locks: seq<Lock>)
    requires Disjoint(locks) && AllWellFormed(locks)
    ensures Canonical(Coalesced(locks)) && SortedByStart(Coalesced(locks))
    ensures |Coalesced(locks)| <= |locks|
    ensures forall o, b: nat :: At(Coalesced(locks), o, b) == At(locks, o, b)
  {
    SortSameRanges(locks);
    SortDisjoint(locks);
    var sorted := Sort(locks);
    forall i | 0 <= i < |sorted| ensures WellFormed(sorted[i]) {
      assert sorted[i] in locks;
      var j :| 0 <= j < |locks| && locks[j] == sorted[i];
    }
    MergedSpec(sorted);
    forall o, b: nat ensures At(Coalesced(locks), o, b) == At(locks, o, b) {
      AtSameRanges(sorted, locks, o, b);
    }
  }

  // ---------- granting ----------

  function Replaced(locks: seq<Lock>, granted: Lock): seq<Lock>
  {
    Coalesced(Subtract(locks, granted.ownerKey, granted.start, granted.end) + [granted])
  }

  method ReplaceRange(locks: seq<Lock>, granted: Lock) returns (next: seq<Lock>)
    ensures next == Replaced(locks, granted)
  {
    var kept := SubtractRange(locks, granted.ownerKey, granted.start, granted.end);
    next := Coalesce(kept + [granted]);
  }

  function Rewritten(held: Option<Grant>, o: string, b: nat, granted: Lock): Option<Grant>
  {
    if Covers(granted, o, b) then Some(GrantOf(granted)) else held
  }

  lemma BeforeCoalescing(locks: seq<Lock>, granted: Lock)
    requires Canonical(locks) && WellFormed(granted)
    ensures var all := Subtract(locks, granted.ownerKey, granted.start, granted.end) + [granted];
            Disjoint(all) && AllWellFormed(all) && |all| <= |locks| + 2
  {
    hide Subtract;
    var kept := Subtract(locks, granted.ownerKey, granted.start, granted.end);
    SubtractCanonical(locks, granted.ownerKey, granted.start, granted.end);
    SubtractLength(locks, granted.ownerKey, granted.start, granted.end);
    AppendDisjoint(kept, granted);
  }

  // A grant rewrites exactly its owner's bytes in its range, leaves the list
  // canonical and sorted, and makes it at most two longer.
  lemma ReplacedSpec(locks: seq<Lock>, granted: Lock)
    requires Canonical(locks) && WellFormed(granted)
    ensures Canonical(Replaced(locks, granted)) && SortedByStart(Replaced(locks, granted))
    ensures forall o, b: nat :: At(Replaced(locks, granted), o, b) == Rewritten(At(locks, o, b), o, b, granted)
    ensures 1 <= |Replaced(locks, granted)| <= |locks| + 2
  {
    hide Subtract, Coalesced;
    var owner, start, end := granted.ownerKey, granted.start, granted.end;
    var kept := Subtract(locks, owner, start, end);
    BeforeCoalescing(locks, granted);
    CoalescedSpec(kept + [granted]);
    forall o, b: nat ensures At(Replaced(locks, granted), o, b) == Rewritten(At(locks, o, b), o, b, granted) {
      SubtractAt(locks, owner, start, end, o, b);
      AtConcat(kept, [granted], o, b);
    }
    assert Rewritten(At(locks, owner, start), owner, start, granted).Some?;
    assert Replaced(locks, granted) != [];
  }

  // ---------- conflicts ----------

  predicate Blocked(locks: seq<Lock>, ownerKey: string, typ: nat, start: nat, end: nat)
  {
    exists i :: 0 <= i < |locks| && Overlaps(locks[i], start, end) && Conflicts(locks[i], ownerKey, typ)
  }

  // Someone else holds a byte of the range, and one side would write.
  ghost predicate ByteConflict(locks: seq<Lock>, ownerKey: string, typ: nat, start: nat, end: nat)
  {
    exists o, b: nat :: o != ownerKey && start <= b < end && At(locks, o, b).Some? &&
      (typ == WRLCK || At(locks, o, b).value.typ == WRLCK)
  }

  // The overlap test over ranges decides exactly the conflict over bytes.
  lemma BlockedIffByteConflict(locks: seq<Lock>, ownerKey: string, typ: nat, start: nat, end: nat)
    requires Canonical(locks) && start < end
    ensures Blocked(locks, ownerKey, typ, start, end) <==> ByteConflict(locks, ownerKey, typ, start, end)
  {
    if Blocked(locks, ownerKey, typ, start, end) {
      var i :| 0 <= i < |locks| && Overlaps(locks[i], start, end) && Conflicts(locks[i], ownerKey, typ);
      assert WellFormed(locks[i]);
      var b := if locks[i].start < start then start else locks[i].start;
      AtCovered(locks, i, locks[i].ownerKey, b);
    }
    if ByteConflict(locks, ownerKey, typ, start, end) {
      var o, b: nat :| o != ownerKey && start <= b < end && At(locks, o, b).Some? &&
        (typ == WRLCK || At(locks, o, b).value.typ == WRLCK);
      var i := AtWitness(locks, o, b);
      assert Overlaps(locks[i], start, end) && Conflicts(locks[i], ownerKey, typ);
    }
  }

  lemma GrantSafe(locks: seq<Lock>, granted: Lock)
    requires Canonical(locks) && Safe(locks) && WellFormed(granted)
    requires !Blocked(locks, granted.ownerKey, granted.typ, granted.start, granted.end)
    ensures Safe(Replaced(locks, granted))
  {
    ReplacedSpec(locks, granted);
    BlockedIffByteConflict(locks, granted.ownerKey, granted.typ, granted.start, granted.end);
    var next := Replaced(locks, granted);
    forall o, p, b: nat | o != p && At(next, o, b).Some? && At(next, p, b).Some?
      ensures At(next, o, b).value.typ == RDLCK
    {
      assert At(next, o, b) == Rewritten(At(locks, o, b), o, b, granted);
      assert At(next, p, b) == Rewritten(At(locks, p, b), p, b, granted);
      if Covers(granted, o, b) {
        assert At(locks, p, b).Some?;
      } else if Covers(granted, p, b) {
        var i := AtWitness(locks, o, b);
        assert WellFormed(locks[i]);
      }
    }
  }

  lemma UnlockSafe(locks: seq<Lock>, owner: string, start: nat, end: nat)
    requires Safe(locks) && start < end
    ensures Safe(Subtract(locks, owner, start, end))
  {
    var next := Subtract(locks, owner, start, end);
    forall o, p, b: nat | o != p && At(next, o, b).Some? && At(next, p, b).Some?
      ensures At(next, o, b).value.typ == RDLCK
    {
      SubtractAt(locks, owner, start, end, o, b);
      SubtractAt(locks, owner, start, end, p, b);
    }
  }
}
