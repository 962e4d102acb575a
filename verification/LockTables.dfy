// The shared lock table: one list of granted ranges per path, what every
// request does to bytes, and what no run of any clients can reach.
module LockTables {
  import opened Wrappers
  import opened Paths
  import opened PathTables
  import opened ByteRanges
  import opened Coalescing

  const SUCCESS: nat := 0
  const BLOCKED: nat := 1
  const ERROR: nat := 2

  // A start comes off the wire as an unsigned 64-bit field.
  datatype Request = Request(path: string, fid: nat, typ: nat, start: nat, length: int, procId: int, clientId: string)
  datatype Holder = Holder(typ: nat, start: nat, length: nat, procId: nat, clientId: string)

  // ---------- one request, on the list of its path ----------

  // Zero asks for all of the file from its start on, and for whatever it grows to.
  function RangeOf(start: nat, length: int): Result<(nat, nat)>
  {
    var end := if length == 0 then EOF_END else start + length;
    if length < 0 || end > EOF_END then Err(EINVAL) else Ok((start, end))
  }

  function LengthOf(lock: Lock): int { if lock.end == EOF_END then 0 else lock.end - lock.start }

  function HolderOf(lock: Lock): Holder
    requires WellFormed(lock)
  {
    Holder(lock.typ, lock.start, LengthOf(lock), lock.procId, lock.clientId)
  }

  // What goes out names the range that came in.
  lemma LengthRoundTrip(lock: Lock)
    requires WellFormed(lock)
    ensures RangeOf(lock.start, LengthOf(lock)) == Ok((lock.start, lock.end))
  {
  }

  function KeyOf(request: Request): string { OwnerKey(request.procId, request.clientId) }

  predicate HeldType(typ: nat) { typ == RDLCK || typ == WRLCK }

  function Granted(holder: nat, request: Request, end: nat): Lock
  {
    Lock(request.start, end, request.typ, KeyOf(request),
         request.procId % 0x1_0000_0000, request.clientId, holder, request.fid)
  }

  // The status a lock request is answered with, and the path's list after it.
  function Locked(locks: seq<Lock>, holder: nat, request: Request, max: nat): (Result<nat>, seq<Lock>)
  {
    match RangeOf(request.start, request.length)
    case Err(e) => (Err(e), locks)
    case Ok((start, end)) =>
      if request.typ == UNLCK then (Ok(SUCCESS), Subtract(locks, KeyOf(request), start, end))
      else if !HeldType(request.typ) then (Err(EINVAL), locks)
      else if Blocked(locks, KeyOf(request), request.typ, start, end) then (Ok(BLOCKED), locks)
      else if |locks| >= max then (Ok(ERROR), locks)
      else (Ok(SUCCESS), Replaced(locks, Granted(holder, request, end)))
  }

  predicate Covered(request: Request, b: nat)
  {
    RangeOf(request.start, request.length).Ok? &&
    request.start <= b < RangeOf(request.start, request.length).value.1
  }

  // What an owner holds on a byte after a request that succeeded.
  function After(held: Option<Grant>, holder: nat, request: Request, o: string, b: nat): Option<Grant>
  {
    if o != KeyOf(request) || !Covered(request, b) then held
    else if request.typ == UNLCK then None
    else Some(Grant(request.typ, holder, request.fid))
  }

  lemma UnlockSpec(locks: seq<Lock>, holder: nat, request: Request)
    requires Canonical(locks) && Safe(locks) && request.start < EOF_END
    requires request.typ == UNLCK && RangeOf(request.start, request.length).Ok?
    ensures var next := Subtract(locks, KeyOf(request), request.start, RangeOf(request.start, request.length).value.1);
            && Canonical(next) && Safe(next) && |next| <= |locks| + 1
            && forall o, b: nat :: At(next, o, b) == After(At(locks, o, b), holder, request, o, b)
  {
    hide Subtract, OwnerKey;
    var start, end := request.start, RangeOf(request.start, request.length).value.1;
    SubtractCanonical(locks, KeyOf(request), start, end);
    SubtractLength(locks, KeyOf(request), start, end);
    UnlockSafe(locks, KeyOf(request), start, end);
    forall o, b: nat
      ensures At(Subtract(locks, KeyOf(request), start, end), o, b) == After(At(locks, o, b), holder, request, o, b)
    {
      SubtractAt(locks, KeyOf(request), start, end, o, b);
    }
  }

  lemma GrantSpec(locks: seq<Lock>, holder: nat, request: Request)
    requires Canonical(locks) && Safe(locks) && request.start < EOF_END && HeldType(request.typ)
    requires RangeOf(request.start, request.length).Ok?
    requires !Blocked(locks, KeyOf(request), request.typ, request.start, RangeOf(request.start, request.length).value.1)
    ensures var next := Replaced(locks, Granted(holder, request, RangeOf(request.start, request.length).value.1));
            && Canonical(next) && Safe(next) && 1 <= |next| <= |locks| + 2 && SortedByStart(next)
            && forall o, b: nat :: At(next, o, b) == After(At(locks, o, b), holder, request, o, b)
  {
    hide Replaced, OwnerKey;
    var granted := Granted(holder, request, RangeOf(request.start, request.length).value.1);
    ReplacedSpec(locks, granted);
    GrantSafe(locks, granted);
  }

  // A request that succeeds rewrites exactly the bytes of its range for its
  // owner, and one that does not changes nothing; the list stays canonical and
  // safe, and grows by at most two ranges, or one for an unlock.
  lemma LockedSpec(locks: seq<Lock>, holder: nat, request: Request, max: nat)
    requires Canonical(locks) && Safe(locks) && request.start < EOF_END
    ensures var (status, next) := Locked(locks, holder, request, max);
            && Canonical(next) && Safe(next)
            && (status != Ok(SUCCESS) ==> next == locks)
            && (status == Ok(SUCCESS) ==>
                  forall o, b: nat :: At(next, o, b) == After(At(locks, o, b), holder, request, o, b))
            && |next| <= |locks| + (if request.typ == UNLCK then 1 else 2)
            && (status == Ok(SUCCESS) && request.typ != UNLCK ==> SortedByStart(next) && next != [])
  {
    hide Subtract, Replaced, Canonical, Safe, After, Blocked, SortedByStart;
    if RangeOf(request.start, request.length).Ok? {
      if request.typ == UNLCK {
        UnlockSpec(locks, holder, request);
      } else if HeldType(request.typ) &&
        !Blocked(locks, KeyOf(request), request.typ, request.start, RangeOf(request.start, request.length).value.1)
      {
        GrantSpec(locks, holder, request);
      }
    }
  }

  // The first range that would deny the request, or nothing.
  function FirstConflict(locks: seq<Lock>, ownerKey: string, typ: nat, start: nat, end: nat): (r: Option<Lock>)
    ensures r.Some? <==> Blocked(locks, ownerKey, typ, start, end)
    ensures r.Some? ==> r.value in locks && Overlaps(r.value, start, end) && Conflicts(r.value, ownerKey, typ)
  {
    if locks == [] then None
    else if Overlaps(locks[0], start, end) && Conflicts(locks[0], ownerKey, typ) then
      assert Blocked(locks, ownerKey, typ, start, end);
      Some(locks[0])
    else
      assert forall i :: 0 < i < |locks| ==> locks[i] == locks[1..][i - 1];
      FirstConflict(locks[1..], ownerKey, typ, start, end)
  }

  function Asked(locks: seq<Lock>, request: Request): Result<Option<Lock>>
  {
    match RangeOf(request.start, request.length)
    case Err(e) => Err(e)
    case Ok((start, end)) =>
      if !HeldType(request.typ) then Err(EINVAL)
      else Ok(FirstConflict(locks, KeyOf(request), request.typ, start, end))
  }

  // Asking answers nothing exactly when locking would not be blocked, and a
  // holder exactly when somebody else's byte stands in the way.
  lemma GetlockAgrees(locks: seq<Lock>, holder: nat, request: Request, max: nat)
    requires Canonical(locks) && request.start < EOF_END && request.typ != UNLCK
    ensures Asked(locks, request) == Ok(None) <==>
            Locked(locks, holder, request, max).0.Ok? && Locked(locks, holder, request, max).0 != Ok(BLOCKED)
    ensures Asked(locks, request).Ok? && Asked(locks, request).value.Some? <==>
            HeldType(request.typ) && RangeOf(request.start, request.length).Ok? &&
            ByteConflict(locks, KeyOf(request), request.typ, request.start,
                         RangeOf(request.start, request.length).value.1)
    ensures Asked(locks, request).Err? ==> Asked(locks, request) == Err(EINVAL)
  {
    var range := RangeOf(request.start, request.length);
    if range.Ok? {
      BlockedIffByteConflict(locks, KeyOf(request), request.typ, range.value.0, range.value.1);
    }
  }

  // The bytes a request names: from its start, so many, or on to the last there is;
  // none if the count is negative or runs past the last there is.
  lemma RangeSays(request: Request, b: nat)
    ensures RangeOf(request.start, request.length).Ok? ==>
              (Covered(request, b) <==>
                 request.start <= b < EOF_END && (request.length == 0 || b < request.start + request.length))
    ensures RangeOf(request.start, request.length) == Err(EINVAL) <==>
            request.length < 0 || (request.length != 0 && request.start + request.length > EOF_END)
    ensures RangeOf(request.start, request.length).Err? ==> RangeOf(request.start, request.length) == Err(EINVAL)
  {
  }

  // What a request is answered, in terms of the bytes it names: refused if it names
  // none or no kind of lock, blocked exactly by a conflicting byte, turned away at
  // the limit only if nothing conflicts.
  lemma StatusSays(locks: seq<Lock>, holder: nat, request: Request, max: nat)
    requires Canonical(locks) && request.start < EOF_END
    ensures var status := Locked(locks, holder, request, max).0;
            var range := RangeOf(request.start, request.length);
            var conflict := range.Ok? && request.typ != UNLCK &&
                            ByteConflict(locks, KeyOf(request), request.typ, request.start, range.value.1);
            && (status.Err? ==> status == Err(EINVAL))
            && (status.Err? <==> range.Err? || (request.typ != UNLCK && !HeldType(request.typ)))
            && (status == Ok(BLOCKED) <==> status.Ok? && conflict)
            && (status == Ok(ERROR) <==> status.Ok? && request.typ != UNLCK && !conflict && |locks| >= max)
  {
    var range := RangeOf(request.start, request.length);
    if range.Ok? {
      BlockedIffByteConflict(locks, KeyOf(request), request.typ, range.value.0, range.value.1);
    }
  }

  // ---------- who a range belongs to ----------

  // The owner a range is judged by is the process and client it reports.
  predicate Named(lock: Lock) { lock.procId < 0x1_0000_0000 && lock.ownerKey == OwnerKey(lock.procId, lock.clientId) }

  predicate AllNamed(locks: seq<Lock>) { forall l :: l in locks ==> Named(l) }

  lemma SubtractNamed(locks: seq<Lock>, owner: string, start: nat, end: nat)
    requires AllNamed(locks)
    ensures AllNamed(Subtract(locks, owner, start, end))
  {
    hide Named, Subtract;
    forall p | p in Subtract(locks, owner, start, end) ensures Named(p) {
      var i := SubtractOrigin(locks, owner, start, end, p);
      assert Named(locks[i]);
      SameName(locks[i], p);
    }
  }

  lemma SameName(a: Lock, b: Lock)
    ensures a.ownerKey == b.ownerKey && a.procId == b.procId && a.clientId == b.clientId && Named(a) ==> Named(b)
  {
  }

  lemma {:induction false} MergedNamed(sorted: seq<Lock>)
    requires AllNamed(sorted)
    ensures AllNamed(Merged(sorted))
  {
    hide Named;
    if sorted != [] {
      var init, lock := sorted[..|sorted| - 1], sorted[|sorted| - 1];
      MergedNamed(init);
      assert Named(lock);
      forall p | p in Merged(sorted) ensures Named(p) {
        if p !in Merged(init) && p != lock {
          var last := Merged(init)[LastOf(Merged(init), GroupKey(lock))];
          assert Named(last);
          SameName(last, p);
        }
      }
    }
  }

  lemma ReplacedNamed(locks: seq<Lock>, granted: Lock)
    requires AllNamed(locks) && Named(granted)
    ensures AllNamed(Replaced(locks, granted))
  {
    hide Named, Subtract, Merged, Sort;
    var all := Subtract(locks, granted.ownerKey, granted.start, granted.end) + [granted];
    SubtractNamed(locks, granted.ownerKey, granted.start, granted.end);
    SortSameRanges(all);
    MergedNamed(Sort(all));
  }

  lemma GrantedNamed(holder: nat, request: Request, end: nat)
    ensures Named(Granted(holder, request, end))
  {
    OwnerKeyInjective(request.procId, request.clientId, request.procId % 0x1_0000_0000, request.clientId);
  }

  lemma LockedNamed(locks: seq<Lock>, holder: nat, request: Request, max: nat)
    requires AllNamed(locks)
    ensures AllNamed(Locked(locks, holder, request, max).1)
  {
    hide Named, Subtract, Replaced, OwnerKey;
    var range := RangeOf(request.start, request.length);
    if range.Ok? && request.typ == UNLCK {
      SubtractNamed(locks, KeyOf(request), range.value.0, range.value.1);
    } else if range.Ok? {
      GrantedNamed(holder, request, range.value.1);
      ReplacedNamed(locks, Granted(holder, request, range.value.1));
    }
  }

  // So the process and client an answer names are not the asker's own.
  lemma AnswerIsAnother(locks: seq<Lock>, request: Request)
    requires AllNamed(locks) && Asked(locks, request).Ok? && Asked(locks, request).value.Some?
    ensures var lock := Asked(locks, request).value.value;
            Named(lock) && (lock.procId != request.procId % 0x1_0000_0000 || lock.clientId != request.clientId)
  {
    var lock := Asked(locks, request).value.value;
    assert Named(lock);
    OwnerKeyInjective(lock.procId, lock.clientId, request.procId, request.clientId);
  }

  // ---------- what an answer says ----------

  predicate Denies(lock: Lock, request: Request)
  {
    && (exists b: nat | lock.start <= b < lock.end :: Covered(request, b))
    && lock.ownerKey != KeyOf(request)
    && (lock.typ == WRLCK || request.typ == WRLCK)
  }

  // The answer is the range at `n`, field by field, and none before it denies the request.
  predicate FirstDenial(locks: seq<Lock>, request: Request, named: Holder, n: nat)
  {
    && n < |locks|
    && Denies(locks[n], request)
    && named.typ == locks[n].typ && named.procId == locks[n].procId && named.clientId == locks[n].clientId
    && named.start == locks[n].start
    && (if named.length == 0 then locks[n].end == EOF_END else locks[n].end == named.start + named.length)
    && forall m :: 0 <= m < n ==> !Denies(locks[m], request)
  }

  // Every byte of the range an answer names is held by the owner it names, with the
  // type it names, and some byte of it was asked for.
  ghost predicate Truthful(locks: seq<Lock>, request: Request, named: Holder)
  {
    var range := RangeOf(named.start, named.length);
    && range.Ok? && range.value.0 == named.start
    && (forall b: nat :: named.start <= b < range.value.1 ==>
          var held := At(locks, OwnerKey(named.procId, named.clientId), b);
          held.Some? && held.value.typ == named.typ)
    && (exists b: nat :: named.start <= b < range.value.1 && Covered(request, b))
    && (named.typ == WRLCK || request.typ == WRLCK)
  }

  lemma DeniesIs(lock: Lock, request: Request)
    requires WellFormed(lock) && request.start < EOF_END && RangeOf(request.start, request.length).Ok?
    ensures Denies(lock, request) <==>
            Overlaps(lock, request.start, RangeOf(request.start, request.length).value.1) &&
            Conflicts(lock, KeyOf(request), request.typ)
  {
    hide OwnerKey;
    var end := RangeOf(request.start, request.length).value.1;
    if Overlaps(lock, request.start, end) {
      var b := if lock.start < request.start then request.start else lock.start;
      assert Covered(request, b);
    }
  }

  lemma {:induction false} FirstIs(locks: seq<Lock>, ownerKey: string, typ: nat, start: nat, end: nat) returns (n: nat)
    requires Blocked(locks, ownerKey, typ, start, end)
    ensures n < |locks| && FirstConflict(locks, ownerKey, typ, start, end) == Some(locks[n])
    ensures forall m :: 0 <= m < n ==> !(Overlaps(locks[m], start, end) && Conflicts(locks[m], ownerKey, typ))
  {
    if Overlaps(locks[0], start, end) && Conflicts(locks[0], ownerKey, typ) {
      n := 0;
    } else {
      n := FirstIs(locks[1..], ownerKey, typ, start, end);
      n := n + 1;
    }
  }

  lemma AnswerIsFirst(locks: seq<Lock>, request: Request) returns (n: nat)
    requires Canonical(locks) && request.start < EOF_END
    requires Asked(locks, request).Ok? && Asked(locks, request).value.Some?
    ensures n < |locks| && Asked(locks, request).value.value == locks[n]
    ensures FirstDenial(locks, request, HolderOf(locks[n]), n)
  {
    hide OwnerKey, Denies, Covered, Blocked, Overlaps, Conflicts;
    var end := RangeOf(request.start, request.length).value.1;
    n := FirstIs(locks, KeyOf(request), request.typ, request.start, end);
    forall m | 0 <= m < |locks|
      ensures Denies(locks[m], request) <==>
              Overlaps(locks[m], request.start, end) && Conflicts(locks[m], KeyOf(request), request.typ)
    {
      DeniesIs(locks[m], request);
    }
  }

  lemma DenialIsTruthful(locks: seq<Lock>, request: Request, named: Holder, n: nat)
    requires Canonical(locks) && AllNamed(locks) && FirstDenial(locks, request, named, n)
    ensures Truthful(locks, request, named)
  {
    hide OwnerKey, Covered;
    var lock := locks[n];
    assert WellFormed(lock) && Named(lock);
    LengthRoundTrip(lock);
    forall b: nat | lock.start <= b < lock.end
      ensures At(locks, OwnerKey(named.procId, named.clientId), b) == Some(GrantOf(lock))
    {
      AtCovered(locks, n, lock.ownerKey, b);
    }
  }

  // ---------- dropping by connection or fid ----------

  // Which ranges a clunk (one fid) or a teardown (every fid) takes away.
  predicate Matches(lock: Lock, holder: nat, fid: Option<nat>)
  {
    lock.holder == holder && (fid.Some? ==> lock.fid == fid.value)
  }

  function Kept(locks: seq<Lock>, holder: nat, fid: Option<nat>): (kept: seq<Lock>)
    ensures |kept| <= |locks|
    ensures |kept| == |locks| ==> kept == locks
    ensures forall l :: l in kept <==> l in locks && !Matches(l, holder, fid)
  {
    if locks == [] then []
    else if Matches(locks[0], holder, fid) then Kept(locks[1..], holder, fid)
    else
      assert locks == [locks[0]] + locks[1..];
      [locks[0]] + Kept(locks[1..], holder, fid)
  }

  lemma {:induction false} KeptCanonical(locks: seq<Lock>, holder: nat, fid: Option<nat>)
    requires Canonical(locks)
    ensures Canonical(Kept(locks, holder, fid))
  {
    if locks != [] {
      var tail := locks[1..];
      assert locks == [locks[0]] + tail;
      DisjointTail(locks);
      forall i | 0 <= i < |tail| ensures WellFormed(tail[i]) { assert WellFormed(locks[i + 1]); }
      forall i, j | 0 <= i < |tail| && 0 <= j < |tail| ensures !Mergeable(tail[i], tail[j]) {
        assert !Mergeable(locks[i + 1], locks[j + 1]);
      }
      KeptCanonical(tail, holder, fid);
      assert WellFormed(locks[0]);
      forall q | q in Kept(tail, holder, fid)
        ensures Apart(locks[0], q) && !Mergeable(locks[0], q) && !Mergeable(q, locks[0])
      {
        var j :| 0 <= j < |tail| && tail[j] == q;
        assert Apart(locks[0], locks[j + 1]) && !Mergeable(locks[0], locks[j + 1]) &&
               !Mergeable(locks[j + 1], locks[0]);
      }
      assert Canonical([locks[0]]);
      ConcatCanonical([locks[0]], Kept(tail, holder, fid));
    }
  }

  // Dropping erases exactly the bytes held by the connection, or through the fid.
  lemma KeptAt(locks: seq<Lock>, holder: nat, fid: Option<nat>, o: string, b: nat)
    requires Canonical(locks)
    ensures At(Kept(locks, holder, fid), o, b) ==
            var held := At(locks, o, b);
            if held.Some? && held.value.holder == holder && (fid.None? || held.value.fid == fid.value) then None
            else held
  {
    var kept := Kept(locks, holder, fid);
    KeptCanonical(locks, holder, fid);
    if At(kept, o, b).Some? {
      var i := AtWitness(kept, o, b);
      assert kept[i] in locks && !Matches(kept[i], holder, fid);
      var j :| 0 <= j < |locks| && locks[j] == kept[i];
      AtCovered(locks, j, o, b);
    } else if At(locks, o, b).Some? {
      var j := AtWitness(locks, o, b);
      if !Matches(locks[j], holder, fid) {
        assert locks[j] in kept;
        var i :| 0 <= i < |kept| && kept[i] == locks[j];
        AtCovered(kept, i, o, b);
      }
    }
  }

  lemma KeptSafe(locks: seq<Lock>, holder: nat, fid: Option<nat>)
    requires Canonical(locks) && Safe(locks)
    ensures Safe(Kept(locks, holder, fid))
  {
    var kept := Kept(locks, holder, fid);
    forall o, p, b: nat | o != p && At(kept, o, b).Some? && At(kept, p, b).Some?
      ensures At(kept, o, b).value.typ == RDLCK
    {
      KeptAt(locks, holder, fid, o, b);
      KeptAt(locks, holder, fid, p, b);
    }
  }

  // ---------- the whole table ----------

  type Files = map<string, seq<Lock>>

  function ListAt(files: Files, path: string): seq<Lock> { if path in files then files[path] else [] }

  // A path with no range left is forgotten.
  function Put(files: Files, path: string, locks: seq<Lock>): Files
  {
    if locks == [] then files - {path} else files[path := locks]
  }

  datatype Op =
    | Locking(holder: nat, request: Request)
    | Drop(holder: nat, fid: Option<nat>)
    | Renamed(from: string, to: string)
    | Released(path: string)

  ghost predicate RenamedFiles(files: Files, from: string, to: string, next: Files)
  {
    forall q :: (q in next <==> Survives(files, from, to, q)) &&
                (q in next ==> Origin(q, from, to) in files && next[q] == files[Origin(q, from, to)])
  }

  function Dropped(files: Files, holder: nat, fid: Option<nat>): Files
  {
    map p | p in files && Kept(files[p], holder, fid) != [] :: Kept(files[p], holder, fid)
  }

  ghost predicate Step(files: Files, max: nat, op: Op, next: Files)
  {
    match op
    case Locking(holder, request) =>
      next == Put(files, request.path, Locked(ListAt(files, request.path), holder, request, max).1)
    case Drop(holder, fid) => next == Dropped(files, holder, fid)
    case Renamed(from, to) => if from == to then next == files else RenamedFiles(files, from, to, next)
    case Released(path) => next == files - {path}
  }

  // Requests name a byte that exists, as the wire's 64-bit field does.
  predicate Wire(op: Op) { op.Locking? ==> op.request.start < EOF_END }

  ghost predicate Sound(locks: seq<Lock>) { Canonical(locks) && Safe(locks) && AllNamed(locks) }

  ghost predicate Good(files: Files)
  {
    forall p :: p in files ==> files[p] != [] && Sound(files[p])
  }

  lemma NothingIsSound()
    ensures Sound([])
  {
  }

  lemma LockedSound(locks: seq<Lock>, holder: nat, request: Request, max: nat)
    requires locks == [] || Sound(locks)
    requires request.start < EOF_END
    ensures Sound(Locked(locks, holder, request, max).1)
  {
    hide Canonical, Safe, AllNamed, Locked;
    NothingIsSound();
    LockedSpec(locks, holder, request, max);
    LockedNamed(locks, holder, request, max);
  }

  lemma KeptSound(locks: seq<Lock>, holder: nat, fid: Option<nat>)
    requires Sound(locks)
    ensures Sound(Kept(locks, holder, fid))
  {
    hide Canonical, Safe, Named;
    KeptCanonical(locks, holder, fid);
    KeptSafe(locks, holder, fid);
  }

  lemma StepGood(files: Files, max: nat, op: Op, next: Files)
    requires Good(files) && Wire(op) && Step(files, max, op, next)
    ensures Good(next)
  {
    match op
    case Locking(holder, request) =>
      LockedSound(ListAt(files, request.path), holder, request, max);
    case Drop(holder, fid) =>
      forall p | p in next ensures Sound(next[p]) { KeptSound(files[p], holder, fid); }
    case Renamed(from, to) =>
    case Released(path) =>
  }

  ghost predicate Run(states: seq<Files>, max: nat, ops: seq<Op>)
  {
    && |states| == |ops| + 1 && states[0] == map[]
    && forall k :: 0 <= k < |ops| ==> Wire(ops[k]) && Step(states[k], max, ops[k], states[k + 1])
  }

  // In every run of every number of clients: no list is empty, each is
  // canonical, and no byte of any file is write-locked by one owner while
  // another holds it.
  lemma {:induction false} RunGood(states: seq<Files>, max: nat, ops: seq<Op>, n: nat)
    requires Run(states, max, ops) && n <= |ops|
    ensures Good(states[n])
  {
    if n > 0 {
      RunGood(states, max, ops, n - 1);
      StepGood(states[n - 1], max, ops[n - 1], states[n]);
    }
  }

  // No range outlives the connection that took it.
  ghost predicate HoldsNothing(files: Files, holder: nat)
  {
    forall p: string, i: nat :: p in files && i < |files[p]| ==> files[p][i].holder != holder
  }

  lemma TornDownHoldsNothing(files: Files, holder: nat)
    ensures HoldsNothing(Dropped(files, holder, None), holder)
  {
    var next: Files := Dropped(files, holder, None);
    forall p: string, i: nat | p in next && i < |next[p]| ensures next[p][i].holder != holder {
      assert next[p][i] in Kept(files[p], holder, None);
    }
  }

  lemma ReplacedHolders(locks: seq<Lock>, granted: Lock, holder: nat)
    requires Canonical(locks) && WellFormed(granted) && granted.holder != holder
    requires forall i :: 0 <= i < |locks| ==> locks[i].holder != holder
    ensures forall i :: 0 <= i < |Replaced(locks, granted)| ==> Replaced(locks, granted)[i].holder != holder
  {
    var next := Replaced(locks, granted);
    ReplacedSpec(locks, granted);
    forall i | 0 <= i < |next| ensures next[i].holder != holder {
      var o, b := next[i].ownerKey, next[i].start;
      assert WellFormed(next[i]);
      AtCovered(next, i, o, b);
      if At(locks, o, b).Some? {
        var j := AtWitness(locks, o, b);
      }
    }
  }

  lemma LockedHolders(locks: seq<Lock>, h: nat, request: Request, max: nat, holder: nat)
    requires Canonical(locks) && request.start < EOF_END && h != holder
    requires forall l :: l in locks ==> l.holder != holder
    ensures forall l :: l in Locked(locks, h, request, max).1 ==> l.holder != holder
  {
    hide Canonical, Subtract, Replaced, OwnerKey, Blocked;
    var (status, next) := Locked(locks, h, request, max);
    var range := RangeOf(request.start, request.length);
    if range.Ok? && request.typ == UNLCK {
      forall l | l in next ensures l.holder != holder {
        var j := SubtractOrigin(locks, KeyOf(request), range.value.0, range.value.1, l);
        assert locks[j] in locks;
      }
    } else if status == Ok(SUCCESS) {
      ReplacedHolders(locks, Granted(h, request, range.value.1), holder);
    }
  }

  lemma StaysGone(files: Files, max: nat, op: Op, next: Files, holder: nat)
    requires Good(files) && Wire(op) && Step(files, max, op, next) && HoldsNothing(files, holder)
    requires op.Locking? ==> op.holder != holder
    ensures HoldsNothing(next, holder)
  {
    hide Canonical, Safe, AllNamed, Locked, Kept;
    match op
    case Locking(h, request) =>
      NothingIsSound();
      LockedHolders(ListAt(files, request.path), h, request, max, holder);
    case Drop(h, fid) =>
      forall p: string, i: nat | p in next && i < |next[p]| ensures next[p][i].holder != holder {
        assert next[p][i] in Kept(files[p], h, fid);
      }
    case Renamed(from, to) =>
    case Released(path) =>
  }

  // Once torn down, a connection that asks for nothing more holds nothing for the
  // rest of the run, whatever the others do.
  lemma {:induction false} GoneStaysGone(states: seq<Files>, max: nat, ops: seq<Op>, k: nat, n: nat, holder: nat)
    requires Run(states, max, ops) && k < n <= |ops| && ops[k] == Drop(holder, None)
    requires forall j :: k < j < n && ops[j].Locking? ==> ops[j].holder != holder
    ensures HoldsNothing(states[n], holder)
  {
    assert Step(states[k], max, ops[k], states[k + 1]);
    if n == k + 1 {
      TornDownHoldsNothing(states[k], holder);
    } else {
      GoneStaysGone(states, max, ops, k, n - 1, holder);
      RunGood(states, max, ops, n - 1);
      StaysGone(states[n - 1], max, ops[n - 1], states[n], holder);
    }
  }

  // ---------- the class ----------

  // Each tracked file answers to exactly one path and has no identity key.
  ghost predicate OneName(t: Table<seq<Lock>>)
  {
    && Coherent(t) && NormalPaths(t)
    && (forall p :: p in t.byPath ==> t.entries[t.byPath[p]].paths == {p})
    && (forall i :: i in t.entries ==> t.entries[i].key.None?)
  }

  ghost function FilesOf(t: Table<seq<Lock>>): Files
    requires Coherent(t)
  {
    map p | p in t.byPath :: t.entries[t.byPath[p]].info
  }

  lemma RemapKeepsOneName(t: Table<seq<Lock>>, u: Table<seq<Lock>>, from: string, to: string)
    requires OneName(t) && Renames(from, to) && Remapped(t, u, from, to) && NormalPaths(u) && from != to
    ensures OneName(u) && RenamedFiles(FilesOf(t), from, to, FilesOf(u))
  {
    hide IsPathInside, Normal;
    forall p | p in u.byPath ensures u.entries[u.byPath[p]].paths == {p} {
      var i := u.byPath[p];
      forall q | q in u.entries[i].paths ensures q == p {
        assert u.byPath[q] == i && t.byPath[Origin(p, from, to)] == i == t.byPath[Origin(q, from, to)];
        assert Origin(p, from, to) in t.entries[i].paths && Origin(q, from, to) in t.entries[i].paths;
        if IsPathInside(p, to) { TargetBack(p, from, to); }
        if IsPathInside(q, to) { TargetBack(q, from, to); }
      }
    }
    forall q ensures q in FilesOf(u) <==> Survives(FilesOf(t), from, to, q) {
      assert Survives(t.byPath, from, to, q) <==> Survives(FilesOf(t), from, to, q);
    }
  }

  lemma OwnPaths(t: Table<seq<Lock>>, p: string, q: string)
    requires OneName(t) && p in t.byPath && q in t.byPath && p != q
    ensures t.byPath[p] != t.byPath[q]
  {
    assert t.entries[t.byPath[p]].paths == {p} && q in t.entries[t.byPath[q]].paths;
  }

  lemma StoreInPlace(t: Table<seq<Lock>>, path: string, locks: seq<Lock>)
    requires OneName(t) && path in t.byPath
    ensures var i := t.byPath[path];
            var u := t.(entries := t.entries[i := t.entries[i].(info := locks)]);
            OneName(u) && FilesOf(u) == FilesOf(t)[path := locks]
  {
    hide Normal;
    var i := t.byPath[path];
    var u := t.(entries := t.entries[i := t.entries[i].(info := locks)]);
    assert Coherent(u);
    forall p | p in t.byPath && p != path ensures t.byPath[p] != i {
      OwnPaths(t, p, path);
    }
  }

  // A file bound under a path of its own.
  lemma BindsNew(t: Table<seq<Lock>>, path: string, locks: seq<Lock>)
    requires Coherent(t) && path !in t.byPath
    ensures t.nextId !in t.entries
    ensures Bind(t, path, None, locks) ==
            (Table(t.entries[t.nextId := Entry(None, {path}, locks)], t.byPath[path := t.nextId], t.byKey,
                   t.nextId + 1), t.nextId)
  {
    var e := Entry(None, {}, locks);
    assert Settled(t, path, None, locks) == (t.(entries := t.entries[t.nextId := e], nextId := t.nextId + 1), t.nextId);
    assert {} + {path} == {path};
    assert t.entries[t.nextId := e][t.nextId := Entry(None, {path}, locks)] ==
           t.entries[t.nextId := Entry(None, {path}, locks)];
  }

  lemma StoreInNew(t: Table<seq<Lock>>, path: string, locks: seq<Lock>)
    requires OneName(t) && path !in t.byPath && Normal(path)
    ensures var u := Bind(t, path, None, locks).0;
            OneName(u) && FilesOf(u) == FilesOf(t)[path := locks]
  {
    hide Normal, Bind, Coherent, FilesOf;
    BindSpec(t, path, None, locks);
    BindsNew(t, path, locks);
    NewFileListed(t, path, locks);
    OldPathsOld(t);
  }

  lemma OldPathsOld(t: Table<seq<Lock>>)
    requires Coherent(t)
    ensures forall p :: p in t.byPath ==> t.byPath[p] in t.entries && t.byPath[p] != t.nextId
  {
  }

  lemma NewFileListed(t: Table<seq<Lock>>, path: string, locks: seq<Lock>)
    requires Coherent(t) && path !in t.byPath && Coherent(Bind(t, path, None, locks).0)
    ensures FilesOf(Bind(t, path, None, locks).0) == FilesOf(t)[path := locks]
  {
    hide Bind;
    BindsNew(t, path, locks);
  }

  lemma ForgetName(t: Table<seq<Lock>>, path: string)
    requires OneName(t)
    ensures OneName(Release(t, path)) && FilesOf(Release(t, path)) == FilesOf(t) - {path}
  {
    hide Normal;
    var u := Release(t, path);
    if path in t.byPath {
      DetachCoherent(t, path);
      forall p | p in u.byPath ensures u.entries[u.byPath[p]] == t.entries[t.byPath[p]] {
        OwnPaths(t, p, path);
      }
    }
  }

  // How far a drop over the locked paths has got.
  ghost predicate PartlyDropped(files: Files, now: Files, todo: set<string>, holder: nat, fid: Option<nat>)
  {
    forall p :: (p in now <==> p in files && (p in todo || Kept(files[p], holder, fid) != [])) &&
                (p in now ==> now[p] == if p in todo then files[p] else Kept(files[p], holder, fid))
  }

  lemma DropOneMore(files: Files, now: Files, todo: set<string>, holder: nat, fid: Option<nat>, path: string)
    requires PartlyDropped(files, now, todo, holder, fid) && path in todo && path in files
    ensures path in now
    ensures PartlyDropped(files, Put(now, path, Kept(now[path], holder, fid)), todo - {path}, holder, fid)
  {
    hide Kept;
  }

  lemma NothingDropped(t: Table<seq<Lock>>, holder: nat, fid: Option<nat>)
    requires Coherent(t)
    ensures FilesOf(t).Keys == t.byPath.Keys
    ensures PartlyDropped(FilesOf(t), FilesOf(t), t.byPath.Keys, holder, fid)
  {
  }

  lemma AllDropped(files: Files, now: Files, holder: nat, fid: Option<nat>)
    requires PartlyDropped(files, now, {}, holder, fid)
    ensures now == Dropped(files, holder, fid)
  {
  }

  lemma GoodWith(files: Files, path: string, locks: seq<Lock>)
    requires Good(files) && locks != [] && Sound(locks)
    ensures Good(files[path := locks])
  {
  }

  lemma ListIs(files: Files, path: string)
    requires Good(files)
    ensures ListAt(files, path) == [] || Sound(ListAt(files, path))
    ensures Put(files, path, ListAt(files, path)) == files
  {
  }

  lemma PutList(files: Files, path: string, locks: seq<Lock>)
    requires locks != []
    ensures Put(files, path, locks) == files[path := locks]
  {
  }

  lemma LockedGrants(locks: seq<Lock>, holder: nat, request: Request, max: nat)
    requires locks == [] || Sound(locks)
    requires request.start < EOF_END
    ensures var (status, next) := Locked(locks, holder, request, max);
            Sound(next) && (status == Ok(SUCCESS) && request.typ != UNLCK ==> next != [])
  {
    hide Canonical, Safe, AllNamed, Locked;
    NothingIsSound();
    LockedSound(locks, holder, request, max);
    LockedSpec(locks, holder, request, max);
  }

  class P9LockTable {
    const table: PathTable<seq<Lock>>
    const maxPerFile: nat

    ghost predicate Valid()
      reads this, table
    {
      OneName(table.State()) && Good(FilesOf(table.State()))
    }

    ghost function Files(): Files
      reads this, table
      requires Coherent(table.State())
    {
      FilesOf(table.State())
    }

    constructor (maxLocksPerFile: int)
      ensures Valid() && fresh(table) && Files() == map[]
      ensures maxPerFile == if maxLocksPerFile < 1 then 1 else maxLocksPerFile
    {
      maxPerFile := if maxLocksPerFile < 1 then 1 else maxLocksPerFile;
      table := new PathTable<seq<Lock>>(0);
    }

    method LocksAt(path: string) returns (locks: seq<Lock>)
      requires Valid()
      ensures locks == ListAt(Files(), path)
    {
      locks := if path in table.byPath then table.entries[table.byPath[path]].info else [];
    }

    // Store a non-empty list under its path, binding a file to it if need be.
    method SetList(path: string, locks: seq<Lock>)
      requires Valid() && Normal(path) && locks != [] && Sound(locks)
      modifies table
      ensures Valid() && Files() == old(Files())[path := locks]
    {
      hide Normal, Sound, Bind, Good, KeysAgree;
      GoodWith(Files(), path, locks);
      if path in table.byPath {
        var i := table.byPath[path];
        StoreInPlace(table.State(), path, locks);
        table.entries := table.entries[i := table.entries[i].(info := locks)];
      } else {
        StoreInNew(table.State(), path, locks);
        var i := table.BindPath(path, None, locks);
      }
    }

    method Forget(path: string)
      requires Valid()
      modifies table
      ensures Valid() && Files() == old(Files()) - {path}
    {
      hide Normal, Sound, Release;
      ForgetName(table.State(), path);
      table.ReleasePath(path);
    }

    method Lock(holder: nat, request: Request) returns (status: Result<nat>)
      requires Valid() && Normal(request.path) && request.start < EOF_END
      modifies table
      ensures Valid()
      ensures status == Locked(ListAt(old(Files()), request.path), holder, request, maxPerFile).0
      ensures Step(old(Files()), maxPerFile, Locking(holder, request), Files())
    {
      ghost var files := Files();
      hide Sound, OneName, Good, FilesOf, Normal, Put, Subtract, Replaced, OwnerKey, Blocked;
      var locks := LocksAt(request.path);
      ListIs(files, request.path);
      LockedGrants(locks, holder, request, maxPerFile);
      var range := RangeOf(request.start, request.length);
      if range.Err? {
        return Err(range.error);
      }
      var start, end := range.value.0, range.value.1;
      var ownerKey := OwnerKey(request.procId, request.clientId);
      if request.typ == UNLCK {
        Unlock(request.path, ownerKey, start, end);
        return Ok(SUCCESS);
      }
      if request.typ != RDLCK && request.typ != WRLCK {
        return Err(EINVAL);
      }
      var held := FindConflict(locks, ownerKey, request.typ, start, end);
      if held.Some? {
        return Ok(BLOCKED);
      }
      if |locks| >= maxPerFile {
        return Ok(ERROR);
      }
      var next := ReplaceRange(locks, Granted(holder, request, end));
      PutList(files, request.path, next);
      SetList(request.path, next);
      return Ok(SUCCESS);
    }

    method Unlock(path: string, ownerKey: string, start: nat, end: nat)
      requires Valid() && Normal(path) && start < end
      modifies table
      ensures Valid()
      ensures Files() == Put(old(Files()), path, Subtract(ListAt(old(Files()), path), ownerKey, start, end))
    {
      if path !in table.byPath {
        assert Files() - {path} == Files();
        return;
      }
      var locks := LocksAt(path);
      var kept := SubtractRange(locks, ownerKey, start, end);
      SubtractCanonical(locks, ownerKey, start, end);
      UnlockSafe(locks, ownerKey, start, end);
      SubtractNamed(locks, ownerKey, start, end);
      if |kept| == 0 {
        Forget(path);
      } else {
        SetList(path, kept);
      }
    }

    method Getlock(request: Request) returns (answer: Result<Option<Holder>>)
      requires Valid() && request.start < EOF_END
      ensures var asked := Asked(ListAt(Files(), request.path), request);
              && (asked.Err? ==> answer == Err(asked.error))
              && (asked.Ok? ==> answer.Ok? && (answer.value.None? <==> asked.value.None?))
              && (asked.Ok? && asked.value.Some? ==>
                    WellFormed(asked.value.value) && answer.value.value == HolderOf(asked.value.value))
      ensures answer.Ok? && answer.value.Some? ==>
                var named := answer.value.value;
                && (named.procId != request.procId % 0x1_0000_0000 || named.clientId != request.clientId)
                && Truthful(ListAt(Files(), request.path), request, named)
                && exists n :: FirstDenial(ListAt(Files(), request.path), request, named, n)
    {
      var range := RangeOf(request.start, request.length);
      if range.Err? {
        return Err(range.error);
      }
      if request.typ != RDLCK && request.typ != WRLCK {
        return Err(EINVAL);
      }
      var locks := LocksAt(request.path);
      var held := FindConflict(locks, OwnerKey(request.procId, request.clientId), request.typ,
                               range.value.0, range.value.1);
      if held.None? {
        return Ok(None);
      }
      AnswerIsAnother(locks, request);
      ghost var n := AnswerIsFirst(locks, request);
      assert WellFormed(locks[n]);
      DenialIsTruthful(locks, request, HolderOf(held.value), n);
      return Ok(Some(HolderOf(held.value)));
    }

    method FindConflict(locks: seq<Lock>, ownerKey: string, typ: nat, start: nat, end: nat) returns (held: Option<Lock>)
      ensures held == FirstConflict(locks, ownerKey, typ, start, end)
    {
      var n := 0;
      while n < |locks|
        invariant 0 <= n <= |locks|
        invariant FirstConflict(locks, ownerKey, typ, start, end) ==
                  FirstConflict(locks[n..], ownerKey, typ, start, end)
      {
        if Overlaps(locks[n], start, end) && Conflicts(locks[n], ownerKey, typ) {
          return Some(locks[n]);
        }
        assert locks[n..][1..] == locks[n + 1..];
        n := n + 1;
      }
      return None;
    }

    // Drop every range a connection holds, or holds through one fid.
    method DropMatching(holder: nat, fid: Option<nat>)
      requires Valid()
      modifies table
      ensures Valid() && Step(old(Files()), maxPerFile, Drop(holder, fid), Files())
    {
      hide Sound, Kept, Good, FilesOf, PathsAgree, KeysAgree, Normal;
      ghost var files := Files();
      var todo := table.byPath.Keys;
      NothingDropped(table.State(), holder, fid);
      while todo != {}
        invariant Valid() && todo <= files.Keys
        invariant PartlyDropped(files, Files(), todo, holder, fid)
        decreases todo
      {
        var path :| path in todo;
        DropOneMore(files, Files(), todo, holder, fid, path);
        todo := todo - {path};
        DropAt(path, holder, fid);
      }
      AllDropped(files, Files(), holder, fid);
    }

    method DropAt(path: string, holder: nat, fid: Option<nat>)
      requires Valid() && path in Files()
      modifies table
      ensures Valid() && Files() == Put(old(Files()), path, Kept(old(Files())[path], holder, fid))
    {
      hide Sound, Kept;
      var locks := LocksAt(path);
      assert Sound(locks) && locks != [];
      var kept := Filter(locks, holder, fid);
      if |kept| == |locks| {
        assert Files()[path := locks] == Files();
        return;
      }
      KeptSound(locks, holder, fid);
      if |kept| == 0 {
        Forget(path);
      } else {
        SetList(path, kept);
      }
    }

    method Filter(locks: seq<Lock>, holder: nat, fid: Option<nat>) returns (kept: seq<Lock>)
      ensures kept == Kept(locks, holder, fid)
    {
      kept := [];
      var n := |locks|;
      while n > 0
        invariant 0 <= n <= |locks|
        invariant kept == Kept(locks[n..], holder, fid)
      {
        n := n - 1;
        assert locks[n..][1..] == locks[n + 1..];
        if !Matches(locks[n], holder, fid) {
          kept := [locks[n]] + kept;
        }
      }
      assert locks[0..] == locks;
    }

    // The ranges move with the file, and what was at the destination goes.
    method Remap(from: string, to: string)
      requires Valid() && (from == to || Renames(from, to))
      modifies table
      ensures Valid() && Step(old(Files()), maxPerFile, Renamed(from, to), Files())
    {
      if from == to {
        return;
      }
      ghost var was, files := table.State(), Files();
      table.RemapSubtree(from, to);
      RemapKeepsOneName(was, table.State(), from, to);
      StepGood(files, maxPerFile, Renamed(from, to), Files());
    }

    method ReleaseName(path: string)
      requires Valid()
      modifies table
      ensures Valid() && Step(old(Files()), maxPerFile, Released(path), Files())
    {
      Forget(path);
    }
  }
}
