// Reassembling a byte stream into frames: what comes out does not depend on
// how the stream was cut, and what it costs in copying.
module Framing {
  import opened Wrappers
  import opened Bytes
  import opened Wire
  import opened Messages

  // ---------- the meaning of a stream ----------

  // The whole frames at the front of a stream, the bytes of a frame that has
  // not all arrived, and whether no size so far was beyond belief.
  datatype Stream = Stream(frames: seq<seq<Byte>>, rest: seq<Byte>, ok: bool)

  predicate Believable(size: nat, limit: nat) { HDRSZ <= size <= limit }

  function SizeAt(s: seq<Byte>): nat
    requires |s| >= HDRSZ
  {
    Value(s[..4])
  }

  function Cut(s: seq<Byte>, limit: nat): Stream
    decreases |s|
  {
    if |s| < HDRSZ then Stream([], s, true)
    else if !Believable(SizeAt(s), limit) then Stream([], [], false)
    else if |s| < SizeAt(s) then Stream([], s, true)
    else
      var behind := Cut(s[SizeAt(s)..], limit);
      Stream([s[..SizeAt(s)]] + behind.frames, behind.rest, behind.ok)
  }

  // How many bytes of a stream go out in whole frames before cutting stops.
  function Taken(s: seq<Byte>, limit: nat): (n: nat)
    ensures n <= |s|
    decreases |s|
  {
    if |s| < HDRSZ || !Believable(SizeAt(s), limit) || |s| < SizeAt(s) then 0
    else SizeAt(s) + Taken(s[SizeAt(s)..], limit)
  }

  lemma {:induction false} TakenIsTheRest(s: seq<Byte>, limit: nat)
    ensures Cut(s, limit).ok ==> Taken(s, limit) + |Cut(s, limit).rest| == |s|
    decreases |s|
  {
    if |s| >= HDRSZ && Believable(SizeAt(s), limit) && |s| >= SizeAt(s) {
      TakenIsTheRest(s[SizeAt(s)..], limit);
    }
  }

  // The start of a frame that has not all arrived, whatever sizes are believed.
  predicate Unfinished(s: seq<Byte>) { |s| < HDRSZ || |s| < SizeAt(s) }

  // A stream in two deliveries: the second is cut with what the first left.
  function Joined(first: Stream, more: seq<Byte>, limit: nat): Stream
  {
    if !first.ok then first
    else
      var behind := Cut(first.rest + more, limit);
      Stream(first.frames + behind.frames, behind.rest, behind.ok)
  }

  lemma SizeAtPrefix(a: seq<Byte>, b: seq<Byte>)
    requires |a| >= HDRSZ
    ensures SizeAt(a + b) == SizeAt(a)
  {
    assert (a + b)[..4] == a[..4];
  }

  // Cutting a stream anywhere changes nothing.
  lemma {:induction false} CutConcat(a: seq<Byte>, b: seq<Byte>, limit: nat)
    ensures Cut(a + b, limit) == Joined(Cut(a, limit), b, limit)
    decreases |a|
  {
    if |a| >= HDRSZ {
      SizeAtPrefix(a, b);
      var size := SizeAt(a);
      if Believable(size, limit) && |a| >= size {
        assert (a + b)[..size] == a[..size] && (a + b)[size..] == a[size..] + b;
        CutConcat(a[size..], b, limit);
        var first := Cut(a[size..], limit);
        if first.ok {
          var behind := Cut(first.rest + b, limit);
          assert [a[..size]] + (first.frames + behind.frames) == [a[..size]] + first.frames + behind.frames;
        }
      } else if Believable(size, limit) {
        assert [] + Cut(a + b, limit).frames == Cut(a + b, limit).frames;
      }
    } else {
      assert [] + Cut(a + b, limit).frames == Cut(a + b, limit).frames;
    }
  }

  // What is held over is the start of one frame and no more.
  lemma {:induction false} RestIsPartial(s: seq<Byte>, limit: nat)
    ensures Cut(s, limit).ok ==> Cut(Cut(s, limit).rest, limit) == Stream([], Cut(s, limit).rest, true)
    ensures |Cut(s, limit).rest| <= |s|
    decreases |s|
  {
    if |s| >= HDRSZ && Believable(SizeAt(s), limit) && |s| >= SizeAt(s) {
      RestIsPartial(s[SizeAt(s)..], limit);
    }
  }

  function Flatten(parts: seq<seq<Byte>>): seq<Byte>
  {
    if parts == [] then [] else parts[0] + Flatten(parts[1..])
  }

  lemma FlattenFront(s: seq<Byte>, n: nat, front: seq<seq<Byte>>, tail: seq<Byte>)
    requires n <= |s| && Flatten(front) + tail == s[n..]
    ensures Flatten([s[..n]] + front) + tail == s
  {
    assert ([s[..n]] + front)[1..] == front;
    assert s[..n] + Flatten(front) + tail == s[..n] + (Flatten(front) + tail);
    assert s[..n] + s[n..] == s;
  }

  // No byte is lost or invented: the frames and the remainder are the stream.
  lemma {:induction false} CutKeepsBytes(s: seq<Byte>, limit: nat)
    requires Cut(s, limit).ok
    ensures Flatten(Cut(s, limit).frames) + Cut(s, limit).rest == s
    decreases |s|
  {
    if |s| >= HDRSZ && |s| >= SizeAt(s) {
      var size := SizeAt(s);
      CutKeepsBytes(s[size..], limit);
      hide Flatten;
      FlattenFront(s, size, Cut(s[size..], limit).frames, Cut(s[size..], limit).rest);
    } else {
      assert [] + s == s;
    }
  }

  // Whole frames: each is as long as its first four bytes say, no shorter than a header and
  // no longer than the limit.
  ghost predicate AllWhole(frames: seq<seq<Byte>>, limit: nat)
  {
    forall k :: 0 <= k < |frames| ==> 7 <= |frames[k]| <= limit && Value(frames[k][..4]) == |frames[k]|
  }

  // A header whose size is none a frame can have.
  predicate BeyondBelief(s: seq<Byte>, limit: nat) { |s| >= 7 && (Value(s[..4]) < 7 || Value(s[..4]) > limit) }

  // What comes out of a stream is whole frames.
  lemma {:induction false} FramesAreWhole(s: seq<Byte>, limit: nat)
    ensures AllWhole(Cut(s, limit).frames, limit)
    decreases |s|
  {
    if |s| >= HDRSZ && Believable(SizeAt(s), limit) && |s| >= SizeAt(s) {
      var size := SizeAt(s);
      FramesAreWhole(s[size..], limit);
      assert s[..size][..4] == s[..4];
    }
  }

  lemma WholeInFront(frame: seq<Byte>, frames: seq<seq<Byte>>, limit: nat)
    requires AllWhole([frame], limit) && AllWhole(frames, limit)
    ensures AllWhole([frame] + frames, limit)
  {
    assert [frame][0] == frame;
  }

  // Cutting fails exactly when behind some whole frames stands a header with a size that
  // is less than a header or more than the limit.
  lemma {:induction false} FailsBehind(s: seq<Byte>, limit: nat) returns (front: seq<seq<Byte>>, tail: seq<Byte>)
    requires !Cut(s, limit).ok
    ensures AllWhole(front, limit) && Flatten(front) + tail == s && BeyondBelief(tail, limit)
    decreases |s|
  {
    if !Believable(SizeAt(s), limit) {
      front, tail := [], s;
      assert [] + s == s;
    } else {
      var size := SizeAt(s);
      front, tail := FailsBehind(s[size..], limit);
      hide Cut, Flatten, AllWhole, BeyondBelief;
      FirstIsWhole(s, limit);
      WholeInFront(s[..size], front, limit);
      FlattenFront(s, size, front, tail);
      front := [s[..size]] + front;
    }
  }

  lemma FirstIsWhole(s: seq<Byte>, limit: nat)
    requires |s| >= HDRSZ && Believable(SizeAt(s), limit) && |s| >= SizeAt(s)
    ensures AllWhole([s[..SizeAt(s)]], limit)
  {
    assert s[..SizeAt(s)][..4] == s[..4];
  }

  lemma {:induction false} FailsThere(front: seq<seq<Byte>>, tail: seq<Byte>, limit: nat)
    requires AllWhole(front, limit) && BeyondBelief(tail, limit)
    ensures !Cut(Flatten(front) + tail, limit).ok
  {
    var s := Flatten(front) + tail;
    if front == [] {
      assert s == tail;
    } else {
      var rest := Flatten(front[1..]) + tail;
      FailsThere(front[1..], tail, limit);
      assert s == front[0] + rest;
      assert s[..4] == front[0][..4] && s[|front[0]|..] == rest;
    }
  }

  ghost predicate HasBadSize(s: seq<Byte>, limit: nat)
  {
    exists front, tail :: AllWhole(front, limit) && Flatten(front) + tail == s && BeyondBelief(tail, limit)
  }

  lemma FailsIff(s: seq<Byte>, limit: nat)
    ensures !Cut(s, limit).ok <==> HasBadSize(s, limit)
  {
    if !Cut(s, limit).ok {
      var front, tail := FailsBehind(s, limit);
    }
    if HasBadSize(s, limit) {
      var front, tail :| AllWhole(front, limit) && Flatten(front) + tail == s && BeyondBelief(tail, limit);
      FailsThere(front, tail, limit);
    }
  }

  // ---------- deliveries ----------

  // What has come out of an assembler and what it holds.
  datatype Delivered = Delivered(frames: seq<seq<Byte>>, pending: seq<Byte>, failed: bool)

  // A failing delivery hands over nothing, and everything after it neither.
  function Push(d: Delivered, chunk: seq<Byte>, limit: nat): Delivered
  {
    if d.failed then d
    else
      var s := Cut(d.pending + chunk, limit);
      if s.ok then Delivered(d.frames + s.frames, s.rest, false) else Delivered(d.frames, [], true)
  }

  function PushAll(chunks: seq<seq<Byte>>, limit: nat): Delivered
  {
    if chunks == [] then Delivered([], [], false)
    else Push(PushAll(chunks[..|chunks| - 1], limit), chunks[|chunks| - 1], limit)
  }

  lemma {:induction false} FlattenSnoc(parts: seq<seq<Byte>>, last: seq<Byte>)
    ensures Flatten(parts + [last]) == Flatten(parts) + last
  {
    if parts == [] {
      assert [] + [last] == [last] && [last][1..] == [] && last + [] == last == [] + last;
    } else {
      assert (parts + [last])[1..] == parts[1..] + [last];
      FlattenSnoc(parts[1..], last);
      assert parts[0] + (Flatten(parts[1..]) + last) == parts[0] + Flatten(parts[1..]) + last;
    }
  }

  // However a stream is cut into deliveries: it fails exactly when the stream
  // holds a size beyond belief, and otherwise the frames and the bytes held
  // are those of the uncut stream.
  lemma {:induction false} ChunksDoNotMatter(chunks: seq<seq<Byte>>, limit: nat)
    ensures var whole, got := Cut(Flatten(chunks), limit), PushAll(chunks, limit);
            && (got.failed <==> !whole.ok)
            && (whole.ok ==> got.frames == whole.frames && got.pending == whole.rest)
            && (!whole.ok ==> got.frames <= whole.frames && got.pending == [])
  {
    if chunks != [] {
      var init, last := chunks[..|chunks| - 1], chunks[|chunks| - 1];
      ChunksDoNotMatter(init, limit);
      assert chunks == init + [last];
      FlattenSnoc(init, last);
      CutConcat(Flatten(init), last, limit);
    }
  }

  // ---------- end to end ----------

  datatype Sent = Sent(message: Message, tag: nat)

  function Encoded(sent: seq<Sent>): seq<Byte>
  {
    if sent == [] then [] else Frame(sent[0].message, sent[0].tag) + Encoded(sent[1..])
  }

  predicate Sendable(s: Sent, limit: nat)
  {
    InRange(s.message) && U16(s.tag) && HDRSZ + |Body(s.message)| <= limit
  }

  // A frame that has not all arrived, of a size worth waiting for.
  predicate Partial(tail: seq<Byte>, limit: nat)
  {
    |tail| >= HDRSZ ==> Believable(SizeAt(tail), limit) && |tail| < SizeAt(tail)
  }

  lemma {:induction false} EncodedCuts(sent: seq<Sent>, tail: seq<Byte>, limit: nat)
    requires forall i :: 0 <= i < |sent| ==> Sendable(sent[i], limit)
    requires Partial(tail, limit)
    ensures var c := Cut(Encoded(sent) + tail, limit);
            && c.ok && c.rest == tail && |c.frames| == |sent|
            && forall i :: 0 <= i < |sent| ==> c.frames[i] == Frame(sent[i].message, sent[i].tag)
  {
    hide Body, Value, Frame;
    if sent == [] {
      assert [] + tail == tail;
    } else {
      var frame := Frame(sent[0].message, sent[0].tag);
      var behind := Encoded(sent[1..]) + tail;
      assert Encoded(sent) + tail == frame + behind;
      assert Sendable(sent[0], limit);
      FrameRoundTrip(sent[0].message, sent[0].tag);
      forall i | 0 <= i < |sent[1..]| ensures Sendable(sent[1..][i], limit) { assert Sendable(sent[i + 1], limit); }
      EncodedCuts(sent[1..], tail, limit);
      CutFrame(frame, behind, limit);
    }
  }

  lemma CutFrame(frame: seq<Byte>, behind: seq<Byte>, limit: nat)
    requires |frame| >= HDRSZ && Value(frame[..4]) == |frame| <= limit
    ensures var c, r := Cut(frame + behind, limit), Cut(behind, limit);
            c == Stream([frame] + r.frames, r.rest, r.ok)
  {
    SizeAtPrefix(frame, behind);
    assert (frame + behind)[..|frame|] == frame && (frame + behind)[|frame|..] == behind;
  }

  // Encode any messages, concatenate, cut the bytes anywhere, push the pieces:
  // the frames that come out decode to exactly those messages, in order, and
  // what is held is exactly the unfinished tail.
  lemma EndToEnd(sent: seq<Sent>, tail: seq<Byte>, chunks: seq<seq<Byte>>, limit: nat)
    requires forall i :: 0 <= i < |sent| ==> Sendable(sent[i], limit)
    requires Partial(tail, limit) && Flatten(chunks) == Encoded(sent) + tail
    ensures var got := PushAll(chunks, limit);
            && !got.failed && got.pending == tail && |got.frames| == |sent|
            && forall i :: 0 <= i < |sent| ==> Decode(got.frames[i]) == Some((sent[i].message, sent[i].tag))
  {
    hide Body, Value, Frame, Decode, Cut, Encoded;
    EncodedCuts(sent, tail, limit);
    ChunksDoNotMatter(chunks, limit);
    forall i | 0 <= i < |sent|
      ensures Decode(PushAll(chunks, limit).frames[i]) == Some((sent[i].message, sent[i].tag))
    {
      assert Sendable(sent[i], limit);
      FrameRoundTrip(sent[i].message, sent[i].tag);
    }
  }

  // ---------- the assembler ----------

  method ReadSize(bytes: array<Byte>, at: nat) returns (size: nat)
    requires at + 4 <= bytes.Length
    ensures size == Value(bytes[at..at + 4])
  {
    var b0: int, b1: int, b2: int, b3: int := bytes[at], bytes[at + 1], bytes[at + 2], bytes[at + 3];
    size := b0 + 0x100 * b1 + 0x1_0000 * b2 + 0x100_0000 * b3;
    FourBytes(bytes[at..at + 4], b0, b1, b2, b3);
  }

  lemma FourBytes(s: seq<Byte>, b0: int, b1: int, b2: int, b3: int)
    requires |s| == 4 && s[0] == b0 && s[1] == b1 && s[2] == b2 && s[3] == b3
    ensures Value(s) == b0 + 0x100 * b1 + 0x1_0000 * b2 + 0x100_0000 * b3
  {
    assert s[1..][1..] == s[2..] && s[2..][1..] == s[3..] && s[3..][1..] == [];
    assert Value(s[3..]) == b3;
    assert Value(s[2..]) == b2 + 256 * Value(s[3..]);
    assert Value(s[1..]) == b1 + 256 * Value(s[2..]);
  }

  // ---------- what a delivery copies within the buffer ----------

  // Bytes moved to the front of a buffer that has the room, but not behind them.
  function SlideCost(start: nat, end: nat, capacity: nat, count: nat): nat
    requires start <= end
  {
    if end - start + count <= capacity < end + count then end - start else 0
  }

  // Bytes moved to a larger buffer.
  function GrowCost(start: nat, end: nat, capacity: nat, count: nat): nat
    requires start <= end
  {
    if end - start + count > capacity then end - start else 0
  }

  lemma NothingHeldMovesNothing(at: nat, capacity: nat, count: nat)
    ensures SlideCost(at, at, capacity, count) == 0 && GrowCost(at, at, capacity, count) == 0
  {
  }

  class FrameAssembler {
    var buffer: array<Byte>
    var start: nat
    var end: nat
    var limit: nat
    var failed: bool
    // The bytes ever delivered, and those copied in, slid to the front, moved to
    // a larger buffer, and copied out. None of these is ever set back.
    ghost var received: nat
    ghost var copiedIn: nat
    ghost var slid: nat
    ghost var grown: nat
    ghost var copiedOut: nat
    // What had been delivered when the buffer was last given up.
    ghost var base: nat

    ghost predicate Held()
      reads this
    {
      start <= end <= buffer.Length && limit >= HDRSZ && (buffer.Length == 0 || buffer.Length >= 1024)
    }

    ghost predicate Valid()
      reads this, buffer
    {
      && Held()
      && (failed ==> start == end)
      && (start == end ==> start == 0)
      && Unfinished(buffer[start..end])
    }

    // Every byte is copied in at most once, slid at most once and copied out at
    // most once. Growing doubles, so it moves at most the size the buffer has
    // reached, and that is at most twice what arrived for it.
    ghost predicate Cheap()
      reads this
      requires start <= end
    {
      Due(0)
    }

    // The same, with the last so many bytes announced and not handled yet.
    ghost predicate Due(count: nat)
      reads this
      requires start <= end
    {
      && copiedIn + count <= received && copiedOut + (end - start) + count <= received
      && slid + (if start > 0 then end - start else 0) + count <= received
      && Grows() && end - start + count <= received - base
    }

    // What no failure takes back.
    ghost predicate Paid()
      reads this
    {
      copiedIn <= received && copiedOut <= received && slid <= received && Grows()
    }

    ghost predicate Grows()
      reads this`buffer, this`received, this`base, this`grown
    {
      && base <= received
      && (buffer.Length > 1024 ==> buffer.Length <= 2 * (received - base))
      && grown <= 2 * base + (if buffer.Length > 1024 then buffer.Length else 0)
    }

    ghost function Copied(): nat
      reads this
    {
      copiedIn + slid + grown + copiedOut
    }

    ghost function Pending(): (s: seq<Byte>)
      reads this, buffer
      requires Held()
    {
      buffer[start..end]
    }

    constructor (limit: nat)
      requires limit >= HDRSZ
      ensures Valid() && Cheap() && !failed && Pending() == [] && this.limit == limit && fresh(buffer)
      ensures received == 0 && Copied() == 0
    {
      buffer := new Byte[0](_ => 0);
      start, end, failed := 0, 0, false;
      this.limit := limit;
      received, copiedIn, slid, grown, copiedOut, base := 0, 0, 0, 0, 0, 0;
    }

    // The limit moves once a message size is agreed, whatever is held by then.
    method SetLimit(value: nat) returns (ok: bool)
      requires Valid()
      modifies this`limit
      ensures Valid() && (old(Cheap()) ==> Cheap()) && Pending() == old(Pending())
      ensures (ok <==> value >= HDRSZ) && limit == if ok then value else old(limit)
    {
      ok := value >= HDRSZ;
      if ok { limit := value; }
    }

    // Make room behind what is held, sliding it to the front or growing.
    method Room(count: nat)
      requires Held() && Grows() && end - start + count <= received - base
      modifies this`buffer, this`start, this`end, this`slid, this`grown, buffer
      ensures Held() && Grows() && (buffer == old(buffer) || fresh(buffer)) && end + count <= buffer.Length
      ensures Pending() == old(Pending())
      ensures slid == old(slid) + SlideCost(old(start), old(end), old(buffer.Length), count)
      ensures grown == old(grown) + GrowCost(old(start), old(end), old(buffer.Length), count)
      ensures end - start == old(end - start)
      ensures start == old(start) || start == 0
      ensures slid > old(slid) ==> old(start) > 0 && start == 0
    {
      var live := end - start;
      var needed := live + count;
      ghost var held := Pending();
      if needed > buffer.Length {
        var capacity := Doubled(needed);
        var bigger := new Byte[capacity](_ => 0);
        forall k | 0 <= k < live {
          bigger[k] := buffer[start + k];
        }
        assert bigger[0..live] == held;
        grown := grown + live;
        buffer := bigger;
        start, end := 0, live;
      } else if end + count > buffer.Length {
        forall k | 0 <= k < live {
          buffer[k] := buffer[start + k];
        }
        assert buffer[0..live] == held;
        slid := slid + live;
        start, end := 0, live;
      }
    }

    // The capacity to grow to: doublings until what is needed fits.
    method Doubled(needed: nat) returns (capacity: nat)
      requires Held() && needed > buffer.Length
      ensures capacity >= needed && capacity >= 1024
      ensures capacity > 1024 ==> capacity <= 2 * needed
      ensures buffer.Length > 0 ==> capacity >= 2 * buffer.Length
    {
      capacity := if buffer.Length > 1024 then buffer.Length else 1024;
      while capacity < needed
        invariant capacity >= 1024
        invariant capacity > 1024 ==> capacity <= 2 * needed
        invariant capacity >= 2 * buffer.Length || capacity == buffer.Length || buffer.Length == 0
        decreases needed - capacity
      {
        capacity := capacity * 2;
      }
    }

    // What is delivered goes in behind what is held.
    method Append(chunk: array<Byte>, from: nat)
      requires Held() && Grows() && from <= chunk.Length && chunk != buffer
      requires end - start + (chunk.Length - from) <= received - base
      modifies this`buffer, this`start, this`end, this`slid, this`grown, this`copiedIn, buffer
      ensures Held() && Grows() && (buffer == old(buffer) || fresh(buffer))
      ensures Pending() == old(Pending()) + chunk[from..]
      ensures copiedIn == old(copiedIn) + (chunk.Length - from)
      ensures slid == old(slid) + SlideCost(old(start), old(end), old(buffer.Length), chunk.Length - from)
      ensures grown == old(grown) + GrowCost(old(start), old(end), old(buffer.Length), chunk.Length - from)
      ensures start == old(start) || start == 0
      ensures slid > old(slid) ==> old(start) > 0 && start == 0
    {
      hide Grows;
      Room(chunk.Length - from);
      CopyIn(chunk, from);
    }

    method CopyIn(chunk: array<Byte>, from: nat)
      requires Held() && from <= chunk.Length && chunk != buffer && end + (chunk.Length - from) <= buffer.Length
      modifies this`end, this`copiedIn, buffer
      ensures Held() && Pending() == old(Pending()) + chunk[from..]
      ensures copiedIn == old(copiedIn) + (chunk.Length - from)
    {
      var count := chunk.Length - from;
      ghost var held := Pending();
      forall k | 0 <= k < count {
        buffer[end + k] := chunk[from + k];
      }
      assert buffer[start..end] == held;
      copiedIn := copiedIn + count;
      end := end + count;
      assert buffer[start..end] == held + chunk[from..];
    }

    // The held bytes go, and their buffer with them; what was paid for it stays paid.
    method Drop()
      requires limit >= HDRSZ && Grows()
      modifies this`buffer, this`start, this`end, this`base
      ensures Held() && Grows() && start == end == 0 && fresh(buffer) && buffer.Length == 0 && base == received
    {
      buffer := new Byte[0](_ => 0);
      start, end := 0, 0;
      base := received;
    }

    // One delivery: the frames it completed, or nothing once a size was beyond
    // belief, then and ever after. Exactly what it copies is in the contract.
    method Deliver(chunk: array<Byte>) returns (r: Option<seq<seq<Byte>>>)
      requires Valid() && Cheap() && chunk != buffer
      modifies this, buffer
      ensures Valid() && Cheap() && limit == old(limit) && (buffer == old(buffer) || fresh(buffer))
      ensures old(failed) ==> failed && r == None
      ensures !old(failed) ==>
                var s := Cut(old(Pending()) + chunk[..], limit);
                && failed == !s.ok
                && (s.ok ==> r == Some(s.frames) && Pending() == s.rest)
                && (!s.ok ==> r == None && Pending() == [])
      ensures received == old(received) + chunk.Length
      ensures old(failed) ==> Copied() == old(Copied())
      ensures !old(failed) ==>
                var s := Cut(old(Pending()) + chunk[..], limit);
                && copiedIn == old(copiedIn) + (if old(start < end) then chunk.Length else if s.ok then |s.rest| else 0)
                && copiedOut == old(copiedOut) + Taken(old(Pending()) + chunk[..], limit)
                && slid == old(slid) + SlideCost(old(start), old(end), old(buffer.Length), chunk.Length)
                && grown == old(grown) + GrowCost(old(start), old(end), old(buffer.Length), chunk.Length)
      ensures Copied() <= 5 * received
    {
      received := received + chunk.Length;
      if failed {
        return None;
      }
      hide Cut, Taken, Unfinished, SizeAt;
      r := Parse(chunk);
      if r.None? {
        Fail();
      }
    }

    method Parse(chunk: array<Byte>) returns (r: Option<seq<seq<Byte>>>)
      requires Valid() && !failed && Due(chunk.Length) && chunk != buffer
      modifies this`buffer, this`start, this`end, this`slid, this`grown, this`copiedIn, this`copiedOut, buffer
      ensures Held() && Paid() && (buffer == old(buffer) || fresh(buffer))
      ensures r.Some? ==> Valid() && Cheap()
      ensures var s := Cut(old(Pending()) + chunk[..], limit);
              && (s.ok <==> r.Some?) && (s.ok ==> r.value == s.frames && Pending() == s.rest)
              && copiedIn == old(copiedIn) + (if old(start < end) then chunk.Length else if s.ok then |s.rest| else 0)
      ensures copiedOut == old(copiedOut) + Taken(old(Pending()) + chunk[..], limit)
      ensures slid == old(slid) + SlideCost(old(start), old(end), old(buffer.Length), chunk.Length)
      ensures grown == old(grown) + GrowCost(old(start), old(end), old(buffer.Length), chunk.Length)
    {
      hide Cut, Taken, Unfinished, SizeAt, Grows;
      RestIsUnfinished(Pending() + chunk[..], limit);
      if start == end {
        NothingHeldMovesNothing(start, buffer.Length, chunk.Length);
        assert Pending() + chunk[..] == chunk[..];
        r := CutChunk(chunk);
      } else {
        r := CutBuffer(chunk);
      }
    }

    method Fail()
      requires limit >= HDRSZ && Paid()
      modifies this`buffer, this`start, this`end, this`base, this`failed
      ensures Valid() && Cheap() && failed && Pending() == [] && fresh(buffer)
    {
      failed := true;
      Drop();
      assert buffer[start..end] == [];
    }

    // Frames cut straight out of a delivery, up to where the next is cut short.
    method ScanChunk(chunk: array<Byte>) returns (frames: seq<seq<Byte>>, at: nat, ok: bool)
      requires limit >= HDRSZ
      modifies this`copiedOut
      ensures at <= chunk.Length && copiedOut == old(copiedOut) + Taken(chunk[..], limit)
      ensures ok <==> Cut(chunk[..], limit).ok
      ensures ok ==> Cut(chunk[..], limit) == Stream(frames, chunk[at..], true)
      ensures ok ==> at == Taken(chunk[..], limit)
    {
      hide Cut, Taken, Value, Scanned, Partial, SizeAt;
      frames, at := [], 0;
      NothingScanned(chunk[..], limit);
      while chunk.Length - at >= HDRSZ
        invariant 0 <= at <= chunk.Length && Scanned(chunk[..], at, limit, frames)
        invariant copiedOut == old(copiedOut) + at
      {
        var size := ReadSize(chunk, at);
        assert chunk[..][at..at + 4] == chunk[at..at + 4];
        ScanTurn(chunk[..], at, limit, frames, size);
        if size < HDRSZ || size > limit {
          return frames, at, false;
        }
        if chunk.Length - at < size {
          break;
        }
        frames := frames + [chunk[at..at + size]];
        copiedOut := copiedOut + size;
        at := at + size;
      }
      ScanDone(chunk[..], at, limit, frames);
      ok := true;
    }

    // Nothing held over: only the remainder goes into the buffer.
    method CutChunk(chunk: array<Byte>) returns (r: Option<seq<seq<Byte>>>)
      requires Held() && start == end == 0 && Due(chunk.Length) && chunk != buffer
      modifies this`buffer, this`start, this`end, this`slid, this`grown, this`copiedIn, this`copiedOut, buffer
      ensures Held() && (buffer == old(buffer) || fresh(buffer))
      ensures var s := Cut(chunk[..], limit);
              && (s.ok <==> r.Some?) && (s.ok ==> r.value == s.frames && Pending() == s.rest)
              && copiedIn == old(copiedIn) + (if s.ok then |s.rest| else 0)
      ensures copiedOut == old(copiedOut) + Taken(chunk[..], limit)
      ensures slid == old(slid) && grown == old(grown)
      ensures start == 0 && Paid() && (r.Some? ==> Cheap())
    {
      hide Cut, Taken, Grows;
      var frames, at, ok := ScanChunk(chunk);
      if !ok {
        return None;
      }
      if at < chunk.Length {
        Append(chunk, at);
        assert Pending() == chunk[at..];
      } else {
        assert Pending() == chunk[at..] == [];
      }
      return Some(frames);
    }

    // A partial frame held: the delivery is appended, and frames come out of
    // the buffer.
    method CutBuffer(chunk: array<Byte>) returns (r: Option<seq<seq<Byte>>>)
      requires Valid() && start < end && Due(chunk.Length) && chunk != buffer
      modifies this`buffer, this`start, this`end, this`slid, this`grown, this`copiedIn, this`copiedOut, buffer
      ensures Held() && Paid() && (buffer == old(buffer) || fresh(buffer))
      ensures var s := Cut(old(Pending()) + chunk[..], limit);
              && (s.ok <==> r.Some?) && (s.ok ==> r.value == s.frames && Pending() == s.rest)
      ensures r.Some? ==> (start == end ==> start == 0) && Cheap()
      ensures copiedIn == old(copiedIn) + chunk.Length
      ensures copiedOut == old(copiedOut) + Taken(old(Pending()) + chunk[..], limit)
      ensures slid == old(slid) + SlideCost(old(start), old(end), old(buffer.Length), chunk.Length)
      ensures grown == old(grown) + GrowCost(old(start), old(end), old(buffer.Length), chunk.Length)
    {
      hide Cut, Taken;
      ghost var held := Pending();
      assert chunk[0..] == chunk[..];
      Append(chunk, 0);
      r := CutHeld(held, chunk[..]);
    }

    // Frames come off the front of what is held. What is left after one has
    // come off arrived with the last delivery.
    method CutHeld(ghost held: seq<Byte>, ghost chunk: seq<Byte>) returns (r: Option<seq<seq<Byte>>>)
      requires Held() && Pending() == held + chunk && held != []
      requires Unfinished(held)
      modifies this`start, this`end, this`copiedOut
      ensures Held()
      ensures var s := Cut(held + chunk, limit);
              && (s.ok <==> r.Some?) && (s.ok ==> r.value == s.frames && Pending() == s.rest)
      ensures r.Some? ==> (start == end ==> start == 0)
      ensures copiedOut == old(copiedOut) + Taken(held + chunk, limit)
      ensures r.Some? ==> copiedOut + (end - start) == old(copiedOut) + |held + chunk|
      ensures r.Some? ==> end - start <= |chunk| || (start == old(start) && end == old(end))
      ensures end - start <= |held + chunk|
    {
      hide Cut, Taken, Unfinished;
      ghost var first := start;
      FirstFrameSpans(held, chunk);
      var frames, ok := ScanHeld(held + chunk, |held|);
      if !ok {
        return None;
      }
      if start == end {
        start, end := 0, 0;
      }
      return Some(frames);
    }

    // What is held is where the buffer has it.
    lemma HeldAt(held: seq<Byte>, first: nat, i: nat, j: nat)
      requires first <= end <= buffer.Length && buffer[first..end] == held && i <= j <= |held|
      ensures held[i..j] == buffer[first + i..first + j]
    {
      SliceOfSlice(buffer[..], first, end, i, j);
    }

    // Frames off the front of the buffer, up to where the next is cut short. If the
    // first ends past the first `short` bytes, then so does whatever comes off.
    method ScanHeld(ghost held: seq<Byte>, ghost short: nat) returns (frames: seq<seq<Byte>>, ok: bool)
      requires Held() && Pending() == held
      requires |held| >= HDRSZ && SizeAt(held) >= HDRSZ ==> SizeAt(held) > short
      modifies this`start, this`copiedOut
      ensures Held() && copiedOut == old(copiedOut) + Taken(held, limit)
      ensures ok <==> Cut(held, limit).ok
      ensures ok ==> Cut(held, limit) == Stream(frames, Pending(), true) && start == old(start) + Taken(held, limit)
      ensures old(start) <= start && (start > old(start) ==> start - old(start) > short)
    {
      hide Cut, Taken, Value, Scanned, Partial, SizeAt;
      ghost var first, k := start, 0;
      frames := [];
      NothingScanned(held, limit);
      while end - start >= HDRSZ
        invariant k <= |held| && start == first + k && Scanned(held, k, limit, frames)
        invariant k == 0 || k > short
        invariant copiedOut == old(copiedOut) + k
      {
        var size := ReadSize(buffer, start);
        HeldAt(held, first, k, k + 4);
        ScanTurn(held, k, limit, frames, size);
        if size < HDRSZ || size > limit {
          return frames, false;
        }
        if end - start < size {
          break;
        }
        HeldAt(held, first, k, k + size);
        frames := frames + [buffer[start..start + size]];
        copiedOut := copiedOut + size;
        start, k := start + size, k + size;
      }
      ScanDone(held, k, limit, frames);
      HeldAt(held, first, k, |held|);
      ok := true;
    }

    // For the next connection: nothing held, nothing latched, ready to deliver to.
    method Reset()
      requires Valid() && Cheap()
      modifies this`buffer, this`start, this`end, this`base, this`failed
      ensures Valid() && Cheap() && !failed && Pending() == [] && fresh(buffer)
    {
      Drop();
      failed := false;
      assert buffer[start..end] == [];
    }
  }

  lemma SliceOfSlice(all: seq<Byte>, a: nat, b: nat, i: nat, j: nat)
    requires a <= b <= |all| && i <= j <= b - a
    ensures all[a..b][i..j] == all[a + i..a + j]
  {
    var x, y := all[a..b][i..j], all[a + i..a + j];
    assert forall k :: 0 <= k < j - i ==> x[k] == y[k];
  }

  function Prefixed(frames: seq<seq<Byte>>, s: Stream): Stream { Stream(frames + s.frames, s.rest, s.ok) }

  lemma CutWhole(s: seq<Byte>, limit: nat)
    ensures Cut(s, limit) == Prefixed([], Cut(s, limit))
  {
    assert [] + Cut(s, limit).frames == Cut(s, limit).frames;
  }

  // One turn of either loop.
  lemma CutStep(frames: seq<seq<Byte>>, s: seq<Byte>, limit: nat)
    requires |s| >= HDRSZ
    ensures !Believable(SizeAt(s), limit) ==> !Cut(s, limit).ok
    ensures Believable(SizeAt(s), limit) && |s| >= SizeAt(s) ==>
              Prefixed(frames, Cut(s, limit)) == Prefixed(frames + [s[..SizeAt(s)]], Cut(s[SizeAt(s)..], limit))
  {
    if Believable(SizeAt(s), limit) && |s| >= SizeAt(s) {
      var behind := Cut(s[SizeAt(s)..], limit);
      assert frames + ([s[..SizeAt(s)]] + behind.frames) == frames + [s[..SizeAt(s)]] + behind.frames;
    }
  }

  lemma TakenStep(s: seq<Byte>, limit: nat)
    requires |s| >= HDRSZ
    ensures Taken(s, limit) ==
            if Believable(SizeAt(s), limit) && |s| >= SizeAt(s) then SizeAt(s) + Taken(s[SizeAt(s)..], limit) else 0
  {
  }

  lemma {:induction false} RestIsUnfinished(s: seq<Byte>, limit: nat)
    ensures Unfinished(Cut(s, limit).rest)
    decreases |s|
  {
    if |s| >= HDRSZ && Believable(SizeAt(s), limit) && |s| >= SizeAt(s) {
      RestIsUnfinished(s[SizeAt(s)..], limit);
    }
  }

  // A scan has taken the frames off the first bytes of a stream.
  ghost predicate Scanned(s: seq<Byte>, k: nat, limit: nat, frames: seq<seq<Byte>>)
  {
    && k <= |s| && Cut(s, limit) == Prefixed(frames, Cut(s[k..], limit))
    && Taken(s, limit) == k + Taken(s[k..], limit)
  }

  lemma NothingScanned(s: seq<Byte>, limit: nat)
    ensures Scanned(s, 0, limit, [])
  {
    assert s[0..] == s;
    CutWhole(s, limit);
  }

  // One turn of a scan that has read the size at a position.
  lemma ScanTurn(s: seq<Byte>, k: nat, limit: nat, frames: seq<seq<Byte>>, size: nat)
    requires k + HDRSZ <= |s| && size == Value(s[k..k + 4]) && Scanned(s, k, limit, frames)
    ensures k == 0 ==> size == SizeAt(s)
    ensures size < HDRSZ || size > limit ==> !Cut(s, limit).ok && Taken(s, limit) == k
    ensures HDRSZ <= size <= limit && k + size <= |s| ==> Scanned(s, k + size, limit, frames + [s[k..k + size]])
    ensures HDRSZ <= size <= limit && k + size > |s| ==> Partial(s[k..], limit)
  {
    hide Cut, Taken, Value;
    assert s[k..][..4] == s[k..k + 4];
    CutStep(frames, s[k..], limit);
    TakenStep(s[k..], limit);
    if HDRSZ <= size <= limit && k + size <= |s| {
      assert s[k..][..size] == s[k..k + size] && s[k..][size..] == s[k + size..];
    }
  }

  // A scan that stops at the start of a frame is done.
  lemma ScanDone(s: seq<Byte>, k: nat, limit: nat, frames: seq<seq<Byte>>)
    requires Scanned(s, k, limit, frames) && (|s| - k < HDRSZ || Partial(s[k..], limit))
    ensures Cut(s, limit) == Stream(frames, s[k..], true) && Taken(s, limit) == k
  {
    hide Cut, Taken;
    ShortIsPartial(s[k..], limit);
    CutShort(frames, s[k..], limit);
  }

  lemma ShortIsPartial(s: seq<Byte>, limit: nat)
    ensures |s| < HDRSZ ==> Partial(s, limit)
  {
  }

  lemma CutShort(frames: seq<seq<Byte>>, s: seq<Byte>, limit: nat)
    requires Partial(s, limit)
    ensures Prefixed(frames, Cut(s, limit)) == Stream(frames, s, true) && Taken(s, limit) == 0
  {
    assert frames + [] == frames;
  }

  // The first frame a delivery completes ends past everything held before.
  lemma FirstFrameSpans(held: seq<Byte>, chunk: seq<Byte>)
    requires Unfinished(held)
    ensures |held + chunk| >= HDRSZ && SizeAt(held + chunk) >= HDRSZ ==> SizeAt(held + chunk) > |held|
  {
    if |held| >= HDRSZ {
      SizeAtPrefix(held, chunk);
    }
  }
}
