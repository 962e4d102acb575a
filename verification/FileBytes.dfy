// A file's buffer with spare capacity behind it, the handles open on it, and
// what growing it a chunk at a time costs.
module FileBytes {
  import opened Wrappers
  import opened Bytes

  const MAX_SAFE_INTEGER: int := 0x1F_FFFF_FFFF_FFFF

  // ---------- the cost of resizing ----------

  function Distance(a: nat, b: nat): nat { if a > b then a - b else b - a }

  predicate InPlace(length: nat, capacity: nat, size: nat)
  {
    size == length || (size <= capacity && size * 4 >= capacity)
  }

  // Doubling first when growing; exactly the size when shrinking.
  function NewCapacity(length: nat, capacity: nat, size: nat): nat
  {
    if InPlace(length, capacity, size) then capacity
    else if size > length then Max(size, capacity * 2)
    else size
  }

  function CopyCost(length: nat, capacity: nat, size: nat): nat
  {
    if InPlace(length, capacity, size) then 0 else Min(size, length)
  }

  // A growth wants a larger buffer, and there is no room for one twice the size.
  predicate Denied(length: nat, capacity: nat, size: nat, doublingFits: bool)
  {
    size > length && !InPlace(length, capacity, size) && !doublingFits
  }

  // Credit stored in the buffer: how far the length is from half the capacity.
  function Potential(length: nat, capacity: nat): nat { Distance(2 * length, capacity) }

  predicate Reasonable(length: nat, capacity: nat) { length <= capacity <= 4 * length }

  lemma ResizeAmortized(length: nat, capacity: nat, size: nat)
    requires Reasonable(length, capacity)
    ensures Reasonable(size, NewCapacity(length, capacity, size))
    ensures CopyCost(length, capacity, size) + Potential(size, NewCapacity(length, capacity, size)) <=
            Potential(length, capacity) + 3 * Distance(size, length)
  {
  }

  // A growth that may not double is made to measure, and what that costs more is
  // at most twice what the file held.
  lemma DeniedAmortized(length: nat, capacity: nat, size: nat)
    requires Reasonable(length, capacity) && size > length && !InPlace(length, capacity, size)
    ensures Reasonable(size, size)
    ensures CopyCost(length, capacity, size) + Potential(size, size) <=
            Potential(length, capacity) + 3 * Distance(size, length) + 2 * length
  {
  }

  // ---------- the buffer ----------

  method Clear(buffer: array<Byte>, from: nat, to: nat)
    requires from <= to <= buffer.Length
    modifies buffer
    ensures buffer[..] == old(buffer[..from]) + Zeros(to - from) + old(buffer[to..])
  {
    forall k | from <= k < to {
      buffer[k] := 0;
    }
  }

  // Copy part of one array over part of another.
  method Splice(target: array<Byte>, start: nat, source: array<Byte>, from: nat, count: nat)
    requires target != source && start + count <= target.Length && from + count <= source.Length
    modifies target
    ensures target[..] == old(target[..start]) + source[from..from + count] + old(target[start + count..])
  {
    forall k | 0 <= k < count {
      target[start + k] := source[from + k];
    }
    forall j | 0 <= j < target.Length
      ensures target[j] == (old(target[..start]) + source[from..from + count] + old(target[start + count..]))[j]
    {
      if start <= j < start + count {
        assert target[start + (j - start)] == source[from + (j - start)];
      }
    }
  }

  class ByteHolder {
    var buffer: array<Byte>
    var length: nat
    // The bytes ever copied to another buffer, those the size ever changed by, and
    // twice those held whenever there was no room to double. None is ever set back.
    ghost var copied: nat
    ghost var changed: nat
    ghost var denied: nat

    ghost predicate Valid()
      reads this
    {
      Reasonable(length, buffer.Length) && copied + Potential(length, buffer.Length) <= 3 * changed + denied
    }

    // However a file is resized, the bytes copied are at most three times those its
    // size changed by, as long as a buffer twice the size could be had.
    lemma CopyingIsLinear()
      requires Valid()
      ensures copied <= 3 * changed + denied
      ensures denied == 0 ==> copied <= 3 * changed
    {
    }

    ghost function Contents(): (s: seq<Byte>)
      reads this, buffer
      requires Valid()
      ensures |s| == length
    {
      buffer[..length]
    }

    constructor ()
      ensures Valid() && Contents() == [] && fresh(buffer) && buffer.Length == 0
      ensures copied == changed == denied == 0
    {
      buffer := new Byte[0](_ => 0);
      length, copied, changed, denied := 0, 0, 0, 0;
    }

    // Set the length. `doublingFits` and `exactFits` are the engine's answers
    // to the two allocations this may ask for.
    method Resize(size: nat, doublingFits: bool, exactFits: bool) returns (ok: bool)
      requires Valid()
      modifies this, buffer
      ensures Valid() && (buffer == old(buffer) || fresh(buffer))
      ensures ok ==> Contents() == Resized(old(Contents()), size)
      ensures !ok ==> Contents() == old(Contents()) && buffer == old(buffer)
      ensures !ok ==> !exactFits && !InPlace(old(length), old(buffer.Length), size)
      ensures ok && doublingFits ==> buffer.Length == NewCapacity(old(length), old(buffer.Length), size)
      ensures copied == old(copied) + if ok then CopyCost(old(length), old(buffer.Length), size) else 0
      ensures changed == old(changed) + if ok then Distance(size, old(length)) else 0
      ensures denied == old(denied) +
              if ok && Denied(old(length), old(buffer.Length), size, doublingFits) then 2 * old(length) else 0
    {
      if size == length {
        return true;
      }
      var capacity := buffer.Length;
      ResizeAmortized(length, capacity, size);
      if size <= capacity && size * 4 >= capacity {
        ResizeInPlace(size);
        return true;
      }
      if size > length && doublingFits {
        Reallocate(size, Max(size, capacity * 2));
      } else if exactFits {
        if size > length {
          DeniedAmortized(length, capacity, size);
          denied := denied + 2 * length;
        }
        Reallocate(size, size);
      } else {
        return false;
      }
      return true;
    }

    method ResizeInPlace(size: nat)
      requires Valid() && size <= buffer.Length <= size * 4
      modifies this`length, this`changed, buffer
      ensures Valid() && Contents() == Resized(old(Contents()), size)
      ensures changed == old(changed) + Distance(size, old(length))
    {
      ghost var was := Contents();
      // A shrink leaves its bytes behind the length; growing over them zeroes them.
      if size > length {
        Clear(buffer, length, size);
        assert buffer[..size] == buffer[..][..size] == was + Zeros(size - |was|);
      }
      changed := changed + Distance(size, length);
      length := size;
    }

    method Reallocate(size: nat, room: nat)
      requires length <= buffer.Length && Reasonable(size, room)
      requires copied + Min(size, length) + Potential(size, room) <= 3 * (changed + Distance(size, length)) + denied
      modifies this`buffer, this`length, this`copied, this`changed
      ensures Valid() && fresh(buffer) && buffer.Length == room && Contents() == Resized(old(buffer[..length]), size)
      ensures copied == old(copied) + Min(size, old(length)) && changed == old(changed) + Distance(size, old(length))
    {
      var next := new Byte[room](_ => 0);
      var kept := Min(size, length);
      ghost var blank := next[..];
      Splice(next, 0, buffer, 0, kept);
      assert next[..] == buffer[..kept] + blank[kept..];
      assert next[..size] == next[..][..size] == buffer[..kept] + Zeros(size - kept);
      assert buffer[..kept] == buffer[..length][..kept];
      copied, changed := copied + kept, changed + Distance(size, length);
      buffer := next;
      length := size;
    }
  }

  // ---------- argument checks ----------

  // The stretch of a buffer a call names: accepted exactly when it lies inside the
  // buffer, except that an empty read may start anywhere.
  function ValidateRange(byteLength: nat, offset: Option<int>, length: Option<int>, write: bool):
    (r: Result<(nat, nat)>)
    ensures r.Err? ==> r.error == ERANGE
    ensures r.Ok? ==> (r.value.1 == 0 || r.value.0 + r.value.1 <= byteLength)
    ensures r.Ok? && write ==> r.value.0 + r.value.1 <= byteLength
  {
    var start := if offset.Some? then offset.value else 0;
    if start < 0 || start > MAX_SAFE_INTEGER then Err(ERANGE)
    else if write && start > byteLength then Err(ERANGE)
    else
      var count := if length.Some? then length.value else byteLength - start;
      if count < 0 then Err(ERANGE)
      else if count > 0 && count > byteLength - start then Err(ERANGE)
      else Ok((start, count))
  }

  // An explicit position, or nothing for "wherever the handle is".
  function ValidatePosition(position: Option<int>): (r: Result<Option<nat>>)
    ensures r.Err? ==> r.error == ERANGE
  {
    if position.None? || position.value == -1 then Ok(None)
    else if position.value < -1 || position.value > MAX_SAFE_INTEGER then Err(ERANGE)
    else Ok(Some(position.value))
  }

  lemma RangeChecked(byteLength: nat, offset: Option<int>, length: Option<int>, write: bool)
    ensures var r := ValidateRange(byteLength, offset, length, write);
            var start := offset.GetOr(0); var count := length.GetOr(byteLength - start);
            && (r.Ok? <==> 0 <= start <= MAX_SAFE_INTEGER && 0 <= count &&
                           (start + count <= byteLength || (count == 0 && !write)))
            && (r.Ok? ==> r.value == (start, count))
  {
  }

  lemma PositionChecked(position: Option<int>)
    ensures var r := ValidatePosition(position);
            && (r.Ok? <==> -1 <= position.GetOr(-1) <= MAX_SAFE_INTEGER)
            && (r.Ok? ==> if r.value.None? then position.GetOr(-1) == -1 else position == Some(r.value.value))
  {
  }

  lemma SliceOfPrefix(all: seq<Byte>, length: nat, from: nat, count: nat)
    requires from + count <= length <= |all|
    ensures all[..length][from..from + count] == all[from..from + count]
  {
  }

  // ---------- open handles ----------

  // The size's change is on the file's account, and nothing is denied that fits.
  ghost predicate Charged(length: nat, changed: nat, denied: nat, node: ByteHolder, doublingFits: bool)
    reads node
  {
    node.changed == changed + Distance(node.length, length) && (doublingFits ==> node.denied == denied)
  }

  // Grow the file if the bytes reach past its end, then copy them in.
  method Overwrite(node: ByteHolder, source: array<Byte>, start: nat, count: nat, from: nat,
                   doublingFits: bool, exactFits: bool) returns (ok: bool)
    requires node.Valid() && source != node.buffer && start + count <= source.Length
    modifies node, node.buffer
    ensures node.Valid() && (node.buffer == old(node.buffer) || fresh(node.buffer))
    ensures ok ==> node.Contents() == Written(old(node.Contents()), from, source[start..start + count])
    ensures !ok ==> node.Contents() == old(node.Contents()) && from + count > old(node.length)
    ensures Charged(old(node.length), old(node.changed), old(node.denied), node, doublingFits)
  {
    if from + count > node.length {
      ok := node.Resize(from + count, doublingFits, exactFits);
      if !ok { return; }
    }
    hide Resized;
    ghost var base, room := node.Contents(), node.buffer[..];
    Splice(node.buffer, from, source, start, count);
    PrefixSpliced(room, node.buffer[..], node.length, from, source[start..start + count]);
    return true;
  }

  lemma PrefixSpliced(was: seq<Byte>, now: seq<Byte>, length: nat, from: nat, bytes: seq<Byte>)
    requires from + |bytes| <= length <= |was| && now == was[..from] + bytes + was[from + |bytes|..]
    ensures now[..length] == was[..length][..from] + bytes + was[..length][from + |bytes|..]
  {
  }

  class FileHandle {
    const node: ByteHolder
    const read: bool
    const write: bool
    const append: bool
    var position: nat
    var closed: bool

    constructor (node: ByteHolder, read: bool, write: bool, append: bool)
      ensures this.node == node && this.read == read && this.write == write && this.append == append
      ensures position == 0 && !closed
    {
      this.node, this.read, this.write, this.append := node, read, write, append;
      position, closed := 0, false;
    }

    // What a read answers is the slice of the file's bytes at the position,
    // cut at the end, whatever other handles did to the file in between.
    method Read(target: array<Byte>, offset: Option<int>, length: Option<int>, at: Option<int>) returns (r: Result<nat>)
      requires node.Valid() && target != node.buffer
      modifies this`position, target
      ensures node.Valid() && node.Contents() == old(node.Contents())
      ensures r.Err? ==> target[..] == old(target[..]) && position == old(position)
      ensures (closed || !read) ==> r == Err(EBADF)
      ensures !closed && read ==>
                var range := ValidateRange(target.Length, offset, length, false);
                var place := ValidatePosition(at);
                if range.Err? || place.Err? then r == Err(ERANGE)
                else
                  var from := if place.value.Some? then place.value.value else old(position);
                  var slice := Slice(node.Contents(), from, range.value.1);
                  && r == Ok(|slice|)
                  && position == (if place.value.Some? then old(position) else old(position) + |slice|)
                  && range.value.0 + (if |slice| == 0 then 0 else |slice|) <= Max(target.Length, range.value.0)
                  && (|slice| > 0 ==>
                        target[..] == old(target[..range.value.0]) + slice + old(target[range.value.0 + |slice|..]))
                  && (|slice| == 0 ==> target[..] == old(target[..]))
    {
      hide ValidatePosition, ValidateRange;
      if closed || !read { return Err(EBADF); }
      var range := ValidateRange(target.Length, offset, length, false);
      if range.Err? { return Err(range.error); }
      var place := ValidatePosition(at);
      if place.Err? { return Err(place.error); }
      var start, count := range.value.0, range.value.1;
      var from := if place.value.Some? then place.value.value else position;
      var bytesRead := if from >= node.length then 0 else Min(count, node.length - from);
      if bytesRead > 0 {
        SliceOfPrefix(node.buffer[..], node.length, from, bytesRead);
        Splice(target, start, node.buffer, from, bytesRead);
      }
      if place.value.None? {
        position := position + bytesRead;
      }
      return Ok(bytesRead);
    }

    // A write leaves the file's bytes those of the plain overwrite, padded
    // with zeros where it starts past the end, or fails and changes nothing.
    method Write(source: array<Byte>, offset: Option<int>, length: Option<int>, at: Option<int>,
                 doublingFits: bool, exactFits: bool) returns (r: Result<nat>)
      requires node.Valid() && source != node.buffer
      modifies this`position, node, node.buffer
      ensures node.Valid() && (node.buffer == old(node.buffer) || fresh(node.buffer))
      ensures r.Err? ==> node.Contents() == old(node.Contents()) && position == old(position)
      ensures Charged(old(node.length), old(node.changed), old(node.denied), node, doublingFits)
      ensures (closed || !write) ==> r == Err(EBADF)
      ensures !closed && write ==>
                var range := ValidateRange(source.Length, offset, length, true);
                var place := ValidatePosition(at);
                if range.Err? || place.Err? then r == Err(ERANGE)
                else
                  var (start, count) := range.value;
                  var from := if append then old(node.length)
                              else if place.value.Some? then place.value.value else old(position);
                  && (r == Ok(count) || (r == Err(EFBIG) && from + count > old(node.length)))
                  && (r.Ok? ==>
                        && node.Contents() == Written(old(node.Contents()), from, source[start..start + count])
                        && position == if append || place.value.None? then from + count else old(position))
    {
      hide Written, Resized, Reasonable, ValidatePosition, ValidateRange;
      if closed || !write { return Err(EBADF); }
      var range := ValidateRange(source.Length, offset, length, true);
      if range.Err? { return Err(range.error); }
      var place := ValidatePosition(at);
      if place.Err? { return Err(place.error); }
      var start, count := range.value.0, range.value.1;
      var from := if append then node.length else if place.value.Some? then place.value.value else position;
      var ok := Overwrite(node, source, start, count, from, doublingFits, exactFits);
      if !ok { return Err(EFBIG); }
      if append || place.value.None? {
        position := from + count;
      }
      return Ok(count);
    }

    method Truncate(size: nat, doublingFits: bool, exactFits: bool) returns (r: Result<()>)
      requires node.Valid()
      modifies node, node.buffer
      ensures node.Valid() && (node.buffer == old(node.buffer) || fresh(node.buffer))
      ensures (closed || !write) ==> r == Err(EBADF)
      ensures r.Ok? ==> node.Contents() == Resized(old(node.Contents()), size)
      ensures r.Err? ==> node.Contents() == old(node.Contents())
      ensures Charged(old(node.length), old(node.changed), old(node.denied), node, doublingFits)
      ensures !closed && write ==> r == Ok(()) || r == Err(EFBIG)
    {
      if closed || !write { return Err(EBADF); }
      var ok := node.Resize(size, doublingFits, exactFits);
      if !ok { return Err(EFBIG); }
      return Ok(());
    }

    method Close()
      modifies this`closed
      ensures closed
    {
      closed := true;
    }
  }

  // The bytes of a file from a position, as many as there are up to a count.
  function Slice(data: seq<Byte>, from: nat, count: nat): (s: seq<Byte>)
    ensures |s| == if from >= |data| then 0 else Min(count, |data| - from)
  {
    if from >= |data| then [] else data[from..from + Min(count, |data| - from)]
  }

  // A read after a write at the same place answers what was written.
  lemma ReadAfterWrite(data: seq<Byte>, from: nat, bytes: seq<Byte>)
    ensures Slice(Written(data, from, bytes), from, |bytes|) == bytes
  {
    var after := Written(data, from, bytes);
    if bytes != [] {
      assert after[from..from + |bytes|] == bytes;
    }
  }
}
