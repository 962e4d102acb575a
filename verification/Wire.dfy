// The 9P wire primitives: little-endian integers, counted strings and blobs,
// as functions on byte sequences and as a growing writer and a checked reader.
module Wire {
  import opened Wrappers
  import opened Bytes

  const MAX_STRING: nat := 0xFFFF
  const MAX_ITEM: nat := 0x100_0000

  // ---------- integers ----------

  function Pow256(n: nat): nat { if n == 0 then 1 else 256 * Pow256(n - 1) }

  function LE(v: nat, n: nat): (s: seq<Byte>)
    ensures |s| == n
  {
    if n == 0 then [] else [v % 256] + LE(v / 256, n - 1)
  }

  function Value(s: seq<Byte>): nat { if s == [] then 0 else s[0] + 256 * Value(s[1..]) }

  lemma {:induction false} ValueOfLE(v: nat, n: nat)
    requires v < Pow256(n)
    ensures Value(LE(v, n)) == v
  {
    if n > 0 {
      ValueOfLE(v / 256, n - 1);
      assert LE(v, n)[1..] == LE(v / 256, n - 1);
    }
  }

  lemma {:induction false} LEOfValue(s: seq<Byte>)
    ensures Value(s) < Pow256(|s|) && LE(Value(s), |s|) == s
  {
    if s != [] {
      LEOfValue(s[1..]);
      assert Value(s) % 256 == s[0] && Value(s) / 256 == Value(s[1..]);
    }
  }

  lemma Widths()
    ensures Pow256(1) == 0x100 && Pow256(2) == 0x1_0000 && Pow256(4) == 0x1_0000_0000
    ensures Pow256(8) == 0x1_0000_0000_0000_0000
  {
    assert Pow256(0) == 1 && Pow256(1) == 256 && Pow256(2) == 65536 && Pow256(3) == 0x100_0000;
    assert Pow256(4) == 0x1_0000_0000 && Pow256(5) == 0x100_0000_0000;
    assert Pow256(6) == 0x1_0000_0000_0000 && Pow256(7) == 0x100_0000_0000_0000;
  }

  // ---------- reading, on what is left ----------

  // A value and what follows it, or nothing when the message is malformed.
  type Parsed<T> = Option<(T, seq<Byte>)>

  function TakeInt(s: seq<Byte>, n: nat): Parsed<nat>
  {
    if |s| < n then None else Some((Value(s[..n]), s[n..]))
  }

  function TakeRaw(s: seq<Byte>, n: nat): Parsed<seq<Byte>>
  {
    if |s| < n then None else Some((s[..n], s[n..]))
  }

  // A count of `width` bytes, bounded, then that many bytes.
  function TakeCounted(s: seq<Byte>, width: nat, max: nat): Parsed<seq<Byte>>
  {
    var count := TakeInt(s, width);
    if count.None? || count.value.0 > max then None else TakeRaw(count.value.1, count.value.0)
  }

  function Counted(data: seq<Byte>, width: nat): seq<Byte> { LE(|data|, width) + data }

  lemma TakeIntOfLE(v: nat, n: nat, rest: seq<Byte>)
    requires v < Pow256(n)
    ensures TakeInt(LE(v, n) + rest, n) == Some((v, rest))
  {
    ValueOfLE(v, n);
    assert (LE(v, n) + rest)[..n] == LE(v, n) && (LE(v, n) + rest)[n..] == rest;
  }

  lemma TakeIntIsLE(s: seq<Byte>, n: nat)
    ensures TakeInt(s, n).Some? ==>
              TakeInt(s, n).value.0 < Pow256(n) && s == LE(TakeInt(s, n).value.0, n) + TakeInt(s, n).value.1
  {
    if |s| >= n {
      LEOfValue(s[..n]);
      assert s == s[..n] + s[n..];
    }
  }

  lemma TakeCountedOfCounted(data: seq<Byte>, width: nat, max: nat, rest: seq<Byte>)
    requires |data| < Pow256(width) && |data| <= max
    ensures TakeCounted(Counted(data, width) + rest, width, max) == Some((data, rest))
  {
    assert Counted(data, width) + rest == LE(|data|, width) + (data + rest);
    TakeIntOfLE(|data|, width, data + rest);
  }

  lemma TakeCountedIsCounted(s: seq<Byte>, width: nat, max: nat)
    ensures TakeCounted(s, width, max).Some? ==>
              && |TakeCounted(s, width, max).value.0| <= max
              && |TakeCounted(s, width, max).value.0| < Pow256(width)
              && s == Counted(TakeCounted(s, width, max).value.0, width) + TakeCounted(s, width, max).value.1
  {
    TakeIntIsLE(s, width);
    if TakeCounted(s, width, max).Some? {
      var count := TakeInt(s, width).value;
      assert count.1 == count.1[..count.0] + count.1[count.0..];
      assert LE(count.0, width) + (count.1[..count.0] + count.1[count.0..]) ==
             (LE(count.0, width) + count.1[..count.0]) + count.1[count.0..];
    }
  }

  // ---------- the writer ----------

  class P9Writer {
    var bytes: array<Byte>
    var length: nat
    // The bytes ever moved to a larger buffer; never set back.
    ghost var moved: nat

    ghost predicate Valid()
      reads this
    {
      && length <= bytes.Length && 16 <= bytes.Length
      && moved <= bytes.Length && (moved > 0 ==> bytes.Length <= 2 * length)
    }

    // However a message is written, growing moves at most twice the bytes written.
    lemma GrowingIsLinear()
      requires Valid()
      ensures moved <= 2 * length
    {
    }

    ghost function Contents(): (s: seq<Byte>)
      reads this, bytes
      requires Valid()
      ensures |s| == length
    {
      bytes[..length]
    }

    constructor (capacity: nat)
      ensures Valid() && Contents() == [] && fresh(bytes) && moved == 0
    {
      bytes := new Byte[if capacity < 16 then 16 else capacity](_ => 0);
      length, moved := 0, 0;
    }

    // Room for more bytes, doubling until they fit; where they go.
    method Room(count: nat) returns (at: nat)
      requires Valid()
      modifies this
      ensures Valid() && (bytes == old(bytes) || fresh(bytes))
      ensures at == old(length) && length == at + count
      ensures Contents()[..at] == old(Contents())
      ensures moved == old(moved) + if old(length) + count > old(bytes.Length) then old(length) else 0
    {
      var needed := length + count;
      ghost var was := Contents();
      if needed > bytes.Length {
        var capacity := bytes.Length * 2;
        while capacity < needed
          invariant 2 * bytes.Length <= capacity <= 2 * needed
          decreases needed - capacity
        {
          capacity := capacity * 2;
        }
        var grown := new Byte[capacity](_ => 0);
        forall k | 0 <= k < length {
          grown[k] := bytes[k];
        }
        assert grown[..length] == was;
        moved := moved + length;
        bytes := grown;
      }
      at := length;
      length := needed;
      assert Contents()[..at] == bytes[..at];
    }

    method Raw(value: seq<Byte>)
      requires Valid()
      modifies this, bytes
      ensures Valid() && (bytes == old(bytes) || fresh(bytes))
      ensures Contents() == old(Contents()) + value
      ensures moved == old(moved) + if old(length) + |value| > old(bytes.Length) then old(length) else 0
    {
      ghost var was := Contents();
      var at := Room(|value|);
      ghost var before := bytes[..at];
      forall k | 0 <= k < |value| {
        bytes[at + k] := value[k];
      }
      assert bytes[..at] == before;
      assert Contents() == was + value;
    }

    method Int(value: nat, width: nat)
      requires Valid()
      modifies this, bytes
      ensures Valid() && (bytes == old(bytes) || fresh(bytes))
      ensures Contents() == old(Contents()) + LE(value, width)
    {
      Raw(LE(value, width));
    }

    // A count that cannot describe the bytes is refused, not truncated.
    method CountedBytes(value: seq<Byte>, width: nat) returns (ok: bool)
      requires Valid()
      modifies this, bytes
      ensures Valid() && (bytes == old(bytes) || fresh(bytes))
      ensures ok <==> |value| < Pow256(width)
      ensures Contents() == if ok then old(Contents()) + Counted(value, width) else old(Contents())
    {
      if |value| >= Pow256(width) {
        return false;
      }
      ghost var was := Contents();
      Int(|value|, width);
      Raw(value);
      assert was + LE(|value|, width) + value == was + Counted(value, width);
      return true;
    }

    // Overwrite four bytes already written; anywhere else is refused.
    method PatchU32(at: int, value: nat) returns (ok: bool)
      requires Valid()
      modifies bytes
      ensures Valid() && (ok <==> 0 <= at && at + 4 <= length)
      ensures Contents() == if ok then old(Contents())[..at] + LE(value, 4) + old(Contents())[at + 4..]
              else old(Contents())
    {
      if at < 0 || at + 4 > length {
        return false;
      }
      ghost var was := Contents();
      var patch := LE(value, 4);
      forall k | 0 <= k < 4 {
        bytes[at + k] := patch[k];
      }
      assert Contents() == was[..at] + patch + was[at + 4..];
      ok := true;
    }

    method Copy() returns (s: seq<Byte>)
      requires Valid()
      ensures s == Contents()
    {
      s := bytes[..length];
    }
  }

  // ---------- the reader ----------

  class P9Reader {
    const bytes: seq<Byte>
    var offset: nat

    ghost predicate Valid()
      reads this
    {
      offset <= |bytes|
    }

    ghost function Left(): seq<Byte>
      reads this
      requires Valid()
    {
      bytes[offset..]
    }

    constructor (bytes: seq<Byte>)
      ensures Valid() && this.bytes == bytes && offset == 0
    {
      this.bytes := bytes;
      offset := 0;
    }

    method Raw(count: nat) returns (r: Option<seq<Byte>>)
      requires Valid()
      modifies this
      ensures Valid()
      ensures r.Some? <==> TakeRaw(old(Left()), count).Some?
      ensures r.Some? ==> TakeRaw(old(Left()), count) == Some((r.value, Left()))
      ensures r.None? ==> offset == old(offset)
    {
      if |bytes| - offset < count {
        return None;
      }
      var at := offset;
      offset := offset + count;
      assert bytes[at..][..count] == bytes[at..offset] && bytes[at..][count..] == bytes[offset..];
      return Some(bytes[at..offset]);
    }

    method Int(width: nat) returns (r: Option<nat>)
      requires Valid()
      modifies this
      ensures Valid()
      ensures r.Some? <==> TakeInt(old(Left()), width).Some?
      ensures r.Some? ==> TakeInt(old(Left()), width) == Some((r.value, Left()))
    {
      var raw := Raw(width);
      return if raw.Some? then Some(Value(raw.value)) else None;
    }

    // The count is checked against a ceiling, then against what is there.
    method CountedBytes(width: nat, max: nat) returns (r: Option<seq<Byte>>)
      requires Valid()
      modifies this
      ensures Valid()
      ensures r.Some? <==> TakeCounted(old(Left()), width, max).Some?
      ensures r.Some? ==> TakeCounted(old(Left()), width, max) == Some((r.value, Left()))
    {
      var count := Int(width);
      if count.None? || count.value > max {
        return None;
      }
      r := Raw(count.value);
    }
  }
}
