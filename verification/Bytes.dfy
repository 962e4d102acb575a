// Byte sequences, and what resizing and writing mean on them.
module Bytes {

  type Byte = b: int | 0 <= b < 256

  function Zeros(n: nat): seq<Byte> { seq(n, _ => 0) }

  // A file's bytes at another length: cut, or padded with zeros.
  function Resized(data: seq<Byte>, size: nat): (r: seq<Byte>)
    ensures |r| == size
  {
    if size <= |data| then data[..size] else data + Zeros(size - |data|)
  }

  // A file's bytes after `bytes` were written at `from`, past the end or not.
  function Written(data: seq<Byte>, from: nat, bytes: seq<Byte>): (r: seq<Byte>)
    ensures |r| == if from + |bytes| > |data| then from + |bytes| else |data|
  {
    var base := if from + |bytes| > |data| then Resized(data, from + |bytes|) else data;
    base[..from] + bytes + base[from + |bytes|..]
  }

  // A byte after a write: written, kept, or the zero of a gap.
  lemma WrittenAt(data: seq<Byte>, from: nat, bytes: seq<Byte>, k: nat)
    requires k < |Written(data, from, bytes)|
    ensures Written(data, from, bytes)[k] ==
            if from <= k < from + |bytes| then bytes[k - from] else if k < |data| then data[k] else 0
  {
  }

  // Shrinking and growing back never brings a byte back.
  lemma ShrinkThenGrow(data: seq<Byte>, small: nat, big: nat, k: nat)
    requires small <= |data| && small <= k < big
    ensures Resized(Resized(data, small), big)[k] == 0
  {
  }
}
