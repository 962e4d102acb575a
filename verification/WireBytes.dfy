// Where every field of a frame stands and with which bytes, least significant first, as
// the protocol lays its messages out.
module WireBytes {
  import opened Wrappers
  import opened Bytes
  import opened Wire
  import opened Messages

  // The byte of a number that is worth 256 to the power `i`.
  function ByteOf(v: nat, i: nat): nat { if i == 0 then v % 256 else ByteOf(v / 256, i - 1) }

  // From `at` on, so many bytes carry the value, least significant first.
  ghost predicate Carries(s: seq<Byte>, at: nat, v: nat, width: nat)
  {
    at + width <= |s| && forall i: nat :: i < width ==> s[at + i] == ByteOf(v, i)
  }

  // From `at` on stand those bytes.
  predicate Holds(s: seq<Byte>, at: nat, data: seq<Byte>) { at + |data| <= |s| && s[at..at + |data|] == data }

  // A length of so many bytes, and then the data it counts.
  ghost predicate HoldsCounted(s: seq<Byte>, at: nat, data: seq<Byte>, width: nat)
  {
    Carries(s, at, |data|, width) && Holds(s, at + width, data)
  }

  // type[1] version[4] path[8]
  ghost predicate HoldsQid(s: seq<Byte>, at: nat, q: Qid)
  {
    Carries(s, at, q.typ, 1) && Carries(s, at + 1, q.version, 4) && Carries(s, at + 5, q.path, 8)
  }

  // ---------- one field after another ----------

  lemma {:induction false} ByteAt(v: nat, n: nat, i: nat)
    requires i < n
    ensures LE(v, n)[i] == ByteOf(v, i)
  {
    if i > 0 { ByteAt(v / 256, n - 1, i - 1); }
  }

  // What is left of the bytes from a place on.
  predicate Left(s: seq<Byte>, at: nat, rest: seq<Byte>) { at <= |s| && s[at..] == rest }

  lemma LeftPart(s: seq<Byte>, at: nat, a: seq<Byte>, rest: seq<Byte>)
    requires Left(s, at, a + rest)
    ensures Holds(s, at, a) && Left(s, at + |a|, rest)
  {
    assert s[at..][..|a|] == a && s[at..][|a|..] == rest;
  }

  lemma FieldAt(s: seq<Byte>, at: nat, v: nat, width: nat, rest: seq<Byte>)
    requires Left(s, at, LE(v, width) + rest)
    ensures Carries(s, at, v, width) && Left(s, at + width, rest)
  {
    LeftPart(s, at, LE(v, width), rest);
    forall i: nat | i < width ensures s[at + i] == ByteOf(v, i) {
      ByteAt(v, width, i);
      assert s[at..at + width][i] == s[at + i];
    }
  }

  lemma CountedAt(s: seq<Byte>, at: nat, data: seq<Byte>, width: nat, rest: seq<Byte>)
    requires Left(s, at, Counted(data, width) + rest)
    ensures HoldsCounted(s, at, data, width) && Left(s, at + width + |data|, rest)
  {
    hide LE, Holds, Left, Carries;
    assert Counted(data, width) + rest == LE(|data|, width) + (data + rest);
    FieldAt(s, at, |data|, width, data + rest);
    LeftPart(s, at + width, data, rest);
  }

  lemma QidAt(s: seq<Byte>, at: nat, q: Qid, rest: seq<Byte>)
    requires Left(s, at, PutQid(q, rest))
    ensures HoldsQid(s, at, q) && Left(s, at + 13, rest)
  {
    hide LE, Left, Carries;
    FieldAt(s, at, q.typ, 1, LE(q.version, 4) + (LE(q.path, 8) + rest));
    FieldAt(s, at + 1, q.version, 4, LE(q.path, 8) + rest);
    FieldAt(s, at + 5, q.path, 8, rest);
  }

  // ---------- a frame ----------

  lemma WholeFrame(m: Message, tag: nat)
    ensures var s := Frame(m, tag); |s| == 7 + |Body(m)| && Left(s, 7, Body(m))
    ensures var s := Frame(m, tag); Carries(s, 0, |s|, 4) && Carries(s, 4, TypeOf(m), 1) && Carries(s, 5, tag, 2)
  {
    hide LE, Carries, Body, TypeOf;
    var s := Frame(m, tag);
    assert s[0..] == s;
    FieldAt(s, 0, HDRSZ + |Body(m)|, 4, LE(TypeOf(m), 1) + (LE(tag, 2) + Body(m)));
    FieldAt(s, 4, TypeOf(m), 1, LE(tag, 2) + Body(m));
    FieldAt(s, 5, tag, 2, Body(m));
  }

  // size[4] type[1] tag[2], with the type numbers of the protocol; the size is the length
  // of the frame.
  lemma HeaderBytes(m: Message, tag: nat)
    ensures var s := Frame(m, tag);
            && |s| >= 7 && Carries(s, 0, |s|, 4) && Carries(s, 5, tag, 2)
            && s[4] == (match m
                        case Twalk(_, _, _) => 110
                        case Rwalk(_) => 111
                        case Twrite(_, _, _) => 118
                        case Tlock(_, _, _, _, _, _, _) => 52
                        case Rreaddir(_) => 41)
  {
    hide Body, Frame;
    WholeFrame(m, tag);
    var s := Frame(m, tag);
    assert s[4 + 0] == ByteOf(TypeOf(m), 0);
  }

  // fid[4] offset[8] count[4] data[count]
  lemma TwriteBytes(m: Message, tag: nat)
    requires m.Twrite?
    ensures var s := Frame(m, tag);
            Carries(s, 7, m.wfid, 4) && Carries(s, 11, m.offset, 8) && HoldsCounted(s, 19, m.data, 4) &&
                |s| == 23 + |m.data|
  {
    hide LE, Carries, Frame, Counted, Left, HoldsCounted;
    WholeFrame(m, tag);
    var s := Frame(m, tag);
    FieldAt(s, 7, m.wfid, 4, LE(m.offset, 8) + (Counted(m.data, 4) + []));
    FieldAt(s, 11, m.offset, 8, Counted(m.data, 4) + []);
    CountedAt(s, 19, m.data, 4, []);
    CountedLength(m.data, 4);
  }

  lemma CountedLength(data: seq<Byte>, width: nat)
    ensures |Counted(data, width)| == width + |data|
  {
  }

  // fid[4] type[1] flags[4] start[8] length[8] proc_id[4] client_id[s]
  lemma TlockBytes(m: Message, tag: nat)
    requires m.Tlock?
    ensures var s := Frame(m, tag);
            && Carries(s, 7, m.lfid, 4) && Carries(s, 11, m.typ, 1) && Carries(s, 12, m.flags, 4)
            && Carries(s, 16, m.start, 8) && Carries(s, 24, m.length, 8) && Carries(s, 32, m.procId, 4)
            && HoldsCounted(s, 36, m.clientId, 2) && |s| == 38 + |m.clientId|
  {
    hide LE, Carries, Frame, Left, HoldsCounted, Counted;
    WholeFrame(m, tag);
    CountedLength(m.clientId, 2);
    var s := Frame(m, tag);
    var f := LE(m.procId, 4) + PutName(m.clientId, []);
    var d := LE(m.start, 8) + (LE(m.length, 8) + f);
    FieldAt(s, 7, m.lfid, 4, LE(m.typ, 1) + (LE(m.flags, 4) + d));
    FieldAt(s, 11, m.typ, 1, LE(m.flags, 4) + d);
    FieldAt(s, 12, m.flags, 4, d);
    FieldAt(s, 16, m.start, 8, LE(m.length, 8) + f);
    FieldAt(s, 24, m.length, 8, f);
    FieldAt(s, 32, m.procId, 4, PutName(m.clientId, []));
    CountedAt(s, 36, m.clientId, 2, []);
  }

  // count[4] data[count]
  lemma RreaddirBytes(m: Message, tag: nat)
    requires m.Rreaddir?
    ensures var s := Frame(m, tag); HoldsCounted(s, 7, m.block, 4) && |s| == 11 + |m.block|
  {
    hide LE, Carries, Frame, Left, HoldsCounted, Counted;
    WholeFrame(m, tag);
    CountedLength(m.block, 4);
    CountedAt(Frame(m, tag), 7, m.block, 4, []);
  }

  // ---------- lists ----------

  // Where the k-th name of a list stands, from the first.
  function NameOffset(names: seq<Name>, k: nat): nat
    requires k <= |names|
  {
    if k == 0 then 0 else 2 + |names[0]| + NameOffset(names[1..], k - 1)
  }

  lemma {:induction false} NamesAt(s: seq<Byte>, at: nat, names: seq<Name>, k: nat)
    requires Left(s, at, PutNames(names, [])) && k < |names|
    ensures HoldsCounted(s, at + NameOffset(names, k), names[k], 2)
    decreases k
  {
    hide HoldsCounted, Left, Counted;
    CountedAt(s, at, names[0], 2, PutNames(names[1..], []));
    if k > 0 { NamesAt(s, at + 2 + |names[0]|, names[1..], k - 1); }
  }

  // fid[4] newfid[4] nwname[2] nwname*(wname[s])
  lemma TwalkBytes(m: Message, tag: nat, k: nat)
    requires m.Twalk?
    ensures var s := Frame(m, tag);
            && Carries(s, 7, m.fid, 4) && Carries(s, 11, m.newfid, 4) && Carries(s, 15, |m.wnames|, 2)
            && (k < |m.wnames| ==> HoldsCounted(s, 17 + NameOffset(m.wnames, k), m.wnames[k], 2))
  {
    hide LE, Carries, Frame, Left, HoldsCounted, PutNames;
    WholeFrame(m, tag);
    var s := Frame(m, tag);
    var names := PutNames(m.wnames, []);
    FieldAt(s, 7, m.fid, 4, LE(m.newfid, 4) + (LE(|m.wnames|, 2) + names));
    FieldAt(s, 11, m.newfid, 4, LE(|m.wnames|, 2) + names);
    FieldAt(s, 15, |m.wnames|, 2, names);
    if k < |m.wnames| { NamesAt(s, 17, m.wnames, k); }
  }

  lemma {:induction false} QidsAt(s: seq<Byte>, at: nat, qids: seq<Qid>, k: nat)
    requires Left(s, at, PutQids(qids, [])) && k < |qids|
    ensures HoldsQid(s, at + 13 * k, qids[k])
    decreases k
  {
    hide HoldsQid, Left, PutQid;
    QidAt(s, at, qids[0], PutQids(qids[1..], []));
    if k > 0 { QidsAt(s, at + 13, qids[1..], k - 1); }
  }

  // nwqid[2] nwqid*(qid[13])
  lemma RwalkBytes(m: Message, tag: nat, k: nat)
    requires m.Rwalk?
    ensures var s := Frame(m, tag);
            Carries(s, 7, |m.wqids|, 2) && (k < |m.wqids| ==> HoldsQid(s, 9 + 13 * k, m.wqids[k]))
  {
    hide LE, Carries, Frame, Left, HoldsQid, PutQids;
    WholeFrame(m, tag);
    var s := Frame(m, tag);
    FieldAt(s, 7, |m.wqids|, 2, PutQids(m.wqids, []));
    if k < |m.wqids| { QidsAt(s, 9, m.wqids, k); }
  }

  // Where the k-th entry of a block stands.
  function DirentOffset(ds: seq<Dirent>, k: nat): nat
    requires k <= |ds|
  {
    if k == 0 then 0 else 24 + |ds[0].name| + DirentOffset(ds[1..], k - 1)
  }

  lemma DirentAt(s: seq<Byte>, at: nat, d: Dirent, rest: seq<Byte>)
    requires Left(s, at, PutDirent(d, rest))
    ensures HoldsQid(s, at, d.qid) && Carries(s, at + 13, d.offset, 8) && Carries(s, at + 21, d.typ, 1)
    ensures HoldsCounted(s, at + 22, d.name, 2) && Left(s, at + 24 + |d.name|, rest)
  {
    hide LE, Carries, Left, HoldsQid, HoldsCounted, PutQid, Counted;
    QidAt(s, at, d.qid, LE(d.offset, 8) + (LE(d.typ, 1) + PutName(d.name, rest)));
    FieldAt(s, at + 13, d.offset, 8, LE(d.typ, 1) + PutName(d.name, rest));
    FieldAt(s, at + 21, d.typ, 1, PutName(d.name, rest));
    CountedAt(s, at + 22, d.name, 2, rest);
  }

  // qid[13] offset[8] type[1] name[s], one entry behind the other.
  lemma DirentBytes(ds: seq<Dirent>, k: nat)
    requires k < |ds|
    ensures var s, at := PutDirents(ds), DirentOffset(ds, k);
            && HoldsQid(s, at, ds[k].qid) && Carries(s, at + 13, ds[k].offset, 8) && Carries(s, at + 21, ds[k].typ, 1)
            && HoldsCounted(s, at + 22, ds[k].name, 2)
  {
    hide *;
    LeftWhole(PutDirents(ds));
    DirentsAt(PutDirents(ds), 0, ds, k);
  }

  lemma LeftWhole(s: seq<Byte>)
    ensures Left(s, 0, s)
  {
    assert s[0..] == s;
  }

  lemma {:induction false} DirentsAt(s: seq<Byte>, at: nat, ds: seq<Dirent>, k: nat)
    requires Left(s, at, PutDirents(ds)) && k < |ds|
    ensures var to := at + DirentOffset(ds, k);
            && HoldsQid(s, to, ds[k].qid) && Carries(s, to + 13, ds[k].offset, 8) && Carries(s, to + 21, ds[k].typ, 1)
            && HoldsCounted(s, to + 22, ds[k].name, 2)
    decreases k
  {
    hide LE, Carries, Left, HoldsQid, HoldsCounted, PutDirent;
    DirentAt(s, at, ds[0], PutDirents(ds[1..]));
    if k > 0 { DirentsAt(s, at + 24 + |ds[0].name|, ds[1..], k - 1); }
  }
}
