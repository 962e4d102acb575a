// A representative set of 9P message codecs, their frames, and directory
// entry blocks: what is encoded decodes to itself and to nothing else.
module Messages {
  import opened Wrappers
  import opened Bytes
  import opened Wire

  const TLOCK: nat := 52
  const RREADDIR: nat := 41
  const TWALK: nat := 110
  const RWALK: nat := 111
  const TWRITE: nat := 118
  const MAXWELEM: nat := 16
  const HDRSZ: nat := 7

  // Names are the bytes that go on the wire.
  type Name = seq<Byte>

  datatype Qid = Qid(typ: nat, version: nat, path: nat)
  datatype Dirent = Dirent(qid: Qid, offset: nat, typ: nat, name: Name)

  datatype Message =
    | Twalk(fid: nat, newfid: nat, wnames: seq<Name>)
    | Rwalk(wqids: seq<Qid>)
    | Twrite(wfid: nat, offset: nat, data: seq<Byte>)
    | Tlock(lfid: nat, typ: nat, flags: nat, start: nat, length: nat, procId: nat, clientId: Name)
    | Rreaddir(block: seq<Byte>)

  function TypeOf(m: Message): nat
  {
    match m
    case Twalk(_, _, _) => TWALK
    case Rwalk(_) => RWALK
    case Twrite(_, _, _) => TWRITE
    case Tlock(_, _, _, _, _, _, _) => TLOCK
    case Rreaddir(_) => RREADDIR
  }

  // ---------- what a field can carry ----------

  predicate U8(v: nat) { v < 0x100 }
  predicate U16(v: nat) { v < 0x1_0000 }
  predicate U32(v: nat) { v < 0x1_0000_0000 }
  predicate U64(v: nat) { v < 0x1_0000_0000_0000_0000 }
  predicate NameFits(n: Name) { |n| <= MAX_STRING }

  predicate QidFits(q: Qid) { U8(q.typ) && U32(q.version) && U64(q.path) }

  predicate DirentFits(d: Dirent) { QidFits(d.qid) && U64(d.offset) && U8(d.typ) && NameFits(d.name) }

  predicate InRange(m: Message)
  {
    match m
    case Twalk(fid, newfid, wnames) =>
      U32(fid) && U32(newfid) && |wnames| <= MAXWELEM && forall i :: 0 <= i < |wnames| ==> NameFits(wnames[i])
    case Rwalk(wqids) => |wqids| <= MAXWELEM && forall i :: 0 <= i < |wqids| ==> QidFits(wqids[i])
    case Twrite(fid, offset, data) => U32(fid) && U64(offset) && |data| <= MAX_ITEM
    case Tlock(fid, typ, flags, start, length, procId, clientId) =>
      U32(fid) && U8(typ) && U32(flags) && U64(start) && U64(length) && U32(procId) && NameFits(clientId)
    case Rreaddir(block) => |block| <= MAX_ITEM
  }

  // ---------- encoding, in front of what follows ----------

  function PutName(n: Name, rest: seq<Byte>): seq<Byte> { Counted(n, 2) + rest }

  function PutQid(q: Qid, rest: seq<Byte>): seq<Byte>
  {
    LE(q.typ, 1) + (LE(q.version, 4) + (LE(q.path, 8) + rest))
  }

  function PutNames(names: seq<Name>, rest: seq<Byte>): seq<Byte>
  {
    if names == [] then rest else PutName(names[0], PutNames(names[1..], rest))
  }

  function PutQids(qids: seq<Qid>, rest: seq<Byte>): seq<Byte>
  {
    if qids == [] then rest else PutQid(qids[0], PutQids(qids[1..], rest))
  }

  function PutDirent(d: Dirent, rest: seq<Byte>): seq<Byte>
  {
    PutQid(d.qid, LE(d.offset, 8) + (LE(d.typ, 1) + PutName(d.name, rest)))
  }

  function PutDirents(ds: seq<Dirent>): seq<Byte>
  {
    if ds == [] then [] else PutDirent(ds[0], PutDirents(ds[1..]))
  }

  function Body(m: Message): seq<Byte>
  {
    match m
    case Twalk(fid, newfid, wnames) => LE(fid, 4) + (LE(newfid, 4) + (LE(|wnames|, 2) + PutNames(wnames, [])))
    case Rwalk(wqids) => LE(|wqids|, 2) + PutQids(wqids, [])
    case Twrite(fid, offset, data) => LE(fid, 4) + (LE(offset, 8) + (Counted(data, 4) + []))
    case Tlock(fid, typ, flags, start, length, procId, clientId) =>
      LE(fid, 4) + (LE(typ, 1) +
          (LE(flags, 4) + (LE(start, 8) + (LE(length, 8) + (LE(procId, 4) + PutName(clientId, []))))))
    case Rreaddir(block) => Counted(block, 4) + []
  }

  // size[4] type[1] tag[2] body: the size covers the whole frame.
  function Frame(m: Message, tag: nat): seq<Byte>
  {
    LE(HDRSZ + |Body(m)|, 4) + (LE(TypeOf(m), 1) + (LE(tag, 2) + Body(m)))
  }

  // ---------- decoding ----------

  function TakeName(s: seq<Byte>): Parsed<Name> { TakeCounted(s, 2, MAX_STRING) }

  function TakeQid(s: seq<Byte>): Parsed<Qid>
  {
    var a := TakeInt(s, 1);
    if a.None? then None else
    var b := TakeInt(a.value.1, 4);
    if b.None? then None else
    var c := TakeInt(b.value.1, 8);
    if c.None? then None else Some((Qid(a.value.0, b.value.0, c.value.0), c.value.1))
  }

  function TakeNames(s: seq<Byte>, n: nat): Parsed<seq<Name>>
  {
    if n == 0 then Some(([], s))
    else
      var first := TakeName(s);
      if first.None? then None else
      var others := TakeNames(first.value.1, n - 1);
      if others.None? then None else Some(([first.value.0] + others.value.0, others.value.1))
  }

  function TakeQids(s: seq<Byte>, n: nat): Parsed<seq<Qid>>
  {
    if n == 0 then Some(([], s))
    else
      var first := TakeQid(s);
      if first.None? then None else
      var others := TakeQids(first.value.1, n - 1);
      if others.None? then None else Some(([first.value.0] + others.value.0, others.value.1))
  }

  function TakeDirent(s: seq<Byte>): Parsed<Dirent>
  {
    var q := TakeQid(s);
    if q.None? then None else
    var o := TakeInt(q.value.1, 8);
    if o.None? then None else
    var t := TakeInt(o.value.1, 1);
    if t.None? then None else
    var n := TakeName(t.value.1);
    if n.None? then None else Some((Dirent(q.value.0, o.value.0, t.value.0, n.value.0), n.value.1))
  }

  lemma TakeDirentShrinks(s: seq<Byte>)
    ensures TakeDirent(s).Some? ==> |TakeDirent(s).value.1| < |s|
  {
  }

  // A block whose last entry is cut short is refused whole.
  function TakeDirents(s: seq<Byte>): Option<seq<Dirent>>
    decreases |s|
  {
    if s == [] then Some([])
    else
      TakeDirentShrinks(s);
      var first := TakeDirent(s);
      if first.None? then None else
      var others := TakeDirents(first.value.1);
      if others.None? then None else Some([first.value.0] + others.value)
  }

  function TakeTwalk(s: seq<Byte>): Parsed<Message>
  {
    var a := TakeInt(s, 4);
    if a.None? then None else
    var b := TakeInt(a.value.1, 4);
    if b.None? then None else
    var c := TakeInt(b.value.1, 2);
    if c.None? || c.value.0 > MAXWELEM then None else
    var d := TakeNames(c.value.1, c.value.0);
    if d.None? then None else Some((Twalk(a.value.0, b.value.0, d.value.0), d.value.1))
  }

  function TakeRwalk(s: seq<Byte>): Parsed<Message>
  {
    var c := TakeInt(s, 2);
    if c.None? || c.value.0 > MAXWELEM then None else
    var d := TakeQids(c.value.1, c.value.0);
    if d.None? then None else Some((Rwalk(d.value.0), d.value.1))
  }

  function TakeTwrite(s: seq<Byte>): Parsed<Message>
  {
    var a := TakeInt(s, 4);
    if a.None? then None else
    var b := TakeInt(a.value.1, 8);
    if b.None? then None else
    var c := TakeCounted(b.value.1, 4, MAX_ITEM);
    if c.None? then None else Some((Twrite(a.value.0, b.value.0, c.value.0), c.value.1))
  }

  function TakeTlock(s: seq<Byte>): Parsed<Message>
  {
    var a := TakeInt(s, 4);
    if a.None? then None else
    var b := TakeInt(a.value.1, 1);
    if b.None? then None else
    var c := TakeInt(b.value.1, 4);
    if c.None? then None else
    var d := TakeInt(c.value.1, 8);
    if d.None? then None else
    var e := TakeInt(d.value.1, 8);
    if e.None? then None else
    var f := TakeInt(e.value.1, 4);
    if f.None? then None else
    var g := TakeName(f.value.1);
    if g.None? then None
    else Some((Tlock(a.value.0, b.value.0, c.value.0, d.value.0, e.value.0, f.value.0, g.value.0), g.value.1))
  }

  function TakeRreaddir(s: seq<Byte>): Parsed<Message>
  {
    var c := TakeCounted(s, 4, MAX_ITEM);
    if c.None? then None else Some((Rreaddir(c.value.0), c.value.1))
  }

  function TakeBody(typ: nat, s: seq<Byte>): Parsed<Message>
  {
    if typ == TWALK then TakeTwalk(s)
    else if typ == RWALK then TakeRwalk(s)
    else if typ == TWRITE then TakeTwrite(s)
    else if typ == TLOCK then TakeTlock(s)
    else if typ == RREADDIR then TakeRreaddir(s)
    else None
  }

  // One frame: its size must be its length, and its body wholly consumed.
  function Decode(frame: seq<Byte>): Option<(Message, nat)>
  {
    var size := TakeInt(frame, 4);
    if size.None? then None else
    var typ := TakeInt(size.value.1, 1);
    if typ.None? then None else
    var tag := TakeInt(typ.value.1, 2);
    if tag.None? || size.value.0 != |frame| then None else
    var body := TakeBody(typ.value.0, tag.value.1);
    if body.None? || body.value.1 != [] then None else Some((body.value.0, tag.value.0))
  }

  // ---------- decoding undoes encoding ----------

  lemma TakeNameOfPut(n: Name, rest: seq<Byte>)
    requires NameFits(n)
    ensures TakeName(PutName(n, rest)) == Some((n, rest))
  {
    Widths();
    TakeCountedOfCounted(n, 2, MAX_STRING, rest);
  }

  lemma TakeQidOfPut(q: Qid, rest: seq<Byte>)
    requires QidFits(q)
    ensures TakeQid(PutQid(q, rest)) == Some((q, rest))
  {
    Widths();
    hide LE, Value, Pow256, TakeInt;
    TakeIntOfLE(q.typ, 1, LE(q.version, 4) + (LE(q.path, 8) + rest));
    TakeIntOfLE(q.version, 4, LE(q.path, 8) + rest);
    TakeIntOfLE(q.path, 8, rest);
  }

  lemma {:induction false} TakeNamesOfPut(names: seq<Name>, rest: seq<Byte>)
    requires forall i :: 0 <= i < |names| ==> NameFits(names[i])
    ensures TakeNames(PutNames(names, rest), |names|) == Some((names, rest))
  {
    if names != [] {
      TakeNameOfPut(names[0], PutNames(names[1..], rest));
      TakeNamesOfPut(names[1..], rest);
      assert names == [names[0]] + names[1..];
    }
  }

  lemma {:induction false} TakeQidsOfPut(qids: seq<Qid>, rest: seq<Byte>)
    requires forall i :: 0 <= i < |qids| ==> QidFits(qids[i])
    ensures TakeQids(PutQids(qids, rest), |qids|) == Some((qids, rest))
  {
    if qids != [] {
      TakeQidOfPut(qids[0], PutQids(qids[1..], rest));
      TakeQidsOfPut(qids[1..], rest);
      assert qids == [qids[0]] + qids[1..];
    }
  }

  lemma TakeDirentOfPut(d: Dirent, rest: seq<Byte>)
    requires DirentFits(d)
    ensures TakeDirent(PutDirent(d, rest)) == Some((d, rest))
  {
    Widths();
    hide LE, Value, Pow256, TakeInt, PutQid, PutName, TakeQid, TakeName;
    TakeQidOfPut(d.qid, LE(d.offset, 8) + (LE(d.typ, 1) + PutName(d.name, rest)));
    TakeIntOfLE(d.offset, 8, LE(d.typ, 1) + PutName(d.name, rest));
    TakeIntOfLE(d.typ, 1, PutName(d.name, rest));
    TakeNameOfPut(d.name, rest);
  }

  lemma PutDirentLength(d: Dirent, rest: seq<Byte>)
    ensures |PutDirent(d, rest)| == 24 + |d.name| + |rest|
  {
  }

  // A packed block unpacks to exactly the entries packed.
  lemma {:induction false} DirentsRoundTrip(ds: seq<Dirent>)
    requires forall i :: 0 <= i < |ds| ==> DirentFits(ds[i])
    ensures TakeDirents(PutDirents(ds)) == Some(ds)
  {
    hide PutDirent, TakeDirent, DirentFits;
    if ds != [] {
      DirentsRoundTrip(ds[1..]);
      TakeDirentOfPut(ds[0], PutDirents(ds[1..]));
      PutDirentLength(ds[0], PutDirents(ds[1..]));
      assert ds == [ds[0]] + ds[1..];
    }
  }

  lemma TwalkRoundTrip(m: Message)
    requires InRange(m) && m.Twalk?
    ensures TakeTwalk(Body(m)) == Some((m, []))
  {
    Widths();
    hide LE, Value, Pow256, TakeInt, PutNames, TakeNames;
    TakeIntOfLE(m.fid, 4, LE(m.newfid, 4) + (LE(|m.wnames|, 2) + PutNames(m.wnames, [])));
    TakeIntOfLE(m.newfid, 4, LE(|m.wnames|, 2) + PutNames(m.wnames, []));
    TakeIntOfLE(|m.wnames|, 2, PutNames(m.wnames, []));
    TakeNamesOfPut(m.wnames, []);
  }

  lemma RwalkRoundTrip(m: Message)
    requires InRange(m) && m.Rwalk?
    ensures TakeRwalk(Body(m)) == Some((m, []))
  {
    Widths();
    hide LE, Value, Pow256, TakeInt, PutQids, TakeQids;
    TakeIntOfLE(|m.wqids|, 2, PutQids(m.wqids, []));
    TakeQidsOfPut(m.wqids, []);
  }

  lemma TwriteRoundTrip(m: Message)
    requires InRange(m) && m.Twrite?
    ensures TakeTwrite(Body(m)) == Some((m, []))
  {
    Widths();
    hide LE, Value, Pow256, TakeInt, Counted, TakeCounted;
    TakeIntOfLE(m.wfid, 4, LE(m.offset, 8) + (Counted(m.data, 4) + []));
    TakeIntOfLE(m.offset, 8, Counted(m.data, 4) + []);
    TakeCountedOfCounted(m.data, 4, MAX_ITEM, []);
  }

  lemma TlockRoundTrip(m: Message)
    requires InRange(m) && m.Tlock?
    ensures TakeTlock(Body(m)) == Some((m, []))
  {
    Widths();
    hide LE, Value, Pow256, TakeInt, PutName, TakeName;
    var n := PutName(m.clientId, []);
    TakeIntOfLE(m.lfid, 4, LE(m.typ, 1) +
        (LE(m.flags, 4) + (LE(m.start, 8) + (LE(m.length, 8) + (LE(m.procId, 4) + n)))));
    TakeIntOfLE(m.typ, 1, LE(m.flags, 4) + (LE(m.start, 8) + (LE(m.length, 8) + (LE(m.procId, 4) + n))));
    TakeIntOfLE(m.flags, 4, LE(m.start, 8) + (LE(m.length, 8) + (LE(m.procId, 4) + n)));
    TakeIntOfLE(m.start, 8, LE(m.length, 8) + (LE(m.procId, 4) + n));
    TakeIntOfLE(m.length, 8, LE(m.procId, 4) + n);
    TakeIntOfLE(m.procId, 4, n);
    TakeNameOfPut(m.clientId, []);
  }

  lemma RreaddirRoundTrip(m: Message)
    requires InRange(m) && m.Rreaddir?
    ensures TakeRreaddir(Body(m)) == Some((m, []))
  {
    Widths();
    TakeCountedOfCounted(m.block, 4, MAX_ITEM, []);
  }

  lemma BodyRoundTrip(m: Message)
    requires InRange(m)
    ensures TakeBody(TypeOf(m), Body(m)) == Some((m, []))
  {
    match m
    case Twalk(_, _, _) => TwalkRoundTrip(m);
    case Rwalk(_) => RwalkRoundTrip(m);
    case Twrite(_, _, _) => TwriteRoundTrip(m);
    case Tlock(_, _, _, _, _, _, _) => TlockRoundTrip(m);
    case Rreaddir(_) => RreaddirRoundTrip(m);
  }

  lemma {:induction false} PutNamesLength(names: seq<Name>)
    requires forall i :: 0 <= i < |names| ==> NameFits(names[i])
    ensures |PutNames(names, [])| <= |names| * (2 + MAX_STRING)
  {
    if names != [] {
      PutNamesLength(names[1..]);
    }
  }

  lemma {:induction false} PutQidsLength(qids: seq<Qid>)
    ensures |PutQids(qids, [])| == |qids| * 13
  {
    if qids != [] {
      PutQidsLength(qids[1..]);
    }
  }

  lemma BodyLength(m: Message)
    requires InRange(m)
    ensures HDRSZ + |Body(m)| < 0x1_0000_0000
  {
    match m
    case Twalk(_, _, wnames) => PutNamesLength(wnames);
    case Rwalk(wqids) => PutQidsLength(wqids);
    case _ =>
  }

  // Decoding a frame gives back the message and the tag it was made from.
  lemma FrameRoundTrip(m: Message, tag: nat)
    requires InRange(m) && U16(tag)
    ensures |Frame(m, tag)| == HDRSZ + |Body(m)| && Value(Frame(m, tag)[..4]) == |Frame(m, tag)|
    ensures Decode(Frame(m, tag)) == Some((m, tag))
  {
    Widths();
    BodyLength(m);
    BodyRoundTrip(m);
    hide LE, Value, Pow256, Body, TakeBody;
    TakeIntOfLE(HDRSZ + |Body(m)|, 4, LE(TypeOf(m), 1) + (LE(tag, 2) + Body(m)));
    TakeIntOfLE(TypeOf(m), 1, LE(tag, 2) + Body(m));
    TakeIntOfLE(tag, 2, Body(m));
  }

  // ---------- and nothing else decodes to it ----------

  lemma TakeQidIsPut(s: seq<Byte>)
    ensures TakeQid(s).Some? ==> QidFits(TakeQid(s).value.0) && s == PutQid(TakeQid(s).value.0, TakeQid(s).value.1)
  {
    Widths();
    hide LE, Value, Pow256, TakeInt;
    TakeIntIsLE(s, 1);
    if TakeInt(s, 1).Some? {
      TakeIntIsLE(TakeInt(s, 1).value.1, 4);
      if TakeInt(TakeInt(s, 1).value.1, 4).Some? {
        TakeIntIsLE(TakeInt(TakeInt(s, 1).value.1, 4).value.1, 8);
      }
    }
  }

  lemma TakeDirentIsPut(s: seq<Byte>)
    ensures TakeDirent(s).Some? ==>
              DirentFits(TakeDirent(s).value.0) && s == PutDirent(TakeDirent(s).value.0, TakeDirent(s).value.1)
  {
    Widths();
    TakeQidIsPut(s);
    hide LE, Value, Pow256, TakeInt, TakeQid, PutQid, TakeCounted, Counted;
    if TakeDirent(s).Some? {
      var s1 := TakeQid(s).value.1;
      TakeIntIsLE(s1, 8);
      var s2 := TakeInt(s1, 8).value.1;
      TakeIntIsLE(s2, 1);
      TakeCountedIsCounted(TakeInt(s2, 1).value.1, 2, MAX_STRING);
    }
  }

  // A block that unpacks at all is the packing of what it unpacks to, so no
  // two blocks list the same entries.
  lemma {:induction false} DirentsCanonical(s: seq<Byte>)
    ensures TakeDirents(s).Some? ==> PutDirents(TakeDirents(s).value) == s
    decreases |s|
  {
    if s != [] && TakeDirents(s).Some? {
      TakeDirentIsPut(s);
      TakeDirentShrinks(s);
      DirentsCanonical(TakeDirent(s).value.1);
      var ds := TakeDirents(s).value;
      assert ds[1..] == TakeDirents(TakeDirent(s).value.1).value;
    }
  }

  lemma TlockIsCanonical(s: seq<Byte>)
    ensures TakeTlock(s).Some? && TakeTlock(s).value.1 == [] ==>
              InRange(TakeTlock(s).value.0) && Body(TakeTlock(s).value.0) == s
  {
    Widths();
    hide LE, Value, Pow256, TakeInt, TakeCounted, Counted;
    if TakeTlock(s).Some? {
      TakeIntIsLE(s, 4);
      var s1 := TakeInt(s, 4).value.1;
      TakeIntIsLE(s1, 1);
      var s2 := TakeInt(s1, 1).value.1;
      TakeIntIsLE(s2, 4);
      var s3 := TakeInt(s2, 4).value.1;
      TakeIntIsLE(s3, 8);
      var s4 := TakeInt(s3, 8).value.1;
      TakeIntIsLE(s4, 8);
      var s5 := TakeInt(s4, 8).value.1;
      TakeIntIsLE(s5, 4);
      TakeCountedIsCounted(TakeInt(s5, 4).value.1, 2, MAX_STRING);
    }
  }

  // ---------- writing with the writer ----------

  method WriteQid(w: P9Writer, q: Qid)
    requires w.Valid()
    modifies w, w.bytes
    ensures w.Valid() && (w.bytes == old(w.bytes) || fresh(w.bytes))
    ensures w.Contents() == old(w.Contents()) + PutQid(q, [])
  {
    hide LE;
    w.Int(q.typ, 1);
    w.Int(q.version, 4);
    w.Int(q.path, 8);
  }

  method WriteDirent(w: P9Writer, d: Dirent)
    requires w.Valid() && NameFits(d.name)
    modifies w, w.bytes
    ensures w.Valid() && (w.bytes == old(w.bytes) || fresh(w.bytes))
    ensures w.Contents() == old(w.Contents()) + PutDirent(d, [])
  {
    Widths();
    hide LE, Pow256;
    ghost var was := w.Contents();
    WriteQid(w, d.qid);
    w.Int(d.offset, 8);
    w.Int(d.typ, 1);
    var ok := w.CountedBytes(d.name, 2);
    assert w.Contents() == was + PutQid(d.qid, []) + LE(d.offset, 8) + LE(d.typ, 1) + Counted(d.name, 2);
  }

  lemma {:induction false} PutDirentsSnoc(ds: seq<Dirent>, d: Dirent)
    ensures PutDirents(ds + [d]) == PutDirents(ds) + PutDirent(d, [])
  {
    if ds == [] {
      assert [] + [d] == [d] && [d][1..] == [];
    } else {
      assert (ds + [d])[1..] == ds[1..] + [d];
      PutDirentsSnoc(ds[1..], d);
      PutDirentConcat(ds[0], PutDirents(ds[1..]), PutDirent(d, []));
    }
  }

  lemma PutDirentConcat(d: Dirent, a: seq<Byte>, b: seq<Byte>)
    ensures PutDirent(d, a + b) == PutDirent(d, a) + b
  {
    hide LE;
    var x := LE(d.qid.typ, 1) +
        (LE(d.qid.version, 4) + (LE(d.qid.path, 8) + (LE(d.offset, 8) + (LE(d.typ, 1) + Counted(d.name, 2)))));
    assert PutDirent(d, a + b) == x + (a + b);
    assert PutDirent(d, a) == x + a;
  }

  // Entries packed into a block, stopping at a byte budget.
  class DirentPacker {
    const maxSize: nat
    const writer: P9Writer
    ghost var packed: seq<Dirent>
    var count: nat

    ghost predicate Valid()
      reads this, writer, writer.bytes
    {
      && writer.Valid()
      && writer.Contents() == PutDirents(packed) && count == |packed|
      && writer.length <= maxSize
      && forall i :: 0 <= i < |packed| ==> DirentFits(packed[i])
    }

    constructor (maxSize: nat)
      ensures Valid() && packed == [] && fresh(writer) && fresh(writer.bytes) && this.maxSize == maxSize &&
              writer.length == 0
    {
      this.maxSize := maxSize;
      writer := new P9Writer(256);
      packed, count := [], 0;
    }

    // An entry that does not fit changes nothing; a name no reply can hold is
    // an error rather than a "not in this reply".
    method Add(d: Dirent) returns (r: Result<bool>)
      requires Valid() && QidFits(d.qid) && U64(d.offset) && U8(d.typ)
      modifies this, writer, writer.bytes
      ensures Valid() && (writer.bytes == old(writer.bytes) || fresh(writer.bytes))
      ensures r.Err? <==> !NameFits(d.name)
      ensures r == Ok(true) <==> NameFits(d.name) && 24 + |d.name| <= maxSize - old(writer.length)
      ensures packed == if r == Ok(true) then old(packed) + [d] else old(packed)
      ensures writer.length == old(writer.length) + if r == Ok(true) then 24 + |d.name| else 0
    {
      if |d.name| > MAX_STRING {
        return Err(ENAMETOOLONG);
      }
      if 24 + |d.name| > maxSize - writer.length {
        return Ok(false);
      }
      hide PutDirents, PutDirent;
      PutDirentLength(d, []);
      PutDirentsSnoc(packed, d);
      WriteDirent(writer, d);
      packed := packed + [d];
      count := count + 1;
      return Ok(true);
    }

    // The block decodes to the entries that were added, in order.
    method Block() returns (block: seq<Byte>)
      requires Valid()
      ensures TakeDirents(block) == Some(packed) && |block| <= maxSize
    {
      DirentsRoundTrip(packed);
      block := writer.Copy();
    }
  }

  // A whole message: a header with a size to be patched, the body, the size.
  method EncodeTwrite(m: Message, tag: nat, capacity: nat) returns (frame: seq<Byte>)
    requires m.Twrite? && InRange(m) && U16(tag)
    ensures frame == Frame(m, tag)
  {
    Widths();
    hide LE, Pow256;
    var w := new P9Writer(capacity);
    WriteHeader(w, TWRITE, tag);
    w.Int(m.wfid, 4);
    w.Int(m.offset, 8);
    var ok := w.CountedBytes(m.data, 4);
    assert ok;
    TwriteParts(m, tag);
    var _ := w.PatchU32(0, w.length);
    frame := w.Copy();
  }

  method WriteHeader(w: P9Writer, typ: nat, tag: nat)
    requires w.Valid()
    modifies w, w.bytes
    ensures w.Valid() && (w.bytes == old(w.bytes) || fresh(w.bytes))
    ensures w.Contents() == old(w.Contents()) + LE(0, 4) + LE(typ, 1) + LE(tag, 2)
  {
    hide LE;
    w.Int(0, 4);
    w.Int(typ, 1);
    w.Int(tag, 2);
  }

  lemma TwriteParts(m: Message, tag: nat)
    requires m.Twrite?
    ensures var written := [] + LE(0, 4) + LE(TWRITE, 1) + LE(tag, 2) + LE(m.wfid, 4) + LE(m.offset, 8) +
            Counted(m.data, 4);
            && |written| == HDRSZ + |Body(m)|
            && written[..0] + LE(|written|, 4) + written[4..] == Frame(m, tag)
  {
    hide LE, Counted;
    var behind := LE(TWRITE, 1) + (LE(tag, 2) + Body(m));
    assert [] + LE(0, 4) + LE(TWRITE, 1) + LE(tag, 2) + LE(m.wfid, 4) + LE(m.offset, 8) + Counted(m.data, 4) ==
           LE(0, 4) + behind;
    assert (LE(0, 4) + behind)[4..] == behind;
  }

  method ReadNames(reader: P9Reader, count: nat) returns (r: Option<seq<Name>>)
    requires reader.Valid()
    modifies reader
    ensures reader.Valid()
    ensures r.Some? <==> TakeNames(old(reader.Left()), count).Some?
    ensures r.Some? ==> TakeNames(old(reader.Left()), count) == Some((r.value, reader.Left()))
  {
    hide TakeNames, TakeCounted;
    ghost var names := reader.Left();
    var wnames: seq<Name> := [];
    var index := 0;
    BehindNothing(TakeNames(names, count));
    while index < count
      invariant reader.Valid() && 0 <= index <= count
      invariant TakeNames(names, count) == Behind(wnames, TakeNames(reader.Left(), count - index))
    {
      TakeNamesStep(wnames, reader.Left(), count - index);
      var name := reader.CountedBytes(2, MAX_STRING);
      if name.None? { return None; }
      wnames := wnames + [name.value];
      index := index + 1;
    }
    TakeNoNames(wnames, reader.Left());
    return Some(wnames);
  }

  lemma TakeNoNames(front: seq<Name>, s: seq<Byte>)
    ensures Behind(front, TakeNames(s, 0)) == Some((front, s))
  {
    assert front + [] == front;
  }

  // The count is read and bounded, then that many names.
  method ReadTwalk(reader: P9Reader) returns (r: Option<Message>)
    requires reader.Valid()
    modifies reader
    ensures reader.Valid()
    ensures r.Some? <==> TakeTwalk(old(reader.Left())).Some?
    ensures r.Some? ==> TakeTwalk(old(reader.Left())) == Some((r.value, reader.Left()))
  {
    hide TakeNames, TakeInt;
    var fid := reader.Int(4);
    if fid.None? { return None; }
    var newfid := reader.Int(4);
    if newfid.None? { return None; }
    var count := reader.Int(2);
    if count.None? || count.value > MAXWELEM { return None; }
    var wnames := ReadNames(reader, count.value);
    if wnames.None? { return None; }
    return Some(Twalk(fid.value, newfid.value, wnames.value));
  }

  // A frame whose size is not its length is refused before its body is read.
  method DecodeTwalk(frame: seq<Byte>) returns (r: Option<(Message, nat)>)
    ensures r.Some? ==> r == Decode(frame)
    ensures r.None? && Decode(frame).Some? ==> !Decode(frame).value.0.Twalk?
  {
    hide TakeTwalk, TakeRwalk, TakeTwrite, TakeTlock, TakeRreaddir, TakeInt;
    var reader := new P9Reader(frame);
    assert reader.Left() == frame;
    OnlyTwalk(frame);
    var size := reader.Int(4);
    if size.None? { return None; }
    var typ := reader.Int(1);
    if typ.None? { return None; }
    var tag := reader.Int(2);
    if tag.None? || size.value != |frame| || typ.value != TWALK { return None; }
    var body := ReadTwalk(reader);
    if body.None? || reader.offset != |frame| { return None; }
    return Some((body.value, tag.value));
  }

  lemma OnlyTwalk(frame: seq<Byte>)
    ensures Decode(frame).Some? && Decode(frame).value.0.Twalk? ==>
              TakeInt(TakeInt(frame, 4).value.1, 1).value.0 == TWALK
  {
  }

  function Behind(front: seq<Name>, p: Parsed<seq<Name>>): Parsed<seq<Name>>
  {
    if p.None? then None else Some((front + p.value.0, p.value.1))
  }

  lemma BehindNothing(p: Parsed<seq<Name>>)
    ensures Behind([], p) == p
  {
    if p.Some? { assert [] + p.value.0 == p.value.0; }
  }

  lemma TakeNamesStep(front: seq<Name>, s: seq<Byte>, n: nat)
    requires n > 0
    ensures Behind(front, TakeNames(s, n)) ==
            if TakeName(s).None? then None
            else Behind(front + [TakeName(s).value.0], TakeNames(TakeName(s).value.1, n - 1))
  {
    if TakeName(s).Some? && TakeNames(TakeName(s).value.1, n - 1).Some? {
      var others := TakeNames(TakeName(s).value.1, n - 1).value.0;
      assert front + ([TakeName(s).value.0] + others) == front + [TakeName(s).value.0] + others;
    }
  }
}
