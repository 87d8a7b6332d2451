/** Serialising log records into buffers, reading them back, and walking a
    whole log file record by record. */
module LogRecords {
  import opened Types
  import opened Pages
  import opened Wal
  import opened Bytes
  import opened HeaderCodec
  import opened LogCodec

  // ---- the log file -------------------------------------------------------

  /** The file holds the record at its LSN. */
  ghost predicate Holds(file: bytes, r: LogRec) {
    RecFits(r) && exists ao, po :: OrdersOk(r, ao, po) && Stands(file, r.lsn, Encode(r, ao, po))
  }

  lemma HeldTail(file: bytes, r: LogRec, e: bytes)
    requires Stands(file, r.lsn, e)
    ensures r.lsn + |e| <= |file| && Stands(file[r.lsn..], 0, e)
  {
    assert file[r.lsn..][..|e|] == file[r.lsn..r.lsn + |e|];
  }

  lemma ReadHeld(file: bytes, r: LogRec)
    requires Holds(file, r)
    ensures EndOf(r) <= |file| && ReadAt(file, r.lsn) == Some(r)
  {
    var ao, po :| OrdersOk(r, ao, po) && Stands(file, r.lsn, Encode(r, ao, po));
    HeldTail(file, r, Encode(r, ao, po));
    RoundTrip(r, ao, po, file[r.lsn..]);
  }

  // The file after `b` is written at `lsn`; writing past the end extends it.
  function Written(file: bytes, lsn: nat, b: bytes): (f: bytes)
    ensures |f| >= lsn + |b|
  {
    var padded := if |file| < lsn then file + seq(lsn - |file|, _ => 0) else file;
    padded[..lsn] + b + if lsn + |b| <= |padded| then padded[lsn + |b|..] else []
  }

  /** Writing a record puts it there and disturbs none that ends before it. */
  lemma WriteRecord(file: bytes, r: LogRec, ao: seq<Xid>, po: seq<PageKey>)
    requires RecFits(r) && OrdersOk(r, ao, po)
    ensures Holds(Written(file, r.lsn, Encode(r, ao, po)), r)
  {
    var e := Encode(r, ao, po);
    assert Stands(Written(file, r.lsn, e), r.lsn, e);
  }

  lemma WrittenBefore(file: bytes, lsn: nat, b: bytes, i: nat, j: nat)
    requires i <= j <= |file| && j <= lsn
    ensures Written(file, lsn, b)[i..j] == file[i..j]
  {
    var padded := if |file| < lsn then file + seq(lsn - |file|, _ => 0) else file;
    var w := Written(file, lsn, b);
    forall k | i <= k < j ensures w[k] == file[k] {
      assert w[k] == padded[..lsn][k] == padded[k];
    }
    assert w[i..j] == file[i..j];
  }

  lemma WriteKeeps(file: bytes, lsn: nat, b: bytes, q: LogRec)
    requires Holds(file, q) && EndOf(q) <= lsn
    ensures Holds(Written(file, lsn, b), q)
  {
    var ao, po :| OrdersOk(q, ao, po) && Stands(file, q.lsn, Encode(q, ao, po));
    StandsBefore(file, lsn, b, q.lsn, Encode(q, ao, po));
  }

  lemma StandsBefore(file: bytes, lsn: nat, b: bytes, off: nat, e: bytes)
    requires Stands(file, off, e) && off + |e| <= lsn
    ensures Stands(Written(file, lsn, b), off, e)
  {
    WrittenBefore(file, lsn, b, off, off + |e|);
  }

  // The record read at an offset of the file.
  function ReadAt(file: bytes, lsn: Lsn): Option<LogRec> {
    if lsn > |file| then None else Decode(lsn, file[lsn..])
  }

  datatype Walked = Unreadable | Records(all: seq<LogRec>)

  /** Read records one after the other from `lsn` up to `end`. */
  function Walk(file: bytes, lsn: Lsn, end: Lsn): Walked
    decreases if lsn < end then end - lsn else 0
  {
    if lsn >= end then Records([])
    else
      var r := ReadAt(file, lsn);
      if r.None? then Unreadable else Then(r.value, Walk(file, lsn + Size(r.value), end))
  }

  function Then(r: LogRec, rest: Walked): Walked {
    if rest.Unreadable? then Unreadable else Records([r] + rest.all)
  }

  lemma WalkStep(file: bytes, r: LogRec, end: Lsn, rest: seq<LogRec>)
    requires r.lsn < end && ReadAt(file, r.lsn) == Some(r) && Walk(file, EndOf(r), end) == Records(rest)
    ensures Walk(file, r.lsn, end) == Records([r] + rest)
  {
  }

  // The walk from record `i` on.
  lemma {:induction false} StreamFrom(file: bytes, log: seq<LogRec>, nextLsn: Lsn, i: nat)
    requires Contiguous(log, nextLsn) && i <= |log|
    requires forall j {:trigger Holds(file, log[j])} :: 0 <= j < |log| ==> Holds(file, log[j])
    ensures Walk(file, if i < |log| then log[i].lsn else nextLsn, nextLsn) == Records(log[i..])
    decreases |log| - i
  {
    if i < |log| {
      StreamFrom(file, log, nextLsn, i + 1);
      assert Holds(file, log[i]);
      ReadHeld(file, log[i]);
      RecordEnds(log, nextLsn, i);
      WalkStep(file, log[i], nextLsn, log[i + 1..]);
      assert log[i..] == [log[i]] + log[i + 1..];
    } else {
      assert log[i..] == [];
    }
  }

  lemma RecordEnds(log: seq<LogRec>, nextLsn: Lsn, i: nat)
    requires Contiguous(log, nextLsn) && i < |log|
    ensures EndOf(log[i]) == if i + 1 < |log| then log[i + 1].lsn else nextLsn
    ensures log[i].lsn < nextLsn
  {
    LsnBelowEnd(log, nextLsn, i);
  }

  /** Walking the file by record sizes decodes exactly the records written to
      it, of whatever types, and ends at the next LSN. */
  lemma StreamRoundTrip(file: bytes, log: seq<LogRec>, nextLsn: Lsn)
    requires Contiguous(log, nextLsn) && log != []
    requires forall j {:trigger Holds(file, log[j])} :: 0 <= j < |log| ==> Holds(file, log[j])
    ensures Walk(file, log[0].lsn, nextLsn) == Records(log)
  {
    StreamFrom(file, log, nextLsn, 0);
    assert log[0..] == log;
  }

  // ---- buffers ------------------------------------------------------------

  method PutHead(r: LogRec, data: array<byte>) returns (offset: nat)
    requires data.Length >= 13
    modifies data
    ensures offset == 13 && data[..13] == Head(r)
  {
    Put(data, 0, Tag(r), 1);
    assert data[..1] == ToBytes(Tag(r), 1);
    offset := 1;
    Put(data, offset, r.xid, 4);
    offset := offset + 4;
    Put(data, offset, r.prev, 8);
    offset := offset + 8;
  }

  // The keys walked so far and the keys left make up the map.
  ghost predicate Walking<K(!new)>(order: seq<K>, left: set<K>, all: set<K>) {
    && left <= all && |order| + |left| == |all|
    && (forall k :: k in order <==> k in all && k !in left)
    && (forall i, j :: 0 <= i < j < |order| ==> order[i] != order[j])
  }

  lemma WalksMore<K(!new)>(order: seq<K>, left: set<K>, all: set<K>, k: K)
    requires Walking(order, left, all) && k in left
    ensures Walking(order + [k], left - {k}, all)
    ensures |left - {k}| == |left| - 1
  {
  }

  lemma AttBytesMore(att: map<Xid, Lsn>, order: seq<Xid>, x: Xid)
    requires (forall y :: y in order ==> y in att) && x in att
    ensures AttBytes(att, order + [x]) == AttBytes(att, order) + (ToBytes(x, 4) + ToBytes(att[x], 8))
  {
    assert (order + [x])[..|order|] == order;
  }

  lemma DptBytesMore(dpt: map<PageKey, Lsn>, order: seq<PageKey>, k: PageKey)
    requires (forall y :: y in order ==> y in dpt) && k in dpt
    ensures DptBytes(dpt, order + [k]) == DptBytes(dpt, order) + DptEntry(k, dpt[k])
  {
    assert (order + [k])[..|order|] == order;
  }

  method PutAtt(att: map<Xid, Lsn>, data: array<byte>, start: nat) returns (offset: nat, ghost order: seq<Xid>)
    requires start + 12 * |att| <= data.Length
    modifies data
    ensures Walks(order, att.Keys) && offset == start + 12 * |att|
    ensures data[..offset] == old(data[..start]) + AttBytes(att, order)
  {
    var keys := att.Keys;
    offset := start;
    order := [];
    ghost var before := data[..start];
    while keys != {}
      invariant Walking(order, keys, att.Keys)
      invariant offset == start + 12 * |order|
      invariant data[..offset] == before + AttBytes(att, order)
      decreases |keys|
    {
      var x :| x in keys;
      WalksMore(order, keys, att.Keys, x);
      AttBytesMore(att, order, x);
      PutPair(data, offset, x, att[x]);
      offset := offset + 12;
      order := order + [x];
      keys := keys - {x};
    }
  }

  method PutPair(data: array<byte>, offset: nat, x: Xid, lsn: Lsn)
    requires offset + 12 <= data.Length
    modifies data
    ensures data[..offset + 12] == old(data[..offset]) + (ToBytes(x, 4) + ToBytes(lsn, 8))
  {
    Put(data, offset, x, 4);
    Put(data, offset + 4, lsn, 8);
  }

  method PutEntry(data: array<byte>, offset: nat, k: PageKey, lsn: Lsn)
    requires offset + 16 <= data.Length
    modifies data
    ensures data[..offset + 16] == old(data[..offset]) + DptEntry(k, lsn)
  {
    Put(data, offset, k.oid, 4);
    Put(data, offset + 4, k.page, 4);
    Put(data, offset + 8, lsn, 8);
  }

  method PutDpt(dpt: map<PageKey, Lsn>, data: array<byte>, start: nat) returns (offset: nat, ghost order: seq<PageKey>)
    requires start + 16 * |dpt| <= data.Length
    modifies data
    ensures Walks(order, dpt.Keys) && offset == start + 16 * |dpt|
    ensures data[..offset] == old(data[..start]) + DptBytes(dpt, order)
  {
    var keys := dpt.Keys;
    offset := start;
    order := [];
    ghost var before := data[..start];
    while keys != {}
      invariant Walking(order, keys, dpt.Keys)
      invariant offset == start + 16 * |order|
      invariant data[..offset] == before + DptBytes(dpt, order)
      decreases |keys|
    {
      var k :| k in keys;
      WalksMore(order, keys, dpt.Keys, k);
      DptBytesMore(dpt, order, k);
      PutEntry(data, offset, k, dpt[k]);
      offset := offset + 16;
      order := order + [k];
      keys := keys - {k};
    }
  }

  method PutInsert(r: LogRec, data: array<byte>) returns (offset: nat)
    requires r.InsertLog? && data.Length >= Size(r)
    modifies data
    ensures offset == Size(r) && data[..offset] == Encode(r, [], [])
  {
    offset := PutHead(r, data);
    Put(data, 13, r.oid, 4);
    Put(data, 17, r.page, 4);
    Put(data, 21, r.slot, 2);
    ghost var h := data[..23];
    assert h == Head(r) + (ToBytes(r.oid, 4) + ToBytes(r.page, 4) + ToBytes(r.slot, 2));
    Put(data, 23, r.offset, 2);
    Put(data, 25, RecordSize(r.rec), 2);
    PutBytes(data, 27, VersionBytes(r.rec));
    offset := 27 + RecordSize(r.rec);
    assert data[..offset] == h + ToBytes(r.offset, 2) + ToBytes(RecordSize(r.rec), 2) + VersionBytes(r.rec);
  }

  method PutDelete(r: LogRec, data: array<byte>) returns (offset: nat)
    requires r.DeleteLog? && data.Length >= Size(r)
    modifies data
    ensures offset == Size(r) && data[..offset] == Encode(r, [], [])
  {
    offset := PutHead(r, data);
    Put(data, offset, r.oid, 4);
    offset := offset + 4;
    Put(data, offset, r.page, 4);
    offset := offset + 4;
    Put(data, offset, r.slot, 2);
    offset := offset + 2;
  }

  method PutNewPage(r: LogRec, data: array<byte>) returns (offset: nat)
    requires r.NewPageLog? && data.Length >= Size(r)
    modifies data
    ensures offset == Size(r) && data[..offset] == Encode(r, [], [])
  {
    offset := PutHead(r, data);
    Put(data, offset, r.oid, 4);
    offset := offset + 4;
    Put(data, offset, r.prevPage, 4);
    offset := offset + 4;
    Put(data, offset, r.page, 4);
    offset := offset + 4;
  }

  lemma Regroup(h: bytes, a: bytes, b: bytes, c: bytes, d: bytes)
    ensures h + a + b + c + d == h + (a + b + c + d)
  {
  }

  method PutAttTable(att: map<Xid, Lsn>, data: array<byte>, start: nat) returns (offset: nat, ghost ao: seq<Xid>)
    requires data.Length >= start + 8 + 12 * |att|
    modifies data
    ensures offset == start + 8 + 12 * |att| && Walks(ao, att.Keys)
    ensures data[..offset] == old(data[..start]) + ToBytes(|att|, 8) + AttBytes(att, ao)
  {
    Put(data, start, |att|, 8);
    offset, ao := PutAtt(att, data, start + 8);
  }

  method PutDptTable(dpt: map<PageKey, Lsn>, data: array<byte>, start: nat) returns (offset: nat, ghost po: seq<PageKey>)
    requires data.Length >= start + 8 + 16 * |dpt|
    modifies data
    ensures offset == start + 8 + 16 * |dpt| && Walks(po, dpt.Keys)
    ensures data[..offset] == old(data[..start]) + ToBytes(|dpt|, 8) + DptBytes(dpt, po)
  {
    Put(data, start, |dpt|, 8);
    offset, po := PutDpt(dpt, data, start + 8);
  }

  method PutEndCheckpoint(r: LogRec, data: array<byte>) returns (offset: nat, ghost ao: seq<Xid>, ghost po: seq<PageKey>)
    requires r.EndCheckpointLog? && data.Length >= Size(r)
    modifies data
    ensures offset == Size(r) && OrdersOk(r, ao, po) && data[..offset] == Encode(r, ao, po)
  {
    offset := PutHead(r, data);
    offset, ao := PutAttTable(r.att, data, offset);
    offset, po := PutDptTable(r.dpt, data, offset);
    Regroup(Head(r), ToBytes(|r.att|, 8), AttBytes(r.att, ao), ToBytes(|r.dpt|, 8), DptBytes(r.dpt, po));
  }

  /** Write the bytes of a record to the head of the buffer; the two maps of a
      checkpoint are walked in whatever order they come. */
  method SerializeTo(r: LogRec, data: array<byte>) returns (offset: nat, ghost ao: seq<Xid>, ghost po: seq<PageKey>)
    requires data.Length >= Size(r)
    modifies data
    ensures offset == Size(r) && OrdersOk(r, ao, po) && data[..offset] == Encode(r, ao, po)
  {
    ao, po := [], [];
    match r
    case InsertLog(_, _, _, _, _, _, _, _) => offset := PutInsert(r, data);
    case DeleteLog(_, _, _, _, _, _) => offset := PutDelete(r, data);
    case NewPageLog(_, _, _, _, _, _) => offset := PutNewPage(r, data);
    case EndCheckpointLog(_, _, _, _, _) => offset, ao, po := PutEndCheckpoint(r, data);
    case _ =>
      offset := PutHead(r, data);
      assert Encode(r, ao, po) == Head(r);
  }

  method GetAtt(data: bytes, start: nat, n: nat) returns (att: map<Xid, Lsn>, offset: nat)
    requires start + 12 * n <= |data|
    ensures att == AttFrom(data, start, n) && offset == start + 12 * n
  {
    offset := start;
    att := map[];
    for i := 0 to n
      invariant offset == start + 12 * i && att == AttFrom(data, start, i)
    {
      var xid := Num(data, offset, 4);
      offset := offset + 4;
      var lsn := Num(data, offset, 8);
      offset := offset + 8;
      att := att[xid := lsn];
    }
  }

  method GetDpt(data: bytes, start: nat, n: nat) returns (dpt: map<PageKey, Lsn>, offset: nat)
    requires start + 16 * n <= |data|
    ensures dpt == DptFrom(data, start, n) && offset == start + 16 * n
  {
    offset := start;
    dpt := map[];
    for i := 0 to n
      invariant offset == start + 16 * i && dpt == DptFrom(data, start, i)
    {
      var key := PageKey(Num(data, offset, 4), Num(data, offset + 4, 4));
      offset := offset + 8;
      var lsn := Num(data, offset, 8);
      offset := offset + 8;
      dpt := dpt[key := lsn];
    }
  }

  method DeserializeEndCheckpoint(lsn: Lsn, data: bytes) returns (r: Option<LogRec>)
    ensures r == DecodeEndCheckpoint(lsn, data)
  {
    if |data| < 21 {
      return None;
    }
    var n := Num(data, 13, 8);
    if |data| < 29 + 12 * n {
      return None;
    }
    var att, offset := GetAtt(data, 21, n);
    var m := Num(data, offset, 8);
    if |data| < 29 + 12 * n + 16 * m {
      return None;
    }
    var dpt;
    dpt, offset := GetDpt(data, 29 + 12 * n, m);
    r := Some(EndCheckpointLog(lsn, Num(data, 1, 4), Num(data, 5, 8), att, dpt));
  }

  /** Read the record at the head of the buffer. */
  method DeserializeFrom(lsn: Lsn, data: bytes) returns (r: Option<LogRec>)
    ensures r == Decode(lsn, data)
  {
    if |data| >= 13 && Num(data, 0, 1) == 7 {
      r := DeserializeEndCheckpoint(lsn, data);
    } else {
      r := Decode(lsn, data);
    }
  }
}
