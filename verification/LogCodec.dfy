/** The bytes of a log record, and how they are read back. */
module LogCodec {
  import opened Types
  import opened Pages
  import opened Wal
  import opened Bytes
  import opened HeaderCodec

  // ---- what fits the stored widths ----------------------------------------

  predicate AttFits(att: map<Xid, Lsn>) {
    |att| < U64 && forall x :: x in att ==> x < U32 && att[x] < U64
  }

  predicate DptFits(dpt: map<PageKey, Lsn>) {
    |dpt| < U64 && forall k :: k in dpt ==> k.oid < U32 && k.page < U32 && dpt[k] < U64
  }

  predicate RecFits(r: LogRec) {
    && r.xid < U32 && r.prev < U64
    && match r
       case InsertLog(_, _, _, oid, page, slot, offset, rec) =>
         oid < U32 && page < U32 && slot < U16 && offset < U16 && RecordSize(rec) < U16 && VersionFits(rec)
       case DeleteLog(_, _, _, oid, page, slot) => oid < U32 && page < U32 && slot < U16
       case NewPageLog(_, _, _, oid, prevPage, page) => oid < U32 && prevPage < U32 && page < U32
       case EndCheckpointLog(_, _, _, att, dpt) => AttFits(att) && DptFits(dpt)
       case _ => true
  }

  // ---- encoding -----------------------------------------------------------

  function Tag(r: LogRec): byte {
    match r
    case BeginLog(_, _, _) => 0
    case CommitLog(_, _, _) => 1
    case RollbackLog(_, _, _) => 2
    case InsertLog(_, _, _, _, _, _, _, _) => 3
    case DeleteLog(_, _, _, _, _, _) => 4
    case NewPageLog(_, _, _, _, _, _) => 5
    case BeginCheckpointLog(_, _, _) => 6
    case EndCheckpointLog(_, _, _, _, _) => 7
  }

  function Head(r: LogRec): (b: bytes)
    ensures |b| == 13
  {
    ToBytes(Tag(r), 1) + ToBytes(r.xid, 4) + ToBytes(r.prev, 8)
  }

  /** Every key of the map once, in the order the map is walked. */
  ghost predicate Walks<K(!new)>(order: seq<K>, keys: set<K>) {
    && |order| == |keys|
    && (forall k :: k in order <==> k in keys)
    && (forall i, j :: 0 <= i < j < |order| ==> order[i] != order[j])
  }

  function AttBytes(att: map<Xid, Lsn>, order: seq<Xid>): (b: bytes)
    requires forall x :: x in order ==> x in att
    ensures |b| == 12 * |order|
  {
    if order == [] then []
    else
      var n := |order| - 1;
      AttBytes(att, order[..n]) + (ToBytes(order[n], 4) + ToBytes(att[order[n]], 8))
  }

  function DptBytes(dpt: map<PageKey, Lsn>, order: seq<PageKey>): (b: bytes)
    requires forall k :: k in order ==> k in dpt
    ensures |b| == 16 * |order|
  {
    if order == [] then []
    else
      var n := |order| - 1;
      DptBytes(dpt, order[..n]) + DptEntry(order[n], dpt[order[n]])
  }

  function DptEntry(k: PageKey, lsn: Lsn): (b: bytes)
    ensures |b| == 16
  {
    ToBytes(k.oid, 4) + ToBytes(k.page, 4) + ToBytes(lsn, 8)
  }

  // The orders in which a record's two maps are walked.
  ghost predicate OrdersOk(r: LogRec, ao: seq<Xid>, po: seq<PageKey>) {
    r.EndCheckpointLog? ==> Walks(ao, r.att.Keys) && Walks(po, r.dpt.Keys)
  }

  ghost function Body(r: LogRec, ao: seq<Xid>, po: seq<PageKey>): (b: bytes)
    requires OrdersOk(r, ao, po)
  {
    match r
    case InsertLog(_, _, _, oid, page, slot, offset, rec) =>
      ToBytes(oid, 4) + ToBytes(page, 4) + ToBytes(slot, 2) + ToBytes(offset, 2) + ToBytes(RecordSize(rec), 2) + VersionBytes(rec)
    case DeleteLog(_, _, _, oid, page, slot) => ToBytes(oid, 4) + ToBytes(page, 4) + ToBytes(slot, 2)
    case NewPageLog(_, _, _, oid, prevPage, page) => ToBytes(oid, 4) + ToBytes(prevPage, 4) + ToBytes(page, 4)
    case EndCheckpointLog(_, _, _, att, dpt) => TableBytes(att, ao, dpt, po)
    case _ => []
  }

  // Both tables of a checkpoint, each after its size.
  function TableBytes(att: map<Xid, Lsn>, ao: seq<Xid>, dpt: map<PageKey, Lsn>, po: seq<PageKey>): (b: bytes)
    requires (forall x :: x in ao ==> x in att) && (forall k :: k in po ==> k in dpt)
    ensures |b| == 16 + 12 * |ao| + 16 * |po|
  {
    ToBytes(|att|, 8) + AttBytes(att, ao) + ToBytes(|dpt|, 8) + DptBytes(dpt, po)
  }

  ghost function Encode(r: LogRec, ao: seq<Xid>, po: seq<PageKey>): (b: bytes)
    requires OrdersOk(r, ao, po)
    ensures |b| == Size(r)
  {
    Head(r) + Body(r, ao, po)
  }

  // ---- decoding -----------------------------------------------------------

  function AttFrom(b: bytes, off: nat, n: nat): map<Xid, Lsn>
    requires off + 12 * n <= |b|
  {
    if n == 0 then map[]
    else AttFrom(b, off, n - 1)[Num(b, off + 12 * (n - 1), 4) := Num(b, off + 12 * (n - 1) + 4, 8)]
  }

  function DptFrom(b: bytes, off: nat, n: nat): map<PageKey, Lsn>
    requires off + 16 * n <= |b|
  {
    if n == 0 then map[]
    else
      var at := off + 16 * (n - 1);
      DptFrom(b, off, n - 1)[PageKey(Num(b, at, 4), Num(b, at + 4, 4)) := Num(b, at + 8, 8)]
  }

  function DecodeInsert(lsn: Lsn, b: bytes): Option<LogRec> {
    if |b| < 27 || |b| < 27 + Num(b, 25, 2) then None
    else
      match VersionOf(b[27..27 + Num(b, 25, 2)])
      case None => None
      case Some(rec) =>
        Some(InsertLog(lsn, Num(b, 1, 4), Num(b, 5, 8), Num(b, 13, 4), Num(b, 17, 4), Num(b, 21, 2), Num(b, 23, 2), rec))
  }

  function DecodeEndCheckpoint(lsn: Lsn, b: bytes): Option<LogRec> {
    if |b| < 21 then None
    else
      var n := Num(b, 13, 8);
      if |b| < 29 + 12 * n then None
      else
        var m := Num(b, 21 + 12 * n, 8);
        if |b| < 29 + 12 * n + 16 * m then None
        else Some(EndCheckpointLog(lsn, Num(b, 1, 4), Num(b, 5, 8), AttFrom(b, 21, n), DptFrom(b, 29 + 12 * n, m)))
  }

  /** The record at the head of `b`, if there is one. */
  function Decode(lsn: Lsn, b: bytes): Option<LogRec> {
    if |b| < 13 then None
    else
      var tag, xid, prev := Num(b, 0, 1), Num(b, 1, 4), Num(b, 5, 8);
      if tag == 0 then Some(BeginLog(lsn, xid, prev))
      else if tag == 1 then Some(CommitLog(lsn, xid, prev))
      else if tag == 2 then Some(RollbackLog(lsn, xid, prev))
      else if tag == 3 then DecodeInsert(lsn, b)
      else if tag == 4 then
        if |b| < 23 then None
        else Some(DeleteLog(lsn, xid, prev, Num(b, 13, 4), Num(b, 17, 4), Num(b, 21, 2)))
      else if tag == 5 then
        if |b| < 25 then None
        else Some(NewPageLog(lsn, xid, prev, Num(b, 13, 4), Num(b, 17, 4), Num(b, 21, 4)))
      else if tag == 6 then Some(BeginCheckpointLog(lsn, xid, prev))
      else if tag == 7 then DecodeEndCheckpoint(lsn, b)
      else None
  }

  // ---- fields -------------------------------------------------------------

  lemma HeadReads(r: LogRec, b: bytes)
    requires r.xid < U32 && r.prev < U64 && Stands(b, 0, Head(r))
    ensures Num(b, 0, 1) == Tag(r) && Num(b, 1, 4) == r.xid && Num(b, 5, 8) == r.prev
  {
    Widths();
    Split(b, 0, ToBytes(Tag(r), 1) + ToBytes(r.xid, 4), ToBytes(r.prev, 8));
    Split(b, 0, ToBytes(Tag(r), 1), ToBytes(r.xid, 4));
    NumStands(b, 0, Tag(r), 1);
    NumStands(b, 1, r.xid, 4);
    NumStands(b, 5, r.prev, 8);
  }

  /** The bytes of every record begin with its type, in the order of the C++
      enumeration, and its transaction and chain pointer. */
  lemma HeadFormat(r: LogRec, ao: seq<Xid>, po: seq<PageKey>)
    requires RecFits(r) && OrdersOk(r, ao, po)
    ensures var b := Encode(r, ao, po);
      && Num(b, 1, 4) == r.xid && Num(b, 5, 8) == r.prev
      && (r.BeginLog? <==> b[0] == 0) && (r.CommitLog? <==> b[0] == 1) && (r.RollbackLog? <==> b[0] == 2) && (r.InsertLog? <==> b[0] == 3)
      && (r.DeleteLog? <==> b[0] == 4) && (r.NewPageLog? <==> b[0] == 5)
      && (r.BeginCheckpointLog? <==> b[0] == 6) && (r.EndCheckpointLog? <==> b[0] == 7)
  {
    var b := Encode(r, ao, po);
    assert b[0..13] == Head(r);
    HeadReads(r, b);
    assert b[0..1] == [b[0]];
    assert Num(b, 0, 1) == b[0] by { assert FromBytes([b[0]][1..]) == 0; }
  }

  lemma InsertReads(r: LogRec, b: bytes)
    requires r.InsertLog? && RecFits(r) && Stands(b, 13, Body(r, [], []))
    ensures |b| >= 27 + RecordSize(r.rec)
    ensures Num(b, 13, 4) == r.oid && Num(b, 17, 4) == r.page && Num(b, 21, 2) == r.slot && Num(b, 23, 2) == r.offset
    ensures Num(b, 25, 2) == RecordSize(r.rec) && b[27..27 + RecordSize(r.rec)] == VersionBytes(r.rec)
  {
    Widths();
    var b1 := ToBytes(r.oid, 4);
    var b2 := b1 + ToBytes(r.page, 4);
    var b3 := b2 + ToBytes(r.slot, 2);
    var b4 := b3 + ToBytes(r.offset, 2);
    var b5 := b4 + ToBytes(RecordSize(r.rec), 2);
    Split(b, 13, b5, VersionBytes(r.rec));
    Split(b, 13, b4, ToBytes(RecordSize(r.rec), 2));
    Split(b, 13, b3, ToBytes(r.offset, 2));
    Split(b, 13, b2, ToBytes(r.slot, 2));
    Split(b, 13, b1, ToBytes(r.page, 4));
    NumStands(b, 13, r.oid, 4);
    NumStands(b, 17, r.page, 4);
    NumStands(b, 21, r.slot, 2);
    NumStands(b, 23, r.offset, 2);
    NumStands(b, 25, RecordSize(r.rec), 2);
  }

  lemma DeleteReads(r: LogRec, b: bytes)
    requires r.DeleteLog? && RecFits(r) && Stands(b, 13, Body(r, [], []))
    ensures |b| >= 23 && Num(b, 13, 4) == r.oid && Num(b, 17, 4) == r.page && Num(b, 21, 2) == r.slot
  {
    Widths();
    Split(b, 13, ToBytes(r.oid, 4) + ToBytes(r.page, 4), ToBytes(r.slot, 2));
    Split(b, 13, ToBytes(r.oid, 4), ToBytes(r.page, 4));
    NumStands(b, 13, r.oid, 4);
    NumStands(b, 17, r.page, 4);
    NumStands(b, 21, r.slot, 2);
  }

  lemma NewPageReads(r: LogRec, b: bytes)
    requires r.NewPageLog? && RecFits(r) && Stands(b, 13, Body(r, [], []))
    ensures |b| >= 25 && Num(b, 13, 4) == r.oid && Num(b, 17, 4) == r.prevPage && Num(b, 21, 4) == r.page
  {
    Widths();
    Split(b, 13, ToBytes(r.oid, 4) + ToBytes(r.prevPage, 4), ToBytes(r.page, 4));
    Split(b, 13, ToBytes(r.oid, 4), ToBytes(r.prevPage, 4));
    NumStands(b, 13, r.oid, 4);
    NumStands(b, 17, r.prevPage, 4);
    NumStands(b, 21, r.page, 4);
  }

  // ---- the two maps of a checkpoint ---------------------------------------

  lemma {:induction false} AttReads(att: map<Xid, Lsn>, order: seq<Xid>, b: bytes, off: nat)
    requires AttFits(att) && (forall x :: x in order ==> x in att) && Stands(b, off, AttBytes(att, order))
    ensures AttFrom(b, off, |order|) == map x | x in order :: att[x]
  {
    if order != [] {
      Widths();
      var n := |order| - 1;
      var x := order[n];
      assert order == order[..n] + [x];
      Split(b, off, AttBytes(att, order[..n]), ToBytes(x, 4) + ToBytes(att[x], 8));
      Split(b, off + 12 * n, ToBytes(x, 4), ToBytes(att[x], 8));
      NumStands(b, off + 12 * n, x, 4);
      NumStands(b, off + 12 * n + 4, att[x], 8);
      AttReads(att, order[..n], b, off);
    }
  }

  lemma DptEntryReads(k: PageKey, lsn: Lsn, b: bytes, off: nat)
    requires k.oid < U32 && k.page < U32 && lsn < U64
    requires Stands(b, off, DptEntry(k, lsn))
    ensures off + 16 <= |b| && Num(b, off, 4) == k.oid && Num(b, off + 4, 4) == k.page && Num(b, off + 8, 8) == lsn
  {
    Widths();
    Split(b, off, ToBytes(k.oid, 4) + ToBytes(k.page, 4), ToBytes(lsn, 8));
    Split(b, off, ToBytes(k.oid, 4), ToBytes(k.page, 4));
    NumStands(b, off, k.oid, 4);
    NumStands(b, off + 4, k.page, 4);
    NumStands(b, off + 8, lsn, 8);
  }

  lemma DptStep(b: bytes, off: nat, n: nat, k: PageKey, lsn: Lsn)
    requires k.oid < U32 && k.page < U32 && lsn < U64 && Stands(b, off + 16 * n, DptEntry(k, lsn))
    ensures off + 16 * (n + 1) <= |b| && DptFrom(b, off, n + 1) == DptFrom(b, off, n)[k := lsn]
  {
    DptEntryReads(k, lsn, b, off + 16 * n);
  }

  /** The bytes of both tables: twelve for each transaction, sixteen for each
      page. */
  lemma {:induction false} AttFormat(att: map<Xid, Lsn>, order: seq<Xid>, i: nat)
    requires AttFits(att) && (forall x :: x in order ==> x in att) && i < |order|
    ensures var b := AttBytes(att, order); Num(b, 12 * i, 4) == order[i] && Num(b, 12 * i + 4, 8) == att[order[i]]
  {
    var n := |order| - 1;
    var p, e := AttBytes(att, order[..n]), ToBytes(order[n], 4) + ToBytes(att[order[n]], 8);
    if i < n {
      AttFormat(att, order[..n], i);
      NumPrefix(p, e, 12 * i, 4);
      NumPrefix(p, e, 12 * i + 4, 8);
    } else {
      Widths();
      Split(p + e, 12 * n, ToBytes(order[n], 4), ToBytes(att[order[n]], 8));
      NumStands(p + e, 12 * n, order[n], 4);
      NumStands(p + e, 12 * n + 4, att[order[n]], 8);
    }
  }

  lemma {:induction false} DptFormat(dpt: map<PageKey, Lsn>, order: seq<PageKey>, i: nat)
    requires DptFits(dpt) && (forall k :: k in order ==> k in dpt) && i < |order|
    ensures var b := DptBytes(dpt, order);
      Num(b, 16 * i, 4) == order[i].oid && Num(b, 16 * i + 4, 4) == order[i].page && Num(b, 16 * i + 8, 8) == dpt[order[i]]
  {
    var n := |order| - 1;
    var p, e := DptBytes(dpt, order[..n]), DptEntry(order[n], dpt[order[n]]);
    if i < n {
      DptFormat(dpt, order[..n], i);
      NumPrefix(p, e, 16 * i, 4);
      NumPrefix(p, e, 16 * i + 4, 4);
      NumPrefix(p, e, 16 * i + 8, 8);
    } else {
      DptEntryReads(order[n], dpt[order[n]], p + e, 16 * n);
    }
  }

  // The map of one more key.
  lemma LastEntry(dpt: map<PageKey, Lsn>, order: seq<PageKey>, n: nat)
    requires n + 1 == |order| && forall k :: k in order ==> k in dpt
    ensures forall k :: k in order[..n] ==> k in dpt
    ensures (map k | k in order :: dpt[k]) == (map k | k in order[..n] :: dpt[k])[order[n] := dpt[order[n]]]
  {
    assert order == order[..n] + [order[n]];
  }

  lemma {:induction false} DptReads(dpt: map<PageKey, Lsn>, order: seq<PageKey>, b: bytes, off: nat)
    requires DptFits(dpt) && (forall k :: k in order ==> k in dpt) && Stands(b, off, DptBytes(dpt, order))
    ensures DptFrom(b, off, |order|) == map k | k in order :: dpt[k]
  {
    if order != [] {
      var n := |order| - 1;
      Split(b, off, DptBytes(dpt, order[..n]), DptEntry(order[n], dpt[order[n]]));
      DptReads(dpt, order[..n], b, off);
      DptStep(b, off, n, order[n], dpt[order[n]]);
      LastEntry(dpt, order, n);
    }
  }

  // Walking the whole map reads the whole map.
  lemma AttRead(att: map<Xid, Lsn>, order: seq<Xid>, b: bytes, off: nat, n: nat)
    requires AttFits(att) && Walks(order, att.Keys) && Stands(b, off, AttBytes(att, order)) && n == |order|
    ensures off + 12 * n <= |b| && AttFrom(b, off, n) == att
  {
    AttReads(att, order, b, off);
    WholeMap(att, order);
  }

  lemma DptRead(dpt: map<PageKey, Lsn>, order: seq<PageKey>, b: bytes, off: nat, n: nat)
    requires DptFits(dpt) && Walks(order, dpt.Keys) && Stands(b, off, DptBytes(dpt, order)) && n == |order|
    ensures off + 16 * n <= |b| && DptFrom(b, off, n) == dpt
  {
    DptReads(dpt, order, b, off);
    WholeMap(dpt, order);
  }

  lemma WholeMap<K(!new), V>(m: map<K, V>, order: seq<K>)
    requires forall k :: k in order <==> k in m
    ensures (map k | k in order :: m[k]) == m
  {
  }

  lemma CheckpointParts(n: nat, ab: bytes, m: nat, db: bytes, b: bytes, moff: nat)
    requires n < U64 && m < U64 && moff == 21 + |ab|
    requires Stands(b, 13, ToBytes(n, 8) + ab + ToBytes(m, 8) + db)
    ensures |b| >= moff + 8 + |db|
    ensures Num(b, 13, 8) == n && Num(b, moff, 8) == m
    ensures Stands(b, 21, ab) && Stands(b, moff + 8, db)
  {
    Widths();
    Split(b, 13, ToBytes(n, 8) + ab + ToBytes(m, 8), db);
    Split(b, 13, ToBytes(n, 8) + ab, ToBytes(m, 8));
    Split(b, 13, ToBytes(n, 8), ab);
    NumStands(b, 13, n, 8);
    NumStands(b, moff, m, 8);
  }

  // What decoding the two tables finds behind the head of the record.
  ghost predicate TablesAt(b: bytes, att: map<Xid, Lsn>, dpt: map<PageKey, Lsn>) {
    var n, m := |att|, |dpt|;
    && |b| >= 29 + 12 * n + 16 * m
    && Num(b, 13, 8) == n && Num(b, 21 + 12 * n, 8) == m
    && AttFrom(b, 21, n) == att && DptFrom(b, 29 + 12 * n, m) == dpt
  }

  lemma TablesRead(att: map<Xid, Lsn>, dpt: map<PageKey, Lsn>, ao: seq<Xid>, po: seq<PageKey>, b: bytes)
    requires AttFits(att) && DptFits(dpt) && Walks(ao, att.Keys) && Walks(po, dpt.Keys)
    requires Stands(b, 13, TableBytes(att, ao, dpt, po))
    ensures TablesAt(b, att, dpt)
  {
    var n, m := |ao|, |po|;
    SizeOfMap(att);
    SizeOfMap(dpt);
    CheckpointParts(n, AttBytes(att, ao), m, DptBytes(dpt, po), b, 21 + 12 * n);
    AttRead(att, ao, b, 21, n);
    DptRead(dpt, po, b, 29 + 12 * n, m);
    TablesJoined(b, att, dpt, n, m, 21 + 12 * n, 29 + 12 * n);
  }

  lemma SizeOfMap<K, V>(m: map<K, V>)
    ensures |m| == |m.Keys|
  {
  }

  lemma TablesJoined(b: bytes, att: map<Xid, Lsn>, dpt: map<PageKey, Lsn>, n: nat, m: nat, moff: nat, poff: nat)
    requires n == |att| && m == |dpt| && moff == 21 + 12 * n && poff == moff + 8 && |b| >= poff + 16 * m
    requires Num(b, 13, 8) == n && Num(b, moff, 8) == m && AttFrom(b, 21, n) == att && DptFrom(b, poff, m) == dpt
    ensures TablesAt(b, att, dpt)
  {
  }

  lemma InsertDecodes(r: LogRec, b: bytes)
    requires r.InsertLog? && RecFits(r) && Stands(b, 0, Encode(r, [], []))
    ensures Decode(r.lsn, b) == Some(r)
  {
    Split(b, 0, Head(r), Body(r, [], []));
    HeadReads(r, b);
    InsertReads(r, b);
    VersionRoundTrip(r.rec);
    assert Decode(r.lsn, b) == DecodeInsert(r.lsn, b);
  }

  lemma EndCheckpointFields(r: LogRec, b: bytes)
    requires r.EndCheckpointLog? && TablesAt(b, r.att, r.dpt)
    requires Num(b, 1, 4) == r.xid && Num(b, 5, 8) == r.prev
    ensures DecodeEndCheckpoint(r.lsn, b) == Some(r)
  {
  }

  lemma TagSeven(lsn: Lsn, b: bytes)
    requires |b| >= 13 && Num(b, 0, 1) == 7
    ensures Decode(lsn, b) == DecodeEndCheckpoint(lsn, b)
  {
  }

  lemma HeadAndBody(r: LogRec, ao: seq<Xid>, po: seq<PageKey>, b: bytes)
    requires OrdersOk(r, ao, po) && Stands(b, 0, Encode(r, ao, po))
    ensures Stands(b, 0, Head(r)) && Stands(b, 13, Body(r, ao, po))
  {
    Split(b, 0, Head(r), Body(r, ao, po));
  }

  lemma EndCheckpointDecodes(r: LogRec, ao: seq<Xid>, po: seq<PageKey>, b: bytes)
    requires r.EndCheckpointLog? && RecFits(r) && OrdersOk(r, ao, po) && Stands(b, 0, Encode(r, ao, po))
    ensures Decode(r.lsn, b) == Some(r)
  {
    HeadAndBody(r, ao, po, b);
    HeadReads(r, b);
    TagSeven(r.lsn, b);
    TablesRead(r.att, r.dpt, ao, po, b);
    EndCheckpointFields(r, b);
  }

  lemma SmallDecodes(r: LogRec, b: bytes)
    requires RecFits(r) && !r.InsertLog? && !r.EndCheckpointLog? && Stands(b, 0, Encode(r, [], []))
    ensures Decode(r.lsn, b) == Some(r)
  {
    Split(b, 0, Head(r), Body(r, [], []));
    HeadReads(r, b);
    if r.DeleteLog? {
      DeleteReads(r, b);
    } else if r.NewPageLog? {
      NewPageReads(r, b);
    }
  }

  /** Whatever follows it in the file and in whatever order its maps were
      walked, a record is decoded from its bytes exactly. */
  lemma RoundTrip(r: LogRec, ao: seq<Xid>, po: seq<PageKey>, b: bytes)
    requires RecFits(r) && OrdersOk(r, ao, po) && Stands(b, 0, Encode(r, ao, po))
    ensures Decode(r.lsn, b) == Some(r)
  {
    if r.InsertLog? {
      InsertDecodes(r, b);
    } else if r.EndCheckpointLog? {
      EndCheckpointDecodes(r, ao, po, b);
    } else {
      SmallDecodes(r, b);
    }
  }
}
