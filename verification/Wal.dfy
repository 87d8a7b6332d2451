/** The write-ahead log as a value: every record ever appended, how many of
    them are durable, and the two tables kept beside it. */
module Wal {
  import opened Types
  import opened Pages

  datatype LogRec =
    | BeginLog(lsn: Lsn, xid: Xid, prev: Lsn)
    | CommitLog(lsn: Lsn, xid: Xid, prev: Lsn)
    | RollbackLog(lsn: Lsn, xid: Xid, prev: Lsn)
    | InsertLog(lsn: Lsn, xid: Xid, prev: Lsn, oid: Oid, page: nat, slot: nat, offset: nat, rec: Version)
    | DeleteLog(lsn: Lsn, xid: Xid, prev: Lsn, oid: Oid, page: nat, slot: nat)
    | NewPageLog(lsn: Lsn, xid: Xid, prev: Lsn, oid: Oid, prevPage: nat, page: nat)
    | BeginCheckpointLog(lsn: Lsn, xid: Xid, prev: Lsn)
    | EndCheckpointLog(lsn: Lsn, xid: Xid, prev: Lsn, att: map<Xid, Lsn>, dpt: map<PageKey, Lsn>)

  // Bytes a record takes in the log file; its LSN is not stored.
  function Size(r: LogRec): nat {
    match r
    case InsertLog(_, _, _, _, _, _, _, rec) => 27 + RecordSize(rec)
    case DeleteLog(_, _, _, _, _, _) => 23
    case NewPageLog(_, _, _, _, _, _) => 25
    case EndCheckpointLog(_, _, _, att, dpt) => 13 + 8 + 12 * |att| + 8 + 16 * |dpt|
    case _ => 13
  }

  predicate IsCheckpoint(r: LogRec) { r.BeginCheckpointLog? || r.EndCheckpointLog? }

  predicate IsEnd(r: LogRec) { r.CommitLog? || r.RollbackLog? }

  predicate IsRowRec(r: LogRec) { r.InsertLog? || r.DeleteLog? }

  function KeyOfRec(r: LogRec): PageKey
    requires IsRowRec(r)
  {
    PageKey(r.oid, r.page)
  }

  function LocOfRec(r: LogRec): Loc
    requires IsRowRec(r)
  {
    Loc(r.oid, Rid(r.page, r.slot))
  }

  predicate Inserts(r: LogRec, l: Loc) { r.InsertLog? && LocOfRec(r) == l }

  predicate Deletes(r: LogRec, l: Loc) { r.DeleteLog? && LocOfRec(r) == l }

  predicate OnPage(r: LogRec, k: PageKey) { IsRowRec(r) && KeyOfRec(r) == k }

  predicate OfXid(r: LogRec, x: Xid) { !IsCheckpoint(r) && r.xid == x }

  /** `log` is everything ever appended, `durable` how many records of it are
      on disk; the log buffer holds the rest. */
  datatype Wal = Wal(log: seq<LogRec>, durable: nat, nextLsn: Lsn, flushed: Lsn,
                     att: map<Xid, Lsn>, dpt: map<PageKey, Lsn>, master: Lsn)

  // ---- operations ---------------------------------------------------------

  function Push(w: Wal, r: LogRec): Wal {
    w.(log := w.log + [r], nextLsn := w.nextLsn + Size(r))
  }

  function MarkDirty(w: Wal, k: PageKey, lsn: Lsn): Wal {
    if k in w.dpt then w else w.(dpt := w.dpt[k := lsn])
  }

  function AppendBegin(w: Wal, x: Xid): Wal {
    Push(w, BeginLog(w.nextLsn, x, NULL_LSN)).(att := w.att[x := w.nextLsn])
  }

  function AppendInsert(w: Wal, x: Xid, l: Loc, offset: nat, v: Version): Wal
    requires x in w.att
  {
    MarkDirty(Push(w, InsertLog(w.nextLsn, x, w.att[x], l.oid, l.rid.page, l.rid.slot, offset, v))
             .(att := w.att[x := w.nextLsn]), KeyOf(l), w.nextLsn)
  }

  function AppendDelete(w: Wal, x: Xid, l: Loc): Wal
    requires x in w.att
  {
    MarkDirty(Push(w, DeleteLog(w.nextLsn, x, w.att[x], l.oid, l.rid.page, l.rid.slot))
             .(att := w.att[x := w.nextLsn]), KeyOf(l), w.nextLsn)
  }

  // How many of the first `n` records have an LSN of at most `lsn`.
  function CountUpTo(log: seq<LogRec>, n: nat, lsn: Lsn): nat
    requires n <= |log|
  {
    if n == 0 then 0 else if log[n - 1].lsn <= lsn then n else CountUpTo(log, n - 1, lsn)
  }

  /** Write the buffered records up to `lsn`, or all of them for NULL_LSN. */
  function FlushTo(w: Wal, lsn: Lsn): Wal {
    var n := if lsn == NULL_LSN then |w.log| else CountUpTo(w.log, |w.log|, lsn);
    if w.durable < n <= |w.log| then w.(durable := n, flushed := w.log[n - 1].lsn) else w
  }

  // A commit or rollback record is on disk before the transaction leaves the table.
  function AppendEnd(w: Wal, x: Xid, commit: bool): Wal
    requires x in w.att
  {
    var r := if commit then CommitLog(w.nextLsn, x, w.att[x]) else RollbackLog(w.nextLsn, x, w.att[x]);
    var f := FlushTo(Push(w, r), w.nextLsn);
    f.(att := f.att - {x})
  }

  function Checkpoint(w: Wal): Wal {
    var b := Push(w, BeginCheckpointLog(w.nextLsn, NULL_XID, NULL_LSN));
    var e := Push(b, EndCheckpointLog(b.nextLsn, NULL_XID, NULL_LSN, w.att, w.dpt));
    FlushTo(e, b.nextLsn).(master := w.nextLsn)
  }

  // What a page write does to the log: everything up to the page's LSN first.
  function FlushPage(w: Wal, k: PageKey, lsn: Lsn): Wal {
    var f := FlushTo(w, lsn);
    f.(dpt := f.dpt - {k})
  }

  // The table has an entry for `k` from now on, the old one if there was one.
  predicate EntryFor(dpt: map<PageKey, Lsn>, dpt': map<PageKey, Lsn>, k: PageKey, lsn: Lsn) {
    dpt' == dpt[k := if k in dpt then dpt[k] else lsn]
  }

  // One record more, which is the newest of its transaction; nothing is written.
  ghost predicate Appended(w: Wal, w': Wal, r: LogRec) {
    && w'.log == w.log + [r] && r.lsn == w.nextLsn && w'.nextLsn == w.nextLsn + Size(r)
    && w'.durable == w.durable && w'.flushed == w.flushed && w'.master == w.master
    && w'.att == w.att[r.xid := r.lsn]
  }

  // ---- what the log alone says --------------------------------------------

  // The newest LSN of transaction `x` among the first `n` records.
  function LastLsn(log: seq<LogRec>, n: nat, x: Xid): Lsn
    requires n <= |log|
  {
    if n == 0 then NULL_LSN
    else if OfXid(log[n - 1], x) then log[n - 1].lsn
    else LastLsn(log, n - 1, x)
  }

  // The active-transaction table that the first `n` records describe.
  function AttOf(log: seq<LogRec>, n: nat): map<Xid, Lsn>
    requires n <= |log|
  {
    if n == 0 then map[]
    else
      var r := log[n - 1];
      var m := AttOf(log, n - 1);
      if IsCheckpoint(r) then m
      else if IsEnd(r) then m - {r.xid}
      else m[r.xid := r.lsn]
  }

  // ---- invariant ----------------------------------------------------------

  function EndOf(r: LogRec): Lsn { r.lsn + Size(r) }

  /** Records lie one after the other: an LSN is a byte offset. */
  ghost predicate Contiguous(log: seq<LogRec>, nextLsn: Lsn) {
    && (forall i, j :: 0 <= i < j < |log| && j == i + 1 ==> EndOf(log[i]) == log[j].lsn)
    && (|log| > 0 ==> EndOf(log[|log| - 1]) == nextLsn)
  }

  // Where a record that follows the first `n` has to point.
  function PrevFor(log: seq<LogRec>, n: nat, r: LogRec): Lsn
    requires n <= |log|
  {
    if r.BeginLog? then NULL_LSN else LastLsn(log, n, r.xid)
  }

  // A begin record starts a chain; every other record points at the newest
  // earlier record of its transaction.
  ghost predicate PrevOk(log: seq<LogRec>, i: nat)
    requires i < |log|
  {
    !IsCheckpoint(log[i]) ==> log[i].prev == PrevFor(log, i, log[i])
  }

  // Records at or below `flushed` are the durable ones.
  ghost predicate FlushedOk(w: Wal) {
    && (w.durable > 0 ==> w.flushed != NULL_LSN)
    && (forall i :: 0 <= i < w.durable && i < |w.log| ==> w.log[i].lsn <= w.flushed)
    && (w.flushed != NULL_LSN ==> forall i :: w.durable <= i < |w.log| ==> w.log[i].lsn > w.flushed)
    && (w.flushed != NULL_LSN ==> w.flushed < w.nextLsn)
  }

  // What holds of the log whatever the transaction table says.
  ghost predicate LogInv(w: Wal) {
    && w.durable <= |w.log|
    && w.nextLsn <= NULL_LSN
    && Contiguous(w.log, w.nextLsn)
    && (forall i :: 0 <= i < |w.log| ==> PrevOk(w.log, i))
    && FlushedOk(w)
  }

  ghost predicate WalInv(w: Wal) {
    LogInv(w) && w.att == AttOf(w.log, |w.log|)
  }

  lemma {:induction false} LsnBelowEnd(log: seq<LogRec>, nextLsn: Lsn, i: nat)
    requires Contiguous(log, nextLsn) && i < |log|
    ensures EndOf(log[i]) <= nextLsn
    decreases |log| - i
  {
    if i + 1 < |log| {
      LsnBelowEnd(log, nextLsn, i + 1);
    }
  }

  lemma {:induction false} LsnOrder(log: seq<LogRec>, nextLsn: Lsn, i: nat, j: nat)
    requires Contiguous(log, nextLsn) && i < j < |log|
    ensures EndOf(log[i]) <= log[j].lsn
    decreases j - i
  {
    if i + 1 < j {
      LsnOrder(log, nextLsn, i + 1, j);
    }
  }

  /** Distinct records have distinct LSNs, in log order. */
  lemma LsnOrders(log: seq<LogRec>, nextLsn: Lsn)
    requires Contiguous(log, nextLsn)
    ensures forall i, j :: 0 <= i < j < |log| ==> log[i].lsn < log[j].lsn
    ensures forall i :: 0 <= i < |log| ==> log[i].lsn < nextLsn
  {
    forall i, j | 0 <= i < j < |log| ensures log[i].lsn < log[j].lsn {
      LsnOrder(log, nextLsn, i, j);
    }
    forall i | 0 <= i < |log| ensures log[i].lsn < nextLsn {
      LsnBelowEnd(log, nextLsn, i);
    }
  }

  lemma {:induction false} PrefixSame(a: seq<LogRec>, b: seq<LogRec>, n: nat, x: Xid)
    requires n <= |a| && n <= |b| && a[..n] == b[..n]
    ensures LastLsn(a, n, x) == LastLsn(b, n, x) && AttOf(a, n) == AttOf(b, n)
  {
    if n > 0 {
      assert a[n - 1] == a[..n][n - 1] == b[..n][n - 1] == b[n - 1];
      assert a[..n - 1] == a[..n][..n - 1] == b[..n][..n - 1] == b[..n - 1];
      PrefixSame(a, b, n - 1, x);
    }
  }

  lemma {:induction false} CountUpToFacts(log: seq<LogRec>, nextLsn: Lsn, n: nat, lsn: Lsn)
    requires n <= |log| && Contiguous(log, nextLsn)
    ensures CountUpTo(log, n, lsn) <= n
    ensures forall i :: 0 <= i < CountUpTo(log, n, lsn) ==> log[i].lsn <= lsn
    ensures forall i :: CountUpTo(log, n, lsn) <= i < n ==> log[i].lsn > lsn
  {
    if n > 0 {
      LsnOrders(log, nextLsn);
      CountUpToFacts(log, nextLsn, n - 1, lsn);
    }
  }

  lemma PushContiguous(log: seq<LogRec>, nextLsn: Lsn, r: LogRec)
    requires Contiguous(log, nextLsn) && r.lsn == nextLsn
    ensures Contiguous(log + [r], nextLsn + Size(r))
  {
    var l := log + [r];
    forall i | 0 <= i < |l| - 1 ensures EndOf(l[i]) == l[i + 1].lsn {
      if i < |log| - 1 {
        assert EndOf(log[i]) == log[i + 1].lsn;
      }
    }
  }

  lemma PushPrev(log: seq<LogRec>, r: LogRec)
    requires forall i :: 0 <= i < |log| ==> PrevOk(log, i)
    requires !IsCheckpoint(r) ==> r.prev == PrevFor(log, |log|, r)
    ensures forall i :: 0 <= i < |log + [r]| ==> PrevOk(log + [r], i)
  {
    var l := log + [r];
    forall i | 0 <= i < |l| ensures PrevOk(l, i) {
      assert l[..i] == log[..i];
      PrefixSame(l, log, i, l[i].xid);
      if i < |log| {
        assert PrevOk(log, i);
      }
    }
  }

  lemma PushAtt(log: seq<LogRec>, r: LogRec)
    ensures AttOf(log + [r], |log| + 1) ==
      (if IsCheckpoint(r) then AttOf(log, |log|)
       else if IsEnd(r) then AttOf(log, |log|) - {r.xid}
       else AttOf(log, |log|)[r.xid := r.lsn])
  {
    assert (log + [r])[..|log|] == log[..|log|];
    PrefixSame(log + [r], log, |log|, 0);
  }

  // Pushing one record with the next LSN, pointing at its predecessor.
  lemma PushInv(w: Wal, r: LogRec, att: map<Xid, Lsn>)
    requires WalInv(w)
    requires r.lsn == w.nextLsn && r.lsn + Size(r) <= NULL_LSN
    requires !IsCheckpoint(r) ==> r.prev == PrevFor(w.log, |w.log|, r)
    requires att == (if IsCheckpoint(r) then w.att else if IsEnd(r) then w.att - {r.xid} else w.att[r.xid := r.lsn])
    ensures WalInv(Push(w, r).(att := att))
  {
    PushContiguous(w.log, w.nextLsn, r);
    PushPrev(w.log, r);
    PushAtt(w.log, r);
  }

  /** A flush makes exactly the records up to the given LSN durable, never
      takes one back, and changes no record and neither table. */
  lemma FlushToFacts(w: Wal, lsn: Lsn)
    requires LogInv(w)
    ensures var f := FlushTo(w, lsn);
      && LogInv(f) && (WalInv(w) ==> WalInv(f))
      && f == w.(durable := f.durable, flushed := f.flushed)
      && w.durable <= f.durable
      && (forall i :: 0 <= i < |w.log| && (lsn == NULL_LSN || w.log[i].lsn <= lsn) ==> i < f.durable)
      && (forall i :: w.durable <= i < f.durable ==> lsn == NULL_LSN || w.log[i].lsn <= lsn)
      && f.durable <= |w.log| && f.flushed == (if f.durable > w.durable then w.log[f.durable - 1].lsn else w.flushed)
  {
    CountUpToFacts(w.log, w.nextLsn, |w.log|, lsn);
    LsnOrders(w.log, w.nextLsn);
  }

  lemma {:induction false} AttIsLast(log: seq<LogRec>, n: nat, x: Xid)
    requires n <= |log| && x in AttOf(log, n)
    ensures AttOf(log, n)[x] == LastLsn(log, n, x)
  {
    if OfXid(log[n - 1], x) {
    } else {
      AttIsLast(log, n - 1, x);
    }
  }

  lemma AppendBeginInv(w: Wal, x: Xid)
    requires WalInv(w) && AppendBegin(w, x).nextLsn <= NULL_LSN
    ensures WalInv(AppendBegin(w, x))
  {
    PushInv(w, BeginLog(w.nextLsn, x, NULL_LSN), w.att[x := w.nextLsn]);
  }

  lemma AppendInsertInv(w: Wal, x: Xid, l: Loc, offset: nat, v: Version)
    requires WalInv(w) && x in w.att
    ensures AppendInsert(w, x, l, offset, v).nextLsn <= NULL_LSN ==> WalInv(AppendInsert(w, x, l, offset, v))
  {
    AttIsLast(w.log, |w.log|, x);
    var ins := InsertLog(w.nextLsn, x, w.att[x], l.oid, l.rid.page, l.rid.slot, offset, v);
    if ins.lsn + Size(ins) <= NULL_LSN {
      PushInv(w, ins, w.att[x := w.nextLsn]);
    }
  }

  lemma AppendDeleteInv(w: Wal, x: Xid, l: Loc)
    requires WalInv(w) && x in w.att
    ensures AppendDelete(w, x, l).nextLsn <= NULL_LSN ==> WalInv(AppendDelete(w, x, l))
  {
    AttIsLast(w.log, |w.log|, x);
    var del := DeleteLog(w.nextLsn, x, w.att[x], l.oid, l.rid.page, l.rid.slot);
    if del.lsn + Size(del) <= NULL_LSN {
      PushInv(w, del, w.att[x := w.nextLsn]);
    }
  }

  function EndRec(w: Wal, x: Xid, commit: bool): LogRec
    requires x in w.att
  {
    if commit then CommitLog(w.nextLsn, x, w.att[x]) else RollbackLog(w.nextLsn, x, w.att[x])
  }

  /** When a commit or rollback returns, the whole log including its own
      record is durable. */
  lemma AppendEndFacts(w: Wal, x: Xid, commit: bool)
    requires WalInv(w) && x in w.att && w.nextLsn + 13 <= NULL_LSN
    ensures var e := AppendEnd(w, x, commit);
      && WalInv(e)
      && e.log == w.log + [EndRec(w, x, commit)]
      && e.durable == |e.log|
      && e.att == w.att - {x} && e.dpt == w.dpt && e.master == w.master && e.nextLsn == w.nextLsn + 13
  {
    AttIsLast(w.log, |w.log|, x);
    var r := EndRec(w, x, commit);
    PushInv(w, r, w.att - {x});
    var p := Push(w, r).(att := w.att - {x});
    FlushToFacts(p, w.nextLsn);
    LsnOrders(p.log, p.nextLsn);
    assert p.log[|w.log|] == r;
    assert AppendEnd(w, x, commit) == FlushTo(p, w.nextLsn);
  }

  lemma CheckpointFacts(w: Wal)
    requires WalInv(w) && Checkpoint(w).nextLsn <= NULL_LSN
    ensures var c := Checkpoint(w);
      && WalInv(c)
      && |c.log| == |w.log| + 2 && c.log[..|w.log|] == w.log
      && c.log[|w.log|] == BeginCheckpointLog(w.nextLsn, NULL_XID, NULL_LSN)
      && c.log[|w.log| + 1] == EndCheckpointLog(w.nextLsn + 13, NULL_XID, NULL_LSN, w.att, w.dpt)
      && c.durable == |c.log|
      && c.att == w.att && c.dpt == w.dpt && c.master == w.nextLsn
  {
    var b := Push(w, BeginCheckpointLog(w.nextLsn, NULL_XID, NULL_LSN));
    var e := Push(b, EndCheckpointLog(b.nextLsn, NULL_XID, NULL_LSN, w.att, w.dpt));
    FlushKeepsNext(e, b.nextLsn);
    PushInv(w, BeginCheckpointLog(w.nextLsn, NULL_XID, NULL_LSN), w.att);
    assert b == b.(att := w.att);
    PushInv(b, EndCheckpointLog(b.nextLsn, NULL_XID, NULL_LSN, w.att, w.dpt), w.att);
    assert e == e.(att := w.att);
    FlushToFacts(e, b.nextLsn);
    LsnOrders(e.log, e.nextLsn);
    assert e.log[|w.log| + 1].lsn == b.nextLsn;
  }

  lemma FlushKeepsNext(w: Wal, lsn: Lsn)
    ensures FlushTo(w, lsn).nextLsn == w.nextLsn
  {
  }

  lemma FlushPageFacts(w: Wal, k: PageKey, lsn: Lsn)
    requires WalInv(w) && lsn != NULL_LSN
    ensures var f := FlushPage(w, k, lsn);
      && WalInv(f)
      && f == w.(durable := f.durable, flushed := f.flushed, dpt := w.dpt - {k})
      && w.durable <= f.durable
      && (forall i :: 0 <= i < |w.log| && w.log[i].lsn <= lsn ==> i < f.durable)
  {
    FlushToFacts(w, lsn);
  }
}
