/** The log manager: appends, flushes, checkpoints and page-write hooks over a
    log file of bytes, proved against the log value of module Wal. */
module LogManagement {
  import opened Types
  import opened Pages
  import opened Wal
  import opened Replay
  import opened Bytes
  import opened LogCodec
  import opened LogRecords
  import opened LogWalks
  import opened Transactions
  import opened Recovery
  import opened CrashRecovery
  import opened EngineDisk

  const LOG_SEGMENT_SIZE: nat := 0x10_0000

  class Disk {
    var logFile: bytes
    var nextLsnCell: Option<Lsn>
    var masterCell: Option<Lsn>

    // Without a master record the checkpoint is looked for at the start.
    function MasterLsn(): Lsn
      reads this`masterCell
    {
      if masterCell.Some? then masterCell.value else FIRST_LSN
    }

    // A new log file is one segment of zeros.
    constructor ()
      ensures |logFile| == LOG_SEGMENT_SIZE && Zeroed(logFile) && nextLsnCell == None && masterCell == None
    {
      logFile, nextLsnCell, masterCell := seq(LOG_SEGMENT_SIZE, _ => 0), None, None;
    }

    method WriteLog(offset: nat, data: bytes)
      modifies this`logFile
      ensures logFile == Written(old(logFile), offset, data)
    {
      logFile := Written(logFile, offset, data);
    }

    // Everything the file holds from `offset` on.
    method ReadLog(offset: nat) returns (data: bytes)
      ensures data == if offset <= |logFile| then logFile[offset..] else []
    {
      data := if offset <= |logFile| then logFile[offset..] else [];
    }
  }

  /** The table pages, read and written through the buffer pool. */
  class PageStore {
    var pages: PageMap

    constructor (pages: PageMap)
      ensures this.pages == pages
    {
      this.pages := pages;
    }

    // Undo of an insert deletes the row for its inserter, undo of a delete revives it.
    method Undo(r: LogRec)
      requires !r.NewPageLog?
      modifies this
      ensures pages == UndoRec(r, old(pages))
    {
      match r
      case InsertLog(_, _, _, _, _, _, _, _) =>
        if HasLoc(pages, LocOfRec(r)) {
          pages := SetAt(pages, LocOfRec(r), MarkDeleted(At(pages, LocOfRec(r)), r.xid));
        }
      case DeleteLog(_, _, _, _, _, _) =>
        if HasLoc(pages, LocOfRec(r)) {
          pages := SetAt(pages, LocOfRec(r), Unmark(At(pages, LocOfRec(r))));
        }
      case _ =>
    }

    // Redo puts the logged record into its slot, or marks the row deleted.
    method Redo(r: LogRec)
      requires IsRowRec(r) && KeyOfRec(r) in pages
      modifies this
      ensures var p := old(pages)[KeyOfRec(r)];
        pages == old(pages)[KeyOfRec(r) := p.(recs := ApplyRecs(p.recs, r))]
    {
      var p := pages[KeyOfRec(r)];
      pages := pages[KeyOfRec(r) := p.(recs := ApplyRecs(p.recs, r))];
    }
  }

  const DDL_XID: Xid := 0

  // The new-page record of a DDL statement belongs to no transaction.
  function NewPageRec(w: Wal, x: Xid, oid: Oid, prevPage: nat, page: nat): LogRec
    requires x == DDL_XID || x in w.att
  {
    NewPageLog(w.nextLsn, x, if x == DDL_XID then NULL_XID else w.att[x], oid, prevPage, page)
  }

  function AppendNewPage(w: Wal, x: Xid, oid: Oid, prevPage: nat, page: nat): Wal
    requires x == DDL_XID || x in w.att
  {
    var p := Push(w, NewPageRec(w, x, oid, prevPage, page));
    var a := if x == DDL_XID then p else p.(att := w.att[x := w.nextLsn]);
    var d := MarkDirty(a, PageKey(oid, page), w.nextLsn);
    if prevPage != NULL_PAGE_ID then MarkDirty(d, PageKey(oid, prevPage), w.nextLsn) else d
  }

  /** What a new page logs: one record that names the page and the one ahead of
      it, the newest of its transaction unless a DDL statement makes the page;
      and a dirty-page entry for both where there is none. */
  ghost predicate NewPageLogged(w: Wal, w': Wal, x: Xid, oid: Oid, prevPage: nat, page: nat) {
    && (x == DDL_XID || x in w.att)
    && w'.log == w.log + [NewPageLog(w.nextLsn, x, if x == DDL_XID then NULL_XID else w.att[x], oid, prevPage, page)]
    && w'.nextLsn == w.nextLsn + 25 && w'.durable == w.durable && w'.flushed == w.flushed && w'.master == w.master
    && w'.att == (if x == DDL_XID then w.att else w.att[x := w.nextLsn])
    && (forall k :: k in w'.dpt <==> k in w.dpt || k == PageKey(oid, page) || (prevPage != NULL_PAGE_ID && k == PageKey(oid, prevPage)))
    && (forall k :: k in w'.dpt ==> w'.dpt[k] == if k in w.dpt then w.dpt[k] else w.nextLsn)
  }

  lemma AppendNewPageIs(w: Wal, x: Xid, oid: Oid, prevPage: nat, page: nat)
    requires x == DDL_XID || x in w.att
    ensures NewPageLogged(w, AppendNewPage(w, x, oid, prevPage, page), x, oid, prevPage, page)
  {
  }

  lemma AppendNewPageInv(w: Wal, x: Xid, oid: Oid, prevPage: nat, page: nat)
    requires x in w.att && x != DDL_XID
    ensures WalInv(w) && w.nextLsn + 25 <= NULL_LSN ==> WalInv(AppendNewPage(w, x, oid, prevPage, page))
  {
    if WalInv(w) && w.nextLsn + 25 <= NULL_LSN {
      AttIsLast(w.log, |w.log|, x);
      PushInv(w, NewPageRec(w, x, oid, prevPage, page), w.att[x := w.nextLsn]);
    }
  }

  // ---- facts about slices of the log --------------------------------------

  // The log file holds the durable records, the next-LSN cell their end.
  ghost predicate Stored(log: seq<LogRec>, durable: nat, file: bytes) {
    durable <= |log| && forall i {:trigger Holds(file, log[i])} :: 0 <= i < durable ==> Holds(file, log[i])
  }

  ghost predicate CellOk(log: seq<LogRec>, durable: nat, nextLsn: Lsn, cell: Option<Lsn>)
    requires durable <= |log|
  {
    && (durable > 0 ==> cell == Some(EndOf(log[durable - 1])))
    && (cell.Some? ==> cell.value <= nextLsn && forall i :: durable <= i < |log| ==> cell.value <= log[i].lsn)
  }

  // How far a flush up to `lsn` gets.
  ghost predicate FlushStop(log: seq<LogRec>, d0: nat, d: nat, lsn: Lsn) {
    && d0 <= d <= |log|
    && (forall j :: d0 <= j < d ==> lsn == NULL_LSN || log[j].lsn <= lsn)
    && (forall j :: d <= j < |log| ==> lsn != NULL_LSN && log[j].lsn > lsn)
  }

  /** A flush that stops there is the flush of the log value. */
  lemma FlushStopIsFlushTo(w: Wal, d: nat, lsn: Lsn)
    requires LogInv(w) && FlushStop(w.log, w.durable, d, lsn)
    ensures FlushTo(w, lsn) == if d > w.durable then w.(durable := d, flushed := w.log[d - 1].lsn) else w
  {
    CountUpToFacts(w.log, w.nextLsn, |w.log|, lsn);
    assert d > w.durable ==> lsn == NULL_LSN || w.log[d - 1].lsn <= lsn;
  }

  lemma StoredMore(log: seq<LogRec>, nextLsn: Lsn, d: nat, file: bytes, ao: seq<Xid>, po: seq<PageKey>)
    requires Contiguous(log, nextLsn) && Stored(log, d, file) && d < |log|
    requires RecFits(log[d]) && OrdersOk(log[d], ao, po)
    ensures Stored(log, d + 1, Written(file, log[d].lsn, Encode(log[d], ao, po)))
  {
    var e := Encode(log[d], ao, po);
    var f := Written(file, log[d].lsn, e);
    forall i | 0 <= i < d + 1 ensures Holds(f, log[i]) {
      if i < d {
        LsnOrder(log, nextLsn, i, d);
        WriteKeeps(file, log[d].lsn, e, log[i]);
      } else {
        WriteRecord(file, log[d], ao, po);
      }
    }
  }

  // The end of the durable log moves past the stored cell.
  lemma CellBehind(log: seq<LogRec>, d0: nat, d: nat, nextLsn: Lsn, cell: Option<Lsn>)
    requires d0 < d <= |log| && CellOk(log, d0, nextLsn, cell) && Contiguous(log, nextLsn)
    ensures EndOf(log[d - 1]) > if cell.Some? then cell.value else FIRST_LSN
    ensures CellOk(log, d, nextLsn, Some(EndOf(log[d - 1])))
  {
    LsnBelowEnd(log, nextLsn, d - 1);
    LsnOrders(log, nextLsn);
    forall i | d <= i < |log| ensures EndOf(log[d - 1]) <= log[i].lsn {
      LsnOrder(log, nextLsn, d - 1, i);
    }
    if cell.Some? {
      assert cell.value <= log[d0].lsn <= log[d - 1].lsn;
    }
  }

  lemma BufferedPush(log: seq<LogRec>, d: nat, file: bytes, nextLsn: Lsn, cell: Option<Lsn>, r: LogRec)
    requires Stored(log, d, file) && CellOk(log, d, nextLsn, cell) && r.lsn == nextLsn
    ensures Stored(log + [r], d, file) && CellOk(log + [r], d, nextLsn + Size(r), cell)
    ensures (log + [r])[d..] == log[d..] + [r]
  {
  }

  // Records `d0` up to `d` are not above the flush.
  ghost predicate Drained(log: seq<LogRec>, d0: nat, d: nat, lsn: Lsn)
    requires d <= |log|
  {
    forall j :: d0 <= j < d ==> lsn == NULL_LSN || log[j].lsn <= lsn
  }

  // The first record that stays behind is above the flush, and so are the rest.
  lemma DrainDone(log: seq<LogRec>, nextLsn: Lsn, d0: nat, d: nat, lsn: Lsn)
    requires Contiguous(log, nextLsn) && d0 <= d <= |log| && Drained(log, d0, d, lsn)
    requires d < |log| ==> lsn != NULL_LSN && log[d].lsn > lsn
    ensures FlushStop(log, d0, d, lsn)
  {
    LsnOrders(log, nextLsn);
  }

  // What was not flushed before is above the flushed LSN.
  lemma AboveFlushed(w: Wal, d: nat)
    requires LogInv(w) && w.durable <= d <= |w.log|
    ensures d > w.durable ==> w.log[d - 1].lsn < NULL_LSN && (w.flushed == NULL_LSN || w.log[d - 1].lsn > w.flushed)
  {
    LsnOrders(w.log, w.nextLsn);
  }

  // The state a flush that stops at `d` leaves.
  function Flushed(w: Wal, d: nat): Wal
    requires d <= |w.log|
  {
    w.(durable := d, flushed := if d > w.durable then w.log[d - 1].lsn else w.flushed)
  }

  lemma FlushDone(w: Wal, d: nat, lsn: Lsn)
    requires LogInv(w) && FlushStop(w.log, w.durable, d, lsn)
    ensures Flushed(w, d) == FlushTo(w, lsn) && LogInv(Flushed(w, d))
  {
    FlushStopIsFlushTo(w, d, lsn);
    FlushToFacts(w, lsn);
    assert d == w.durable ==> Flushed(w, d) == w;
  }

  // Names the class below uses for its own methods.
  function TakeCheckpoint(w: Wal): Wal { Checkpoint(w) }

  function WriteBack(w: Wal, k: PageKey, lsn: Lsn): Wal { FlushPage(w, k, lsn) }

  // The log says nothing about the dirty-page table.
  lemma DptIsFree(w: Wal, dpt: map<PageKey, Lsn>)
    requires WalInv(w)
    ensures WalInv(w.(dpt := dpt))
  {
  }

  lemma {:induction false} AttBelow(log: seq<LogRec>, n: nat, nextLsn: Lsn, x: Xid)
    requires Contiguous(log, nextLsn) && n <= |log| && x in AttOf(log, n)
    ensures AttOf(log, n)[x] < nextLsn
  {
    LsnBelowEnd(log, nextLsn, n - 1);
    if IsCheckpoint(log[n - 1]) || log[n - 1].xid != x {
      AttBelow(log, n - 1, nextLsn, x);
    }
  }

  lemma EndPushed(w: Wal, x: Xid, commit: bool)
    requires WalInv(w) && x in w.att && w.nextLsn + 13 <= NULL_LSN
    ensures LogInv(Push(w, EndRec(w, x, commit)))
  {
    AttIsLast(w.log, |w.log|, x);
    PushInv(w, EndRec(w, x, commit), w.att - {x});
  }

  lemma CheckpointPushed(w: Wal)
    requires WalInv(w) && Checkpoint(w).nextLsn <= NULL_LSN
    ensures var b := Push(w, BeginCheckpointLog(w.nextLsn, NULL_XID, NULL_LSN));
      LogInv(Push(b, EndCheckpointLog(b.nextLsn, NULL_XID, NULL_LSN, w.att, w.dpt)))
  {
    var b := Push(w, BeginCheckpointLog(w.nextLsn, NULL_XID, NULL_LSN));
    var e := EndCheckpointLog(b.nextLsn, NULL_XID, NULL_LSN, w.att, w.dpt);
    FlushKeepsNext(Push(b, e), b.nextLsn);
    PushInv(w, BeginCheckpointLog(w.nextLsn, NULL_XID, NULL_LSN), w.att);
    assert b == b.(att := w.att);
    PushInv(b, e, w.att);
    assert Push(b, e) == Push(b, e).(att := w.att);
  }

  lemma CheckpointIs(w: Wal)
    requires WalInv(w) && TakeCheckpoint(w).nextLsn <= NULL_LSN
    ensures WalInv(TakeCheckpoint(w))
    ensures var c := TakeCheckpoint(w);
      && c.durable == |c.log| >= 2 && c.log[|c.log| - 2].BeginCheckpointLog? && c.log[|c.log| - 2].lsn == w.nextLsn
      && c.log[|c.log| - 1].EndCheckpointLog?
    ensures TakeCheckpoint(w) ==
      FlushTo(Push(Push(w, BeginCheckpointLog(w.nextLsn, NULL_XID, NULL_LSN)),
                   EndCheckpointLog(w.nextLsn + 13, NULL_XID, NULL_LSN, w.att, w.dpt)), w.nextLsn + 13).(master := w.nextLsn)
  {
    CheckpointFacts(w);
  }

  lemma CheckpointLeaves(w: Wal)
    requires WalInv(w) && TakeCheckpoint(w).nextLsn <= NULL_LSN
    ensures var c := TakeCheckpoint(w);
      && c.log == w.log + [BeginCheckpointLog(w.nextLsn, NULL_XID, NULL_LSN), EndCheckpointLog(w.nextLsn + 13, NULL_XID, NULL_LSN, w.att, w.dpt)]
      && c.durable == |c.log| && c.att == w.att && c.dpt == w.dpt
  {
    CheckpointFacts(w);
    var c := TakeCheckpoint(w);
    assert c.log == c.log[..|w.log|] + [c.log[|w.log|], c.log[|w.log| + 1]];
  }

  function AnalysisOf(log: seq<LogRec>, c: nat): Analysis
    requires c + 2 <= |log| && log[c + 1].EndCheckpointLog?
  {
    Analyze(log, c)
  }

  /** What restart finds on disk: a log whose end is the stored next LSN, and
      a complete checkpoint where the master record points. */
  ghost predicate Restartable(log: seq<LogRec>, c: nat, disk: Disk)
    reads disk
  {
    && AllFit(log) && Stored(log, |log|, disk.logFile)
    && c + 2 <= |log| && log[c].BeginCheckpointLog? && log[c + 1].EndCheckpointLog?
    && (forall i :: 0 <= i < |log| ==> PrevOk(log, i))
    && var end := EndOf(log[|log| - 1]);
       && Contiguous(log, end) && end <= NULL_LSN
       && disk.nextLsnCell == Some(end) && disk.MasterLsn() == log[c].lsn
  }

  lemma AnalyzeStep(log: seq<LogRec>, s: nat, i: nat, j: nat, a: Analysis, t: Analysis, t': Analysis)
    requires s <= i < |log| && j == i + 1 && t == AnalyzeTo(log, s, i, a) && t' == AnalyzeRec(t, log[i])
    ensures t' == AnalyzeTo(log, s, j, a)
  {
  }

  // The state analysis leaves.
  function Analyzed(log: seq<LogRec>, c: nat): Wal
    requires c + 2 <= |log| && log[c + 1].EndCheckpointLog?
  {
    var a := AnalysisOf(log, c);
    var end := EndOf(log[|log| - 1]);
    Wal(log, |log|, end, end - 1, a.att, a.dpt, log[c].lsn)
  }

  lemma AnalyzedOk(log: seq<LogRec>, c: nat)
    requires c + 2 <= |log| && log[c + 1].EndCheckpointLog?
    requires Contiguous(log, EndOf(log[|log| - 1])) && EndOf(log[|log| - 1]) <= NULL_LSN
    requires forall i :: 0 <= i < |log| ==> PrevOk(log, i)
    ensures LogInv(Analyzed(log, c))
  {
    LsnOrders(log, EndOf(log[|log| - 1]));
  }

  // What analysis makes of a log that is all on disk: the pages and the ids its
  // records name.
  lemma AnalyzedMeaning(log: seq<LogRec>, c: nat, saved: Xid)
    requires AllFit(log) && c + 2 <= |log| && log[c + 1].EndCheckpointLog?
    ensures NextIdOk(log, c, saved, NextXidAfter(AnalysisOf(log, c), saved))
    ensures EntriesOk(log, c + 2, |log|, log[c + 1].dpt, AnalysisOf(log, c).dpt)
  {
    forall i | 0 <= i < |log| ensures log[i].xid <= NULL_XID { assert RecFits(log[i]); }
    NextIdRaised(log, c, saved);
    AnalysisEntries(log, c + 2, |log|, Analysis(log[c + 1].att, log[c + 1].dpt, 0));
  }

  // The transactions in `done`, each once.
  ghost predicate Listed(order: seq<Xid>, done: set<Xid>) {
    && (forall i, j :: 0 <= i < j < |order| ==> order[i] != order[j])
    && (forall x :: x in order <==> x in done)
  }

  lemma ListedMore(order: seq<Xid>, done: set<Xid>, x: Xid)
    requires Listed(order, done) && x !in done
    ensures Listed(order + [x], done + {x})
  {
  }

  // The record redo starts at, given the least dirty-page entry.
  lemma StartFor(log: seq<LogRec>, nextLsn: Lsn, dpt: map<PageKey, Lsn>, c: nat, minLsn: Lsn) returns (start: nat)
    requires Contiguous(log, nextLsn) && c < |log|
    requires forall k :: k in dpt ==> exists i :: 0 <= i < |log| && log[i].lsn == dpt[k]
    requires minLsn == nextLsn || exists k :: k in dpt && dpt[k] == minLsn
    requires minLsn <= nextLsn && forall k :: k in dpt ==> minLsn <= dpt[k]
    ensures RedoStart(log, dpt, c, start)
    ensures log[start].lsn == if minLsn == nextLsn then log[c].lsn else minLsn
  {
    LsnOrders(log, nextLsn);
    if minLsn == nextLsn {
      start := c;
    } else {
      var k :| k in dpt && dpt[k] == minLsn;
      start :| 0 <= start < |log| && log[start].lsn == dpt[k];
    }
  }

  predicate AllFit(log: seq<LogRec>) {
    forall i {:trigger RecFits(log[i])} :: 0 <= i < |log| ==> RecFits(log[i])
  }

  lemma AllFitPush(log: seq<LogRec>, r: LogRec)
    requires AllFit(log) && RecFits(r)
    ensures AllFit(log + [r])
  {
    forall i | 0 <= i < |log + [r]| ensures RecFits((log + [r])[i]) {
      if i < |log| { assert RecFits(log[i]); }
    }
  }

  // A turn of the rollback loop goes from a record to the one it points at.
  lemma TurnIs(w: Wal, file: bytes, i: nat)
    requires LogInv(w) && Stored(w.log, w.durable, file) && i < |w.log| && w.flushed != NULL_LSN
    ensures NextLsn(w.log[w.durable..], w.flushed, file, w.log[i].lsn) == Some(w.log[i].prev)
  {
    LsnOrders(w.log, w.nextLsn);
    if i < w.durable {
      assert Holds(file, w.log[i]);
      ReadHeld(file, w.log[i]);
    } else {
      InBuffer(w.log[w.durable..], i - w.durable);
    }
  }

  // From a record on, the walk goes on where its pointer leads.
  lemma WalkTurn(w: Wal, file: bytes, i: nat, k: nat)
    requires LogInv(w) && Stored(w.log, w.durable, file) && i < |w.log| && w.flushed != NULL_LSN && w.log[i].lsn != NULL_LSN
    requires WalkBack(w.log[w.durable..], w.flushed, file, w.log[i].prev, k) == Some(NULL_LSN)
    ensures WalkBack(w.log[w.durable..], w.flushed, file, w.log[i].lsn, k + 1) == Some(NULL_LSN)
  {
    TurnIs(w, file, i);
    WalkFrom(w.log[w.durable..], w.flushed, file, w.log[i].lsn, k);
  }

  lemma {:induction false} WalkReaches(w: Wal, file: bytes, n: nat, x: Xid) returns (k: nat)
    requires LogInv(w) && Stored(w.log, w.durable, file) && w.flushed != NULL_LSN && n <= |w.log|
    ensures WalkBack(w.log[w.durable..], w.flushed, file, LastLsn(w.log, n, x), k) == Some(NULL_LSN)
    decreases n
  {
    k := 0;
    if LastLsn(w.log, n, x) != NULL_LSN {
      var i := ChainStep(w.log, n, x, map[]);
      if !w.log[i].BeginLog? { k := WalkReaches(w, file, i, x); }
      WalkTurn(w, file, i, k);
      k := k + 1;
    }
  }

  class LogManager {
    const disk: Disk
    var att: map<Xid, Lsn>
    var dpt: map<PageKey, Lsn>
    var nextLsn: Lsn
    var flushedLsn: Lsn
    var logBuffer: seq<LogRec>
    // The abstract log: everything ever appended, and how much is in the file.
    ghost var w: Wal

    /** The buffer is the part of the log that is not in the file. */
    ghost predicate Ties()
      reads this, disk
    {
      && nextLsn == w.nextLsn && flushedLsn == w.flushed && att == w.att && dpt == w.dpt
      && w.master == disk.MasterLsn()
      && w.durable <= |w.log| && logBuffer == w.log[w.durable..]
      && Stored(w.log, w.durable, disk.logFile)
      && CellOk(w.log, w.durable, w.nextLsn, disk.nextLsnCell)
      && AllFit(w.log)
      && (flushedLsn == NULL_LSN ==> Zeroed(disk.logFile))
    }

    ghost predicate Valid()
      reads this, disk
    {
      WalInv(w) && Ties()
    }

    lemma SameTables()
      requires Valid()
      ensures att == w.att && dpt == w.dpt && nextLsn == w.nextLsn
    {
    }

    /** Opening an existing log: everything in it is durable.  A first start
        has nothing flushed, and says so with NULL_LSN. */
    constructor (disk: Disk, nextLsn: Lsn, ghost log: seq<LogRec>)
      requires Contiguous(log, nextLsn) && Stored(log, |log|, disk.logFile) && CellOk(log, |log|, nextLsn, disk.nextLsnCell)
      requires AllFit(log) && (log == [] <==> nextLsn == 0) && nextLsn <= NULL_LSN
      requires nextLsn == 0 ==> Zeroed(disk.logFile)
      ensures this.disk == disk && Ties() && FlushedOk(w)
      ensures w.log == log && w.durable == |log| && w.nextLsn == nextLsn && w.att == map[] && w.dpt == map[]
      ensures w.flushed == NULL_LSN <==> nextLsn == 0
    {
      this.disk := disk;
      this.nextLsn := nextLsn;
      flushedLsn := if nextLsn == 0 then NULL_LSN else nextLsn - 1;
      att, dpt, logBuffer := map[], map[], [];
      w := Wal(log, |log|, nextLsn, if nextLsn == 0 then NULL_LSN else nextLsn - 1, map[], map[],
               disk.MasterLsn());
      new;
      LsnOrders(log, nextLsn);
    }

    /** Opening the log of a crashed database: the control file's LSN is stale,
        and analysis replaces it. */
    constructor Reopened(disk: Disk, lsn: Lsn)
      ensures this.disk == disk && logBuffer == [] && nextLsn == lsn && att == map[] && dpt == map[]
    {
      this.disk := disk;
      nextLsn := lsn;
      flushedLsn := if lsn == 0 then NULL_LSN else lsn - 1;
      att, dpt, logBuffer := map[], map[], [];
      w := Wal([], 0, 0, NULL_LSN, map[], map[], FIRST_LSN);
    }

    // Hand out the LSN, then queue the record.
    method Append(r: LogRec)
      requires Ties() && RecFits(r) && r.lsn == nextLsn
      modifies this`nextLsn, this`logBuffer, this`w
      ensures Ties() && w == Push(old(w), r)
    {
      BufferedPush(w.log, w.durable, disk.logFile, w.nextLsn, disk.nextLsnCell, r);
      AllFitPush(w.log, r);
      nextLsn := nextLsn + Size(r);
      logBuffer := logBuffer + [r];
      w := Push(w, r);
    }

    method SetDirty(oid: Oid, page: nat, lsn: Lsn)
      requires Ties()
      modifies this`dpt, this`w
      ensures Ties() && w == MarkDirty(old(w), PageKey(oid, page), lsn)
      ensures w == old(w).(dpt := dpt) && EntryFor(old(dpt), dpt, PageKey(oid, page), lsn)
    {
      if PageKey(oid, page) !in dpt {
        dpt := dpt[PageKey(oid, page) := lsn];
      }
      w := MarkDirty(w, PageKey(oid, page), lsn);
    }

    method SetLast(xid: Xid, lsn: Lsn)
      requires Ties()
      modifies this`att, this`w
      ensures Ties() && w == old(w).(att := old(w.att)[xid := lsn])
    {
      att := att[xid := lsn];
      w := w.(att := att);
    }

    method AppendInsertLog(xid: Xid, l: Loc, offset: nat, rec: Version) returns (r: Result<Lsn>)
      requires Valid()
      requires xid in att ==>
        RecFits(InsertLog(nextLsn, xid, att[xid], l.oid, l.rid.page, l.rid.slot, offset, rec)) && nextLsn + 27 + RecordSize(rec) <= NULL_LSN
      modifies this
      ensures Valid() && (r.Ok? <==> xid in old(att))
      ensures r.Ok? ==> r.value == old(nextLsn) && w == AppendInsert(old(w), xid, l, offset, rec)
      ensures r.Ok? ==>
        && Appended(old(w), w, InsertLog(r.value, xid, old(att)[xid], l.oid, l.rid.page, l.rid.slot, offset, rec))
        && EntryFor(old(dpt), dpt, PageKey(l.oid, l.rid.page), r.value)
      ensures r.Err? ==> w == old(w)
    {
      if xid !in att {
        return Err("xid does not exist in att (in AppendInsertLog)");
      }
      AppendInsertInv(w, xid, l, offset, rec);
      var lsn := nextLsn;
      Append(InsertLog(lsn, xid, att[xid], l.oid, l.rid.page, l.rid.slot, offset, rec));
      SetLast(xid, lsn);
      SetDirty(l.oid, l.rid.page, lsn);
      r := Ok(lsn);
    }

    method AppendDeleteLog(xid: Xid, l: Loc) returns (r: Result<Lsn>)
      requires Valid()
      requires xid in att ==> RecFits(DeleteLog(nextLsn, xid, att[xid], l.oid, l.rid.page, l.rid.slot)) && nextLsn + 23 <= NULL_LSN
      modifies this
      ensures Valid() && (r.Ok? <==> xid in old(att))
      ensures r.Ok? ==> r.value == old(nextLsn) && w == AppendDelete(old(w), xid, l)
      ensures r.Ok? ==>
        && Appended(old(w), w, DeleteLog(r.value, xid, old(att)[xid], l.oid, l.rid.page, l.rid.slot))
        && EntryFor(old(dpt), dpt, PageKey(l.oid, l.rid.page), r.value)
      ensures r.Err? ==> w == old(w)
    {
      if xid !in att {
        return Err("xid does not exist in att (in AppendDeleteLog)");
      }
      AppendDeleteInv(w, xid, l);
      var lsn := nextLsn;
      Append(DeleteLog(lsn, xid, att[xid], l.oid, l.rid.page, l.rid.slot));
      SetLast(xid, lsn);
      SetDirty(l.oid, l.rid.page, lsn);
      r := Ok(lsn);
    }

    // A page created for a table marks itself and its predecessor dirty.
    method AppendNewPageLog(xid: Xid, oid: Oid, prevPage: nat, page: nat) returns (r: Result<Lsn>)
      requires Ties()
      requires xid == DDL_XID || xid in att ==> RecFits(NewPageRec(w, xid, oid, prevPage, page))
      modifies this
      ensures Ties() && (r.Ok? <==> xid == DDL_XID || xid in old(att))
      ensures old(WalInv(w)) && xid != DDL_XID && old(nextLsn) + 25 <= NULL_LSN ==> WalInv(w)
      ensures r.Ok? ==> r.value == old(nextLsn) && w == AppendNewPage(old(w), xid, oid, prevPage, page)
      ensures r.Ok? ==> NewPageLogged(old(w), w, xid, oid, prevPage, page)
      ensures r.Err? ==> w == old(w)
    {
      if xid != DDL_XID && xid !in att {
        return Err("xid does not exist in att (in AppendNewPageLog)");
      }
      AppendNewPageIs(w, xid, oid, prevPage, page);
      var prev := if xid == DDL_XID then NULL_XID else att[xid];
      if xid != DDL_XID { AppendNewPageInv(w, xid, oid, prevPage, page); }
      var lsn := nextLsn;
      Append(NewPageLog(lsn, xid, prev, oid, prevPage, page));
      if xid != DDL_XID {
        SetLast(xid, lsn);
      }
      SetDirty(oid, page, lsn);
      if prevPage != NULL_PAGE_ID {
        SetDirty(oid, prevPage, lsn);
      }
      r := Ok(lsn);
    }

    method AppendBeginLog(xid: Xid) returns (r: Result<Lsn>)
      requires Valid() && xid < U32 && nextLsn + 13 <= NULL_LSN
      modifies this
      ensures Valid() && (r.Ok? <==> xid !in old(att))
      ensures r.Ok? ==> r.value == old(nextLsn) && w == AppendBegin(old(w), xid)
      ensures r.Ok? ==> Appended(old(w), w, BeginLog(r.value, xid, NULL_LSN)) && dpt == old(dpt)
      ensures r.Err? ==> w == old(w)
    {
      if xid in att {
        return Err("xid already exists in att");
      }
      AppendBeginInv(w, xid);
      var lsn := nextLsn;
      Append(BeginLog(lsn, xid, NULL_LSN));
      SetLast(xid, lsn);
      r := Ok(lsn);
    }

    method AppendCommitLog(xid: Xid) returns (r: Result<Lsn>)
      requires Valid() && xid < U32 && nextLsn + 13 <= NULL_LSN
      modifies this, disk
      ensures Valid() && (r.Ok? <==> xid in old(att))
      ensures r.Ok? ==> r.value == old(nextLsn) && w == AppendEnd(old(w), xid, true)
      ensures r.Ok? ==>
        && w.log == old(w.log) + [CommitLog(r.value, xid, old(att)[xid])] && w.durable == |w.log|
        && att == old(att) - {xid} && dpt == old(dpt)
      ensures r.Err? ==> w == old(w)
    {
      if xid !in att {
        return Err("xid does not exist in att (in AppendCommitLog)");
      }
      var lsn := nextLsn;
      AttBelow(w.log, |w.log|, w.nextLsn, xid);
      AppendLast(CommitLog(lsn, xid, att[xid]), true);
      r := Ok(lsn);
    }

    method AppendRollbackLog(xid: Xid) returns (r: Result<Lsn>)
      requires Valid() && xid < U32 && nextLsn + 13 <= NULL_LSN
      modifies this, disk
      ensures Valid() && (r.Ok? <==> xid in old(att))
      ensures r.Ok? ==> r.value == old(nextLsn) && w == AppendEnd(old(w), xid, false)
      ensures r.Ok? ==>
        && w.log == old(w.log) + [RollbackLog(r.value, xid, old(att)[xid])] && w.durable == |w.log|
        && att == old(att) - {xid} && dpt == old(dpt)
      ensures r.Err? ==> w == old(w)
    {
      if xid !in att {
        return Err("xid does not exist in att (in AppendRollbackLog)");
      }
      var lsn := nextLsn;
      AttBelow(w.log, |w.log|, w.nextLsn, xid);
      AppendLast(RollbackLog(lsn, xid, att[xid]), false);
      r := Ok(lsn);
    }

    // The last record of a transaction: append, flush up to it, forget the transaction.
    method AppendLast(r: LogRec, ghost commit: bool)
      requires Valid() && r.xid in att && r == EndRec(w, r.xid, commit) && RecFits(r) && nextLsn + 13 <= NULL_LSN
      modifies this, disk
      ensures Valid() && w == AppendEnd(old(w), r.xid, commit)
    {
      AppendEndFacts(w, r.xid, commit);
      EndPushed(w, r.xid, commit);
      Append(r);
      FlushUpTo(r.lsn);
      att := att - {r.xid};
      w := w.(att := att);
    }

    /** Begin and end record, flushed, then the master record. */
    method Checkpoint() returns (endLsn: Lsn)
      requires Valid() && AttFits(att) && DptFits(dpt) && TakeCheckpoint(w).nextLsn <= NULL_LSN
      modifies this, disk
      ensures Valid() && w == TakeCheckpoint(old(w))
      ensures endLsn == old(nextLsn) + 13
      ensures w.log == old(w.log) + [BeginCheckpointLog(old(nextLsn), NULL_XID, NULL_LSN),
                                     EndCheckpointLog(endLsn, NULL_XID, NULL_LSN, old(att), old(dpt))]
      ensures w.durable == |w.log| && disk.masterCell == Some(old(nextLsn)) && att == old(att) && dpt == old(dpt)
    {
      CheckpointLeaves(w);
      endLsn := MasteredCheckpoint();
    }

    method MasteredCheckpoint() returns (endLsn: Lsn)
      requires Valid() && AttFits(att) && DptFits(dpt) && TakeCheckpoint(w).nextLsn <= NULL_LSN
      modifies this, disk
      ensures Valid() && w == TakeCheckpoint(old(w))
      ensures endLsn == old(nextLsn) + 13 && disk.masterCell == Some(old(nextLsn))
    {
      CheckpointIs(w);
      var beginLsn;
      beginLsn, endLsn := FlushedCheckpoint();
      SetMaster(beginLsn);
    }

    method FlushedCheckpoint() returns (beginLsn: Lsn, endLsn: Lsn)
      requires Valid() && AttFits(att) && DptFits(dpt) && TakeCheckpoint(w).nextLsn <= NULL_LSN
      modifies this, disk
      ensures Ties() && beginLsn == old(nextLsn) && endLsn == old(nextLsn) + 13
      ensures w == FlushTo(Push(Push(old(w), BeginCheckpointLog(beginLsn, NULL_XID, NULL_LSN)),
                                EndCheckpointLog(endLsn, NULL_XID, NULL_LSN, old(w.att), old(w.dpt))), endLsn)
    {
      beginLsn, endLsn := AppendCheckpoint();
      FlushUpTo(endLsn);
    }

    // Only a checkpoint that is complete in the file may be named.
    method SetMaster(lsn: Lsn)
      requires Ties() && w.durable == |w.log| >= 2
      requires w.log[|w.log| - 2].BeginCheckpointLog? && w.log[|w.log| - 2].lsn == lsn && w.log[|w.log| - 1].EndCheckpointLog?
      modifies this`w, disk`masterCell
      ensures Ties() && w == old(w).(master := lsn) && disk.masterCell == Some(lsn)
    {
      disk.masterCell := Some(lsn);
      w := w.(master := lsn);
    }

    method AppendCheckpoint() returns (beginLsn: Lsn, endLsn: Lsn)
      requires Valid() && AttFits(att) && DptFits(dpt) && TakeCheckpoint(w).nextLsn <= NULL_LSN
      modifies this`nextLsn, this`logBuffer, this`w
      ensures LogInv(w) && Ties() && beginLsn == old(nextLsn) && endLsn == old(nextLsn) + 13
      ensures w == Push(Push(old(w), BeginCheckpointLog(beginLsn, NULL_XID, NULL_LSN)),
                        EndCheckpointLog(endLsn, NULL_XID, NULL_LSN, old(w.att), old(w.dpt)))
    {
      CheckpointPushed(w);
      beginLsn := nextLsn;
      Append(BeginCheckpointLog(beginLsn, NULL_XID, NULL_LSN));
      endLsn := nextLsn;
      Append(EndCheckpointLog(endLsn, NULL_XID, NULL_LSN, att, dpt));
    }

    // The log up to the page's LSN goes first; then the page is no longer dirty.
    method FlushPage(oid: Oid, page: nat, pageLsn: Lsn)
      requires Valid()
      modifies this, disk
      ensures Valid() && w == WriteBack(old(w), PageKey(oid, page), pageLsn)
      ensures w.log == old(w.log) && dpt == old(dpt) - {PageKey(oid, page)} && att == old(att) && old(w.durable) <= w.durable
      ensures forall i :: 0 <= i < |w.log| && (pageLsn == NULL_LSN || w.log[i].lsn <= pageLsn) ==> i < w.durable
    {
      FlushToFacts(w, pageLsn);
      DptIsFree(FlushTo(w, pageLsn), FlushTo(w, pageLsn).dpt - {PageKey(oid, page)});
      FlushUpTo(pageLsn);
      SetClean(oid, page);
    }

    method SetClean(oid: Oid, page: nat)
      requires Ties()
      modifies this`dpt, this`w
      ensures Ties() && w == old(w).(dpt := old(w.dpt) - {PageKey(oid, page)})
    {
      dpt := dpt - {PageKey(oid, page)};
      w := w.(dpt := dpt);
    }

    method Flush()
      requires Valid()
      modifies this, disk
      ensures Valid() && w == FlushTo(old(w), NULL_LSN)
    {
      FlushToFacts(w, NULL_LSN);
      FlushUpTo(NULL_LSN);
    }

    // Move the buffered records up to `lsn` to the file, oldest first.
    method WriteUpTo(lsn: Lsn) returns (maxLsn: Lsn, maxLogSize: nat, ghost d: nat)
      requires Ties() && Contiguous(w.log, w.nextLsn)
      modifies this`logBuffer, disk`logFile
      ensures FlushStop(w.log, w.durable, d, lsn)
      ensures logBuffer == w.log[d..] && Stored(w.log, d, disk.logFile)
      ensures d == w.durable ==> maxLsn == NULL_LSN && disk.logFile == old(disk.logFile)
      ensures d > w.durable ==> maxLsn == w.log[d - 1].lsn && maxLogSize == Size(w.log[d - 1])
    {
      maxLogSize := 0;
      maxLsn := NULL_LSN;
      var i := 0;
      d := w.durable;
      while i < |logBuffer|
        invariant w.durable <= d <= |w.log| && logBuffer == w.log[d..] && i <= |logBuffer|
        invariant Stored(w.log, d, disk.logFile) && Drained(w.log, w.durable, d, lsn)
        invariant i > 0 ==> lsn != NULL_LSN && w.log[d].lsn > lsn
        invariant d == w.durable ==> maxLsn == NULL_LSN && disk.logFile == old(disk.logFile)
        invariant d > w.durable ==> maxLsn == w.log[d - 1].lsn && maxLogSize == Size(w.log[d - 1])
        decreases |logBuffer| - i
      {
        var logRecord := logBuffer[i];
        if lsn != NULL_LSN && logRecord.lsn > lsn {
          i := i + 1;
          continue;
        }
        if i > 0 { LsnOrder(w.log, w.nextLsn, d, d + i); }
        assert i == 0 && RecFits(w.log[d]);
        maxLsn, maxLogSize, d := WriteOldest(logRecord, maxLsn, maxLogSize, lsn, d);
      }
      DrainDone(w.log, w.nextLsn, w.durable, d, lsn);
    }

    // The file gets the bytes of the oldest buffered record, the buffer loses it.
    method WriteOldest(r: LogRec, maxLsn: Lsn, maxLogSize: nat, ghost lsn: Lsn, ghost d: nat)
      returns (maxLsn': Lsn, maxLogSize': nat, ghost d': nat)
      requires w.durable <= d < |w.log| && w.log[d] == r && RecFits(r) && Contiguous(w.log, w.nextLsn)
      requires Stored(w.log, d, disk.logFile) && logBuffer == w.log[d..]
      requires d == w.durable ==> maxLsn == NULL_LSN
      requires d > w.durable ==> maxLsn == w.log[d - 1].lsn
      requires Drained(w.log, w.durable, d, lsn) && (lsn == NULL_LSN || r.lsn <= lsn)
      modifies this`logBuffer, disk`logFile
      ensures d' == d + 1 && Stored(w.log, d', disk.logFile) && logBuffer == w.log[d'..] && Drained(w.log, w.durable, d', lsn)
      ensures maxLsn' == w.log[d' - 1].lsn && maxLogSize' == Size(w.log[d' - 1])
    {
      d' := d + 1;
      maxLsn', maxLogSize' := maxLsn, maxLogSize;
      if d > w.durable { LsnOrder(w.log, w.nextLsn, d - 1, d); }
      if maxLsn == NULL_LSN || r.lsn > maxLsn {
        maxLsn', maxLogSize' := r.lsn, Size(r);
      }
      var data := new byte[Size(r)];
      ghost var file := disk.logFile;
      var offset, ao, po := SerializeTo(r, data);
      assert data[..] == data[..offset];
      StoredMore(w.log, w.nextLsn, d, file, ao, po);
      disk.WriteLog(r.lsn, data[..]);
      logBuffer := logBuffer[1..];
    }

    /** Write the buffered records up to `lsn`; NULL_LSN stands for all. */
    method FlushUpTo(lsn: Lsn)
      requires LogInv(w) && Ties()
      modifies this`logBuffer, this`flushedLsn, this`w, disk
      ensures LogInv(w) && Ties() && w == FlushTo(old(w), lsn)
    {
      var maxLsn, maxLogSize, d := WriteUpTo(lsn);
      AboveFlushed(w, d);
      FlushDone(w, d, lsn);
      Advance(maxLsn, maxLogSize, d);
    }

    // Remember how far the file reaches.
    method Advance(maxLsn: Lsn, maxLogSize: nat, ghost d: nat)
      requires w.durable <= d <= |w.log| && Contiguous(w.log, w.nextLsn) && AllFit(w.log)
      requires nextLsn == w.nextLsn && flushedLsn == w.flushed && att == w.att && dpt == w.dpt
      requires w.master == disk.MasterLsn()
      requires logBuffer == w.log[d..] && Stored(w.log, d, disk.logFile)
      requires CellOk(w.log, w.durable, w.nextLsn, disk.nextLsnCell)
      requires d == w.durable ==> maxLsn == NULL_LSN
      requires d > w.durable ==> maxLsn == w.log[d - 1].lsn && maxLogSize == Size(w.log[d - 1])
      requires d > w.durable ==> maxLsn < NULL_LSN && (flushedLsn == NULL_LSN || maxLsn > flushedLsn)
      requires d == w.durable && flushedLsn == NULL_LSN ==> Zeroed(disk.logFile)
      modifies this`flushedLsn, this`w, disk`nextLsnCell
      ensures Ties() && w == Flushed(old(w), d)
    {
      if maxLsn != NULL_LSN && (flushedLsn == NULL_LSN || maxLsn > flushedLsn) {
        CellBehind(w.log, w.durable, d, w.nextLsn, disk.nextLsnCell);
        flushedLsn := maxLsn;
        RaiseCell(flushedLsn + maxLogSize);
      }
      w := Flushed(w, d);
    }

    method RaiseCell(end: Lsn)
      modifies disk`nextLsnCell
      ensures disk.nextLsnCell ==
        if end > (if old(disk.nextLsnCell).Some? then old(disk.nextLsnCell).value else FIRST_LSN) then Some(end) else old(disk.nextLsnCell)
    {
      var next := if disk.nextLsnCell.Some? then disk.nextLsnCell.value else FIRST_LSN;
      if end > next {
        disk.nextLsnCell := Some(end);
      }
    }

    // ---- rollback -----------------------------------------------------------

    // The buffered record with the given LSN.
    method FindInBuffer(lsn: Lsn, ghost i: nat) returns (r: LogRec)
      requires Ties() && Contiguous(w.log, w.nextLsn) && w.durable <= i < |w.log| && w.log[i].lsn == lsn
      ensures r == w.log[i]
    {
      LsnOrders(w.log, w.nextLsn);
      var j := 0;
      while logBuffer[j].lsn != lsn
        invariant 0 <= j <= i - w.durable
      {
        j := j + 1;
      }
      r := logBuffer[j];
    }

    // The record the file holds at the given LSN.
    method ReadFromDisk(lsn: Lsn, ghost i: nat) returns (r: LogRec)
      requires Ties() && i < w.durable && w.log[i].lsn == lsn
      ensures r == w.log[i]
    {
      var data := disk.ReadLog(lsn);
      ReadHeld(disk.logFile, w.log[i]);
      var record := DeserializeFrom(lsn, data);
      r := record.value;
    }

    /** Undo a transaction: follow its chain from its newest record, in the
        buffer or on disk, back to its begin record. */
    method Rollback(xid: Xid, store: PageStore) returns (ghost visited: seq<LogRec>)
      requires LogInv(w) && Ties() && xid in att && att[xid] == LastLsn(w.log, |w.log|, xid)
      requires flushedLsn != NULL_LSN && forall r :: r in Chain(w.log, |w.log|, xid) ==> !r.NewPageLog?
      modifies store
      ensures visited == Chain(w.log, |w.log|, xid)
      ensures store.pages == UndoChain(w.log, |w.log|, xid, old(store.pages))
    {
      var lsnNow := att[xid];
      ghost var n: nat, begun := |w.log|, false;
      visited := [];
      while lsnNow != NULL_LSN
        invariant n <= |w.log| && lsnNow == if begun then NULL_LSN else LastLsn(w.log, n, xid)
        invariant (if begun then store.pages else UndoChain(w.log, n, xid, store.pages)) == UndoChain(w.log, |w.log|, xid, old(store.pages))
        invariant visited + (if begun then [] else Chain(w.log, n, xid)) == Chain(w.log, |w.log|, xid)
        invariant !begun ==> forall q :: q in Chain(w.log, n, xid) ==> !q.NewPageLog?
        decreases n
      {
        lsnNow, n, begun, visited := UndoTurn(xid, store, lsnNow, n, visited);
      }
      LsnsNotNull(w.log, w.nextLsn);
      if !begun { ChainEnd(w.log, n, xid, store.pages); }
    }

    method UndoTurn(xid: Xid, store: PageStore, lsn: Lsn, ghost n: nat, ghost visited0: seq<LogRec>)
      returns (prev: Lsn, ghost i: nat, ghost begun: bool, ghost visited: seq<LogRec>)
      requires LogInv(w) && Ties() && flushedLsn != NULL_LSN && n <= |w.log| && lsn == LastLsn(w.log, n, xid) != NULL_LSN
      requires forall q :: q in Chain(w.log, n, xid) ==> !q.NewPageLog?
      modifies store
      ensures i < n && prev == if begun then NULL_LSN else LastLsn(w.log, i, xid)
      ensures (if begun then store.pages else UndoChain(w.log, i, xid, store.pages)) == UndoChain(w.log, n, xid, old(store.pages))
      ensures visited + (if begun then [] else Chain(w.log, i, xid)) == visited0 + Chain(w.log, n, xid)
      ensures !begun ==> forall q :: q in Chain(w.log, i, xid) ==> !q.NewPageLog?
    {
      var record;
      record, i := UndoNewest(xid, store, lsn, n);
      prev := record.prev;
      begun := record.BeginLog?;
      visited := visited0 + [record];
    }

    // One turn: the newest record among the first `n` is fetched and undone.
    method UndoNewest(xid: Xid, store: PageStore, lsn: Lsn, ghost n: nat) returns (r: LogRec, ghost i: nat)
      requires LogInv(w) && Ties() && flushedLsn != NULL_LSN && n <= |w.log| && lsn == LastLsn(w.log, n, xid) != NULL_LSN
      requires forall q :: q in Chain(w.log, n, xid) ==> !q.NewPageLog?
      modifies store
      ensures i < n && r == w.log[i] && r.prev == PrevFor(w.log, i, r) && r.xid == xid && !IsCheckpoint(r)
      ensures UndoChain(w.log, n, xid, old(store.pages)) == if r.BeginLog? then store.pages else UndoChain(w.log, i, xid, store.pages)
      ensures Chain(w.log, n, xid) == [r] + if r.BeginLog? then [] else Chain(w.log, i, xid)
    {
      i := ChainStep(w.log, n, xid, store.pages);
      r := Fetch(lsn, i);
      store.Undo(r);
    }

    method Fetch(lsn: Lsn, ghost i: nat) returns (r: LogRec)
      requires LogInv(w) && Ties() && flushedLsn != NULL_LSN && i < |w.log| && w.log[i].lsn == lsn
      ensures r == w.log[i] && NextLsn(logBuffer, flushedLsn, disk.logFile, lsn) == Some(r.prev)
    {
      TurnIs(w, disk.logFile, i);
      if lsn > flushedLsn {
        r := FindInBuffer(lsn, i);
      } else {
        r := ReadFromDisk(lsn, i);
      }
    }

    /** The loop of Rollback ends if and only if something has been flushed. */
    lemma RollbackEndsIff(xid: Xid)
      requires Valid() && xid in att
      ensures WalkEnds(logBuffer, flushedLsn, disk.logFile, att[xid]) <==> flushedLsn != NULL_LSN
    {
      AttIsLast(w.log, |w.log|, xid);
      AttBelow(w.log, |w.log|, w.nextLsn, xid);
      if flushedLsn != NULL_LSN {
        var k := WalkReaches(w, disk.logFile, |w.log|, xid);
      } else {
        forall k ensures WalkBack(logBuffer, flushedLsn, disk.logFile, att[xid], k) != Some(NULL_LSN) {
          ZerosLeadToZero(logBuffer, disk.logFile, att[xid], k);
        }
      }
    }

    // ---- recovery -----------------------------------------------------------

    // The record at the head of what the file holds from `lsn` on.
    method ReadLog(lsn: Lsn, ghost r0: LogRec) returns (r: LogRec)
      requires Holds(disk.logFile, r0) && r0.lsn == lsn
      ensures r == r0
    {
      var data := disk.ReadLog(lsn);
      ReadHeld(disk.logFile, r0);
      var record := DeserializeFrom(lsn, data);
      r := record.value;
    }

    /** Rebuild both tables and the next transaction id from the last
        checkpoint and the records after it. */
    method Analyze(transactionManager: TransactionManager, ghost log: seq<LogRec>, ghost c: nat)
      requires Restartable(log, c, disk) && logBuffer == []
      modifies this, transactionManager
      ensures Ties() && LogInv(w) && w == Analyzed(log, c)
      ensures transactionManager.State() ==
        old(transactionManager.State()).(nextXid := NextXidAfter(AnalysisOf(log, c), old(transactionManager.nextXid)))
      ensures NextIdOk(log, c, old(transactionManager.nextXid), transactionManager.nextXid)
      ensures EntriesOk(log, c + 2, |log|, log[c + 1].dpt, dpt)
    {
      AnalyzedMeaning(log, c, transactionManager.nextXid);
      Rebuild(transactionManager, log, c);
    }

    method Rebuild(transactionManager: TransactionManager, ghost log: seq<LogRec>, ghost c: nat)
      requires Restartable(log, c, disk) && logBuffer == []
      modifies this, transactionManager
      ensures Ties() && LogInv(w) && w == Analyzed(log, c)
      ensures transactionManager.State() ==
        old(transactionManager.State()).(nextXid := NextXidAfter(AnalysisOf(log, c), old(transactionManager.nextXid)))
    {
      var xidMax := LoadTables(log, c);
      transactionManager.SetNextXid((xidMax + 1) % U32);
      w := Analyzed(log, c);
      AnalyzedOk(log, c);
    }

    method LoadTables(ghost log: seq<LogRec>, ghost c: nat) returns (xidMax: Xid)
      requires Restartable(log, c, disk)
      modifies this`nextLsn, this`flushedLsn, this`att, this`dpt
      ensures nextLsn == EndOf(log[|log| - 1]) && flushedLsn == nextLsn - 1
      ensures Analysis(att, dpt, xidMax) == AnalysisOf(log, c)
    {
      nextLsn := disk.nextLsnCell.value;
      flushedLsn := nextLsn - 1;
      var beginRecord, endRecord, checkpointLsn, lsnNow;
      beginRecord, checkpointLsn := ReadNext(disk.MasterLsn(), log, c);
      endRecord, lsnNow := ReadNext(checkpointLsn, log, c + 1);
      att, dpt, xidMax := AnalyzeRecords(endRecord.att, endRecord.dpt, lsnNow, log, c);
    }

    // The record at position `i` of a log that is all on disk.
    method ReadNext(lsn: Lsn, ghost log: seq<LogRec>, ghost i: nat) returns (r: LogRec, next: Lsn)
      requires Stored(log, |log|, disk.logFile) && Contiguous(log, nextLsn) && i < |log| && lsn == log[i].lsn
      ensures r == log[i] && next == LsnAt(log, i + 1, nextLsn)
      ensures next >= nextLsn <==> i + 1 == |log|
    {
      assert Holds(disk.logFile, log[i]);
      r := ReadLog(lsn, log[i]);
      NextAt(log, i, nextLsn);
      AtEnd(log, i + 1, nextLsn);
      next := lsn + Size(r);
    }

    // The records after the checkpoint, one by one.
    method AnalyzeRecords(checkpointAtt: map<Xid, Lsn>, checkpointDpt: map<PageKey, Lsn>, lsn: Lsn, ghost log: seq<LogRec>, ghost c: nat)
      returns (att: map<Xid, Lsn>, dpt: map<PageKey, Lsn>, xidMax: Xid)
      requires Stored(log, |log|, disk.logFile) && Contiguous(log, nextLsn)
      requires c + 2 <= |log| && lsn == LsnAt(log, c + 2, nextLsn)
      ensures Analysis(att, dpt, xidMax) == AnalyzeTo(log, c + 2, |log|, Analysis(checkpointAtt, checkpointDpt, 0))
    {
      att, dpt, xidMax := checkpointAtt, checkpointDpt, 0;
      ghost var a := Analysis(checkpointAtt, checkpointDpt, 0);
      ghost var t := a;
      var lsnNow: Lsn := lsn;
      ghost var i: nat := c + 2;
      AtEnd(log, i, nextLsn);
      while lsnNow < nextLsn
        invariant c + 2 <= i <= |log| && (i < |log| ==> lsnNow == log[i].lsn)
        invariant lsnNow >= nextLsn <==> i == |log|
        invariant t == AnalyzeTo(log, c + 2, i, a)
        invariant att == t.att && dpt == t.dpt && xidMax == t.xidMax
        decreases |log| - i
      {
        att, dpt, xidMax, lsnNow, t, i := AnalyzeTurn(lsnNow, att, dpt, xidMax, log, c, i, a, t);
      }
    }

    method AnalyzeTurn(lsn: Lsn, att0: map<Xid, Lsn>, dpt0: map<PageKey, Lsn>, xidMax0: Xid,
                       ghost log: seq<LogRec>, ghost c: nat, ghost i: nat, ghost a: Analysis, ghost t0: Analysis)
      returns (att: map<Xid, Lsn>, dpt: map<PageKey, Lsn>, xidMax: Xid, next: Lsn, ghost t: Analysis, ghost j: nat)
      requires Stored(log, |log|, disk.logFile) && Contiguous(log, nextLsn) && c + 2 <= i < |log| && lsn == log[i].lsn
      requires att0 == t0.att && dpt0 == t0.dpt && xidMax0 == t0.xidMax && t0 == AnalyzeTo(log, c + 2, i, a)
      ensures j == i + 1 && t == AnalyzeTo(log, c + 2, j, a)
      ensures att == t.att && dpt == t.dpt && xidMax == t.xidMax
      ensures (j < |log| ==> next == log[j].lsn) && (next >= nextLsn <==> j == |log|)
    {
      j := i + 1;
      att, dpt, xidMax, next, t := AnalyzeNext(lsn, att0, dpt0, xidMax0, log, i, t0);
      AnalyzeStep(log, c + 2, i, j, a, t0, t);
    }

    // Read the record at `lsn` and take note of it.
    method AnalyzeNext(lsn: Lsn, att0: map<Xid, Lsn>, dpt0: map<PageKey, Lsn>, xidMax0: Xid,
                       ghost log: seq<LogRec>, ghost i: nat, ghost t0: Analysis)
      returns (att: map<Xid, Lsn>, dpt: map<PageKey, Lsn>, xidMax: Xid, next: Lsn, ghost t: Analysis)
      requires Stored(log, |log|, disk.logFile) && Contiguous(log, nextLsn) && i < |log| && lsn == log[i].lsn
      requires att0 == t0.att && dpt0 == t0.dpt && xidMax0 == t0.xidMax
      ensures t == AnalyzeRec(t0, log[i])
      ensures att == t.att && dpt == t.dpt && xidMax == t.xidMax
      ensures (i + 1 < |log| ==> next == log[i + 1].lsn) && (next >= nextLsn <==> i + 1 == |log|)
    {
      var record;
      record, next := ReadNext(lsn, log, i);
      att, dpt, xidMax := AnalyzeOne(record, att0, dpt0, xidMax0);
      t := AnalyzeRec(t0, log[i]);
    }

    method AnalyzeOne(r: LogRec, att0: map<Xid, Lsn>, dpt0: map<PageKey, Lsn>, xidMax0: Xid)
      returns (att: map<Xid, Lsn>, dpt: map<PageKey, Lsn>, xidMax: Xid)
      ensures Analysis(att, dpt, xidMax) == AnalyzeRec(Analysis(att0, dpt0, xidMax0), r)
    {
      att, dpt, xidMax := att0, dpt0, xidMax0;
      if r.CommitLog? || r.RollbackLog? {
        if r.xid in att {
          att := att - {r.xid};
        }
      } else {
        att := att[r.xid := r.lsn];
      }
      if r.InsertLog? || r.DeleteLog? || r.NewPageLog? {
        if PageKey(r.oid, r.page) !in dpt {
          dpt := dpt[PageKey(r.oid, r.page) := r.lsn];
        }
      }
      if r.xid > xidMax {
        xidMax := r.xid;
      }
    }

    // The least dirty-page entry, or the next LSN when all are above it.
    method LeastEntry() returns (minLsn: Lsn)
      ensures minLsn == nextLsn || exists k :: k in dpt && dpt[k] == minLsn
      ensures minLsn <= nextLsn && forall k :: k in dpt ==> minLsn <= dpt[k]
    {
      minLsn := nextLsn;
      var keys := dpt.Keys;
      while keys != {}
        invariant keys <= dpt.Keys
        invariant minLsn == nextLsn || exists k :: k in dpt && dpt[k] == minLsn
        invariant minLsn <= nextLsn && forall k :: k in dpt && k !in keys ==> minLsn <= dpt[k]
        decreases |keys|
      {
        var k :| k in keys;
        if dpt[k] < minLsn {
          minLsn := dpt[k];
        }
        keys := keys - {k};
      }
    }
  }

  /** The failing input: a new database, one begin record, nothing flushed. */
  method FirstRollbackNeverEnds(xid: Xid) returns (lm: LogManager)
    requires xid < U32
    ensures lm.Valid() && xid in lm.att && lm.flushedLsn == NULL_LSN
    ensures !WalkEnds(lm.logBuffer, lm.flushedLsn, lm.disk.logFile, lm.att[xid])
  {
    var disk := new Disk();
    lm := new LogManager(disk, 0, []);
    var lsn := lm.AppendBeginLog(xid);
    lm.RollbackEndsIff(xid);
  }
}
