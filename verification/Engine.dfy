/** The storage engine as one deterministic step function over client and
    background operations: transaction tables, locks, visibility, pages and
    log together. */
module Engine {
  import opened Types
  import opened Locks
  import opened Visibility
  import opened Transactions
  import opened Pages
  import opened Wal
  import opened Replay

  /** `cur` is what the buffer pool returns for each page, `disk` the disk
      image, `dirty` the pages changed since they were last written.  `cmd`
      holds the command id of each transaction's running statement.  The last
      three fields are history: at which log length a page was last written,
      which logical row a version belongs to, and the versions of each logical
      row, oldest first. */
  datatype Engine = Engine(
    tm: Tm, locks: LockMap, cmd: map<Xid, Cid>,
    wal: Wal, cur: PageMap, disk: PageMap, dirty: set<PageKey>,
    writtenAt: map<PageKey, nat>, rowOf: map<Loc, Loc>, chains: map<Loc, seq<Loc>>)

  datatype Op =
    | Begin
    | Command(x: Xid)
    | LockTableStmt(x: Xid, mode: LockType, oid: Oid)
    | LockRowStmt(x: Xid, mode: LockType, l: Loc)
    | InsertRow(x: Xid, key: PageKey, payload: seq<byte>)
    | DeleteRow(x: Xid, iso: Isolation, l: Loc)
    | UpdateRow(x: Xid, iso: Isolation, l: Loc, key: PageKey, payload: seq<byte>)
    | Commit(x: Xid)
    | Rollback(x: Xid)
    | Evict(key: PageKey)
    | FlushLog
    | TakeCheckpoint

  // A transaction that is executing a statement.
  predicate Running(s: Engine, x: Xid) {
    x in s.tm.cids && x in s.tm.snaps && x in s.cmd && x in s.wal.att
  }

  // The active set a scan of `x` consults.
  function ScanActive(s: Engine, x: Xid, iso: Isolation): set<Xid>
    requires x in s.tm.snaps
  {
    if iso == REPEATABLE_READ then s.tm.snaps[x] else Active(s.tm)
  }

  predicate SeesRow(s: Engine, x: Xid, iso: Isolation, l: Loc)
    requires Running(s, x) && HasLoc(s.cur, l)
  {
    Visible(At(s.cur, l), x, s.cmd[x], iso, ScanActive(s, x, iso))
  }

  // ---- the primitive changes ----------------------------------------------

  function WithLocks(s: Engine, m: LockMap): Engine { s.(locks := m) }

  // Table::DeleteRecord: mark, log, stamp the page.
  function DoDelete(s: Engine, x: Xid, l: Loc): Engine
    requires x in s.wal.att && HasLoc(s.cur, l)
  {
    s.(cur := SetPageLsn(SetAt(s.cur, l, MarkDeleted(At(s.cur, l), x)), KeyOf(l), s.wal.nextLsn),
       wal := AppendDelete(s.wal, x, l),
       dirty := s.dirty + {KeyOf(l)})
  }

  function NewVersion(s: Engine, x: Xid, payload: seq<byte>): Version
    requires x in s.cmd
  {
    Version(false, x, NULL_XID, s.cmd[x], payload)
  }

  predicate Fits(s: Engine, k: PageKey, payload: seq<byte>) {
    k in s.cur && RECORD_HEADER_SIZE + |payload| <= FreeSpace(s.cur[k])
  }

  // Table::InsertRecord into an existing page; `row` is the logical row the
  // new version belongs to.
  function DoInsert(s: Engine, x: Xid, k: PageKey, payload: seq<byte>, row: Loc): Engine
    requires x in s.wal.att && x in s.cmd && Fits(s, k, payload)
  {
    var v := NewVersion(s, x, payload);
    var l := NextLoc(s.cur, k);
    s.(cur := SetPageLsn(Append(s.cur, k, v), k, s.wal.nextLsn),
       wal := AppendInsert(s.wal, x, l, OffsetFor(s.cur[k], RecordSize(v)), v),
       dirty := s.dirty + {k},
       rowOf := s.rowOf[l := row],
       chains := s.chains[row := (if row in s.chains then s.chains[row] else []) + [l]])
  }

  // ---- row operations -----------------------------------------------------

  /** Scan to `l`, then lock it for writing; true when the executor goes on to
      change the row. */
  function ScanAndLock(s: Engine, x: Xid, iso: Isolation, l: Loc): (Engine, bool)
    requires Running(s, x) && HasLoc(s.cur, l)
  {
    var s1 := WithLocks(s, AfterLockTable(s.locks, x, IS, l.oid));
    if !LockTableOk(s.locks, x, IS, l.oid) then (s1, false)
    else if !SeesRow(s, x, iso, l) then (s1, false)
    else (WithLocks(s1, AfterLockRow(s1.locks, x, X, l.oid, l.rid)), LockRowOk(s1.locks, x, X, l.oid, l.rid))
  }

  function LockNew(s: Engine, x: Xid, l: Loc): Engine {
    WithLocks(s, AfterLockRow(s.locks, x, X, l.oid, l.rid))
  }

  function StepInsert(s: Engine, x: Xid, k: PageKey, payload: seq<byte>): Engine {
    if !Running(s, x) || !Fits(s, k, payload) then s
    else
      var s1 := WithLocks(s, AfterLockTable(s.locks, x, IX, k.oid));
      if !LockTableOk(s.locks, x, IX, k.oid) then s1
      else LockNew(DoInsert(s1, x, k, payload, NextLoc(s.cur, k)), x, NextLoc(s.cur, k))
  }

  function StepDelete(s: Engine, x: Xid, iso: Isolation, l: Loc): Engine {
    if !Running(s, x) || !HasLoc(s.cur, l) then s
    else
      var (s1, go) := ScanAndLock(s, x, iso, l);
      if go then DoDelete(s1, x, l) else s1
  }

  function StepUpdate(s: Engine, x: Xid, iso: Isolation, l: Loc, k: PageKey, payload: seq<byte>): Engine {
    if !Running(s, x) || !HasLoc(s.cur, l) || k.oid != l.oid || !Fits(s, k, payload) || l !in s.rowOf then s
    else
      var (s1, go) := ScanAndLock(s, x, iso, l);
      if !go then s1
      else
        var s2 := DoDelete(s1, x, l);
        UsedSame(s.cur, l, x, k, s.wal.nextLsn);
        LockNew(DoInsert(s2, x, k, payload, s.rowOf[l]), x, NextLoc(s2.cur, k))
  }

  // Marking a record deleted takes no space.
  lemma UsedSame(ps: PageMap, l: Loc, x: Xid, k: PageKey, lsn: Lsn)
    requires HasLoc(ps, l) && k in ps
    ensures var ps' := SetPageLsn(SetAt(ps, l, MarkDeleted(At(ps, l), x)), KeyOf(l), lsn);
      k in ps' && FreeSpace(ps'[k]) == FreeSpace(ps[k])
  {
    var recs := ps[KeyOf(l)].recs;
    UsedBytesSame(recs, recs[l.rid.slot := MarkDeleted(At(ps, l), x)]);
  }

  // ---- ends of transactions -----------------------------------------------

  function EndTx(s: Engine, x: Xid): Engine {
    s.(tm := EndTm(s.tm, x), locks := AfterRelease(s.locks, x), cmd := s.cmd - {x})
  }

  function StepCommit(s: Engine, x: Xid): Engine {
    if x !in s.tm.cids || x !in s.tm.snaps || x !in s.wal.att then s
    else EndTx(s.(wal := AppendEnd(s.wal, x, true)), x)
  }

  // A chain without the versions `x` put at its end.
  function Strip(ps: PageMap, chain: seq<Loc>, x: Xid): seq<Loc> {
    if chain == [] || !HasLoc(ps, chain[|chain| - 1]) || At(ps, chain[|chain| - 1]).xmin != x then chain
    else Strip(ps, chain[..|chain| - 1], x)
  }

  // The pages with a record of `x` in the log; undo leaves each of them dirty.
  function TouchedBy(log: seq<LogRec>, n: nat, x: Xid): set<PageKey>
    requires n <= |log|
  {
    if n == 0 then {}
    else TouchedBy(log, n - 1, x) + (if IsRowRec(log[n - 1]) && log[n - 1].xid == x then {KeyOfRec(log[n - 1])} else {})
  }

  function StepRollback(s: Engine, x: Xid): Engine {
    if x !in s.tm.cids || x !in s.tm.snaps || x !in s.wal.att then s
    else
      EndTx(s.(cur := UndoTx(s.wal.log, |s.wal.log|, x, s.cur),
               dirty := s.dirty + TouchedBy(s.wal.log, |s.wal.log|, x),
               wal := AppendEnd(s.wal, x, false),
               chains := map r | r in s.chains :: Strip(s.cur, s.chains[r], x)), x)
  }

  // ---- background operations ----------------------------------------------

  /** Writing a page back: the log up to the page's LSN first, then the page. */
  function StepEvict(s: Engine, k: PageKey): Engine {
    if k !in s.dirty || k !in s.cur then s
    else s.(wal := FlushPage(s.wal, k, s.cur[k].lsn),
            disk := s.disk[k := s.cur[k]],
            dirty := s.dirty - {k},
            writtenAt := s.writtenAt[k := |s.wal.log|])
  }

  function Step(s: Engine, op: Op): Engine {
    match op
    case Begin =>
      if s.tm.nextXid in s.wal.att then s
      else s.(tm := BeginTm(s.tm), wal := AppendBegin(s.wal, s.tm.nextXid))
    case Command(x) =>
      if x !in s.tm.cids then s
      else s.(cmd := s.cmd[x := s.tm.cids[x]], tm := NextCommand(s.tm, x))
    case LockTableStmt(x, m, oid) =>
      if !Running(s, x) || !TableRequest(m) then s else WithLocks(s, AfterLockTable(s.locks, x, m, oid))
    case LockRowStmt(x, m, l) =>
      if !Running(s, x) || !RowRequest(m) || !HasLoc(s.cur, l) then s
      else WithLocks(s, AfterLockRow(s.locks, x, m, l.oid, l.rid))
    case InsertRow(x, k, payload) => StepInsert(s, x, k, payload)
    case DeleteRow(x, iso, l) => StepDelete(s, x, iso, l)
    case UpdateRow(x, iso, l, k, payload) => StepUpdate(s, x, iso, l, k, payload)
    case Commit(x) => StepCommit(s, x)
    case Rollback(x) => StepRollback(s, x)
    case Evict(k) => StepEvict(s, k)
    case FlushLog => s.(wal := FlushTo(s.wal, NULL_LSN))
    case TakeCheckpoint => s.(wal := Checkpoint(s.wal))
  }

  function Run(s: Engine, ops: seq<Op>): Engine
    decreases |ops|
  {
    if ops == [] then s else Run(Step(s, ops[0]), ops[1..])
  }

  /** Ids and LSNs stay below their null values. */
  predicate Bounded(s: Engine) {
    s.tm.nextXid <= NULL_XID && s.wal.nextLsn <= NULL_LSN
  }

  // ---- initial states -----------------------------------------------------

  // Versions left by transactions that ended before the run.
  predicate Settled(v: Version, nextXid: Xid) {
    v.xmin < nextXid && (v.xmax == NULL_XID || v.xmax < nextXid)
  }

  /** A restart after a clean shutdown: an empty checkpoint is the end of the
      log, disk and buffer pool agree, nobody is active. */
  ghost predicate Init(s: Engine) {
    && s.tm == Tm(s.tm.nextXid, map[], map[]) && s.tm.nextXid <= NULL_XID
    && s.locks == map[] && s.cmd == map[]
    && (exists b: Lsn :: CleanWal(s.wal, b))
    && s.disk == s.cur && s.dirty == {}
    && (forall k :: k in s.cur ==> s.cur[k].lsn < s.wal.master)
    && (forall l :: HasLoc(s.cur, l) ==> Settled(At(s.cur, l), s.tm.nextXid))
    && (forall l :: HasLoc(s.cur, l) <==> l in s.rowOf)
    && (forall l :: l in s.rowOf ==> s.rowOf[l] == l)
    && s.chains.Keys == s.rowOf.Keys && (forall l :: l in s.chains ==> s.chains[l] == [l])
    && s.writtenAt == map k | k in s.cur :: 2
  }

  ghost predicate CleanWal(w: Wal, b: Lsn) {
    && w.log == [BeginCheckpointLog(b, NULL_XID, NULL_LSN), EndCheckpointLog(b + 13, NULL_XID, NULL_LSN, map[], map[])]
    && w.durable == 2 && w.att == map[] && w.dpt == map[] && w.master == b
    && w.nextLsn == b + 42 && w.nextLsn <= NULL_LSN
    && b + 13 <= w.flushed < w.nextLsn
  }
}
