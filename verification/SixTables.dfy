/** One table more than the cache has frames, and one page read again: a run
    behind five frames after which redo through five frames loses a committed
    row. */
module SixTables {
  import opened Types
  import opened Locks
  import opened Visibility
  import opened Transactions
  import opened Pages
  import opened Wal
  import opened Replay
  import TableChain
  import opened Engine
  import opened EngineInv
  import opened EngineRows
  import opened EngineEnds
  import opened EngineDisk
  import opened Recovery
  import opened EngineHistory
  import opened CrashRecovery
  import opened Caches
  import opened CachedRedo
  import opened RedoWindow
  import opened CachedRecovery
  import opened RedoLoss
  import opened PoolTraces
  import opened PooledRuns
  import opened PooledRestarts

  // ---- the run ------------------------------------------------------------

  // The only page of the table `j` of six.
  function T(oid: Oid, j: nat): PageKey { PageKey(oid + j, 0) }

  function Size(payload: seq<byte>): nat { RECORD_HEADER_SIZE + |payload| }

  // A table of one page, with rows in it and room for two more.
  ghost predicate OnePage(s: Engine, oid: Oid, j: nat, payload: seq<byte>) {
    && T(oid, j) in s.cur && TableChain.ChainOk(s.cur, oid + j, 1)
    && 2 * Size(payload) + SLOT_SIZE <= FreeSpace(s.cur[T(oid, j)])
  }

  // A clean start with six such tables.
  ghost predicate SixStart(s: Engine, oid: Oid, payload: seq<byte>) {
    && Init(s) && 1 <= s.tm.nextXid && s.tm.nextXid + 1 < NULL_XID && s.wal.nextLsn + 2000 <= NULL_LSN
    && |payload| <= 90 && forall j :: 0 <= j < 6 ==> OnePage(s, oid, j, payload)
  }

  // INSERT of one row, as a statement of its own.
  function Insert(x: Xid, k: PageKey, payload: seq<byte>): seq<PoolOp> {
    [Do(Command(x)), Do(InsertRow(x, k, payload))]
  }

  // One row into each of the first `j` tables.
  function FillOps(x: Xid, oid: Oid, j: nat, payload: seq<byte>): seq<PoolOp> {
    if j == 0 then [Do(Begin)] else FillOps(x, oid, j - 1, payload) + Insert(x, T(oid, j - 1), payload)
  }

  /** One transaction inserts into five tables, reads the first one, inserts into
      the sixth, then into the first one again, and commits. */
  function SevenInserts(x: Xid, oid: Oid, payload: seq<byte>): seq<PoolOp> {
    FillOps(x, oid, 5, payload) + [Do(Command(x)), ReadPage(T(oid, 0))] + Insert(x, T(oid, 5), payload)
    + Insert(x, T(oid, 0), payload) + [Do(Commit(x))]
  }

  /** Every insert goes where Table::InsertRecord puts it: into the first page of
      its table with room. */
  ghost predicate FirstFits(p: Pooled, ops: seq<PoolOp>)
    decreases |ops|
  {
    ops == [] || (InsertFits(p, ops[0]) && FirstFits(PoolStep(p, ops[0]), ops[1..]))
  }

  ghost predicate InsertFits(p: Pooled, op: PoolOp) {
    op.Do? && op.op.InsertRow? ==>
      exists n :: n > op.op.key.page && TableChain.ChainOk(p.s.cur, op.op.key.oid, n)
        && op.op.key.page == TableChain.FirstFit(p.s.cur, op.op.key.oid, n, Size(op.op.payload), 0)
  }

  lemma {:induction false} PoolSplit(p: Pooled, a: seq<PoolOp>, b: seq<PoolOp>)
    ensures PoolRun(p, a + b) == PoolRun(PoolRun(p, a), b)
    ensures FirstFits(p, a) && FirstFits(PoolRun(p, a), b) ==> FirstFits(p, a + b)
    decreases |a|
  {
    if a == [] {
      assert a + b == b;
    } else {
      assert (a + b)[1..] == a[1..] + b;
      PoolSplit(PoolStep(p, a[0]), a[1..], b);
    }
  }

  lemma PoolTwo(p: Pooled, a: PoolOp, b: PoolOp)
    ensures PoolRun(p, [a, b]) == PoolStep(PoolStep(p, a), b)
    ensures InsertFits(p, a) && InsertFits(PoolStep(p, a), b) ==> FirstFits(p, [a, b])
  {
    assert [a, b][1..] == [b] && [b][1..] == [];
    assert PoolRun(PoolStep(p, a), [b]) == PoolRun(PoolStep(PoolStep(p, a), b), []);
  }

  // ---- one insert ---------------------------------------------------------

  // The transaction is alone and goes on.
  predicate Lonely(s: Engine, x: Xid) {
    && Bounded(s) && x in s.tm.cids && x in s.tm.snaps && x in s.wal.att
    && s.locks.Keys <= {x} && s.tm.nextXid == x + 1
  }

  ghost predicate Alone(p: Pooled, x: Xid) { PoolInv(p) && Lonely(p.s, x) }

  // Only the statement counter has moved.
  ghost predicate SameBut(p: Pooled, q: Pooled) {
    && q.cache == p.cache && q.rereads == p.rereads
    && q.s.wal == p.s.wal && q.s.cur == p.s.cur && q.s.disk == p.s.disk && q.s.dirty == p.s.dirty
  }

  lemma CommandAlone(p: Pooled, x: Xid)
    requires Alone(p, x)
    ensures var q := PoolStep(p, Do(Command(x)));
      Alone(q, x) && Running(q.s, x) && SameBut(p, q)
  {
    PoolDoQuiet(p, Command(x));
    PoolStepInv(p, Do(Command(x)));
  }

  // `t` is `s` with one more row in page `k`.
  ghost predicate RowAdded(s: Engine, t: Engine, x: Xid, k: PageKey, payload: seq<byte>) {
    && Running(t, x) && t.locks.Keys <= {x}
    && t.tm == s.tm && t.wal.nextLsn == s.wal.nextLsn + 40 + |payload| && t.disk == s.disk && t.dirty == s.dirty + {k}
    && |t.wal.log| == |s.wal.log| + 1 && t.wal.log[..|s.wal.log|] == s.wal.log && k in s.cur
    && Inserts(t.wal.log[|s.wal.log|], NextLoc(s.cur, k)) && t.wal.log[|s.wal.log|].xid == x
    && t.cur.Keys == s.cur.Keys && (forall j :: j in s.cur && j != k ==> t.cur[j] == s.cur[j])
    && |t.cur[k].recs| == |s.cur[k].recs| + 1 && t.cur[k].recs[..|s.cur[k].recs|] == s.cur[k].recs
    && RecordSize(t.cur[k].recs[|s.cur[k].recs|]) == Size(payload) && t.cur[k].next == s.cur[k].next
  }

  lemma InsertAdds(s: Engine, x: Xid, k: PageKey, payload: seq<byte>)
    requires Running(s, x) && s.locks.Keys <= {x} && Fits(s, k, payload)
    ensures RowAdded(s, DoInsert(s, x, k, payload, NextLoc(s.cur, k)), x, k, payload)
  {
    var r := InsertRec(s, x, k, payload);
    assert DoInsert(s, x, k, payload, NextLoc(s.cur, k)).wal.log == s.wal.log + [r];
  }

  // A transaction that is alone gets its locks.
  lemma AloneInserts(s: Engine, x: Xid, k: PageKey, payload: seq<byte>)
    requires Running(s, x) && s.locks.Keys <= {x} && Fits(s, k, payload)
    ensures RowAdded(s, StepInsert(s, x, k, payload), x, k, payload)
  {
    assert LockTableOk(s.locks, x, IX, k.oid);
    InsertAdds(WithLocks(s, AfterLockTable(s.locks, x, IX, k.oid)), x, k, payload);
  }

  // The page asked for, and the one written for it.
  ghost predicate AskedFor(p: Pooled, q: Pooled, k: PageKey) {
    && q.s.wal.log == p.s.wal.log && q.s.wal.nextLsn == p.s.wal.nextLsn && q.s.cur == p.s.cur && q.s.tm == p.s.tm
    && q.s.locks == p.s.locks && q.cache.keys == Front(p.cache.keys, k)
    && (if WrittenBack(p.cache, k) != {} then
          p.cache.keys != [] && Oldest(p.cache) in p.s.cur && q.s.disk == p.s.disk[Oldest(p.cache) := p.s.cur[Oldest(p.cache)]]
          && q.s.dirty == p.s.dirty - {Oldest(p.cache)}
        else q.s.disk == p.s.disk && q.s.dirty == p.s.dirty)
  }

  lemma AskedAlone(p: Pooled, x: Xid, k: PageKey)
    requires Alone(p, x) && Running(p.s, x) && k in p.s.cur
    ensures AskedFor(p, Ask(p, k), k) && PoolCore(Ask(p, k)) && Running(Ask(p, k).s, x)
  {
    AskCore(p, k);
    AskInPool(p, k);
    AskKeepsAtt(p, k);
    if WrittenBack(p.cache, k) != {} {
      AskWriting(p, k);
    } else {
      AskQuietly(p, k);
    }
  }

  lemma AskKeepsAtt(p: Pooled, k: PageKey)
    requires PoolCore(p) && k in p.s.cur
    ensures Ask(p, k).s.wal.att == p.s.wal.att
  {
    if WrittenBack(p.cache, k) != {} {
      AskWriting(p, k);
      FlushToFacts(p.s.wal, p.s.cur[Oldest(p.cache)].lsn);
    } else {
      AskQuietly(p, k);
    }
  }

  // What the insert of a row into page `k` makes of `p`.
  ghost predicate PutRow(p: Pooled, q: Pooled, r: Pooled, x: Xid, k: PageKey, payload: seq<byte>) {
    AskedFor(p, q, k) && RowAdded(q.s, r.s, x, k, payload) && r.cache.keys == q.cache.keys
  }

  lemma PoolInserts(p: Pooled, x: Xid, k: PageKey, payload: seq<byte>)
    requires var t := StepInsert(Ask(p, k).s, x, k, payload); |Ask(p, k).s.wal.log| < |t.wal.log| && k in t.cur
    ensures var t := StepInsert(Ask(p, k).s, x, k, payload);
      PoolStep(p, Do(InsertRow(x, k, payload))) == Pooled(t, Stored(Ask(p, k).cache, k, t.cur[k]), Ask(p, k).rereads)
  {
    PoolDoRow(p, InsertRow(x, k, payload), k);
    assert Step(Ask(p, k).s, InsertRow(x, k, payload)) == StepInsert(Ask(p, k).s, x, k, payload);
  }

  lemma StillLonely(s: Engine, q: Engine, t: Engine, x: Xid, k: PageKey, payload: seq<byte>)
    requires Lonely(s, x) && s.wal.nextLsn + 40 + |payload| <= NULL_LSN
    requires q.wal.nextLsn == s.wal.nextLsn && q.tm == s.tm && RowAdded(q, t, x, k, payload)
    ensures Lonely(t, x)
  {
  }

  lemma RowPut(p: Pooled, x: Xid, k: PageKey, payload: seq<byte>)
    requires Alone(p, x) && Running(p.s, x) && Fits(p.s, k, payload) && p.s.wal.nextLsn + 40 + |payload| <= NULL_LSN
    ensures var r := PoolStep(p, Do(InsertRow(x, k, payload)));
      Alone(r, x) && PutRow(p, Ask(p, k), r, x, k, payload)
  {
    var q, r := Ask(p, k), PoolStep(p, Do(InsertRow(x, k, payload)));
    AskedAlone(p, x, k);
    AloneInserts(q.s, x, k, payload);
    PoolInserts(p, x, k, payload);
    StillLonely(p.s, q.s, r.s, x, k, payload);
    PoolStepInv(p, Do(InsertRow(x, k, payload)));
  }

  // ---- the six tables -----------------------------------------------------

  // Table `i` has `rows` rows more than at the start, and the space that leaves.
  ghost predicate TableAt(s0: Engine, ps: PageMap, oid: Oid, i: nat, payload: seq<byte>, rows: nat) {
    && T(oid, i) in s0.cur && T(oid, i) in ps && TableChain.ChainOk(ps, oid + i, 1)
    && |ps[T(oid, i)].recs| == |s0.cur[T(oid, i)].recs| + rows
    && FreeSpace(ps[T(oid, i)]) + Taken(payload, rows) >= FreeSpace(s0.cur[T(oid, i)])
  }

  function Taken(payload: seq<byte>, rows: nat): nat {
    if rows == 0 then 0 else Taken(payload, rows - 1) + Size(payload) + SLOT_SIZE
  }

  ghost predicate TablesAt(s0: Engine, ps: PageMap, oid: Oid, payload: seq<byte>, rows: seq<nat>) {
    |rows| == 6 && forall i :: 0 <= i < 6 ==> TableAt(s0, ps, oid, i, payload, rows[i])
  }

  lemma GrownPage(p: Page, q: Page, z: nat)
    requires TableChain.PageFits(p) && z <= FreeSpace(p)
    requires |q.recs| == |p.recs| + 1 && q.recs[..|p.recs|] == p.recs && RecordSize(q.recs[|p.recs|]) == z
    ensures TableChain.PageFits(q) && FreeSpace(q) + z + SLOT_SIZE >= FreeSpace(p)
  {
    assert UsedBytes(q.recs) == UsedBytes(p.recs) + z;
  }

  // The chain of a table whose only page got a row, or was left alone.
  lemma ChainStays(ps: PageMap, qs: PageMap, oid: Oid)
    requires TableChain.ChainOk(ps, oid, 1) && qs.Keys == ps.Keys
    requires var k := PageKey(oid, 0); k in ps && TableChain.PageFits(qs[k]) && qs[k].recs != [] && qs[k].next == ps[k].next
    ensures TableChain.ChainOk(qs, oid, 1)
  {
    assert TableChain.LinkOk(ps, oid, 1, 0);
    assert TableChain.LinkOk(qs, oid, 1, 0);
  }

  lemma TableStays(s0: Engine, s: Engine, t: Engine, x: Xid, oid: Oid, i: nat, j: nat, payload: seq<byte>, rows: nat)
    requires TableAt(s0, s.cur, oid, j, payload, rows) && RowAdded(s, t, x, T(oid, i), payload) && i != j
    ensures TableAt(s0, t.cur, oid, j, payload, rows)
  {
    var k := T(oid, j);
    assert TableChain.LinkOk(s.cur, oid + j, 1, 0);
    assert k != T(oid, i) && t.cur[k] == s.cur[k];
    ChainStays(s.cur, t.cur, oid + j);
  }

  lemma TableGrows(s0: Engine, s: Engine, t: Engine, x: Xid, oid: Oid, i: nat, payload: seq<byte>, rows: nat)
    requires TableAt(s0, s.cur, oid, i, payload, rows) && RowAdded(s, t, x, T(oid, i), payload)
    requires Size(payload) <= FreeSpace(s.cur[T(oid, i)])
    ensures TableAt(s0, t.cur, oid, i, payload, rows + 1)
  {
    var k := T(oid, i);
    assert TableChain.LinkOk(s.cur, oid + i, 1, 0);
    GrownPage(s.cur[k], t.cur[k], Size(payload));
    ChainStays(s.cur, t.cur, oid + i);
  }

  lemma TablesGrow(s0: Engine, s: Engine, t: Engine, x: Xid, oid: Oid, i: nat, payload: seq<byte>, rows: seq<nat>)
    requires TablesAt(s0, s.cur, oid, payload, rows) && RowAdded(s, t, x, T(oid, i), payload) && i < 6
    requires Size(payload) <= FreeSpace(s.cur[T(oid, i)])
    ensures TablesAt(s0, t.cur, oid, payload, rows[i := rows[i] + 1])
  {
    var rows' := rows[i := rows[i] + 1];
    forall j | 0 <= j < 6 ensures TableAt(s0, t.cur, oid, j, payload, rows'[j]) {
      assert TableAt(s0, s.cur, oid, j, payload, rows[j]);
      if i == j { TableGrows(s0, s, t, x, oid, i, payload, rows[i]); } else { TableStays(s0, s, t, x, oid, i, j, payload, rows[j]); }
    }
  }

  lemma FitsAgain(s0: Engine, ps: PageMap, oid: Oid, i: nat, payload: seq<byte>, rows: nat)
    requires OnePage(s0, oid, i, payload) && TableAt(s0, ps, oid, i, payload, rows) && rows <= 1
    ensures T(oid, i) in ps && Size(payload) <= FreeSpace(ps[T(oid, i)])
    ensures TableChain.FirstFit(ps, oid + i, 1, Size(payload), 0) == 0
  {
    assert Taken(payload, 1) == Size(payload) + SLOT_SIZE;
  }

  // ---- one statement ------------------------------------------------------

  // The insert of a row at `l` asked for its page and logged one record.
  ghost predicate Statement(p: Pooled, r: Pooled, x: Xid, k: PageKey, payload: seq<byte>, l: Loc) {
    && |r.s.wal.log| == |p.s.wal.log| + 1 && r.s.wal.log[..|p.s.wal.log|] == p.s.wal.log
    && Inserts(r.s.wal.log[|p.s.wal.log|], l) && r.s.wal.log[|p.s.wal.log|].xid == x
    && r.s.wal.nextLsn == p.s.wal.nextLsn + 40 + |payload|
    && r.cache.keys == Front(p.cache.keys, k)
    && (if WrittenBack(p.cache, k) != {} then
          p.cache.keys != [] && Oldest(p.cache) in p.s.cur && r.s.disk == p.s.disk[Oldest(p.cache) := p.s.cur[Oldest(p.cache)]]
          && p.s.dirty - {Oldest(p.cache)} + {k} <= r.s.dirty
        else r.s.disk == p.s.disk && p.s.dirty + {k} <= r.s.dirty)
  }

  lemma StatementIs(p: Pooled, q: Pooled, r: Pooled, x: Xid, k: PageKey, payload: seq<byte>)
    requires PutRow(p, q, r, x, k, payload)
    ensures k in p.s.cur && Statement(p, r, x, k, payload, NextLoc(p.s.cur, k))
  {
  }

  lemma FitsFirst(s0: Engine, p: Pooled, x: Xid, oid: Oid, i: nat, payload: seq<byte>, rows: nat)
    requires OnePage(s0, oid, i, payload) && TableAt(s0, p.s.cur, oid, i, payload, rows) && rows <= 1
    ensures Fits(p.s, T(oid, i), payload) && InsertFits(p, Do(InsertRow(x, T(oid, i), payload)))
  {
    FitsAgain(s0, p.s.cur, oid, i, payload, rows);
    assert 1 > T(oid, i).page && TableChain.ChainOk(p.s.cur, oid + i, 1);
  }

  lemma PutTables(s0: Engine, p: Pooled, q: Pooled, r: Pooled, x: Xid, oid: Oid, i: nat, payload: seq<byte>, rows: seq<nat>)
    requires PutRow(p, q, r, x, T(oid, i), payload) && TablesAt(s0, p.s.cur, oid, payload, rows) && i < 6
    requires Fits(p.s, T(oid, i), payload)
    ensures T(oid, i) in s0.cur
    ensures TablesAt(s0, r.s.cur, oid, payload, rows[i := rows[i] + 1])
    ensures Statement(p, r, x, T(oid, i), payload, Loc(oid + i, Rid(0, |s0.cur[T(oid, i)].recs| + rows[i])))
  {
    assert TableAt(s0, p.s.cur, oid, i, payload, rows[i]);
    StatementIs(p, q, r, x, T(oid, i), payload);
    TablesGrow(s0, q.s, r.s, x, oid, i, payload, rows);
  }

  // ---- the first five tables ----------------------------------------------

  // The first row that the run adds to table `i`.
  ghost predicate RowLogged(base: PageMap, log: seq<LogRec>, x: Xid, oid: Oid, i: nat) {
    && 3 + i < |log| && T(oid, i) in base
    && Inserts(log[3 + i], Loc(oid + i, Rid(0, |base[T(oid, i)].recs|))) && log[3 + i].xid == x
  }

  ghost predicate Logged(base: PageMap, log0: seq<LogRec>, log: seq<LogRec>, x: Xid, oid: Oid, j: nat) {
    && |log0| == 2 <= |log| - 1 && log[..2] == log0 && log[2].BeginLog? && log[2].xid == x
    && forall i :: 0 <= i < j ==> RowLogged(base, log, x, oid, i)
  }

  lemma LoggedMore(base: PageMap, log0: seq<LogRec>, a: seq<LogRec>, b: seq<LogRec>, x: Xid, oid: Oid, j: nat)
    requires Logged(base, log0, a, x, oid, j) && |a| <= |b| && b[..|a|] == a
    ensures Logged(base, log0, b, x, oid, j)
  {
    assert b[..2] == b[..|a|][..2] && b[2] == b[..|a|][2];
    forall i | 0 <= i < j ensures RowLogged(base, b, x, oid, i) {
      assert RowLogged(base, a, x, oid, i) && b[3 + i] == b[..|a|][3 + i];
    }
  }

  // The first `j` pages, the last one first.
  function KeysDown(oid: Oid, j: nat): (ks: seq<PageKey>)
    ensures |ks| == j && forall a :: 0 <= a < j ==> ks[a] == T(oid, j - 1 - a)
  {
    if j == 0 then [] else [T(oid, j - 1)] + KeysDown(oid, j - 1)
  }

  function Counts(j: nat): seq<nat> {
    [if j > 0 then 1 else 0, if j > 1 then 1 else 0, if j > 2 then 1 else 0,
     if j > 3 then 1 else 0, if j > 4 then 1 else 0, if j > 5 then 1 else 0]
  }

  lemma CountMore(j: nat)
    requires j < 6
    ensures Counts(j)[j] == 0 && Counts(j + 1) == Counts(j)[j := Counts(j)[j] + 1]
  {
  }

  lemma CountFirst()
    ensures |Counts(6)| == 6 && Counts(6)[0] == 1
  {
  }

  // The first `j` tables have their row; all their pages are cached and dirty.
  ghost predicate RowsIn(s0: Engine, s: Engine, keys: seq<PageKey>, x: Xid, oid: Oid, j: nat, payload: seq<byte>) {
    && TablesAt(s0, s.cur, oid, payload, Counts(j))
    && |s.wal.log| == 3 + j && Logged(s0.cur, s0.wal.log, s.wal.log, x, oid, j)
    && s.wal.nextLsn <= s0.wal.nextLsn + 13 + 130 * j && s.disk == s0.disk
    && keys == KeysDown(oid, j) && forall i :: 0 <= i < j ==> T(oid, i) in s.dirty
  }

  ghost predicate Filled(s0: Engine, p: Pooled, x: Xid, oid: Oid, j: nat, payload: seq<byte>) {
    Alone(p, x) && RowsIn(s0, p.s, p.cache.keys, x, oid, j, payload)
  }

  lemma BeginAlone(s0: Engine)
    requires Init(s0) && 1 <= s0.tm.nextXid && s0.tm.nextXid + 1 < NULL_XID && s0.wal.nextLsn + 2000 <= NULL_LSN
    ensures PoolStep(ColdStart(s0), Do(Begin)) == Pooled(Step(s0, Begin), Cold(s0.disk), {})
    ensures Alone(PoolStep(ColdStart(s0), Do(Begin)), s0.tm.nextXid)
  {
    var b :| CleanWal(s0.wal, b);
    StartInv(s0);
    PoolDoQuiet(ColdStart(s0), Begin);
    PoolStepInv(ColdStart(s0), Do(Begin));
  }

  lemma BeginRows(s0: Engine, oid: Oid, payload: seq<byte>)
    requires SixStart(s0, oid, payload)
    ensures RowsIn(s0, Step(s0, Begin), [], s0.tm.nextXid, oid, 0, payload)
  {
    var b :| CleanWal(s0.wal, b);
    var r := BeginLog(s0.wal.nextLsn, s0.tm.nextXid, NULL_LSN);
    assert Step(s0, Begin).wal.log == s0.wal.log + [r];
    forall i | 0 <= i < 6 ensures TableAt(s0, s0.cur, oid, i, payload, Counts(0)[i]) { assert OnePage(s0, oid, i, payload); }
  }

  // The page of the next table is new to a cache with room for it.
  lemma NextKey(oid: Oid, j: nat, c: Cache<Page>)
    requires j < 5 && c.keys == KeysDown(oid, j)
    ensures Front(c.keys, T(oid, j)) == KeysDown(oid, j + 1) && WrittenBack(c, T(oid, j)) == {}
  {
    assert T(oid, j) !in c.keys;
  }

  lemma RowsMore(s0: Engine, p: Pooled, r: Pooled, x: Xid, oid: Oid, j: nat, payload: seq<byte>, l: Loc)
    requires j < 5 && |payload| <= 90 && T(oid, j) in s0.cur && RowsIn(s0, p.s, p.cache.keys, x, oid, j, payload)
    requires l.oid == oid + j && l.rid.page == 0 && l.rid.slot == |s0.cur[T(oid, j)].recs|
    requires Statement(p, r, x, T(oid, j), payload, l)
    requires TablesAt(s0, r.s.cur, oid, payload, Counts(j + 1))
    ensures RowsIn(s0, r.s, r.cache.keys, x, oid, j + 1, payload)
  {
    NextKey(oid, j, p.cache);
    LoggedMore(s0.cur, s0.wal.log, p.s.wal.log, r.s.wal.log, x, oid, j);
    assert RowLogged(s0.cur, r.s.wal.log, x, oid, j);
  }

  // The same from what one insert makes of `p`.
  lemma RowsPut(s0: Engine, p: Pooled, q: Pooled, r: Pooled, x: Xid, oid: Oid, j: nat, payload: seq<byte>)
    requires PutRow(p, q, r, x, T(oid, j), payload) && j < 5 && |payload| <= 90 && Fits(p.s, T(oid, j), payload)
    requires RowsIn(s0, p.s, p.cache.keys, x, oid, j, payload)
    ensures RowsIn(s0, r.s, r.cache.keys, x, oid, j + 1, payload)
  {
    CountMore(j);
    PutTables(s0, p, q, r, x, oid, j, payload, Counts(j));
    RowsMore(s0, p, r, x, oid, j, payload, Loc(oid + j, Rid(0, |s0.cur[T(oid, j)].recs| + Counts(j)[j])));
  }

  /** An INSERT into table `i`, in two steps: the statement begins as `p1`, its
      page has been asked for in `q`. */
  lemma InsertRun(s0: Engine, p: Pooled, x: Xid, oid: Oid, i: nat, payload: seq<byte>, rows: seq<nat>) returns (p1: Pooled, q: Pooled, r: Pooled)
    requires SixStart(s0, oid, payload) && Alone(p, x) && TablesAt(s0, p.s.cur, oid, payload, rows) && i < 6 && rows[i] <= 1
    requires p.s.wal.nextLsn + 40 + |payload| <= NULL_LSN
    ensures r == PoolRun(p, Insert(x, T(oid, i), payload)) && FirstFits(p, Insert(x, T(oid, i), payload))
    ensures SameBut(p, p1) && InPool(p1) && Fits(p1.s, T(oid, i), payload) && PutRow(p1, q, r, x, T(oid, i), payload) && Alone(r, x)
  {
    var k := T(oid, i);
    p1 := PoolStep(p, Do(Command(x)));
    CommandAlone(p, x);
    assert OnePage(s0, oid, i, payload) && TableAt(s0, p1.s.cur, oid, i, payload, rows[i]);
    FitsFirst(s0, p1, x, oid, i, payload, rows[i]);
    q, r := Ask(p1, k), PoolStep(p1, Do(InsertRow(x, k, payload)));
    RowPut(p1, x, k, payload);
    PoolTwo(p, Do(Command(x)), Do(InsertRow(x, k, payload)));
  }

  lemma FillNext(s0: Engine, p: Pooled, x: Xid, oid: Oid, j: nat, payload: seq<byte>) returns (r: Pooled)
    requires SixStart(s0, oid, payload) && Filled(s0, p, x, oid, j, payload) && j < 5
    ensures r == PoolRun(p, Insert(x, T(oid, j), payload)) && FirstFits(p, Insert(x, T(oid, j), payload))
    ensures Filled(s0, r, x, oid, j + 1, payload)
  {
    var p1, q;
    CountMore(j);
    p1, q, r := InsertRun(s0, p, x, oid, j, payload, Counts(j));
    RowsPut(s0, p1, q, r, x, oid, j, payload);
  }

  lemma {:induction false} FillRun(s0: Engine, oid: Oid, j: nat, payload: seq<byte>) returns (p: Pooled)
    requires SixStart(s0, oid, payload) && j <= 5
    ensures p == PoolRun(ColdStart(s0), FillOps(s0.tm.nextXid, oid, j, payload))
    ensures Filled(s0, p, s0.tm.nextXid, oid, j, payload) && FirstFits(ColdStart(s0), FillOps(s0.tm.nextXid, oid, j, payload))
  {
    var x, p0 := s0.tm.nextXid, ColdStart(s0);
    if j == 0 {
      p := PoolStep(p0, Do(Begin));
      BeginAlone(s0);
      BeginRows(s0, oid, payload);
      assert [Do(Begin)][1..] == [];
      assert PoolRun(p0, [Do(Begin)]) == PoolRun(p, []);
    } else {
      var q := FillRun(s0, oid, j - 1, payload);
      p := FillNext(s0, q, x, oid, j - 1, payload);
      PoolSplit(p0, FillOps(x, oid, j - 1, payload), Insert(x, T(oid, j - 1), payload));
    }
  }

  // ---- the page that is read again ----------------------------------------

  // The cached pages once the first one was read.
  function ReadKeys(oid: Oid): seq<PageKey> { [T(oid, 0), T(oid, 4), T(oid, 3), T(oid, 2), T(oid, 1)] }

  lemma FrontRead(oid: Oid)
    ensures KeysDown(oid, 5) == [T(oid, 4), T(oid, 3), T(oid, 2), T(oid, 1), T(oid, 0)]
    ensures Front(KeysDown(oid, 5), T(oid, 0)) == ReadKeys(oid)
  {
    var ks := [T(oid, 4), T(oid, 3), T(oid, 2), T(oid, 1), T(oid, 0)];
    assert KeysDown(oid, 5) == ks;
    var i := ErasedIs(ks, T(oid, 0));
    assert i == 4;
  }

  // Nothing but the order of the list changes.
  ghost predicate Reordered(p: Pooled, r: Pooled, keys: seq<PageKey>) {
    && r.cache.keys == keys
    && r.s.wal == p.s.wal && r.s.cur == p.s.cur && r.s.disk == p.s.disk && r.s.dirty == p.s.dirty
  }

  lemma ReadAlone(p: Pooled, x: Xid, k: PageKey)
    requires Alone(p, x) && k in p.cache.keys
    ensures var r := PoolStep(p, ReadPage(k)); Alone(r, x) && Reordered(p, r, Front(p.cache.keys, k))
  {
    assert k in p.cache.mem && WrittenBack(p.cache, k) == {};
    AskQuietly(p, k);
    FetchedKeys(p.cache, k);
    PoolStepInv(p, ReadPage(k));
  }

  lemma ReadRun(p: Pooled, x: Xid, k: PageKey) returns (r: Pooled)
    requires Alone(p, x) && k in p.cache.keys
    ensures r == PoolRun(p, [Do(Command(x)), ReadPage(k)]) && FirstFits(p, [Do(Command(x)), ReadPage(k)])
    ensures Alone(r, x) && Reordered(p, r, Front(p.cache.keys, k))
  {
    var p1 := PoolStep(p, Do(Command(x)));
    CommandAlone(p, x);
    r := PoolStep(p1, ReadPage(k));
    ReadAlone(p1, x, k);
    PoolTwo(p, Do(Command(x)), ReadPage(k));
  }

  // ---- the sixth table, and the first one again ---------------------------

  // The page files are those of the start, but for the second table.
  ghost predicate OnlySecond(s0: Engine, disk: PageMap, oid: Oid) {
    disk.Keys == s0.disk.Keys && forall k :: k in disk && k != T(oid, 1) ==> disk[k] == s0.disk[k]
  }

  ghost predicate SixRows(s0: Engine, s: Engine, x: Xid, oid: Oid, payload: seq<byte>) {
    && TablesAt(s0, s.cur, oid, payload, Counts(6))
    && |s.wal.log| == 9 && Logged(s0.cur, s0.wal.log, s.wal.log, x, oid, 6)
    && s.wal.nextLsn <= s0.wal.nextLsn + 793 && OnlySecond(s0, s.disk, oid)
  }

  // The sixth page takes the frame of the second one.
  lemma SixthWrites(c: Cache<Page>, oid: Oid)
    requires c.keys == ReadKeys(oid) && T(oid, 1) in c.dirty
    ensures WrittenBack(c, T(oid, 5)) != {} && Oldest(c) == T(oid, 1)
    ensures Front(c.keys, T(oid, 5)) == [T(oid, 5), T(oid, 0), T(oid, 4), T(oid, 3), T(oid, 2)]
  {
    assert T(oid, 5) !in c.keys;
  }

  lemma SixthPut(s0: Engine, p: Pooled, q: Pooled, r: Pooled, x: Xid, oid: Oid, payload: seq<byte>)
    requires Init(s0) && PutRow(p, q, r, x, T(oid, 5), payload) && |payload| <= 90 && Fits(p.s, T(oid, 5), payload)
    requires RowsIn(s0, p.s, KeysDown(oid, 5), x, oid, 5, payload) && p.cache.keys == ReadKeys(oid) && p.cache.dirty == p.s.dirty
    requires T(oid, 1) in s0.cur
    ensures SixRows(s0, r.s, x, oid, payload)
    ensures T(oid, 0) in r.cache.keys
  {
    CountMore(5);
    PutTables(s0, p, q, r, x, oid, 5, payload, Counts(5));
    SixthDisk(s0, p, q, r, x, oid, payload);
    LoggedMore(s0.cur, s0.wal.log, p.s.wal.log, r.s.wal.log, x, oid, 5);
    assert RowLogged(s0.cur, r.s.wal.log, x, oid, 5);
  }

  lemma SixthDisk(s0: Engine, p: Pooled, q: Pooled, r: Pooled, x: Xid, oid: Oid, payload: seq<byte>)
    requires Init(s0) && PutRow(p, q, r, x, T(oid, 5), payload) && p.s.disk == s0.disk && T(oid, 1) in s0.cur
    requires T(oid, 1) in p.s.dirty && p.cache.keys == ReadKeys(oid) && p.cache.dirty == p.s.dirty
    ensures OnlySecond(s0, r.s.disk, oid)
    ensures T(oid, 0) in r.cache.keys
  {
    SixthWrites(p.cache, oid);
    assert r.cache.keys[1] == T(oid, 0);
    assert p.s.disk[T(oid, 1) := p.s.cur[T(oid, 1)]].Keys == s0.disk.Keys;
  }

  ghost predicate SevenRows(s0: Engine, s: Engine, x: Xid, oid: Oid) {
    && |s.wal.log| == 10 && Logged(s0.cur, s0.wal.log, s.wal.log, x, oid, 6)
    && T(oid, 0) in s0.cur && Inserts(s.wal.log[9], LostRow(s0.cur, oid)) && s.wal.log[9].xid == x
    && s.wal.nextLsn <= s0.wal.nextLsn + 923 && OnlySecond(s0, s.disk, oid)
  }

  // The second row that the run adds to the first table.
  function LostRow(base: PageMap, oid: Oid): Loc
    requires T(oid, 0) in base
  {
    Loc(oid, Rid(0, |base[T(oid, 0)].recs| + 1))
  }

  lemma SeventhPut(s0: Engine, p: Pooled, q: Pooled, r: Pooled, x: Xid, oid: Oid, payload: seq<byte>)
    requires PutRow(p, q, r, x, T(oid, 0), payload) && |payload| <= 90 && Fits(p.s, T(oid, 0), payload)
    requires SixRows(s0, p.s, x, oid, payload) && T(oid, 0) in p.cache.keys
    ensures SevenRows(s0, r.s, x, oid)
  {
    PutTables(s0, p, q, r, x, oid, 0, payload, Counts(6));
    LoggedMore(s0.cur, s0.wal.log, p.s.wal.log, r.s.wal.log, x, oid, 6);
  }

  // ---- the whole run ------------------------------------------------------

  /** What the whole run logs. */
  ghost predicate SixLog(base: PageMap, log: seq<LogRec>, x: Xid, oid: Oid) {
    && |log| == 11 && log[0].BeginCheckpointLog? && log[1].EndCheckpointLog? && log[2].BeginLog? && log[2].xid == x
    && (forall i :: 0 <= i < 6 ==> RowLogged(base, log, x, oid, i))
    && T(oid, 0) in base && Inserts(log[9], LostRow(base, oid)) && log[9].xid == x
    && log[10].CommitLog? && log[10].xid == x
  }

  // The state the run ends in: all of the log is in the file, of the pages only the second.
  ghost predicate Ended(s0: Engine, s: Engine, x: Xid, oid: Oid) {
    && |s0.wal.log| == 2 && SixLog(s0.cur, s.wal.log, x, oid) && s.wal.durable == 11 && s.wal.log[0] == s0.wal.log[0]
    && Bounded(s) && OnlySecond(s0, s.disk, oid)
  }

  lemma CommitEnds(s0: Engine, s: Engine, x: Xid, oid: Oid)
    requires Init(s0) && Inv(s) && Lonely(s, x) && SevenRows(s0, s, x, oid) && s0.wal.nextLsn + 2000 <= NULL_LSN
    ensures Ended(s0, StepCommit(s, x), x, oid)
  {
    var t := StepCommit(s, x);
    var b :| CleanWal(s0.wal, b);
    EndNextLsn(s.wal, x, true);
    AppendEndFacts(s.wal, x, true);
    assert t.wal.log[..10] == s.wal.log;
    LoggedMore(s0.cur, s0.wal.log, s.wal.log, t.wal.log, x, oid, 6);
    assert t.wal.log[0] == t.wal.log[..2][0] && t.wal.log[1] == t.wal.log[..2][1];
  }

  lemma RowsSame(s0: Engine, s: Engine, t: Engine, keys: seq<PageKey>, x: Xid, oid: Oid, j: nat, payload: seq<byte>)
    requires RowsIn(s0, s, keys, x, oid, j, payload)
    requires t.wal == s.wal && t.cur == s.cur && t.disk == s.disk && t.dirty == s.dirty
    ensures RowsIn(s0, t, keys, x, oid, j, payload)
  {
  }

  lemma SixSame(s0: Engine, s: Engine, t: Engine, x: Xid, oid: Oid, payload: seq<byte>)
    requires SixRows(s0, s, x, oid, payload) && t.wal == s.wal && t.cur == s.cur && t.disk == s.disk
    ensures SixRows(s0, t, x, oid, payload)
  {
  }

  // Five tables, and the first one read again.
  lemma ReadFive(s0: Engine, oid: Oid, payload: seq<byte>) returns (p: Pooled)
    requires SixStart(s0, oid, payload)
    ensures var x := s0.tm.nextXid;
      var ops := FillOps(x, oid, 5, payload) + [Do(Command(x)), ReadPage(T(oid, 0))];
      && p == PoolRun(ColdStart(s0), ops) && FirstFits(ColdStart(s0), ops)
      && Alone(p, x) && RowsIn(s0, p.s, KeysDown(oid, 5), x, oid, 5, payload) && p.cache.keys == ReadKeys(oid)
  {
    var x := s0.tm.nextXid;
    var q := FillRun(s0, oid, 5, payload);
    FrontRead(oid);
    assert q.cache.keys[4] == T(oid, 0);
    p := ReadRun(q, x, T(oid, 0));
    RowsSame(s0, q.s, p.s, KeysDown(oid, 5), x, oid, 5, payload);
    PoolSplit(ColdStart(s0), FillOps(x, oid, 5, payload), [Do(Command(x)), ReadPage(T(oid, 0))]);
  }

  // The insert into the sixth table.
  lemma InsertSixth(s0: Engine, p: Pooled, x: Xid, oid: Oid, payload: seq<byte>) returns (r: Pooled)
    requires SixStart(s0, oid, payload) && Alone(p, x)
    requires RowsIn(s0, p.s, KeysDown(oid, 5), x, oid, 5, payload) && p.cache.keys == ReadKeys(oid)
    ensures r == PoolRun(p, Insert(x, T(oid, 5), payload)) && FirstFits(p, Insert(x, T(oid, 5), payload))
    ensures Alone(r, x) && SixRows(s0, r.s, x, oid, payload) && T(oid, 0) in r.cache.keys
  {
    var p1, q;
    CountMore(5);
    p1, q, r := InsertRun(s0, p, x, oid, 5, payload, Counts(5));
    RowsSame(s0, p.s, p1.s, KeysDown(oid, 5), x, oid, 5, payload);
    assert OnePage(s0, oid, 1, payload);
    SixthPut(s0, p1, q, r, x, oid, payload);
  }

  // The second insert into the first table.
  lemma InsertAgain(s0: Engine, p: Pooled, x: Xid, oid: Oid, payload: seq<byte>) returns (r: Pooled)
    requires SixStart(s0, oid, payload) && Alone(p, x) && SixRows(s0, p.s, x, oid, payload)
    requires T(oid, 0) in p.cache.keys
    ensures r == PoolRun(p, Insert(x, T(oid, 0), payload)) && FirstFits(p, Insert(x, T(oid, 0), payload))
    ensures Alone(r, x) && SevenRows(s0, r.s, x, oid)
  {
    var p1, q;
    CountFirst();
    p1, q, r := InsertRun(s0, p, x, oid, 0, payload, Counts(6));
    SixSame(s0, p.s, p1.s, x, oid, payload);
    SeventhPut(s0, p1, q, r, x, oid, payload);
  }

  lemma CommitRun(s0: Engine, p: Pooled, x: Xid, oid: Oid)
    requires Init(s0) && Alone(p, x) && SevenRows(s0, p.s, x, oid) && s0.wal.nextLsn + 2000 <= NULL_LSN
    ensures var r := PoolRun(p, [Do(Commit(x))]); Ended(s0, r.s, x, oid) && FirstFits(p, [Do(Commit(x))])
  {
    CommitIs(p, x);
    OneOp(p, Do(Commit(x)));
    CommitEnds(s0, p.s, x, oid);
  }

  lemma CommitIs(p: Pooled, x: Xid)
    ensures PoolStep(p, Do(Commit(x))) == Pooled(StepCommit(p.s, x), p.cache, p.rereads)
  {
    PoolDoQuiet(p, Commit(x));
    assert Step(p.s, Commit(x)) == StepCommit(p.s, x);
  }

  lemma OneOp(p: Pooled, op: PoolOp)
    ensures PoolRun(p, [op]) == PoolStep(p, op)
    ensures InsertFits(p, op) ==> FirstFits(p, [op])
  {
    assert PoolRun(p, [op]) == PoolRun(PoolStep(p, op), [op][1..]);
    assert FirstFits(PoolStep(p, op), [op][1..]);
  }

  lemma SevenRun(s0: Engine, oid: Oid, payload: seq<byte>)
    requires SixStart(s0, oid, payload)
    ensures var x := s0.tm.nextXid;
      var ops := SevenInserts(x, oid, payload);
      Ended(s0, PoolRun(ColdStart(s0), ops).s, x, oid) && FirstFits(ColdStart(s0), ops)
  {
    var x, start := s0.tm.nextXid, ColdStart(s0);
    var a := FillOps(x, oid, 5, payload) + [Do(Command(x)), ReadPage(T(oid, 0))];
    var b, c, d := Insert(x, T(oid, 5), payload), Insert(x, T(oid, 0), payload), [Do(Commit(x))];
    var p6 := ReadFive(s0, oid, payload);
    var p7 := InsertSixth(s0, p6, x, oid, payload);
    var p8 := InsertAgain(s0, p7, x, oid, payload);
    CommitRun(s0, p8, x, oid);
    PoolSplit(start, a, b);
    PoolSplit(start, a + b, c);
    PoolSplit(start, a + b + c, d);
  }

  lemma {:induction false} FillOpsOk(x: Xid, oid: Oid, j: nat, payload: seq<byte>)
    ensures PoolOpsOk(FillOps(x, oid, j, payload))
  {
    if j > 0 { FillOpsOk(x, oid, j - 1, payload); }
  }

  lemma SevenOk(x: Xid, oid: Oid, payload: seq<byte>)
    ensures PoolOpsOk(SevenInserts(x, oid, payload))
  {
    FillOpsOk(x, oid, 5, payload);
  }
}
