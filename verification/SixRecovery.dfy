/** Redo after the run over six tables: the page that was read again loses its
    entry before its second record, and that row with it. */
module SixRecovery {
  import opened Types
  import opened Visibility
  import opened Transactions
  import opened Pages
  import opened Wal
  import opened Replay
  import TableChain
  import opened Engine
  import opened EngineInv
  import opened EngineEnds
  import opened EngineDisk
  import opened Recovery
  import opened EngineHistory
  import opened CrashRecovery
  import opened Caches
  import opened CachedRedo
  import opened RedoWindow
  import opened CachedRecovery
  import opened RedoLoss
  import opened PoolTraces
  import opened PooledRuns
  import opened PooledRestarts
  import opened SixTables

  // ---- what redo asks for -------------------------------------------------

  // Analysis leaves an entry for every row record behind an empty checkpoint.
  lemma {:induction false} AnalysisAsks(log: seq<LogRec>, s: nat, n: nat, a: Analysis, i: nat)
    requires s <= i < n <= |log| && Ordered(log) && IsRowRec(log[i]) && a.dpt == map[]
    ensures Asks(log[i], AnalyzeTo(log, s, n, a).dpt)
    decreases n
  {
    var b := AnalyzeTo(log, s, n - 1, a);
    if i < n - 1 {
      AnalysisAsks(log, s, n - 1, a, i);
    } else {
      EntriesBefore(log, s, n - 1, a);
    }
  }

  lemma {:induction false} EntriesBefore(log: seq<LogRec>, s: nat, n: nat, a: Analysis)
    requires s <= n <= |log| && Ordered(log) && a.dpt == map[]
    ensures forall k, j :: k in AnalyzeTo(log, s, n, a).dpt && n <= j < |log| ==> AnalyzeTo(log, s, n, a).dpt[k] <= log[j].lsn
    decreases n
  {
    if n > s {
      EntriesBefore(log, s, n - 1, a);
    }
  }

  // Redo asks for the page of table `j` at its first record.
  ghost predicate Asked(log: seq<LogRec>, dpt: map<PageKey, Lsn>, disk: PageMap, oid: Oid, j: nat) {
    3 + j < |log| && OnPage(log[3 + j], T(oid, j)) && T(oid, j) in disk && T(oid, j) in dpt && Asks(log[3 + j], dpt)
  }

  // What the crash leaves, as far as redo asks.
  ghost predicate SixCrash(base: PageMap, log: seq<LogRec>, x: Xid, oid: Oid, i: nat, dpt: map<PageKey, Lsn>, disk: PageMap) {
    && SixLog(base, log, x, oid) && Ready(log, i, dpt, disk) && i <= 3
    && (forall j :: 0 <= j < 6 ==> Asked(log, dpt, disk, oid, j))
    && disk[T(oid, 0)].lsn < log[0].lsn
  }

  lemma FirstMissing(base: PageMap, log: seq<LogRec>, x: Xid, oid: Oid, i: nat, dpt: map<PageKey, Lsn>, disk: PageMap)
    requires SixCrash(base, log, x, oid, i, dpt, disk)
    ensures T(oid, 0) in disk && T(oid, 0) in dpt
    ensures Missing(log, 3, disk, T(oid, 0)) && Missing(log, 9, disk, T(oid, 0)) && Asks(log[3], dpt)
  {
    assert Asked(log, dpt, disk, oid, 0);
    assert log[0].lsn < log[3].lsn && log[0].lsn < log[9].lsn;
  }

  // ---- five frames --------------------------------------------------------

  // Redo has asked for the first `j` pages; the first one is dirty again.
  ghost predicate Loaded(t: Redoing, oid: Oid, j: nat, dpt: map<PageKey, Lsn>, disk: PageMap) {
    && CacheOk(t.cache) && t.dpt == dpt && t.cache.keys == KeysDown(oid, j)
    && View(t.cache).Keys == disk.Keys && (forall k :: k in disk ==> View(t.cache)[k].lsn == disk[k].lsn)
    && (j > 0 ==> T(oid, 0) in t.cache.dirty)
  }

  // Redo keeps every page's LSN.
  lemma LoadView(r: LogRec, t: Redoing, disk: PageMap)
    requires CacheOk(t.cache) && View(t.cache).Keys == disk.Keys && (forall k :: k in disk ==> View(t.cache)[k].lsn == disk[k].lsn)
    ensures var c := RedoStep(r, t).cache;
      CacheOk(c) && View(c).Keys == disk.Keys && forall k :: k in disk ==> View(c)[k].lsn == disk[k].lsn
  {
    RedoStepView(r, t);
  }

  // A page that is asked for while there is room.
  lemma LoadKeys(r: LogRec, t: Redoing, k: PageKey)
    requires CacheOk(t.cache) && k in View(t.cache) && OnPage(r, k) && Asks(r, t.dpt) && WrittenBack(t.cache, k) == {}
    ensures var u := RedoStep(r, t);
      && u.dpt == t.dpt && u.cache.keys == Front(t.cache.keys, k) && t.cache.dirty <= u.cache.dirty
      && (r.lsn > View(t.cache)[k].lsn ==> k in u.cache.dirty)
  {
    FetchedKeys(t.cache, k);
    FetchedDirty(t.cache, k);
    assert t.dpt - {} == t.dpt && t.cache.dirty - {} == t.cache.dirty;
  }

  // One more page in a cache with room for it.
  lemma LoadOne(r: LogRec, t: Redoing, oid: Oid, j: nat, dpt: map<PageKey, Lsn>, disk: PageMap)
    requires j < 5 && Loaded(t, oid, j, dpt, disk) && OnPage(r, T(oid, j)) && T(oid, j) in disk
    requires Asks(r, dpt) && (j == 0 ==> r.lsn > disk[T(oid, 0)].lsn)
    ensures Loaded(RedoStep(r, t), oid, j + 1, dpt, disk)
  {
    NextKey(oid, j, t.cache);
    LoadView(r, t, disk);
    LoadKeys(r, t, T(oid, j));
  }

  lemma {:induction false} LoadFive(base: PageMap, log: seq<LogRec>, x: Xid, oid: Oid, i: nat, dpt: map<PageKey, Lsn>, disk: PageMap, n: nat)
    returns (t: Redoing)
    requires SixCrash(base, log, x, oid, i, dpt, disk) && i <= n <= 8
    ensures t == RedoTo(log, i, n, Redoing(Cold(disk), dpt)) && Loaded(t, oid, if n < 3 then 0 else n - 3, dpt, disk)
    decreases n
  {
    if n == i {
      t := Redoing(Cold(disk), dpt);
      assert View(Cold(disk)) == disk;
    } else {
      var u := LoadFive(base, log, x, oid, i, dpt, disk, n - 1);
      t := RedoStep(log[n - 1], u);
      RedoToNext(log, i, n - 1, Redoing(Cold(disk), dpt));
      FirstMissing(base, log, x, oid, i, dpt, disk);
      if n > 3 {
        assert Asked(log, dpt, disk, oid, n - 4);
        LoadOne(log[n - 1], u, oid, n - 4, dpt, disk);
      }
    }
  }

  lemma WritesOldest(r: LogRec, t: Redoing, k: PageKey)
    requires CacheOk(t.cache) && |t.cache.keys| == BUFFER_SIZE && k !in t.cache.keys && k in View(t.cache)
    requires OnPage(r, k) && Asks(r, t.dpt) && Oldest(t.cache) in t.cache.dirty
    ensures Oldest(t.cache) !in RedoStep(r, t).dpt
  {
  }

  /** The sixth page evicts the first, whose entry goes with it. */
  lemma SixthEvicts(base: PageMap, log: seq<LogRec>, x: Xid, oid: Oid, i: nat, dpt: map<PageKey, Lsn>, disk: PageMap)
    requires SixCrash(base, log, x, oid, i, dpt, disk)
    ensures T(oid, 0) in dpt && T(oid, 0) !in RedoTo(log, i, 9, Redoing(Cold(disk), dpt)).dpt
  {
    FirstMissing(base, log, x, oid, i, dpt, disk);
    var t := LoadFive(base, log, x, oid, i, dpt, disk, 8);
    RedoToNext(log, i, 8, Redoing(Cold(disk), dpt));
    assert Asked(log, dpt, disk, oid, 5);
    FrontRead(oid);
    WritesOldest(log[8], t, T(oid, 5));
  }

  // ---- the lost row -------------------------------------------------------

  // Every record that is of a transaction is of `x`.
  lemma SixXids(base: PageMap, log: seq<LogRec>, x: Xid, oid: Oid, i: nat)
    requires SixLog(base, log, x, oid) && i < 11 && !IsCheckpoint(log[i])
    ensures log[i].xid == x
  {
    if 3 <= i < 9 { assert RowLogged(base, log, x, oid, i - 3); }
  }

  lemma SixAtt(base: PageMap, first: Xid, log: seq<LogRec>, x: Xid, oid: Oid)
    requires AllDisciplined(base, first, log) && SixLog(base, log, x, oid)
    ensures Committed(log, 11, x) && AttOf(log, 11) == map[]
  {
    assert log[10].CommitLog?;
    forall y ensures y !in AttOf(log, 11) {
      LoserIffNotCommitted(base, first, log, 11, y);
      if Mentioned(log, 11, y) {
        var i :| 0 <= i < 11 && OfXid(log[i], y);
        SixXids(base, log, x, oid, i);
      }
    }
    assert AttOf(log, 11).Keys == {};
  }

  // Only one record is about the lost row.
  lemma OneRecord(base: PageMap, log: seq<LogRec>, x: Xid, oid: Oid, i: nat)
    requires SixLog(base, log, x, oid) && i < 11
    ensures Touches(log[i], LostRow(base, oid)) ==> i == 9
  {
    if 3 <= i < 9 { assert RowLogged(base, log, x, oid, i - 3); }
  }

  // Its page has not seen its insert.
  lemma LostUnseen(base: PageMap, first: Xid, log: seq<LogRec>, x: Xid, oid: Oid, c: nat, start: nat, disk: PageMap, m: map<PageKey, nat>)
    requires Crashed(base, first, log, c, disk, m) && RedoStart(log, Analyze(log, c).dpt, c, start)
    requires SixCrash(base, log, x, oid, start, Analyze(log, c).dpt, disk)
    ensures T(oid, 0) in m && m[T(oid, 0)] <= |log| && SeenBy(log, c, start, disk, m, T(oid, 0)) <= 9
  {
    var k := T(oid, 0);
    var dpt := Analyze(log, c).dpt;
    FirstMissing(base, log, x, oid, start, dpt, disk);
    SixthEvicts(base, log, x, oid, start, dpt, disk);
    CutMeaning(log, start, 9, 11, Redoing(Cold(disk), dpt), k);
    assert ImageOk(base, log, disk, k, m[k]);
  }

  lemma OnlyNine(base: PageMap, log: seq<LogRec>, n: nat, l: Loc)
    requires |log| == 11 && n <= 9 && !InBase(base, l) && Inserts(log[9], l)
    requires forall i :: 0 <= i < 11 && Touches(log[i], l) ==> i == 9
    ensures !InsertCommittedBy(base, log, n, l) && !DeleteCommitted(base, log, l)
  {
    forall i | 0 <= i < 11 ensures !Deletes(log[i], l) && (i < n ==> !Inserts(log[i], l)) {
      assert Touches(log[i], l) <==> Inserts(log[i], l) || Deletes(log[i], l);
    }
  }

  // Its insert is committed, and it is all that happened to the row.
  lemma LostCommitted(base: PageMap, log: seq<LogRec>, x: Xid, oid: Oid, n: nat)
    requires SixLog(base, log, x, oid) && Committed(log, 11, x) && n <= 9
    ensures var l := LostRow(base, oid);
      InsertCommitted(base, log, l) && !DeleteCommitted(base, log, l) && !InsertCommittedBy(base, log, n, l)
  {
    var l := LostRow(base, oid);
    forall i | 0 <= i < 11 && Touches(log[i], l) ensures i == 9 { OneRecord(base, log, x, oid, i); }
    assert Inserts(log[9], l) && InsertCommitted(base, log, l);
    OnlyNine(base, log, n, l);
  }

  // Nobody is undone.
  lemma NoLosers(base: PageMap, first: Xid, log: seq<LogRec>, x: Xid, oid: Oid, c: nat, start: nat, disk: PageMap, m: map<PageKey, nat>)
    requires Crashed(base, first, log, c, disk, m) && SixLog(base, log, x, oid) && start <= |log|
    ensures Committed(log, 11, x) && Analyze(log, c).att == map[] && UndoFinds(base, log, c, start, disk, m)
  {
    AnalysisAtt(log, c, 11, Analysis(log[c + 1].att, log[c + 1].dpt, 0));
    SixAtt(base, first, log, x, oid);
    forall i | 0 <= i < 11 && IsRowRec(log[i]) ensures Committed(log, 11, log[i].xid) { SixXids(base, log, x, oid, i); }
  }

  /** Recovery of that log loses the row. */
  lemma SixCrashLoses(base: PageMap, first: Xid, log: seq<LogRec>, x: Xid, oid: Oid, c: nat, start: nat, disk: PageMap, m: map<PageKey, nat>, y: Xid, cid: Cid)
    requires Crashed(base, first, log, c, disk, m) && RedoStart(log, Analyze(log, c).dpt, c, start)
    requires SixCrash(base, log, x, oid, start, Analyze(log, c).dpt, disk) && Fresh(base, log, y)
    ensures var l := LostRow(base, oid);
      && Analyze(log, c).att == map[] && UndoFinds(base, log, c, start, disk, m)
      && InsertCommitted(base, log, l) && !DeleteCommitted(base, log, l)
      && !Reads(PagesAfter(log, c, start, [], disk), l, y, cid)
  {
    NoLosers(base, first, log, x, oid, c, start, disk, m);
    LostUnseen(base, first, log, x, oid, c, start, disk, m);
    LostCommitted(base, log, x, oid, SeenBy(log, c, start, disk, m, T(oid, 0)));
    RestartSeesSeen(base, first, log, c, start, [], disk, m, y, cid, LostRow(base, oid));
  }

  // ---- the crash after the run --------------------------------------------

  lemma OnlyBegin(base: PageMap, log: seq<LogRec>, x: Xid, oid: Oid, i: nat)
    requires SixLog(base, log, x, oid) && i < 11
    ensures log[i].BeginCheckpointLog? ==> i == 0
  {
    if 3 <= i < 9 { assert RowLogged(base, log, x, oid, i - 3); }
  }

  // The checkpoint is the one from before the run, and its table is empty.
  lemma FirstCheckpoint(base: PageMap, first: Xid, log: seq<LogRec>, x: Xid, oid: Oid, c: nat, disk: PageMap, m: map<PageKey, nat>)
    requires Crashed(base, first, log, c, disk, m) && SixLog(base, log, x, oid)
    ensures c == 0 && log[1].dpt == map[]
  {
    OnlyBegin(base, log, x, oid, c);
    forall k ensures k !in log[1].dpt { assert PointsInto(log[1].dpt, log, 0, k); }
    assert log[1].dpt.Keys == {};
  }

  lemma AllAsked(base: PageMap, first: Xid, log: seq<LogRec>, x: Xid, oid: Oid, c: nat, disk: PageMap, m: map<PageKey, nat>, j: nat)
    requires Crashed(base, first, log, c, disk, m) && SixLog(base, log, x, oid) && j < 6
    ensures Asked(log, Analyze(log, c).dpt, disk, oid, j)
  {
    FirstCheckpoint(base, first, log, x, oid, c, disk, m);
    assert RowLogged(base, log, x, oid, j);
    AnalysisAsks(log, 2, 11, Analysis(log[1].att, log[1].dpt, 0), 3 + j);
  }

  lemma SixIsCrash(base: PageMap, first: Xid, log: seq<LogRec>, x: Xid, oid: Oid, c: nat, start: nat, disk: PageMap, m: map<PageKey, nat>)
    requires Crashed(base, first, log, c, disk, m) && RedoStart(log, Analyze(log, c).dpt, c, start)
    requires SixLog(base, log, x, oid) && T(oid, 0) in disk && disk[T(oid, 0)].lsn < log[0].lsn
    ensures SixCrash(base, log, x, oid, start, Analyze(log, c).dpt, disk)
  {
    var dpt := Analyze(log, c).dpt;
    CrashReady(base, first, log, c, start, disk, m);
    forall j | 0 <= j < 6 ensures Asked(log, dpt, disk, oid, j) { AllAsked(base, first, log, x, oid, c, disk, m, j); }
    assert Asked(log, dpt, disk, oid, 0) && log[0].lsn < log[3].lsn;
    MissingAsks(log, start, dpt, disk, 3, T(oid, 0));
  }

  lemma SixFresh(s0: Engine, log: seq<LogRec>, oid: Oid, y: Xid)
    requires Init(s0) && s0.tm.nextXid < y < NULL_XID && SixLog(s0.cur, log, s0.tm.nextXid, oid)
    ensures Fresh(s0.cur, log, y)
  {
    forall i | 0 <= i < 11 ensures !OfXid(log[i], y) { if !IsCheckpoint(log[i]) { SixXids(s0.cur, log, s0.tm.nextXid, oid, i); } }
    forall l | HasLoc(s0.cur, l) ensures At(s0.cur, l).xmin != y && At(s0.cur, l).xmax != y { assert Settled(At(s0.cur, l), s0.tm.nextXid); }
  }

  // A crash when the whole log is durable.
  lemma DurableCrash(s: Engine, base: PageMap, first: Xid) returns (c: nat, m: map<PageKey, nat>)
    requires Inv(s) && DiskInv(s) && HistInv(s, base, first) && s.wal.durable == |s.wal.log|
    ensures Crashed(base, first, s.wal.log, c, s.disk, m) && s.wal.log[c].lsn == s.wal.master
  {
    c, m := CrashState(s, base, first);
    assert DurableLog(s) == s.wal.log;
  }

  /** What the run leaves is what five frames leave. */
  lemma SevenState(s0: Engine, oid: Oid, payload: seq<byte>) returns (p: Pooled)
    requires SixStart(s0, oid, payload)
    ensures var ops := SevenInserts(s0.tm.nextXid, oid, payload);
      p == PoolRun(ColdStart(s0), ops) && InPool(p) && FirstFits(ColdStart(s0), ops)
    ensures Ended(s0, p.s, s0.tm.nextXid, oid) && Inv(p.s) && DiskInv(p.s) && HistInv(p.s, s0.cur, s0.tm.nextXid)
  {
    var ops := SevenInserts(s0.tm.nextXid, oid, payload);
    p := PoolRun(ColdStart(s0), ops);
    SevenRun(s0, oid, payload);
    SevenOk(s0.tm.nextXid, oid, payload);
    FiveFrames(s0, ops);
    RunOpsOk(ColdStart(s0), ops);
    RunFacts(s0, RunOps(ColdStart(s0), ops));
  }

  // The first page was not written.
  lemma FirstUnwritten(s0: Engine, s: Engine, x: Xid, oid: Oid)
    requires Init(s0) && Ended(s0, s, x, oid)
    ensures T(oid, 0) in s.disk && s.disk[T(oid, 0)].lsn < s.wal.log[0].lsn
  {
    var b :| CleanWal(s0.wal, b);
  }

  // The row at `l` is committed in the files that `s` leaves, and recovery from
  // the record at `start` gives pages in which `y` does not read it.
  ghost predicate Lost(base: PageMap, s: Engine, c: nat, start: nat, l: Loc, y: Xid, cid: Cid) {
    var log := s.wal.log;
    && s.wal.durable == |log| && c + 2 <= |log| && log[c].lsn == s.wal.master && log[c + 1].EndCheckpointLog?
    && RedoStart(log, Analyze(log, c).dpt, c, start) && Analyze(log, c).att == map[]
    && InsertCommitted(base, log, l) && !DeleteCommitted(base, log, l) && Fresh(base, log, y)
    && !Reads(PagesAfter(log, c, start, [], s.disk), l, y, cid)
  }

  lemma EndedLoses(s0: Engine, s: Engine, oid: Oid, y: Xid, cid: Cid) returns (c: nat, start: nat)
    requires Init(s0) && Ended(s0, s, s0.tm.nextXid, oid) && Inv(s) && DiskInv(s) && HistInv(s, s0.cur, s0.tm.nextXid)
    requires s0.tm.nextXid < y < NULL_XID
    ensures Lost(s0.cur, s, c, start, LostRow(s0.cur, oid), y, cid)
  {
    var x, log, m := s0.tm.nextXid, s.wal.log, map[];
    c, m := DurableCrash(s, s0.cur, x);
    AnalysisDpt(log, c, 11, Analysis(log[c + 1].att, log[c + 1].dpt, 0), s.disk);
    start := RedoStartExists(log, Analyze(log, c).dpt, c, s.disk);
    FirstUnwritten(s0, s, x, oid);
    SixIsCrash(s0.cur, x, log, x, oid, c, start, s.disk, m);
    SixFresh(s0, log, oid, y);
    SixCrashLoses(s0.cur, x, log, x, oid, c, start, s.disk, m, y, cid);
  }

  /** The failing family, down to what is read: from every clean start with six
      one-page tables with room, that run behind five frames, a crash and
      recovery through five frames leave a row that has a durable commit unread
      by every new transaction. */
  lemma SixTablesLoseRow(s0: Engine, oid: Oid, payload: seq<byte>, y: Xid, cid: Cid) returns (c: nat, start: nat)
    requires SixStart(s0, oid, payload) && s0.tm.nextXid < y < NULL_XID
    ensures var ops := SevenInserts(s0.tm.nextXid, oid, payload);
      var p := PoolRun(ColdStart(s0), ops);
      && PoolOpsOk(ops) && FirstFits(ColdStart(s0), ops) && InPool(p) && Bounded(p.s)
      && T(oid, 0) in s0.cur && Lost(s0.cur, p.s, c, start, LostRow(s0.cur, oid), y, cid)
  {
    SevenOk(s0.tm.nextXid, oid, payload);
    var p := SevenState(s0, oid, payload);
    c, start := EndedLoses(s0, p.s, oid, y, cid);
  }

  // ---- one such start -----------------------------------------------------

  function OneRow(payload: seq<byte>): Page { Page(0, NULL_PAGE_ID, [Version(false, 0, NULL_XID, 0, payload)]) }

  // Six tables of one page with one row each.
  function SixTablesStart(oid: Oid, payload: seq<byte>): Engine {
    var p := OneRow(payload);
    var ps := map[T(oid, 0) := p, T(oid, 1) := p, T(oid, 2) := p, T(oid, 3) := p, T(oid, 4) := p, T(oid, 5) := p];
    var rows := set k | k in ps :: Loc(k.oid, Rid(k.page, 0));
    var log := [BeginCheckpointLog(100, NULL_XID, NULL_LSN), EndCheckpointLog(113, NULL_XID, NULL_LSN, map[], map[])];
    Engine(Tm(1, map[], map[]), map[], map[], Wal(log, 2, 142, 113, map[], map[], 100), ps, ps, {},
           map k | k in ps :: 2, map l | l in rows :: l, map l | l in rows :: [l])
  }

  lemma StartPages(oid: Oid, payload: seq<byte>, j: nat)
    requires |payload| <= 50 && j < 6
    ensures OnePage(SixTablesStart(oid, payload), oid, j, payload)
  {
    var ps := SixTablesStart(oid, payload).cur;
    var p := OneRow(payload);
    assert T(oid, j) in ps && ps[T(oid, j)] == p;
    assert p.recs[..0] == [] && UsedBytes(p.recs) == UsedBytes([]) + RecordSize(p.recs[0]);
    assert TableChain.LinkOk(ps, oid + j, 1, 0);
    assert TableChain.ChainOk(ps, oid + j, 1);
  }

  lemma SixTablesStartOk(oid: Oid, payload: seq<byte>)
    requires |payload| <= 50
    ensures SixStart(SixTablesStart(oid, payload), oid, payload)
  {
    var s := SixTablesStart(oid, payload);
    assert CleanWal(s.wal, 100);
    forall j | 0 <= j < 6 ensures OnePage(s, oid, j, payload) { StartPages(oid, payload, j); }
    forall l ensures HasLoc(s.cur, l) <==> l in s.rowOf { StartRows(oid, payload, l); }
  }

  lemma StartRows(oid: Oid, payload: seq<byte>, l: Loc)
    ensures var s := SixTablesStart(oid, payload); HasLoc(s.cur, l) <==> l in s.rowOf
  {
    var s := SixTablesStart(oid, payload);
    if HasLoc(s.cur, l) {
      assert KeyOf(l) in s.cur && l == Loc(KeyOf(l).oid, Rid(KeyOf(l).page, 0));
    }
  }
}
