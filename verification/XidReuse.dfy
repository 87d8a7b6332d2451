/** Which transaction id the first transaction after a restart gets, and what
    happens when it is one that was used before. */
module XidReuse {
  import opened Types
  import opened Lists
  import opened Locks
  import opened Visibility
  import opened Transactions
  import opened Pages
  import opened Wal
  import opened Replay
  import opened Engine
  import opened EngineInv
  import opened EngineRows
  import opened EngineEnds
  import opened EngineDisk
  import opened Recovery
  import opened EngineHistory
  import opened EngineIds
  import opened CrashRecovery
  import opened Caches
  import opened CachedRedo
  import opened RedoWindow
  import opened CachedRecovery
  import opened BufferPools
  import opened CachedPages
  import opened Restarts
  import opened RestartFromDisk
  import LogManagement

  // ---- transaction ids after restart --------------------------------------

  /** Every transaction in the log began in the log. */
  lemma BeganBefore(first: Xid, log: seq<LogRec>, i: nat)
    requires IdsOk(first, log) && i < |log| && !IsCheckpoint(log[i])
    ensures BeginAt(log, |log|, log[i].xid)
  {
    assert IdOk(first, log, i);
    if !log[i].BeginLog? {
      var j :| 0 <= j < i && log[j].BeginLog? && log[j].xid == log[i].xid;
    }
  }

  // Ids are handed out without gaps.
  lemma {:induction false} NoGaps(first: Xid, log: seq<LogRec>, nextXid: Xid, i: nat, x: Xid)
    requires BeginsInOrder(first, log, nextXid)
    requires i < |log| && log[i].BeginLog? && first <= x <= log[i].xid
    ensures BeginAt(log, i + 1, x)
    decreases i
  {
    if x < log[i].xid {
      var j :| 0 <= j < i && log[j].BeginLog? && log[j].xid == log[i].xid - 1;
      NoGaps(first, log, nextXid, j, x);
    }
  }

  /** Every id handed out ahead of the checkpoint is reached by that of some
      record behind it. */
  ghost predicate EchoedAfter(log: seq<LogRec>, c: nat)
    requires c <= |log|
  {
    forall i :: 0 <= i < c && log[i].BeginLog? ==> EchoOf(log, c, log[i].xid)
  }

  ghost predicate EchoOf(log: seq<LogRec>, c: nat, x: Xid) {
    exists j :: c + 2 <= j < |log| && log[j].xid >= x
  }

  // One more id than was ever handed out is still below NULL_XID.
  ghost predicate IdsLeft(first: Xid, log: seq<LogRec>) {
    first < NULL_XID && forall i :: 0 <= i < |log| && log[i].BeginLog? ==> log[i].xid + 1 < NULL_XID
  }

  // The next id is beyond every record behind the checkpoint, and no further than needed.
  lemma NextXidBounds(first: Xid, log: seq<LogRec>, c: nat)
    requires IdsOk(first, log) && IdsLeft(first, log)
    requires c + 2 <= |log| && log[c + 1].EndCheckpointLog?
    requires forall i :: c + 2 <= i < |log| ==> !IsCheckpoint(log[i])
    ensures var n := NextXidAfter(Analyze(log, c), first);
      && first <= n < NULL_XID && (forall j :: c + 2 <= j < |log| ==> log[j].xid < n)
      && (n <= 1 || n == first || exists j :: c + 2 <= j < |log| && log[j].xid == n - 1)
  {
    var a := Analyze(log, c);
    XidMaxBounds(log, c + 2, |log|, Analysis(log[c + 1].att, log[c + 1].dpt, 0));
    if a.xidMax > 0 {
      var j :| c + 2 <= j < |log| && log[j].xid == a.xidMax;
      BeganBefore(first, log, j);
    }
  }

  /** The id the first transaction after restart gets is unused if and only if
      every id handed out before the last checkpoint is reached by a record
      after it: only those records raise it. */
  lemma NextXidFreshIff(base: PageMap, first: Xid, log: seq<LogRec>, c: nat, nextXid: Xid)
    requires BaseOk(base, first) && IdsOk(first, log) && BeginsInOrder(first, log, nextXid) && first > 0 && IdsLeft(first, log)
    requires c + 2 <= |log| && log[c].BeginCheckpointLog? && log[c + 1].EndCheckpointLog?
    requires forall i :: c + 2 <= i < |log| ==> !IsCheckpoint(log[i])
    ensures NextXidAfter(Analyze(log, c), first) < NULL_XID
    ensures Fresh(base, log, NextXidAfter(Analyze(log, c), first)) <==> EchoedAfter(log, c)
  {
    var n := NextXidAfter(Analyze(log, c), first);
    NextXidBounds(first, log, c);
    if EchoedAfter(log, c) {
      forall i | 0 <= i < |log| && log[i].BeginLog? ensures log[i].xid != n {
        if i < c { assert EchoOf(log, c, log[i].xid); }
      }
      forall i | 0 <= i < |log| ensures !OfXid(log[i], n) {
        if OfXid(log[i], n) { BeganBefore(first, log, i); }
      }
    } else {
      var i :| 0 <= i < c && log[i].BeginLog? && !EchoOf(log, c, log[i].xid);
      assert IdOk(first, log, i);
      NoGaps(first, log, nextXid, i, n);
      var j :| 0 <= j < i + 1 && log[j].BeginLog? && log[j].xid == n;
      assert OfXid(log[j], n);
    }
  }

  lemma BeginsPrefix(first: Xid, log: seq<LogRec>, nextXid: Xid, n: nat)
    requires BeginsInOrder(first, log, nextXid) && n <= |log|
    ensures BeginsInOrder(first, log[..n], first)
  {
    var p := log[..n];
    forall i | 0 <= i < |p| && p[i].BeginLog? && p[i].xid > first ensures BeginAt(p, i, p[i].xid - 1) {
      assert BeginAt(log, i, log[i].xid - 1);
      var j :| 0 <= j < i && log[j].BeginLog? && log[j].xid == log[i].xid - 1;
      assert p[j] == log[j];
    }
  }

  lemma IdsLeftPrefix(first: Xid, log: seq<LogRec>, nextXid: Xid, n: nat)
    requires first <= nextXid < NULL_XID && n <= |log| && forall i :: 0 <= i < |log| && log[i].BeginLog? ==> log[i].xid < nextXid
    ensures IdsLeft(first, log[..n])
  {
    forall i | 0 <= i < n && log[..n][i].BeginLog? ensures log[..n][i].xid + 1 < NULL_XID {
      assert log[..n][i] == log[i];
    }
  }

  lemma CrashIdFreshIff(s: Engine, base: PageMap, first: Xid) returns (c: nat)
    requires Inv(s) && DiskInv(s) && BaseOk(base, first) && IdInv(s, first) && first > 0 && s.tm.nextXid < NULL_XID
    ensures s.wal.durable <= |s.wal.log| && c == CheckpointAt(s.wal.log, |s.wal.log|)
    ensures var log := DurableLog(s);
      && c + 2 <= |log| && log[c].lsn == s.wal.master && log[c + 1].EndCheckpointLog?
      && NextXidAfter(Analyze(log, c), first) < NULL_XID
      && (Fresh(base, log, NextXidAfter(Analyze(log, c), first)) <==> EchoedAfter(log, c))
  {
    c := CheckpointAt(s.wal.log, |s.wal.log|);
    CheckpointSurvives(s, c);
    IdsPrefix(first, s.wal.log, s.wal.durable);
    BeginsPrefix(first, s.wal.log, s.tm.nextXid, s.wal.durable);
    IdsLeftPrefix(first, s.wal.log, s.tm.nextXid, s.wal.durable);
    NextXidFreshIff(base, first, DurableLog(s), c, first);
  }

  /** The same for the log that a crash of any run leaves, rollbacks included. */
  lemma RestartIdFreshIff(s0: Engine, ops: seq<Op>) returns (c: nat)
    requires Init(s0) && s0.tm.nextXid > 0 && WritersOk(ops) && Bounded(Run(s0, ops)) && Run(s0, ops).tm.nextXid < NULL_XID
    ensures var s := Run(s0, ops);
      && s.wal.durable <= |s.wal.log| && c == CheckpointAt(s.wal.log, |s.wal.log|)
      && var log := DurableLog(s);
      && c + 2 <= |log| && log[c].lsn == s.wal.master && log[c + 1].EndCheckpointLog?
      && NextXidAfter(Analyze(log, c), s0.tm.nextXid) < NULL_XID
      && (Fresh(s0.cur, log, NextXidAfter(Analyze(log, c), s0.tm.nextXid)) <==> EchoedAfter(log, c))
  {
    InitInv(s0);
    InitDisk(s0);
    InitIds(s0);
    RunDisk(s0, ops);
    RunIds(s0, ops, s0.tm.nextXid);
    c := CrashIdFreshIff(Run(s0, ops), s0.cur, s0.tm.nextXid);
  }

  /** Restart from the files of any run without rollback, then begin: when the
      saved id is the one the run began with, the first transaction afterwards
      gets an unused id if and only if every id handed out before the last
      checkpoint is reached by a record after it. */
  method RestartAndBegin(lm: LogManagement.LogManager, pageDisk: PageDisk, transactionManager: TransactionManager, controlLsn: Lsn,
                             ghost s0: Engine, ghost ops: seq<Op>)
    returns (xid: Xid, restart: Restart, ghost c: nat)
    requires Init(s0) && WritersOk(ops) && Bounded(Run(s0, ops)) && forall i :: 0 <= i < |ops| ==> NoRollback(ops[i])
    requires lm.Valid() && lm.w == Run(s0, ops).wal && RedoKeepsUp(Run(s0, ops))
    requires WholePages(pageDisk.pages) && AllLaidOut(pageDisk.pages) && PagesOf(pageDisk.pages) == Run(s0, ops).disk
    requires transactionManager.nextXid == s0.tm.nextXid > 0 && Run(s0, ops).tm.nextXid < NULL_XID
    modifies lm.disk, pageDisk, transactionManager
    ensures Run(s0, ops).wal.durable <= |Run(s0, ops).wal.log|
    ensures var log := DurableLog(Run(s0, ops));
      c + 2 <= |log| && log[c + 1].EndCheckpointLog? && (Fresh(s0.cur, log, xid) <==> EchoedAfter(log, c))
  {
    ghost var c' := RestartIdFreshIff(s0, ops);
    restart, c := CrashAndRestart(lm, pageDisk, transactionManager, controlLsn, s0, ops);
    xid := transactionManager.Begin();
  }

  // One transaction inserts a row and commits, then a checkpoint is taken.
  function InsertCommitCheckpoint(x: Xid, k: PageKey, payload: seq<byte>): seq<Op> {
    [Begin, Command(x), InsertRow(x, k, payload), Commit(x), TakeCheckpoint]
  }

  lemma RunFive(s: Engine, a: Op, b: Op, c: Op, d: Op, e: Op)
    ensures Run(s, [a, b, c, d, e]) == Step(Step(Step(Step(Step(s, a), b), c), d), e)
  {
    RunStep(s, a, [b, c, d, e]);
    RunStep(Step(s, a), b, [c, d, e]);
    RunStep(Step(Step(s, a), b), c, [d, e]);
    RunStep(Step(Step(Step(s, a), b), c), d, [e]);
    RunStep(Step(Step(Step(Step(s, a), b), c), d), e, []);
  }

  lemma RunStep(s: Engine, a: Op, rest: seq<Op>)
    ensures Run(s, [a] + rest) == Run(Step(s, a), rest)
  {
    assert ([a] + rest)[1..] == rest;
  }

  // Its first two steps leave a running transaction with nothing locked.
  lemma ReuseBegun(s0: Engine, k: PageKey)
    requires Init(s0) && s0.tm.nextXid < NULL_XID
    ensures var x := s0.tm.nextXid;
      var s := Step(Step(s0, Begin), Command(x));
      && Running(s, x) && s.cmd[x] == FIRST_CID && s.cur == s0.cur && s.locks == map[]
      && s.wal == AppendBegin(s0.wal, x)
      && LockTableOk(s.locks, x, IX, k.oid)
  {
  }

  lemma ReuseInserted(s: Engine, x: Xid, k: PageKey, payload: seq<byte>)
    requires Running(s, x) && Fits(s, k, payload) && LockTableOk(s.locks, x, IX, k.oid)
    ensures var t := StepInsert(s, x, k, payload);
      && Running(t, x)
      && t.wal.log == s.wal.log + [InsertRec(s, x, k, payload)]
      && Inserts(InsertRec(s, x, k, payload), NextLoc(s.cur, k))
      && InsertRec(s, x, k, payload).rec.cid == s.cmd[x]
  {
  }

  // The log of `w`, then a commit record, then a checkpoint, all durable.
  ghost predicate EndedLog(w: Wal, x: Xid, u: Wal) {
    && |u.log| == |w.log| + 3 && u.durable == |u.log|
    && (forall i :: 0 <= i < |w.log| ==> u.log[i] == w.log[i])
    && u.log[|w.log|].CommitLog? && u.log[|w.log|].xid == x
    && u.log[|w.log| + 1].BeginCheckpointLog? && u.log[|w.log| + 2].EndCheckpointLog?
  }

  lemma ReuseEndedWal(w: Wal, x: Xid)
    requires WalInv(w) && x in w.att && Checkpoint(AppendEnd(w, x, true)).nextLsn <= NULL_LSN && w.nextLsn + 13 <= NULL_LSN
    ensures EndedLog(w, x, Checkpoint(AppendEnd(w, x, true)))
  {
    AppendEndFacts(w, x, true);
    var e := AppendEnd(w, x, true);
    CheckpointFacts(e);
    var u := Checkpoint(e);
    forall i | 0 <= i < |e.log| ensures u.log[i] == e.log[i] {
      assert u.log[..|e.log|][i] == e.log[i];
    }
  }

  lemma CheckpointGrows(w: Wal)
    ensures w.nextLsn <= Checkpoint(w).nextLsn
  {
    var b := Push(w, BeginCheckpointLog(w.nextLsn, NULL_XID, NULL_LSN));
    FlushKeepsNext(Push(b, EndCheckpointLog(b.nextLsn, NULL_XID, NULL_LSN, w.att, w.dpt)), b.nextLsn);
  }

  lemma ReuseEnded(s: Engine, x: Xid)
    requires Inv(s) && Running(s, x) && Bounded(Step(Step(s, Commit(x)), TakeCheckpoint))
    ensures EndedLog(s.wal, x, Step(Step(s, Commit(x)), TakeCheckpoint).wal)
  {
    CheckpointGrows(AppendEnd(s.wal, x, true));
    EndNextLsn(s.wal, x, true);
    ReuseEndedWal(s.wal, x);
  }

  lemma ThreeInv(s: Engine, a: Op, b: Op, c: Op)
    requires Inv(s) && WriterOk(a) && WriterOk(b) && WriterOk(c) && Bounded(Step(Step(Step(s, a), b), c))
    ensures Inv(Step(Step(Step(s, a), b), c))
  {
    var s1 := Step(s, a);
    var s2 := Step(s1, b);
    StepGrows(s1, b);
    StepGrows(s2, c);
    StepInv(s, a);
    StepInv(s1, b);
    StepInv(s2, c);
  }

  /** What that run logs. */
  ghost predicate ReuseLog(log: seq<LogRec>, x: Xid, l: Loc) {
    && |log| == 7 && IsCheckpoint(log[0]) && IsCheckpoint(log[1])
    && log[2].BeginLog? && log[2].xid == x
    && Inserts(log[3], l) && log[3].xid == x && log[3].rec.cid == FIRST_CID
    && log[4].CommitLog? && log[4].xid == x
    && log[5].BeginCheckpointLog? && log[6].EndCheckpointLog?
  }

  lemma ReuseInv(s0: Engine, k: PageKey, payload: seq<byte>)
    requires Init(s0) && Fits(s0, k, payload) && s0.tm.nextXid < NULL_XID
    requires Bounded(Run(s0, InsertCommitCheckpoint(s0.tm.nextXid, k, payload)))
    ensures var x := s0.tm.nextXid;
      var s3 := Step(Step(Step(s0, Begin), Command(x)), InsertRow(x, k, payload));
      Inv(s3) && Run(s0, InsertCommitCheckpoint(x, k, payload)) == Step(Step(s3, Commit(x)), TakeCheckpoint)
  {
    var x := s0.tm.nextXid;
    var ops := InsertCommitCheckpoint(x, k, payload);
    RunFive(s0, ops[0], ops[1], ops[2], ops[3], ops[4]);
    var s3 := Step(Step(Step(s0, Begin), Command(x)), InsertRow(x, k, payload));
    InitInv(s0);
    StepGrows(s3, ops[3]);
    StepGrows(Step(s3, ops[3]), ops[4]);
    ThreeInv(s0, ops[0], ops[1], ops[2]);
  }

  lemma ReuseShape(w0: Wal, w2: Wal, w3: Wal, u: Wal, x: Xid, r: LogRec, l: Loc)
    requires |w0.log| == 2 && IsCheckpoint(w0.log[0]) && IsCheckpoint(w0.log[1]) && w2 == AppendBegin(w0, x)
    requires w3.log == w2.log + [r] && Inserts(r, l) && r.xid == x && r.rec.cid == FIRST_CID
    requires EndedLog(w3, x, u)
    ensures ReuseLog(u.log, x, l) && u.durable == 7
  {
    assert u.log[0] == w3.log[0] && u.log[1] == w3.log[1] && u.log[2] == w3.log[2] && u.log[3] == w3.log[3];
  }

  lemma ReuseWals(s0: Engine, k: PageKey, payload: seq<byte>) returns (s2: Engine, s3: Engine)
    requires Init(s0) && Fits(s0, k, payload) && s0.tm.nextXid < NULL_XID
    requires Bounded(Run(s0, InsertCommitCheckpoint(s0.tm.nextXid, k, payload)))
    ensures var x := s0.tm.nextXid;
      && |s0.wal.log| == 2 && IsCheckpoint(s0.wal.log[0]) && IsCheckpoint(s0.wal.log[1]) && s2.wal == AppendBegin(s0.wal, x) && s2.cur == s0.cur
      && Running(s2, x) && Fits(s2, k, payload) && s2.cmd[x] == FIRST_CID
      && Inserts(InsertRec(s2, x, k, payload), NextLoc(s0.cur, k))
      && s3.wal.log == s2.wal.log + [InsertRec(s2, x, k, payload)]
      && EndedLog(s3.wal, x, Run(s0, InsertCommitCheckpoint(x, k, payload)).wal)
  {
    var x := s0.tm.nextXid;
    s2 := Step(Step(s0, Begin), Command(x));
    s3 := StepInsert(s2, x, k, payload);
    ReuseBegun(s0, k);
    ReuseInserted(s2, x, k, payload);
    assert Step(s2, InsertRow(x, k, payload)) == s3;
    ReuseInv(s0, k, payload);
    ReuseEnded(s3, x);
  }

  lemma ReuseRun(s0: Engine, k: PageKey, payload: seq<byte>)
    requires Init(s0) && Fits(s0, k, payload) && s0.tm.nextXid < NULL_XID
    requires Bounded(Run(s0, InsertCommitCheckpoint(s0.tm.nextXid, k, payload)))
    ensures var x := s0.tm.nextXid;
      var w := Run(s0, InsertCommitCheckpoint(x, k, payload)).wal;
      ReuseLog(w.log, x, NextLoc(s0.cur, k)) && w.durable == 7
  {
    var x := s0.tm.nextXid;
    var u := Run(s0, InsertCommitCheckpoint(x, k, payload)).wal;
    var s2, s3 := ReuseWals(s0, k, payload);
    ReuseShape(s0.wal, s2.wal, s3.wal, u, x, InsertRec(s2, x, k, payload), NextLoc(s0.cur, k));
  }

  /** The failing family: from any clean start, insert a row, commit, take a
      checkpoint and crash.  Restart hands out the inserter's id again, and the
      first command of that transaction does not see the committed row. */
  lemma ReusedIdHidesCommittedRow(s0: Engine, k: PageKey, payload: seq<byte>) returns (start: nat)
    requires Init(s0) && Fits(s0, k, payload) && 1 <= s0.tm.nextXid < NULL_XID
    requires var s := Run(s0, InsertCommitCheckpoint(s0.tm.nextXid, k, payload));
      && Bounded(s) && s.wal.durable <= |s.wal.log|
    ensures var s := Run(s0, InsertCommitCheckpoint(s0.tm.nextXid, k, payload));
      var log := DurableLog(s);
      var l := NextLoc(s0.cur, k);
      && |log| == 7 && log[6].EndCheckpointLog? && log[5].lsn == s.wal.master
      && var x := NextXidAfter(Analyze(log, 5), s0.tm.nextXid);
      && x == s0.tm.nextXid && !EchoedAfter(log, 5)
      && Enumerates([], Analyze(log, 5).att) && RedoStart(log, Analyze(log, 5).dpt, 5, start)
      && InsertCommitted(s0.cur, log, l) && !DeleteCommitted(s0.cur, log, l)
      && !Reads(PagesAfter(log, 5, start, [], s.disk), l, x, FIRST_CID)
  {
    var ops := InsertCommitCheckpoint(s0.tm.nextXid, k, payload);
    ReuseRun(s0, k, payload);
    start := ReuseCrash(s0, ops, NextLoc(s0.cur, k));
  }

  lemma ReuseCrash(s0: Engine, ops: seq<Op>, l: Loc) returns (start: nat)
    requires Init(s0) && WritersOk(ops) && Bounded(Run(s0, ops)) && 1 <= s0.tm.nextXid < NULL_XID
    requires forall i :: 0 <= i < |ops| ==> NoRollback(ops[i])
    requires ReuseLog(Run(s0, ops).wal.log, s0.tm.nextXid, l) && Run(s0, ops).wal.durable == 7 && !InBase(s0.cur, l)
    ensures var s := Run(s0, ops);
      var x := s0.tm.nextXid;
      var log := DurableLog(s);
      && |log| == 7 && log[6].EndCheckpointLog? && log[5].lsn == s.wal.master
      && NextXidAfter(Analyze(log, 5), x) == x && !EchoedAfter(log, 5)
      && Enumerates([], Analyze(log, 5).att) && RedoStart(log, Analyze(log, 5).dpt, 5, start)
      && InsertCommitted(s0.cur, log, l) && !DeleteCommitted(s0.cur, log, l)
      && !Reads(PagesAfter(log, 5, start, [], s.disk), l, x, FIRST_CID)
  {
    var s := Run(s0, ops);
    var x := s0.tm.nextXid;
    RunFacts(s0, ops);
    var log := DurableLog(s);
    assert log == s.wal.log;
    var c, m := CrashState(s, s0.cur, x);
    assert c == 5;
    start := ReuseHides(s0.cur, x, log, s.disk, m, l);
  }

  // Redo asks for one page.
  lemma ReuseKeepsUp(log: seq<LogRec>, x: Xid, l: Loc, i: nat, dpt: map<PageKey, Lsn>, disk: PageMap)
    requires ReuseLog(log, x, l) && Ready(log, i, dpt, disk)
    ensures KeepsUp(log, dpt, disk)
  {
    forall k | k in Asked(log, dpt) ensures k == KeyOf(l) {
      var h :| 0 <= h < 7 && Asks(log[h], dpt) && KeyOfRec(log[h]) == k;
    }
    SubsetCard(Asked(log, dpt), {KeyOf(l)});
    FewPagesKeepUp(log, i, dpt, disk);
  }

  lemma ReuseHides(base: PageMap, x: Xid, log: seq<LogRec>, disk: PageMap, m: map<PageKey, nat>, l: Loc) returns (start: nat)
    requires Crashed(base, x, log, 5, disk, m) && ReuseLog(log, x, l) && !InBase(base, l) && 1 <= x < NULL_XID
    ensures NextXidAfter(Analyze(log, 5), x) == x && !EchoedAfter(log, 5)
    ensures Enumerates([], Analyze(log, 5).att) && RedoStart(log, Analyze(log, 5).dpt, 5, start)
    ensures InsertCommitted(base, log, l) && !DeleteCommitted(base, log, l)
    ensures !Reads(PagesAfter(log, 5, start, [], disk), l, x, FIRST_CID)
  {
    var a := Analysis(log[6].att, log[6].dpt, 0);
    ReuseAtt(log, x, l);
    AnalysisAtt(log, 5, 7, a);
    AnalysisDpt(log, 5, 7, a, disk);
    assert Committed(log, 7, x) by { assert log[4].CommitLog?; }
    assert Inserts(log[3], l);
    assert !EchoOf(log, 5, log[2].xid);
    start := RedoStartExists(log, Analyze(log, 5).dpt, 5, disk);
    ReuseRestart(base, x, log, disk, m, l, start);
  }

  lemma ReuseRestart(base: PageMap, x: Xid, log: seq<LogRec>, disk: PageMap, m: map<PageKey, nat>, l: Loc, start: nat)
    requires Crashed(base, x, log, 5, disk, m) && ReuseLog(log, x, l) && 1 <= x < NULL_XID
    requires RedoStart(log, Analyze(log, 5).dpt, 5, start) && Enumerates([], Analyze(log, 5).att)
    ensures !Reads(PagesAfter(log, 5, start, [], disk), l, x, FIRST_CID)
  {
    CrashReady(base, x, log, 5, start, disk, m);
    ReuseKeepsUp(log, x, l, start, Analyze(log, 5).dpt, disk);
    RestartSeesCommitted(base, x, log, 5, start, [], disk, m, x, FIRST_CID, l);
    RecoveredIsFlat(base, x, log, 5, start, [], disk, m);
    RecoveredAt(base, x, log, 5, start, [], disk, m, l);
    ReplayTells(base, x, log, 7, l);
    assert Inserts(log[3], l);
  }

  lemma ReuseAtt(log: seq<LogRec>, x: Xid, l: Loc)
    requires ReuseLog(log, x, l)
    ensures AttOf(log, 7) == map[]
  {
    assert AttOf(log, 2) == AttOf(log, 1) == AttOf(log, 0) == map[];
    assert AttOf(log, 4).Keys == {x};
    assert AttOf(log, 5) == map[];
  }
}
