/** What a crash leaves at any point of a run, and what analysis, redo and undo
    make of it on a page map. */
module CrashRecovery {
  import opened Types
  import opened Locks
  import opened Visibility
  import opened Transactions
  import opened Pages
  import opened Wal
  import opened Replay
  import opened Engine
  import opened EngineInv
  import opened EngineRows
  import opened EngineEnds
  import opened EngineDisk
  import opened Recovery
  import opened EngineHistory

  // What survives a crash of the log: its durable prefix.
  function DurableLog(s: Engine): seq<LogRec>
    requires s.wal.durable <= |s.wal.log|
  {
    s.wal.log[..s.wal.durable]
  }

  // ---- analysis -----------------------------------------------------------

  /** Analysis rebuilds the active-transaction table of the durable log. */
  lemma {:induction false} AnalysisAtt(log: seq<LogRec>, c: nat, n: nat, a: Analysis)
    requires c + 2 <= n <= |log| && IsCheckpoint(log[c]) && IsCheckpoint(log[c + 1])
    requires forall i :: c + 2 <= i < n ==> !IsCheckpoint(log[i])
    requires a.att == AttOf(log, c)
    ensures AnalyzeTo(log, c + 2, n, a).att == AttOf(log, n)
    decreases n
  {
    if n == c + 2 {
      assert AttOf(log, c + 2) == AttOf(log, c + 1) == AttOf(log, c);
    } else {
      AnalysisAtt(log, c, n - 1, a);
    }
  }

  ghost predicate Ordered(log: seq<LogRec>) {
    forall i, j :: 0 <= i < j < |log| ==> log[i].lsn < log[j].lsn
  }

  /** Analysis rebuilds a dirty-page table that announces every durable record
      the disk images lack. */
  lemma {:induction false} AnalysisDpt(log: seq<LogRec>, c: nat, n: nat, a: Analysis, disk: PageMap)
    requires c + 2 <= n <= |log| && IsCheckpoint(log[c]) && IsCheckpoint(log[c + 1]) && Ordered(log)
    requires TableGood(a.dpt, log, c, disk)
    ensures TableGood(AnalyzeTo(log, c + 2, n, a).dpt, log, n, disk)
    decreases n
  {
    var d := AnalyzeTo(log, c + 2, n, a).dpt;
    if n > c + 2 {
      AnalysisDpt(log, c, n - 1, a, disk);
      var b := AnalyzeTo(log, c + 2, n - 1, a);
      forall k ensures Covers(d, log, n, disk, k) && PointsInto(d, log, n, k) {
        assert Covers(b.dpt, log, n - 1, disk, k) && PointsInto(b.dpt, log, n - 1, k);
        AnalysisDptStep(log, n, b, disk, k);
      }
    } else {
      forall k ensures Covers(d, log, n, disk, k) && PointsInto(d, log, n, k) {
        assert Covers(a.dpt, log, c, disk, k) && PointsInto(a.dpt, log, c, k);
      }
    }
  }

  lemma AnalysisDptStep(log: seq<LogRec>, n: nat, b: Analysis, disk: PageMap, k: PageKey)
    requires 0 < n <= |log| && Ordered(log)
    requires Covers(b.dpt, log, n - 1, disk, k) && PointsInto(b.dpt, log, n - 1, k)
    ensures Covers(AnalyzeRec(b, log[n - 1]).dpt, log, n, disk, k) && PointsInto(AnalyzeRec(b, log[n - 1]).dpt, log, n, k)
  {
    var d := AnalyzeRec(b, log[n - 1]).dpt;
    if k in b.dpt {
      var i :| 0 <= i < n - 1 && log[i].lsn == b.dpt[k];
      assert d[k] == log[i].lsn;
    } else if k in d {
      assert d[k] == log[n - 1].lsn;
    }
  }

  // ---- the state a crash leaves -------------------------------------------

  // Every row record is about a page the run began with.
  predicate OnBase(base: PageMap, log: seq<LogRec>) {
    forall i :: 0 <= i < |log| && IsRowRec(log[i]) ==> KeyOfRec(log[i]) in base
  }

  /** What restart finds: the durable log ending in a known checkpoint, disk
      images that are prefixes of history, and tables that cover the rest. */
  ghost predicate Crashed(base: PageMap, first: Xid, log: seq<LogRec>, c: nat, disk: PageMap, m: map<PageKey, nat>) {
    && AllDisciplined(base, first, log) && Ordered(log)
    && c + 2 <= |log| && log[c].BeginCheckpointLog? && log[c + 1].EndCheckpointLog?
    && (forall i :: c + 2 <= i < |log| ==> !IsCheckpoint(log[i]))
    && log[c + 1].att == AttOf(log, c)
    && TableGood(log[c + 1].dpt, log, c, disk)
    && OnBase(base, log)
    && disk.Keys == base.Keys
    && (forall k :: k in disk ==> k in m && ImageOk(base, log, disk, k, m[k]))
  }

  // The disk image is as good a prefix of the durable log as it was of the whole log.
  lemma ImageTruncated(base: PageMap, log: seq<LogRec>, d: nat, disk: PageMap, k: PageKey, m: nat)
    requires d <= |log| && ImageOk(base, log, disk, k, m)
    requires forall i :: 0 <= i < |log| && log[i].lsn <= disk[k].lsn ==> i < d
    ensures ImageOk(base, log[..d], disk, k, if m < d then m else d)
  {
    var p := log[..d];
    var m' := if m < d then m else d;
    assert p[..m'] == log[..m'];
    ReplaySame(BaseRecs(base, k), p, log, m', k);
    if d < m {
      ReplaySkip(BaseRecs(base, k), log, d, m, k);
    }
  }

  // The checkpoint the master record names is part of what survives.
  lemma CheckpointSurvives(s: Engine, c: nat)
    requires CheckpointOk(s) && c == CheckpointAt(s.wal.log, |s.wal.log|)
    ensures var p := DurableLog(s);
      && c + 2 <= |p| && p[c].BeginCheckpointLog? && p[c].lsn == s.wal.master && p[c + 1].EndCheckpointLog?
      && p[c + 1].att == AttOf(p, c)
      && TableGood(p[c + 1].dpt, p, c, s.disk)
      && (forall i :: c + 2 <= i < |p| ==> !IsCheckpoint(p[i]))
  {
    var log := s.wal.log;
    var p := DurableLog(s);
    var dpt := log[c + 1].dpt;
    assert p[..c] == log[..c];
    PrefixSame(p, log, c, 0);
    assert p[c + 1] == log[c + 1];
    forall k ensures Covers(dpt, p, c, s.disk, k) && PointsInto(dpt, p, c, k) {
      assert Covers(dpt, log, c, s.disk, k) && PointsInto(dpt, log, c, k);
      CoversSame(dpt, log, p, c, s.disk, s.disk, k);
    }
  }

  function WrittenBefore(s: Engine, k: PageKey): nat {
    if k in s.writtenAt && s.writtenAt[k] < s.wal.durable then s.writtenAt[k] else s.wal.durable
  }

  lemma ImagesSurvive(s: Engine, base: PageMap, k: PageKey)
    requires s.wal.durable <= |s.wal.log| && k in s.disk && DiskIsReplay(s, base, k) && LogBeforePage(s, k)
    ensures ImageOk(base, DurableLog(s), s.disk, k, WrittenBefore(s, k))
  {
    ImageTruncated(base, s.wal.log, s.wal.durable, s.disk, k, s.writtenAt[k]);
  }

  lemma LogOnBase(s: Engine, base: PageMap)
    requires LogXidsOk(s) && base.Keys == s.cur.Keys && s.wal.durable <= |s.wal.log|
    ensures OnBase(base, DurableLog(s)) && Ordered(DurableLog(s))
  {
    LsnOrders(s.wal.log, s.wal.nextLsn);
    forall i | 0 <= i < |DurableLog(s)| && IsRowRec(DurableLog(s)[i]) ensures KeyOfRec(DurableLog(s)[i]) in base {
      assert HasLoc(s.cur, LocOfRec(s.wal.log[i]));
    }
  }

  /** A crash at any state of a run leaves what recovery needs. */
  lemma CrashState(s: Engine, base: PageMap, first: Xid) returns (c: nat, m: map<PageKey, nat>)
    requires Inv(s) && DiskInv(s) && HistInv(s, base, first)
    ensures c == CheckpointAt(s.wal.log, |s.wal.log|)
    ensures Crashed(base, first, DurableLog(s), c, s.disk, m)
    ensures DurableLog(s)[c].lsn == s.wal.master
  {
    c := CheckpointAt(s.wal.log, |s.wal.log|);
    m := map k | k in s.disk :: WrittenBefore(s, k);
    DisciplinedPrefix(base, first, s.wal.log, s.wal.durable);
    CheckpointSurvives(s, c);
    LogOnBase(s, base);
    forall k | k in s.disk ensures ImageOk(base, DurableLog(s), s.disk, k, m[k]) {
      assert DiskIsReplay(s, base, k) && LogBeforePage(s, k);
      ImagesSurvive(s, base, k);
    }
  }

  // ---- recovery -----------------------------------------------------------

  /** The position redo starts at: that of the least dirty-page entry, or of
      the checkpoint when the table is empty. */
  ghost predicate RedoStart(log: seq<LogRec>, dpt: map<PageKey, Lsn>, c: nat, i: nat) {
    && i < |log|
    && (if dpt == map[] then i == c
        else (exists k :: k in dpt && dpt[k] == log[i].lsn) && (forall k :: k in dpt ==> log[i].lsn <= dpt[k]))
  }

  /** The losers, each once, in some order. */
  ghost predicate Enumerates(order: seq<Xid>, att: map<Xid, Lsn>) {
    && (forall i, j :: 0 <= i < j < |order| ==> order[i] != order[j])
    && (forall x :: x in order <==> x in att)
  }

  function Recovered(log: seq<LogRec>, c: nat, start: nat, order: seq<Xid>, disk: PageMap): PageMap
    requires c + 2 <= |log| && log[c + 1].EndCheckpointLog? && start <= |log|
  {
    UndoAll(log, order, RedoFrom(log, start, |log|, Analyze(log, c).dpt, disk))
  }

  lemma {:induction false} RedoKeepsKeys(log: seq<LogRec>, i: nat, n: nat, dpt: map<PageKey, Lsn>, ps: PageMap)
    requires i <= n <= |log|
    ensures RedoFrom(log, i, n, dpt, ps).Keys == ps.Keys
    decreases n - i
  {
    if i < n {
      RedoKeepsKeys(log, i + 1, n, dpt, RedoRec(log[i], dpt, ps));
    }
  }

  /** After analysis and redo every page equals the replay of the whole
      durable log over the pages the run began with. */
  lemma RedoneIsReplay(base: PageMap, first: Xid, log: seq<LogRec>, c: nat, start: nat, disk: PageMap, m: map<PageKey, nat>, l: Loc)
    requires Crashed(base, first, log, c, disk, m)
    requires RedoStart(log, Analyze(log, c).dpt, c, start)
    ensures Analyze(log, c).att == AttOf(log, |log|)
    ensures Replayed(base, log, RedoFrom(log, start, |log|, Analyze(log, c).dpt, disk), l)
  {
    var a := Analysis(log[c + 1].att, log[c + 1].dpt, 0);
    var dpt := Analyze(log, c).dpt;
    var k := KeyOf(l);
    AnalysisAtt(log, c, |log|, a);
    AnalysisDpt(log, c, |log|, a, disk);
    assert Covers(dpt, log, |log|, disk, k);
    RedoKeepsKeys(log, start, |log|, dpt, disk);
    if k in disk {
      RedoMayStartLate(base, log, start, dpt, disk, k, m[k]);
      RedoRepeatsHistory(base, log, start, dpt, disk, disk, k, m[k]);
    } else {
      NoRecordOffBase(base, first, log, |log|, k);
    }
  }

  // No record is ever logged for a page the run did not start with.
  lemma {:induction false} NoRecordOffBase(base: PageMap, first: Xid, log: seq<LogRec>, n: nat, k: PageKey)
    requires AllDisciplined(base, first, log) && n <= |log| && k !in base
    requires OnBase(base, log)
    ensures After(base, log, n, k) == []
  {
    if n > 0 { NoRecordOffBase(base, first, log, n - 1, k); }
  }

  // ---- restart ------------------------------------------------------------

  // The first position at or after `i` whose LSN is a dirty-page entry.
  lemma {:induction false} FirstEntry(log: seq<LogRec>, dpt: map<PageKey, Lsn>, i: nat, j: nat, k: PageKey) returns (p: nat)
    requires i <= j < |log| && k in dpt && dpt[k] == log[j].lsn
    requires forall h, g :: 0 <= h < i && g in dpt ==> dpt[g] != log[h].lsn
    ensures p < |log| && (exists g :: g in dpt && dpt[g] == log[p].lsn)
    ensures forall h, g :: 0 <= h < p && g in dpt ==> dpt[g] != log[h].lsn
    decreases j - i
  {
    if exists g :: g in dpt && dpt[g] == log[i].lsn {
      p := i;
    } else {
      p := FirstEntry(log, dpt, i + 1, j, k);
    }
  }

  /** Redo always has a record to start at. */
  lemma RedoStartExists(log: seq<LogRec>, dpt: map<PageKey, Lsn>, c: nat, disk: PageMap) returns (start: nat)
    requires Ordered(log) && c < |log| && TableGood(dpt, log, |log|, disk)
    ensures RedoStart(log, dpt, c, start)
  {
    if dpt == map[] { return c; }
    var k :| k in dpt;
    assert PointsInto(dpt, log, |log|, k);
    var j :| 0 <= j < |log| && log[j].lsn == dpt[k];
    start := FirstEntry(log, dpt, 0, j, k);
    forall g | g in dpt ensures log[start].lsn <= dpt[g] {
      assert PointsInto(dpt, log, |log|, g);
      var h :| 0 <= h < |log| && log[h].lsn == dpt[g];
    }
  }

  lemma RecoveredAt(base: PageMap, first: Xid, log: seq<LogRec>, c: nat, start: nat, order: seq<Xid>, disk: PageMap, m: map<PageKey, nat>, l: Loc)
    requires Crashed(base, first, log, c, disk, m)
    requires RedoStart(log, Analyze(log, c).dpt, c, start)
    requires Enumerates(order, Analyze(log, c).att)
    ensures var ps := Recovered(log, c, start, order, disk);
      && (HasLoc(ps, l) <==> Exists(base, log, |log|, l))
      && (HasLoc(ps, l) ==> At(ps, l) == Undone(Now(base, log, |log|, l), AttOf(log, |log|).Keys))
  {
    RedoneIsReplay(base, first, log, c, start, disk, m, l);
    assert forall i :: 0 <= i < |order| ==> order[i] in AttOf(log, |log|);
    assert (set x | x in order) == AttOf(log, |log|).Keys;
    UndoAllAt(base, first, log, order, RedoFrom(log, start, |log|, Analyze(log, c).dpt, disk), l);
  }

  // A new transaction reads the row at `l`.
  predicate Reads(ps: PageMap, l: Loc, x: Xid, cid: Cid) {
    HasLoc(ps, l) && Visible(At(ps, l), x, cid, READ_COMMITTED, {x})
  }

  /** After redo and undo on a page map a new transaction sees a row exactly when
      its insert is committed and its delete is not, with the bytes that were
      inserted, unless its id and command id are those in the row's header. */
  lemma FlatRestart(base: PageMap, first: Xid, log: seq<LogRec>, c: nat, start: nat, order: seq<Xid>, disk: PageMap, m: map<PageKey, nat>,
                             x: Xid, cid: Cid, l: Loc)
    requires Crashed(base, first, log, c, disk, m)
    requires RedoStart(log, Analyze(log, c).dpt, c, start)
    requires Enumerates(order, Analyze(log, c).att)
    requires x < NULL_XID
    ensures var ps := Recovered(log, c, start, order, disk);
      && (Reads(ps, l, x, cid) <==>
            InsertCommitted(base, log, l) && !DeleteCommitted(base, log, l) && HasLoc(ps, l) && !OwnCommand(At(ps, l), x, cid))
      && (Fresh(base, log, x) ==> (Reads(ps, l, x, cid) <==> InsertCommitted(base, log, l) && !DeleteCommitted(base, log, l)))
      && (HasLoc(ps, l) && InBase(base, l) ==> At(ps, l).payload == At(base, l).payload)
      && (HasLoc(ps, l) ==> forall i :: 0 <= i < |log| && Inserts(log[i], l) ==> At(ps, l).payload == log[i].rec.payload)
  {
    RecoveredAt(base, first, log, c, start, order, disk, m, l);
    ReplayTells(base, first, log, |log|, l);
    if Exists(base, log, |log|, l) {
      UndoneVisible(base, first, log, |log|, Now(base, log, |log|, l), l, x, cid);
      if Fresh(base, log, x) {
        FreshIsNotOwner(base, first, log, |log|, Now(base, log, |log|, l), l, x, cid);
      }
    }
  }

  lemma RunFacts(s0: Engine, ops: seq<Op>)
    requires Init(s0) && WritersOk(ops) && Bounded(Run(s0, ops))
    requires forall i :: 0 <= i < |ops| ==> NoRollback(ops[i])
    ensures Inv(Run(s0, ops)) && DiskInv(Run(s0, ops)) && HistInv(Run(s0, ops), s0.cur, s0.tm.nextXid)
  {
    InitInv(s0);
    InitDisk(s0);
    InitHist(s0);
    RunHist(s0, ops, s0.cur, s0.tm.nextXid);
  }

  // ---- a commit that returned survives ------------------------------------

  /** The log only grows, and what is durable stays durable. */
  predicate LogGrew(s: Engine, t: Engine) {
    && |s.wal.log| <= |t.wal.log| && t.wal.log[..|s.wal.log|] == s.wal.log
    && s.wal.durable <= t.wal.durable
  }

  lemma LogGrewTwice(s: Engine, t: Engine, u: Engine)
    requires LogGrew(s, t) && LogGrew(t, u)
    ensures LogGrew(s, u)
  {
    assert u.wal.log[..|s.wal.log|] == u.wal.log[..|t.wal.log|][..|s.wal.log|];
  }

  lemma InsertStepLogGrew(s: Engine, x: Xid, k: PageKey, payload: seq<byte>)
    ensures LogGrew(s, StepInsert(s, x, k, payload))
  {
    if Running(s, x) && Fits(s, k, payload) && LockTableOk(s.locks, x, IX, k.oid) {
      InsertLogGrew(WithLocks(s, AfterLockTable(s.locks, x, IX, k.oid)), x, k, payload, NextLoc(s.cur, k));
    }
  }

  lemma DeleteStepLogGrew(s: Engine, x: Xid, iso: Isolation, l: Loc)
    ensures LogGrew(s, StepDelete(s, x, iso, l))
  {
    if Running(s, x) && HasLoc(s.cur, l) && ScanAndLock(s, x, iso, l).1 {
      DeleteLogGrew(ScanAndLock(s, x, iso, l).0, x, l);
    }
  }

  lemma DeleteLogGrew(s: Engine, x: Xid, l: Loc)
    requires x in s.wal.att && HasLoc(s.cur, l)
    ensures LogGrew(s, DoDelete(s, x, l))
  {
  }

  lemma InsertLogGrew(s: Engine, x: Xid, k: PageKey, payload: seq<byte>, row: Loc)
    requires x in s.wal.att && x in s.cmd && Fits(s, k, payload)
    ensures LogGrew(s, DoInsert(s, x, k, payload, row))
  {
  }

  lemma UpdateLogGrew(s: Engine, x: Xid, iso: Isolation, l: Loc, k: PageKey, payload: seq<byte>)
    ensures LogGrew(s, StepUpdate(s, x, iso, l, k, payload))
  {
    if Running(s, x) && HasLoc(s.cur, l) && k.oid == l.oid && Fits(s, k, payload) && l in s.rowOf {
      var (s1, go) := ScanAndLock(s, x, iso, l);
      if go {
        UsedSame(s.cur, l, x, k, s.wal.nextLsn);
        var s2 := DoDelete(s1, x, l);
        DeleteLogGrew(s1, x, l);
        InsertLogGrew(s2, x, k, payload, s.rowOf[l]);
        LogGrewTwice(s1, s2, DoInsert(s2, x, k, payload, s.rowOf[l]));
      }
    }
  }

  lemma EndLogGrew(w: Wal, x: Xid, commit: bool)
    requires x in w.att
    ensures var e := AppendEnd(w, x, commit);
      |w.log| <= |e.log| && e.log[..|w.log|] == w.log && w.durable <= e.durable
  {
    assert FlushTo(Push(w, EndRec(w, x, commit)), w.nextLsn).log == w.log + [EndRec(w, x, commit)];
  }

  lemma CommitLogGrew(s: Engine, x: Xid)
    ensures LogGrew(s, StepCommit(s, x))
  {
    if x in s.wal.att { EndLogGrew(s.wal, x, true); }
  }

  lemma RollbackLogGrew(s: Engine, x: Xid)
    ensures LogGrew(s, StepRollback(s, x))
  {
    if x in s.wal.att { EndLogGrew(s.wal, x, false); }
  }

  lemma BackgroundLogGrew(s: Engine, op: Op)
    requires op.Evict? || op.FlushLog? || op.TakeCheckpoint?
    ensures LogGrew(s, Step(s, op))
  {
    if op.TakeCheckpoint? {
      var b := Push(s.wal, BeginCheckpointLog(s.wal.nextLsn, NULL_XID, NULL_LSN));
      var e := Push(b, EndCheckpointLog(b.nextLsn, NULL_XID, NULL_LSN, s.wal.att, s.wal.dpt));
      assert FlushTo(e, b.nextLsn).log == e.log;
    }
  }

  lemma StepLogGrew(s: Engine, op: Op)
    ensures LogGrew(s, Step(s, op))
  {
    match op {
      case InsertRow(x, k, payload) => InsertStepLogGrew(s, x, k, payload);
      case DeleteRow(x, iso, l) => DeleteStepLogGrew(s, x, iso, l);
      case UpdateRow(x, iso, l, k, payload) => UpdateLogGrew(s, x, iso, l, k, payload);
      case Commit(x) => CommitLogGrew(s, x);
      case Rollback(x) => RollbackLogGrew(s, x);
      case Evict(k) => BackgroundLogGrew(s, op);
      case FlushLog => BackgroundLogGrew(s, op);
      case TakeCheckpoint => BackgroundLogGrew(s, op);
      case _ =>
    }
  }

  lemma {:induction false} RunLogGrew(s: Engine, ops: seq<Op>)
    ensures LogGrew(s, Run(s, ops))
    decreases |ops|
  {
    if ops != [] {
      StepLogGrew(s, ops[0]);
      RunLogGrew(Step(s, ops[0]), ops[1..]);
      LogGrewTwice(s, Step(s, ops[0]), Run(s, ops));
    }
  }

  /** Once Commit has returned, the transaction is committed in the log that
      any later crash leaves. */
  lemma CommitSurvives(s: Engine, x: Xid, later: seq<Op>)
    requires Inv(s) && x in A(s) && Bounded(StepCommit(s, x))
    ensures var t := Run(StepCommit(s, x), later);
      t.wal.durable <= |t.wal.log| ==> Committed(DurableLog(t), |DurableLog(t)|, x)
  {
    var c := StepCommit(s, x);
    var t := Run(c, later);
    EndNextLsn(s.wal, x, true);
    AppendEndFacts(s.wal, x, true);
    RunLogGrew(c, later);
    if t.wal.durable <= |t.wal.log| {
      var n := |s.wal.log|;
      assert DurableLog(t)[n] == t.wal.log[..|c.wal.log|][n] == EndRec(s.wal, x, true);
    }
  }
}
