/** In a run without rollback the log is a faithful history: every page is the
    replay of its records, every disk image a prefix of that replay. */
module EngineHistory {
  import opened Types
  import opened Locks
  import opened Visibility
  import opened Transactions
  import opened Pages
  import opened Wal
  import opened Replay
  import opened Engine
  import opened EngineInv
  import opened EngineRows
  import opened EngineEnds
  import opened EngineDisk
  import opened Recovery

  predicate NoRollback(op: Op) { !op.Rollback? }

  ghost predicate BeginAt(log: seq<LogRec>, n: nat, x: Xid)
    requires n <= |log|
  {
    exists i :: 0 <= i < n && log[i].BeginLog? && log[i].xid == x
  }

  /** Transaction ids are handed out one after the other. */
  ghost predicate BeginsInOrder(first: Xid, log: seq<LogRec>, nextXid: Xid) {
    && (forall i :: 0 <= i < |log| && log[i].BeginLog? && log[i].xid > first ==> BeginAt(log, i, log[i].xid - 1))
    && (nextXid > first ==> BeginAt(log, |log|, nextXid - 1))
  }

  // The cached page is the replay of its records.
  predicate CurIsReplay(s: Engine, base: PageMap, k: PageKey) {
    k in s.cur ==> k in base && s.cur[k].recs == After(base, s.wal.log, |s.wal.log|, k)
  }

  // The disk image is the replay up to the log length at which it was written.
  ghost predicate DiskIsReplay(s: Engine, base: PageMap, k: PageKey) {
    k in s.disk ==> k in s.writtenAt && ImageOk(base, s.wal.log, s.disk, k, s.writtenAt[k])
  }

  ghost predicate HistInv(s: Engine, base: PageMap, first: Xid) {
    && AllDisciplined(base, first, s.wal.log)
    && first <= s.tm.nextXid
    && base.Keys == s.cur.Keys
    && BeginsInOrder(first, s.wal.log, s.tm.nextXid)
    && (forall k :: CurIsReplay(s, base, k))
    && (forall k :: DiskIsReplay(s, base, k))
  }

  // ---- pushing records ----------------------------------------------------

  lemma DisciplinedPush(base: PageMap, first: Xid, log: seq<LogRec>, r: LogRec)
    requires AllDisciplined(base, first, log) && InsertFirst(log + [r])
    requires Disciplined(base, first, log + [r], |log|)
    ensures AllDisciplined(base, first, log + [r])
  {
    var a := log + [r];
    forall i | 0 <= i < |a| ensures Disciplined(base, first, a, i) {
      if i < |log| {
        assert Disciplined(base, first, log, i);
        assert a[..i] == log[..i];
        PrefixSame(a, log, i, 0);
        if IsRowRec(log[i]) {
          ReplaySame(BaseRecs(base, KeyOfRec(log[i])), a, log, i, KeyOfRec(log[i]));
        }
      }
    }
  }

  lemma AfterPush(base: PageMap, log: seq<LogRec>, r: LogRec, k: PageKey)
    ensures After(base, log + [r], |log|, k) == After(base, log, |log|, k)
    ensures After(base, log + [r], |log| + 1, k) ==
      if OnPage(r, k) then ApplyRecs(After(base, log, |log|, k), r) else After(base, log, |log|, k)
  {
    assert (log + [r])[..|log|] == log[..|log|];
    ReplaySame(BaseRecs(base, k), log + [r], log, |log|, k);
  }

  lemma ImagePush(base: PageMap, log: seq<LogRec>, r: LogRec, disk: PageMap, k: PageKey, m: nat)
    requires ImageOk(base, log, disk, k, m) && (OnPage(r, k) ==> r.lsn > disk[k].lsn)
    ensures ImageOk(base, log + [r], disk, k, m)
  {
    assert (log + [r])[..m] == log[..m];
    ReplaySame(BaseRecs(base, k), log + [r], log, m, k);
    PrefixOfPush(log, r);
  }

  lemma BeginsPush(first: Xid, log: seq<LogRec>, r: LogRec, n: Xid, n': Xid)
    requires BeginsInOrder(first, log, n) && first <= n
    requires (n' == n && !r.BeginLog?) || (n' == n + 1 && r.BeginLog? && r.xid == n)
    ensures BeginsInOrder(first, log + [r], n')
  {
    var a := log + [r];
    forall i | 0 <= i < |a| && a[i].BeginLog? && a[i].xid > first ensures BeginAt(a, i, a[i].xid - 1) {
      if i < |log| {
        assert BeginAt(log, i, log[i].xid - 1);
        var j :| 0 <= j < i && log[j].BeginLog? && log[j].xid == log[i].xid - 1;
        assert a[j] == log[j];
      } else {
        var j :| 0 <= j < |log| && log[j].BeginLog? && log[j].xid == n - 1;
        assert a[j] == log[j];
      }
    }
    if n' > first {
      if n' == n {
        var j :| 0 <= j < |log| && log[j].BeginLog? && log[j].xid == n - 1;
        assert a[j] == log[j];
      } else {
        assert a[|log|] == r;
      }
    }
  }

  /** `t` is `s` with one more record; the pages change as replay says. */
  ghost predicate Pushed(s: Engine, t: Engine, r: LogRec) {
    && t.wal.log == s.wal.log + [r]
    && t.disk == s.disk && t.writtenAt == s.writtenAt && t.cur.Keys == s.cur.Keys
    && (forall k :: k in s.cur ==>
          t.cur[k].recs == if OnPage(r, k) then ApplyRecs(s.cur[k].recs, r) else s.cur[k].recs)
    && ((t.tm.nextXid == s.tm.nextXid && !r.BeginLog?)
        || (t.tm.nextXid == s.tm.nextXid + 1 && r.BeginLog? && r.xid == s.tm.nextXid))
  }

  lemma PushedHist(s: Engine, t: Engine, r: LogRec, base: PageMap, first: Xid)
    requires HistInv(s, base, first) && Pushed(s, t, r)
    requires InsertFirst(t.wal.log) && Disciplined(base, first, t.wal.log, |s.wal.log|)
    requires forall k :: k in s.disk ==> r.lsn > s.disk[k].lsn
    ensures HistInv(t, base, first)
  {
    DisciplinedPush(base, first, s.wal.log, r);
    BeginsPush(first, s.wal.log, r, s.tm.nextXid, t.tm.nextXid);
    forall k ensures CurIsReplay(t, base, k) && DiskIsReplay(t, base, k) {
      assert CurIsReplay(s, base, k) && DiskIsReplay(s, base, k);
      AfterPush(base, s.wal.log, r, k);
      if k in s.disk {
        ImagePush(base, s.wal.log, r, s.disk, k, s.writtenAt[k]);
      }
    }
  }

  lemma DiskBehind(s: Engine, k: PageKey)
    requires Inv(s) && DiskInv(s) && k in s.disk
    ensures s.disk[k].lsn < s.wal.nextLsn
  {
    assert PageOk(s, k);
  }

  // ---- row operations -----------------------------------------------------

  lemma AttPush(log: seq<LogRec>, r: LogRec)
    ensures AttOf(log + [r], |log|) == AttOf(log, |log|)
  {
    assert (log + [r])[..|log|] == log[..|log|];
    PrefixSame(log + [r], log, |log|, 0);
  }

  function DeleteRec(s: Engine, x: Xid, l: Loc): LogRec
    requires x in s.wal.att
  {
    DeleteLog(s.wal.nextLsn, x, s.wal.att[x], l.oid, l.rid.page, l.rid.slot)
  }

  // The rules of the log hold for the delete an unlocked version never gets.
  lemma DeleteDisciplined(s: Engine, x: Xid, l: Loc, base: PageMap, first: Xid)
    requires x in s.wal.att && s.wal.att == AttOf(s.wal.log, |s.wal.log|) && s.wal.att.Keys == A(s)
    requires HasLoc(s.cur, l) && At(s.cur, l).xmax == NULL_XID && Sees(x, A(s), At(s.cur, l).xmin)
    requires CurIsReplay(s, base, KeyOf(l))
    ensures Disciplined(base, first, s.wal.log + [DeleteRec(s, x, l)], |s.wal.log|)
  {
    AfterPush(base, s.wal.log, DeleteRec(s, x, l), KeyOf(l));
    AttPush(s.wal.log, DeleteRec(s, x, l));
  }

  lemma DeletePushed(s: Engine, x: Xid, l: Loc)
    requires x in s.wal.att && HasLoc(s.cur, l)
    ensures Pushed(s, DoDelete(s, x, l), DeleteRec(s, x, l))
  {
  }

  lemma DeleteHist(s: Engine, x: Xid, l: Loc, base: PageMap, first: Xid)
    requires MayDelete(s, x, l) && DiskInv(s) && HistInv(s, base, first) && Bounded(DoDelete(s, x, l))
    ensures HistInv(DoDelete(s, x, l), base, first)
  {
    var t := DoDelete(s, x, l);
    assert CurIsReplay(s, base, KeyOf(l));
    DeletePushed(s, x, l);
    DeleteLogs(s, x, l);
    DeleteDisciplined(s, x, l, base, first);
    forall k | k in s.disk ensures s.wal.nextLsn > s.disk[k].lsn { DiskBehind(s, k); }
    PushedHist(s, t, DeleteRec(s, x, l), base, first);
  }

  lemma InsertDisciplined(s: Engine, x: Xid, k: PageKey, payload: seq<byte>, base: PageMap, first: Xid)
    requires x in s.wal.att && s.wal.att == AttOf(s.wal.log, |s.wal.log|)
    requires x in s.cmd && Fits(s, k, payload) && CurIsReplay(s, base, k)
    ensures Disciplined(base, first, s.wal.log + [InsertRec(s, x, k, payload)], |s.wal.log|)
  {
    AfterPush(base, s.wal.log, InsertRec(s, x, k, payload), k);
    AttPush(s.wal.log, InsertRec(s, x, k, payload));
  }

  lemma InsertPushed(s: Engine, x: Xid, k: PageKey, payload: seq<byte>, row: Loc)
    requires x in s.wal.att && x in s.cmd && Fits(s, k, payload)
    ensures Pushed(s, DoInsert(s, x, k, payload, row), InsertRec(s, x, k, payload))
  {
  }

  lemma InsertHist(s: Engine, x: Xid, k: PageKey, payload: seq<byte>, row: Loc, base: PageMap, first: Xid)
    requires MayInsert(s, x, k, payload, row) && DiskInv(s) && HistInv(s, base, first)
    requires Bounded(DoInsert(s, x, k, payload, row))
    ensures HistInv(DoInsert(s, x, k, payload, row), base, first)
  {
    var t := DoInsert(s, x, k, payload, row);
    assert CurIsReplay(s, base, k);
    InsertPushed(s, x, k, payload, row);
    InsertLogs(s, x, k, payload, row);
    InsertDisciplined(s, x, k, payload, base, first);
    forall j | j in s.disk ensures s.wal.nextLsn > s.disk[j].lsn { DiskBehind(s, j); }
    PushedHist(s, t, InsertRec(s, x, k, payload), base, first);
  }

  // Nothing the history speaks of has changed.
  lemma SameHist(s: Engine, t: Engine, base: PageMap, first: Xid)
    requires HistInv(s, base, first)
    requires t.wal.log == s.wal.log && t.cur == s.cur && t.disk == s.disk && t.writtenAt == s.writtenAt
    requires t.tm.nextXid == s.tm.nextXid
    ensures HistInv(t, base, first)
  {
    forall k ensures CurIsReplay(t, base, k) && DiskIsReplay(t, base, k) {
      assert CurIsReplay(s, base, k) && DiskIsReplay(s, base, k);
    }
  }

  lemma InsertStepHist(s: Engine, x: Xid, k: PageKey, payload: seq<byte>, base: PageMap, first: Xid)
    requires Inv(s) && DiskInv(s) && HistInv(s, base, first) && Bounded(StepInsert(s, x, k, payload))
    ensures HistInv(StepInsert(s, x, k, payload), base, first)
  {
    if Running(s, x) && Fits(s, k, payload) {
      var s1 := WithLocks(s, AfterLockTable(s.locks, x, IX, k.oid));
      TableReqInv(s, x, IX, k.oid);
      SameDisk(s, s1);
      SameHist(s, s1, base, first);
      if LockTableOk(s.locks, x, IX, k.oid) {
        var l := NextLoc(s.cur, k);
        InsertHist(s1, x, k, payload, l, base, first);
        SameHist(DoInsert(s1, x, k, payload, l), StepInsert(s, x, k, payload), base, first);
      }
    }
  }

  lemma DeleteStepHist(s: Engine, x: Xid, iso: Isolation, l: Loc, base: PageMap, first: Xid)
    requires Inv(s) && DiskInv(s) && HistInv(s, base, first) && iso != REPEATABLE_READ && Bounded(StepDelete(s, x, iso, l))
    ensures HistInv(StepDelete(s, x, iso, l), base, first)
  {
    if Running(s, x) && HasLoc(s.cur, l) {
      var s1, go := DeleteParts(s, x, iso, l);
      SameDisk(s, s1);
      SameHist(s, s1, base, first);
      if go { DeleteHist(s1, x, l, base, first); }
    }
  }

  lemma UpdateHist(s: Engine, x: Xid, l: Loc, k: PageKey, payload: seq<byte>, base: PageMap, first: Xid)
    requires MayDelete(s, x, l) && DiskInv(s) && HistInv(s, base, first)
    requires Fits(s, k, payload) && Fits(DoDelete(s, x, l), k, payload) && l in s.rowOf
    requires Bounded(DoDelete(s, x, l)) && Bounded(DoInsert(DoDelete(s, x, l), x, k, payload, s.rowOf[l]))
    ensures HistInv(DoInsert(DoDelete(s, x, l), x, k, payload, s.rowOf[l]), base, first)
  {
    DeleteHist(s, x, l, base, first);
    DeleteInv(s, x, l);
    DeleteDisk(s, x, l);
    DeletedIsTip(s, l);
    DeleteAt(s, x, l, l);
    InsertHist(DoDelete(s, x, l), x, k, payload, s.rowOf[l], base, first);
  }

  lemma UpdateStepHist(s: Engine, x: Xid, iso: Isolation, l: Loc, k: PageKey, payload: seq<byte>, base: PageMap, first: Xid)
    requires Inv(s) && DiskInv(s) && HistInv(s, base, first) && iso != REPEATABLE_READ
    requires Bounded(StepUpdate(s, x, iso, l, k, payload))
    ensures HistInv(StepUpdate(s, x, iso, l, k, payload), base, first)
  {
    if UpdateReady(s, x, iso, l, k, payload) {
      if ScanAndLock(s, x, iso, l).1 {
        var s1, s2, s3 := UpdateParts(s, x, iso, l, k, payload);
        SameDisk(s, s1);
        SameHist(s, s1, base, first);
        UpdateHist(s1, x, l, k, payload, base, first);
        SameHist(s3, StepUpdate(s, x, iso, l, k, payload), base, first);
      } else {
        SameHist(s, StepUpdate(s, x, iso, l, k, payload), base, first);
      }
    }
  }

  // ---- the other operations -----------------------------------------------

  lemma BeginHist(s: Engine, base: PageMap, first: Xid)
    requires Inv(s) && DiskInv(s) && HistInv(s, base, first) && Bounded(Step(s, Begin))
    ensures HistInv(Step(s, Begin), base, first)
  {
    var t := Step(s, Begin);
    BeginInv(s);
    var r := BeginLog(s.wal.nextLsn, s.tm.nextXid, NULL_LSN);
    assert t.wal.log == s.wal.log + [r];
    PrefixOfPush(s.wal.log, r);
    forall k | k in s.disk ensures r.lsn > s.disk[k].lsn { DiskBehind(s, k); }
    PushedHist(s, t, r, base, first);
  }

  lemma CommitHist(s: Engine, x: Xid, base: PageMap, first: Xid)
    requires Inv(s) && DiskInv(s) && HistInv(s, base, first) && Bounded(StepCommit(s, x))
    ensures HistInv(StepCommit(s, x), base, first)
  {
    if x in A(s) {
      var t := StepCommit(s, x);
      EndNextLsn(s.wal, x, true);
      EndCommon(s, x, true);
      var r := EndRec(s.wal, x, true);
      assert t.wal.log[..|s.wal.log|] == s.wal.log[..|s.wal.log|];
      PrefixSame(t.wal.log, s.wal.log, |s.wal.log|, 0);
      forall k | k in s.disk ensures r.lsn > s.disk[k].lsn { DiskBehind(s, k); }
      PushedHist(s, t, r, base, first);
    }
  }

  lemma MarkerHist(s: Engine, t: Engine, r: LogRec, base: PageMap, first: Xid)
    requires HistInv(s, base, first) && IsCheckpoint(r)
    requires t.wal.log == s.wal.log + [r] && t == s.(wal := t.wal)
    requires forall k :: k in s.disk ==> r.lsn > s.disk[k].lsn
    ensures HistInv(t, base, first)
  {
    PrefixOfPush(s.wal.log, r);
    InsertFirstPush(s.wal.log, r);
    PushedHist(s, t, r, base, first);
  }

  lemma TwoMarkersHist(s: Engine, t: Engine, b: LogRec, e: LogRec, base: PageMap, first: Xid)
    requires HistInv(s, base, first) && IsCheckpoint(b) && IsCheckpoint(e)
    requires t.wal.log == s.wal.log + [b] + [e] && t == s.(wal := t.wal)
    requires forall k :: k in s.disk ==> b.lsn > s.disk[k].lsn && e.lsn > s.disk[k].lsn
    ensures HistInv(t, base, first)
  {
    var mid := s.(wal := s.wal.(log := s.wal.log + [b]));
    MarkerHist(s, mid, b, base, first);
    MarkerHist(mid, t, e, base, first);
  }

  lemma CheckpointLogIs(w: Wal)
    requires WalInv(w) && Checkpoint(w).nextLsn <= NULL_LSN
    ensures Checkpoint(w).log == w.log + [BeginCheckpointLog(w.nextLsn, NULL_XID, NULL_LSN)]
      + [EndCheckpointLog(w.nextLsn + 13, NULL_XID, NULL_LSN, w.att, w.dpt)]
  {
    CheckpointFacts(w);
  }

  lemma MarkedHist(s: Engine, base: PageMap, first: Xid)
    requires HistInv(s, base, first) && WalInv(s.wal) && Checkpoint(s.wal).nextLsn <= NULL_LSN
    requires forall k :: k in s.disk ==> s.disk[k].lsn < s.wal.nextLsn
    ensures HistInv(s.(wal := Checkpoint(s.wal)), base, first)
  {
    var b := BeginCheckpointLog(s.wal.nextLsn, NULL_XID, NULL_LSN);
    var e := EndCheckpointLog(s.wal.nextLsn + 13, NULL_XID, NULL_LSN, s.wal.att, s.wal.dpt);
    CheckpointLogIs(s.wal);
    TwoMarkersHist(s, s.(wal := Checkpoint(s.wal)), b, e, base, first);
  }

  lemma CheckpointHist(s: Engine, base: PageMap, first: Xid)
    requires Inv(s) && DiskInv(s) && HistInv(s, base, first) && Bounded(Step(s, TakeCheckpoint))
    ensures HistInv(Step(s, TakeCheckpoint), base, first)
  {
    AllBehind(s);
    CheckpointFits(s);
    MarkedHist(s, base, first);
  }

  lemma AllBehind(s: Engine)
    requires Inv(s) && DiskInv(s)
    ensures WalInv(s.wal) && forall k :: k in s.disk ==> s.disk[k].lsn < s.wal.nextLsn
  {
    forall k | k in s.disk ensures s.disk[k].lsn < s.wal.nextLsn { DiskBehind(s, k); }
  }

  lemma CheckpointFits(s: Engine)
    requires Bounded(Step(s, TakeCheckpoint))
    ensures Step(s, TakeCheckpoint) == s.(wal := Checkpoint(s.wal)) && Checkpoint(s.wal).nextLsn <= NULL_LSN
  {
  }

  // The page written now is the replay of the whole log.
  lemma WrittenPage(s: Engine, base: PageMap, k: PageKey)
    requires k in s.cur && CurIsReplay(s, base, k) && PageOk(s, k)
    ensures ImageOk(base, s.wal.log, s.disk[k := s.cur[k]], k, |s.wal.log|)
  {
  }

  lemma EvictHist(s: Engine, k: PageKey, base: PageMap, first: Xid)
    requires Inv(s) && DiskInv(s) && HistInv(s, base, first)
    ensures HistInv(StepEvict(s, k), base, first)
  {
    if k in s.dirty && k in s.cur {
      assert PageOk(s, k) && CurIsReplay(s, base, k);
      WrittenPage(s, base, k);
      EvictedHist(s, k, FlushPage(s.wal, k, s.cur[k].lsn), base, first);
      FlushPageFacts(s.wal, k, s.cur[k].lsn);
    }
  }

  lemma EvictedHist(s: Engine, k: PageKey, w: Wal, base: PageMap, first: Xid)
    requires HistInv(s, base, first) && w.log == s.wal.log && k in s.cur
    requires ImageOk(base, s.wal.log, s.disk[k := s.cur[k]], k, |s.wal.log|)
    ensures HistInv(s.(wal := w, disk := s.disk[k := s.cur[k]], dirty := s.dirty - {k}, writtenAt := s.writtenAt[k := |s.wal.log|]), base, first)
  {
    var t := s.(wal := w, disk := s.disk[k := s.cur[k]], dirty := s.dirty - {k}, writtenAt := s.writtenAt[k := |s.wal.log|]);
    forall j ensures CurIsReplay(t, base, j) && DiskIsReplay(t, base, j) {
      assert CurIsReplay(s, base, j) && DiskIsReplay(s, base, j);
    }
  }

  lemma FlushHist(s: Engine, base: PageMap, first: Xid)
    requires Inv(s) && HistInv(s, base, first)
    ensures HistInv(Step(s, FlushLog), base, first)
  {
    FlushToFacts(s.wal, NULL_LSN);
    SameHist(s, Step(s, FlushLog), base, first);
  }

  lemma LightStepHist(s: Engine, op: Op, base: PageMap, first: Xid)
    requires HistInv(s, base, first) && (op.Command? || op.LockTableStmt? || op.LockRowStmt?)
    ensures HistInv(Step(s, op), base, first)
  {
    SameHist(s, Step(s, op), base, first);
  }

  lemma StepHist(s: Engine, op: Op, base: PageMap, first: Xid)
    requires Inv(s) && DiskInv(s) && HistInv(s, base, first)
    requires WriterOk(op) && NoRollback(op) && Bounded(Step(s, op))
    ensures HistInv(Step(s, op), base, first)
  {
    match op
    case Begin => BeginHist(s, base, first);
    case Command(x) => LightStepHist(s, op, base, first);
    case LockTableStmt(x, m, oid) => LightStepHist(s, op, base, first);
    case LockRowStmt(x, m, l) => LightStepHist(s, op, base, first);
    case InsertRow(x, k, payload) => InsertStepHist(s, x, k, payload, base, first);
    case DeleteRow(x, iso, l) => DeleteStepHist(s, x, iso, l, base, first);
    case UpdateRow(x, iso, l, k, payload) => UpdateStepHist(s, x, iso, l, k, payload, base, first);
    case Commit(x) => CommitHist(s, x, base, first);
    case Evict(k) => EvictHist(s, k, base, first);
    case FlushLog => FlushHist(s, base, first);
    case TakeCheckpoint => CheckpointHist(s, base, first);
  }

  lemma InitHist(s: Engine)
    requires Init(s)
    ensures HistInv(s, s.cur, s.tm.nextXid)
  {
    InitInv(s);
    var b :| CleanWal(s.wal, b);
    forall k ensures CurIsReplay(s, s.cur, k) && DiskIsReplay(s, s.cur, k) {
      assert After(s.cur, s.wal.log, 0, k) == After(s.cur, s.wal.log, 1, k) == After(s.cur, s.wal.log, 2, k) == BaseRecs(s.cur, k);
    }
  }

  lemma {:induction false} RunHist(s: Engine, ops: seq<Op>, base: PageMap, first: Xid)
    requires Inv(s) && DiskInv(s) && HistInv(s, base, first) && WritersOk(ops) && Bounded(Run(s, ops))
    requires forall i :: 0 <= i < |ops| ==> NoRollback(ops[i])
    ensures Inv(Run(s, ops)) && DiskInv(Run(s, ops)) && HistInv(Run(s, ops), base, first)
    decreases |ops|
  {
    if ops != [] {
      var t := Step(s, ops[0]);
      RunGrows(t, ops[1..]);
      assert WriterOk(ops[0]) && NoRollback(ops[0]);
      StepInv(s, ops[0]);
      StepDisk(s, ops[0]);
      StepHist(s, ops[0], base, first);
      RunHist(t, ops[1..], base, first);
    }
  }
}
