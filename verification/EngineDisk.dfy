/** Write-ahead discipline between the log, the dirty-page table and the disk
    images, over every run. */
module EngineDisk {
  import opened Types
  import opened Locks
  import opened Visibility
  import opened Transactions
  import opened Pages
  import opened Wal
  import opened Replay
  import opened Engine
  import opened EngineInv
  import opened EngineRows
  import opened EngineEnds

  /** Everything logged up to the LSN of a page's disk image is durable. */
  ghost predicate LogBeforePage(s: Engine, k: PageKey) {
    k in s.disk ==> forall i :: 0 <= i < |s.wal.log| && s.wal.log[i].lsn <= s.disk[k].lsn ==> i < s.wal.durable
  }

  // Record `i` of the log is not in the disk image of its page.
  predicate Missing(log: seq<LogRec>, i: nat, disk: PageMap, k: PageKey)
    requires i < |log|
  {
    OnPage(log[i], k) && k in disk && log[i].lsn > disk[k].lsn
  }

  /** The dirty-page table has an early enough entry for every missing record
      among the first `n`. */
  ghost predicate Covers(dpt: map<PageKey, Lsn>, log: seq<LogRec>, n: nat, disk: PageMap, k: PageKey)
    requires n <= |log|
  {
    forall i :: 0 <= i < n && Missing(log, i, disk, k) ==> k in dpt && dpt[k] <= log[i].lsn
  }

  // Dirty-page entries are LSNs of records among the first `n`.
  ghost predicate PointsInto(dpt: map<PageKey, Lsn>, log: seq<LogRec>, n: nat, k: PageKey)
    requires n <= |log|
  {
    k in dpt ==> exists i :: 0 <= i < n && log[i].lsn == dpt[k]
  }

  ghost predicate TableGood(dpt: map<PageKey, Lsn>, log: seq<LogRec>, n: nat, disk: PageMap)
    requires n <= |log|
  {
    forall k :: Covers(dpt, log, n, disk, k) && PointsInto(dpt, log, n, k)
  }

  /** The cached page is at least as new as its disk image and as every log
      record about it; unless it is dirty the two are the same. */
  ghost predicate PageOk(s: Engine, k: PageKey) {
    k in s.cur ==>
      && k in s.disk
      && s.disk[k].lsn <= s.cur[k].lsn
      && (k !in s.dirty ==> s.disk[k] == s.cur[k])
      && (forall i :: 0 <= i < |s.wal.log| && OnPage(s.wal.log[i], k) ==> s.wal.log[i].lsn <= s.cur[k].lsn)
  }

  // Position of the newest begin-checkpoint record among the first `n`.
  function CheckpointAt(log: seq<LogRec>, n: nat): nat
    requires n <= |log|
  {
    if n == 0 then 0 else if log[n - 1].BeginCheckpointLog? then n - 1 else CheckpointAt(log, n - 1)
  }

  /** The master record names a durable checkpoint whose two tables cover the
      log before it. */
  ghost predicate CheckpointOk(s: Engine) {
    var c := CheckpointAt(s.wal.log, |s.wal.log|);
    && c + 2 <= s.wal.durable <= |s.wal.log|
    && s.wal.log[c].BeginCheckpointLog? && s.wal.log[c].lsn == s.wal.master
    && s.wal.log[c + 1].EndCheckpointLog?
    && s.wal.log[c + 1].att == AttOf(s.wal.log, c)
    && TableGood(s.wal.log[c + 1].dpt, s.wal.log, c, s.disk)
    && (forall i :: c + 2 <= i < |s.wal.log| ==> !IsCheckpoint(s.wal.log[i]))
  }

  ghost predicate DiskInv(s: Engine) {
    && s.disk.Keys == s.cur.Keys
    && (forall k :: PageOk(s, k))
    && (forall k :: LogBeforePage(s, k))
    && TableGood(s.wal.dpt, s.wal.log, |s.wal.log|, s.disk)
    && CheckpointOk(s)
  }

  // ---- steps that append one row record -----------------------------------

  /** `t` is `s` after a row operation appended `r` for page `k`: the page got
      the record's LSN, the dirty-page table an entry if it had none. */
  ghost predicate RowAppended(s: Engine, t: Engine, r: LogRec, k: PageKey) {
    && OnPage(r, k) && k in s.cur && r.lsn == s.wal.nextLsn
    && t.wal.log == s.wal.log + [r] && t.wal.durable == s.wal.durable && t.wal.master == s.wal.master
    && t.wal.dpt == (if k in s.wal.dpt then s.wal.dpt else s.wal.dpt[k := r.lsn])
    && t.disk == s.disk && t.dirty == s.dirty + {k}
    && t.cur.Keys == s.cur.Keys && t.cur[k].lsn == r.lsn
    && (forall j :: j in s.cur && j != k ==> t.cur[j] == s.cur[j])
  }

  lemma PrefixOfPush(log: seq<LogRec>, r: LogRec)
    ensures forall i :: 0 <= i < |log| ==> (log + [r])[i] == log[i]
    ensures (log + [r])[|log|] == r
    ensures (log + [r])[..|log|] == log
  {
  }

  lemma CoversPush(s: Engine, t: Engine, r: LogRec, k: PageKey, j: PageKey)
    requires Inv(s) && DiskInv(s) && RowAppended(s, t, r, k)
    ensures Covers(t.wal.dpt, t.wal.log, |t.wal.log|, t.disk, j)
    ensures PointsInto(t.wal.dpt, t.wal.log, |t.wal.log|, j)
  {
    PrefixOfPush(s.wal.log, r);
    LsnOrders(s.wal.log, s.wal.nextLsn);
    assert Covers(s.wal.dpt, s.wal.log, |s.wal.log|, s.disk, j) && PointsInto(s.wal.dpt, s.wal.log, |s.wal.log|, j);
    assert PointsInto(s.wal.dpt, s.wal.log, |s.wal.log|, k);
    forall i | 0 <= i < |t.wal.log| && Missing(t.wal.log, i, t.disk, j)
      ensures j in t.wal.dpt && t.wal.dpt[j] <= t.wal.log[i].lsn
    {
      if i < |s.wal.log| {
        assert Missing(s.wal.log, i, s.disk, j);
      }
    }
    if j in s.wal.dpt {
      var i :| 0 <= i < |s.wal.log| && s.wal.log[i].lsn == s.wal.dpt[j];
      assert t.wal.log[i].lsn == t.wal.dpt[j];
    } else if j in t.wal.dpt {
      assert t.wal.log[|s.wal.log|].lsn == t.wal.dpt[j];
    }
  }

  lemma {:induction false} CheckpointAtSame(a: seq<LogRec>, b: seq<LogRec>, n: nat)
    requires n <= |a| && n <= |b| && a[..n] == b[..n]
    ensures CheckpointAt(a, n) == CheckpointAt(b, n)
  {
    if n > 0 {
      assert a[n - 1] == a[..n][n - 1] == b[..n][n - 1] == b[n - 1];
      assert a[..n - 1] == a[..n][..n - 1] == b[..n][..n - 1] == b[..n - 1];
      CheckpointAtSame(a, b, n - 1);
    }
  }

  // A table that covers the first records of one log covers them in any longer log.
  lemma CoversSame(dpt: map<PageKey, Lsn>, a: seq<LogRec>, b: seq<LogRec>, n: nat, d: PageMap, d': PageMap, k: PageKey)
    requires n <= |a| && n <= |b| && a[..n] == b[..n]
    requires k in d' ==> k in d && d[k].lsn <= d'[k].lsn
    requires Covers(dpt, a, n, d, k)
    ensures Covers(dpt, b, n, d', k)
    ensures PointsInto(dpt, a, n, k) ==> PointsInto(dpt, b, n, k)
  {
    forall i | 0 <= i < n && Missing(b, i, d', k) ensures k in dpt && dpt[k] <= b[i].lsn {
      assert a[i] == a[..n][i] == b[..n][i] == b[i];
      assert Missing(a, i, d, k);
    }
    if PointsInto(dpt, a, n, k) && k in dpt {
      var i :| 0 <= i < n && a[i].lsn == dpt[k];
      assert a[i] == a[..n][i] == b[..n][i] == b[i];
    }
  }

  /** The checkpoint stays good while no other one is taken: records are
      added behind it and disk images only get newer. */
  lemma CheckpointKept(s: Engine, t: Engine)
    requires CheckpointOk(s)
    requires s.wal.log <= t.wal.log && s.wal.durable <= t.wal.durable <= |t.wal.log| && t.wal.master == s.wal.master
    requires forall i :: |s.wal.log| <= i < |t.wal.log| ==> !IsCheckpoint(t.wal.log[i])
    requires forall k :: k in t.disk ==> k in s.disk && s.disk[k].lsn <= t.disk[k].lsn
    ensures CheckpointOk(t)
  {
    var n := |s.wal.log|;
    var c := CheckpointAt(s.wal.log, n);
    assert t.wal.log[..n] == s.wal.log[..n] == s.wal.log;
    CheckpointAtSame(s.wal.log, t.wal.log, n);
    CheckpointAtSkip(t.wal.log, n, |t.wal.log|);
    assert t.wal.log[..c] == s.wal.log[..c];
    PrefixSame(s.wal.log, t.wal.log, c, 0);
    var dpt := s.wal.log[c + 1].dpt;
    forall k ensures Covers(dpt, t.wal.log, c, t.disk, k) && PointsInto(dpt, t.wal.log, c, k) {
      assert Covers(dpt, s.wal.log, c, s.disk, k) && PointsInto(dpt, s.wal.log, c, k);
      CoversSame(dpt, s.wal.log, t.wal.log, c, s.disk, t.disk, k);
    }
  }

  lemma {:induction false} CheckpointAtSkip(log: seq<LogRec>, m: nat, n: nat)
    requires m <= n <= |log| && forall i :: m <= i < n ==> !IsCheckpoint(log[i])
    ensures CheckpointAt(log, n) == CheckpointAt(log, m)
  {
    if m < n { CheckpointAtSkip(log, m, n - 1); }
  }

  lemma RowAppendedPage(s: Engine, t: Engine, r: LogRec, k: PageKey, j: PageKey)
    requires WalInv(s.wal) && PageOk(s, j) && LogBeforePage(s, j) && RowAppended(s, t, r, k)
    requires (j in s.cur ==> s.cur[j].lsn < s.wal.nextLsn) && s.disk.Keys == s.cur.Keys
    ensures PageOk(t, j) && LogBeforePage(t, j)
  {
    PrefixOfPush(s.wal.log, r);
    LsnOrders(s.wal.log, s.wal.nextLsn);
  }

  lemma RowAppendedDisk(s: Engine, t: Engine, r: LogRec, k: PageKey)
    requires Inv(s) && DiskInv(s) && RowAppended(s, t, r, k)
    ensures DiskInv(t)
  {
    PrefixOfPush(s.wal.log, r);
    forall j ensures PageOk(t, j) && LogBeforePage(t, j) {
      assert PageOk(s, j) && LogBeforePage(s, j);
      RowAppendedPage(s, t, r, k, j);
    }
    forall j ensures Covers(t.wal.dpt, t.wal.log, |t.wal.log|, t.disk, j) && PointsInto(t.wal.dpt, t.wal.log, |t.wal.log|, j) {
      CoversPush(s, t, r, k, j);
    }
    CheckpointKept(s, t);
  }

  // ---- steps that append a record about no row, or none -------------------

  ghost predicate OtherAppended(s: Engine, t: Engine) {
    && t.disk == s.disk && t.wal.dpt == s.wal.dpt
    && s.wal.log <= t.wal.log && s.wal.durable <= t.wal.durable <= |t.wal.log|
    && (forall i :: |s.wal.log| <= i < |t.wal.log| ==> !IsRowRec(t.wal.log[i]) && t.wal.log[i].lsn >= s.wal.nextLsn)
    && t.cur.Keys == s.cur.Keys && (forall k :: k in s.cur ==> t.cur[k].lsn == s.cur[k].lsn)
    && (forall k :: k in s.cur && k !in t.dirty ==> k !in s.dirty && t.cur[k] == s.cur[k])
  }

  lemma OtherAppendedPages(s: Engine, t: Engine, k: PageKey)
    requires Inv(s) && DiskInv(s) && OtherAppended(s, t)
    ensures PageOk(t, k) && LogBeforePage(t, k)
    ensures Covers(t.wal.dpt, t.wal.log, |t.wal.log|, t.disk, k) && PointsInto(t.wal.dpt, t.wal.log, |t.wal.log|, k)
  {
    var n := |s.wal.log|;
    assert PageOk(s, k) && LogBeforePage(s, k);
    assert Covers(s.wal.dpt, s.wal.log, n, s.disk, k) && PointsInto(s.wal.dpt, s.wal.log, n, k);
    assert t.wal.log[..n] == s.wal.log[..n] == s.wal.log;
    CoversSame(s.wal.dpt, s.wal.log, t.wal.log, n, s.disk, t.disk, k);
    forall i | 0 <= i < |t.wal.log| && Missing(t.wal.log, i, t.disk, k) ensures k in t.wal.dpt && t.wal.dpt[k] <= t.wal.log[i].lsn {
      assert i < n;
    }
  }

  lemma OtherAppendedDisk(s: Engine, t: Engine)
    requires Inv(s) && DiskInv(s) && OtherAppended(s, t) && t.wal.master == s.wal.master
    requires forall i :: |s.wal.log| <= i < |t.wal.log| ==> !IsCheckpoint(t.wal.log[i])
    ensures DiskInv(t)
  {
    forall k ensures PageOk(t, k) && LogBeforePage(t, k) { OtherAppendedPages(s, t, k); }
    forall k ensures Covers(t.wal.dpt, t.wal.log, |t.wal.log|, t.disk, k) && PointsInto(t.wal.dpt, t.wal.log, |t.wal.log|, k) {
      OtherAppendedPages(s, t, k);
    }
    CheckpointKept(s, t);
  }

  lemma NewCheckpointOk(s: Engine, t: Engine)
    requires WalInv(s.wal) && TableGood(s.wal.dpt, s.wal.log, |s.wal.log|, s.disk)
    requires t.wal == Checkpoint(s.wal) && t.wal.nextLsn <= NULL_LSN && t.disk == s.disk
    ensures CheckpointOk(t)
  {
    var n := |s.wal.log|;
    CheckpointFacts(s.wal);
    assert CheckpointAt(t.wal.log, |t.wal.log|) == n;
    assert t.wal.log[..n] == s.wal.log[..n];
    PrefixSame(s.wal.log, t.wal.log, n, 0);
    forall k ensures Covers(s.wal.dpt, t.wal.log, n, t.disk, k) && PointsInto(s.wal.dpt, t.wal.log, n, k) {
      assert Covers(s.wal.dpt, s.wal.log, n, s.disk, k) && PointsInto(s.wal.dpt, s.wal.log, n, k);
      CoversSame(s.wal.dpt, s.wal.log, t.wal.log, n, s.disk, t.disk, k);
    }
  }

  lemma CheckpointAppended(s: Engine)
    requires WalInv(s.wal) && Checkpoint(s.wal).nextLsn <= NULL_LSN
    ensures OtherAppended(s, s.(wal := Checkpoint(s.wal)))
  {
    CheckpointFacts(s.wal);
    assert s.wal.log <= Checkpoint(s.wal).log by { assert Checkpoint(s.wal).log[..|s.wal.log|] == s.wal.log; }
  }

  lemma CheckpointDisk(s: Engine)
    requires Inv(s) && DiskInv(s) && Bounded(Step(s, TakeCheckpoint))
    ensures DiskInv(Step(s, TakeCheckpoint))
  {
    var t := s.(wal := Checkpoint(s.wal));
    CheckpointAppended(s);
    forall k ensures PageOk(t, k) && LogBeforePage(t, k) { OtherAppendedPages(s, t, k); }
    forall k ensures Covers(t.wal.dpt, t.wal.log, |t.wal.log|, t.disk, k) && PointsInto(t.wal.dpt, t.wal.log, |t.wal.log|, k) {
      OtherAppendedPages(s, t, k);
    }
    NewCheckpointOk(s, t);
  }

  // ---- page writes --------------------------------------------------------

  lemma EvictPage(s: Engine, k: PageKey, j: PageKey)
    requires WalInv(s.wal) && PageOk(s, j) && LogBeforePage(s, j) && s.disk.Keys == s.cur.Keys
    requires k in s.dirty && k in s.cur && s.cur[k].lsn < s.wal.nextLsn
    ensures var t := StepEvict(s, k);
      PageOk(t, j) && LogBeforePage(t, j) && (j in t.disk ==> s.disk[j].lsn <= t.disk[j].lsn)
  {
    FlushPageFacts(s.wal, k, s.cur[k].lsn);
  }

  lemma EvictDisk(s: Engine, k: PageKey)
    requires Inv(s) && DiskInv(s)
    ensures DiskInv(StepEvict(s, k))
  {
    if k in s.dirty && k in s.cur {
      var t := StepEvict(s, k);
      FlushPageFacts(s.wal, k, s.cur[k].lsn);
      forall j ensures PageOk(t, j) && LogBeforePage(t, j) && (j in t.disk ==> s.disk[j].lsn <= t.disk[j].lsn) {
        assert PageOk(s, j) && LogBeforePage(s, j);
        EvictPage(s, k, j);
      }
      forall j ensures Covers(t.wal.dpt, t.wal.log, |t.wal.log|, t.disk, j) && PointsInto(t.wal.dpt, t.wal.log, |t.wal.log|, j) {
        EvictCovers(s, k, j);
      }
      CheckpointKept(s, t);
    }
  }

  lemma EvictCovers(s: Engine, k: PageKey, j: PageKey)
    requires Inv(s) && DiskInv(s) && k in s.dirty && k in s.cur
    ensures var t := StepEvict(s, k);
      t.wal.log == s.wal.log && Covers(t.wal.dpt, t.wal.log, |t.wal.log|, t.disk, j) && PointsInto(t.wal.dpt, t.wal.log, |t.wal.log|, j)
  {
    var t := StepEvict(s, k);
    FlushPageFacts(s.wal, k, s.cur[k].lsn);
    assert PageOk(s, k);
    assert Covers(s.wal.dpt, s.wal.log, |s.wal.log|, s.disk, j) && PointsInto(s.wal.dpt, s.wal.log, |s.wal.log|, j);
    forall i | 0 <= i < |t.wal.log| && Missing(t.wal.log, i, t.disk, j) ensures j in t.wal.dpt && t.wal.dpt[j] <= t.wal.log[i].lsn {
      assert j != k;
      assert Missing(s.wal.log, i, s.disk, j);
    }
  }

  // ---- every step ---------------------------------------------------------

  lemma DeleteDisk(s: Engine, x: Xid, l: Loc)
    requires Inv(s) && DiskInv(s) && x in s.wal.att && HasLoc(s.cur, l)
    ensures DiskInv(DoDelete(s, x, l))
  {
    var t := DoDelete(s, x, l);
    RowAppendedDisk(s, t, t.wal.log[|s.wal.log|], KeyOf(l));
  }

  lemma InsertDisk(s: Engine, x: Xid, k: PageKey, payload: seq<byte>, row: Loc)
    requires Inv(s) && DiskInv(s) && x in s.wal.att && x in s.cmd && Fits(s, k, payload)
    ensures DiskInv(DoInsert(s, x, k, payload, row))
  {
    RowAppendedDisk(s, DoInsert(s, x, k, payload, row), InsertRec(s, x, k, payload), k);
  }

  // Recorded locks and transaction tables play no part here.
  lemma SameDisk(s: Engine, t: Engine)
    requires DiskInv(s) && t.wal == s.wal && t.cur == s.cur && t.disk == s.disk && t.dirty == s.dirty
    ensures DiskInv(t)
  {
    forall k ensures PageOk(t, k) && LogBeforePage(t, k) { assert PageOk(s, k) && LogBeforePage(s, k); }
  }

  lemma InsertStepDisk(s: Engine, x: Xid, k: PageKey, payload: seq<byte>)
    requires Inv(s) && DiskInv(s) && Bounded(StepInsert(s, x, k, payload))
    ensures DiskInv(StepInsert(s, x, k, payload))
  {
    if Running(s, x) && Fits(s, k, payload) {
      var s1 := WithLocks(s, AfterLockTable(s.locks, x, IX, k.oid));
      TableReqInv(s, x, IX, k.oid);
      SameDisk(s, s1);
      if LockTableOk(s.locks, x, IX, k.oid) {
        InsertDisk(s1, x, k, payload, NextLoc(s.cur, k));
        SameDisk(DoInsert(s1, x, k, payload, NextLoc(s.cur, k)), StepInsert(s, x, k, payload));
      }
    }
  }

  lemma DeleteStepDisk(s: Engine, x: Xid, iso: Isolation, l: Loc)
    requires Inv(s) && DiskInv(s) && iso != REPEATABLE_READ
    ensures DiskInv(StepDelete(s, x, iso, l))
  {
    if Running(s, x) && HasLoc(s.cur, l) {
      var s1, go := DeleteParts(s, x, iso, l);
      SameDisk(s, s1);
      if go { DeleteDisk(s1, x, l); }
    }
  }

  lemma UpdateDisk(s: Engine, x: Xid, l: Loc, k: PageKey, payload: seq<byte>)
    requires MayDelete(s, x, l) && DiskInv(s) && Fits(DoDelete(s, x, l), k, payload) && l in s.rowOf
    requires Bounded(DoDelete(s, x, l))
    ensures DiskInv(DoInsert(DoDelete(s, x, l), x, k, payload, s.rowOf[l]))
  {
    DeleteInv(s, x, l);
    DeleteDisk(s, x, l);
    InsertDisk(DoDelete(s, x, l), x, k, payload, s.rowOf[l]);
  }

  lemma UpdateStepDisk(s: Engine, x: Xid, iso: Isolation, l: Loc, k: PageKey, payload: seq<byte>)
    requires Inv(s) && DiskInv(s) && iso != REPEATABLE_READ && Bounded(StepUpdate(s, x, iso, l, k, payload))
    ensures DiskInv(StepUpdate(s, x, iso, l, k, payload))
  {
    if UpdateReady(s, x, iso, l, k, payload) {
      if ScanAndLock(s, x, iso, l).1 {
        var s1, s2, s3 := UpdateParts(s, x, iso, l, k, payload);
        SameDisk(s, s1);
        UpdateDisk(s1, x, l, k, payload);
        SameDisk(s3, StepUpdate(s, x, iso, l, k, payload));
      } else {
        SameDisk(s, StepUpdate(s, x, iso, l, k, payload));
      }
    }
  }

  lemma {:induction false} UndoTouches(log: seq<LogRec>, n: nat, x: Xid, ps: PageMap, k: PageKey)
    requires n <= |log| && k in ps && k !in TouchedBy(log, n, x)
    ensures k in UndoTx(log, n, x, ps) && UndoTx(log, n, x, ps)[k] == ps[k]
  {
    if n > 0 {
      UndoTouches(log, n - 1, x, if OfXid(log[n - 1], x) then UndoRec(log[n - 1], ps) else ps, k);
    }
  }

  lemma RollbackDisk(s: Engine, x: Xid)
    requires Inv(s) && DiskInv(s) && Bounded(StepRollback(s, x))
    ensures DiskInv(StepRollback(s, x))
  {
    if x in A(s) {
      var t := StepRollback(s, x);
      EndNextLsn(s.wal, x, false);
      AppendEndFacts(s.wal, x, false);
      UndoTxShape(s.wal.log, |s.wal.log|, x, s.cur);
      forall k | k in s.cur && k !in t.dirty ensures k !in s.dirty && t.cur[k] == s.cur[k] {
        UndoTouches(s.wal.log, |s.wal.log|, x, s.cur, k);
      }
      OtherAppendedDisk(s, t);
    }
  }

  lemma CommitDisk(s: Engine, x: Xid)
    requires Inv(s) && DiskInv(s) && Bounded(StepCommit(s, x))
    ensures DiskInv(StepCommit(s, x))
  {
    if x in A(s) {
      EndNextLsn(s.wal, x, true);
      AppendEndFacts(s.wal, x, true);
      OtherAppendedDisk(s, StepCommit(s, x));
    }
  }

  lemma BeginDisk(s: Engine)
    requires Inv(s) && DiskInv(s)
    ensures DiskInv(Step(s, Begin))
  {
    OtherAppendedDisk(s, Step(s, Begin));
  }

  lemma FlushDisk(s: Engine)
    requires Inv(s) && DiskInv(s)
    ensures DiskInv(Step(s, FlushLog))
  {
    FlushAppends(s);
    OtherAppendedDisk(s, s.(wal := FlushTo(s.wal, NULL_LSN)));
  }

  lemma FlushAppends(s: Engine)
    requires WalInv(s.wal)
    ensures var t := s.(wal := FlushTo(s.wal, NULL_LSN));
      OtherAppended(s, t) && t.wal.master == s.wal.master && t.wal.log == s.wal.log
  {
    FlushToFacts(s.wal, NULL_LSN);
  }

  lemma LightStepDisk(s: Engine, op: Op)
    requires DiskInv(s) && (op.Command? || op.LockTableStmt? || op.LockRowStmt?)
    ensures DiskInv(Step(s, op))
  {
    SameDisk(s, Step(s, op));
  }

  lemma StepDisk(s: Engine, op: Op)
    requires Inv(s) && DiskInv(s) && WriterOk(op) && Bounded(Step(s, op))
    ensures DiskInv(Step(s, op))
  {
    match op
    case Begin => BeginDisk(s);
    case Command(x) => LightStepDisk(s, op);
    case LockTableStmt(x, m, oid) => LightStepDisk(s, op);
    case LockRowStmt(x, m, l) => LightStepDisk(s, op);
    case InsertRow(x, k, payload) => InsertStepDisk(s, x, k, payload);
    case DeleteRow(x, iso, l) => DeleteStepDisk(s, x, iso, l);
    case UpdateRow(x, iso, l, k, payload) => UpdateStepDisk(s, x, iso, l, k, payload);
    case Commit(x) => CommitDisk(s, x);
    case Rollback(x) => RollbackDisk(s, x);
    case Evict(k) => EvictDisk(s, k);
    case FlushLog => FlushDisk(s);
    case TakeCheckpoint => CheckpointDisk(s);
  }

  lemma InitDisk(s: Engine)
    requires Init(s)
    ensures DiskInv(s)
  {
    InitInv(s);
    var b :| CleanWal(s.wal, b);
    assert CheckpointAt(s.wal.log, 2) == 0;
    forall k ensures PageOk(s, k) && LogBeforePage(s, k) {}
  }

  /** At every state of every run: whatever the disk image of a page reflects
      is durable in the log, and whatever it lacks is announced by the
      dirty-page table, in memory and in the newest durable checkpoint. */
  lemma {:induction false} RunDisk(s: Engine, ops: seq<Op>)
    requires Inv(s) && DiskInv(s) && WritersOk(ops) && Bounded(Run(s, ops))
    ensures Inv(Run(s, ops)) && DiskInv(Run(s, ops))
    decreases |ops|
  {
    if ops != [] {
      var t := Step(s, ops[0]);
      RunGrows(t, ops[1..]);
      assert WriterOk(ops[0]);
      StepInv(s, ops[0]);
      StepDisk(s, ops[0]);
      RunDisk(t, ops[1..]);
    }
  }

  lemma LogBeforePageAndCoverage(s0: Engine, ops: seq<Op>, k: PageKey, i: nat)
    requires Init(s0) && WritersOk(ops) && Bounded(Run(s0, ops))
    requires var s := Run(s0, ops); k in s.disk && i < |s.wal.log| && OnPage(s.wal.log[i], k)
    ensures var s := Run(s0, ops);
      && (s.wal.log[i].lsn <= s.disk[k].lsn ==> i < s.wal.durable)
      && (s.wal.log[i].lsn > s.disk[k].lsn ==> k in s.wal.dpt && s.wal.dpt[k] <= s.wal.log[i].lsn)
  {
    InitInv(s0);
    InitDisk(s0);
    RunDisk(s0, ops);
    var s := Run(s0, ops);
    assert LogBeforePage(s, k) && Covers(s.wal.dpt, s.wal.log, |s.wal.log|, s.disk, k);
    if s.wal.log[i].lsn > s.disk[k].lsn {
      assert Missing(s.wal.log, i, s.disk, k);
    }
  }
}
