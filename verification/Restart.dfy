/** Restart over the real objects: redo and undo read the log file and change
    pages through the buffer pool. */
module Restarts {
  import opened Types
  import opened Bytes
  import opened Pages
  import opened Wal
  import opened Replay
  import opened LogWalks
  import LogManagement
  import opened EngineDisk
  import opened Recovery
  import opened CrashRecovery
  import opened Caches
  import opened BufferPools
  import opened FramePools
  import opened Transactions
  import opened CachedRedo
  import opened RedoWindow
  import opened CachedRecovery
  import opened RestartBounds
  import opened CachedPages

  // ---- what the pool does to the log during recovery ----------------------

  lemma AllDurable(w: Wal, lsn: Lsn)
    requires w.durable == |w.log|
    ensures FlushTo(w, lsn) == w
  {
    CountsAll(w.log, |w.log|, lsn);
  }

  lemma {:induction false} CountsAll(log: seq<LogRec>, n: nat, lsn: Lsn)
    requires n <= |log|
    ensures CountUpTo(log, n, lsn) <= n
  {
    if n > 0 { CountsAll(log, n - 1, lsn); }
  }

  /** With the whole log durable, making room costs the victim its entry and
      nothing else. */
  lemma FetchCosts(w: Wal, c: Cache<Page>, k: PageKey)
    requires w.durable == |w.log| && CacheOk(c)
    ensures FetchedLog(w, c, k) == w.(dpt := w.dpt - WrittenBack(c, k))
  {
    if WrittenBack(c, k) != {} {
      AllDurable(w, c.mem[Oldest(c)].lsn);
    } else {
      assert w.dpt - {} == w.dpt;
    }
  }

  // Asking again for the page just fetched changes nothing.
  lemma FetchedTwice(c: Cache<Page>, k: PageKey)
    requires CacheOk(c) && k in View(c)
    ensures k in View(Fetched(c, k)) && Fetched(Fetched(c, k), k) == Fetched(c, k) && WrittenBack(Fetched(c, k), k) == {}
  {
    FetchedFacts(c, k);
    var keys := Fetched(c, k).keys;
    assert keys[0] == k;
    assert [k] + keys[1..] == keys;
  }

  /** Undo the chain of one transaction, through the cache. */
  function UndoChainOver(log: seq<LogRec>, n: nat, x: Xid, c: Cache<Page>): Cache<Page>
    requires n <= |log|
  {
    if n == 0 then c
    else if OfXid(log[n - 1], x) then
      if log[n - 1].BeginLog? then c else UndoChainOver(log, n - 1, x, UndoStep(log[n - 1], c))
    else UndoChainOver(log, n - 1, x, c)
  }

  function UndoChainsOver(log: seq<LogRec>, order: seq<Xid>, c: Cache<Page>): Cache<Page> {
    if order == [] then c
    else UndoChainOver(log, |log|, order[|order| - 1], UndoChainsOver(log, order[..|order| - 1], c))
  }

  lemma {:induction false} ChainOver(log: seq<LogRec>, n: nat, x: Xid, c: Cache<Page>) returns (i: nat)
    requires n <= |log| && LastLsn(log, n, x) != NULL_LSN && forall j :: 0 <= j < |log| ==> PrevOk(log, j)
    ensures Newest(log, n, x, i) && log[i].lsn == LastLsn(log, n, x) && log[i].prev == PrevFor(log, i, log[i])
    ensures UndoChainOver(log, n, x, c) == UndoChainOver(log, if log[i].BeginLog? then 0 else i, x, UndoStep(log[i], c))
  {
    if OfXid(log[n - 1], x) {
      i := n - 1;
      assert PrevOk(log, i);
    } else {
      i := ChainOver(log, n - 1, x, c);
    }
  }

  // The record that is undone next, and how much of the log is left after it.
  lemma NextBack(log: seq<LogRec>, n: nat, x: Xid, c: Cache<Page>) returns (i: nat, m: nat)
    requires n <= |log| && LastLsn(log, n, x) != NULL_LSN && (forall j :: 0 <= j < |log| ==> PrevOk(log, j))
    requires CacheOk(c) && UndoSafe(log, x, View(c))
    ensures i < |log| && m < n && log[i].lsn == LastLsn(log, n, x) && log[i].prev == LastLsn(log, m, x)
    ensures UndoOk(log[i], View(c)) && UndoSafe(log, x, View(UndoStep(log[i], c)))
    ensures UndoChainOver(log, n, x, c) == UndoChainOver(log, m, x, UndoStep(log[i], c))
  {
    i := ChainOver(log, n, x, c);
    m := if log[i].BeginLog? then 0 else i;
    UndoStepView(log[i], c);
    UndoRecFacts(log[i], View(c), Loc(0, Rid(0, 0)));
    UndoSafeKept(log, x, View(c), View(UndoStep(log[i], c)));
  }

  lemma {:induction false} ChainOverEnd(log: seq<LogRec>, n: nat, x: Xid, c: Cache<Page>, nextLsn: Lsn)
    requires n <= |log| && LastLsn(log, n, x) == NULL_LSN && Contiguous(log, nextLsn) && nextLsn <= NULL_LSN
    ensures UndoChainOver(log, n, x, c) == c
  {
    if n > 0 {
      LsnBelowEnd(log, nextLsn, n - 1);
      ChainOverEnd(log, n - 1, x, c, nextLsn);
    }
  }

  lemma {:induction false} ChainOverView(log: seq<LogRec>, n: nat, x: Xid, c: Cache<Page>)
    requires n <= |log| && CacheOk(c)
    ensures CacheOk(UndoChainOver(log, n, x, c)) && View(UndoChainOver(log, n, x, c)) == UndoChain(log, n, x, View(c))
    ensures SameShape(View(c), View(UndoChainOver(log, n, x, c)))
  {
    if n > 0 {
      if OfXid(log[n - 1], x) && !log[n - 1].BeginLog? {
        UndoStepView(log[n - 1], c);
        UndoRecFacts(log[n - 1], View(c), Loc(0, Rid(0, 0)));
        ChainOverView(log, n - 1, x, UndoStep(log[n - 1], c));
      } else if !OfXid(log[n - 1], x) {
        ChainOverView(log, n - 1, x, c);
      }
    }
  }

  // One more transaction undone.
  lemma NextUndone(log: seq<LogRec>, done: seq<Xid>, x: Xid, att: map<Xid, Lsn>, xids: set<Xid>, c0: Cache<Page>, c: Cache<Page>)
    requires CacheOk(c) && x in xids && xids <= att.Keys && LogManagement.Listed(done, att.Keys - xids)
    requires c == UndoChainsOver(log, done, c0) && forall y :: y in att ==> UndoSafe(log, y, View(c))
    ensures UndoChainsOver(log, done + [x], c0) == UndoChainOver(log, |log|, x, c)
    ensures LogManagement.Listed(done + [x], att.Keys - (xids - {x}))
    ensures forall y :: y in att ==> UndoSafe(log, y, View(UndoChainOver(log, |log|, x, c)))
  {
    LogManagement.ListedMore(done, att.Keys - xids, x);
    assert (done + [x])[..|done|] == done;
    assert att.Keys - (xids - {x}) == (att.Keys - xids) + {x};
    ChainOverView(log, |log|, x, c);
    forall y | y in att ensures UndoSafe(log, y, View(UndoChainOver(log, |log|, x, c))) {
      UndoSafeKept(log, y, View(c), View(UndoChainOver(log, |log|, x, c)));
    }
  }

  // Nothing to undo before the first record of `x`.
  lemma {:induction false} NothingOver(log: seq<LogRec>, n: nat, x: Xid, c: Cache<Page>)
    requires n <= |log| && forall i :: 0 <= i < n ==> !OfXid(log[i], x)
    ensures UndoTxOver(log, n, x, c) == c
  {
    if n > 0 { NothingOver(log, n - 1, x, c); }
  }

  lemma {:induction false} ChainOverIsWhole(log: seq<LogRec>, n: nat, x: Xid, c: Cache<Page>)
    requires n <= |log| && BeganOnce(log, x)
    ensures UndoChainOver(log, n, x, c) == UndoTxOver(log, n, x, c)
  {
    if n > 0 {
      if !OfXid(log[n - 1], x) {
        ChainOverIsWhole(log, n - 1, x, c);
      } else if log[n - 1].BeginLog? {
        NothingOver(log, n - 1, x, c);
      } else {
        ChainOverIsWhole(log, n - 1, x, UndoStep(log[n - 1], c));
      }
    }
  }

  /** When no id was used twice, the chains are the whole transactions. */
  lemma {:induction false} ChainsAreWhole(log: seq<LogRec>, order: seq<Xid>, c: Cache<Page>)
    requires forall x :: x in order ==> BeganOnce(log, x)
    ensures UndoChainsOver(log, order, c) == UndoAllOver(log, order, c)
    decreases |order|
  {
    if order != [] {
      ChainsAreWhole(log, order[..|order| - 1], c);
      ChainOverIsWhole(log, |log|, order[|order| - 1], UndoAllOver(log, order[..|order| - 1], c));
    }
  }

  // What redo and undo come to is there.
  ghost predicate CanRestart(log: seq<LogRec>, c: nat, c0: Cache<Page>)
    requires c + 2 <= |log| && log[c + 1].EndCheckpointLog?
  {
    var a := LogManagement.AnalysisOf(log, c);
    && (forall k :: k in a.dpt ==> exists i :: 0 <= i < |log| && log[i].lsn == a.dpt[k])
    && (forall i :: RedoStart(log, a.dpt, c, i) ==>
          && RedoSafe(log, i, Redoing(c0, a.dpt))
          && (forall x :: x in a.att ==> UndoSafe(log, x, View(RedoTo(log, i, |log|, Redoing(c0, a.dpt)).cache))))
  }

  class Restart {
    const logManager: LogManagement.LogManager
    const store: CachedStore

    ghost predicate Valid()
      reads this, store, store.pool, store.pool.disk, store.pool.bufferStrategy, store.pool.Pages(), store.pool.Arrays()
      reads logManager, logManager.disk, store.pool.logManager, store.pool.logManager.disk
    {
      store.pool.logManager == logManager && store.Valid() && logManager.w.durable == |logManager.w.log|
    }

    // The state of redo: the cache, and the dirty-page table.
    ghost function State(): Redoing
      reads this, store, store.pool, store.pool.disk, store.pool.bufferStrategy, store.pool.Pages(), store.pool.Arrays(), logManager
    {
      Redoing(store.Value(), logManager.w.dpt)
    }

    constructor (logManager: LogManagement.LogManager, store: CachedStore)
      ensures this.logManager == logManager && this.store == store
    {
      this.logManager, this.store := logManager, store;
    }

    // Redo one record if its page is dirty, not yet that old and has not got it.
    method RedoOne(r: LogRec, ghost t: Redoing, ghost known: set<object>) returns (ghost known': set<object>)
      requires Valid() && store.pool.Within(known) && State() == t && StepSafe(r, t) && !r.NewPageLog?
      modifies store.pool, store.pool.disk, store.pool.bufferStrategy, logManager, logManager.disk, known
      ensures Valid() && State() == RedoStep(r, t)
      ensures logManager.w == old(logManager.w).(dpt := RedoStep(r, t).dpt)
      ensures store.pool.Within(known') && known <= known' && (forall o :: o in known' && o !in known ==> fresh(o))
    {
      known' := known;
      if r.InsertLog? || r.DeleteLog? {
        var key := PageKey(r.oid, r.page);
        if key in logManager.dpt && r.lsn >= logManager.dpt[key] {
          known' := RedoAsked(r, key, t, known);
        }
      }
    }

    // Ask for the page; if it has not got the record yet, apply it.
    method RedoAsked(r: LogRec, key: PageKey, ghost t: Redoing, ghost known: set<object>) returns (ghost known': set<object>)
      requires Valid() && store.pool.Within(known) && State() == t && StepSafe(r, t) && Asks(r, t.dpt) && key == KeyOfRec(r)
      modifies store.pool, store.pool.disk, store.pool.bufferStrategy, logManager, logManager.disk, known
      ensures Valid() && State() == RedoStep(r, t)
      ensures logManager.w == old(logManager.w).(dpt := RedoStep(r, t).dpt)
      ensures store.pool.Within(known') && known <= known' && (forall o :: o in known' && o !in known ==> fresh(o))
    {
      store.ValueView();
      FetchedFacts(t.cache, key);
      var pageLsn;
      pageLsn, known' := LookAt(key, t.cache, known);
      if r.lsn > pageLsn {
        known' := RedoHere(r, key, View(t.cache), t.cache, known');
      }
    }

    method LookAt(key: PageKey, ghost c: Cache<Page>, ghost known: set<object>) returns (lsn: Lsn, ghost known': set<object>)
      requires Valid() && store.pool.Within(known) && store.Value() == c && CacheOk(c) && View(c) == store.Pages() && key in View(c)
      modifies store.pool, store.pool.disk, store.pool.bufferStrategy, logManager, logManager.disk
      ensures Valid() && store.Pages() == View(c) && lsn == View(c)[key].lsn && store.Value() == Fetched(c, key)
      ensures logManager.w == old(logManager.w).(dpt := old(logManager.w.dpt) - WrittenBack(c, key))
      ensures store.pool.Within(known') && known <= known' && (forall o :: o in known' && o !in known ==> fresh(o))
    {
      FetchCosts(logManager.w, c, key);
      lsn, known' := store.PageLSN(key, View(c), c, known);
    }

    method RedoHere(r: LogRec, key: PageKey, ghost ps: PageMap, ghost c: Cache<Page>, ghost known: set<object>) returns (ghost known': set<object>)
      requires Valid() && store.pool.Within(known) && CacheOk(c) && key in View(c) && View(c) == ps
      requires store.Value() == Fetched(c, key) && store.Pages() == ps
      requires IsRowRec(r) && key == KeyOfRec(r) && InBounds(r, ps[key])
      modifies store.pool, store.pool.disk, store.pool.bufferStrategy, logManager, logManager.disk, known
      ensures Valid() && store.Value() == Caches.Stored(Fetched(c, key), key, RedoPage(r, ps[key]))
      ensures logManager.w == old(logManager.w)
      ensures store.pool.Within(known') && known <= known' && (forall o :: o in known' && o !in known ==> fresh(o))
    {
      FetchedFacts(c, key);
      FetchedTwice(c, key);
      FetchCosts(logManager.w, Fetched(c, key), key);
      assert logManager.w.dpt - {} == logManager.w.dpt;
      known' := store.Redo(r, ps, Fetched(c, key), known);
    }

    // Redo has come to `t`; the log is that of `w`, but for the dirty-page table.
    ghost predicate At(w: Wal, t: Redoing, known: set<object>)
      reads this, store, store.pool, store.pool.disk, store.pool.bufferStrategy, store.pool.Pages(), store.pool.Arrays()
      reads logManager, logManager.disk, store.pool.logManager, store.pool.logManager.disk
    {
      Valid() && store.pool.Within(known) && State() == t && logManager.w == w.(dpt := t.dpt)
    }

    lemma LogReadable()
      requires Valid()
      ensures var log := logManager.w.log;
        LogManagement.Stored(log, |log|, logManager.disk.logFile) && Contiguous(log, logManager.nextLsn) && LogInv(logManager.w) && logManager.Ties()
    {
    }

    lemma PagesAllocated()
      ensures forall p :: p in store.pool.Pages() ==> allocated(p)
      ensures forall a :: a in store.pool.Arrays() ==> allocated(a)
    {
    }

    /** Repeat history from the least dirty-page entry on. */
    method Redo(ghost c: nat, ghost w: Wal, ghost s0: Redoing, ghost known: set<object>) returns (ghost start: nat, ghost known': set<object>)
      requires At(w, s0, known) && c < |w.log| && logManager.disk.MasterLsn() == w.log[c].lsn
      requires forall i :: 0 <= i < |w.log| ==> !w.log[i].NewPageLog?
      requires forall k :: k in s0.dpt ==> exists i :: 0 <= i < |w.log| && w.log[i].lsn == s0.dpt[k]
      requires forall i :: RedoStart(w.log, s0.dpt, c, i) ==> RedoSafe(w.log, i, s0)
      modifies store.pool, store.pool.disk, store.pool.bufferStrategy, logManager, logManager.disk, known
      ensures RedoStart(w.log, s0.dpt, c, start) && At(w, RedoTo(w.log, start, |w.log|, s0), known')
      ensures known <= known' && (forall o :: o in known' && o !in known ==> fresh(o))
    {
      var minLsn;
      minLsn, start := LeastLsn(c, w, s0, known);
      known' := RedoRecords(minLsn, w, start, s0, known);
    }

    method LeastLsn(ghost c: nat, ghost w: Wal, ghost s0: Redoing, ghost known: set<object>) returns (minLsn: Lsn, ghost start: nat)
      requires At(w, s0, known) && c < |w.log| && logManager.disk.MasterLsn() == w.log[c].lsn
      requires forall k :: k in s0.dpt ==> exists i :: 0 <= i < |w.log| && w.log[i].lsn == s0.dpt[k]
      ensures RedoStart(w.log, s0.dpt, c, start) && minLsn == LsnAt(w.log, start, w.nextLsn) && At(w, s0, known)
    {
      LogReadable();
      PagesAllocated();
      var checkpointLsn := logManager.disk.MasterLsn();
      minLsn := logManager.LeastEntry();
      start := LogManagement.StartFor(w.log, logManager.w.nextLsn, s0.dpt, c, minLsn);
      if minLsn == logManager.nextLsn {
        minLsn := checkpointLsn;
      }
    }

    method RedoRecords(lsn: Lsn, ghost w: Wal, ghost start: nat, ghost s0: Redoing, ghost known: set<object>) returns (ghost known': set<object>)
      requires At(w, s0, known) && start <= |w.log| && lsn == LsnAt(w.log, start, w.nextLsn) && RedoSafe(w.log, start, s0)
      requires forall i :: 0 <= i < |w.log| ==> !w.log[i].NewPageLog?
      modifies store.pool, store.pool.disk, store.pool.bufferStrategy, logManager, logManager.disk, known
      ensures At(w, RedoTo(w.log, start, |w.log|, s0), known')
      ensures known <= known' && (forall o :: o in known' && o !in known ==> fresh(o))
    {
      var end := EndOfLog(w, s0, known);
      AtEnd(w.log, start, w.nextLsn);
      var lsnNow: Lsn := lsn;
      ghost var i: nat := start;
      known' := known;
      while lsnNow < end
        invariant start <= i <= |w.log| && (lsnNow >= end <==> i == |w.log|)
        invariant i < |w.log| ==> lsnNow == w.log[i].lsn
        invariant At(w, RedoTo(w.log, start, i, s0), known')
        invariant known <= known' && (forall o :: o in known' && o !in known ==> fresh(o))
        decreases |w.log| - i
      {
        lsnNow, known', i := RedoTurn(lsnNow, w, start, i, s0, known');
      }
    }

    method EndOfLog(ghost w: Wal, ghost t: Redoing, ghost known: set<object>) returns (end: Lsn)
      requires At(w, t, known)
      ensures end == w.nextLsn && Contiguous(w.log, w.nextLsn) && At(w, t, known)
    {
      LogReadable();
      end := logManager.nextLsn;
    }

    method RedoTurn(lsn: Lsn, ghost w: Wal, ghost start: nat, ghost i: nat, ghost s0: Redoing, ghost known: set<object>)
      returns (next: Lsn, ghost known': set<object>, ghost j: nat)
      requires start <= i < |w.log| && At(w, RedoTo(w.log, start, i, s0), known) && RedoSafe(w.log, start, s0)
      requires lsn == w.log[i].lsn && !w.log[i].NewPageLog?
      modifies store.pool, store.pool.disk, store.pool.bufferStrategy, logManager, logManager.disk, known
      ensures j == i + 1 && At(w, RedoTo(w.log, start, j, s0), known')
      ensures (j < |w.log| ==> next == w.log[j].lsn) && (next >= w.nextLsn <==> j == |w.log|)
      ensures known <= known' && (forall o :: o in known' && o !in known ==> fresh(o))
    {
      j := i + 1;
      RedoToNext(w.log, start, i, s0);
      next, known' := RedoNext(lsn, w, i, RedoTo(w.log, start, i, s0), known);
    }

    // Read the record at `lsn` and redo it.
    method RedoNext(lsn: Lsn, ghost w: Wal, ghost i: nat, ghost t: Redoing, ghost known: set<object>) returns (next: Lsn, ghost known': set<object>)
      requires At(w, t, known) && i < |w.log| && lsn == w.log[i].lsn && StepSafe(w.log[i], t) && !w.log[i].NewPageLog?
      modifies store.pool, store.pool.disk, store.pool.bufferStrategy, logManager, logManager.disk, known
      ensures At(w, RedoStep(w.log[i], t), known') && logManager.nextLsn == w.nextLsn
      ensures next == LsnAt(w.log, i + 1, w.nextLsn) && (next >= w.nextLsn <==> i + 1 == |w.log|)
      ensures known <= known' && (forall o :: o in known' && o !in known ==> fresh(o))
    {
      var record;
      record, next := ReadOn(lsn, w, i, t, known);
      known' := RedoOne(record, t, known);
    }

    method ReadOn(lsn: Lsn, ghost w: Wal, ghost i: nat, ghost t: Redoing, ghost known: set<object>) returns (record: LogRec, next: Lsn)
      requires At(w, t, known) && i < |w.log| && lsn == w.log[i].lsn
      ensures record == w.log[i] && next == LsnAt(w.log, i + 1, w.nextLsn) && (next >= w.nextLsn <==> i + 1 == |w.log|)
      ensures At(w, t, known) && logManager.nextLsn == w.nextLsn
    {
      LogReadable();
      PagesAllocated();
      record, next := logManager.ReadNext(lsn, w.log, i);
    }

    // ---- undo -------------------------------------------------------------

    // Undo has come to the cache `c`; the log is that of `w`, but for the dirty-page table.
    ghost predicate Undoing(w: Wal, c: Cache<Page>, known: set<object>)
      reads this, store, store.pool, store.pool.disk, store.pool.bufferStrategy, store.pool.Pages(), store.pool.Arrays()
      reads logManager, logManager.disk, store.pool.logManager, store.pool.logManager.disk
    {
      Valid() && store.pool.Within(known) && store.Value() == c && logManager.w == w.(dpt := logManager.w.dpt)
    }

    // Read the record at `lsn` and undo it.
    method UndoOne(lsn: Lsn, ghost i: nat, ghost w: Wal, ghost c: Cache<Page>, ghost known: set<object>) returns (prev: Lsn, ghost known': set<object>)
      requires Undoing(w, c, known) && i < |w.log| && lsn == w.log[i].lsn && UndoOk(w.log[i], View(c))
      modifies store.pool, store.pool.disk, store.pool.bufferStrategy, logManager, logManager.disk, known
      ensures Undoing(w, UndoStep(w.log[i], c), known') && prev == w.log[i].prev
      ensures known <= known' && (forall o :: o in known' && o !in known ==> fresh(o))
    {
      var r := ReadBack(lsn, i, w, c, known);
      known' := UndoRecord(r, w, c, known);
      prev := r.prev;
    }

    method ReadBack(lsn: Lsn, ghost i: nat, ghost w: Wal, ghost c: Cache<Page>, ghost known: set<object>) returns (r: LogRec)
      requires Undoing(w, c, known) && i < |w.log| && lsn == w.log[i].lsn
      ensures r == w.log[i] && Undoing(w, c, known)
    {
      LogReadable();
      PagesAllocated();
      r := logManager.Fetch(lsn, i);
    }

    method UndoRecord(r: LogRec, ghost w: Wal, ghost c: Cache<Page>, ghost known: set<object>) returns (ghost known': set<object>)
      requires Undoing(w, c, known) && UndoOk(r, View(c))
      modifies store.pool, store.pool.disk, store.pool.bufferStrategy, logManager, logManager.disk, known
      ensures Undoing(w, UndoStep(r, c), known')
      ensures known <= known' && (forall o :: o in known' && o !in known ==> fresh(o))
    {
      store.ValueView();
      if IsRowRec(r) { FetchCosts(logManager.w, c, KeyOfRec(r)); }
      known' := store.Undo(r, View(c), c, known);
    }

    // One record back along the chain of `xid`.
    method UndoTurn(lsn: Lsn, ghost n: nat, ghost xid: Xid, ghost w: Wal, ghost c: Cache<Page>, ghost known: set<object>)
      returns (prev: Lsn, ghost known': set<object>, ghost m: nat, ghost c': Cache<Page>)
      requires Undoing(w, c, known) && n <= |w.log| && lsn == LastLsn(w.log, n, xid) != NULL_LSN && UndoSafe(w.log, xid, View(c))
      modifies store.pool, store.pool.disk, store.pool.bufferStrategy, logManager, logManager.disk, known
      ensures m < n && prev == LastLsn(w.log, m, xid) && UndoSafe(w.log, xid, View(c'))
      ensures Undoing(w, c', known') && UndoChainOver(w.log, m, xid, c') == UndoChainOver(w.log, n, xid, c)
      ensures known <= known' && (forall o :: o in known' && o !in known ==> fresh(o))
    {
      LogReadable();
      store.ValueView();
      ghost var i;
      i, m := NextBack(w.log, n, xid, c);
      c' := UndoStep(w.log[i], c);
      prev, known' := UndoOne(lsn, i, w, c, known);
    }

    /** Roll back one transaction of the table: go back along its chain, undoing
        each record. */
    method Rollback(xid: Xid, ghost w: Wal, ghost c: Cache<Page>, ghost known: set<object>) returns (ghost known': set<object>)
      requires Undoing(w, c, known) && xid in logManager.att && UndoSafe(w.log, xid, View(c))
      modifies store.pool, store.pool.disk, store.pool.bufferStrategy, logManager, logManager.disk, known
      ensures Undoing(w, UndoChainOver(w.log, |w.log|, xid, c), known')
      ensures known <= known' && (forall o :: o in known' && o !in known ==> fresh(o))
    {
      AttIsLast(w.log, |w.log|, xid);
      var lsn: Lsn := logManager.att[xid];
      ghost var n: nat, t := |w.log|, c;
      known' := known;
      while lsn != NULL_LSN
        invariant n <= |w.log| && lsn == LastLsn(w.log, n, xid) && UndoSafe(w.log, xid, View(t))
        invariant Undoing(w, t, known') && UndoChainOver(w.log, n, xid, t) == UndoChainOver(w.log, |w.log|, xid, c)
        invariant known <= known' && (forall o :: o in known' && o !in known ==> fresh(o))
        decreases n
      {
        lsn, known', n, t := UndoTurn(lsn, n, xid, w, t, known');
      }
      LogReadable();
      ChainOverEnd(w.log, n, xid, t, w.nextLsn);
    }

    // Roll back one of the transactions still to do.
    method RollbackTurn(xid: Xid, ghost xids: set<Xid>, ghost done: seq<Xid>, ghost w: Wal, ghost c0: Cache<Page>, ghost c: Cache<Page>,
                        ghost known: set<object>)
      returns (ghost known': set<object>, ghost done': seq<Xid>, ghost c': Cache<Page>)
      requires Undoing(w, c, known) && xid in xids && xids <= w.att.Keys && LogManagement.Listed(done, w.att.Keys - xids)
      requires c == UndoChainsOver(w.log, done, c0) && forall x :: x in w.att ==> UndoSafe(w.log, x, View(c))
      modifies store.pool, store.pool.disk, store.pool.bufferStrategy, logManager, logManager.disk, known
      ensures Undoing(w, c', known') && LogManagement.Listed(done', w.att.Keys - (xids - {xid}))
      ensures c' == UndoChainsOver(w.log, done', c0) && forall x :: x in w.att ==> UndoSafe(w.log, x, View(c'))
      ensures known <= known' && (forall o :: o in known' && o !in known ==> fresh(o))
    {
      store.ValueView();
      NextUndone(w.log, done, xid, w.att, xids, c0, c);
      done', c' := done + [xid], UndoChainOver(w.log, |w.log|, xid, c);
      known' := Rollback(xid, w, c, known);
    }

    /** Roll back every transaction of the rebuilt table. */
    method Undo(ghost w: Wal, ghost c: Cache<Page>, ghost known: set<object>) returns (ghost order: seq<Xid>, ghost known': set<object>)
      requires Undoing(w, c, known) && forall x :: x in w.att ==> UndoSafe(w.log, x, View(c))
      modifies store.pool, store.pool.disk, store.pool.bufferStrategy, logManager, logManager.disk, known
      ensures Undoing(w, UndoChainsOver(w.log, order, c), known') && Enumerates(order, w.att)
      ensures known <= known' && (forall o :: o in known' && o !in known ==> fresh(o))
    {
      var xids := logManager.att.Keys;
      ghost var t := c;
      order, known' := [], known;
      while xids != {}
        invariant xids <= w.att.Keys && LogManagement.Listed(order, w.att.Keys - xids)
        invariant Undoing(w, t, known') && t == UndoChainsOver(w.log, order, c)
        invariant forall x :: x in w.att ==> UndoSafe(w.log, x, View(t))
        invariant known <= known' && (forall o :: o in known' && o !in known ==> fresh(o))
        decreases |xids|
      {
        var x :| x in xids;
        known', order, t := RollbackTurn(x, xids, order, w, c, t, known');
        xids := xids - {x};
      }
      assert w.att.Keys - xids == w.att.Keys;
    }

    // ---- restart ----------------------------------------------------------

    // The pool before analysis: it may be in front of a log not yet read.
    ghost predicate PoolReady(known: set<object>)
      reads this, store, store.pool, store.pool.disk, store.pool.bufferStrategy, store.pool.Pages(), store.pool.Arrays()
    {
      store.pool.logManager == logManager && store.pool.Valid() && Synced(store.pool.State())
      && AllLaidOut(Contents(store.pool.State())) && store.pool.Within(known)
    }

    /** Rebuild the tables; the pool is then in front of the whole log. */
    method Analyze(transactionManager: TransactionManager, ghost log: seq<LogRec>, ghost c: nat, ghost known: set<object>)
      requires PoolReady(known) && LogManagement.Restartable(log, c, logManager.disk) && logManager.logBuffer == []
      requires LogManagement.AnalysisOf(log, c).att == AttOf(log, |log|)
      modifies logManager, transactionManager
      ensures var w := LogManagement.Analyzed(log, c); At(w, Redoing(old(store.Value()), w.dpt), known)
      ensures transactionManager.State() ==
        old(transactionManager.State()).(nextXid := NextXidAfter(LogManagement.AnalysisOf(log, c), old(transactionManager.nextXid)))
      ensures NextIdOk(log, c, old(transactionManager.nextXid), transactionManager.nextXid)
    {
      PagesAllocated();
      logManager.Analyze(transactionManager, log, c);
      PoolStays(known);
      AllBehindLog();
    }

    // Nothing but the log was touched.
    twostate lemma PoolStays(known: set<object>)
      requires old(PoolReady(known)) && unchanged(store.pool) && unchanged(store.pool.disk) && unchanged(store.pool.bufferStrategy)
      requires forall p :: p in old(store.pool.Pages()) ==> unchanged(p)
      requires forall a :: a in old(store.pool.Arrays()) ==> unchanged(a)
      ensures PoolReady(known) && store.Value() == old(store.Value())
    {
    }

    // Every page on disk is behind a log that is all durable.
    lemma AllBehindLog()
      requires store.pool.logManager == logManager && logManager.Valid() && logManager.w.durable == |logManager.w.log|
      ensures store.pool.LogOk()
    {
    }

    /** Restart: analysis, redo, undo. */
    method Recover(transactionManager: TransactionManager, ghost log: seq<LogRec>, ghost c: nat, ghost c0: Cache<Page>, ghost known: set<object>)
      returns (ghost start: nat, ghost order: seq<Xid>, ghost known': set<object>)
      requires PoolReady(known) && store.Value() == c0 && LogManagement.Restartable(log, c, logManager.disk) && logManager.logBuffer == []
      requires LogManagement.AnalysisOf(log, c).att == AttOf(log, |log|)
      requires CanRestart(log, c, c0) && (forall i :: 0 <= i < |log| ==> !log[i].NewPageLog?) && transactionManager !in known
      modifies store.pool, store.pool.disk, store.pool.bufferStrategy, logManager, logManager.disk, transactionManager, known
      ensures RedoStart(log, LogManagement.AnalysisOf(log, c).dpt, c, start) && Enumerates(order, LogManagement.AnalysisOf(log, c).att)
      ensures Undoing(LogManagement.Analyzed(log, c),
                      UndoChainsOver(log, order, RedoTo(log, start, |log|, Redoing(c0, LogManagement.AnalysisOf(log, c).dpt)).cache), known')
      ensures transactionManager.nextXid == NextXidAfter(LogManagement.AnalysisOf(log, c), old(transactionManager.nextXid))
      ensures NextIdOk(log, c, old(transactionManager.nextXid), transactionManager.nextXid)
    {
      Analyze(transactionManager, log, c, known);
      start, order, known' := RedoAndUndo(log, c, c0, LogManagement.Analyzed(log, c), known);
    }

    method RedoAndUndo(ghost log: seq<LogRec>, ghost c: nat, ghost c0: Cache<Page>, ghost w: Wal, ghost known: set<object>)
      returns (ghost start: nat, ghost order: seq<Xid>, ghost known': set<object>)
      requires c + 2 <= |log| && log[c + 1].EndCheckpointLog? && w == LogManagement.Analyzed(log, c)
      requires At(w, Redoing(c0, w.dpt), known) && logManager.disk.MasterLsn() == log[c].lsn
      requires CanRestart(log, c, c0) && forall i :: 0 <= i < |log| ==> !log[i].NewPageLog?
      modifies store.pool, store.pool.disk, store.pool.bufferStrategy, logManager, logManager.disk, known
      ensures RedoStart(log, w.dpt, c, start) && Enumerates(order, w.att)
      ensures Undoing(w, UndoChainsOver(log, order, RedoTo(log, start, |log|, Redoing(c0, w.dpt)).cache), known')
      ensures known <= known' && (forall o :: o in known' && o !in known ==> fresh(o))
    {
      start, known' := Redo(c, w, Redoing(c0, w.dpt), known);
      order, known' := UndoAfter(w, RedoTo(log, start, |log|, Redoing(c0, w.dpt)), known');
    }

    method UndoAfter(ghost w: Wal, ghost t: Redoing, ghost known: set<object>) returns (ghost order: seq<Xid>, ghost known': set<object>)
      requires At(w, t, known) && forall x :: x in w.att ==> UndoSafe(w.log, x, View(t.cache))
      modifies store.pool, store.pool.disk, store.pool.bufferStrategy, logManager, logManager.disk, known
      ensures Undoing(w, UndoChainsOver(w.log, order, t.cache), known') && Enumerates(order, w.att)
      ensures known <= known' && (forall o :: o in known' && o !in known ==> fresh(o))
    {
      order, known' := Undo(w, t.cache, known);
    }
  }
}
