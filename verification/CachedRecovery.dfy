/** Crash and restart at any point of a run, with redo and undo working through
    the page cache: what a new transaction reads. */
module CachedRecovery {
  import opened Types
  import opened Visibility
  import opened Pages
  import opened Wal
  import opened Replay
  import opened Engine
  import opened EngineInv
  import opened EngineEnds
  import opened EngineDisk
  import opened Recovery
  import opened EngineHistory
  import opened CrashRecovery
  import opened Caches
  import opened CachedRedo
  import opened RedoWindow

  // ---- undo through the cache ---------------------------------------------

  // What undo of a record makes of its page.
  function UndoPage(r: LogRec, p: Page): Page
    requires IsRowRec(r) && r.slot < |p.recs|
  {
    p.(recs := p.recs[r.slot := if r.InsertLog? then MarkDeleted(p.recs[r.slot], r.xid) else Unmark(p.recs[r.slot])])
  }

  function UndoStep(r: LogRec, c: Cache<Page>): Cache<Page> {
    if IsRowRec(r) && KeyOfRec(r) in View(c) then
      var f := Fetched(c, KeyOfRec(r));
      if HasLoc(View(c), LocOfRec(r)) then Stored(f, KeyOfRec(r), UndoPage(r, View(c)[KeyOfRec(r)])) else f
    else c
  }

  function UndoTxOver(log: seq<LogRec>, n: nat, x: Xid, c: Cache<Page>): Cache<Page>
    requires n <= |log|
  {
    if n == 0 then c
    else if OfXid(log[n - 1], x) then UndoTxOver(log, n - 1, x, UndoStep(log[n - 1], c))
    else UndoTxOver(log, n - 1, x, c)
  }

  function UndoAllOver(log: seq<LogRec>, order: seq<Xid>, c: Cache<Page>): Cache<Page> {
    if order == [] then c
    else UndoTxOver(log, |log|, order[|order| - 1], UndoAllOver(log, order[..|order| - 1], c))
  }

  lemma UndoStepView(r: LogRec, c: Cache<Page>)
    requires CacheOk(c)
    ensures CacheOk(UndoStep(r, c)) && View(UndoStep(r, c)) == UndoRec(r, View(c))
  {
    if IsRowRec(r) && KeyOfRec(r) in View(c) {
      var k := KeyOfRec(r);
      FetchedFacts(c, k);
      if HasLoc(View(c), LocOfRec(r)) { StoredFacts(Fetched(c, k), k, UndoPage(r, View(c)[k])); }
    }
  }

  lemma {:induction false} UndoTxView(log: seq<LogRec>, n: nat, x: Xid, c: Cache<Page>)
    requires n <= |log| && CacheOk(c)
    ensures CacheOk(UndoTxOver(log, n, x, c)) && View(UndoTxOver(log, n, x, c)) == UndoTx(log, n, x, View(c))
  {
    if n > 0 {
      if OfXid(log[n - 1], x) {
        UndoStepView(log[n - 1], c);
        UndoTxView(log, n - 1, x, UndoStep(log[n - 1], c));
      } else {
        UndoTxView(log, n - 1, x, c);
      }
    }
  }

  /** Undo needs no entries, so it may evict what it likes: its effect is that
      of undo on a page map. */
  lemma {:induction false} UndoAllView(log: seq<LogRec>, order: seq<Xid>, c: Cache<Page>)
    requires CacheOk(c)
    ensures CacheOk(UndoAllOver(log, order, c)) && View(UndoAllOver(log, order, c)) == UndoAll(log, order, View(c))
    decreases |order|
  {
    if order != [] {
      UndoAllView(log, order[..|order| - 1], c);
      UndoTxView(log, |log|, order[|order| - 1], UndoAllOver(log, order[..|order| - 1], c));
    }
  }

  // ---- recovery through the cache -----------------------------------------

  function Redone(log: seq<LogRec>, c: nat, start: nat, disk: PageMap): Redoing
    requires c + 2 <= |log| && log[c + 1].EndCheckpointLog? && start <= |log|
  {
    RedoTo(log, start, |log|, Redoing(Cold(disk), Analyze(log, c).dpt))
  }

  /** Redo and undo over a cache that is empty at first. */
  function RecoveredOver(log: seq<LogRec>, c: nat, start: nat, order: seq<Xid>, disk: PageMap): Cache<Page>
    requires c + 2 <= |log| && log[c + 1].EndCheckpointLog? && start <= |log|
  {
    UndoAllOver(log, order, Redone(log, c, start, disk).cache)
  }

  // What anyone who asks the cache for a page gets afterwards.
  function PagesAfter(log: seq<LogRec>, c: nat, start: nat, order: seq<Xid>, disk: PageMap): PageMap
    requires c + 2 <= |log| && log[c + 1].EndCheckpointLog? && start <= |log|
  {
    View(RecoveredOver(log, c, start, order, disk))
  }

  lemma CrashReady(base: PageMap, first: Xid, log: seq<LogRec>, c: nat, start: nat, disk: PageMap, m: map<PageKey, nat>)
    requires Crashed(base, first, log, c, disk, m) && RedoStart(log, Analyze(log, c).dpt, c, start)
    ensures Ready(log, start, Analyze(log, c).dpt, disk)
  {
    var dpt := Analyze(log, c).dpt;
    AnalysisDpt(log, c, |log|, Analysis(log[c + 1].att, log[c + 1].dpt, 0), disk);
    forall k ensures Covers(dpt, log, |log|, disk, k) {}
    forall j, k | 0 <= j < start && k in dpt ensures log[j].lsn < dpt[k] {
      assert log[j].lsn < log[start].lsn;
    }
  }

  lemma {:induction false} RedoFromLast(log: seq<LogRec>, i: nat, n: nat, dpt: map<PageKey, Lsn>, ps: PageMap)
    requires i < n <= |log|
    ensures RedoFrom(log, i, n, dpt, ps) == RedoRec(log[n - 1], dpt, RedoFrom(log, i, n - 1, dpt, ps))
    decreases n - i
  {
    if i < n - 1 { RedoFromLast(log, i + 1, n, dpt, RedoRec(log[i], dpt, ps)); }
  }

  /** While the cache keeps up, redo through it is redo on a page map. */
  lemma {:induction false} RedoToIsFlat(log: seq<LogRec>, i: nat, n: nat, dpt: map<PageKey, Lsn>, disk: PageMap)
    requires Ready(log, i, dpt, disk) && KeepsUp(log, dpt, disk) && i <= n <= |log|
    ensures View(RedoTo(log, i, n, Redoing(Cold(disk), dpt)).cache) == RedoFrom(log, i, n, dpt, disk)
    decreases n
  {
    if n == i {
      assert View(Cold(disk)) == disk;
    } else {
      var t := RedoTo(log, i, n - 1, Redoing(Cold(disk), dpt));
      RedoToIsFlat(log, i, n - 1, dpt, disk);
      WindowOnTrack(log, i, n - 1, dpt, disk);
      SameAsks(log, i, n - 1, dpt, disk, t);
      RedoStepView(log[n - 1], t);
      RedoFromLast(log, i, n, dpt, disk);
    }
  }

  /** While the cache keeps up with redo, recovery through it is recovery on a
      page map. */
  lemma RecoveredIsFlat(base: PageMap, first: Xid, log: seq<LogRec>, c: nat, start: nat, order: seq<Xid>, disk: PageMap, m: map<PageKey, nat>)
    requires Crashed(base, first, log, c, disk, m) && RedoStart(log, Analyze(log, c).dpt, c, start)
    requires KeepsUp(log, Analyze(log, c).dpt, disk)
    ensures PagesAfter(log, c, start, order, disk) == Recovered(log, c, start, order, disk)
  {
    CrashReady(base, first, log, c, start, disk, m);
    RedoToIsFlat(log, start, |log|, Analyze(log, c).dpt, disk);
    WindowOnTrack(log, start, |log|, Analyze(log, c).dpt, disk);
    UndoAllView(log, order, Redone(log, c, start, disk).cache);
  }

  /** Restart with a cache that keeps up: a new transaction sees a row exactly
      when its insert is committed and its delete is not, with the bytes that
      were inserted, unless its id and command id are those in the row's
      header. */
  lemma RestartSeesCommitted(base: PageMap, first: Xid, log: seq<LogRec>, c: nat, start: nat, order: seq<Xid>, disk: PageMap, m: map<PageKey, nat>,
                             x: Xid, cid: Cid, l: Loc)
    requires Crashed(base, first, log, c, disk, m)
    requires RedoStart(log, Analyze(log, c).dpt, c, start) && KeepsUp(log, Analyze(log, c).dpt, disk)
    requires Enumerates(order, Analyze(log, c).att)
    requires x < NULL_XID
    ensures var ps := PagesAfter(log, c, start, order, disk);
      && (Reads(ps, l, x, cid) <==>
            InsertCommitted(base, log, l) && !DeleteCommitted(base, log, l) && HasLoc(ps, l) && !OwnCommand(At(ps, l), x, cid))
      && (Fresh(base, log, x) ==> (Reads(ps, l, x, cid) <==> InsertCommitted(base, log, l) && !DeleteCommitted(base, log, l)))
      && (HasLoc(ps, l) && InBase(base, l) ==> At(ps, l).payload == At(base, l).payload)
      && (HasLoc(ps, l) ==> forall i :: 0 <= i < |log| && Inserts(log[i], l) ==> At(ps, l).payload == log[i].rec.payload)
  {
    RecoveredIsFlat(base, first, log, c, start, order, disk, m);
    FlatRestart(base, first, log, c, start, order, disk, m, x, cid, l);
  }

  /** The crash theorem: take any run of inserts, deletes, updates, commits,
      evictions, log flushes and checkpoints from a clean start, crash, and
      recover through the page cache.  The losers are the transactions without a
      durable commit; if the cache keeps up with redo, as it does when redo asks
      for no more pages than it has frames, then, in whatever order the losers
      are undone, a new transaction sees exactly the rows whose insert, and not
      whose delete, has a durable commit record. */
  lemma CrashAndRecover(s0: Engine, ops: seq<Op>, order: seq<Xid>, x: Xid, cid: Cid, l: Loc) returns (c: nat, start: nat)
    requires Init(s0) && WritersOk(ops) && Bounded(Run(s0, ops))
    requires forall i :: 0 <= i < |ops| ==> NoRollback(ops[i])
    requires var s := Run(s0, ops);
      s.wal.durable <= |s.wal.log| && Fresh(s0.cur, DurableLog(s), x) && Enumerates(order, AttOf(DurableLog(s), s.wal.durable))
    ensures var s := Run(s0, ops);
      var log := DurableLog(s);
      && c + 2 <= |log| && log[c].lsn == s.wal.master && log[c + 1].EndCheckpointLog?
      && var a := Analyze(log, c);
      && (forall y :: y in a.att <==> Mentioned(log, |log|, y) && !Committed(log, |log|, y))
      && RedoStart(log, a.dpt, c, start)
      && (|Asked(log, a.dpt)| <= BUFFER_SIZE ==> KeepsUp(log, a.dpt, s.disk))
      && var ps := PagesAfter(log, c, start, order, s.disk);
         KeepsUp(log, a.dpt, s.disk) ==>
           && (Reads(ps, l, x, cid) <==> InsertCommitted(s0.cur, log, l) && !DeleteCommitted(s0.cur, log, l))
           && (HasLoc(ps, l) && InBase(s0.cur, l) ==> At(ps, l).payload == At(s0.cur, l).payload)
           && (HasLoc(ps, l) ==> forall i :: 0 <= i < |log| && Inserts(log[i], l) ==> At(ps, l).payload == log[i].rec.payload)
  {
    var s := Run(s0, ops);
    RunFacts(s0, ops);
    var m;
    c, m := CrashState(s, s0.cur, s0.tm.nextXid);
    start := CrashedRecovers(s0.cur, s0.tm.nextXid, DurableLog(s), c, s.disk, m, order, x, cid, l);
  }

  // What recovery makes of the log and disk a crash left.
  lemma CrashedRecovers(base: PageMap, first: Xid, log: seq<LogRec>, c: nat, disk: PageMap, m: map<PageKey, nat>,
                        order: seq<Xid>, x: Xid, cid: Cid, l: Loc) returns (start: nat)
    requires Crashed(base, first, log, c, disk, m) && Fresh(base, log, x) && Enumerates(order, AttOf(log, |log|))
    ensures var a := Analyze(log, c);
      && (forall y :: y in a.att <==> Mentioned(log, |log|, y) && !Committed(log, |log|, y))
      && RedoStart(log, a.dpt, c, start)
      && (|Asked(log, a.dpt)| <= BUFFER_SIZE ==> KeepsUp(log, a.dpt, disk))
      && var ps := PagesAfter(log, c, start, order, disk);
         KeepsUp(log, a.dpt, disk) ==>
           && (Reads(ps, l, x, cid) <==> InsertCommitted(base, log, l) && !DeleteCommitted(base, log, l))
           && (HasLoc(ps, l) && InBase(base, l) ==> At(ps, l).payload == At(base, l).payload)
           && (HasLoc(ps, l) ==> forall i :: 0 <= i < |log| && Inserts(log[i], l) ==> At(ps, l).payload == log[i].rec.payload)
  {
    var a := Analyze(log, c);
    AnalysisAtt(log, c, |log|, Analysis(log[c + 1].att, log[c + 1].dpt, 0));
    AnalysisDpt(log, c, |log|, Analysis(log[c + 1].att, log[c + 1].dpt, 0), disk);
    start := RedoStartExists(log, a.dpt, c, disk);
    forall y ensures y in a.att <==> Mentioned(log, |log|, y) && !Committed(log, |log|, y) {
      LoserIffNotCommitted(base, first, log, |log|, y);
    }
    CrashReady(base, first, log, c, start, disk, m);
    if |Asked(log, a.dpt)| <= BUFFER_SIZE { FewPagesKeepUp(log, start, a.dpt, disk); }
    if KeepsUp(log, a.dpt, disk) {
      RestartSeesCommitted(base, first, log, c, start, order, disk, m, x, cid, l);
    }
  }

  /** Redo through the cache brings every page to the replay of the whole
      durable log if and only if the cache keeps up, which the log, the
      dirty-page table and the page LSNs decide. */
  lemma RedoCompleteIff(base: PageMap, first: Xid, log: seq<LogRec>, c: nat, start: nat, disk: PageMap, m: map<PageKey, nat>)
    requires Crashed(base, first, log, c, disk, m) && RedoStart(log, Analyze(log, c).dpt, c, start)
    ensures View(Redone(log, c, start, disk).cache).Keys == disk.Keys
    ensures (forall k :: k in disk ==> View(Redone(log, c, start, disk).cache)[k].recs == After(base, log, |log|, k))
        <==> KeepsUp(log, Analyze(log, c).dpt, disk)
  {
    var dpt := Analyze(log, c).dpt;
    var s := Redoing(Cold(disk), dpt);
    var ps := View(Redone(log, c, start, disk).cache);
    CrashReady(base, first, log, c, start, disk, m);
    RedoOverKeys(log, start, |log|, dpt, disk);
    KeepsUpIff(log, start, dpt, disk);
    forall k | k in disk ensures ps[k].recs == After(base, log, |log|, k) <==> Reached(log, start, s, disk, k) {
      PageRecoveredIff(base, first, log, start, dpt, disk, k, m[k]);
    }
    forall k | k !in disk ensures Reached(log, start, s, disk, k) {}
  }

  lemma {:induction false} RedoOverKeys(log: seq<LogRec>, i: nat, n: nat, dpt: map<PageKey, Lsn>, disk: PageMap)
    requires i <= n <= |log|
    ensures var t := RedoTo(log, i, n, Redoing(Cold(disk), dpt)); CacheOk(t.cache) && View(t.cache).Keys == disk.Keys
    decreases n
  {
    if n == i {
      assert View(Cold(disk)) == disk;
    } else {
      RedoOverKeys(log, i, n - 1, dpt, disk);
      RedoStepView(log[n - 1], RedoTo(log, i, n - 1, Redoing(Cold(disk), dpt)));
    }
  }
}
