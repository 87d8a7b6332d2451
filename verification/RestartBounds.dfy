/** Redo and undo after a crash touch only slots that are there. */
module RestartBounds {
  import opened Types
  import opened Bytes
  import opened HeaderCodec
  import opened Pages
  import opened Wal
  import opened Replay
  import opened LogCodec
  import opened EngineDisk
  import opened Recovery
  import opened CrashRecovery
  import opened Caches
  import opened CachedRedo
  import opened RedoWindow
  import opened CachedRecovery
  import opened RedoLoss

  // The record can be applied to the page as it is.
  ghost predicate InBounds(r: LogRec, p: Page) {
    match r
    case InsertLog(_, _, _, _, _, slot, _, rec) => slot == |p.recs| && RecordSize(rec) <= FreeSpace(p) && VersionFits(rec)
    case DeleteLog(_, xid, _, _, _, slot) => slot < |p.recs| && xid < U32
    case _ => false
  }

  // What redo needs of the record it has come to.
  ghost predicate StepSafe(r: LogRec, t: Redoing) {
    Asks(r, t.dpt) ==>
      && KeyOfRec(r) in View(t.cache)
      && (r.lsn > View(t.cache)[KeyOfRec(r)].lsn ==> InBounds(r, View(t.cache)[KeyOfRec(r)]))
  }

  ghost predicate RedoSafe(log: seq<LogRec>, i: nat, s: Redoing)
    requires i <= |log|
  {
    forall n :: i <= n < |log| ==> StepSafe(log[n], RedoTo(log, i, n, s))
  }

  // The record is about a row the pages have.
  ghost predicate UndoOk(r: LogRec, ps: PageMap) {
    !r.NewPageLog? && r.xid < U32 && (IsRowRec(r) ==> HasLoc(ps, LocOfRec(r)))
  }

  ghost predicate UndoSafe(log: seq<LogRec>, x: Xid, ps: PageMap) {
    forall i :: 0 <= i < |log| && OfXid(log[i], x) ==> UndoOk(log[i], ps)
  }

  lemma CutKept(log: seq<LogRec>, i: nat, n: nat, s: Redoing, k: PageKey)
    requires i <= n <= |log| && k in RedoTo(log, i, n, s).dpt
    ensures Cut(log, i, n, s, k) == n
  {
    if i < n { EntriesShrink(log, i, n - 1, n, s, k); }
  }

  // A missing record that finds its entry also finds its page as it was.
  lemma StepIsSafe(base: PageMap, first: Xid, log: seq<LogRec>, i: nat, n: nat, dpt: map<PageKey, Lsn>, disk: PageMap, m: nat)
    requires AllDisciplined(base, first, log) && Ready(log, i, dpt, disk) && i <= n < |log| && RecFits(log[n])
    requires IsRowRec(log[n]) ==> ImageOk(base, log, disk, KeyOfRec(log[n]), m)
    ensures StepSafe(log[n], RedoTo(log, i, n, Redoing(Cold(disk), dpt)))
  {
    var s := Redoing(Cold(disk), dpt);
    var t := RedoTo(log, i, n, s);
    var r := log[n];
    if Asks(r, t.dpt) {
      var k := KeyOfRec(r);
      ColdPage(base, log, i, dpt, disk, k, m);
      RedoneTo(base, log, i, n, s, disk, k, m);
      CutKept(log, i, n, s, k);
      assert Disciplined(base, first, log, n);
    }
  }

  /** Redo after a crash never writes past what is there. */
  lemma CrashRedoSafe(base: PageMap, first: Xid, log: seq<LogRec>, c: nat, start: nat, disk: PageMap, m: map<PageKey, nat>)
    requires Crashed(base, first, log, c, disk, m) && RedoStart(log, Analyze(log, c).dpt, c, start)
    requires forall n {:trigger RecFits(log[n])} :: 0 <= n < |log| ==> RecFits(log[n])
    ensures RedoSafe(log, start, Redoing(Cold(disk), Analyze(log, c).dpt))
  {
    CrashReady(base, first, log, c, start, disk, m);
    forall n | start <= n < |log| ensures StepSafe(log[n], RedoTo(log, start, n, Redoing(Cold(disk), Analyze(log, c).dpt))) {
      assert RecFits(log[n]);
      StepIsSafe(base, first, log, start, n, Analyze(log, c).dpt, disk, if IsRowRec(log[n]) then m[KeyOfRec(log[n])] else 0);
    }
  }

  // The row of a loser's record is there after redo if its page has seen the record, or the row's insert.
  lemma LoserRow(base: PageMap, first: Xid, log: seq<LogRec>, c: nat, start: nat, disk: PageMap, m: map<PageKey, nat>, i: nat)
    requires Crashed(base, first, log, c, disk, m) && RedoStart(log, Analyze(log, c).dpt, c, start)
    requires i < |log| && IsRowRec(log[i])
    ensures KeyOfRec(log[i]) in disk
    ensures var n := SeenBy(log, c, start, disk, m, KeyOfRec(log[i]));
      HasLoc(View(Redone(log, c, start, disk).cache), LocOfRec(log[i])) <==> i < n || Exists(base, log, n, LocOfRec(log[i]))
  {
    var l := LocOfRec(log[i]);
    RedoneSeen(base, first, log, c, start, disk, m, l);
    ReplayTells(base, first, log, SeenBy(log, c, start, disk, m, KeyOf(l)), l);
    assert Touches(log[i], l);
  }

  lemma LoserIs(base: PageMap, first: Xid, log: seq<LogRec>, c: nat, disk: PageMap, m: map<PageKey, nat>, i: nat)
    requires Crashed(base, first, log, c, disk, m) && i < |log| && !IsCheckpoint(log[i])
    ensures log[i].xid in Analyze(log, c).att <==> !Committed(log, |log|, log[i].xid)
  {
    AnalysisAtt(log, c, |log|, Analysis(log[c + 1].att, log[c + 1].dpt, 0));
    LoserIffNotCommitted(base, first, log, |log|, log[i].xid);
    assert OfXid(log[i], log[i].xid);
  }

  // A record of a loser whose row is there.
  lemma FoundIsOk(base: PageMap, first: Xid, log: seq<LogRec>, c: nat, start: nat, disk: PageMap, m: map<PageKey, nat>, i: nat)
    requires Crashed(base, first, log, c, disk, m) && RedoStart(log, Analyze(log, c).dpt, c, start)
    requires forall n {:trigger RecFits(log[n])} :: 0 <= n < |log| ==> RecFits(log[n])
    requires UndoFinds(base, log, c, start, disk, m) && i < |log| && !IsCheckpoint(log[i]) && log[i].xid in Analyze(log, c).att
    ensures UndoOk(log[i], View(Redone(log, c, start, disk).cache))
  {
    assert RecFits(log[i]) && Disciplined(base, first, log, i);
    if IsRowRec(log[i]) {
      LoserRow(base, first, log, c, start, disk, m, i);
      LoserIs(base, first, log, c, disk, m, i);
      assert UndoInside(base, log, SeenBy(log, c, start, disk, m, KeyOfRec(log[i])), KeyOfRec(log[i]));
    }
  }

  lemma SafeIsFound(base: PageMap, first: Xid, log: seq<LogRec>, c: nat, start: nat, disk: PageMap, m: map<PageKey, nat>, k: PageKey)
    requires Crashed(base, first, log, c, disk, m) && RedoStart(log, Analyze(log, c).dpt, c, start)
    requires k in disk && forall x :: x in Analyze(log, c).att ==> UndoSafe(log, x, View(Redone(log, c, start, disk).cache))
    ensures UndoInside(base, log, SeenBy(log, c, start, disk, m, k), k)
  {
    var n := SeenBy(log, c, start, disk, m, k);
    forall i | n <= i < |log| && OnPage(log[i], k) && !Committed(log, |log|, log[i].xid) ensures Exists(base, log, n, LocOfRec(log[i])) {
      LoserRow(base, first, log, c, start, disk, m, i);
      LoserIs(base, first, log, c, disk, m, i);
      assert OfXid(log[i], log[i].xid) && UndoOk(log[i], View(Redone(log, c, start, disk).cache));
    }
  }

  /** Undo after redo through the cache touches only rows that are there if and
      only if no loser's row was lost. */
  lemma UndoSafeIff(base: PageMap, first: Xid, log: seq<LogRec>, c: nat, start: nat, disk: PageMap, m: map<PageKey, nat>)
    requires Crashed(base, first, log, c, disk, m) && RedoStart(log, Analyze(log, c).dpt, c, start)
    requires forall n {:trigger RecFits(log[n])} :: 0 <= n < |log| ==> RecFits(log[n])
    ensures (forall x :: x in Analyze(log, c).att ==> UndoSafe(log, x, View(Redone(log, c, start, disk).cache)))
        <==> UndoFinds(base, log, c, start, disk, m)
  {
    var ps := View(Redone(log, c, start, disk).cache);
    if UndoFinds(base, log, c, start, disk, m) {
      forall x, i | x in Analyze(log, c).att && 0 <= i < |log| && OfXid(log[i], x) ensures UndoOk(log[i], ps) {
        FoundIsOk(base, first, log, c, start, disk, m, i);
      }
    }
    if forall x :: x in Analyze(log, c).att ==> UndoSafe(log, x, ps) {
      forall k | k in disk && k in m && m[k] <= |log| ensures UndoInside(base, log, SeenBy(log, c, start, disk, m, k), k) {
        SafeIsFound(base, first, log, c, start, disk, m, k);
      }
    }
  }

  /** While the cache keeps up, no row is lost. */
  lemma KeepingUpFinds(base: PageMap, first: Xid, log: seq<LogRec>, c: nat, start: nat, disk: PageMap, m: map<PageKey, nat>)
    requires Crashed(base, first, log, c, disk, m) && RedoStart(log, Analyze(log, c).dpt, c, start)
    requires KeepsUp(log, Analyze(log, c).dpt, disk)
    requires forall n {:trigger RecFits(log[n])} :: 0 <= n < |log| ==> RecFits(log[n])
    ensures UndoFinds(base, log, c, start, disk, m)
  {
    forall x | x in Analyze(log, c).att ensures UndoSafe(log, x, View(Redone(log, c, start, disk).cache)) {
      CrashUndoSafe(base, first, log, c, start, disk, m, x);
    }
    UndoSafeIff(base, first, log, c, start, disk, m);
  }

  /** While the cache keeps up, the rows undo goes back to are there. */
  lemma CrashUndoSafe(base: PageMap, first: Xid, log: seq<LogRec>, c: nat, start: nat, disk: PageMap, m: map<PageKey, nat>, x: Xid)
    requires Crashed(base, first, log, c, disk, m) && RedoStart(log, Analyze(log, c).dpt, c, start)
    requires KeepsUp(log, Analyze(log, c).dpt, disk)
    requires forall n {:trigger RecFits(log[n])} :: 0 <= n < |log| ==> RecFits(log[n])
    ensures UndoSafe(log, x, View(Redone(log, c, start, disk).cache))
  {
    var ps := View(Redone(log, c, start, disk).cache);
    CrashReady(base, first, log, c, start, disk, m);
    RedoToIsFlat(log, start, |log|, Analyze(log, c).dpt, disk);
    forall i | 0 <= i < |log| && OfXid(log[i], x)
      ensures UndoOk(log[i], ps)
    {
      assert RecFits(log[i]) && Disciplined(base, first, log, i);
      if IsRowRec(log[i]) {
        var l := LocOfRec(log[i]);
        RedoneIsReplay(base, first, log, c, start, disk, m, l);
        ReplayTells(base, first, log, |log|, l);
        assert Touches(log[i], l);
      }
    }
  }

  // Undo moves no row.
  lemma UndoSafeKept(log: seq<LogRec>, x: Xid, ps: PageMap, qs: PageMap)
    requires UndoSafe(log, x, ps) && SameShape(ps, qs)
    ensures UndoSafe(log, x, qs)
  {
  }
}
