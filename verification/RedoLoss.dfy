/** What a new transaction reads when the cache does not keep up with redo: the
    committed effects of the records that redo reached. */
module RedoLoss {
  import opened Types
  import opened Visibility
  import opened Pages
  import opened Wal
  import opened Replay
  import opened EngineDisk
  import opened Recovery
  import opened CrashRecovery
  import opened Caches
  import opened CachedRedo
  import opened RedoWindow
  import opened CachedRecovery

  /** How many log records the page of `k` has seen when redo is done. */
  function SeenBy(log: seq<LogRec>, c: nat, start: nat, disk: PageMap, m: map<PageKey, nat>, k: PageKey): (n: nat)
    requires c + 2 <= |log| && log[c + 1].EndCheckpointLog? && start <= |log| && k in m && m[k] <= |log|
    ensures n <= |log|
  {
    Max(Cut(log, start, |log|, Redoing(Cold(disk), Analyze(log, c).dpt), k), m[k])
  }

  // Equal but for the deleted flag, which no reader looks at.
  predicate SameMarks(a: Version, b: Version) { a.(deleted := b.deleted) == b }

  lemma SameMarksVisible(a: Version, b: Version, x: Xid, cid: Cid, iso: Isolation, active: set<Xid>)
    requires SameMarks(a, b)
    ensures Visible(a, x, cid, iso, active) <==> Visible(b, x, cid, iso, active)
  {
  }

  // What is known of a version that has seen the first `n` records, and of the same version in the whole log.
  lemma SeenAndWhole(base: PageMap, first: Xid, log: seq<LogRec>, n: nat, l: Loc)
    requires AllDisciplined(base, first, log) && n <= |log| && Exists(base, log, n, l)
    ensures Exists(base, log, |log|, l)
    ensures var v, w := Now(base, log, n, l), Now(base, log, |log|, l);
      v.xmin == w.xmin && v.payload == w.payload && (v.xmax == w.xmax || v.xmax == NULL_XID)
  {
    ReplayTells(base, first, log, n, l);
    ReplayTells(base, first, log, |log|, l);
    var v := Now(base, log, n, l);
    if !InBase(base, l) {
      var i :| 0 <= i < n && Inserts(log[i], l) && log[i].xid == v.xmin;
      assert Touches(log[i], l);
    }
    var w := Now(base, log, |log|, l);
    if v.xmax >= first && v.xmax != NULL_XID {
      var i :| 0 <= i < n && Deletes(log[i], l) && log[i].xid == v.xmax;
      assert w.xmax == v.xmax;
    }
  }

  // Undoing one more loser on a version that may not have seen its records.
  lemma UndoOneSeen(base: PageMap, first: Xid, log: seq<LogRec>, n: nat, done: set<Xid>, x: Xid, u: Version, l: Loc)
    requires AllDisciplined(base, first, log) && n <= |log| && Exists(base, log, n, l)
    requires x in AttOf(log, |log|) && x !in done && forall y :: y in done ==> y in AttOf(log, |log|)
    requires SameMarks(u, Undone(Now(base, log, n, l), done))
    ensures SameMarks(if InsertedBy(log, |log|, x, l) then MarkDeleted(u, x) else if DeletedBy(log, |log|, x, l) then Unmark(u) else u,
                      Undone(Now(base, log, n, l), done + {x}))
  {
    var v := Now(base, log, n, l);
    SeenAndWhole(base, first, log, n, l);
    var w := Now(base, log, |log|, l);
    ReplayTells(base, first, log, n, l);
    ReplayTells(base, first, log, |log|, l);
    LoserIffNotCommitted(base, first, log, |log|, x);
    assert InsertedBy(log, |log|, x, l) <==> w.xmin == x;
    assert DeletedBy(log, |log|, x, l) <==> w.xmax == x;
  }

  /** Undo of all losers on a page that has seen only the first `n` records. */
  lemma {:induction false} UndoAllSeen(base: PageMap, first: Xid, log: seq<LogRec>, n: nat, order: seq<Xid>, ps: PageMap, l: Loc)
    requires AllDisciplined(base, first, log) && LosersOnce(log, order) && n <= |log|
    requires HasLoc(ps, l) <==> Exists(base, log, n, l)
    requires HasLoc(ps, l) ==> At(ps, l) == Now(base, log, n, l)
    ensures HasLoc(UndoAll(log, order, ps), l) <==> HasLoc(ps, l)
    ensures HasLoc(ps, l) ==> SameMarks(At(UndoAll(log, order, ps), l), Undone(At(ps, l), set y | y in order))
    decreases |order|
  {
    if order != [] {
      var rest := order[..|order| - 1];
      var x := order[|order| - 1];
      UndoAllSeen(base, first, log, n, rest, ps, l);
      UndoTxAt(log, |log|, x, UndoAll(log, rest, ps), l);
      LosersSplit(log, order);
      if HasLoc(ps, l) {
        UndoOneSeen(base, first, log, n, (set y | y in rest), x, At(UndoAll(log, rest, ps), l), l);
      }
    }
  }

  // The pages after redo, place by place.
  lemma RedoneSeen(base: PageMap, first: Xid, log: seq<LogRec>, c: nat, start: nat, disk: PageMap, m: map<PageKey, nat>, l: Loc)
    requires Crashed(base, first, log, c, disk, m) && RedoStart(log, Analyze(log, c).dpt, c, start) && KeyOf(l) in disk
    ensures var n := SeenBy(log, c, start, disk, m, KeyOf(l));
      var ps := View(Redone(log, c, start, disk).cache);
      && CacheOk(Redone(log, c, start, disk).cache)
      && (HasLoc(ps, l) <==> Exists(base, log, n, l))
      && (HasLoc(ps, l) ==> At(ps, l) == Now(base, log, n, l))
  {
    var dpt := Analyze(log, c).dpt;
    CrashReady(base, first, log, c, start, disk, m);
    PageRecoveredIff(base, first, log, start, dpt, disk, KeyOf(l), m[KeyOf(l)]);
    RedoOverKeys(log, start, |log|, dpt, disk);
  }

  lemma OrderIsAtt(base: PageMap, first: Xid, log: seq<LogRec>, c: nat, disk: PageMap, m: map<PageKey, nat>, order: seq<Xid>)
    requires Crashed(base, first, log, c, disk, m) && Enumerates(order, Analyze(log, c).att)
    ensures LosersOnce(log, order) && (set x | x in order) == AttOf(log, |log|).Keys
  {
    AnalysisAtt(log, c, |log|, Analysis(log[c + 1].att, log[c + 1].dpt, 0));
    assert forall i :: 0 <= i < |order| ==> order[i] in AttOf(log, |log|);
  }

  // The pages after redo and undo, place by place.
  lemma RecoveredSeen(base: PageMap, first: Xid, log: seq<LogRec>, c: nat, start: nat, order: seq<Xid>, disk: PageMap, m: map<PageKey, nat>, l: Loc)
    requires Crashed(base, first, log, c, disk, m) && RedoStart(log, Analyze(log, c).dpt, c, start)
    requires Enumerates(order, Analyze(log, c).att) && KeyOf(l) in disk
    ensures var n := SeenBy(log, c, start, disk, m, KeyOf(l));
      var ps := PagesAfter(log, c, start, order, disk);
      && (HasLoc(ps, l) <==> Exists(base, log, n, l))
      && (HasLoc(ps, l) ==> SameMarks(At(ps, l), Undone(Now(base, log, n, l), AttOf(log, |log|).Keys)))
  {
    RedoneSeen(base, first, log, c, start, disk, m, l);
    OrderIsAtt(base, first, log, c, disk, m, order);
    UndoAllView(log, order, Redone(log, c, start, disk).cache);
    UndoAllSeen(base, first, log, SeenBy(log, c, start, disk, m, KeyOf(l)), order, View(Redone(log, c, start, disk).cache), l);
  }

  // No loser did anything to a row of the page that redo did not bring back.
  ghost predicate UndoInside(base: PageMap, log: seq<LogRec>, n: nat, k: PageKey)
    requires n <= |log|
  {
    forall i :: n <= i < |log| && OnPage(log[i], k) && !Committed(log, |log|, log[i].xid) ==> Exists(base, log, n, LocOfRec(log[i]))
  }

  /** Undo never goes back to a slot that is not there, on any page: it would
      write wherever the bytes in the place of the slot point. */
  ghost predicate UndoFinds(base: PageMap, log: seq<LogRec>, c: nat, start: nat, disk: PageMap, m: map<PageKey, nat>)
    requires c + 2 <= |log| && log[c + 1].EndCheckpointLog? && start <= |log|
  {
    forall k :: k in disk && k in m && m[k] <= |log| ==> UndoInside(base, log, SeenBy(log, c, start, disk, m, k), k)
  }

  // Something committed was done to the row at `l` by a record that redo lost.
  ghost predicate LostChange(log: seq<LogRec>, n: nat, l: Loc)
    requires n <= |log|
  {
    exists i :: n <= i < |log| && Touches(log[i], l) && Committed(log, |log|, log[i].xid)
  }

  /** Whatever the cache does, a new transaction reads exactly the committed
      effects of the records that the row's page has seen.  That is the truth if
      and only if no committed change of the row was lost, or all of them were,
      from its insert to its delete. */
  lemma RestartSeesSeen(base: PageMap, first: Xid, log: seq<LogRec>, c: nat, start: nat, order: seq<Xid>, disk: PageMap, m: map<PageKey, nat>,
                        x: Xid, cid: Cid, l: Loc)
    requires Crashed(base, first, log, c, disk, m) && RedoStart(log, Analyze(log, c).dpt, c, start)
    requires Enumerates(order, Analyze(log, c).att) && KeyOf(l) in disk && Fresh(base, log, x)
    requires UndoFinds(base, log, c, start, disk, m)
    ensures var n := SeenBy(log, c, start, disk, m, KeyOf(l));
      var seen := Reads(PagesAfter(log, c, start, order, disk), l, x, cid);
      && (seen <==> InsertCommittedBy(base, log, n, l) && !DeleteCommittedBy(base, log, n, l))
      && ((seen <==> InsertCommitted(base, log, l) && !DeleteCommitted(base, log, l)) <==>
            !LostChange(log, n, l) || (!InsertCommittedBy(base, log, n, l) && DeleteCommitted(base, log, l)))
  {
    var n := SeenBy(log, c, start, disk, m, KeyOf(l));
    var ps := PagesAfter(log, c, start, order, disk);
    RecoveredSeen(base, first, log, c, start, order, disk, m, l);
    if Exists(base, log, n, l) {
      var v := Undone(Now(base, log, n, l), AttOf(log, |log|).Keys);
      SameMarksVisible(At(ps, l), v, x, cid, READ_COMMITTED, {x});
      UndoneVisible(base, first, log, n, Now(base, log, n, l), l, x, cid);
      FreshIsNotOwner(base, first, log, n, Now(base, log, n, l), l, x, cid);
    } else {
      ReplayTells(base, first, log, n, l);
      NothingInserted(base, log, n, l);
    }
    LossShows(base, first, log, n, l);
  }

  lemma NothingInserted(base: PageMap, log: seq<LogRec>, n: nat, l: Loc)
    requires n <= |log| && !InBase(base, l) && NoRec(log, n, l)
    ensures !InsertCommittedBy(base, log, n, l)
  {
    forall i | 0 <= i < n ensures !Inserts(log[i], l) { assert !Touches(log[i], l); }
  }

  // A row is deleted once at most, and not before it was inserted.
  lemma OneDelete(base: PageMap, first: Xid, log: seq<LogRec>, n: nat, i: nat, l: Loc)
    requires AllDisciplined(base, first, log) && n <= i < |log| && Deletes(log[i], l)
    ensures !DeleteCommittedBy(base, log, n, l)
  {
    assert Disciplined(base, first, log, i);
    ReplayTells(base, first, log, i, l);
    assert Exists(base, log, i, l) && Now(base, log, i, l).xmax == NULL_XID;
  }

  // A row that was there is not inserted again.
  lemma OneInsert(base: PageMap, first: Xid, log: seq<LogRec>, n: nat, i: nat, l: Loc)
    requires AllDisciplined(base, first, log) && n <= i < |log| && Inserts(log[i], l)
    ensures !InsertCommittedBy(base, log, n, l)
  {
    assert Disciplined(base, first, log, i);
    ReplayTells(base, first, log, i, l);
    assert !Exists(base, log, i, l);
    forall j | 0 <= j < n ensures !Inserts(log[j], l) { assert !Touches(log[j], l); }
  }

  lemma LossShows(base: PageMap, first: Xid, log: seq<LogRec>, n: nat, l: Loc)
    requires AllDisciplined(base, first, log) && n <= |log|
    ensures ((InsertCommittedBy(base, log, n, l) && !DeleteCommittedBy(base, log, n, l)) <==>
             (InsertCommitted(base, log, l) && !DeleteCommitted(base, log, l))) <==>
      !LostChange(log, n, l) || (!InsertCommittedBy(base, log, n, l) && DeleteCommitted(base, log, l))
  {
    if LostChange(log, n, l) {
      var i :| n <= i < |log| && Touches(log[i], l) && Committed(log, |log|, log[i].xid);
      if Deletes(log[i], l) {
        OneDelete(base, first, log, n, i, l);
        assert DeleteCommitted(base, log, l);
      } else {
        OneInsert(base, first, log, n, i, l);
        assert InsertCommitted(base, log, l);
      }
    } else {
      NoLostChange(base, log, n, l);
    }
  }

  lemma NoLostChange(base: PageMap, log: seq<LogRec>, n: nat, l: Loc)
    requires n <= |log| && !LostChange(log, n, l)
    ensures InsertCommittedBy(base, log, n, l) <==> InsertCommitted(base, log, l)
    ensures DeleteCommittedBy(base, log, n, l) <==> DeleteCommitted(base, log, l)
  {
    forall i | n <= i < |log| && Committed(log, |log|, log[i].xid) ensures !Inserts(log[i], l) && !Deletes(log[i], l) {
      assert Touches(log[i], l) <==> Inserts(log[i], l) || Deletes(log[i], l);
    }
  }
}
