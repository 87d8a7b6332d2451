/** What log records do to pages: undo of one transaction, redo, and the
    replay of the whole log. */
module Replay {
  import opened Types
  import opened Pages
  import opened Wal

  // ---- undo ---------------------------------------------------------------

  // Undoing an insert marks the record deleted by its own inserter; undoing a
  // delete clears the mark.  No page LSN changes and nothing is logged.
  function UndoRec(r: LogRec, ps: PageMap): PageMap {
    if r.InsertLog? && HasLoc(ps, LocOfRec(r)) then
      SetAt(ps, LocOfRec(r), MarkDeleted(At(ps, LocOfRec(r)), r.xid))
    else if r.DeleteLog? && HasLoc(ps, LocOfRec(r)) then
      SetAt(ps, LocOfRec(r), Unmark(At(ps, LocOfRec(r))))
    else ps
  }

  /** Undo every record of `x` among the first `n`, newest first. */
  function UndoTx(log: seq<LogRec>, n: nat, x: Xid, ps: PageMap): PageMap
    requires n <= |log|
  {
    if n == 0 then ps
    else if OfXid(log[n - 1], x) then UndoTx(log, n - 1, x, UndoRec(log[n - 1], ps))
    else UndoTx(log, n - 1, x, ps)
  }

  // The records of `x` among the first `n`, newest first, back to its last begin record.
  function Chain(log: seq<LogRec>, n: nat, x: Xid): seq<LogRec>
    requires n <= |log|
  {
    if n == 0 then []
    else if OfXid(log[n - 1], x) then [log[n - 1]] + (if log[n - 1].BeginLog? then [] else Chain(log, n - 1, x))
    else Chain(log, n - 1, x)
  }

  /** Undo the records of that chain, newest first. */
  function UndoChain(log: seq<LogRec>, n: nat, x: Xid, ps: PageMap): PageMap
    requires n <= |log|
  {
    if n == 0 then ps
    else if OfXid(log[n - 1], x) then
      if log[n - 1].BeginLog? then ps else UndoChain(log, n - 1, x, UndoRec(log[n - 1], ps))
    else UndoChain(log, n - 1, x, ps)
  }

  // The first record of `x` is its begin record.
  ghost predicate BeganOnce(log: seq<LogRec>, x: Xid) {
    forall i, j :: 0 <= i < j < |log| && log[j].BeginLog? && log[j].xid == x ==> !OfXid(log[i], x)
  }

  lemma {:induction false} NothingBefore(log: seq<LogRec>, n: nat, x: Xid, ps: PageMap)
    requires n <= |log| && forall i :: 0 <= i < n ==> !OfXid(log[i], x)
    ensures UndoTx(log, n, x, ps) == ps
  {
    if n > 0 { NothingBefore(log, n - 1, x, ps); }
  }

  /** For an id that was used once, the chain is the whole transaction. */
  lemma {:induction false} ChainIsWhole(log: seq<LogRec>, n: nat, x: Xid, ps: PageMap)
    requires n <= |log| && BeganOnce(log, x)
    ensures UndoChain(log, n, x, ps) == UndoTx(log, n, x, ps)
  {
    if n > 0 {
      if !OfXid(log[n - 1], x) {
        ChainIsWhole(log, n - 1, x, ps);
      } else if log[n - 1].BeginLog? {
        NothingBefore(log, n - 1, x, ps);
      } else {
        ChainIsWhole(log, n - 1, x, UndoRec(log[n - 1], ps));
      }
    }
  }

  ghost predicate InsertedBy(log: seq<LogRec>, n: nat, x: Xid, l: Loc)
    requires n <= |log|
  {
    exists i :: 0 <= i < n && Inserts(log[i], l) && log[i].xid == x
  }

  ghost predicate DeletedBy(log: seq<LogRec>, n: nat, x: Xid, l: Loc)
    requires n <= |log|
  {
    exists i :: 0 <= i < n && Deletes(log[i], l) && log[i].xid == x
  }

  predicate Touches(r: LogRec, l: Loc) { Inserts(r, l) || Deletes(r, l) }

  /** A record is inserted before anything else happens to its place. */
  ghost predicate InsertFirst(log: seq<LogRec>) {
    forall i, j :: 0 <= i < j < |log| && IsRowRec(log[i]) && log[j].InsertLog? ==> LocOfRec(log[i]) != LocOfRec(log[j])
  }

  lemma UndoRecFacts(r: LogRec, ps: PageMap, l: Loc)
    ensures SameShape(ps, UndoRec(r, ps))
    ensures HasLoc(UndoRec(r, ps), l) <==> HasLoc(ps, l)
    ensures HasLoc(ps, l) ==>
      At(UndoRec(r, ps), l) ==
      (if Inserts(r, l) then MarkDeleted(At(ps, l), r.xid)
       else if Deletes(r, l) then Unmark(At(ps, l))
       else At(ps, l))
  {
    if IsRowRec(r) && HasLoc(ps, LocOfRec(r)) {
      SetAtFacts(ps, LocOfRec(r), MarkDeleted(At(ps, LocOfRec(r)), r.xid), l);
      SetAtFacts(ps, LocOfRec(r), Unmark(At(ps, LocOfRec(r))), l);
    }
  }

  lemma {:induction false} UndoTxShape(log: seq<LogRec>, n: nat, x: Xid, ps: PageMap)
    requires n <= |log|
    ensures SameShape(ps, UndoTx(log, n, x, ps))
  {
    if n > 0 {
      if OfXid(log[n - 1], x) {
        UndoRecFacts(log[n - 1], ps, Loc(0, Rid(0, 0)));
        UndoTxShape(log, n - 1, x, UndoRec(log[n - 1], ps));
      } else {
        UndoTxShape(log, n - 1, x, ps);
      }
    }
  }

  /** What undoing a whole transaction leaves at one place, whatever the
      number and order of its operations there. */
  lemma {:induction false} UndoTxAt(log: seq<LogRec>, n: nat, x: Xid, ps: PageMap, l: Loc)
    requires n <= |log| && InsertFirst(log)
    ensures HasLoc(UndoTx(log, n, x, ps), l) <==> HasLoc(ps, l)
    ensures HasLoc(ps, l) ==>
      At(UndoTx(log, n, x, ps), l) ==
      (if InsertedBy(log, n, x, l) then MarkDeleted(At(ps, l), x)
       else if DeletedBy(log, n, x, l) then Unmark(At(ps, l))
       else At(ps, l))
  {
    if n > 0 {
      var r := log[n - 1];
      ByStep(log, n, x, l);
      if OfXid(r, x) {
        UndoRecFacts(r, ps, l);
        UndoTxAt(log, n - 1, x, UndoRec(r, ps), l);
        if Inserts(r, l) {
          assert !InsertedBy(log, n - 1, x, l) && !DeletedBy(log, n - 1, x, l);
        }
      } else {
        UndoTxAt(log, n - 1, x, ps, l);
      }
    }
  }

  lemma ByStep(log: seq<LogRec>, n: nat, x: Xid, l: Loc)
    requires 0 < n <= |log|
    ensures InsertedBy(log, n, x, l) <==> InsertedBy(log, n - 1, x, l) || (Inserts(log[n - 1], l) && log[n - 1].xid == x)
    ensures DeletedBy(log, n, x, l) <==> DeletedBy(log, n - 1, x, l) || (Deletes(log[n - 1], l) && log[n - 1].xid == x)
  {
  }

  lemma ByPush(log: seq<LogRec>, r: LogRec, x: Xid, l: Loc)
    ensures InsertedBy(log + [r], |log| + 1, x, l) <==> InsertedBy(log, |log|, x, l) || (Inserts(r, l) && r.xid == x)
    ensures DeletedBy(log + [r], |log| + 1, x, l) <==> DeletedBy(log, |log|, x, l) || (Deletes(r, l) && r.xid == x)
  {
    var a := log + [r];
    assert a[|log|] == r;
    if InsertedBy(log, |log|, x, l) {
      var i :| 0 <= i < |log| && Inserts(log[i], l) && log[i].xid == x;
      assert a[i] == log[i];
    }
    if DeletedBy(log, |log|, x, l) {
      var i :| 0 <= i < |log| && Deletes(log[i], l) && log[i].xid == x;
      assert a[i] == log[i];
    }
  }

  // ---- redo ---------------------------------------------------------------

  /** Redo of one record on the records of its page.  Page LSNs stay. */
  function ApplyRecs(recs: seq<Version>, r: LogRec): seq<Version>
    requires IsRowRec(r)
  {
    match r
    case InsertLog(_, _, _, _, _, slot, _, rec) => if slot == |recs| then recs + [rec] else recs
    case DeleteLog(_, xid, _, _, _, slot) => if slot < |recs| then recs[slot := MarkDeleted(recs[slot], xid)] else recs
  }

  // The records of page `k` after the first `n` log records, each applied once and in order.
  function ReplayKey(base: seq<Version>, log: seq<LogRec>, n: nat, k: PageKey): seq<Version>
    requires n <= |log|
  {
    if n == 0 then base
    else if OnPage(log[n - 1], k) then ApplyRecs(ReplayKey(base, log, n - 1, k), log[n - 1])
    else ReplayKey(base, log, n - 1, k)
  }

  lemma {:induction false} ReplaySame(base: seq<Version>, a: seq<LogRec>, b: seq<LogRec>, n: nat, k: PageKey)
    requires n <= |a| && n <= |b| && a[..n] == b[..n]
    ensures ReplayKey(base, a, n, k) == ReplayKey(base, b, n, k)
  {
    if n > 0 {
      assert a[n - 1] == a[..n][n - 1] == b[..n][n - 1] == b[n - 1];
      assert a[..n - 1] == a[..n][..n - 1] == b[..n][..n - 1] == b[..n - 1];
      ReplaySame(base, a, b, n - 1, k);
    }
  }

  // Records of other pages do not matter.
  lemma {:induction false} ReplaySkip(base: seq<Version>, log: seq<LogRec>, m: nat, n: nat, k: PageKey)
    requires m <= n <= |log|
    requires forall i :: m <= i < n ==> !OnPage(log[i], k)
    ensures ReplayKey(base, log, n, k) == ReplayKey(base, log, m, k)
  {
    if m < n {
      ReplaySkip(base, log, m, n - 1, k);
    }
  }

  /** The test Redo makes before it applies a record to its page. */
  predicate NeedsRedo(r: LogRec, dpt: map<PageKey, Lsn>, ps: PageMap) {
    && IsRowRec(r)
    && KeyOfRec(r) in dpt
    && r.lsn >= dpt[KeyOfRec(r)]
    && KeyOfRec(r) in ps
    && r.lsn > ps[KeyOfRec(r)].lsn
  }

  function RedoRec(r: LogRec, dpt: map<PageKey, Lsn>, ps: PageMap): PageMap {
    if NeedsRedo(r, dpt, ps)
    then var p := ps[KeyOfRec(r)]; ps[KeyOfRec(r) := p.(recs := ApplyRecs(p.recs, r))]
    else ps
  }

  // Redo of the records from position `i` up to position `n`.
  function RedoFrom(log: seq<LogRec>, i: nat, n: nat, dpt: map<PageKey, Lsn>, ps: PageMap): PageMap
    requires i <= n <= |log|
    decreases n - i
  {
    if i == n then ps else RedoFrom(log, i + 1, n, dpt, RedoRec(log[i], dpt, ps))
  }
}
