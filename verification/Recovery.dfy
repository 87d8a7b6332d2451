/** Restart after a crash: analysis, redo and undo over the durable log, and
    what they leave, for every log that keeps the engine's discipline. */
module Recovery {
  import opened Types
  import opened Visibility
  import opened Pages
  import opened Wal
  import opened Replay
  import opened EngineDisk

  // ---- the three passes ---------------------------------------------------

  datatype Analysis = Analysis(att: map<Xid, Lsn>, dpt: map<PageKey, Lsn>, xidMax: Xid)

  function AnalyzeRec(a: Analysis, r: LogRec): Analysis {
    var att := if IsEnd(r) then a.att - {r.xid} else a.att[r.xid := r.lsn];
    var dpt :=
      if (IsRowRec(r) || r.NewPageLog?) && PageKey(r.oid, r.page) !in a.dpt
      then a.dpt[PageKey(r.oid, r.page) := r.lsn] else a.dpt;
    Analysis(att, dpt, if r.xid > a.xidMax then r.xid else a.xidMax)
  }

  // Records `i` up to `n`, from the tables of the checkpoint.
  function AnalyzeTo(log: seq<LogRec>, i: nat, n: nat, a: Analysis): Analysis
    requires i <= n <= |log|
  {
    if i == n then a else AnalyzeRec(AnalyzeTo(log, i, n - 1, a), log[n - 1])
  }

  /** Analysis from the checkpoint whose begin record is at position `c`. */
  function Analyze(log: seq<LogRec>, c: nat): Analysis
    requires c + 2 <= |log| && log[c + 1].EndCheckpointLog?
  {
    AnalyzeTo(log, c + 2, |log|, Analysis(log[c + 1].att, log[c + 1].dpt, 0))
  }

  /** The next id restart hands out: the one saved at the last clean shutdown,
      raised above every record that follows the checkpoint.  Ids have 32 bits. */
  function NextXidAfter(a: Analysis, saved: Xid): Xid {
    var next := (a.xidMax + 1) % (NULL_XID + 1);
    if next > saved then next else saved
  }

  lemma {:induction false} XidMaxBounds(log: seq<LogRec>, c: nat, n: nat, a: Analysis)
    requires c <= n <= |log|
    ensures forall i :: c <= i < n ==> log[i].xid <= AnalyzeTo(log, c, n, a).xidMax
    ensures AnalyzeTo(log, c, n, a).xidMax == a.xidMax
         || exists i :: c <= i < n && log[i].xid == AnalyzeTo(log, c, n, a).xidMax
    decreases n
  {
    if c < n { XidMaxBounds(log, c, n - 1, a); }
  }

  /** The id `next` is beyond the saved one and beyond every record that follows
      the checkpoint, and no further than it has to be.  A checkpoint record
      among them, whose id is NULL_XID, makes the sum wrap to 0: then nothing is
      raised. */
  ghost predicate NextIdOk(log: seq<LogRec>, c: nat, saved: Xid, next: Xid) {
    && saved <= next
    && (if exists i :: c + 2 <= i < |log| && log[i].xid == NULL_XID then next == saved
        else
          && (forall i :: c + 2 <= i < |log| ==> log[i].xid < next)
          && (next == saved || next == 1 || exists i :: c + 2 <= i < |log| && next == log[i].xid + 1))
  }

  lemma NextIdRaised(log: seq<LogRec>, c: nat, saved: Xid)
    requires c + 2 <= |log| && log[c + 1].EndCheckpointLog?
    requires forall i :: 0 <= i < |log| ==> log[i].xid <= NULL_XID
    ensures NextIdOk(log, c, saved, NextXidAfter(Analyze(log, c), saved))
  {
    XidMaxBounds(log, c + 2, |log|, Analysis(log[c + 1].att, log[c + 1].dpt, 0));
    var m := Analyze(log, c).xidMax;
    if m < NULL_XID {
      assert (m + 1) % (NULL_XID + 1) == m + 1;
    }
  }

  // A record that names a page it makes or changes.
  predicate NamesPage(r: LogRec) { IsRowRec(r) || r.NewPageLog? }

  /** The dirty-page table after analysis: the checkpoint's entries as they are,
      and for every other page the first record behind the checkpoint that names
      it, a new-page record included. */
  ghost predicate EntriesOk(log: seq<LogRec>, c: nat, n: nat, dpt0: map<PageKey, Lsn>, dpt: map<PageKey, Lsn>)
    requires n <= |log|
  {
    && (forall k :: k in dpt0 ==> k in dpt && dpt[k] == dpt0[k])
    && (forall i :: c <= i < n && NamesPage(log[i]) ==> PageKey(log[i].oid, log[i].page) in dpt)
    && (forall k :: k in dpt && k !in dpt0 ==> exists i :: c <= i < n && FirstNaming(log, c, i, k) && dpt[k] == log[i].lsn)
  }

  ghost predicate FirstNaming(log: seq<LogRec>, c: nat, i: nat, k: PageKey) {
    && i < |log| && NamesPage(log[i]) && PageKey(log[i].oid, log[i].page) == k
    && forall j :: c <= j < i && NamesPage(log[j]) ==> PageKey(log[j].oid, log[j].page) != k
  }

  lemma {:induction false} AnalysisEntries(log: seq<LogRec>, c: nat, n: nat, a: Analysis)
    requires c <= n <= |log|
    ensures EntriesOk(log, c, n, a.dpt, AnalyzeTo(log, c, n, a).dpt)
    decreases n
  {
    if c < n {
      AnalysisEntries(log, c, n - 1, a);
      EntriesMore(log, c, n - 1, a.dpt, AnalyzeTo(log, c, n - 1, a));
    }
  }

  lemma EntriesMore(log: seq<LogRec>, c: nat, n: nat, dpt0: map<PageKey, Lsn>, a: Analysis)
    requires c <= n < |log| && EntriesOk(log, c, n, dpt0, a.dpt)
    ensures EntriesOk(log, c, n + 1, dpt0, AnalyzeRec(a, log[n]).dpt)
  {
    var d := AnalyzeRec(a, log[n]).dpt;
    forall k | k in d && k !in dpt0 ensures exists i :: c <= i < n + 1 && FirstNaming(log, c, i, k) && d[k] == log[i].lsn {
      if k in a.dpt {
        var i :| c <= i < n && FirstNaming(log, c, i, k) && a.dpt[k] == log[i].lsn;
        assert d[k] == log[i].lsn;
      } else {
        assert FirstNaming(log, c, n, k) && d[k] == log[n].lsn;
      }
    }
  }

  // Roll back the losers one after the other, in the given order.
  function UndoAll(log: seq<LogRec>, order: seq<Xid>, ps: PageMap): PageMap {
    if order == [] then ps
    else UndoTx(log, |log|, order[|order| - 1], UndoAll(log, order[..|order| - 1], ps))
  }

  // ---- the discipline of a run without rollback ---------------------------

  // The base pages hold versions of transactions below `first` only.
  ghost predicate BaseOk(base: PageMap, first: Xid) {
    && first <= NULL_XID
    && (forall l :: HasLoc(base, l) ==> At(base, l).xmin < first && (At(base, l).xmax == NULL_XID || At(base, l).xmax < first))
  }

  function BaseRecs(base: PageMap, k: PageKey): seq<Version> {
    if k in base then base[k].recs else []
  }

  // The records of a page after the first `n` log records.
  function After(base: PageMap, log: seq<LogRec>, n: nat, k: PageKey): seq<Version>
    requires n <= |log|
  {
    ReplayKey(BaseRecs(base, k), log, n, k)
  }

  /** Record `i` obeys the rules of the engine: rows are appended in slot
      order; a delete finds an undeleted version of its own or of an ended
      transaction; only live transactions log; nobody rolls back. */
  predicate Disciplined(base: PageMap, first: Xid, log: seq<LogRec>, i: nat)
    requires i < |log|
  {
    var r := log[i];
    match r
    case BeginLog(_, x, _) => x >= first && x < NULL_XID && (forall j :: 0 <= j < i ==> !OfXid(log[j], x))
    case CommitLog(_, x, _) => x in AttOf(log, i)
    case RollbackLog(_, _, _) => false
    case InsertLog(_, x, _, _, _, slot, _, rec) =>
      && x in AttOf(log, i)
      && slot == |After(base, log, i, KeyOfRec(r))|
      && RecordSize(rec) <= SpaceAfter(After(base, log, i, KeyOfRec(r)))
      && rec.xmin == x && rec.xmax == NULL_XID
    case DeleteLog(_, x, _, _, _, slot) =>
      && x in AttOf(log, i)
      && slot < |After(base, log, i, KeyOfRec(r))|
      && var v := After(base, log, i, KeyOfRec(r))[slot];
         v.xmax == NULL_XID && (v.xmin == x || v.xmin !in AttOf(log, i))
    case NewPageLog(_, _, _, _, _, _) => false
    case _ => true
  }

  ghost predicate AllDisciplined(base: PageMap, first: Xid, log: seq<LogRec>) {
    && BaseOk(base, first)
    && InsertFirst(log)
    && (forall i :: 0 <= i < |log| ==> Disciplined(base, first, log, i))
  }

  lemma DisciplinedPrefix(base: PageMap, first: Xid, log: seq<LogRec>, n: nat)
    requires AllDisciplined(base, first, log) && n <= |log|
    ensures AllDisciplined(base, first, log[..n])
  {
    var p := log[..n];
    forall i | 0 <= i < n ensures Disciplined(base, first, p, i) {
      assert Disciplined(base, first, log, i);
      assert p[..i] == log[..i];
      PrefixSame(p, log, i, 0);
      if IsRowRec(log[i]) {
        ReplaySame(BaseRecs(base, KeyOfRec(log[i])), p, log, i, KeyOfRec(log[i]));
      }
    }
  }

  // ---- who committed ------------------------------------------------------

  ghost predicate Committed(log: seq<LogRec>, n: nat, x: Xid)
    requires n <= |log|
  {
    exists i :: 0 <= i < n && log[i].CommitLog? && log[i].xid == x
  }

  ghost predicate Mentioned(log: seq<LogRec>, n: nat, x: Xid)
    requires n <= |log|
  {
    exists i :: 0 <= i < n && OfXid(log[i], x)
  }

  /** A transaction in the log is in the active-transaction table exactly when
      its commit record is missing. */
  lemma {:induction false} LoserIffNotCommitted(base: PageMap, first: Xid, log: seq<LogRec>, n: nat, x: Xid)
    requires AllDisciplined(base, first, log) && n <= |log|
    ensures x in AttOf(log, n) <==> Mentioned(log, n, x) && !Committed(log, n, x)
    ensures x in AttOf(log, n) ==> first <= x < NULL_XID
  {
    if n > 0 {
      LoserIffNotCommitted(base, first, log, n - 1, x);
      var r := log[n - 1];
      assert Disciplined(base, first, log, n - 1);
      assert Mentioned(log, n, x) <==> Mentioned(log, n - 1, x) || OfXid(r, x);
      assert Committed(log, n, x) <==> Committed(log, n - 1, x) || (r.CommitLog? && r.xid == x);
    }
  }

  // ---- what replay leaves at one place ------------------------------------

  predicate InBase(base: PageMap, l: Loc) { HasLoc(base, l) }

  predicate Exists(base: PageMap, log: seq<LogRec>, n: nat, l: Loc)
    requires n <= |log|
  {
    l.rid.slot < |After(base, log, n, KeyOf(l))|
  }

  function Now(base: PageMap, log: seq<LogRec>, n: nat, l: Loc): Version
    requires n <= |log| && Exists(base, log, n, l)
  {
    After(base, log, n, KeyOf(l))[l.rid.slot]
  }

  ghost predicate NoRec(log: seq<LogRec>, n: nat, l: Loc)
    requires n <= |log|
  {
    forall i :: 0 <= i < n ==> !Touches(log[i], l)
  }

  /** The inserter and deleter in a version's header are those of the log. */
  ghost predicate HeaderTells(base: PageMap, first: Xid, log: seq<LogRec>, n: nat, l: Loc)
    requires n <= |log|
  {
    && (!Exists(base, log, n, l) ==> !InBase(base, l) && NoRec(log, n, l))
    && (Exists(base, log, n, l) ==>
          var v := Now(base, log, n, l);
          && (forall i :: 0 <= i < n && Inserts(log[i], l) ==> log[i].xid == v.xmin && v.xmin >= first && log[i].rec.payload == v.payload && log[i].rec.cid == v.cid)
          && (forall i :: 0 <= i < n && Deletes(log[i], l) ==> log[i].xid == v.xmax && v.xmax >= first)
          && (v.xmin >= first ==> InsertedBy(log, n, v.xmin, l))
          && (v.xmin >= first <==> !InBase(base, l))
          && (v.xmax >= first && v.xmax != NULL_XID ==> DeletedBy(log, n, v.xmax, l))
          && (v.xmax < first ==> InBase(base, l) && At(base, l).xmax == v.xmax)
          && (v.xmax == NULL_XID ==> NoDelete(log, n, l) && (InBase(base, l) ==> At(base, l).xmax == NULL_XID))
          && (InBase(base, l) ==> v.xmin == At(base, l).xmin && v.payload == At(base, l).payload && (At(base, l).xmax != NULL_XID ==> v.xmax == At(base, l).xmax))
          && (v.xmin in AttOf(log, n) ==> v.xmax == NULL_XID || v.xmax == v.xmin))
  }

  ghost predicate NoDelete(log: seq<LogRec>, n: nat, l: Loc)
    requires n <= |log|
  {
    forall i :: 0 <= i < n ==> !Deletes(log[i], l)
  }

  lemma {:induction false} ReplayTells(base: PageMap, first: Xid, log: seq<LogRec>, n: nat, l: Loc)
    requires AllDisciplined(base, first, log) && n <= |log|
    ensures HeaderTells(base, first, log, n, l)
  {
    if n == 0 {
      assert Exists(base, log, 0, l) <==> InBase(base, l);
      assert Exists(base, log, 0, l) ==> Now(base, log, 0, l) == At(base, l);
    } else {
      ReplayTells(base, first, log, n - 1, l);
      assert Disciplined(base, first, log, n - 1);
      if Inserts(log[n - 1], l) {
        TellsInsert(base, first, log, n, l);
      } else if Deletes(log[n - 1], l) {
        TellsDelete(base, first, log, n, l);
      } else {
        TellsOther(base, first, log, n, l);
      }
    }
  }

  // The last record is about another place.
  lemma TellsOther(base: PageMap, first: Xid, log: seq<LogRec>, n: nat, l: Loc)
    requires AllDisciplined(base, first, log) && 0 < n <= |log|
    requires HeaderTells(base, first, log, n - 1, l) && !Touches(log[n - 1], l)
    ensures HeaderTells(base, first, log, n, l)
  {
    var r := log[n - 1];
    assert Disciplined(base, first, log, n - 1);
    OtherKeeps(base, first, log, n, l);
    if Exists(base, log, n, l) {
      var v := Now(base, log, n, l);
      ByStep(log, n, v.xmin, l);
      ByStep(log, n, v.xmax, l);
      if v.xmin in AttOf(log, n) {
        LoserIffNotCommitted(base, first, log, n, v.xmin);
        if v.xmin >= first {
          var i :| 0 <= i < n - 1 && Inserts(log[i], l) && log[i].xid == v.xmin;
          assert OfXid(log[i], v.xmin);
          StaysListed(base, first, log, n, v.xmin);
        }
      }
    }
  }

  // A transaction that has logged before and is listed now was listed before.
  lemma StaysListed(base: PageMap, first: Xid, log: seq<LogRec>, n: nat, x: Xid)
    requires AllDisciplined(base, first, log) && 0 < n <= |log|
    requires Mentioned(log, n - 1, x) && x in AttOf(log, n)
    ensures x in AttOf(log, n - 1)
  {
    LoserIffNotCommitted(base, first, log, n, x);
    LoserIffNotCommitted(base, first, log, n - 1, x);
  }

  lemma OtherKeeps(base: PageMap, first: Xid, log: seq<LogRec>, n: nat, l: Loc)
    requires 0 < n <= |log| && Disciplined(base, first, log, n - 1) && !Touches(log[n - 1], l)
    ensures Exists(base, log, n, l) <==> Exists(base, log, n - 1, l)
    ensures Exists(base, log, n, l) ==> Now(base, log, n, l) == Now(base, log, n - 1, l)
  {
  }

  lemma TellsInsert(base: PageMap, first: Xid, log: seq<LogRec>, n: nat, l: Loc)
    requires AllDisciplined(base, first, log) && 0 < n <= |log|
    requires HeaderTells(base, first, log, n - 1, l) && Inserts(log[n - 1], l)
    ensures HeaderTells(base, first, log, n, l)
  {
    var r := log[n - 1];
    assert Disciplined(base, first, log, n - 1);
    LoserIffNotCommitted(base, first, log, n - 1, r.xid);
    assert Exists(base, log, n, l) && Now(base, log, n, l) == r.rec;
    assert InsertedBy(log, n, r.xid, l);
  }

  lemma TellsDelete(base: PageMap, first: Xid, log: seq<LogRec>, n: nat, l: Loc)
    requires AllDisciplined(base, first, log) && 0 < n <= |log|
    requires HeaderTells(base, first, log, n - 1, l) && Deletes(log[n - 1], l)
    ensures HeaderTells(base, first, log, n, l)
  {
    var r := log[n - 1];
    assert Disciplined(base, first, log, n - 1);
    LoserIffNotCommitted(base, first, log, n - 1, r.xid);
    var v := Now(base, log, n - 1, l);
    assert Exists(base, log, n, l) && Now(base, log, n, l) == MarkDeleted(v, r.xid);
    assert DeletedBy(log, n, r.xid, l);
    ByStep(log, n, v.xmin, l);
  }

  // ---- redo ---------------------------------------------------------------

  /** Each disk image holds its page as of some log length, by its LSN. */
  ghost predicate ImageOk(base: PageMap, log: seq<LogRec>, disk: PageMap, k: PageKey, m: nat) {
    && k in disk && m <= |log|
    && disk[k].recs == After(base, log, m, k)
    && (forall i :: 0 <= i < m && OnPage(log[i], k) ==> log[i].lsn <= disk[k].lsn)
    && (forall i :: m <= i < |log| && OnPage(log[i], k) ==> log[i].lsn > disk[k].lsn)
  }

  function Max(a: nat, b: nat): nat { if a < b then b else a }

  /** Redo repeats history exactly once: although it never advances a page
      LSN, it applies each missing record of every page one time, in order,
      and no other. */
  lemma {:induction false} RedoRepeatsHistory(
      base: PageMap, log: seq<LogRec>, i: nat, dpt: map<PageKey, Lsn>, ps: PageMap, disk: PageMap, k: PageKey, m: nat)
    requires i <= |log| && ImageOk(base, log, disk, k, m) && Covers(dpt, log, |log|, disk, k)
    requires k in ps && ps[k].lsn == disk[k].lsn && ps[k].recs == After(base, log, Max(i, m), k)
    ensures var r := RedoFrom(log, i, |log|, dpt, ps);
      k in r && r[k].recs == After(base, log, |log|, k) && r[k].lsn == disk[k].lsn
    decreases |log| - i
  {
    if i < |log| {
      var ps' := RedoRec(log[i], dpt, ps);
      if OnPage(log[i], k) {
        if i >= m {
          assert Missing(log, i, disk, k);
        }
      }
      RedoRepeatsHistory(base, log, i + 1, dpt, ps', disk, k, m);
    }
  }

  lemma NotMissing(dpt: map<PageKey, Lsn>, log: seq<LogRec>, j: nat, disk: PageMap, k: PageKey)
    requires j < |log| && Covers(dpt, log, |log|, disk, k) && (k in dpt ==> log[j].lsn < dpt[k])
    ensures !Missing(log, j, disk, k)
  {
  }

  // Starting late is harmless when the dirty-page table says nothing earlier is missing.
  lemma RedoMayStartLate(base: PageMap, log: seq<LogRec>, i: nat, dpt: map<PageKey, Lsn>, disk: PageMap, k: PageKey, m: nat)
    requires i <= |log| && ImageOk(base, log, disk, k, m) && Covers(dpt, log, |log|, disk, k)
    requires forall j :: 0 <= j < i && k in dpt ==> log[j].lsn < dpt[k]
    ensures disk[k].recs == After(base, log, Max(i, m), k)
  {
    if m < i {
      forall j | m <= j < i ensures !OnPage(log[j], k) {
        NotMissing(dpt, log, j, disk, k);
      }
      ReplaySkip(BaseRecs(base, k), log, m, i, k);
    }
  }

  // ---- undo of all losers -------------------------------------------------

  /** What undoing the losers in `done` makes of a version. */
  function Undone(v: Version, done: set<Xid>): Version {
    if v.xmin in done then MarkDeleted(v, v.xmin)
    else if v.xmax in done then Unmark(v)
    else v
  }

  ghost predicate LosersOnce(log: seq<LogRec>, order: seq<Xid>) {
    && (forall i :: 0 <= i < |order| ==> order[i] in AttOf(log, |log|))
    && (forall i, j :: 0 <= i < j < |order| ==> order[i] != order[j])
  }

  // The pages hold exactly the replay of the log.
  ghost predicate Replayed(base: PageMap, log: seq<LogRec>, ps: PageMap, l: Loc) {
    && (HasLoc(ps, l) <==> Exists(base, log, |log|, l))
    && (HasLoc(ps, l) ==> At(ps, l) == Now(base, log, |log|, l))
  }

  /** Whatever the order in which the losers are rolled back, each place ends
      up the same. */
  lemma {:induction false} UndoAllAt(base: PageMap, first: Xid, log: seq<LogRec>, order: seq<Xid>, ps: PageMap, l: Loc)
    requires AllDisciplined(base, first, log) && LosersOnce(log, order) && Replayed(base, log, ps, l)
    ensures HasLoc(UndoAll(log, order, ps), l) <==> HasLoc(ps, l)
    ensures HasLoc(ps, l) ==> At(UndoAll(log, order, ps), l) == Undone(At(ps, l), set y | y in order)
    decreases |order|
  {
    if order != [] {
      var rest := order[..|order| - 1];
      var x := order[|order| - 1];
      UndoAllAt(base, first, log, rest, ps, l);
      UndoTxAt(log, |log|, x, UndoAll(log, rest, ps), l);
      LosersSplit(log, order);
      if HasLoc(ps, l) {
        ReplayTells(base, first, log, |log|, l);
        LoserIffNotCommitted(base, first, log, |log|, x);
        UndoOneMore(base, first, log, (set y | y in rest), x, At(ps, l), l);
      }
    }
  }

  lemma LosersSplit(log: seq<LogRec>, order: seq<Xid>)
    requires LosersOnce(log, order) && order != []
    ensures var rest, x := order[..|order| - 1], order[|order| - 1];
      && x in AttOf(log, |log|) && x !in rest
      && (set y | y in order) == (set y | y in rest) + {x}
      && (forall y :: y in rest ==> y in AttOf(log, |log|))
  {
    assert order == order[..|order| - 1] + [order[|order| - 1]];
  }

  lemma UndoOneMore(base: PageMap, first: Xid, log: seq<LogRec>, done: set<Xid>, x: Xid, v: Version, l: Loc)
    requires Exists(base, log, |log|, l) && HeaderTells(base, first, log, |log|, l) && v == Now(base, log, |log|, l)
    requires x in AttOf(log, |log|) && first <= x < NULL_XID && x !in done
    requires forall y :: y in done ==> y in AttOf(log, |log|)
    ensures var u := Undone(v, done);
      Undone(v, done + {x}) ==
      (if InsertedBy(log, |log|, x, l) then MarkDeleted(u, x)
       else if DeletedBy(log, |log|, x, l) then Unmark(u)
       else u)
  {
    assert InsertedBy(log, |log|, x, l) <==> v.xmin == x;
    assert DeletedBy(log, |log|, x, l) <==> v.xmax == x;
  }

  // ---- committed effects --------------------------------------------------

  /** Counting only the first `n` records: the row at `l` was inserted by a
      transaction whose commit is durable, or before the log began. */
  ghost predicate InsertCommittedBy(base: PageMap, log: seq<LogRec>, n: nat, l: Loc)
    requires n <= |log|
  {
    InBase(base, l) || exists i :: 0 <= i < n && Inserts(log[i], l) && Committed(log, |log|, log[i].xid)
  }

  ghost predicate DeleteCommittedBy(base: PageMap, log: seq<LogRec>, n: nat, l: Loc)
    requires n <= |log|
  {
    || (InBase(base, l) && At(base, l).xmax != NULL_XID)
    || exists i :: 0 <= i < n && Deletes(log[i], l) && Committed(log, |log|, log[i].xid)
  }

  ghost predicate InsertCommitted(base: PageMap, log: seq<LogRec>, l: Loc) {
    InsertCommittedBy(base, log, |log|, l)
  }

  ghost predicate DeleteCommitted(base: PageMap, log: seq<LogRec>, l: Loc) {
    DeleteCommittedBy(base, log, |log|, l)
  }

  // An id no version and no log record mentions.
  ghost predicate Fresh(base: PageMap, log: seq<LogRec>, x: Xid) {
    && x < NULL_XID
    && (forall l :: HasLoc(base, l) ==> At(base, l).xmin != x && At(base, l).xmax != x)
    && (forall i :: 0 <= i < |log| ==> !OfXid(log[i], x))
  }

  /** What a new transaction reads at a place that holds the replay of the
      first `n` records, once the losers are undone.  An id that nobody used
      before sees exactly the committed effects among them; a reused one misses
      what its namesake inserted under the same command id. */
  lemma UndoneVisible(base: PageMap, first: Xid, log: seq<LogRec>, n: nat, v: Version, l: Loc, x: Xid, cid: Cid)
    requires AllDisciplined(base, first, log) && x < NULL_XID && n <= |log|
    requires Exists(base, log, n, l) && v == Now(base, log, n, l)
    ensures Visible(Undone(v, AttOf(log, |log|).Keys), x, cid, READ_COMMITTED, {x}) <==>
      InsertCommittedBy(base, log, n, l) && !DeleteCommittedBy(base, log, n, l) && !OwnCommand(v, x, cid)
  {
    ReplayTells(base, first, log, n, l);
    LoserIffNotCommitted(base, first, log, |log|, v.xmin);
    LoserIffNotCommitted(base, first, log, |log|, v.xmax);
    if v.xmin >= first {
      var i :| 0 <= i < n && Inserts(log[i], l) && log[i].xid == v.xmin;
      assert Mentioned(log, |log|, v.xmin) by { assert OfXid(log[i], v.xmin); }
    }
    if v.xmax >= first && v.xmax != NULL_XID {
      var i :| 0 <= i < n && Deletes(log[i], l) && log[i].xid == v.xmax;
      assert Mentioned(log, |log|, v.xmax) by { assert OfXid(log[i], v.xmax); }
    }
    InsertCommittedIff(base, first, log, n, v, l);
    DeleteCommittedIff(base, first, log, n, v, l);
    ReadCommittedMeaning(Undone(v, AttOf(log, |log|).Keys), x, cid, {x});
  }

  // A fresh id has inserted nothing.
  lemma FreshIsNotOwner(base: PageMap, first: Xid, log: seq<LogRec>, n: nat, v: Version, l: Loc, x: Xid, cid: Cid)
    requires AllDisciplined(base, first, log) && Fresh(base, log, x) && n <= |log|
    requires Exists(base, log, n, l) && v == Now(base, log, n, l)
    ensures !OwnCommand(v, x, cid)
  {
    ReplayTells(base, first, log, n, l);
  }

  lemma InsertCommittedIff(base: PageMap, first: Xid, log: seq<LogRec>, n: nat, v: Version, l: Loc)
    requires n <= |log| && Exists(base, log, n, l) && v == Now(base, log, n, l) && HeaderTells(base, first, log, n, l)
    ensures InsertCommittedBy(base, log, n, l) <==> v.xmin < first || Committed(log, |log|, v.xmin)
  {
  }

  lemma DeleteCommittedIff(base: PageMap, first: Xid, log: seq<LogRec>, n: nat, v: Version, l: Loc)
    requires n <= |log| && Exists(base, log, n, l) && v == Now(base, log, n, l) && HeaderTells(base, first, log, n, l)
    requires BaseOk(base, first)
    ensures DeleteCommittedBy(base, log, n, l) <==> v.xmax != NULL_XID && (v.xmax < first || Committed(log, |log|, v.xmax))
  {
  }
}
