/** Doing and redoing a whole log on the bytes of one page. */
module ByteReplay {
  import opened Types
  import opened Bytes
  import opened HeaderCodec
  import opened PageLayout
  import opened TablePages
  import opened Pages
  import opened Wal
  import opened Replay
  import opened LogCodec
  import opened Recovery
  import opened EngineDisk
  import opened CrashRecovery
  import opened RedoWindow
  import opened CachedRecovery
  import opened RestartBounds

  // ---- pages that differ in the page LSN only -----------------------------

  ghost predicate SameTail(a: bytes, b: bytes) {
    |a| == |b| == DB_PAGE_SIZE && a[8..] == b[8..]
  }

  lemma TailSlice(a: bytes, b: bytes, i: nat, j: nat)
    requires SameTail(a, b) && 8 <= i <= j <= DB_PAGE_SIZE
    ensures a[i..j] == b[i..j]
  {
    forall k | i <= k < j ensures a[k] == b[k] {
      assert a[8..][k - 8] == b[8..][k - 8];
    }
  }

  lemma TailLayout(a: bytes, b: bytes)
    requires SameTail(a, b) && LayoutOk(b)
    ensures LayoutOk(a) && RecordCount(a) == RecordCount(b) && Upper(a) == Upper(b) && Lower(a) == Lower(b)
    ensures forall i :: 0 <= i < RecordCount(b) ==>
      SlotOffset(a, i) == SlotOffset(b, i) && SlotSize(a, i) == SlotSize(b, i) && RecordAt(a, i) == RecordAt(b, i)
  {
    TailSlice(a, b, 12, 14);
    TailSlice(a, b, 14, 16);
    forall i | 0 <= i < RecordCount(b) ensures SlotOffset(a, i) == SlotOffset(b, i) && SlotSize(a, i) == SlotSize(b, i) {
      var at := PAGE_HEADER_SIZE + SLOT_SIZE * i;
      TailSlice(a, b, at, at + 2);
      TailSlice(a, b, at + 2, at + 4);
    }
    forall i | 0 <= i < RecordCount(b) ensures SlotOk(a, i) { assert SlotOk(b, i); }
    forall i | 0 <= i < RecordCount(b) ensures RecordAt(a, i) == RecordAt(b, i) {
      RecordInPage(b, i);
      TailSlice(a, b, SlotOffset(b, i), SlotOffset(b, i) + SlotSize(b, i));
    }
  }

  lemma TailSplice(a: bytes, b: bytes, off: nat, f: bytes)
    requires SameTail(a, b) && 8 <= off && off + |f| <= DB_PAGE_SIZE
    ensures SameTail(Splice(a, off, f), Splice(b, off, f))
  {
    var x, y := Splice(a, off, f), Splice(b, off, f);
    TailSlice(a, b, 8, off);
    TailSlice(a, b, off + |f|, DB_PAGE_SIZE);
    assert a[..off][8..] == a[8..off] && b[..off][8..] == b[8..off];
    assert x[8..] == a[8..off] + f + a[off + |f|..];
    assert y[8..] == b[8..off] + f + b[off + |f|..];
  }

  // ---- one record ---------------------------------------------------------

  ghost predicate FitsBytes(r: LogRec, b: bytes) {
    LayoutOk(b) && InBounds(r, AbsPage(b))
  }

  /** What redo of a record writes: TablePage::RedoInsertRecord or DeleteRecord. */
  ghost function RedoBytes(r: LogRec, b: bytes): (b': bytes)
    requires FitsBytes(r, b)
    ensures |b'| == DB_PAGE_SIZE
  {
    if r.InsertLog? then SpaceAgrees(b); Inserted(b, RecordCount(b), VersionBytes(r.rec))
    else Reheaded(b, r.slot, MarkDeleted(VersionAt(b, r.slot), r.xid))
  }

  /** What the statement wrote: the same, and the LSN of its record. */
  ghost function DoBytes(r: LogRec, b: bytes): bytes
    requires FitsBytes(r, b)
  {
    WithLsn(RedoBytes(r, b), r.lsn)
  }

  // Redo keeps the layout and the page LSN.
  lemma RedoKeepsPage(r: LogRec, b: bytes)
    requires FitsBytes(r, b)
    ensures LayoutOk(RedoBytes(r, b)) && PageLsn(RedoBytes(r, b)) == PageLsn(b)
    ensures AbsPage(RedoBytes(r, b)).recs == ApplyRecs(AbsPage(b).recs, r)
  {
    if r.InsertLog? {
      SpaceAgrees(b);
      InsertedAbs(b, r.rec);
      InsertedCounters(b, VersionBytes(r.rec));
    } else {
      MarkedAbs(b, r.slot, r.xid);
      RecordInPage(b, r.slot);
      PatchedFields(b, r.slot, HeaderBytes(MarkDeleted(VersionAt(b, r.slot), r.xid)));
    }
  }

  lemma DoKeepsPage(r: LogRec, b: bytes)
    requires FitsBytes(r, b) && r.lsn < U64
    ensures LayoutOk(DoBytes(r, b)) && PageLsn(DoBytes(r, b)) == r.lsn && SameTail(DoBytes(r, b), RedoBytes(r, b))
    ensures AbsPage(DoBytes(r, b)).recs == ApplyRecs(AbsPage(b).recs, r)
  {
    RedoKeepsPage(r, b);
    WithLsnLayout(RedoBytes(r, b), r.lsn);
    SpliceOutside(RedoBytes(r, b), 0, ToBytes(r.lsn, 8), 8, DB_PAGE_SIZE);
    SameRecords(RedoBytes(r, b), DoBytes(r, b));
  }

  /** Redo of one record on a page that differs from the one the statement
      found in its page LSN only gives what the statement wrote but for the LSN. */
  lemma RedoneLikeDone(r: LogRec, image: bytes, b: bytes)
    requires FitsBytes(r, b) && SameTail(image, b) && r.lsn < U64
    ensures FitsBytes(r, image) && SameTail(RedoBytes(r, image), DoBytes(r, b))
  {
    TailLayout(image, b);
    SameRecords(image, b);
    DoKeepsPage(r, b);
    if r.InsertLog? {
      SpaceAgrees(b);
      PageLayout.RedoIsDo(b, image, VersionBytes(r.rec), r.lsn);
    } else {
      var f := HeaderBytes(MarkDeleted(VersionAt(b, r.slot), r.xid));
      RecordInPage(b, r.slot);
      TailSplice(image, b, SlotOffset(b, r.slot), f);
    }
  }

  // ---- the whole log ------------------------------------------------------

  // What one more record makes of the page, done and redone.
  ghost function DoneOne(r: LogRec, b: bytes, k: PageKey): bytes {
    if OnPage(r, k) && FitsBytes(r, b) then DoBytes(r, b) else b
  }

  ghost function RedoneOne(r: LogRec, b: bytes, entry: Lsn, k: PageKey): (b': bytes)
    requires |b| == DB_PAGE_SIZE
    ensures |b'| == DB_PAGE_SIZE
  {
    if OnPage(r, k) && r.lsn >= entry && r.lsn > PageLsn(b) && FitsBytes(r, b) then RedoBytes(r, b) else b
  }

  // The bytes of page `k` after the statements of the first `n` records.
  ghost function DoneBytes(base: bytes, log: seq<LogRec>, n: nat, k: PageKey): bytes
    requires n <= |log|
  {
    if n == 0 then base
    else DoneOne(log[n - 1], DoneBytes(base, log, n - 1, k), k)
  }

  // The bytes redo makes of an image from record `i` on, given the page's dirty-page entry.
  ghost function RedoneBytes(image: bytes, log: seq<LogRec>, i: nat, n: nat, entry: Lsn, k: PageKey): (b': bytes)
    requires i <= n <= |log| && |image| == DB_PAGE_SIZE
    ensures |b'| == DB_PAGE_SIZE
    decreases n
  {
    if n == i then image
    else RedoneOne(log[n - 1], RedoneBytes(image, log, i, n - 1, entry, k), entry, k)
  }

  // Every record of the page fits the page of versions it comes to.
  ghost predicate AllInBounds(recs: seq<Version>, log: seq<LogRec>, k: PageKey) {
    forall j :: 0 <= j < |log| && OnPage(log[j], k) ==>
      log[j].lsn < U64 && InBounds(log[j], Page(0, NULL_PAGE_ID, ReplayKey(recs, log, j, k)))
  }

  /** The bytes the statements leave stand for the replay of the log. */
  lemma {:induction false} DoneIsReplay(base: bytes, log: seq<LogRec>, n: nat, k: PageKey)
    requires LayoutOk(base) && AllInBounds(AbsPage(base).recs, log, k) && n <= |log|
    ensures LayoutOk(DoneBytes(base, log, n, k))
    ensures AbsPage(DoneBytes(base, log, n, k)).recs == ReplayKey(AbsPage(base).recs, log, n, k)
  {
    if n > 0 {
      DoneIsReplay(base, log, n - 1, k);
      if OnPage(log[n - 1], k) { DoKeepsPage(log[n - 1], DoneBytes(base, log, n - 1, k)); }
    }
  }

  /** Redo over a whole log: start from a page image written after `m` records,
      wherever redo begins, and every byte behind the page LSN ends up as the
      statements of the whole log left it. */
  lemma {:induction false} RedoneIsDone(base: bytes, image: bytes, log: seq<LogRec>, m: nat, i: nat, n: nat, entry: Lsn, k: PageKey)
    requires LayoutOk(base) && AllInBounds(AbsPage(base).recs, log, k)
    requires m <= n <= |log| && i <= n && SameTail(image, DoneBytes(base, log, m, k))
    requires forall j :: 0 <= j < |log| && OnPage(log[j], k) ==> (log[j].lsn <= PageLsn(image) <==> j < m)
    requires forall j :: m <= j < |log| && OnPage(log[j], k) ==> j >= i && log[j].lsn >= entry
    ensures SameTail(RedoneBytes(image, log, i, n, entry, k), DoneBytes(base, log, n, k))
    ensures PageLsn(RedoneBytes(image, log, i, n, entry, k)) == PageLsn(image)
    decreases n
  {
    if n == i {
      DoneSkips(base, log, m, n, k);
    } else if n == m {
      NothingRedone(image, log, i, n, entry, k);
    } else {
      RedoneIsDone(base, image, log, m, i, n - 1, entry, k);
      DoneIsReplay(base, log, n - 1, k);
      RedoneTurn(log[n - 1], RedoneBytes(image, log, i, n - 1, entry, k), DoneBytes(base, log, n - 1, k), entry, k);
    }
  }

  lemma RedoneTurn(r: LogRec, b: bytes, d: bytes, entry: Lsn, k: PageKey)
    requires SameTail(b, d) && (OnPage(r, k) ==> FitsBytes(r, d) && r.lsn < U64 && r.lsn >= entry && r.lsn > PageLsn(b))
    ensures SameTail(RedoneOne(r, b, entry, k), DoneOne(r, d, k)) && PageLsn(RedoneOne(r, b, entry, k)) == PageLsn(b)
  {
    if OnPage(r, k) {
      RedoneLikeDone(r, b, d);
      RedoKeepsPage(r, b);
    }
  }

  lemma {:induction false} DoneSkips(base: bytes, log: seq<LogRec>, m: nat, n: nat, k: PageKey)
    requires m <= n <= |log| && forall j :: m <= j < n ==> !OnPage(log[j], k)
    ensures DoneBytes(base, log, n, k) == DoneBytes(base, log, m, k)
  {
    if m < n { DoneSkips(base, log, m, n - 1, k); }
  }

  // Records the image has are not applied again.
  lemma {:induction false} NothingRedone(image: bytes, log: seq<LogRec>, i: nat, n: nat, entry: Lsn, k: PageKey)
    requires i <= n <= |log| && |image| == DB_PAGE_SIZE
    requires forall j :: i <= j < n && OnPage(log[j], k) ==> log[j].lsn <= PageLsn(image)
    ensures RedoneBytes(image, log, i, n, entry, k) == image
    decreases n
  {
    if i < n { NothingRedone(image, log, i, n - 1, entry, k); }
  }

  // ---- after a crash ------------------------------------------------------

  lemma CrashInBounds(base: PageMap, first: Xid, log: seq<LogRec>, k: PageKey)
    requires AllDisciplined(base, first, log) && k in base
    requires forall j {:trigger RecFits(log[j])} :: 0 <= j < |log| ==> RecFits(log[j])
    requires forall j :: 0 <= j < |log| ==> log[j].lsn < NULL_LSN
    ensures AllInBounds(base[k].recs, log, k)
  {
    forall j | 0 <= j < |log| && OnPage(log[j], k)
      ensures log[j].lsn < U64 && InBounds(log[j], Page(0, NULL_PAGE_ID, ReplayKey(base[k].recs, log, j, k)))
    {
      assert RecFits(log[j]) && Disciplined(base, first, log, j);
    }
  }

  // The image lacks the records from `m` on, and all of them are redone.
  lemma ImageLacks(base: PageMap, log: seq<LogRec>, start: nat, dpt: map<PageKey, Lsn>, disk: PageMap, m: nat, k: PageKey)
    requires Ready(log, start, dpt, disk) && ImageOk(base, log, disk, k, m)
    ensures forall j :: 0 <= j < |log| && OnPage(log[j], k) ==> (log[j].lsn <= disk[k].lsn <==> j < m)
    ensures forall j :: m <= j < |log| && OnPage(log[j], k) ==>
      j >= start && log[j].lsn >= (if k in dpt then dpt[k] else NULL_LSN)
  {
    forall j | m <= j < |log| && OnPage(log[j], k) ensures j >= start && k in dpt && log[j].lsn >= dpt[k] {
      assert Missing(log, j, disk, k);
      MissingAsks(log, start, dpt, disk, j, k);
    }
  }

  lemma PageBytesRedone(base: PageMap, log: seq<LogRec>, start: nat, dpt: map<PageKey, Lsn>, disk: PageMap, m: nat, k: PageKey,
                        was: bytes, image: bytes)
    requires Ready(log, start, dpt, disk) && ImageOk(base, log, disk, k, m)
    requires LayoutOk(was) && AllInBounds(AbsPage(was).recs, log, k)
    requires SameTail(image, DoneBytes(was, log, m, k)) && PageLsn(image) == disk[k].lsn
    ensures SameTail(RedoneBytes(image, log, start, |log|, if k in dpt then dpt[k] else NULL_LSN, k), DoneBytes(was, log, |log|, k))
  {
    ImageLacks(base, log, start, dpt, disk, m, k);
    RedoneIsDone(was, image, log, m, start, |log|, if k in dpt then dpt[k] else NULL_LSN, k);
  }

  /** After a crash, redo of a page that the cache does not write back meanwhile
      restores, byte for byte behind the page LSN, what the statements of the
      durable log had written, if the file has what they had written at some
      time. */
  lemma CrashedPageBytes(base: PageMap, first: Xid, log: seq<LogRec>, c: nat, start: nat, disk: PageMap, m: map<PageKey, nat>,
                         k: PageKey, was: bytes, image: bytes)
    requires Crashed(base, first, log, c, disk, m) && RedoStart(log, Analyze(log, c).dpt, c, start) && k in disk
    requires forall j {:trigger RecFits(log[j])} :: 0 <= j < |log| ==> RecFits(log[j])
    requires forall j :: 0 <= j < |log| ==> log[j].lsn < NULL_LSN
    requires LayoutOk(was) && AbsPage(was).recs == base[k].recs
    requires SameTail(image, DoneBytes(was, log, m[k], k)) && PageLsn(image) == disk[k].lsn
    ensures var dpt := Analyze(log, c).dpt;
      && SameTail(RedoneBytes(image, log, start, |log|, if k in dpt then dpt[k] else NULL_LSN, k), DoneBytes(was, log, |log|, k))
      && LayoutOk(DoneBytes(was, log, |log|, k)) && AbsPage(DoneBytes(was, log, |log|, k)).recs == After(base, log, |log|, k)
  {
    CrashReady(base, first, log, c, start, disk, m);
    CrashedImage(base, first, log, c, disk, m, k);
    PageBytesRedone(base, log, start, Analyze(log, c).dpt, disk, m[k], k, was, image);
    DoneIsReplay(was, log, |log|, k);
  }

  lemma CrashedImage(base: PageMap, first: Xid, log: seq<LogRec>, c: nat, disk: PageMap, m: map<PageKey, nat>, k: PageKey)
    requires Crashed(base, first, log, c, disk, m) && k in disk
    requires forall j {:trigger RecFits(log[j])} :: 0 <= j < |log| ==> RecFits(log[j])
    requires forall j :: 0 <= j < |log| ==> log[j].lsn < NULL_LSN
    ensures k in base && k in m && ImageOk(base, log, disk, k, m[k]) && AllInBounds(base[k].recs, log, k)
    ensures After(base, log, |log|, k) == ReplayKey(base[k].recs, log, |log|, k)
  {
    CrashInBounds(base, first, log, k);
  }
}
