/** The table object: inserting into the first page with room, deleting and
    updating, with their log records and page stamps. */
module Tables {
  import opened Types
  import opened Pages
  import opened Wal
  import opened Bytes
  import opened HeaderCodec
  import opened LogCodec
  import opened LogManagement
  import opened TableChain

  // ---- what an insert logs ------------------------------------------------

  function Offset(ps: PageMap, oid: Oid, n: nat, size: nat): nat {
    var q := FirstFit(ps, oid, n, size, 0);
    if q < n && size > 0 then OffsetFor(ps[PageKey(oid, q)], size)
    else if size <= DB_PAGE_SIZE then DB_PAGE_SIZE - size else 0
  }

  // The log after the record that announces a new page, if there is one.
  function LogPage(w: Wal, x: Xid, ps: PageMap, oid: Oid, n: nat, size: nat): Wal
    requires x in w.att
  {
    if FirstFit(ps, oid, n, size, 0) < n then w
    else AppendNewPage(w, x, oid, if n == 0 then NULL_PAGE_ID else n - 1, n)
  }

  function LogInserted(w: Wal, x: Xid, ps: PageMap, oid: Oid, n: nat, v: Version): Wal
    requires x in w.att
  {
    var size := RecordSize(v);
    AppendInsert(LogPage(w, x, ps, oid, n, size), x, Loc(oid, Place(ps, oid, n, size)), Offset(ps, oid, n, size), v)
  }

  // The two records of a page that is new.
  function LogFilled(w: Wal, x: Xid, oid: Oid, prevPage: nat, page: nat, v: Version): Wal
    requires x in w.att && RecordSize(v) <= DB_PAGE_SIZE
  {
    AppendInsert(AppendNewPage(w, x, oid, prevPage, page), x, Loc(oid, Rid(page, 0)), DB_PAGE_SIZE - RecordSize(v), v)
  }

  // The pages an insert leaves; the page it went to carries the new LSN.
  function Stamped(ps: PageMap, w: Wal, x: Xid, oid: Oid, n: nat, v: Version): PageMap
    requires x in w.att
  {
    var size := RecordSize(v);
    var q := FirstFit(ps, oid, n, size, 0);
    var t := InsertedInto(ps, oid, n, v);
    if PageKey(oid, q) in t then SetPageLsn(t, PageKey(oid, q), LogPage(w, x, ps, oid, n, size).nextLsn) else t
  }

  // The pages a delete leaves.
  function Marked(ps: PageMap, l: Loc, x: Xid, lsn: Lsn): PageMap
    requires HasLoc(ps, l)
  {
    SetPageLsn(SetAt(ps, l, MarkDeleted(At(ps, l), x)), KeyOf(l), lsn)
  }

  // Whether the operation gets as far as its log record.
  predicate Logged(w: Wal, x: Xid, writeLog: bool) { writeLog && x in w.att }

  /** The pages an insert leaves: without a log record no page is stamped. */
  function AfterInsert(ps: PageMap, w: Wal, x: Xid, oid: Oid, n: nat, v: Version, writeLog: bool): PageMap {
    if Logged(w, x, writeLog) then Stamped(ps, w, x, oid, n, v) else InsertedInto(ps, oid, n, v)
  }

  function LogAfterInsert(ps: PageMap, w: Wal, x: Xid, oid: Oid, n: nat, v: Version, writeLog: bool): Wal {
    if Logged(w, x, writeLog) then LogInserted(w, x, ps, oid, n, v) else w
  }

  /** The pages and the log a delete leaves. */
  function AfterDelete(ps: PageMap, w: Wal, x: Xid, l: Loc, writeLog: bool): PageMap
    requires HasLoc(ps, l)
  {
    if Logged(w, x, writeLog) then Marked(ps, l, x, w.nextLsn) else SetAt(ps, l, MarkDeleted(At(ps, l), x))
  }

  function LogAfterDelete(w: Wal, x: Xid, l: Loc, writeLog: bool): Wal {
    if Logged(w, x, writeLog) then AppendDelete(w, x, l) else w
  }

  lemma MarkedOk(ps: PageMap, oid: Oid, n: nat, l: Loc, x: Xid, lsn: Lsn)
    requires ChainOk(ps, oid, n) && HasLoc(ps, l)
    ensures ChainOk(Marked(ps, l, x, lsn), oid, n)
  {
    MarkedChain(ps, oid, n, l, MarkDeleted(At(ps, l), x));
    StampedChain(SetAt(ps, l, MarkDeleted(At(ps, l), x)), oid, n, KeyOf(l), lsn);
  }

  lemma LocFits(ps: PageMap, oid: Oid, n: nat, l: Loc)
    requires ChainOk(ps, oid, n) && HasLoc(ps, l) && l.oid == oid
    ensures l.rid.page < n && l.rid.slot < U16
  {
    assert LinkOk(ps, oid, n, l.rid.page);
    SmallPage(ps[KeyOf(l)]);
  }

  lemma StampedOk(ps: PageMap, w: Wal, x: Xid, oid: Oid, n: nat, v: Version)
    requires x in w.att && ChainOk(ps, oid, n) && RecordSize(v) <= MAX_RECORD_SIZE && n + 1 < NULL_PAGE_ID
    ensures ChainOk(Stamped(ps, w, x, oid, n, v), oid, PagesAfter(ps, oid, n, RecordSize(v)))
  {
    var size := RecordSize(v);
    var q := FirstFit(ps, oid, n, size, 0);
    InsertedChain(ps, oid, n, v);
    assert LinkOk(InsertedInto(ps, oid, n, v), oid, PagesAfter(ps, oid, n, size), q);
    StampedChain(InsertedInto(ps, oid, n, v), oid, PagesAfter(ps, oid, n, size), PageKey(oid, q), LogPage(w, x, ps, oid, n, size).nextLsn);
  }

  // ---- what the operations come to ----------------------------------------

  // `t` is `ps` with row `r` deleted.
  ghost predicate OnlyMarked(ps: PageMap, t: PageMap, oid: Oid, r: Rid, x: Xid) {
    && HasLoc(ps, Loc(oid, r))
    && (forall l :: HasLoc(t, l) <==> HasLoc(ps, l))
    && (forall l :: HasLoc(t, l) ==> At(t, l) == if l == Loc(oid, r) then MarkDeleted(At(ps, l), x) else At(ps, l))
  }

  // `t` is `ps` with row `r` deleted and one new version at `q`.
  ghost predicate Replaced(ps: PageMap, t: PageMap, oid: Oid, r: Rid, x: Xid, q: Rid, v: Version) {
    && HasLoc(ps, Loc(oid, r)) && !HasLoc(ps, Loc(oid, q))
    && (forall l :: HasLoc(t, l) <==> HasLoc(ps, l) || l == Loc(oid, q))
    && (forall l :: HasLoc(t, l) ==>
          At(t, l) == if l == Loc(oid, q) then v else if l == Loc(oid, r) then MarkDeleted(At(ps, l), x) else At(ps, l))
  }

  lemma StampedAt(ps: PageMap, w: Wal, x: Xid, oid: Oid, n: nat, v: Version, l: Loc)
    requires x in w.att && ChainOk(ps, oid, n)
    ensures HasLoc(Stamped(ps, w, x, oid, n, v), l) <==> HasLoc(InsertedInto(ps, oid, n, v), l)
    ensures HasLoc(InsertedInto(ps, oid, n, v), l) ==> At(Stamped(ps, w, x, oid, n, v), l) == At(InsertedInto(ps, oid, n, v), l)
  {
  }

  lemma MarkedAt(ps: PageMap, k: Loc, x: Xid, lsn: Lsn, l: Loc)
    requires HasLoc(ps, k)
    ensures HasLoc(Marked(ps, k, x, lsn), l) <==> HasLoc(ps, l)
    ensures HasLoc(ps, l) ==> At(Marked(ps, k, x, lsn), l) == if l == k then MarkDeleted(At(ps, l), x) else At(ps, l)
  {
  }

  // The log of one inserted row: its record says where its bytes start, which is
  // where those of the whole page do.
  ghost predicate RowLogged(w: Wal, w': Wal, x: Xid, l: Loc, v: Version, t: PageMap) {
    && x in w.att && KeyOf(l) in t
    && (exists offset: nat :: offset + UsedBytes(t[KeyOf(l)].recs) == DB_PAGE_SIZE
          && Appended(w, w', InsertLog(w.nextLsn, x, w.att[x], l.oid, l.rid.page, l.rid.slot, offset, v)))
    && EntryFor(w.dpt, w'.dpt, KeyOf(l), w.nextLsn)
    && t[KeyOf(l)].lsn == w.nextLsn
  }

  /** What an insert logs: for a new page that page's record first, then the
      row's, whose LSN the page carries. */
  ghost predicate InsertLogged(w: Wal, w': Wal, x: Xid, n: nat, l: Loc, v: Version, t: PageMap) {
    if l.rid.page < n then RowLogged(w, w', x, l, v, t)
    else exists w1 :: NewPageLogged(w, w1, x, l.oid, if n == 0 then NULL_PAGE_ID else n - 1, n) && RowLogged(w1, w', x, l, v, t)
  }

  // No page but `k` has another LSN.
  ghost predicate OnlyStamped(ps: PageMap, t: PageMap, k: PageKey) {
    forall j :: j in ps && j != k ==> j in t && t[j].lsn == ps[j].lsn
  }

  lemma RowLoggedIs(w: Wal, x: Xid, l: Loc, offset: nat, v: Version, t: PageMap)
    requires x in w.att && KeyOf(l) in t && offset + UsedBytes(t[KeyOf(l)].recs) == DB_PAGE_SIZE && t[KeyOf(l)].lsn == w.nextLsn
    ensures RowLogged(w, AppendInsert(w, x, l, offset, v), x, l, v, t)
  {
    assert Appended(w, AppendInsert(w, x, l, offset, v), InsertLog(w.nextLsn, x, w.att[x], l.oid, l.rid.page, l.rid.slot, offset, v));
  }

  lemma InsertedHere(ps: PageMap, w: Wal, x: Xid, oid: Oid, n: nat, v: Version)
    requires x in w.att && ChainOk(ps, oid, n) && Place(ps, oid, n, RecordSize(v)).page < n
    ensures InsertLogged(w, LogInserted(w, x, ps, oid, n, v), x, n, Loc(oid, Place(ps, oid, n, RecordSize(v))), v, Stamped(ps, w, x, oid, n, v))
  {
    var q := Place(ps, oid, n, RecordSize(v)).page;
    var k := PageKey(oid, q);
    assert LinkOk(ps, oid, n, q);
    var p := ps[k];
    assert (p.recs + [v])[..|p.recs|] == p.recs;
    assert UsedBytes(p.recs + [v]) == UsedBytes(p.recs) + RecordSize(v);
    RowLoggedIs(w, x, Loc(oid, Place(ps, oid, n, RecordSize(v))), Offset(ps, oid, n, RecordSize(v)), v, Stamped(ps, w, x, oid, n, v));
  }

  lemma InsertedNew(ps: PageMap, w: Wal, x: Xid, oid: Oid, n: nat, v: Version)
    requires x in w.att && x != DDL_XID && ChainOk(ps, oid, n) && Place(ps, oid, n, RecordSize(v)).page == n && RecordSize(v) <= MAX_RECORD_SIZE
    ensures InsertLogged(w, LogInserted(w, x, ps, oid, n, v), x, n, Loc(oid, Place(ps, oid, n, RecordSize(v))), v, Stamped(ps, w, x, oid, n, v))
  {
    var prev := if n == 0 then NULL_PAGE_ID else n - 1;
    var w1 := AppendNewPage(w, x, oid, prev, n);
    AppendNewPageIs(w, x, oid, prev, n);
    assert [v][..0] == [] && UsedBytes([v]) == UsedBytes([]) + RecordSize(v);
    RowLoggedIs(w1, x, Loc(oid, Rid(n, 0)), Offset(ps, oid, n, RecordSize(v)), v, Stamped(ps, w, x, oid, n, v));
  }

  lemma InsertedRow(ps: PageMap, w: Wal, x: Xid, oid: Oid, n: nat, v: Version, writeLog: bool)
    requires ChainOk(ps, oid, n)
    ensures OneMoreRow(ps, AfterInsert(ps, w, x, oid, n, v, writeLog), Loc(oid, Place(ps, oid, n, RecordSize(v))), v)
  {
    var t, l := AfterInsert(ps, w, x, oid, n, v, writeLog), Loc(oid, Place(ps, oid, n, RecordSize(v)));
    forall k ensures (HasLoc(t, k) <==> HasLoc(ps, k) || k == l) && (HasLoc(t, k) ==> At(t, k) == if k == l then v else At(ps, k)) {
      InsertedAt(ps, oid, n, v, k);
      if Logged(w, x, writeLog) { StampedAt(ps, w, x, oid, n, v, k); }
    }
    InsertedAt(ps, oid, n, v, l);
  }

  /** An insert, said without its specification: it goes to the first page with
      room, adds one row and changes no other, and logs what it did. */
  ghost predicate InsertDone(ps: PageMap, t: PageMap, w: Wal, w': Wal, x: Xid, oid: Oid, n: nat, v: Version, logged: bool, q: Rid) {
    && FirstWithRoom(ps, oid, n, RecordSize(v), q)
    && OneMoreRow(ps, t, Loc(oid, q), v)
    && OnlyStamped(ps, t, PageKey(oid, q.page))
    && PageKey(oid, q.page) in t
    && (if logged then InsertLogged(w, w', x, n, Loc(oid, q), v, t)
        else w' == w && t[PageKey(oid, q.page)].lsn == if PageKey(oid, q.page) in ps then ps[PageKey(oid, q.page)].lsn else 0)
  }

  lemma InsertIsDone(ps: PageMap, w: Wal, x: Xid, oid: Oid, n: nat, v: Version, writeLog: bool)
    requires ChainOk(ps, oid, n) && RecordSize(v) <= MAX_RECORD_SIZE && (writeLog ==> x != DDL_XID)
    ensures InsertDone(ps, AfterInsert(ps, w, x, oid, n, v, writeLog), w, LogAfterInsert(ps, w, x, oid, n, v, writeLog), x, oid, n, v,
                       Logged(w, x, writeLog), Place(ps, oid, n, RecordSize(v)))
  {
    PlaceIsFirst(ps, oid, n, RecordSize(v));
    InsertedRow(ps, w, x, oid, n, v, writeLog);
    if Logged(w, x, writeLog) {
      if Place(ps, oid, n, RecordSize(v)).page < n { InsertedHere(ps, w, x, oid, n, v); } else { InsertedNew(ps, w, x, oid, n, v); }
    }
  }

  /** A delete, said without its specification. */
  ghost predicate DeleteDone(ps: PageMap, t: PageMap, w: Wal, w': Wal, x: Xid, oid: Oid, r: Rid, logged: bool) {
    && OnlyMarked(ps, t, oid, r, x) && OnlyStamped(ps, t, PageKey(oid, r.page))
    && (if logged then
          && x in w.att && Appended(w, w', DeleteLog(w.nextLsn, x, w.att[x], oid, r.page, r.slot))
          && EntryFor(w.dpt, w'.dpt, PageKey(oid, r.page), w.nextLsn)
          && PageKey(oid, r.page) in t && t[PageKey(oid, r.page)].lsn == w.nextLsn
        else w' == w)
  }

  lemma DeleteIsDone(ps: PageMap, w: Wal, x: Xid, oid: Oid, r: Rid, writeLog: bool)
    requires HasLoc(ps, Loc(oid, r))
    ensures DeleteDone(ps, AfterDelete(ps, w, x, Loc(oid, r), writeLog), w, LogAfterDelete(w, x, Loc(oid, r), writeLog), x, oid, r, Logged(w, x, writeLog))
  {
    var l := Loc(oid, r);
    var t := AfterDelete(ps, w, x, l, writeLog);
    forall k ensures (HasLoc(t, k) <==> HasLoc(ps, k)) && (HasLoc(t, k) ==> At(t, k) == if k == l then MarkDeleted(At(ps, k), x) else At(ps, k)) {
      MarkedAt(ps, l, x, w.nextLsn, k);
      SetAtFacts(ps, l, MarkDeleted(At(ps, l), x), k);
    }
  }

  // A delete makes no room and takes none.
  lemma SameRoom(ps: PageMap, w: Wal, x: Xid, l: Loc, writeLog: bool, k: PageKey)
    requires HasLoc(ps, l) && k in ps
    ensures var t := AfterDelete(ps, w, x, l, writeLog);
      k in t && |t[k].recs| == |ps[k].recs| && FreeSpace(t[k]) == FreeSpace(ps[k])
  {
    var t := AfterDelete(ps, w, x, l, writeLog);
    UsedBytesSame(ps[k].recs, t[k].recs);
  }

  lemma SameFirst(ps: PageMap, w: Wal, x: Xid, l: Loc, writeLog: bool, oid: Oid, n: nat, size: nat, q: Rid)
    requires HasLoc(ps, l) && ChainOk(ps, oid, n) && FirstWithRoom(AfterDelete(ps, w, x, l, writeLog), oid, n, size, q)
    ensures FirstWithRoom(ps, oid, n, size, q)
  {
    var t := AfterDelete(ps, w, x, l, writeLog);
    forall p | 0 <= p < q.page ensures TooFull(ps, oid, p, size) {
      assert TooFull(t, oid, p, size) && LinkOk(ps, oid, n, p);
      SameRoom(ps, w, x, l, writeLog, PageKey(oid, p));
    }
    if q.page < n {
      assert LinkOk(ps, oid, n, q.page);
      SameRoom(ps, w, x, l, writeLog, PageKey(oid, q.page));
    }
  }

  /** An update, said without its specification: one row deleted and one more,
      in the first page with room; both logged, the delete first. */
  ghost predicate UpdateDone(ps: PageMap, t: PageMap, w: Wal, w': Wal, x: Xid, oid: Oid, n: nat, r: Rid, v: Version, logged: bool, q: Rid) {
    && Replaced(ps, t, oid, r, x, q, v) && FirstWithRoom(ps, oid, n, RecordSize(v), q)
    && (exists m, w1 :: DeleteDone(ps, m, w, w1, x, oid, r, logged) && InsertDone(m, t, w1, w', x, oid, n, v, logged, q))
  }

  // The records of an update take at most 400 bytes of the log.
  lemma UpdateRoom(w: Wal, x: Xid, l: Loc, ps: PageMap, oid: Oid, n: nat, v: Version)
    requires x in w.att && RecordSize(v) <= MAX_RECORD_SIZE
    ensures LogInserted(AppendDelete(w, x, l), x, ps, oid, n, v).nextLsn <= w.nextLsn + 400
    ensures x in LogInserted(AppendDelete(w, x, l), x, ps, oid, n, v).att
  {
  }

  lemma UpdateIsDone(ps: PageMap, m: PageMap, t: PageMap, w: Wal, w1: Wal, w': Wal, x: Xid, oid: Oid, n: nat, r: Rid, v: Version,
                     writeLog: bool, q: Rid)
    requires ChainOk(ps, oid, n) && ChainOk(m, oid, n) && HasLoc(ps, Loc(oid, r)) && RecordSize(v) <= MAX_RECORD_SIZE
    requires (writeLog ==> x != DDL_XID && x in w.att)
    requires m == AfterDelete(ps, w, x, Loc(oid, r), writeLog) && w1 == LogAfterDelete(w, x, Loc(oid, r), writeLog)
    requires t == AfterInsert(m, w1, x, oid, n, v, writeLog) && w' == LogAfterInsert(m, w1, x, oid, n, v, writeLog)
    requires q == Place(m, oid, n, RecordSize(v))
    ensures UpdateDone(ps, t, w, w', x, oid, n, r, v, writeLog, q)
    ensures writeLog ==> w'.nextLsn <= w.nextLsn + 800 && x in w'.att
  {
    if writeLog { UpdateRoom(w, x, Loc(oid, r), m, oid, n, v); }
    DeleteIsDone(ps, w, x, oid, r, writeLog);
    InsertIsDone(m, w1, x, oid, n, v, writeLog);
    SameFirst(ps, w, x, Loc(oid, r), writeLog, oid, n, RecordSize(v), q);
    ReplacedIs(ps, m, t, oid, r, x, q, v);
  }

  lemma ReplacedIs(ps: PageMap, m: PageMap, t: PageMap, oid: Oid, r: Rid, x: Xid, q: Rid, v: Version)
    requires OnlyMarked(ps, m, oid, r, x) && OneMoreRow(m, t, Loc(oid, q), v)
    ensures Replaced(ps, t, oid, r, x, q, v)
  {
  }

  class Table {
    const oid: Oid
    const store: PageStore
    const logManager: LogManager
    var firstPageId: nat
    ghost var pageCount: nat

    ghost predicate Valid()
      reads this, store
    {
      && oid < U32
      && ChainOk(store.pages, oid, pageCount)
      && firstPageId == (if pageCount == 0 then NULL_PAGE_ID else 0)
    }

    /** Room in the log and in the id spaces for `k` more row operations. */
    ghost predicate Room(k: nat)
      reads this, logManager, logManager.disk
    {
      && logManager.Valid()
      && logManager.nextLsn + 400 * k <= NULL_LSN
      && pageCount + k < NULL_PAGE_ID
    }

    constructor (oid: Oid, store: PageStore, logManager: LogManager, ghost pageCount: nat, isEmpty: bool)
      requires oid < U32 && ChainOk(store.pages, oid, pageCount) && isEmpty == (pageCount == 0)
      ensures Valid() && this.oid == oid && this.store == store && this.logManager == logManager && this.pageCount == pageCount
    {
      this.oid := oid;
      this.store := store;
      this.logManager := logManager;
      this.pageCount := pageCount;
      firstPageId := if isEmpty then NULL_PAGE_ID else 0;
    }

    // Walk the chain to the first page with room; NULL_PAGE_ID when there is none.
    method FindPage(size: nat) returns (pageId: nat, lastPageId: nat)
      requires Valid() && pageCount > 0
      ensures pageId == (if FirstFit(store.pages, oid, pageCount, size, 0) < pageCount
                         then FirstFit(store.pages, oid, pageCount, size, 0) else NULL_PAGE_ID)
      ensures pageId == NULL_PAGE_ID ==> lastPageId == pageCount - 1
      ensures forall q :: 0 <= q < pageCount && (pageId == NULL_PAGE_ID || q < pageId) ==> TooFull(store.pages, oid, q, size)
      ensures pageId != NULL_PAGE_ID ==> PageKey(oid, pageId) in store.pages && size <= FreeSpace(store.pages[PageKey(oid, pageId)])
    {
      PlaceIsFirst(store.pages, oid, pageCount, size);
      pageId := firstPageId;
      lastPageId := firstPageId;
      ghost var q: nat := 0;
      assert LinkOk(store.pages, oid, pageCount, 0);
      while pageId != NULL_PAGE_ID && size > FreeSpace(store.pages[PageKey(oid, pageId)])
        invariant q <= pageCount && pageId == (if q < pageCount then q else NULL_PAGE_ID)
        invariant q < pageCount ==> PageKey(oid, q) in store.pages
        invariant FirstFit(store.pages, oid, pageCount, size, q) == FirstFit(store.pages, oid, pageCount, size, 0)
        invariant q > 0 ==> lastPageId == q - 1
        decreases pageCount - q
      {
        assert LinkOk(store.pages, oid, pageCount, q);
        lastPageId := pageId;
        pageId := store.pages[PageKey(oid, pageId)].next;
        q := q + 1;
        if q < pageCount { assert LinkOk(store.pages, oid, pageCount, q); }
      }
    }

    /** Insert into the first page with room, or into a new last page; then, if
        the caller wants it logged, log it and stamp the page.  A transaction the
        log does not know makes the logging fail, after the page has changed. */
    method InsertRecord(record: Version, xid: Xid, cid: Cid, writeLog: bool) returns (r: Result<Rid>)
      requires Valid() && Room(1) && (writeLog ==> xid != DDL_XID)
      requires xid < U32 && cid < U32 && record.xmax < U32
      modifies this, store, logManager
      ensures Valid() && logManager.Valid()
      ensures r.Ok? <==> RecordSize(record) <= MAX_RECORD_SIZE && (writeLog ==> xid in old(logManager.att))
      ensures RecordSize(record) > MAX_RECORD_SIZE ==>
        store.pages == old(store.pages) && logManager.w == old(logManager.w) && pageCount == old(pageCount)
      ensures RecordSize(record) <= MAX_RECORD_SIZE ==>
        exists q: Rid :: (r.Ok? ==> r.value == q) && pageCount == (if q.page < old(pageCount) then old(pageCount) else old(pageCount) + 1)
          && InsertDone(old(store.pages), store.pages, old(logManager.w), logManager.w, xid, oid, old(pageCount),
                        record.(xmin := xid, cid := cid), writeLog && xid in old(logManager.att), q)
      ensures RecordSize(record) <= MAX_RECORD_SIZE ==>
        var v := record.(xmin := xid, cid := cid);
        && (r.Ok? ==> r.value == Place(old(store.pages), oid, old(pageCount), RecordSize(v)))
        && pageCount == PagesAfter(old(store.pages), oid, old(pageCount), RecordSize(v))
        && store.pages == AfterInsert(old(store.pages), old(logManager.w), xid, oid, old(pageCount), v, writeLog)
        && logManager.w == LogAfterInsert(old(store.pages), old(logManager.w), xid, oid, old(pageCount), v, writeLog)
    {
      if RecordSize(record) > MAX_RECORD_SIZE {
        return Err("Record size too large");
      }
      InsertIsDone(store.pages, logManager.w, xid, oid, pageCount, record.(xmin := xid, cid := cid), writeLog);
      PlaceIsFirst(store.pages, oid, pageCount, RecordSize(record));
      r := InsertFitting(record.(xmin := xid, cid := cid), xid, writeLog);
    }

    // A record of a size every page can hold.
    method InsertFitting(v: Version, xid: Xid, writeLog: bool) returns (r: Result<Rid>)
      requires Valid() && Room(1) && (writeLog ==> xid != DDL_XID)
      requires xid < U32 && VersionFits(v) && RecordSize(v) <= MAX_RECORD_SIZE
      modifies this, store, logManager
      ensures Valid() && logManager.Valid()
      ensures r.Ok? <==> writeLog ==> xid in old(logManager.att)
      ensures r.Ok? ==> r.value == Place(old(store.pages), oid, old(pageCount), RecordSize(v))
      ensures pageCount == PagesAfter(old(store.pages), oid, old(pageCount), RecordSize(v))
      ensures store.pages == AfterInsert(old(store.pages), old(logManager.w), xid, oid, old(pageCount), v, writeLog)
      ensures logManager.w == LogAfterInsert(old(store.pages), old(logManager.w), xid, oid, old(pageCount), v, writeLog)
    {
      InsertedChain(store.pages, oid, pageCount, v);
      if Logged(logManager.w, xid, writeLog) { StampedOk(store.pages, logManager.w, xid, oid, pageCount, v); }
      var pageId, lastPageId := ChoosePage(RecordSize(v));
      if pageId != NULL_PAGE_ID {
        r := InsertHere(pageId, v, xid, writeLog);
      } else {
        r := InsertNew(lastPageId, v, xid, writeLog);
      }
    }

    // The page the walk finds; a table without a page has none to walk.
    method ChoosePage(size: nat) returns (pageId: nat, lastPageId: nat)
      requires Valid()
      ensures pageId == (if FirstFit(store.pages, oid, pageCount, size, 0) < pageCount
                         then FirstFit(store.pages, oid, pageCount, size, 0) else NULL_PAGE_ID)
      ensures pageId == NULL_PAGE_ID && pageCount > 0 ==> lastPageId == pageCount - 1
    {
      pageId, lastPageId := NULL_PAGE_ID, NULL_PAGE_ID;
      if firstPageId != NULL_PAGE_ID {
        pageId, lastPageId := FindPage(size);
      }
    }

    /** Mark the record; then, if the caller wants it logged, log the delete and
        stamp the page. */
    method DeleteRecord(rid: Rid, xid: Xid, writeLog: bool) returns (r: Result<()>)
      requires Valid() && logManager.Valid() && (writeLog ==> logManager.nextLsn + 23 <= NULL_LSN)
      requires HasLoc(store.pages, Loc(oid, rid)) && xid < U32
      modifies store, logManager
      ensures Valid() && logManager.Valid()
      ensures r.Ok? <==> writeLog ==> xid in old(logManager.att)
      ensures store.pages == AfterDelete(old(store.pages), old(logManager.w), xid, Loc(oid, rid), writeLog)
      ensures logManager.w == LogAfterDelete(old(logManager.w), xid, Loc(oid, rid), writeLog)
      ensures DeleteDone(old(store.pages), store.pages, old(logManager.w), logManager.w, xid, oid, rid, writeLog && xid in old(logManager.att))
    {
      DeleteIsDone(store.pages, logManager.w, xid, oid, rid, writeLog);
      var l := Loc(oid, rid);
      r := Ok(());
      LocFits(store.pages, oid, pageCount, l);
      MarkedOk(store.pages, oid, pageCount, l, xid, logManager.nextLsn);
      MarkedChain(store.pages, oid, pageCount, l, MarkDeleted(At(store.pages, l), xid));
      store.pages := SetAt(store.pages, l, MarkDeleted(At(store.pages, l), xid));
      if writeLog {
        var lsnDelete := LogDelete(xid, l);
        if lsnDelete.Err? {
          return Err(lsnDelete.error);
        }
        store.pages := SetPageLsn(store.pages, KeyOf(l), lsnDelete.value);
      }
    }

    method LogDelete(xid: Xid, l: Loc) returns (r: Result<Lsn>)
      requires logManager.Valid() && logManager.nextLsn + 23 <= NULL_LSN
      requires xid < U32 && l.oid < U32 && l.rid.page < U32 && l.rid.slot < U16
      modifies logManager
      ensures logManager.Valid() && (r.Ok? <==> xid in old(logManager.att)) && (r.Ok? ==> r.value == old(logManager.nextLsn))
      ensures logManager.w == LogAfterDelete(old(logManager.w), xid, l, true)
    {
      if xid in logManager.att { AttBelow(logManager.w.log, |logManager.w.log|, logManager.w.nextLsn, xid); }
      r := logManager.AppendDeleteLog(xid, l);
    }

    /** Delete the old version, then insert the new one, wherever it fits. */
    method UpdateRecord(rid: Rid, xid: Xid, cid: Cid, record: Version, writeLog: bool) returns (r: Result<Rid>)
      requires Valid() && Room(2) && HasLoc(store.pages, Loc(oid, rid))
      requires (writeLog ==> xid != DDL_XID) && xid < U32 && cid < U32 && record.xmax < U32
      modifies this, store, logManager
      ensures Valid() && logManager.Valid()
      ensures r.Ok? <==> RecordSize(record) <= MAX_RECORD_SIZE && (writeLog ==> xid in old(logManager.att))
      ensures var ps := AfterDelete(old(store.pages), old(logManager.w), xid, Loc(oid, rid), writeLog);
        var w := LogAfterDelete(old(logManager.w), xid, Loc(oid, rid), writeLog);
        var v := record.(xmin := xid, cid := cid);
        if r.Err? then store.pages == ps && logManager.w == w && pageCount == old(pageCount)
        else
          && r.value == Place(ps, oid, old(pageCount), RecordSize(v))
          && pageCount == PagesAfter(ps, oid, old(pageCount), RecordSize(v))
          && store.pages == AfterInsert(ps, w, xid, oid, old(pageCount), v, writeLog)
          && logManager.w == LogAfterInsert(ps, w, xid, oid, old(pageCount), v, writeLog)
      ensures if r.Ok? then
          UpdateDone(old(store.pages), store.pages, old(logManager.w), logManager.w, xid, oid, old(pageCount), rid,
                     record.(xmin := xid, cid := cid), writeLog, r.value)
        else
          DeleteDone(old(store.pages), store.pages, old(logManager.w), logManager.w, xid, oid, rid, writeLog && xid in old(logManager.att))
      ensures r.Ok? && writeLog ==>
        logManager.w.nextLsn <= old(logManager.w.nextLsn) + 800 && xid in logManager.w.att && pageCount <= old(pageCount) + 1
    {
      ghost var ps, w, n := store.pages, logManager.w, pageCount;
      var deleted := DeleteRecord(rid, xid, writeLog);
      if deleted.Err? {
        return Err(deleted.error);
      }
      ghost var m, w1 := store.pages, logManager.w;
      r := InsertRecord(record, xid, cid, writeLog);
      if r.Ok? {
        UpdateIsDone(ps, m, store.pages, w, w1, logManager.w, xid, oid, n, rid, record.(xmin := xid, cid := cid), writeLog, r.value);
      }
    }

    // Log the insert and stamp the page with the record's LSN.
    method LogInsert(rid: Rid, offset: nat, v: Version, xid: Xid) returns (r: Result<Rid>)
      requires oid < U32 && logManager.Valid() && xid < U32 && VersionFits(v)
      requires RecordSize(v) <= MAX_RECORD_SIZE && rid.page < U32 && rid.slot < U16 && offset <= DB_PAGE_SIZE
      requires logManager.nextLsn + 300 <= NULL_LSN && PageKey(oid, rid.page) in store.pages
      modifies store, logManager
      ensures logManager.Valid() && (r.Ok? <==> xid in old(logManager.att)) && (r.Ok? ==> r.value == rid)
      ensures r.Ok? ==>
        && logManager.w == AppendInsert(old(logManager.w), xid, Loc(oid, rid), offset, v)
        && store.pages == SetPageLsn(old(store.pages), PageKey(oid, rid.page), old(logManager.nextLsn))
      ensures r.Err? ==> logManager.w == old(logManager.w) && store.pages == old(store.pages)
    {
      if xid in logManager.att { AttBelow(logManager.w.log, |logManager.w.log|, logManager.w.nextLsn, xid); }
      var lsn := logManager.AppendInsertLog(xid, Loc(oid, rid), offset, v);
      if lsn.Err? {
        return Err(lsn.error);
      }
      store.pages := SetPageLsn(store.pages, PageKey(oid, rid.page), lsn.value);
      r := Ok(rid);
    }

    method InsertHere(pageId: nat, v: Version, xid: Xid, writeLog: bool) returns (r: Result<Rid>)
      requires Valid() && Room(1) && xid < U32 && VersionFits(v) && RecordSize(v) <= MAX_RECORD_SIZE
      requires pageId == FirstFit(store.pages, oid, pageCount, RecordSize(v), 0) < pageCount
      modifies store, logManager
      ensures logManager.Valid() && (r.Ok? <==> writeLog ==> xid in old(logManager.att))
      ensures r.Ok? ==> r.value == Place(old(store.pages), oid, pageCount, RecordSize(v))
      ensures store.pages == AfterInsert(old(store.pages), old(logManager.w), xid, oid, pageCount, v, writeLog)
      ensures logManager.w == LogAfterInsert(old(store.pages), old(logManager.w), xid, oid, pageCount, v, writeLog)
    {
      var k := PageKey(oid, pageId);
      assert LinkOk(store.pages, oid, pageCount, pageId);
      SmallPage(store.pages[k]);
      var rid := Rid(pageId, |store.pages[k].recs|);
      var offset := OffsetFor(store.pages[k], RecordSize(v));
      store.pages := Append(store.pages, k, v);
      r := Ok(rid);
      if writeLog {
        r := LogInsert(rid, offset, v, xid);
      }
    }

    // A new page at the end of the chain, already holding the record.
    method AddPage(lastPageId: nat, v: Version) returns (newPageId: nat, prevPageId: nat)
      requires Valid() && pageCount + 1 < NULL_PAGE_ID && (pageCount > 0 ==> lastPageId == pageCount - 1)
      modifies this, store
      ensures newPageId == old(pageCount) && prevPageId == (if old(pageCount) == 0 then NULL_PAGE_ID else old(pageCount) - 1)
      ensures store.pages == Extended(old(store.pages), oid, old(pageCount), v)
      ensures pageCount == old(pageCount) + 1 && firstPageId == 0
    {
      newPageId := 0;
      prevPageId := NULL_PAGE_ID;
      if firstPageId == NULL_PAGE_ID {
        firstPageId := 0;
      } else {
        newPageId := lastPageId + 1;
        prevPageId := lastPageId;
        var last := PageKey(oid, lastPageId);
        assert LinkOk(store.pages, oid, pageCount, pageCount - 1);
        store.pages := store.pages[last := store.pages[last].(next := newPageId)];
      }
      store.pages := store.pages[PageKey(oid, newPageId) := Page(0, NULL_PAGE_ID, [v])];
      pageCount := pageCount + 1;
    }

    method LogNewPage(prevPageId: nat, newPageId: nat, xid: Xid) returns (r: Result<Lsn>)
      requires oid < U32 && logManager.Valid() && xid < U32 && xid != DDL_XID
      requires prevPageId < U32 && newPageId < U32 && logManager.nextLsn + 25 <= NULL_LSN && PageKey(oid, newPageId) in store.pages
      modifies store, logManager
      ensures logManager.Valid() && (r.Ok? <==> xid in old(logManager.att))
      ensures r.Ok? ==>
        && xid in old(logManager.w.att) && logManager.w == AppendNewPage(old(logManager.w), xid, oid, prevPageId, newPageId)
        && store.pages == SetPageLsn(old(store.pages), PageKey(oid, newPageId), old(logManager.w.nextLsn))
        && xid in logManager.att && xid in logManager.w.att && logManager.nextLsn == logManager.w.nextLsn == old(logManager.nextLsn) + 25
      ensures r.Err? ==> logManager.w == old(logManager.w) && store.pages == old(store.pages)
    {
      logManager.SameTables();
      if xid in logManager.att { AttBelow(logManager.w.log, |logManager.w.log|, logManager.w.nextLsn, xid); }
      r := logManager.AppendNewPageLog(xid, oid, prevPageId, newPageId);
      if r.Ok? {
        store.pages := SetPageLsn(store.pages, PageKey(oid, newPageId), r.value);
      }
    }

    // The record of the first row of a page.
    method LogFirstRow(newPageId: nat, v: Version, xid: Xid) returns (r: Result<Rid>)
      requires oid < U32 && logManager.Valid() && xid < U32 && xid in logManager.att && xid in logManager.w.att
      requires VersionFits(v) && RecordSize(v) <= MAX_RECORD_SIZE
      requires newPageId < U32 && logManager.nextLsn + 300 <= NULL_LSN && PageKey(oid, newPageId) in store.pages
      modifies store, logManager
      ensures logManager.Valid() && r == Ok(Rid(newPageId, 0))
      ensures logManager.w == AppendInsert(old(logManager.w), xid, Loc(oid, Rid(newPageId, 0)), DB_PAGE_SIZE - RecordSize(v), v)
      ensures store.pages == SetPageLsn(old(store.pages), PageKey(oid, newPageId), old(logManager.w.nextLsn))
    {
      r := LogInsert(Rid(newPageId, 0), DB_PAGE_SIZE - RecordSize(v), v, xid);
    }

    // No page has room: link and fill a new one, whose own record is logged first.
    method InsertNew(lastPageId: nat, v: Version, xid: Xid, writeLog: bool) returns (r: Result<Rid>)
      requires Valid() && logManager.Valid() && logManager.nextLsn + 400 <= NULL_LSN && pageCount + 1 < NULL_PAGE_ID
      requires xid < U32 && (writeLog ==> xid != DDL_XID)
      requires VersionFits(v) && RecordSize(v) <= MAX_RECORD_SIZE
      requires FirstFit(store.pages, oid, pageCount, RecordSize(v), 0) == pageCount
      requires pageCount > 0 ==> lastPageId == pageCount - 1
      modifies this, store, logManager
      ensures logManager.Valid() && (r.Ok? <==> writeLog ==> xid in old(logManager.att))
      ensures r.Ok? ==> r.value == Place(old(store.pages), oid, old(pageCount), RecordSize(v))
      ensures pageCount == old(pageCount) + 1 && firstPageId == 0
      ensures store.pages == AfterInsert(old(store.pages), old(logManager.w), xid, oid, old(pageCount), v, writeLog)
      ensures logManager.w == LogAfterInsert(old(store.pages), old(logManager.w), xid, oid, old(pageCount), v, writeLog)
    {
      var newPageId, prevPageId := AddPage(lastPageId, v);
      NewPageSpec(old(store.pages), old(logManager.w), xid, oid, old(pageCount), v, writeLog);
      r := Ok(Rid(newPageId, 0));
      if writeLog {
        r := FillNew(prevPageId, newPageId, v, xid);
      }
    }

    // Both records of a page that is new: the page's own, then the insert's.
    method FillNew(prevPageId: nat, newPageId: nat, v: Version, xid: Xid) returns (r: Result<Rid>)
      requires oid < U32 && logManager.Valid() && xid < U32 && xid != DDL_XID
      requires VersionFits(v) && RecordSize(v) <= MAX_RECORD_SIZE
      requires prevPageId < U32 && newPageId < U32 && logManager.nextLsn + 400 <= NULL_LSN && PageKey(oid, newPageId) in store.pages
      modifies store, logManager
      ensures logManager.Valid() && (r.Ok? <==> xid in old(logManager.att)) && (r.Ok? ==> r.value == Rid(newPageId, 0))
      ensures r.Ok? ==> Filled(old(store.pages), store.pages, old(logManager.w), logManager.w, xid, oid, prevPageId, newPageId, v)
      ensures r.Err? ==> logManager.w == old(logManager.w) && store.pages == old(store.pages)
    {
      ghost var ps, w := store.pages, logManager.w;
      var lsnNew := LogNewPage(prevPageId, newPageId, xid);
      if lsnNew.Ok? {
        ghost var w1, ps1 := logManager.w, store.pages;
        r := LogFirstRow(newPageId, v, xid);
        FilledIs(ps, ps1, store.pages, w, w1, logManager.w, xid, oid, prevPageId, newPageId, v);
      } else {
        r := Err(lsnNew.error);
      }
    }
  }

  // Both records, and both stamps of the page.
  ghost predicate Filled(ps: PageMap, ps2: PageMap, w: Wal, w2: Wal, x: Xid, oid: Oid, prevPage: nat, page: nat, v: Version) {
    && x in w.att && RecordSize(v) <= MAX_RECORD_SIZE && PageKey(oid, page) in ps
    && w2 == LogFilled(w, x, oid, prevPage, page, v) && ps2 == SetPageLsn(ps, PageKey(oid, page), w.nextLsn + 25)
  }

  lemma FilledIs(ps: PageMap, ps1: PageMap, ps2: PageMap, w: Wal, w1: Wal, w2: Wal, x: Xid, oid: Oid, prevPage: nat, page: nat, v: Version)
    requires PageKey(oid, page) in ps && ps1 == SetPageLsn(ps, PageKey(oid, page), w.nextLsn) && ps2 == SetPageLsn(ps1, PageKey(oid, page), w1.nextLsn)
    requires x in w.att && x in w1.att && RecordSize(v) <= MAX_RECORD_SIZE && w1 == AppendNewPage(w, x, oid, prevPage, page)
    requires w2 == AppendInsert(w1, x, Loc(oid, Rid(page, 0)), DB_PAGE_SIZE - RecordSize(v), v)
    ensures Filled(ps, ps2, w, w2, x, oid, prevPage, page, v)
  {
  }

  // What the specification says when no page has room.
  lemma NewPageSpec(ps: PageMap, w: Wal, x: Xid, oid: Oid, n: nat, v: Version, writeLog: bool)
    requires FirstFit(ps, oid, n, RecordSize(v), 0) == n && RecordSize(v) <= MAX_RECORD_SIZE
    ensures Place(ps, oid, n, RecordSize(v)) == Rid(n, 0)
    ensures Logged(w, x, writeLog) ==>
      && LogAfterInsert(ps, w, x, oid, n, v, writeLog) == LogFilled(w, x, oid, if n == 0 then NULL_PAGE_ID else n - 1, n, v)
      && AfterInsert(ps, w, x, oid, n, v, writeLog) == SetPageLsn(Extended(ps, oid, n, v), PageKey(oid, n), w.nextLsn + 25)
    ensures !Logged(w, x, writeLog) ==>
      LogAfterInsert(ps, w, x, oid, n, v, writeLog) == w && AfterInsert(ps, w, x, oid, n, v, writeLog) == Extended(ps, oid, n, v)
  {
  }
}
