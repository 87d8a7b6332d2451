/** Page operations through the buffer pool: get the page, change its bytes,
    leave it dirty.  Each is proved to be the operation on the map of pages that
    the layers above work with. */
module CachedPages {
  import opened Types
  import opened Bytes
  import opened HeaderCodec
  import opened PageLayout
  import opened TablePages
  import opened PageBuffers
  import opened Pages
  import opened Wal
  import opened Replay
  import opened Caches
  import opened CacheMaps
  import opened FramePools
  import opened FrameCaches
  import opened BufferPools
  import LogManagement
  import opened CachedRedo
  import opened CachedRecovery
  import opened RestartBounds

  // The page that bytes stand for.
  ghost function AbsOf(b: bytes): Types.Page {
    if LayoutOk(b) then AbsPage(b) else Page(0, NULL_PAGE_ID, [])
  }

  ghost predicate AllLaidOut(m: map<PageKey, bytes>) {
    forall k :: k in m ==> LayoutOk(m[k])
  }

  /** What asking the cache for a page does to the log. */
  function FetchedLog(w: Wal, c: Cache<Types.Page>, k: PageKey): Wal {
    if WrittenBack(c, k) != {} && Oldest(c) in c.mem then LogManagement.WriteBack(w, Oldest(c), c.mem[Oldest(c)].lsn) else w
  }

  function UndoneLog(w: Wal, c: Cache<Types.Page>, r: LogRec): Wal {
    if IsRowRec(r) then FetchedLog(w, c, KeyOfRec(r)) else w
  }

  // A record that fits the page of versions fits the bytes.
  lemma InsertReady(b: bytes, v: Version)
    requires LayoutOk(b) && RecordSize(v) <= FreeSpace(AbsPage(b)) && VersionFits(v)
    ensures RecordSize(v) <= FreeSpaceSize(b) && Room(b, VersionBytes(v))
    ensures LayoutOk(Inserted(b, RecordCount(b), VersionBytes(v)))
    ensures AbsPage(Inserted(b, RecordCount(b), VersionBytes(v))) == PageInsert(AbsPage(b), v)
  {
    SpaceAgrees(b);
    InsertedAbs(b, v);
  }

  function RedoPage(r: LogRec, p: Types.Page): Types.Page
    requires IsRowRec(r)
  {
    p.(recs := ApplyRecs(p.recs, r))
  }

  lemma RedoIs(r: LogRec, p: Types.Page)
    requires IsRowRec(r) && InBounds(r, p)
    ensures RedoPage(r, p) == if r.InsertLog? then PageInsert(p, r.rec) else PageDelete(p, r.slot, r.xid)
  {
  }

  // Undo of a record on a page that has its row.
  lemma UndoIs(r: LogRec, ps: PageMap, c: Cache<Types.Page>)
    requires View(c) == ps && !r.NewPageLog? && (IsRowRec(r) ==> HasLoc(ps, LocOfRec(r)))
    ensures IsRowRec(r) ==>
      var k := KeyOfRec(r);
      && r.slot < |ps[k].recs|
      && UndoPage(r, ps[k]) == (if r.InsertLog? then PageDelete(ps[k], r.slot, r.xid) else PageUndelete(ps[k], r.slot))
      && UndoRec(r, ps) == ps[k := UndoPage(r, ps[k])]
      && UndoStep(r, c) == Caches.Stored(Fetched(c, k), k, UndoPage(r, ps[k]))
    ensures !IsRowRec(r) ==> UndoRec(r, ps) == ps && UndoStep(r, c) == c
  {
  }

  lemma FetchedLogIs(w: Wal, c: Cache<bytes>, k: PageKey)
    requires AllLaidOut(c.mem)
    ensures FetchedWal(w, c, k) == FetchedLog(w, MapCache(AbsOf, c), k)
  {
  }

  lemma LaidOutCache(p: Pool, vec: seq<nat>)
    requires PoolOk(p) && AllLaidOut(Contents(p))
    ensures AllLaidOut(AsCache(p, vec).mem)
  {
    forall k | k in AsCache(p, vec).mem ensures LayoutOk(AsCache(p, vec).mem[k]) {
      assert k in Contents(p) && Contents(p)[k] == AsCache(p, vec).mem[k];
    }
  }

  lemma UpdatedLayout(m: map<PageKey, bytes>, k: PageKey, b: bytes)
    requires AllLaidOut(m) && LayoutOk(b)
    ensures AllLaidOut(m[k := b]) && MapPages(AbsOf, m[k := b]) == MapPages(AbsOf, m)[k := AbsPage(b)]
  {
    MapUpdated(AbsOf, m, k, b);
  }

  lemma OnlyThose(known: set<object>, page: PageBuffer, o: object)
    requires o in known + {page, page.data} && o !in known
    ensures o == page || o == page.data
  {
  }

  // The page objects known so far, and the one just fetched.
  lemma KnownStep(before: seq<BufferPoolEntry>, after: seq<BufferPoolEntry>, page: PageBuffer, known: set<object>)
    requires forall i :: 0 <= i < |before| ==> before[i].page in known && before[i].page.data in known
    requires forall i :: 0 <= i < |after| ==> after[i].page == page || after[i] in before
    ensures forall i :: 0 <= i < |after| ==> after[i].page in known + {page, page.data} && after[i].page.data in known + {page, page.data}
    ensures (exists i :: 0 <= i < |before| && before[i].page == page) ==> known + {page, page.data} == known
  {
  }

  class CachedStore {
    const pool: BufferPool

    ghost predicate Valid()
      reads pool, pool.disk, pool.bufferStrategy, pool.Pages(), pool.Arrays()
      reads pool.logManager, pool.logManager.disk
    {
      pool.Valid() && Synced(pool.State()) && pool.LogOk() && AllLaidOut(Contents(pool.State()))
    }

    /** What the layers above see. */
    ghost function Pages(): PageMap
      reads pool, pool.disk, pool.bufferStrategy, pool.Pages(), pool.Arrays()
    {
      MapPages(AbsOf, Contents(pool.State()))
    }

    /** The pool as a cache of pages. */
    ghost function Value(): Cache<Types.Page>
      reads pool, pool.disk, pool.bufferStrategy, pool.Pages(), pool.Arrays()
    {
      MapCache(AbsOf, pool.Value())
    }

    constructor (pool: BufferPool)
      ensures this.pool == pool
    {
      this.pool := pool;
    }

    lemma ValueView()
      requires Valid()
      ensures CacheOk(pool.Value()) && CacheOk(Value()) && View(Value()) == Pages()
    {
      AsCacheOk(pool.State(), pool.bufferStrategy.bufferVec);
      MapView(AbsOf, pool.Value());
      MapOk(AbsOf, pool.Value());
    }

    /** The page object of a page the store has.  `known` are the page objects
        handed out so far, and their bytes. */
    method Fetch(k: PageKey, ghost ps: PageMap, ghost c: Cache<Types.Page>, ghost known: set<object>) returns (page: PageBuffer, ghost known': set<object>)
      requires Valid() && Pages() == ps && Value() == c && k in ps && pool.Within(known)
      modifies pool, pool.disk, pool.bufferStrategy, pool.logManager, pool.logManager.disk
      ensures Valid() && Pages() == ps && pool.Cached(k, page)
      ensures LayoutOk(page.data[..]) && AbsPage(page.data[..]) == ps[k]
      ensures k in View(c) && Value() == Fetched(c, k)
      ensures pool.logManager.w == FetchedLog(old(pool.logManager.w), c, k)
      ensures page in known' && page.data in known'
      ensures pool.Within(known') && known <= known' && (forall o :: o in known' && o !in known ==> fresh(o))
    {
      page := FetchFrom(k, ps, c);
      known' := known + {page, page.data};
      KnownStep(old(pool.buffers), pool.buffers, page, known);
      if fresh(page) && fresh(page.data) {
        forall o | o in known' && o !in known ensures fresh(o) { OnlyThose(known, page, o); }
      } else {
        assert known' == known;
      }
    }

    method FetchFrom(k: PageKey, ghost ps: PageMap, ghost c: Cache<Types.Page>) returns (page: PageBuffer)
      requires Valid() && Pages() == ps && Value() == c && k in ps
      modifies pool, pool.disk, pool.bufferStrategy, pool.logManager, pool.logManager.disk
      ensures Valid() && Pages() == ps && pool.Cached(k, page)
      ensures LayoutOk(page.data[..]) && AbsPage(page.data[..]) == ps[k]
      ensures k in View(c) && Value() == Fetched(c, k)
      ensures pool.logManager.w == FetchedLog(old(pool.logManager.w), c, k)
      ensures pool.MadeOrKept(page)
    {
      ghost var b := pool.Value();
      ValueView();
      LaidOutCache(pool.State(), pool.bufferStrategy.bufferVec);
      FetchedLogIs(pool.logManager.w, b, k);
      var r := pool.GetPage(k);
      page := r.value;
      MapFetched(AbsOf, b, k);
    }

    // Only the page of `k` was written to, and its layout is in order.
    twostate predicate Edited(k: PageKey)
      reads pool, pool.disk, pool.bufferStrategy, pool.Pages(), pool.Arrays(), pool.logManager, pool.logManager.disk
    {
      && k in pool.hashmap && pool.hashmap[k] < |pool.buffers| && pool.OnlyWrote(pool.hashmap[k])
      && pool.buffers[pool.hashmap[k]].page.dirty && LayoutOk(pool.buffers[pool.hashmap[k]].page.data[..])
      && unchanged(pool.logManager) && unchanged(pool.logManager.disk)
    }

    // The bytes of the page that caches `k`.
    ghost function Memory(k: PageKey): bytes
      reads pool, if k in pool.hashmap && pool.hashmap[k] < |pool.buffers| then {pool.buffers[pool.hashmap[k]].page.data} else {}
      requires k in pool.hashmap && pool.hashmap[k] < |pool.buffers|
    {
      pool.buffers[pool.hashmap[k]].page.data[..]
    }

    twostate lemma LogStays()
      requires old(pool.LogOk()) && unchanged(pool.logManager) && unchanged(pool.logManager.disk)
      requires pool.disk.pages == old(pool.disk.pages)
      ensures pool.LogOk()
    {
    }

    twostate lemma EditView(k: PageKey)
      requires old(Valid()) && Edited(k)
      ensures Valid() && Pages() == old(Pages())[k := AbsPage(Memory(k))]
    {
      pool.WriteThrough(k);
      LogStays();
      UpdatedLayout(old(Contents(pool.State())), k, Memory(k));
    }

    /** Editing a fetched page is a write to the store. */
    twostate lemma EditStores(k: PageKey)
      requires old(Valid()) && Edited(k)
      ensures Valid() && Pages() == old(Pages())[k := AbsPage(Memory(k))]
      ensures Value() == Caches.Stored(old(Value()), k, AbsPage(Memory(k)))
    {
      EditView(k);
      pool.WriteStores(k);
      MapStored(AbsOf, old(pool.Value()), k, Memory(k));
    }

    // ---- the edits, on a page object just fetched -------------------------

    method MarkIn(k: PageKey, page: PageBuffer, slot: nat, xid: Xid)
      requires OwnPages(pool.buffers) && pool.Cached(k, page) && LayoutOk(page.data[..]) && slot < RecordCount(page.data[..]) && xid < U32
      modifies page`dirty, page.data
      ensures Edited(k) && AbsPage(Memory(k)) == PageDelete(AbsPage(old(page.data[..])), slot, xid)
    {
      var tablePage := new TablePage(page);
      tablePage.DeleteRecord(slot, xid);
    }

    method UnmarkIn(k: PageKey, page: PageBuffer, slot: nat)
      requires OwnPages(pool.buffers) && pool.Cached(k, page) && LayoutOk(page.data[..]) && slot < RecordCount(page.data[..])
      modifies page`dirty, page.data
      ensures Edited(k) && AbsPage(Memory(k)) == PageUndelete(AbsPage(old(page.data[..])), slot)
    {
      var tablePage := new TablePage(page);
      tablePage.UndoDeleteRecord(slot);
    }

    method InsertIn(k: PageKey, page: PageBuffer, record: Version, xid: Xid, cid: Cid) returns (slot: nat)
      requires OwnPages(pool.buffers) && pool.Cached(k, page) && LayoutOk(page.data[..])
      requires RecordSize(record) <= FreeSpace(AbsPage(page.data[..])) && VersionFits(record.(xmin := xid, cid := cid))
      modifies page`dirty, page.data
      ensures slot == RecordCount(old(page.data[..]))
      ensures Edited(k) && AbsPage(Memory(k)) == PageInsert(AbsPage(old(page.data[..])), record.(xmin := xid, cid := cid))
    {
      InsertReady(page.data[..], record.(xmin := xid, cid := cid));
      var tablePage := new TablePage(page);
      slot := tablePage.InsertRecord(record, xid, cid);
    }

    method RedoIn(k: PageKey, page: PageBuffer, slot: nat, rec: Version, offset: nat)
      requires OwnPages(pool.buffers) && pool.Cached(k, page) && LayoutOk(page.data[..]) && slot == RecordCount(page.data[..])
      requires RecordSize(rec) <= FreeSpace(AbsPage(page.data[..])) && VersionFits(rec)
      modifies page`dirty, page.data
      ensures Edited(k) && AbsPage(Memory(k)) == PageInsert(AbsPage(old(page.data[..])), rec)
    {
      InsertReady(page.data[..], rec);
      var tablePage := new TablePage(page);
      tablePage.RedoInsertRecord(slot, VersionBytes(rec), offset);
    }

    method StampIn(k: PageKey, page: PageBuffer, lsn: Lsn)
      requires OwnPages(pool.buffers) && pool.Cached(k, page) && LayoutOk(page.data[..]) && lsn < U64
      modifies page`dirty, page.data
      ensures Edited(k) && AbsPage(Memory(k)) == AbsPage(old(page.data[..])).(lsn := lsn)
    {
      var tablePage := new TablePage(page);
      tablePage.SetPageLSN(lsn);
    }

    // ---- the operations ---------------------------------------------------

    /** TablePage::DeleteRecord on a page of the store. */
    method Delete(k: PageKey, slot: nat, xid: Xid, ghost ps: PageMap, ghost c: Cache<Types.Page>, ghost known: set<object>) returns (ghost known': set<object>)
      requires Valid() && pool.Within(known) && Pages() == ps && Value() == c && k in ps && slot < |ps[k].recs| && xid < U32
      modifies pool, pool.disk, pool.bufferStrategy, pool.logManager, pool.logManager.disk, known
      ensures Valid() && Pages() == ps[k := PageDelete(ps[k], slot, xid)]
      ensures k in View(c) && Value() == Caches.Stored(Fetched(c, k), k, PageDelete(ps[k], slot, xid))
      ensures pool.logManager.w == FetchedLog(old(pool.logManager.w), c, k)
      ensures pool.Within(known') && known <= known' && (forall o :: o in known' && o !in known ==> fresh(o))
    {
      ghost var w := FetchedLog(pool.logManager.w, c, k);
      var page;
      page, known' := Fetch(k, ps, c, known);
      assert pool.logManager.w == w;
      label L:
      MarkIn(k, page, slot, xid);
      assert pool.logManager.w == w;
      EditStores@L(k);
    }

    /** TablePage::UndoDeleteRecord on a page of the store. */
    method Undelete(k: PageKey, slot: nat, ghost ps: PageMap, ghost c: Cache<Types.Page>, ghost known: set<object>) returns (ghost known': set<object>)
      requires Valid() && pool.Within(known) && Pages() == ps && Value() == c && k in ps && slot < |ps[k].recs|
      modifies pool, pool.disk, pool.bufferStrategy, pool.logManager, pool.logManager.disk, known
      ensures Valid() && Pages() == ps[k := PageUndelete(ps[k], slot)]
      ensures k in View(c) && Value() == Caches.Stored(Fetched(c, k), k, PageUndelete(ps[k], slot))
      ensures pool.logManager.w == FetchedLog(old(pool.logManager.w), c, k)
      ensures pool.Within(known') && known <= known' && (forall o :: o in known' && o !in known ==> fresh(o))
    {
      ghost var w := FetchedLog(pool.logManager.w, c, k);
      var page;
      page, known' := Fetch(k, ps, c, known);
      assert pool.logManager.w == w;
      label L:
      UnmarkIn(k, page, slot);
      assert pool.logManager.w == w;
      EditStores@L(k);
    }

    /** TablePage::InsertRecord on a page of the store. */
    method Insert(k: PageKey, record: Version, xid: Xid, cid: Cid, ghost ps: PageMap, ghost c: Cache<Types.Page>, ghost known: set<object>)
      returns (slot: nat, ghost known': set<object>)
      requires Valid() && pool.Within(known) && Pages() == ps && Value() == c && k in ps
      requires RecordSize(record) <= FreeSpace(ps[k]) && VersionFits(record.(xmin := xid, cid := cid))
      modifies pool, pool.disk, pool.bufferStrategy, pool.logManager, pool.logManager.disk, known
      ensures slot == |ps[k].recs|
      ensures Valid() && Pages() == ps[k := PageInsert(ps[k], record.(xmin := xid, cid := cid))]
      ensures k in View(c) && Value() == Caches.Stored(Fetched(c, k), k, PageInsert(ps[k], record.(xmin := xid, cid := cid)))
      ensures pool.logManager.w == FetchedLog(old(pool.logManager.w), c, k)
      ensures pool.Within(known') && known <= known' && (forall o :: o in known' && o !in known ==> fresh(o))
    {
      ghost var w := FetchedLog(pool.logManager.w, c, k);
      var page;
      page, known' := Fetch(k, ps, c, known);
      assert pool.logManager.w == w;
      label L:
      slot := InsertIn(k, page, record, xid, cid);
      assert pool.logManager.w == w;
      EditStores@L(k);
    }

    /** TablePage::RedoInsertRecord on a page of the store. */
    method RedoInsert(k: PageKey, slot: nat, rec: Version, offset: nat, ghost ps: PageMap, ghost c: Cache<Types.Page>, ghost known: set<object>)
      returns (ghost known': set<object>)
      requires Valid() && pool.Within(known) && Pages() == ps && Value() == c && k in ps
      requires slot == |ps[k].recs| && RecordSize(rec) <= FreeSpace(ps[k]) && VersionFits(rec)
      modifies pool, pool.disk, pool.bufferStrategy, pool.logManager, pool.logManager.disk, known
      ensures Valid() && Pages() == ps[k := PageInsert(ps[k], rec)]
      ensures k in View(c) && Value() == Caches.Stored(Fetched(c, k), k, PageInsert(ps[k], rec))
      ensures pool.logManager.w == FetchedLog(old(pool.logManager.w), c, k)
      ensures pool.Within(known') && known <= known' && (forall o :: o in known' && o !in known ==> fresh(o))
    {
      ghost var w := FetchedLog(pool.logManager.w, c, k);
      var page;
      page, known' := Fetch(k, ps, c, known);
      assert pool.logManager.w == w;
      label L:
      RedoIn(k, page, slot, rec, offset);
      assert pool.logManager.w == w;
      EditStores@L(k);
    }

    /** TablePage::SetPageLSN on a page of the store. */
    method Stamp(k: PageKey, lsn: Lsn, ghost ps: PageMap, ghost c: Cache<Types.Page>, ghost known: set<object>) returns (ghost known': set<object>)
      requires Valid() && pool.Within(known) && Pages() == ps && Value() == c && k in ps && lsn < U64
      modifies pool, pool.disk, pool.bufferStrategy, pool.logManager, pool.logManager.disk, known
      ensures Valid() && Pages() == ps[k := ps[k].(lsn := lsn)]
      ensures k in View(c) && Value() == Caches.Stored(Fetched(c, k), k, ps[k].(lsn := lsn))
      ensures pool.logManager.w == FetchedLog(old(pool.logManager.w), c, k)
      ensures pool.Within(known') && known <= known' && (forall o :: o in known' && o !in known ==> fresh(o))
    {
      ghost var w := FetchedLog(pool.logManager.w, c, k);
      var page;
      page, known' := Fetch(k, ps, c, known);
      assert pool.logManager.w == w;
      label L:
      StampIn(k, page, lsn);
      assert pool.logManager.w == w;
      EditStores@L(k);
    }

    // ---- what log records do ----------------------------------------------

    /** InsertLog::Undo and DeleteLog::Undo. */
    method Undo(r: LogRec, ghost ps: PageMap, ghost c: Cache<Types.Page>, ghost known: set<object>) returns (ghost known': set<object>)
      requires Valid() && pool.Within(known) && Pages() == ps && Value() == c
      requires !r.NewPageLog? && r.xid < U32 && (IsRowRec(r) ==> HasLoc(ps, LocOfRec(r)))
      modifies pool, pool.disk, pool.bufferStrategy, pool.logManager, pool.logManager.disk, known
      ensures Valid() && Pages() == UndoRec(r, ps) && Value() == UndoStep(r, c)
      ensures pool.logManager.w == UndoneLog(old(pool.logManager.w), c, r)
      ensures pool.Within(known') && known <= known' && (forall o :: o in known' && o !in known ==> fresh(o))
    {
      ValueView();
      UndoIs(r, ps, c);
      known' := known;
      if r.InsertLog? {
        known' := Delete(PageKey(r.oid, r.page), r.slot, r.xid, ps, c, known);
      } else if r.DeleteLog? {
        known' := Undelete(PageKey(r.oid, r.page), r.slot, ps, c, known);
      }
    }

    /** InsertLog::Redo and DeleteLog::Redo. */
    method Redo(r: LogRec, ghost ps: PageMap, ghost c: Cache<Types.Page>, ghost known: set<object>) returns (ghost known': set<object>)
      requires Valid() && pool.Within(known) && Pages() == ps && Value() == c
      requires IsRowRec(r) && KeyOfRec(r) in ps && InBounds(r, ps[KeyOfRec(r)])
      modifies pool, pool.disk, pool.bufferStrategy, pool.logManager, pool.logManager.disk, known
      ensures Valid() && Pages() == ps[KeyOfRec(r) := RedoPage(r, ps[KeyOfRec(r)])]
      ensures KeyOfRec(r) in View(c)
      ensures Value() == Caches.Stored(Fetched(c, KeyOfRec(r)), KeyOfRec(r), RedoPage(r, ps[KeyOfRec(r)]))
      ensures pool.logManager.w == FetchedLog(old(pool.logManager.w), c, KeyOfRec(r))
      ensures pool.Within(known') && known <= known' && (forall o :: o in known' && o !in known ==> fresh(o))
    {
      RedoIs(r, ps[KeyOfRec(r)]);
      if r.InsertLog? {
        known' := RedoInsert(PageKey(r.oid, r.page), r.slot, r.rec, r.offset, ps, c, known);
      } else {
        known' := Delete(PageKey(r.oid, r.page), r.slot, r.xid, ps, c, known);
      }
    }

    // A look at a page's LSN; the page counts as used.
    method PageLSN(k: PageKey, ghost ps: PageMap, ghost c: Cache<Types.Page>, ghost known: set<object>) returns (lsn: Lsn, ghost known': set<object>)
      requires Valid() && pool.Within(known) && Pages() == ps && Value() == c && k in ps
      modifies pool, pool.disk, pool.bufferStrategy, pool.logManager, pool.logManager.disk
      ensures Valid() && Pages() == ps && lsn == ps[k].lsn && k in View(c) && Value() == Fetched(c, k)
      ensures pool.logManager.w == FetchedLog(old(pool.logManager.w), c, k)
      ensures pool.Within(known') && known <= known' && (forall o :: o in known' && o !in known ==> fresh(o))
    {
      var page;
      page, known' := Fetch(k, ps, c, known);
      lsn := Num(page.data[..], 0, 8);
    }
  }
}
