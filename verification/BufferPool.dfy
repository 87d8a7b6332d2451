/** The buffer pool: five frames in front of the page files.  Whoever asks for
    a page gets what was last written to it, and no page reaches its file
    before the log that describes it. */
module BufferPools {
  import opened Types
  import opened Lists
  import opened Bytes
  import opened Wal
  import opened PageLayout
  import opened LogManagement
  import opened Lru
  import opened PageBuffers
  import opened Caches
  import opened FramePools
  import opened FrameCaches

  class PageDisk {
    var pages: map<PageKey, bytes>

    constructor (pages: map<PageKey, bytes>)
      ensures this.pages == pages
    {
      this.pages := pages;
    }

    // A page may only be written once the log up to its LSN is durable.
    method WritePage(k: PageKey, data: bytes, ghost w: Wal)
      requires |data| == DB_PAGE_SIZE
      requires forall i :: 0 <= i < |w.log| && w.log[i].lsn <= PageLsn(data) ==> i < w.durable
      modifies this
      ensures pages == old(pages)[k := data]
    {
      pages := pages[k := data];
    }
  }

  datatype BufferPoolEntry = BufferPoolEntry(key: PageKey, page: PageBuffer)

  // ---- the flat page store ------------------------------------------------

  // Everything logged for a page image on disk is durable.
  ghost predicate LogFirst(w: Wal, disk: map<PageKey, bytes>) {
    forall k, i :: k in disk && |disk[k]| == DB_PAGE_SIZE && 0 <= i < |w.log| && w.log[i].lsn <= PageLsn(disk[k]) ==> i < w.durable
  }

  ghost predicate WholePages(disk: map<PageKey, bytes>) {
    forall k :: k in disk ==> |disk[k]| == DB_PAGE_SIZE
  }

  /** Writing a page after its log keeps the rule. */
  lemma WriteBackLogFirst(w: Wal, disk: map<PageKey, bytes>, k: PageKey, data: bytes)
    requires WalInv(w) && |data| == DB_PAGE_SIZE && LogFirst(w, disk)
    ensures WalInv(WriteBack(w, k, PageLsn(data))) && LogFirst(WriteBack(w, k, PageLsn(data)), disk[k := data])
    ensures WriteBack(w, k, PageLsn(data)).log == w.log && w.durable <= WriteBack(w, k, PageLsn(data)).durable
    ensures forall i :: 0 <= i < |w.log| && w.log[i].lsn <= PageLsn(data) ==> i < WriteBack(w, k, PageLsn(data)).durable
  {
    FlushToFacts(w, PageLsn(data));
  }

  // What flushing a frame does to the log.
  function AfterFlush(w: Wal, f: Frame): Wal {
    if f.dirty && |f.data| == DB_PAGE_SIZE then WriteBack(w, f.key, PageLsn(f.data)) else w
  }

  // What making room for a page does to the log.
  function AddedWal(w: Wal, p: Pool, vec: seq<nat>): Wal {
    if SlotFor(p, vec) < |p.frames| then AfterFlush(w, p.frames[SlotFor(p, vec)]) else w
  }

  /** What asking the cache for a page does to the log: before a page is written
      back, the log up to its LSN is, and its dirty-page entry goes. */
  function FetchedWal(w: Wal, c: Cache<bytes>, k: PageKey): Wal {
    if WrittenBack(c, k) != {} && Oldest(c) in c.mem && |c.mem[Oldest(c)]| == DB_PAGE_SIZE
    then WriteBack(w, Oldest(c), PageLsn(c.mem[Oldest(c)])) else w
  }

  lemma AddedWalIs(w: Wal, p: Pool, vec: seq<nat>, k: PageKey)
    requires PoolOk(p) && Tracks(vec, |p.frames|) && k !in p.hashmap
    ensures AddedWal(w, p, vec) == FetchedWal(w, AsCache(p, vec), k) && AddedWal(w, p, vec).log == w.log
  {
    KeysAreMapped(p, vec, k);
    ListLength(p, vec);
    if |p.frames| >= BUFFER_SIZE {
      EvictTracks(vec);
      LastKey(vec, p.frames);
      assert p.frames[Last(vec)].key in p.hashmap && p.hashmap[p.frames[Last(vec)].key] == Last(vec);
    }
  }

  lemma WrittenFacts(p: Pool, i: nat, data: bytes, q: Pool)
    requires PoolOk(p) && i < |p.frames| && |data| == DB_PAGE_SIZE && q == Overwritten(p, i, data)
    requires OthersSynced(p, p.frames[i].key) && p.hashmap[p.frames[i].key] == i
    ensures PoolOk(q) && Synced(q) && Contents(q) == Contents(p)[p.frames[i].key := data]
  {
    WriteFacts(p, i, data);
  }

  // No two frames share a page object or its bytes.
  ghost predicate OwnPages(buffers: seq<BufferPoolEntry>) {
    forall i, j :: 0 <= i < j < |buffers| ==> buffers[i].page != buffers[j].page && buffers[i].page.data != buffers[j].page.data
  }

  // A page object that is none of those takes the place of one of them.
  lemma OwnReplaced(buffers: seq<BufferPoolEntry>, i: nat, e: BufferPoolEntry)
    requires OwnPages(buffers) && i < |buffers|
    requires forall j :: 0 <= j < |buffers| ==> buffers[j].page != e.page && buffers[j].page.data != e.page.data
    ensures OwnPages(buffers[i := e])
  {
  }

  class BufferPool {
    const disk: PageDisk
    const logManager: LogManager
    const bufferStrategy: LRUBufferStrategy
    var buffers: seq<BufferPoolEntry>
    var hashmap: map<PageKey, nat>

    ghost function Pages(): set<PageBuffer>
      reads this
    {
      set i | 0 <= i < |buffers| :: buffers[i].page
    }

    ghost function Arrays(): set<array<byte>>
      reads this
    {
      set i | 0 <= i < |buffers| :: buffers[i].page.data
    }

    // The page is not one of the cached ones.
    ghost predicate Foreign(page: PageBuffer)
      reads this
    {
      page !in Pages() && page.data !in Arrays()
    }

    ghost function State(): Pool
      reads this, disk, Pages(), Arrays()
    {
      Pool(seq(|buffers|, i requires 0 <= i < |buffers| reads this, Pages(), Arrays() =>
                 Frame(buffers[i].key, buffers[i].page.data[..], buffers[i].page.dirty)),
           hashmap, disk.pages)
    }

    ghost predicate Valid()
      reads this, disk, bufferStrategy, Pages(), Arrays()
    {
      && PoolOk(State())
      && OwnPages(buffers)
      && Tracks(bufferStrategy.bufferVec, |buffers|)
    }

    // All page objects and their bytes are among these.
    ghost predicate Within(known: set<object>)
      reads this
    {
      forall i :: 0 <= i < |buffers| ==> buffers[i].page in known && buffers[i].page.data in known
    }

    // The page is one the pool had, or a new one and the only new one.
    twostate predicate MadeOrKept(new page: PageBuffer)
      reads this
    {
      && (forall i :: 0 <= i < |buffers| ==> buffers[i].page == page || buffers[i] in old(buffers))
      && ((exists i :: 0 <= i < |old(buffers)| && old(buffers)[i].page == page) || (fresh(page) && fresh(page.data)))
    }

    ghost predicate LogOk()
      reads disk, logManager, logManager.disk
    {
      logManager.Valid() && LogFirst(logManager.w, disk.pages)
    }

    /** The pool as a cache: pages by recency, their bytes, the dirty ones. */
    ghost function Value(): Cache<bytes>
      reads this, disk, bufferStrategy, Pages(), Arrays()
    {
      AsCache(State(), bufferStrategy.bufferVec)
    }

    // The page object that caches `k`.
    ghost predicate Cached(k: PageKey, p: PageBuffer)
      reads this
    {
      k in hashmap && hashmap[k] < |buffers| && buffers[hashmap[k]].page == p
    }

    constructor (disk: PageDisk, logManager: LogManager)
      requires WholePages(disk.pages)
      ensures this.disk == disk && this.logManager == logManager && fresh(bufferStrategy)
      ensures Valid() && State() == Pool([], map[], disk.pages)
    {
      this.disk := disk;
      this.logManager := logManager;
      bufferStrategy := new LRUBufferStrategy();
      buffers, hashmap := [], map[];
    }

    // Log first, then the page; the frame is no longer mapped.
    method FlushPage(frame: nat)
      requires frame < |buffers| && buffers[frame].page.data.Length == DB_PAGE_SIZE && LogOk()
      modifies this`hashmap, disk, logManager, logManager.disk
      ensures LogOk() && State() == FlushFrame(old(State()), frame)
      ensures logManager.w == AfterFlush(old(logManager.w), old(State()).frames[frame])
    {
      var e := buffers[frame];
      if e.page.dirty {
        WriteBackPage(e.key, e.page.data[..]);
      }
      hashmap := hashmap - {e.key};
      SameFrames();
    }

    method WriteBackPage(k: PageKey, data: bytes)
      requires |data| == DB_PAGE_SIZE && LogOk()
      modifies disk, logManager, logManager.disk
      ensures LogOk() && logManager.w == WriteBack(old(logManager.w), k, PageLsn(data))
      ensures disk.pages == old(disk.pages)[k := data]
    {
      WriteBackLogFirst(logManager.w, disk.pages, k, data);
      logManager.FlushPage(k.oid, k.page, Num(data, 0, 8));
      disk.WritePage(k, data, logManager.w);
    }

    // Choose and flush the least recently used page; its frame counts as used again.
    method EvictVictim() returns (victim: nat)
      requires WholeFrames() && LogOk() && bufferStrategy.bufferVec != [] && Distinct<nat>(bufferStrategy.bufferVec)
      requires Last(bufferStrategy.bufferVec) < |buffers|
      modifies this`hashmap, disk, bufferStrategy, logManager, logManager.disk
      ensures LogOk() && victim == Last(old(bufferStrategy.bufferVec)) && State() == FlushFrame(old(State()), victim)
      ensures logManager.w == AfterFlush(old(logManager.w), old(State()).frames[victim])
      ensures bufferStrategy.bufferVec == [victim] + Erase<nat>(old(bufferStrategy.bufferVec), victim)
    {
      RotatesLast(bufferStrategy.bufferVec);
      victim := TakeOldest();
      FlushPage(victim);
      NoteAccess(victim);
    }

    method TakeOldest() returns (victim: nat)
      requires bufferStrategy.bufferVec != [] && Distinct<nat>(bufferStrategy.bufferVec)
      modifies bufferStrategy
      ensures victim == Last(old(bufferStrategy.bufferVec)) && State() == old(State()) && (old(LogOk()) ==> LogOk())
      ensures bufferStrategy.bufferVec == old(bufferStrategy.bufferVec)[..|old(bufferStrategy.bufferVec)| - 1]
    {
      victim := bufferStrategy.Evict();
    }

    method NoteAccess(frame: nat)
      modifies bufferStrategy
      ensures State() == old(State()) && (old(LogOk()) ==> LogOk())
      ensures bufferStrategy.bufferVec == [frame] + Erase<nat>(old(bufferStrategy.bufferVec), frame)
    {
      bufferStrategy.Access(frame);
    }

    // Every cached page has its full length.
    ghost predicate WholeFrames()
      reads this
    {
      forall i :: 0 <= i < |buffers| ==> buffers[i].page.data.Length == DB_PAGE_SIZE
    }

    lemma FramesAreWhole()
      requires Valid()
      ensures WholeFrames()
    {
      forall i | 0 <= i < |buffers| ensures buffers[i].page.data.Length == DB_PAGE_SIZE {
        assert |State().frames[i].data| == DB_PAGE_SIZE;
      }
    }

    // The page objects are as they were.
    twostate lemma SameFrames()
      requires buffers == old(buffers)
      requires forall i :: 0 <= i < |buffers| ==> unchanged(buffers[i].page) && unchanged(buffers[i].page.data)
      ensures State().frames == old(State()).frames
      ensures Pages() == old(Pages()) && Arrays() == old(Arrays())
    {
      forall i | 0 <= i < |buffers| ensures State().frames[i] == old(State()).frames[i] {
        var page := buffers[i].page;
        forall j | 0 <= j < page.data.Length ensures page.data[j] == old(page.data[j]) {}
        assert page.data[..] == old(page.data[..]);
        assert page.dirty == old(page.dirty);
      }
    }

    // Put the new page into the victim's frame.
    method ReplaceVictim(k: PageKey, page: PageBuffer) returns (victim: nat)
      requires WholeFrames() && Tracks(bufferStrategy.bufferVec, BUFFER_SIZE) && LogOk() && |buffers| == BUFFER_SIZE
      requires Foreign(page) && OwnPages(buffers)
      modifies this, disk, bufferStrategy, logManager, logManager.disk
      ensures LogOk() && victim < |old(buffers)| && buffers == old(buffers)[victim := BufferPoolEntry(k, page)]
      ensures State() == Replace(FlushFrame(old(State()), victim), victim, Frame(k, page.data[..], page.dirty))
      ensures logManager.w == AfterFlush(old(logManager.w), old(State()).frames[victim])
      ensures Tracks(bufferStrategy.bufferVec, BUFFER_SIZE) && OwnPages(buffers)
      ensures victim == Last(old(bufferStrategy.bufferVec))
      ensures bufferStrategy.bufferVec == [victim] + Erase<nat>(old(bufferStrategy.bufferVec), victim)
    {
      ForeignApart(page);
      EvictedList(bufferStrategy.bufferVec);
      victim := EvictVictim();
      OwnReplaced(buffers, victim, BufferPoolEntry(k, page));
      SetFrame(victim, k, page);
    }

    lemma ForeignApart(page: PageBuffer)
      requires Foreign(page)
      ensures forall j :: 0 <= j < |buffers| ==> buffers[j].page != page && buffers[j].page.data != page.data
    {
      forall j | 0 <= j < |buffers| ensures buffers[j].page != page && buffers[j].page.data != page.data {
        assert buffers[j].page in Pages() && buffers[j].page.data in Arrays();
      }
    }

    method SetFrame(i: nat, k: PageKey, page: PageBuffer)
      requires i < |buffers|
      modifies this
      ensures buffers == old(buffers)[i := BufferPoolEntry(k, page)]
      ensures State() == Replace(old(State()), i, Frame(k, page.data[..], page.dirty))
    {
      ghost var p := State();
      buffers := buffers[i := BufferPoolEntry(k, page)];
      hashmap := hashmap[k := i];
      assert State().frames == p.frames[i := Frame(k, page.data[..], page.dirty)];
    }

    method TakeFree(k: PageKey, page: PageBuffer)
      requires Tracks(bufferStrategy.bufferVec, |buffers|) && OwnPages(buffers) && |buffers| < BUFFER_SIZE && Foreign(page)
      modifies this, bufferStrategy
      ensures buffers == old(buffers) + [BufferPoolEntry(k, page)]
      ensures State() == AddFrame(old(State()), Frame(k, page.data[..], page.dirty))
      ensures Tracks(bufferStrategy.bufferVec, |buffers|) && OwnPages(buffers)
      ensures bufferStrategy.bufferVec == [|old(buffers)|] + Erase<nat>(old(bufferStrategy.bufferVec), |old(buffers)|)
    {
      ghost var p := State();
      ForeignApart(page);
      AccessTracks(bufferStrategy.bufferVec, |buffers|, |buffers|);
      bufferStrategy.Access(|buffers|);
      hashmap := hashmap[k := |buffers|];
      buffers := buffers + [BufferPoolEntry(k, page)];
      assert State().frames == p.frames + [Frame(k, page.data[..], page.dirty)];
    }

    // Put a page into a frame: a free one, or that of the least recently used page.
    method AddToBuffer(k: PageKey, page: PageBuffer)
      requires WholeFrames() && OwnPages(buffers) && |buffers| <= BUFFER_SIZE && LogOk()
      requires Tracks(bufferStrategy.bufferVec, |buffers|) && Foreign(page)
      modifies this, disk, bufferStrategy, logManager, logManager.disk
      ensures LogOk() && OwnPages(buffers) && Tracks(bufferStrategy.bufferVec, |buffers|)
      ensures State() == Added(old(State()), old(bufferStrategy.bufferVec), Frame(k, page.data[..], page.dirty))
      ensures logManager.w == AddedWal(old(logManager.w), old(State()), old(bufferStrategy.bufferVec))
      ensures var slot := SlotFor(old(State()), old(bufferStrategy.bufferVec));
        && slot <= |old(buffers)| && bufferStrategy.bufferVec == [slot] + Erase<nat>(old(bufferStrategy.bufferVec), slot)
        && buffers == (if slot < |old(buffers)| then old(buffers)[slot := BufferPoolEntry(k, page)] else old(buffers) + [BufferPoolEntry(k, page)])
    {
      if |buffers| == BUFFER_SIZE {
        var victim := ReplaceVictim(k, page);
      } else {
        TakeFree(k, page);
      }
    }

    /** Reading a page gives what was last written to it, whether it was cached
        or not and whatever had to be evicted; no page of the store changes. */
    method GetPage(k: PageKey) returns (r: Option<PageBuffer>)
      requires Valid() && Synced(State()) && LogOk()
      modifies this, disk, bufferStrategy, logManager, logManager.disk
      ensures Valid() && Synced(State()) && LogOk() && logManager.w.log == old(logManager.w.log)
      ensures Contents(State()) == old(Contents(State()))
      ensures r.Some? <==> k in old(Contents(State()))
      ensures r.Some? ==> Cached(k, r.value) && r.value.data[..] == old(Contents(State()))[k]
      ensures r.Some? ==>
        && k in View(old(Value())) && Value() == Fetched(old(Value()), k)
        && logManager.w == FetchedWal(old(logManager.w), old(Value()), k)
      ensures r.None? ==> Value() == old(Value()) && logManager.w == old(logManager.w)
      ensures r.Some? ==> MadeOrKept(r.value)
      ensures r.None? ==> buffers == old(buffers)
    {
      if k in hashmap {
        var page := Touch(k);
        return Some(page);
      }
      if k !in disk.pages {
        return None;
      }
      var page := Fetch(k);
      r := Some(page);
    }

    // A cached page: note the access.
    method Touch(k: PageKey) returns (page: PageBuffer)
      requires Valid() && k in hashmap
      modifies bufferStrategy
      ensures Valid() && State() == old(State())
      ensures Cached(k, page) && page.data[..] == Contents(State())[k]
      ensures k in View(old(Value())) && Value() == Fetched(old(Value()), k) && k in old(Value()).keys
      ensures MadeOrKept(page)
    {
      var frame := hashmap[k];
      AccessTracks(bufferStrategy.bufferVec, |buffers|, frame);
      TouchIsFetched(State(), bufferStrategy.bufferVec, k);
      KeysAreMapped(State(), bufferStrategy.bufferVec, k);
      bufferStrategy.Access(frame);
      SameState();
      page := buffers[frame].page;
      assert State().frames[frame].data == page.data[..];
    }

    // A page that is only on disk.
    method Fetch(k: PageKey) returns (page: PageBuffer)
      requires Valid() && Synced(State()) && LogOk() && k !in hashmap && k in disk.pages
      modifies this, disk, bufferStrategy, logManager, logManager.disk
      ensures Valid() && Synced(State()) && LogOk() && logManager.w.log == old(logManager.w.log)
      ensures Contents(State()) == old(Contents(State()))
      ensures Cached(k, page) && page.data[..] == old(Contents(State()))[k] 
      ensures MadeOrKept(page)
      ensures k in View(old(Value())) && Value() == Fetched(old(Value()), k)
      ensures logManager.w == FetchedWal(old(logManager.w), old(Value()), k)
    {
      page := new PageBuffer(disk.pages[k]);
      SameState();
      ReadIn(k, page);
    }

    // Nothing the state speaks of has changed.
    twostate lemma SameState()
      requires buffers == old(buffers) && hashmap == old(hashmap) && disk.pages == old(disk.pages)
      requires forall i :: 0 <= i < |buffers| ==> unchanged(buffers[i].page) && unchanged(buffers[i].page.data)
      ensures State() == old(State()) && Pages() == old(Pages()) && Arrays() == old(Arrays())
    {
      SameFrames();
    }

    // Cache a page that has just been read.
    method ReadIn(k: PageKey, page: PageBuffer)
      requires Valid() && Synced(State()) && LogOk() && k !in hashmap && k in disk.pages
      requires Foreign(page) && page.data[..] == disk.pages[k] && !page.dirty
      modifies this, disk, bufferStrategy, logManager, logManager.disk
      ensures Valid() && Synced(State()) && LogOk() && logManager.w.log == old(logManager.w.log)
      ensures Cached(k, page) && Contents(State()) == old(Contents(State()))
      ensures k in View(old(Value())) && Value() == Fetched(old(Value()), k)
      ensures logManager.w == FetchedWal(old(logManager.w), old(Value()), k)
      ensures forall i :: 0 <= i < |buffers| ==> buffers[i].page == page || buffers[i] in old(buffers)
    {
      AddedIsFetched(State(), bufferStrategy.bufferVec, k);
      AddedWalIs(logManager.w, State(), bufferStrategy.bufferVec, k);
      assert Frame(k, page.data[..], page.dirty) == Frame(k, State().disk[k], false);
      FramesAreWhole();
      ghost var slot := SlotFor(State(), bufferStrategy.bufferVec);
      AddToBuffer(k, page);
      OneNewFrame(old(buffers), slot, k, page);
    }

    // Every frame is an earlier one or the new one.
    lemma OneNewFrame(before: seq<BufferPoolEntry>, slot: nat, k: PageKey, page: PageBuffer)
      requires slot <= |before|
      requires buffers == (if slot < |before| then before[slot := BufferPoolEntry(k, page)] else before + [BufferPoolEntry(k, page)])
      ensures forall i :: 0 <= i < |buffers| ==> buffers[i].page == page || buffers[i] in before
    {
      forall i | 0 <= i < |buffers| ensures buffers[i].page == page || buffers[i] in before {
        if i < |before| && i != slot { assert buffers[i] == before[i]; }
      }
    }

    /** A new page enters the store with whatever its memory holds.  It is not
        dirty yet: its creator initialises it before asking for another page. */
    method NewPage(k: PageKey, memory: bytes) returns (page: PageBuffer)
      requires Valid() && Synced(State()) && LogOk() && k !in hashmap && |memory| == DB_PAGE_SIZE
      modifies this, disk, bufferStrategy, logManager, logManager.disk
      ensures Valid() && LogOk() && logManager.w.log == old(logManager.w.log)
      ensures fresh(page) && fresh(page.data) && page.data[..] == memory && Cached(k, page)
      ensures Contents(State()) == old(Contents(State()))[k := memory]
      ensures OthersSynced(State(), k)
    {
      page := new PageBuffer(memory);
      SameState();
      EnterNew(k, page);
    }

    method EnterNew(k: PageKey, page: PageBuffer)
      requires Valid() && Synced(State()) && LogOk() && k !in hashmap && Foreign(page) && page.data.Length == DB_PAGE_SIZE
      modifies this, disk, bufferStrategy, logManager, logManager.disk
      ensures Valid() && LogOk() && logManager.w.log == old(logManager.w.log) && Cached(k, page)
      ensures Contents(State()) == old(Contents(State()))[k := page.data[..]]
      ensures OthersSynced(State(), k)
    {
      AddedFacts(State(), bufferStrategy.bufferVec, Frame(k, page.data[..], page.dirty));
      AddedWalIs(logManager.w, State(), bufferStrategy.bufferVec, k);
      FramesAreWhole();
      AddToBuffer(k, page);
    }

    // A crash: what was only cached is gone.
    method Clear()
      requires Valid()
      modifies this
      ensures buffers == [] && hashmap == map[] && disk.pages == old(disk.pages)
    {
      buffers, hashmap := [], map[];
    }

    /** Write every cached page back; afterwards the disk alone is the store. */
    method Flush()
      requires Valid() && Synced(State()) && LogOk()
      modifies this, disk, logManager, logManager.disk
      ensures buffers == [] && hashmap == map[] && LogOk() && logManager.w.log == old(logManager.w.log)
      ensures disk.pages == old(Contents(State()))
    {
      ghost var p := State();
      FramesAreWhole();
      for i := 0 to |buffers|
        invariant buffers == old(buffers) && LogOk() && logManager.w.log == old(logManager.w.log)
        invariant FlushedTo(p, i, hashmap, disk.pages) && State().frames == p.frames
        modifies this`hashmap, disk, logManager, logManager.disk
      {
        FlushNext(p, i);
      }
      FlushedAll(p, hashmap, disk.pages);
      buffers := [];
    }

    method FlushNext(ghost p: Pool, i: nat)
      requires PoolOk(p) && Synced(p) && i < |buffers| && WholeFrames() && LogOk()
      requires State().frames == p.frames && FlushedTo(p, i, hashmap, disk.pages)
      modifies this`hashmap, disk, logManager, logManager.disk
      ensures LogOk() && logManager.w.log == old(logManager.w.log)
      ensures State().frames == p.frames && FlushedTo(p, i + 1, hashmap, disk.pages)
    {
      assert p.frames[i] == State().frames[i];
      FlushedOneMore(p, i, hashmap, disk.pages);
      FlushPage(i);
    }

    // Only the page in frame `i` has changed.
    twostate predicate OnlyWrote(i: nat)
      reads this, disk, bufferStrategy, Pages(), Arrays()
    {
      && buffers == old(buffers) && hashmap == old(hashmap) && disk.pages == old(disk.pages)
      && bufferStrategy.bufferVec == old(bufferStrategy.bufferVec)
      && (forall j :: 0 <= j < |buffers| && j != i ==> unchanged(buffers[j].page) && unchanged(buffers[j].page.data))
    }

    twostate lemma FrameWritten(i: nat)
      requires i < |buffers| && OnlyWrote(i) && buffers[i].page.dirty
      ensures State().frames == old(State()).frames[i := Frame(buffers[i].key, buffers[i].page.data[..], true)]
    {
      var q := old(State()).frames[i := Frame(buffers[i].key, buffers[i].page.data[..], true)];
      forall j | 0 <= j < |buffers| ensures State().frames[j] == q[j] {}
    }

    /** Writing through the page that caches `k` and marking it dirty changes
        that page of the store and no other. */
    twostate lemma WriteThrough(k: PageKey)
      requires old(Valid()) && k in hashmap && hashmap[k] < |buffers| && OnlyWrote(hashmap[k])
      requires old(OthersSynced(State(), k))
      requires buffers[hashmap[k]].page.dirty && buffers[hashmap[k]].page.data.Length == DB_PAGE_SIZE
      ensures Valid() && Synced(State())
      ensures Contents(State()) == old(Contents(State()))[k := buffers[hashmap[k]].page.data[..]]
    {
      FrameWritten(hashmap[k]);
      WrittenFacts(old(State()), hashmap[k], buffers[hashmap[k]].page.data[..], State());
    }

    // As a cache, the pool has the write stored.
    twostate lemma WriteStores(k: PageKey)
      requires old(Valid()) && Valid() && k in hashmap && OnlyWrote(hashmap[k])
      requires buffers[hashmap[k]].page.dirty && buffers[hashmap[k]].page.data.Length == DB_PAGE_SIZE
      ensures Value() == Caches.Stored(old(Value()), k, buffers[hashmap[k]].page.data[..])
    {
      FrameWritten(hashmap[k]);
      WriteIsStored(old(State()), bufferStrategy.bufferVec, k, buffers[hashmap[k]].page.data[..]);
    }
  }
}
