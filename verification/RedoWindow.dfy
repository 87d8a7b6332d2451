/** When the cache is large enough for redo: a condition on the log, the
    dirty-page table and the page LSNs alone. */
module RedoWindow {
  import opened Types
  import opened Lists
  import opened Pages
  import opened Wal
  import opened Replay
  import opened EngineDisk
  import opened Recovery
  import opened CrashRecovery
  import opened Caches
  import opened CachedRedo

  // The pages that redo asks for strictly between records `a` and `b`.
  function Between(log: seq<LogRec>, a: nat, b: nat, dpt: map<PageKey, Lsn>): set<PageKey>
    requires b <= |log|
  {
    set h | a < h < b && Asks(log[h], dpt) :: KeyOfRec(log[h])
  }

  // Two records of one page, both missing from its disk image, with none of that page between them.
  ghost predicate Neighbours(log: seq<LogRec>, a: nat, b: nat, disk: PageMap, k: PageKey) {
    && a < b < |log| && Missing(log, a, disk, k) && Missing(log, b, disk, k)
    && (forall h :: a < h < b ==> !OnPage(log[h], k))
  }

  /** Between two missing records of one page, redo asks for fewer other pages
      than the cache has frames. */
  ghost predicate KeepsUp(log: seq<LogRec>, dpt: map<PageKey, Lsn>, disk: PageMap) {
    forall a: nat, b: nat, k :: Neighbours(log, a, b, disk, k) ==> |Between(log, a, b, dpt)| < BUFFER_SIZE
  }

  // Where redo starts, and what it finds.
  ghost predicate Ready(log: seq<LogRec>, i: nat, dpt: map<PageKey, Lsn>, disk: PageMap) {
    && i <= |log| && Ordered(log)
    && (forall k :: Covers(dpt, log, |log|, disk, k))
    && (forall j :: 0 <= j < |log| && IsRowRec(log[j]) ==> KeyOfRec(log[j]) in disk)
    && (forall j, k :: 0 <= j < i && k in dpt ==> log[j].lsn < dpt[k])
  }

  // A record at or after the start that its page's disk image lacks is asked for.
  lemma MissingAsks(log: seq<LogRec>, i: nat, dpt: map<PageKey, Lsn>, disk: PageMap, j: nat, k: PageKey)
    requires Ready(log, i, dpt, disk) && j < |log| && Missing(log, j, disk, k)
    ensures i <= j && k in dpt && Asks(log[j], dpt)
  {
    assert Covers(dpt, log, |log|, disk, k);
  }

  // ---- recency ------------------------------------------------------------

  // The last record among those from `i` up to `n` for which redo asks for page `k`.
  function LastAsk(log: seq<LogRec>, dpt: map<PageKey, Lsn>, i: nat, n: nat, k: PageKey): (a: int)
    requires i <= n <= |log|
    ensures a == -1 || (i <= a < n && Asks(log[a], dpt) && KeyOfRec(log[a]) == k)
    ensures forall h :: i <= h < n && Asks(log[h], dpt) && KeyOfRec(log[h]) == k ==> h <= a
  {
    if n == i then -1
    else if Asks(log[n - 1], dpt) && KeyOfRec(log[n - 1]) == k then n - 1
    else LastAsk(log, dpt, i, n - 1, k)
  }

  /** The cached pages are those asked for last, in the order of their last
      use. */
  ghost predicate Recent(log: seq<LogRec>, dpt: map<PageKey, Lsn>, i: nat, n: nat, keys: seq<PageKey>)
    requires i <= n <= |log|
  {
    && Distinct(keys) && |keys| <= BUFFER_SIZE
    && (forall a :: 0 <= a < |keys| ==> LastAsk(log, dpt, i, n, keys[a]) >= 0)
    && (forall a, b :: 0 <= a < b < |keys| ==> LastAsk(log, dpt, i, n, keys[a]) > LastAsk(log, dpt, i, n, keys[b]))
    && (forall k :: LastAsk(log, dpt, i, n, k) >= 0 && k !in keys ==>
          |keys| == BUFFER_SIZE && LastAsk(log, dpt, i, n, k) < LastAsk(log, dpt, i, n, keys[BUFFER_SIZE - 1]))
  }

  lemma RecentQuiet(log: seq<LogRec>, dpt: map<PageKey, Lsn>, i: nat, n: nat, keys: seq<PageKey>)
    requires i <= n < |log| && Recent(log, dpt, i, n, keys) && !Asks(log[n], dpt)
    ensures Recent(log, dpt, i, n + 1, keys)
  {
    forall k ensures LastAsk(log, dpt, i, n + 1, k) == LastAsk(log, dpt, i, n, k) {}
  }

  lemma AskMoves(log: seq<LogRec>, dpt: map<PageKey, Lsn>, i: nat, n: nat, k: PageKey)
    requires i <= n < |log| && Asks(log[n], dpt)
    ensures LastAsk(log, dpt, i, n + 1, k) == if k == KeyOfRec(log[n]) then n else LastAsk(log, dpt, i, n, k)
  {
  }

  lemma FrontOfCached(keys: seq<PageKey>, x: PageKey)
    requires Distinct(keys) && x in keys
    ensures var f := Front(keys, x);
      && Distinct(f) && |f| == |keys| && f[0] == x && f[1..] == Erase(keys, x)
      && (forall y :: y in f <==> y in keys)
      && (forall a :: 1 <= a < |f| ==> f[a] in keys && f[a] != x)
  {
    EraseFacts(keys, x);
    var f, e := Front(keys, x), Erase(keys, x);
    forall a | 1 <= a < |f| ensures f[a] in keys && f[a] != x { assert f[a] == e[a - 1] && e[a - 1] in e; }
    forall y ensures y in f <==> y in keys { assert y in f <==> y == x || y in e; }
  }

  lemma AgainOrder(log: seq<LogRec>, dpt: map<PageKey, Lsn>, i: nat, n: nat, keys: seq<PageKey>)
    requires i <= n < |log| && Recent(log, dpt, i, n, keys) && Asks(log[n], dpt) && KeyOfRec(log[n]) in keys
    ensures var f := Front(keys, KeyOfRec(log[n]));
      forall a, b :: 0 <= a < b < |f| ==> LastAsk(log, dpt, i, n + 1, f[a]) > LastAsk(log, dpt, i, n + 1, f[b])
  {
    var x := KeyOfRec(log[n]);
    var f := Front(keys, x);
    FrontOfCached(keys, x);
    EraseKeepsOrder(keys, x, y => LastAsk(log, dpt, i, n, y));
    forall a, b | 0 <= a < b < |f| ensures LastAsk(log, dpt, i, n + 1, f[a]) > LastAsk(log, dpt, i, n + 1, f[b]) {
      AskMoves(log, dpt, i, n, f[a]);
      AskMoves(log, dpt, i, n, f[b]);
      if a > 0 { assert f[a] == Erase(keys, x)[a - 1] && f[b] == Erase(keys, x)[b - 1]; }
    }
  }

  // The last of the list was at least as recent as the last of the list before.
  lemma AgainOthers(log: seq<LogRec>, dpt: map<PageKey, Lsn>, i: nat, n: nat, keys: seq<PageKey>, k: PageKey)
    requires i <= n < |log| && Recent(log, dpt, i, n, keys) && Asks(log[n], dpt) && KeyOfRec(log[n]) in keys
    requires k !in keys && LastAsk(log, dpt, i, n + 1, k) >= 0
    ensures var f := Front(keys, KeyOfRec(log[n]));
      |f| == BUFFER_SIZE && LastAsk(log, dpt, i, n + 1, k) < LastAsk(log, dpt, i, n + 1, f[BUFFER_SIZE - 1])
  {
    FrontOfCached(keys, KeyOfRec(log[n]));
    var y := Front(keys, KeyOfRec(log[n]))[BUFFER_SIZE - 1];
    AskMoves(log, dpt, i, n, k);
    AskMoves(log, dpt, i, n, y);
    var b :| 0 <= b < |keys| && keys[b] == y;
  }

  lemma RecentAgain(log: seq<LogRec>, dpt: map<PageKey, Lsn>, i: nat, n: nat, keys: seq<PageKey>)
    requires i <= n < |log| && Recent(log, dpt, i, n, keys) && Asks(log[n], dpt) && KeyOfRec(log[n]) in keys
    ensures Recent(log, dpt, i, n + 1, Front(keys, KeyOfRec(log[n])))
  {
    var f := Front(keys, KeyOfRec(log[n]));
    FrontOfCached(keys, KeyOfRec(log[n]));
    AgainOrder(log, dpt, i, n, keys);
    forall a | 0 <= a < |f| ensures LastAsk(log, dpt, i, n + 1, f[a]) >= 0 { AskMoves(log, dpt, i, n, f[a]); }
    forall k | LastAsk(log, dpt, i, n + 1, k) >= 0 && k !in f
      ensures |f| == BUFFER_SIZE && LastAsk(log, dpt, i, n + 1, k) < LastAsk(log, dpt, i, n + 1, f[BUFFER_SIZE - 1])
    {
      AgainOthers(log, dpt, i, n, keys, k);
    }
  }

  lemma RecentNew(log: seq<LogRec>, dpt: map<PageKey, Lsn>, i: nat, n: nat, keys: seq<PageKey>)
    requires i <= n < |log| && Recent(log, dpt, i, n, keys) && Asks(log[n], dpt) && KeyOfRec(log[n]) !in keys
    ensures Recent(log, dpt, i, n + 1, Front(keys, KeyOfRec(log[n])))
  {
    var x := KeyOfRec(log[n]);
    var f := Front(keys, x);
    forall k ensures LastAsk(log, dpt, i, n + 1, k) == if k == x then n else LastAsk(log, dpt, i, n, k) {
      AskMoves(log, dpt, i, n, k);
    }
    assert forall a :: 1 <= a < |f| ==> f[a] == keys[a - 1];
    forall a | 0 <= a < |keys| && a + 1 < |f| ensures keys[a] in f { assert f[a + 1] == keys[a]; }
    assert x in f by { assert f[0] == x; }
    forall k | LastAsk(log, dpt, i, n + 1, k) >= 0 && k !in f
      ensures |f| == BUFFER_SIZE && LastAsk(log, dpt, i, n + 1, k) < LastAsk(log, dpt, i, n + 1, f[BUFFER_SIZE - 1])
    {
      if k in keys {
        var a :| 0 <= a < |keys| && keys[a] == k;
        assert a + 1 >= |f|;
      }
    }
  }

  // ---- redo under way -----------------------------------------------------

  ghost predicate MissedBefore(log: seq<LogRec>, n: nat, disk: PageMap, k: PageKey)
    requires n <= |log|
  {
    exists h :: 0 <= h < n && Missing(log, h, disk, k)
  }

  // A page without its entry has no missing record ahead.
  ghost predicate EntriesEnough(log: seq<LogRec>, n: nat, dpt0: map<PageKey, Lsn>, dpt: map<PageKey, Lsn>, disk: PageMap) {
    forall k, j: nat :: k in dpt0 && k !in dpt && n <= j < |log| ==> !Missing(log, j, disk, k)
  }

  // The pages have the LSNs of their disk images.
  ghost predicate SameStamps(c: Cache<Page>, disk: PageMap) {
    CacheOk(c) && View(c).Keys == disk.Keys && forall k :: k in disk ==> View(c)[k].lsn == disk[k].lsn
  }

  // Only pages that had a missing record are dirty or have lost their entry.
  ghost predicate OnlyMissed(log: seq<LogRec>, n: nat, dpt: map<PageKey, Lsn>, disk: PageMap, t: Redoing)
    requires n <= |log|
  {
    && (forall k :: k in t.dpt ==> k in dpt && t.dpt[k] == dpt[k])
    && (forall k :: k in t.cache.dirty ==> MissedBefore(log, n, disk, k))
    && (forall k :: k in dpt && k !in t.dpt ==> MissedBefore(log, n, disk, k))
  }

  /** While entries suffice, redo asks for the pages that the first table
      says, and the cache is what those accesses make it. */
  ghost predicate OnTrack(log: seq<LogRec>, i: nat, n: nat, dpt: map<PageKey, Lsn>, disk: PageMap, t: Redoing)
    requires i <= n <= |log|
  {
    && SameStamps(t.cache, disk)
    && Recent(log, dpt, i, n, t.cache.keys)
    && OnlyMissed(log, n, dpt, disk, t)
    && EntriesEnough(log, n, dpt, t.dpt, disk)
  }

  // A page with a missing record has only missing records from there on.
  lemma MissingOn(log: seq<LogRec>, n: nat, disk: PageMap, k: PageKey, j: nat)
    requires Ordered(log) && n <= j < |log| && MissedBefore(log, n, disk, k) && OnPage(log[j], k)
    ensures Missing(log, j, disk, k)
  {
  }

  lemma SameAsks(log: seq<LogRec>, i: nat, n: nat, dpt: map<PageKey, Lsn>, disk: PageMap, t: Redoing)
    requires Ready(log, i, dpt, disk) && i <= n < |log| && OnTrack(log, i, n, dpt, disk, t)
    ensures Asks(log[n], t.dpt) <==> Asks(log[n], dpt)
  {
    if Asks(log[n], dpt) && MissedBefore(log, n, disk, KeyOfRec(log[n])) {
      MissingOn(log, n, disk, KeyOfRec(log[n]), n);
    }
  }

  lemma StepRecent(log: seq<LogRec>, i: nat, n: nat, dpt: map<PageKey, Lsn>, disk: PageMap, t: Redoing)
    requires Ready(log, i, dpt, disk) && i <= n < |log| && OnTrack(log, i, n, dpt, disk, t)
    ensures Recent(log, dpt, i, n + 1, RedoStep(log[n], t).cache.keys)
  {
    SameAsks(log, i, n, dpt, disk, t);
    if Asks(log[n], dpt) {
      var k := KeyOfRec(log[n]);
      assert k in View(t.cache);
      FetchedKeys(t.cache, k);
      if k in t.cache.keys { RecentAgain(log, dpt, i, n, t.cache.keys); } else { RecentNew(log, dpt, i, n, t.cache.keys); }
    } else {
      RecentQuiet(log, dpt, i, n, t.cache.keys);
    }
  }

  lemma StepMissed(log: seq<LogRec>, n: nat, dpt: map<PageKey, Lsn>, disk: PageMap, t: Redoing)
    requires n < |log| && OnlyMissed(log, n, dpt, disk, t) && SameStamps(t.cache, disk)
    ensures OnlyMissed(log, n + 1, dpt, disk, RedoStep(log[n], t))
  {
    var u := RedoStep(log[n], t);
    forall k | MissedBefore(log, n, disk, k) ensures MissedBefore(log, n + 1, disk, k) {
      var h :| 0 <= h < n && Missing(log, h, disk, k);
    }
    if Asks(log[n], t.dpt) && KeyOfRec(log[n]) in View(t.cache) {
      FetchedDirty(t.cache, KeyOfRec(log[n]));
      forall k | k in u.cache.dirty ensures MissedBefore(log, n + 1, disk, k) {
        if k !in t.cache.dirty { assert Missing(log, n, disk, k); }
      }
    }
  }

  lemma StepStamps(r: LogRec, t: Redoing, disk: PageMap)
    requires SameStamps(t.cache, disk)
    ensures SameStamps(RedoStep(r, t).cache, disk)
  {
    RedoStepView(r, t);
  }

  lemma StepOnTrack(log: seq<LogRec>, i: nat, n: nat, dpt: map<PageKey, Lsn>, disk: PageMap, t: Redoing)
    requires Ready(log, i, dpt, disk) && i <= n < |log| && OnTrack(log, i, n, dpt, disk, t)
    requires EntriesEnough(log, n + 1, dpt, RedoStep(log[n], t).dpt, disk)
    ensures OnTrack(log, i, n + 1, dpt, disk, RedoStep(log[n], t))
  {
    StepStamps(log[n], t, disk);
    StepRecent(log, i, n, dpt, disk, t);
    StepMissed(log, n, dpt, disk, t);
  }

  // ---- a large enough cache -----------------------------------------------

  // The last use of a page with a missing record is by one.
  lemma VictimMissed(log: seq<LogRec>, i: nat, n: nat, dpt: map<PageKey, Lsn>, disk: PageMap, v: PageKey) returns (a: nat)
    requires Ready(log, i, dpt, disk) && i <= n < |log| && MissedBefore(log, n, disk, v)
    ensures a == LastAsk(log, dpt, i, n, v) && Missing(log, a, disk, v)
    ensures forall h :: a < h < n ==> !OnPage(log[h], v)
  {
    var h :| 0 <= h < n && Missing(log, h, disk, v);
    MissingAsks(log, i, dpt, disk, h, v);
    a := LastAsk(log, dpt, i, n, v);
    assert Missing(log, a, disk, v);
    forall g | a < g < n ensures !OnPage(log[g], v) {
      if OnPage(log[g], v) {
        assert Missing(log, g, disk, v);
        MissingAsks(log, i, dpt, disk, g, v);
      }
    }
  }

  // The first missing record of a page from position `n` on.
  lemma {:induction false} FirstMissing(log: seq<LogRec>, disk: PageMap, k: PageKey, n: nat, j: nat) returns (b: nat)
    requires n <= j < |log| && Missing(log, j, disk, k)
    ensures n <= b <= j && Missing(log, b, disk, k) && forall h :: n <= h < b ==> !Missing(log, h, disk, k)
    decreases j - n
  {
    if Missing(log, n, disk, k) { b := n; } else { b := FirstMissing(log, disk, k, n + 1, j); }
  }

  // All that was asked for since the victim, and the page asked for now.
  lemma VictimWindow(log: seq<LogRec>, i: nat, n: nat, dpt: map<PageKey, Lsn>, keys: seq<PageKey>, a: nat, b: nat)
    requires i <= n < b < |log| && Recent(log, dpt, i, n, keys) && |keys| == BUFFER_SIZE
    requires Asks(log[n], dpt) && KeyOfRec(log[n]) !in keys
    requires a == LastAsk(log, dpt, i, n, keys[BUFFER_SIZE - 1])
    ensures |Between(log, a, b, dpt)| >= BUFFER_SIZE
  {
    var ks := [KeyOfRec(log[n])] + keys[..BUFFER_SIZE - 1];
    forall c | 0 <= c < |ks| ensures ks[c] in Between(log, a, b, dpt) {
      var h := if c == 0 then n else LastAsk(log, dpt, i, n, keys[c - 1]);
      assert a < h < b && Asks(log[h], dpt) && KeyOfRec(log[h]) == ks[c];
    }
    DistinctCard(ks, Between(log, a, b, dpt));
  }

  /** While the condition holds no entry is lost that is still needed. */
  lemma WindowKeepsEntries(log: seq<LogRec>, i: nat, n: nat, dpt: map<PageKey, Lsn>, disk: PageMap, t: Redoing)
    requires Ready(log, i, dpt, disk) && i <= n < |log| && OnTrack(log, i, n, dpt, disk, t) && KeepsUp(log, dpt, disk)
    ensures EntriesEnough(log, n + 1, dpt, RedoStep(log[n], t).dpt, disk)
  {
    var u := RedoStep(log[n], t);
    SameAsks(log, i, n, dpt, disk, t);
    forall k, j: nat | k in dpt && k !in u.dpt && n + 1 <= j < |log| ensures !Missing(log, j, disk, k) {
      if k in t.dpt && Missing(log, j, disk, k) {
        LostTooSoon(log, i, n, dpt, disk, t, j);
      }
    }
  }

  lemma LostTooSoon(log: seq<LogRec>, i: nat, n: nat, dpt: map<PageKey, Lsn>, disk: PageMap, t: Redoing, j: nat)
    requires Ready(log, i, dpt, disk) && i <= n < j < |log| && OnTrack(log, i, n, dpt, disk, t)
    requires Asks(log[n], dpt) && KeyOfRec(log[n]) !in t.cache.keys && Full(t.cache) && Oldest(t.cache) in t.cache.dirty
    requires Missing(log, j, disk, Oldest(t.cache))
    ensures !KeepsUp(log, dpt, disk)
  {
    var v := Oldest(t.cache);
    var a := VictimMissed(log, i, n, dpt, disk, v);
    var b := FirstMissing(log, disk, v, n, j);
    assert b != n by { assert v in t.cache.keys; }
    VictimWindow(log, i, n, dpt, t.cache.keys, a, b);
    assert MissedBefore(log, n, disk, v);
    forall h | a < h < b ensures !OnPage(log[h], v) {
      if h >= n && OnPage(log[h], v) { MissingOn(log, n, disk, v, h); }
    }
    assert Neighbours(log, a, b, disk, v);
  }

  lemma TrackStarts(log: seq<LogRec>, i: nat, dpt: map<PageKey, Lsn>, disk: PageMap)
    requires Ready(log, i, dpt, disk)
    ensures OnTrack(log, i, i, dpt, disk, Redoing(Cold(disk), dpt))
  {
    assert View(Cold(disk)) == disk;
  }

  lemma WindowStep(log: seq<LogRec>, i: nat, n: nat, dpt: map<PageKey, Lsn>, disk: PageMap, t: Redoing)
    requires Ready(log, i, dpt, disk) && KeepsUp(log, dpt, disk) && i <= n < |log| && OnTrack(log, i, n, dpt, disk, t)
    ensures OnTrack(log, i, n + 1, dpt, disk, RedoStep(log[n], t))
  {
    WindowKeepsEntries(log, i, n, dpt, disk, t);
    StepOnTrack(log, i, n, dpt, disk, t);
  }

  lemma {:induction false} TrackTo(log: seq<LogRec>, i: nat, n: nat, dpt: map<PageKey, Lsn>, disk: PageMap) returns (t: Redoing)
    requires Ready(log, i, dpt, disk) && KeepsUp(log, dpt, disk) && i <= n <= |log|
    ensures t == RedoTo(log, i, n, Redoing(Cold(disk), dpt)) && OnTrack(log, i, n, dpt, disk, t)
    decreases n
  {
    if n == i {
      t := Redoing(Cold(disk), dpt);
      TrackStarts(log, i, dpt, disk);
    } else {
      var u := TrackTo(log, i, n - 1, dpt, disk);
      WindowStep(log, i, n - 1, dpt, disk, u);
      t := RedoStep(log[n - 1], u);
      RedoToNext(log, i, n - 1, Redoing(Cold(disk), dpt));
    }
  }

  /** While the condition holds, redo stays on track. */
  lemma WindowOnTrack(log: seq<LogRec>, i: nat, n: nat, dpt: map<PageKey, Lsn>, disk: PageMap)
    requires Ready(log, i, dpt, disk) && KeepsUp(log, dpt, disk) && i <= n <= |log|
    ensures OnTrack(log, i, n, dpt, disk, RedoTo(log, i, n, Redoing(Cold(disk), dpt)))
  {
    var t := TrackTo(log, i, n, dpt, disk);
  }

  // ---- a cache that is too small ------------------------------------------

  // Every page has its entry as long as it is needed.
  ghost predicate AllReached(log: seq<LogRec>, i: nat, dpt: map<PageKey, Lsn>, disk: PageMap)
    requires i <= |log|
  {
    forall k :: Reached(log, i, Redoing(Cold(disk), dpt), disk, k)
  }

  // Record `n` is looked at with an entry of `k` exactly if it lies ahead of the cut.
  lemma {:induction false} CutMeaning(log: seq<LogRec>, i: nat, n: nat, e: nat, s: Redoing, k: PageKey)
    requires i <= n < e <= |log| && k in s.dpt
    ensures n < Cut(log, i, e, s, k) <==> k in RedoTo(log, i, n, s).dpt
    decreases e
  {
    EntriesShrink(log, i, n, e - 1, s, k);
    if k !in RedoTo(log, i, e - 1, s).dpt && n < e - 1 {
      CutMeaning(log, i, n, e - 1, s, k);
    }
  }

  lemma ReachedEntries(log: seq<LogRec>, i: nat, n: nat, dpt: map<PageKey, Lsn>, disk: PageMap, t: Redoing)
    requires Ready(log, i, dpt, disk) && AllReached(log, i, dpt, disk) && i <= n <= |log|
    requires t == RedoTo(log, i, n, Redoing(Cold(disk), dpt))
    ensures EntriesEnough(log, n, dpt, t.dpt, disk)
  {
    var s := Redoing(Cold(disk), dpt);
    forall k, j: nat | k in dpt && k !in t.dpt && n <= j < |log| ensures !Missing(log, j, disk, k) {
      EntriesShrink(log, i, n, j, s, k);
      CutMeaning(log, i, j, |log|, s, k);
      assert Reached(log, i, s, disk, k);
    }
  }

  lemma ReachedStep(log: seq<LogRec>, i: nat, m: nat, n: nat, dpt: map<PageKey, Lsn>, disk: PageMap, u: Redoing) returns (t: Redoing)
    requires Ready(log, i, dpt, disk) && AllReached(log, i, dpt, disk) && i <= m < |log| && n == m + 1
    requires u == RedoTo(log, i, m, Redoing(Cold(disk), dpt)) && OnTrack(log, i, m, dpt, disk, u)
    ensures t == RedoTo(log, i, n, Redoing(Cold(disk), dpt)) && t == RedoStep(log[m], u) && OnTrack(log, i, n, dpt, disk, t)
  {
    t := RedoStep(log[m], u);
    RedoToNext(log, i, m, Redoing(Cold(disk), dpt));
    ReachedEntries(log, i, n, dpt, disk, t);
    StepOnTrack(log, i, m, dpt, disk, u);
  }

  lemma {:induction false} ReachedTo(log: seq<LogRec>, i: nat, n: nat, dpt: map<PageKey, Lsn>, disk: PageMap) returns (t: Redoing)
    requires Ready(log, i, dpt, disk) && AllReached(log, i, dpt, disk) && i <= n <= |log|
    ensures t == RedoTo(log, i, n, Redoing(Cold(disk), dpt)) && OnTrack(log, i, n, dpt, disk, t)
    decreases n
  {
    if n == i {
      t := Redoing(Cold(disk), dpt);
      TrackStarts(log, i, dpt, disk);
    } else {
      var u := ReachedTo(log, i, n - 1, dpt, disk);
      t := ReachedStep(log, i, n - 1, n, dpt, disk, u);
    }
  }

  lemma ReachedOnTrack(log: seq<LogRec>, i: nat, n: nat, dpt: map<PageKey, Lsn>, disk: PageMap)
    requires Ready(log, i, dpt, disk) && AllReached(log, i, dpt, disk) && i <= n <= |log|
    ensures OnTrack(log, i, n, dpt, disk, RedoTo(log, i, n, Redoing(Cold(disk), dpt)))
  {
    var t := ReachedTo(log, i, n, dpt, disk);
  }

  // A dirty page stays dirty until it is written back, and then it has no entry.
  lemma DirtyStep(r: LogRec, t: Redoing, k: PageKey)
    requires CacheOk(t.cache) && (k in t.cache.dirty || k !in t.dpt)
    ensures k in RedoStep(r, t).cache.dirty || k !in RedoStep(r, t).dpt
  {
    if Asks(r, t.dpt) && KeyOfRec(r) in View(t.cache) {
      FetchedDirty(t.cache, KeyOfRec(r));
    }
  }

  lemma MadeDirty(log: seq<LogRec>, i: nat, a: nat, dpt: map<PageKey, Lsn>, disk: PageMap, t: Redoing, k: PageKey)
    requires Ready(log, i, dpt, disk) && i <= a < |log| && OnTrack(log, i, a, dpt, disk, t) && Missing(log, a, disk, k)
    ensures k in RedoStep(log[a], t).cache.dirty
  {
    MissingAsks(log, i, dpt, disk, a, k);
    SameAsks(log, i, a, dpt, disk, t);
    assert k in View(t.cache);
  }

  // A page that had a record redone is dirty until its entry is gone.
  // One more record; `t` is what it makes of `u`.
  lemma DirtyTurn(log: seq<LogRec>, i: nat, a: nat, n: nat, dpt: map<PageKey, Lsn>, disk: PageMap, k: PageKey, u: Redoing, t: Redoing)
    requires Ready(log, i, dpt, disk) && i <= a <= n < |log| && Missing(log, a, disk, k)
    requires OnTrack(log, i, n, dpt, disk, u) && t == RedoStep(log[n], u) && (a < n ==> k in u.cache.dirty || k !in u.dpt)
    ensures k in t.cache.dirty || k !in t.dpt
  {
    if a < n {
      DirtyStep(log[n], u, k);
    } else {
      MadeDirty(log, i, n, dpt, disk, u, k);
    }
  }

  lemma {:induction false} DirtyTo(log: seq<LogRec>, i: nat, a: nat, m: nat, n: nat, dpt: map<PageKey, Lsn>, disk: PageMap, k: PageKey)
    returns (t: Redoing)
    requires Ready(log, i, dpt, disk) && AllReached(log, i, dpt, disk) && i <= a <= m < |log| && Missing(log, a, disk, k) && n == m + 1
    ensures t == RedoTo(log, i, n, Redoing(Cold(disk), dpt)) && (k in t.cache.dirty || k !in t.dpt)
    decreases m
  {
    var u := ReachedTo(log, i, m, dpt, disk);
    if a < m {
      var u' := DirtyTo(log, i, a, m - 1, m, dpt, disk, k);
    }
    t := ReachedStep(log, i, m, n, dpt, disk, u);
    DirtyTurn(log, i, a, m, dpt, disk, k, u, t);
  }

  lemma DirtyOrLost(log: seq<LogRec>, i: nat, a: nat, n: nat, dpt: map<PageKey, Lsn>, disk: PageMap, k: PageKey)
    requires Ready(log, i, dpt, disk) && AllReached(log, i, dpt, disk) && i <= a < n <= |log| && Missing(log, a, disk, k)
    ensures var t := RedoTo(log, i, n, Redoing(Cold(disk), dpt)); k in t.cache.dirty || k !in t.dpt
  {
    var t := DirtyTo(log, i, a, n - 1, n, dpt, disk, k);
  }

  lemma SinceLastUse(log: seq<LogRec>, dpt: map<PageKey, Lsn>, i: nat, n: nat, keys: seq<PageKey>, p: nat, x: PageKey)
    requires i <= n <= |log| && Recent(log, dpt, i, n, keys) && p < |keys|
    requires LastAsk(log, dpt, i, n, x) > LastAsk(log, dpt, i, n, keys[p])
    ensures x in keys
  {
    if p < |keys| - 1 {
      assert LastAsk(log, dpt, i, n, keys[p]) > LastAsk(log, dpt, i, n, keys[|keys| - 1]);
    }
  }

  // Pages asked for since the last use of a cached page are ahead of it in the list.
  lemma AheadInList(log: seq<LogRec>, dpt: map<PageKey, Lsn>, i: nat, n: nat, keys: seq<PageKey>, p: nat, x: PageKey)
    requires i <= n <= |log| && Recent(log, dpt, i, n, keys) && p < |keys|
    requires LastAsk(log, dpt, i, n, x) > LastAsk(log, dpt, i, n, keys[p])
    ensures x in keys[..p]
  {
    SinceLastUse(log, dpt, i, n, keys, p, x);
    var q :| 0 <= q < |keys| && keys[q] == x;
    assert q < p;
  }

  /** If every page has its entry as long as it is needed, the condition holds. */
  lemma ReachedKeepsUp(log: seq<LogRec>, i: nat, dpt: map<PageKey, Lsn>, disk: PageMap)
    requires Ready(log, i, dpt, disk) && AllReached(log, i, dpt, disk)
    ensures KeepsUp(log, dpt, disk)
  {
    forall a: nat, b: nat, k | Neighbours(log, a, b, disk, k) ensures |Between(log, a, b, dpt)| < BUFFER_SIZE {
      ReachedWindow(log, i, dpt, disk, a, b, k);
    }
  }

  // At the second of two missing records the page is still cached.
  lemma StillCached(log: seq<LogRec>, i: nat, dpt: map<PageKey, Lsn>, disk: PageMap, a: nat, b: nat, k: PageKey)
    requires Ready(log, i, dpt, disk) && AllReached(log, i, dpt, disk) && Neighbours(log, a, b, disk, k)
    ensures i <= a < b <= |log| && LastAsk(log, dpt, i, b, k) == a
    ensures var t := RedoTo(log, i, b, Redoing(Cold(disk), dpt)); k in t.cache.keys && Recent(log, dpt, i, b, t.cache.keys)
  {
    MissingAsks(log, i, dpt, disk, a, k);
    MissingAsks(log, i, dpt, disk, b, k);
    var t := RedoTo(log, i, b, Redoing(Cold(disk), dpt));
    ReachedOnTrack(log, i, b, dpt, disk);
    SameAsks(log, i, b, dpt, disk, t);
    DirtyOrLost(log, i, a, b, dpt, disk, k);
  }

  lemma ReachedWindow(log: seq<LogRec>, i: nat, dpt: map<PageKey, Lsn>, disk: PageMap, a: nat, b: nat, k: PageKey)
    requires Ready(log, i, dpt, disk) && AllReached(log, i, dpt, disk) && Neighbours(log, a, b, disk, k)
    ensures |Between(log, a, b, dpt)| < BUFFER_SIZE
  {
    StillCached(log, i, dpt, disk, a, b, k);
    var keys := RedoTo(log, i, b, Redoing(Cold(disk), dpt)).cache.keys;
    var p :| 0 <= p < |keys| && keys[p] == k;
    forall x | x in Between(log, a, b, dpt) ensures x in keys[..p] {
      AheadInList(log, dpt, i, b, keys, p, x);
    }
    ListedCard(keys[..p], Between(log, a, b, dpt));
  }

  /** Redo through the cache never loses an entry too soon if and only if the
      condition holds. */
  lemma KeepsUpIff(log: seq<LogRec>, i: nat, dpt: map<PageKey, Lsn>, disk: PageMap)
    requires Ready(log, i, dpt, disk)
    ensures AllReached(log, i, dpt, disk) <==> KeepsUp(log, dpt, disk)
  {
    if KeepsUp(log, dpt, disk) {
      forall k ensures Reached(log, i, Redoing(Cold(disk), dpt), disk, k) {
        KeepsUpReaches(log, i, dpt, disk, k);
      }
    }
    if AllReached(log, i, dpt, disk) {
      ReachedKeepsUp(log, i, dpt, disk);
    }
  }

  lemma KeepsUpReaches(log: seq<LogRec>, i: nat, dpt: map<PageKey, Lsn>, disk: PageMap, k: PageKey)
    requires Ready(log, i, dpt, disk) && KeepsUp(log, dpt, disk)
    ensures Reached(log, i, Redoing(Cold(disk), dpt), disk, k)
  {
    var s := Redoing(Cold(disk), dpt);
    forall j | Cut(log, i, |log|, s, k) <= j < |log| ensures !Missing(log, j, disk, k) {
      if Missing(log, j, disk, k) {
        MissingAsks(log, i, dpt, disk, j, k);
        CutMeaning(log, i, j, |log|, s, k);
        WindowOnTrack(log, i, j, dpt, disk);
      }
    }
  }

  // ---- few pages ----------------------------------------------------------

  /** All the pages redo would ask for. */
  function Asked(log: seq<LogRec>, dpt: map<PageKey, Lsn>): set<PageKey> {
    set h | 0 <= h < |log| && Asks(log[h], dpt) :: KeyOfRec(log[h])
  }

  /** If redo asks for no more pages than the cache has frames, the condition
      holds. */
  lemma FewPagesKeepUp(log: seq<LogRec>, i: nat, dpt: map<PageKey, Lsn>, disk: PageMap)
    requires Ready(log, i, dpt, disk) && |Asked(log, dpt)| <= BUFFER_SIZE
    ensures KeepsUp(log, dpt, disk)
  {
    forall a: nat, b: nat, k | Neighbours(log, a, b, disk, k) ensures |Between(log, a, b, dpt)| < BUFFER_SIZE {
      MissingAsks(log, i, dpt, disk, a, k);
      assert k in Asked(log, dpt);
      SubsetCard(Between(log, a, b, dpt), Asked(log, dpt) - {k});
    }
  }
}
