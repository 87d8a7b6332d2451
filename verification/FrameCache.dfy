/** Frames, page map and list of frames together are the cache of module
    Caches: what the pool does on an access is what the cache value says. */
module FrameCaches {
  import opened Types
  import opened Lists
  import opened Bytes
  import opened Lru
  import opened Caches
  import opened FramePools

  // The pages in the frames of the list, in its order.
  function KeysOf(vec: seq<nat>, frames: seq<Frame>): seq<PageKey> {
    if vec == [] then []
    else (if vec[0] < |frames| then [frames[vec[0]].key] else []) + KeysOf(vec[1..], frames)
  }

  // Each page is in one frame.
  ghost predicate OneFrameEach(frames: seq<Frame>) {
    forall i, j :: 0 <= i < j < |frames| ==> frames[i].key != frames[j].key
  }

  function AsCache(p: Pool, vec: seq<nat>): Cache<bytes>
  {
    Cache(KeysOf(vec, p.frames),
          (map k | k in p.hashmap && InFrame(p, k) :: p.frames[p.hashmap[k]].data),
          (set k | k in p.hashmap && InFrame(p, k) && p.frames[p.hashmap[k]].dirty),
          p.disk)
  }

  lemma {:induction false} KeysIn(vec: seq<nat>, frames: seq<Frame>, k: PageKey)
    ensures k in KeysOf(vec, frames) <==> exists a :: 0 <= a < |vec| && vec[a] < |frames| && frames[vec[a]].key == k
  {
    if vec != [] {
      KeysIn(vec[1..], frames, k);
      if exists a :: 0 <= a < |vec| && vec[a] < |frames| && frames[vec[a]].key == k {
        var a :| 0 <= a < |vec| && vec[a] < |frames| && frames[vec[a]].key == k;
        if a > 0 { assert vec[1..][a - 1] == vec[a]; }
      }
      if k in KeysOf(vec[1..], frames) {
        var a :| 0 <= a < |vec[1..]| && vec[1..][a] < |frames| && frames[vec[1..][a]].key == k;
        assert vec[a + 1] == vec[1..][a];
      }
    }
  }

  /** The list names exactly the cached pages. */
  lemma KeysAreMapped(p: Pool, vec: seq<nat>, k: PageKey)
    requires PoolOk(p) && Tracks(vec, |p.frames|)
    ensures k in KeysOf(vec, p.frames) <==> k in p.hashmap
  {
    KeysIn(vec, p.frames, k);
    if k in p.hashmap {
      var f := p.hashmap[k];
      assert f in vec && p.frames[f].key == k;
      var a :| 0 <= a < |vec| && vec[a] == f;
    }
  }

  lemma PoolOneFrame(p: Pool)
    requires PoolOk(p)
    ensures OneFrameEach(p.frames)
  {
    forall i, j | 0 <= i < j < |p.frames| ensures p.frames[i].key != p.frames[j].key {
      assert p.hashmap[p.frames[i].key] == i && p.hashmap[p.frames[j].key] == j;
    }
  }

  lemma {:induction false} KeysNoRepeats(vec: seq<nat>, frames: seq<Frame>)
    requires Distinct<nat>(vec) && OneFrameEach(frames)
    ensures Distinct(KeysOf(vec, frames))
  {
    if vec != [] {
      KeysNoRepeats(vec[1..], frames);
      if vec[0] < |frames| {
        var k := frames[vec[0]].key;
        KeysIn(vec[1..], frames, k);
        assert k !in KeysOf(vec[1..], frames) by {
          forall a | 0 <= a < |vec[1..]| && vec[1..][a] < |frames| ensures frames[vec[1..][a]].key != k {
            assert vec[1..][a] == vec[a + 1] != vec[0];
          }
        }
      }
    }
  }

  // ---- an access to a cached page -----------------------------------------

  lemma {:induction false} KeysErase(vec: seq<nat>, frames: seq<Frame>, f: nat)
    requires f < |frames| && OneFrameEach(frames)
    ensures KeysOf(Erase<nat>(vec, f), frames) == Erase(KeysOf(vec, frames), frames[f].key)
  {
    if vec != [] {
      var rest := KeysOf(vec[1..], frames);
      if vec[0] == f {
        assert ([frames[f].key] + rest)[1..] == rest;
      } else {
        KeysErase(vec[1..], frames, f);
        KeysStep(vec[0], Erase<nat>(vec[1..], f), frames);
        KeysStep(vec[0], vec[1..], frames);
        assert [vec[0]] + vec[1..] == vec;
        if vec[0] < |frames| {
          EraseStep(frames[vec[0]].key, rest, frames[f].key);
        }
      }
    }
  }

  lemma KeysStep(f: nat, rest: seq<nat>, frames: seq<Frame>)
    ensures KeysOf([f] + rest, frames) == if f < |frames| then [frames[f].key] + KeysOf(rest, frames) else KeysOf(rest, frames)
  {
    assert ([f] + rest)[1..] == rest;
    assert [] + KeysOf(rest, frames) == KeysOf(rest, frames);
  }

  lemma EraseStep(k: PageKey, rest: seq<PageKey>, x: PageKey)
    requires k != x
    ensures Erase([k] + rest, x) == [k] + Erase(rest, x)
  {
    assert ([k] + rest)[1..] == rest;
  }

  /** A cached page moves to the front. */
  lemma TouchIsFetched(p: Pool, vec: seq<nat>, k: PageKey)
    requires PoolOk(p) && Tracks(vec, |p.frames|) && k in p.hashmap
    ensures k in View(AsCache(p, vec))
    ensures AsCache(p, [p.hashmap[k]] + Erase<nat>(vec, p.hashmap[k])) == Fetched(AsCache(p, vec), k)
  {
    var f := p.hashmap[k];
    PoolOneFrame(p);
    KeysAreMapped(p, vec, k);
    KeysErase(vec, p.frames, f);
    assert p.frames[f].key == k;
    assert ([f] + Erase<nat>(vec, f))[1..] == Erase<nat>(vec, f);
  }

  // ---- a page that comes in -----------------------------------------------

  // A new frame at the end changes nothing for those before it.
  lemma {:induction false} KeysAdd(vec: seq<nat>, frames: seq<Frame>, x: Frame)
    requires Distinct<nat>(vec)
    ensures KeysOf(Erase<nat>(vec, |frames|), frames + [x]) == KeysOf(vec, frames)
  {
    if vec != [] {
      var n := |frames|;
      if vec[0] == n {
        KeysOld(vec[1..], frames, x);
        assert [] + KeysOf(vec[1..], frames) == KeysOf(vec[1..], frames);
      } else {
        KeysAdd(vec[1..], frames, x);
        assert ([vec[0]] + Erase<nat>(vec[1..], n))[1..] == Erase<nat>(vec[1..], n);
      }
    }
  }

  lemma {:induction false} KeysOld(vec: seq<nat>, frames: seq<Frame>, x: Frame)
    requires forall a :: 0 <= a < |vec| ==> vec[a] != |frames|
    ensures KeysOf(vec, frames + [x]) == KeysOf(vec, frames)
  {
    if vec != [] { KeysOld(vec[1..], frames, x); }
  }

  lemma {:induction false} KeysReplace(vec: seq<nat>, frames: seq<Frame>, i: nat, x: Frame)
    requires i < |frames| && forall a :: 0 <= a < |vec| ==> vec[a] != i
    ensures KeysOf(vec, frames[i := x]) == KeysOf(vec, frames)
  {
    if vec != [] { KeysReplace(vec[1..], frames, i, x); }
  }

  lemma {:induction false} KeysPrefix(vec: seq<nat>, frames: seq<Frame>, n: nat)
    requires n <= |vec| && forall a :: 0 <= a < |vec| ==> vec[a] < |frames|
    ensures |KeysOf(vec, frames)| == |vec| && KeysOf(vec[..n], frames) == KeysOf(vec, frames)[..n]
  {
    if vec != [] {
      KeysPrefix(vec[1..], frames, if n == 0 then 0 else n - 1);
      if n > 0 { assert vec[..n][1..] == vec[1..][..n - 1]; }
    }
  }

  lemma {:induction false} SameLength(a: seq<PageKey>, b: seq<PageKey>)
    requires Distinct(a) && Distinct(b) && forall k :: k in a <==> k in b
    ensures |a| == |b|
  {
    var head := if b == [] then PageKey(0, 0) else b[0];
    assert b != [] ==> head in b;
    if a != [] {
      var c := Erase(b, a[0]);
      EraseFacts(b, a[0]);
      forall k ensures k in a[1..] <==> k in c {
        assert k in a <==> k == a[0] || k in a[1..];
      }
      SameLength(a[1..], c);
    }
  }

  lemma ListLength(p: Pool, vec: seq<nat>)
    requires PoolOk(p) && Tracks(vec, |p.frames|)
    ensures |KeysOf(vec, p.frames)| == |p.frames|
  {
    var ks := seq(|p.frames|, i requires 0 <= i < |p.frames| => p.frames[i].key);
    PoolOneFrame(p);
    KeysNoRepeats(vec, p.frames);
    forall k ensures k in KeysOf(vec, p.frames) <==> k in ks {
      KeysAreMapped(p, vec, k);
      if k in p.hashmap { assert ks[p.hashmap[k]] == k; }
      if k in ks {
        var i :| 0 <= i < |ks| && ks[i] == k;
        assert p.frames[i].key in p.hashmap;
      }
    }
    SameLength(KeysOf(vec, p.frames), ks);
  }

  lemma AsCacheView(p: Pool, vec: seq<nat>)
    requires PoolOk(p)
    ensures View(AsCache(p, vec)) == Contents(p)
  {
  }

  /** The pool's value is a cache in order. */
  lemma AsCacheOk(p: Pool, vec: seq<nat>)
    requires PoolOk(p) && Synced(p) && Tracks(vec, |p.frames|)
    ensures CacheOk(AsCache(p, vec)) && View(AsCache(p, vec)) == Contents(p)
  {
    var c := AsCache(p, vec);
    PoolOneFrame(p);
    KeysNoRepeats(vec, p.frames);
    ListLength(p, vec);
    forall k ensures k in c.mem <==> k in c.keys { KeysAreMapped(p, vec, k); }
    forall k | k in c.mem && k !in c.dirty ensures k in c.disk && c.disk[k] == c.mem[k] {
      assert FrameSynced(p, p.hashmap[k]) && p.frames[p.hashmap[k]].key == k;
    }
    AsCacheView(p, vec);
  }

  /** A page read into a free frame enters at the front. */
  lemma AddIsFetched(p: Pool, vec: seq<nat>, k: PageKey)
    requires PoolOk(p) && Tracks(vec, |p.frames|) && |p.frames| < BUFFER_SIZE && k !in p.hashmap && k in p.disk
    ensures var q := AddFrame(p, Frame(k, p.disk[k], false));
      && PoolOk(q) && k in View(AsCache(p, vec))
      && AsCache(q, [|p.frames|] + Erase<nat>(vec, |p.frames|)) == Fetched(AsCache(p, vec), k)
  {
    var x := Frame(k, p.disk[k], false);
    var q := AddFrame(p, x);
    var c := AsCache(p, vec);
    AddOk(p, x);
    KeysAreMapped(p, vec, k);
    ListLength(p, vec);
    KeysAdd(vec, p.frames, x);
    var v := [|p.frames|] + Erase<nat>(vec, |p.frames|);
    assert v[1..] == Erase<nat>(vec, |p.frames|);
    assert Fetched(c, k) == Entered(c, k);
    var d := AsCache(q, v);
    assert d.keys == Entered(c, k).keys;
    assert d.mem == Entered(c, k).mem;
    assert d.dirty == c.dirty;
  }

  /** A page read into the frame of the last page on the list: that page leaves,
      through the disk if it is dirty. */
  lemma ReplaceIsFetched(p: Pool, vec: seq<nat>, k: PageKey)
    requires PoolOk(p) && Tracks(vec, BUFFER_SIZE) && |p.frames| == BUFFER_SIZE && k !in p.hashmap && k in p.disk
    ensures vec != [] && Last(vec) < BUFFER_SIZE && k in View(AsCache(p, vec))
    ensures var q := Replace(FlushFrame(p, Last(vec)), Last(vec), Frame(k, p.disk[k], false));
      && PoolOk(q)
      && AsCache(q, [Last(vec)] + Erase<nat>(vec, Last(vec))) == Fetched(AsCache(p, vec), k)
  {
    EvictTracks(vec);
    var i := Last(vec);
    var n := |vec| - 1;
    var x := Frame(k, p.disk[k], false);
    var q := Replace(FlushFrame(p, i), i, x);
    ReplaceOk(p, i, x);
    KeysAreMapped(p, vec, k);
    ListLength(p, vec);
    EraseLast<nat>(vec);
    KeysPrefix(vec, p.frames, n);
    KeysReplace(vec[..n], p.frames, i, x);
    ReplacedList(p, vec, k, x);
    ReplacedRest(p, vec, k, x);
  }

  lemma ReplacedList(p: Pool, vec: seq<nat>, k: PageKey, x: Frame)
    requires PoolOk(p) && Tracks(vec, BUFFER_SIZE) && |p.frames| == BUFFER_SIZE && vec != [] && Last(vec) < BUFFER_SIZE && x.key == k
    ensures KeysOf([Last(vec)] + Erase<nat>(vec, Last(vec)), p.frames[Last(vec) := x]) == [k] + KeysOf(vec, p.frames)[..|KeysOf(vec, p.frames)| - 1]
    ensures Oldest(AsCache(p, vec)) == p.frames[Last(vec)].key
  {
    var i, n := Last(vec), |vec| - 1;
    EraseLast<nat>(vec);
    KeysPrefix(vec, p.frames, n);
    KeysReplace(vec[..n], p.frames, i, x);
    var v := [i] + vec[..n];
    assert v[1..] == vec[..n];
    LastKey(vec, p.frames);
  }

  lemma {:induction false} LastKey(vec: seq<nat>, frames: seq<Frame>)
    requires vec != [] && forall a :: 0 <= a < |vec| ==> vec[a] < |frames|
    ensures |KeysOf(vec, frames)| == |vec| && KeysOf(vec, frames)[|vec| - 1] == frames[vec[|vec| - 1]].key
  {
    KeysPrefix(vec, frames, |vec|);
    if |vec| > 1 { LastKey(vec[1..], frames); }
  }

  lemma ReplacedRest(p: Pool, vec: seq<nat>, k: PageKey, x: Frame)
    requires PoolOk(p) && |p.frames| == BUFFER_SIZE && Last(vec) < BUFFER_SIZE && k !in p.hashmap && k in p.disk
    requires x == Frame(k, p.disk[k], false) && PoolOk(Replace(FlushFrame(p, Last(vec)), Last(vec), x))
    requires KeysOf(vec, p.frames) != [] && Oldest(AsCache(p, vec)) == p.frames[Last(vec)].key
    ensures var q, e := AsCache(Replace(FlushFrame(p, Last(vec)), Last(vec), x), vec), Evicted(AsCache(p, vec));
      q.mem == e.mem[k := p.disk[k]] && q.dirty == e.dirty && q.disk == e.disk && k in e.disk && e.disk[k] == p.disk[k]
  {
    var i := Last(vec);
    var v := p.frames[i].key;
    assert p.hashmap[v] == i && v in p.hashmap;
    var q, e := AsCache(Replace(FlushFrame(p, i), i, x), vec), Evicted(AsCache(p, vec));
    forall j ensures (j in q.mem <==> j in e.mem[k := p.disk[k]]) && (j in q.mem ==> q.mem[j] == e.mem[k := p.disk[k]][j])
      && (j in q.dirty <==> j in e.dirty)
    {
      ReplacedAtKey(p, vec, i, k, x, j);
    }
    assert q.mem == e.mem[k := p.disk[k]];
    assert q.dirty == e.dirty;
  }

  lemma ReplacedAtKey(p: Pool, vec: seq<nat>, i: nat, k: PageKey, x: Frame, j: PageKey)
    requires PoolOk(p) && i < |p.frames| && k !in p.hashmap && k in p.disk && x == Frame(k, p.disk[k], false)
    requires KeysOf(vec, p.frames) != [] && Oldest(AsCache(p, vec)) == p.frames[i].key
    ensures var q, e := AsCache(Replace(FlushFrame(p, i), i, x), vec), Evicted(AsCache(p, vec));
      && (j in q.mem <==> j in e.mem[k := p.disk[k]]) && (j in q.mem ==> q.mem[j] == e.mem[k := p.disk[k]][j])
      && (j in q.dirty <==> j in e.dirty)
  {
    var f := Replace(FlushFrame(p, i), i, x);
    assert p.hashmap[p.frames[i].key] == i;
    if j in p.hashmap { assert p.frames[p.hashmap[j]].key == j; }
    if j in p.hashmap && j != p.frames[i].key {
      assert p.hashmap[j] != i && f.hashmap[j] == p.hashmap[j] && f.frames[p.hashmap[j]] == p.frames[p.hashmap[j]];
    }
  }

  // ---- a page enters ------------------------------------------------------

  // The frame a page gets that was not cached: a free one, or that of the oldest page.
  function SlotFor(p: Pool, vec: seq<nat>): nat {
    if |p.frames| >= BUFFER_SIZE then Last(vec) else |p.frames|
  }

  function Added(p: Pool, vec: seq<nat>, f: Frame): Pool {
    if SlotFor(p, vec) < |p.frames| then Replace(FlushFrame(p, SlotFor(p, vec)), SlotFor(p, vec), f) else AddFrame(p, f)
  }

  // What adding a page does to the pool, whatever the page.
  lemma AddedFacts(p: Pool, vec: seq<nat>, f: Frame)
    requires PoolOk(p) && Synced(p) && Tracks(vec, |p.frames|) && f.key !in p.hashmap && |f.data| == DB_PAGE_SIZE
    ensures var q := Added(p, vec, f);
      && PoolOk(q) && Contents(q) == Contents(p)[f.key := f.data] && f.key in q.hashmap && q.hashmap[f.key] == SlotFor(p, vec)
      && (forall j :: 0 <= j < |q.frames| && j != SlotFor(p, vec) ==> FrameSynced(q, j))
  {
    if |p.frames| >= BUFFER_SIZE {
      EvictTracks(vec);
      ReplaceFacts(p, Last(vec), f);
    } else {
      AddFacts(p, f);
    }
  }

  lemma AddedDisk(p: Pool, vec: seq<nat>, f: Frame)
    requires PoolOk(p) && Tracks(vec, |p.frames|) && f.key !in p.hashmap
    ensures f.key in Added(p, vec, f).disk <==> f.key in p.disk
    ensures f.key in p.disk ==> Added(p, vec, f).disk[f.key] == p.disk[f.key]
  {
    if SlotFor(p, vec) < |p.frames| { assert p.frames[SlotFor(p, vec)].key in p.hashmap; }
  }

  /** Reading a page into the pool is fetching it into the cache. */
  lemma AddedIsFetched(p: Pool, vec: seq<nat>, k: PageKey)
    requires PoolOk(p) && Synced(p) && Tracks(vec, |p.frames|) && k !in p.hashmap && k in p.disk
    ensures k in View(AsCache(p, vec))
    ensures var q := Added(p, vec, Frame(k, p.disk[k], false));
      && PoolOk(q) && Synced(q) && Contents(q) == Contents(p) && k in q.hashmap && q.hashmap[k] == SlotFor(p, vec)
      && AsCache(q, [SlotFor(p, vec)] + Erase<nat>(vec, SlotFor(p, vec))) == Fetched(AsCache(p, vec), k)
  {
    var f := Frame(k, p.disk[k], false);
    AddedFacts(p, vec, f);
    AddedDisk(p, vec, f);
    if |p.frames| >= BUFFER_SIZE { ReplaceIsFetched(p, vec, k); } else { AddIsFetched(p, vec, k); }
    var q := Added(p, vec, f);
    assert q.frames[SlotFor(p, vec)] == f;
    assert Contents(p)[k] == p.disk[k] && Contents(p)[k := p.disk[k]] == Contents(p);
  }

  /** A write through a cached page is a store into the cache. */
  lemma WriteIsStored(p: Pool, vec: seq<nat>, k: PageKey, data: bytes)
    requires PoolOk(p) && k in p.hashmap && |data| == DB_PAGE_SIZE
    ensures PoolOk(Overwritten(p, p.hashmap[k], data))
    ensures AsCache(Overwritten(p, p.hashmap[k], data), vec) == Stored(AsCache(p, vec), k, data)
  {
    var i := p.hashmap[k];
    OverwrittenOk(p, i, data);
    SameKeys(vec, p.frames, Overwritten(p, i, data).frames);
    forall j | j in p.hashmap ensures p.frames[p.hashmap[j]].key == j {}
    var q, c := AsCache(Overwritten(p, i, data), vec), Stored(AsCache(p, vec), k, data);
    assert q.mem == c.mem;
    assert q.dirty == c.dirty;
  }

  lemma {:induction false} SameKeys(vec: seq<nat>, a: seq<Frame>, b: seq<Frame>)
    requires |a| == |b| && forall i :: 0 <= i < |a| ==> a[i].key == b[i].key
    ensures KeysOf(vec, a) == KeysOf(vec, b)
  {
    if vec != [] { SameKeys(vec[1..], a, b); }
  }
}
