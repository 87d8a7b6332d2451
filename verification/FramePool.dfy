/** The frames of the buffer pool as a value: which page is in which frame, what
    was last written to each page, and the list of frames by last access. */
module FramePools {
  import opened Types
  import opened Lists
  import opened Bytes
  import opened Lru
  import opened Caches

  // ---- the pool as a value ------------------------------------------------

  datatype Frame = Frame(key: PageKey, data: bytes, dirty: bool)

  datatype Pool = Pool(frames: seq<Frame>, hashmap: map<PageKey, nat>, disk: map<PageKey, bytes>)

  /** At most five frames, and the map is a bijection between the cached keys
      and the frames. */
  ghost predicate PoolOk(p: Pool) {
    && |p.frames| <= BUFFER_SIZE
    && (forall i :: 0 <= i < |p.frames| ==> p.frames[i].key in p.hashmap && p.hashmap[p.frames[i].key] == i)
    && (forall k :: k in p.hashmap ==> p.hashmap[k] < |p.frames| && p.frames[p.hashmap[k]].key == k)
    && (forall i :: 0 <= i < |p.frames| ==> |p.frames[i].data| == DB_PAGE_SIZE)
    && (forall k :: k in p.disk ==> |p.disk[k]| == DB_PAGE_SIZE)
  }

  // A page that is not marked dirty is as it is on disk.
  predicate FrameSynced(p: Pool, i: nat)
    requires i < |p.frames|
  {
    p.frames[i].dirty || (p.frames[i].key in p.disk && p.disk[p.frames[i].key] == p.frames[i].data)
  }

  ghost predicate Synced(p: Pool) {
    forall i :: 0 <= i < |p.frames| ==> FrameSynced(p, i)
  }

  // Every page but this one is as on disk or marked dirty.
  ghost predicate OthersSynced(p: Pool, k: PageKey) {
    k in p.hashmap && forall i :: 0 <= i < |p.frames| && i != p.hashmap[k] ==> FrameSynced(p, i)
  }

  predicate InFrame(p: Pool, k: PageKey) { k in p.hashmap && p.hashmap[k] < |p.frames| }

  // What was last written to each page, cached or not.
  function Contents(p: Pool): map<PageKey, bytes> {
    map k | k in p.disk.Keys + p.hashmap.Keys && (InFrame(p, k) || k in p.disk) ::
      if InFrame(p, k) then p.frames[p.hashmap[k]].data else p.disk[k]
  }

  // The frame's page goes to disk if it is dirty, and is no longer mapped.
  function FlushFrame(p: Pool, i: nat): Pool
    requires i < |p.frames|
  {
    var f := p.frames[i];
    p.(disk := if f.dirty then p.disk[f.key := f.data] else p.disk, hashmap := p.hashmap - {f.key})
  }

  function Replace(p: Pool, i: nat, f: Frame): Pool
    requires i < |p.frames|
  {
    p.(frames := p.frames[i := f], hashmap := p.hashmap[f.key := i])
  }

  function AddFrame(p: Pool, f: Frame): Pool {
    p.(frames := p.frames + [f], hashmap := p.hashmap[f.key := |p.frames|])
  }

  lemma ReplaceOk(p: Pool, i: nat, f: Frame)
    requires PoolOk(p) && i < |p.frames| && f.key !in p.hashmap && |f.data| == DB_PAGE_SIZE
    ensures PoolOk(Replace(FlushFrame(p, i), i, f))
  {
    var q := Replace(FlushFrame(p, i), i, f);
    forall j | 0 <= j < |q.frames| ensures q.frames[j].key in q.hashmap && q.hashmap[q.frames[j].key] == j {
      assert p.frames[j].key in p.hashmap && p.hashmap[p.frames[j].key] == j;
    }
    forall k | k in q.hashmap ensures q.hashmap[k] < |q.frames| && q.frames[q.hashmap[k]].key == k {
      if k != f.key { assert p.hashmap[k] < |p.frames| && p.frames[p.hashmap[k]].key == k; }
    }
  }

  lemma ReplaceAt(p: Pool, i: nat, f: Frame, k: PageKey)
    requires i < |p.frames| && f.key !in p.hashmap
    requires PoolOk(p) && PoolOk(Replace(FlushFrame(p, i), i, f)) && FrameSynced(p, i)
    ensures var a, b := Contents(Replace(FlushFrame(p, i), i, f)), Contents(p)[f.key := f.data];
      (k in a <==> k in b) && (k in a ==> a[k] == b[k])
  {
    var q, e := Replace(FlushFrame(p, i), i, f), p.frames[i];
    assert p.hashmap[e.key] == i;
    if k != f.key && k != e.key && k in p.hashmap {
      assert p.frames[p.hashmap[k]].key == k && p.hashmap[k] != i;
      assert q.hashmap[k] == p.hashmap[k] && q.frames[p.hashmap[k]] == p.frames[p.hashmap[k]];
    }
  }

  /** Evicting a page for another one loses nothing: every other page reads as
      before, and the new one as given. */
  lemma ReplaceFacts(p: Pool, i: nat, f: Frame)
    requires PoolOk(p) && Synced(p) && i < |p.frames| && f.key !in p.hashmap && |f.data| == DB_PAGE_SIZE
    ensures var q := Replace(FlushFrame(p, i), i, f);
      && PoolOk(q) && Contents(q) == Contents(p)[f.key := f.data]
      && (forall j :: 0 <= j < |q.frames| && j != i ==> FrameSynced(q, j))
  {
    var q := Replace(FlushFrame(p, i), i, f);
    ReplaceOk(p, i, f);
    assert FrameSynced(p, i);
    forall k ensures var a, b := Contents(q), Contents(p)[f.key := f.data];
      (k in a <==> k in b) && (k in a ==> a[k] == b[k])
    {
      ReplaceAt(p, i, f, k);
    }
    forall j | 0 <= j < |q.frames| && j != i ensures FrameSynced(q, j) {
      assert FrameSynced(p, j) && p.hashmap[p.frames[j].key] == j && p.hashmap[p.frames[i].key] == i;
    }
  }

  lemma AddOk(p: Pool, f: Frame)
    requires PoolOk(p) && |p.frames| < BUFFER_SIZE && f.key !in p.hashmap && |f.data| == DB_PAGE_SIZE
    ensures PoolOk(AddFrame(p, f))
  {
    var q := AddFrame(p, f);
    forall j | 0 <= j < |q.frames| ensures q.frames[j].key in q.hashmap && q.hashmap[q.frames[j].key] == j {
      if j < |p.frames| { assert p.frames[j].key in p.hashmap && p.hashmap[p.frames[j].key] == j; }
    }
    forall k | k in q.hashmap ensures q.hashmap[k] < |q.frames| && q.frames[q.hashmap[k]].key == k {
      if k != f.key { assert p.hashmap[k] < |p.frames| && p.frames[p.hashmap[k]].key == k; }
    }
  }

  lemma AddAt(p: Pool, f: Frame, k: PageKey)
    requires PoolOk(p) && PoolOk(AddFrame(p, f)) && f.key !in p.hashmap
    ensures var a, b := Contents(AddFrame(p, f)), Contents(p)[f.key := f.data];
      (k in a <==> k in b) && (k in a ==> a[k] == b[k])
  {
  }

  lemma AddFacts(p: Pool, f: Frame)
    requires PoolOk(p) && Synced(p) && |p.frames| < BUFFER_SIZE && f.key !in p.hashmap && |f.data| == DB_PAGE_SIZE
    ensures var q := AddFrame(p, f);
      && PoolOk(q) && Contents(q) == Contents(p)[f.key := f.data]
      && (forall j :: 0 <= j < |p.frames| ==> FrameSynced(q, j))
  {
    var q := AddFrame(p, f);
    AddOk(p, f);
    forall k ensures var a, b := Contents(q), Contents(p)[f.key := f.data];
      (k in a <==> k in b) && (k in a ==> a[k] == b[k])
    {
      AddAt(p, f, k);
    }
    forall j | 0 <= j < |p.frames| ensures FrameSynced(q, j) { assert FrameSynced(p, j); }
  }

  function Overwritten(p: Pool, i: nat, data: bytes): Pool
    requires i < |p.frames|
  {
    p.(frames := p.frames[i := Frame(p.frames[i].key, data, true)])
  }

  lemma OverwrittenOk(p: Pool, i: nat, data: bytes)
    requires PoolOk(p) && i < |p.frames| && |data| == DB_PAGE_SIZE
    ensures PoolOk(Overwritten(p, i, data))
  {
    var q := Overwritten(p, i, data);
    forall k | k in q.hashmap ensures q.hashmap[k] < |q.frames| && q.frames[q.hashmap[k]].key == k {
      assert p.hashmap[k] < |p.frames| && p.frames[p.hashmap[k]].key == k;
    }
  }

  lemma OverwrittenAt(p: Pool, i: nat, data: bytes, k: PageKey)
    requires i < |p.frames| && PoolOk(p) && PoolOk(Overwritten(p, i, data))
    ensures var a, b := Contents(Overwritten(p, i, data)), Contents(p)[p.frames[i].key := data];
      (k in a <==> k in b) && (k in a ==> a[k] == b[k])
  {
    if k in p.hashmap { assert p.frames[p.hashmap[k]].key == k; }
  }

  /** Writing through a cached page, marking it dirty, changes that page of the
      store and no other. */
  lemma WriteFacts(p: Pool, i: nat, data: bytes)
    requires PoolOk(p) && i < |p.frames| && |data| == DB_PAGE_SIZE
    requires forall j :: 0 <= j < |p.frames| && j != i ==> FrameSynced(p, j)
    ensures var q := Overwritten(p, i, data);
      PoolOk(q) && Synced(q) && Contents(q) == Contents(p)[p.frames[i].key := data]
  {
    var q := Overwritten(p, i, data);
    OverwrittenOk(p, i, data);
    forall j | 0 <= j < |q.frames| ensures FrameSynced(q, j) {
      if j != i { assert FrameSynced(p, j); }
    }
    forall k ensures var a, b := Contents(q), Contents(p)[p.frames[i].key := data];
      (k in a <==> k in b) && (k in a ==> a[k] == b[k])
    {
      OverwrittenAt(p, i, data, k);
    }
  }

  // ---- the list of frames -------------------------------------------------

  // The frame accessed longest ago.
  function Last(vec: seq<nat>): nat { if vec == [] then 0 else vec[|vec| - 1] }

  /** The list of frames: all the frames in use, before any that are not. */
  ghost predicate Tracks(vec: seq<nat>, n: nat) {
    && Distinct<nat>(vec)
    && (forall f :: 0 <= f < n ==> f in vec)
    && (forall a :: 0 <= a < |vec| ==> vec[a] < BUFFER_SIZE)
    && (forall a, b :: 0 <= a < b < |vec| && vec[b] < n ==> vec[a] < n)
  }

  lemma AccessTracks(vec: seq<nat>, n: nat, f: nat)
    requires Tracks(vec, n) && f <= n && f < BUFFER_SIZE && n <= BUFFER_SIZE
    ensures Tracks([f] + Erase<nat>(vec, f), if f == n then n + 1 else n)
  {
    EraseFacts<nat>(vec, f);
    var e := Erase<nat>(vec, f);
    var v := [f] + e;
    EraseOrder(vec, f, n);
    forall g | 0 <= g < (if f == n then n + 1 else n) ensures g in v {
      if g != f { assert g in e; }
    }
    forall a | 0 <= a < |v| ensures v[a] < BUFFER_SIZE {
      if a > 0 { assert v[a] in e && v[a] in vec; }
    }
  }

  lemma {:induction false} EraseOrder(vec: seq<nat>, f: nat, n: nat)
    requires Distinct<nat>(vec) && forall a, b :: 0 <= a < b < |vec| && vec[b] < n ==> vec[a] < n
    ensures var e := Erase<nat>(vec, f);
      forall a, b :: 0 <= a < b < |e| && e[b] < n ==> e[a] < n
    ensures f == n ==> var e := Erase<nat>(vec, f);
      forall a, b :: 0 <= a < b < |e| && e[b] <= n ==> e[a] <= n
  {
    if vec != [] && vec[0] != f {
      EraseOrder(vec[1..], f, n);
      EraseFacts<nat>(vec[1..], f);
      var e := Erase<nat>(vec, f);
      forall a, b | 0 <= a < b < |e| && e[b] < n ensures e[a] < n {
        if a == 0 {
          assert e[b] in Erase<nat>(vec[1..], f) && e[b] in vec[1..];
          var c :| 0 <= c < |vec[1..]| && vec[1..][c] == e[b];
          assert vec[c + 1] < n;
        }
      }
      if f == n {
        forall a, b | 0 <= a < b < |e| && e[b] <= n ensures e[a] <= n {
          assert e[b] in e;
          EraseFacts<nat>(vec, f);
        }
      }
    }
  }

  // Moving the last of a full list to its front keeps the list full.
  lemma RotatedTracks(vec: seq<nat>)
    requires Tracks(vec, BUFFER_SIZE) && vec != []
    ensures Tracks([vec[|vec| - 1]] + vec[..|vec| - 1], BUFFER_SIZE)
  {
    var n := |vec| - 1;
    var v := [vec[n]] + vec[..n];
    forall g | 0 <= g < BUFFER_SIZE ensures g in v {
      assert g in vec;
      var i :| 0 <= i < |vec| && vec[i] == g;
      if i < n { assert v[i + 1] == g; }
    }
  }

  // The evicted frame is accessed again at once, for its new page.
  lemma EvictTracks(vec: seq<nat>)
    requires Tracks(vec, BUFFER_SIZE)
    ensures vec != [] && vec[|vec| - 1] < BUFFER_SIZE
    ensures var f := vec[|vec| - 1]; Tracks([f] + Erase<nat>(vec[..|vec| - 1], f), BUFFER_SIZE)
  {
    assert 0 in vec;
    NotErased(vec[..|vec| - 1], vec[|vec| - 1]);
    RotatedTracks(vec);
  }

  // Evicting the last frame and accessing it again moves it to the front.
  lemma RotatesLast(vec: seq<nat>)
    requires vec != [] && Distinct<nat>(vec)
    ensures var n := |vec| - 1; Erase<nat>(vec[..n], vec[n]) == Erase<nat>(vec, vec[n])
  {
    EraseLast<nat>(vec);
    NotErased(vec[..|vec| - 1], vec[|vec| - 1]);
  }

  // Both steps of an eviction on the list.
  lemma EvictedList(vec: seq<nat>)
    requires Tracks(vec, BUFFER_SIZE)
    ensures vec != [] && Last(vec) == vec[|vec| - 1] && Last(vec) < BUFFER_SIZE
    ensures Erase<nat>(vec[..|vec| - 1], Last(vec)) == Erase<nat>(vec, Last(vec))
    ensures Tracks([Last(vec)] + Erase<nat>(vec, Last(vec)), BUFFER_SIZE)
  {
    EvictTracks(vec);
    RotatesLast(vec);
  }

  lemma {:induction false} NotErased(s: seq<nat>, x: nat)
    requires x !in s
    ensures Erase<nat>(s, x) == s
  {
    if s != [] { NotErased(s[1..], x); }
  }

  // The first `n` frames are written and no longer mapped, the others untouched.
  ghost predicate FlushedTo(p: Pool, n: nat, hashmap: map<PageKey, nat>, disk: map<PageKey, bytes>)
    requires n <= |p.frames| && forall k :: k in p.hashmap ==> p.hashmap[k] < |p.frames|
  {
    && (forall k :: k in hashmap <==> k in p.hashmap && p.hashmap[k] >= n)
    && (forall k :: k in p.hashmap && p.hashmap[k] < n ==> k in disk && disk[k] == p.frames[p.hashmap[k]].data)
    && (forall k :: !(k in p.hashmap && p.hashmap[k] < n) ==> (k in disk <==> k in p.disk) && (k in disk ==> disk[k] == p.disk[k]))
  }

  lemma FlushedOneMore(p: Pool, n: nat, hashmap: map<PageKey, nat>, disk: map<PageKey, bytes>)
    requires PoolOk(p) && Synced(p) && n < |p.frames| && FlushedTo(p, n, hashmap, disk)
    ensures var f := p.frames[n];
      FlushedTo(p, n + 1, hashmap - {f.key}, if f.dirty then disk[f.key := f.data] else disk)
  {
    var f := p.frames[n];
    assert FrameSynced(p, n) && p.hashmap[f.key] == n;
    forall k | k in p.hashmap && p.hashmap[k] == n ensures k == f.key {
      assert p.frames[p.hashmap[k]].key == k;
    }
  }

  lemma FlushedAll(p: Pool, hashmap: map<PageKey, nat>, disk: map<PageKey, bytes>)
    requires PoolOk(p) && FlushedTo(p, |p.frames|, hashmap, disk)
    ensures hashmap == map[] && disk == Contents(p)
  {
    var c := Contents(p);
    forall k ensures (k in disk <==> k in c) && (k in disk ==> disk[k] == c[k]) {}
    assert disk == c;
  }
}
