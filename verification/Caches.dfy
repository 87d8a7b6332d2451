/** A least-recently-used cache of five pages in front of a disk, as a value:
    what a page access evicts and writes back, and what the layers above see. */
module Caches {
  import opened Types
  import opened Lists

  /** `keys` lists the cached pages, the most recently used first; `mem` holds
      their contents; `dirty` ones may differ from the disk. */
  datatype Cache<P> = Cache(keys: seq<PageKey>, mem: map<PageKey, P>, dirty: set<PageKey>, disk: map<PageKey, P>)

  ghost predicate CacheOk<P>(c: Cache<P>) {
    && |c.keys| <= BUFFER_SIZE && Distinct(c.keys)
    && (forall k :: k in c.mem <==> k in c.keys)
    && c.dirty <= c.mem.Keys
    && (forall k :: k in c.mem && k !in c.dirty ==> k in c.disk && c.disk[k] == c.mem[k])
  }

  // What was last written to each page, cached or not.
  function View<P>(c: Cache<P>): map<PageKey, P> {
    c.disk + c.mem
  }

  predicate Full<P>(c: Cache<P>) { |c.keys| >= BUFFER_SIZE }

  // The page that was used longest ago.
  function Oldest<P>(c: Cache<P>): PageKey
    requires c.keys != []
  {
    c.keys[|c.keys| - 1]
  }

  // The oldest page leaves the cache, through the disk if it is dirty.
  function Evicted<P>(c: Cache<P>): Cache<P>
    requires c.keys != []
  {
    var v := Oldest(c);
    Cache(c.keys[..|c.keys| - 1], c.mem - {v}, c.dirty - {v}, if v in c.dirty && v in c.mem then c.disk[v := c.mem[v]] else c.disk)
  }

  // The pages that have to be written to disk when `k` is asked for: at most one.
  function WrittenBack<P>(c: Cache<P>, k: PageKey): set<PageKey> {
    if k !in c.keys && Full(c) && Oldest(c) in c.dirty then {Oldest(c)} else {}
  }

  // A page just read from disk takes the front of the list.
  function Entered<P>(c: Cache<P>, k: PageKey): Cache<P>
    requires k in c.disk
  {
    c.(keys := [k] + c.keys, mem := c.mem[k := c.disk[k]])
  }

  function Roomy<P>(c: Cache<P>): Cache<P> {
    if Full(c) then Evicted(c) else c
  }

  /** The cache after page `k` was asked for. */
  function Fetched<P>(c: Cache<P>, k: PageKey): Cache<P>
    requires k in View(c)
  {
    if k in c.keys then c.(keys := [k] + Erase(c.keys, k))
    else if k in Roomy(c).disk then Entered(Roomy(c), k)
    else c
  }

  // The cache after a write through the page just fetched.
  function Stored<P>(c: Cache<P>, k: PageKey, p: P): Cache<P> {
    c.(mem := c.mem[k := p], dirty := c.dirty + {k})
  }

  lemma EvictedFacts<P>(c: Cache<P>)
    requires CacheOk(c) && c.keys != []
    ensures CacheOk(Evicted(c)) && View(Evicted(c)) == View(c)
  {
    var e := Evicted(c);
    var v := Oldest(c);
    forall k ensures k in e.mem <==> k in e.keys {
      if k in c.keys && k != v {
        var i :| 0 <= i < |c.keys| && c.keys[i] == k;
        assert e.keys[i] == k;
      }
    }
    assert v in c.mem;
  }

  lemma TouchedFacts<P>(c: Cache<P>, k: PageKey)
    requires CacheOk(c) && k in c.keys
    ensures CacheOk(c.(keys := [k] + Erase(c.keys, k)))
  {
    EraseFacts(c.keys, k);
  }

  lemma EnteredFacts<P>(c: Cache<P>, k: PageKey)
    requires CacheOk(c) && !Full(c) && k !in c.keys && k in c.disk
    ensures CacheOk(Entered(c, k)) && View(Entered(c, k)) == View(c)
  {
    var e := Entered(c, k);
    assert forall j :: j in e.keys <==> j == k || j in c.keys;
  }

  /** Asking for a page changes nothing that anyone reads, whatever it evicts;
      afterwards the page is cached, and it is the last to be evicted. */
  lemma FetchedFacts<P>(c: Cache<P>, k: PageKey)
    requires CacheOk(c) && k in View(c)
    ensures CacheOk(Fetched(c, k)) && View(Fetched(c, k)) == View(c)
    ensures k in Fetched(c, k).mem && Fetched(c, k).mem[k] == View(c)[k]
    ensures Fetched(c, k).keys != [] && Fetched(c, k).keys[0] == k
  {
    if k in c.keys {
      TouchedFacts(c, k);
    } else {
      if Full(c) { EvictedFacts(c); }
      var r := Roomy(c);
      assert k in View(r) && k !in r.mem;
      EnteredFacts(r, k);
    }
  }

  // The list of cached pages after an access to `k`.
  function Front(keys: seq<PageKey>, k: PageKey): seq<PageKey> {
    if k in keys then [k] + Erase(keys, k)
    else if |keys| >= BUFFER_SIZE then [k] + keys[..|keys| - 1]
    else [k] + keys
  }

  lemma FetchedKeys<P>(c: Cache<P>, k: PageKey)
    requires CacheOk(c) && k in View(c)
    ensures Fetched(c, k).keys == Front(c.keys, k)
  {
    if k !in c.keys {
      if Full(c) { EvictedFacts(c); }
      assert k in View(Roomy(c)) && k !in Roomy(c).mem;
    }
  }

  lemma FetchedDirty<P>(c: Cache<P>, k: PageKey)
    requires CacheOk(c) && k in View(c)
    ensures Fetched(c, k).dirty == c.dirty - WrittenBack(c, k)
  {
    if k !in c.keys {
      if Full(c) {
        EvictedFacts(c);
        if Oldest(c) !in c.dirty { assert c.dirty - {Oldest(c)} == c.dirty; }
      }
      assert k in View(Roomy(c)) && k !in Roomy(c).mem;
    }
  }

  lemma FetchedDisk<P>(c: Cache<P>, k: PageKey)
    requires CacheOk(c) && k in View(c)
    ensures Fetched(c, k).disk == c.disk + map v | v in WrittenBack(c, k) && v in c.mem :: c.mem[v]
  {
    if k !in c.keys {
      if Full(c) { EvictedFacts(c); }
      assert k in View(Roomy(c)) && k !in Roomy(c).mem;
    }
  }

  lemma StoredFacts<P>(c: Cache<P>, k: PageKey, p: P)
    requires CacheOk(c) && k in c.mem
    ensures CacheOk(Stored(c, k, p)) && View(Stored(c, k, p)) == View(c)[k := p]
  {
  }
}
