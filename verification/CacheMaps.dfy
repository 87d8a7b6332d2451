/** Looking at every page of a cache through a function commutes with what the
    cache does. */
module CacheMaps {
  import opened Types
  import opened Caches

  function MapPages<P, Q>(f: P -> Q, m: map<PageKey, P>): map<PageKey, Q> {
    map k | k in m :: f(m[k])
  }

  function MapCache<P, Q>(f: P -> Q, c: Cache<P>): Cache<Q> {
    Cache(c.keys, MapPages(f, c.mem), c.dirty, MapPages(f, c.disk))
  }

  lemma MapView<P, Q>(f: P -> Q, c: Cache<P>)
    ensures View(MapCache(f, c)) == MapPages(f, View(c))
  {
  }

  lemma MapOk<P, Q>(f: P -> Q, c: Cache<P>)
    requires CacheOk(c)
    ensures CacheOk(MapCache(f, c))
  {
  }

  lemma MapEvicted<P, Q>(f: P -> Q, c: Cache<P>)
    requires c.keys != []
    ensures MapCache(f, Evicted(c)) == Evicted(MapCache(f, c))
  {
    var a, b := MapCache(f, Evicted(c)), Evicted(MapCache(f, c));
    assert a.mem == b.mem;
    assert a.disk == b.disk;
  }

  lemma MapEntered<P, Q>(f: P -> Q, c: Cache<P>, k: PageKey)
    requires k in c.disk
    ensures MapCache(f, Entered(c, k)) == Entered(MapCache(f, c), k)
  {
    assert MapCache(f, Entered(c, k)).mem == Entered(MapCache(f, c), k).mem;
  }

  lemma MapFetched<P, Q>(f: P -> Q, c: Cache<P>, k: PageKey)
    requires k in View(c)
    ensures k in View(MapCache(f, c)) && MapCache(f, Fetched(c, k)) == Fetched(MapCache(f, c), k)
    ensures WrittenBack(MapCache(f, c), k) == WrittenBack(c, k)
  {
    MapView(f, c);
    if k !in c.keys {
      if Full(c) { MapEvicted(f, c); }
      if k in Roomy(c).disk { MapEntered(f, Roomy(c), k); }
    }
  }

  lemma MapStored<P, Q>(f: P -> Q, c: Cache<P>, k: PageKey, p: P)
    ensures MapCache(f, Stored(c, k, p)) == Stored(MapCache(f, c), k, f(p))
  {
    assert MapCache(f, Stored(c, k, p)).mem == Stored(MapCache(f, c), k, f(p)).mem;
  }

  lemma MapUpdated<P, Q>(f: P -> Q, m: map<PageKey, P>, k: PageKey, p: P)
    ensures MapPages(f, m[k := p]) == MapPages(f, m)[k := f(p)]
  {
  }
}
