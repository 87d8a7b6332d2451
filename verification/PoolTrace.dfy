/** What a cache of five pages says about the log of a running system: the pages
    whose records are not on disk yet are cached, and between two such records of
    one page few other pages were used, unless that page was read in between. */
module PoolTraces {
  import opened Types
  import opened Lists
  import opened Pages
  import opened Wal
  import opened EngineDisk
  import opened Caches
  import opened RedoWindow

  // Page `key` was asked for, without a record, when the log had `at` records.
  datatype Reread = Reread(key: PageKey, at: nat)

  ghost predicate ReadBetween(rereads: set<Reread>, k: PageKey, a: nat, b: nat) {
    exists n :: a < n <= b && Reread(k, n) in rereads
  }

  // The pages with a record strictly between positions `a` and `b`.
  function KeysBetween(log: seq<LogRec>, a: nat, b: nat): set<PageKey>
    requires b <= |log|
  {
    set h | a < h < b && IsRowRec(log[h]) :: KeyOfRec(log[h])
  }

  // ---- the invariant ------------------------------------------------------

  ghost predicate MissingCached(keys: seq<PageKey>, log: seq<LogRec>, disk: PageMap) {
    forall i, k :: 0 <= i < |log| && Missing(log, i, disk, k) ==> k in keys
  }

  // Record `a` is the last one of page `k`.
  ghost predicate LastOn(log: seq<LogRec>, a: nat, k: PageKey) {
    a < |log| && OnPage(log[a], k) && forall g :: a < g < |log| ==> !OnPage(log[g], k)
  }

  /** Whoever has a record after the last one of a cached page is ahead of it in
      the list, unless that page was read since. */
  ghost predicate AheadAt(keys: seq<PageKey>, log: seq<LogRec>, rereads: set<Reread>, p: nat, a: nat)
    requires p < |keys|
  {
    LastOn(log, a, keys[p]) && !ReadBetween(rereads, keys[p], a, |log|) ==>
      forall h :: a < h < |log| && IsRowRec(log[h]) ==> KeyOfRec(log[h]) in keys[..p]
  }

  ghost predicate WindowsSmall(log: seq<LogRec>, disk: PageMap, rereads: set<Reread>) {
    forall a: nat, b: nat, k :: Neighbours(log, a, b, disk, k) && !ReadBetween(rereads, k, a, b) ==> |KeysBetween(log, a, b)| < BUFFER_SIZE
  }

  ghost predicate TraceInv(keys: seq<PageKey>, log: seq<LogRec>, disk: PageMap, rereads: set<Reread>) {
    && Distinct(keys) && |keys| <= BUFFER_SIZE
    && MissingCached(keys, log, disk)
    && (forall p, a :: 0 <= p < |keys| && 0 <= a ==> AheadAt(keys, log, rereads, p, a))
    && WindowsSmall(log, disk, rereads)
  }

  // ---- an access ----------------------------------------------------------

  /** Page `q` is asked for: it goes to the front, and a page that leaves the
      cache has all its records on disk. */
  ghost predicate AccessOf(keys: seq<PageKey>, keys': seq<PageKey>, log: seq<LogRec>, disk: PageMap, disk': PageMap, q: PageKey) {
    && keys' == Front(keys, q) && disk'.Keys == disk.Keys
    && (forall k :: k in disk ==> disk[k].lsn <= disk'[k].lsn)
    && (forall i, k :: 0 <= i < |log| && k in keys && k !in keys' ==> !Missing(log, i, disk', k))
  }

  lemma {:induction false} ErasedIs(keys: seq<PageKey>, q: PageKey) returns (i: nat)
    requires q in keys
    ensures i < |keys| && keys[i] == q && Erase(keys, q) == keys[..i] + keys[i + 1..]
  {
    if keys[0] == q {
      i := 0;
    } else {
      var j := ErasedIs(keys[1..], q);
      i := j + 1;
      assert keys[..i] == [keys[0]] + keys[1..][..j] && keys[i + 1..] == keys[1..][j + 1..];
    }
  }

  // Where a page of the new list was before; it has passed nobody.
  lemma FrontOrder(keys: seq<PageKey>, q: PageKey, p': nat) returns (p: nat)
    requires Distinct(keys) && 1 <= p' < |Front(keys, q)|
    ensures p < |keys| && keys[p] == Front(keys, q)[p']
    ensures forall x :: x in keys[..p] ==> x in Front(keys, q)[..p']
  {
    var f := Front(keys, q);
    assert f[0] == q && f[..p'][0] == q;
    p := p' - 1;
    if q in keys {
      var i := ErasedIs(keys, q);
      if p >= i { p := p'; }
      forall x | x in keys[..p] ensures x in f[..p'] {
        var j :| 0 <= j < p && keys[j] == x;
        if j < i { assert f[..p'][j + 1] == x; } else if j > i { assert f[..p'][j] == x; }
      }
    } else {
      forall x | x in keys[..p] ensures x in f[..p'] {
        var j :| 0 <= j < p && keys[j] == x;
        assert f[..p'][j + 1] == x;
      }
    }
  }

  lemma FrontFacts(keys: seq<PageKey>, q: PageKey)
    requires Distinct(keys) && |keys| <= BUFFER_SIZE
    ensures Distinct(Front(keys, q)) && 1 <= |Front(keys, q)| <= BUFFER_SIZE && Front(keys, q)[0] == q
    ensures q in keys ==> forall x :: x in keys ==> x in Front(keys, q)
  {
    if q in keys {
      FrontOfCached(keys, q);
    } else {
      var f := Front(keys, q);
      forall i, j | 0 <= i < j < |f| ensures f[i] != f[j] { assert f[j] == keys[j - 1]; }
    }
  }

  // After the access the rest of the list is as good as before.
  lemma AccessAhead(keys: seq<PageKey>, log: seq<LogRec>, rereads: set<Reread>, q: PageKey, p': nat, a: nat)
    requires Distinct(keys) && |keys| <= BUFFER_SIZE && 1 <= p' < |Front(keys, q)|
    requires forall p, b :: 0 <= p < |keys| && 0 <= b ==> AheadAt(keys, log, rereads, p, b)
    ensures AheadAt(Front(keys, q), log, rereads, p', a)
  {
    var p := FrontOrder(keys, q, p');
    assert AheadAt(keys, log, rereads, p, a);
  }

  lemma AccessMissing(keys: seq<PageKey>, keys': seq<PageKey>, log: seq<LogRec>, disk: PageMap, disk': PageMap, q: PageKey)
    requires MissingCached(keys, log, disk) && AccessOf(keys, keys', log, disk, disk', q)
    ensures MissingCached(keys', log, disk')
  {
    forall i, k | 0 <= i < |log| && Missing(log, i, disk', k) ensures k in keys' {
      assert Missing(log, i, disk, k);
    }
  }

  lemma AccessWindows(keys: seq<PageKey>, keys': seq<PageKey>, log: seq<LogRec>, disk: PageMap, disk': PageMap, rereads: set<Reread>, q: PageKey)
    requires WindowsSmall(log, disk, rereads) && AccessOf(keys, keys', log, disk, disk', q)
    ensures WindowsSmall(log, disk', rereads)
  {
    forall a: nat, b: nat, k | Neighbours(log, a, b, disk', k) && !ReadBetween(rereads, k, a, b) ensures |KeysBetween(log, a, b)| < BUFFER_SIZE {
      assert Neighbours(log, a, b, disk, k);
    }
  }

  /** Reading a page keeps the invariant; the read is remembered. */
  lemma ReadKeeps(keys: seq<PageKey>, keys': seq<PageKey>, log: seq<LogRec>, disk: PageMap, disk': PageMap, rereads: set<Reread>, q: PageKey)
    requires TraceInv(keys, log, disk, rereads) && AccessOf(keys, keys', log, disk, disk', q)
    ensures TraceInv(keys', log, disk', rereads + {Reread(q, |log|)})
  {
    var rereads' := rereads + {Reread(q, |log|)};
    FrontFacts(keys, q);
    AccessMissing(keys, keys', log, disk, disk', q);
    AccessWindows(keys, keys', log, disk, disk', rereads, q);
    forall k, a: nat, b: nat | ReadBetween(rereads, k, a, b) ensures ReadBetween(rereads', k, a, b) {
      var n :| a < n <= b && Reread(k, n) in rereads;
      assert Reread(k, n) in rereads';
    }
    forall p, a: nat | 0 <= p < |keys'| ensures AheadAt(keys', log, rereads', p, a) {
      if p == 0 {
        if a < |log| { assert a < |log| <= |log| && Reread(q, |log|) in rereads'; }
      } else {
        AccessAhead(keys, log, rereads, q, p, a);
      }
    }
  }

  // ---- a row record -------------------------------------------------------

  // The window that ends with the new record.
  lemma NewWindow(keys: seq<PageKey>, log: seq<LogRec>, disk: PageMap, disk': PageMap, rereads: set<Reread>, q: PageKey, r: LogRec, a: nat)
    requires TraceInv(keys, log, disk, rereads) && disk'.Keys == disk.Keys && forall k :: k in disk ==> disk[k].lsn <= disk'[k].lsn
    requires Neighbours(log + [r], a, |log|, disk', q) && !ReadBetween(rereads, q, a, |log|)
    ensures |KeysBetween(log + [r], a, |log|)| < BUFFER_SIZE
  {
    PrefixOfPush(log, r);
    assert Missing(log, a, disk, q);
    var p :| 0 <= p < |keys| && keys[p] == q;
    assert AheadAt(keys, log, rereads, p, a);
    assert LastOn(log, a, keys[p]) by {
      forall g | a < g < |log| ensures !OnPage(log[g], q) { assert (log + [r])[g] == log[g]; }
    }
    forall k | k in KeysBetween(log + [r], a, |log|) ensures k in keys[..p] {
      var h :| a < h < |log| && IsRowRec((log + [r])[h]) && KeyOfRec((log + [r])[h]) == k;
      assert (log + [r])[h] == log[h];
    }
    ListedCard(keys[..p], KeysBetween(log + [r], a, |log|));
  }

  lemma PushWindows(keys: seq<PageKey>, log: seq<LogRec>, disk: PageMap, disk': PageMap, rereads: set<Reread>, q: PageKey, r: LogRec)
    requires TraceInv(keys, log, disk, rereads) && disk'.Keys == disk.Keys && forall k :: k in disk ==> disk[k].lsn <= disk'[k].lsn
    requires IsRowRec(r) ==> KeyOfRec(r) == q
    ensures WindowsSmall(log + [r], disk', rereads)
  {
    PrefixOfPush(log, r);
    forall a: nat, b: nat, k | Neighbours(log + [r], a, b, disk', k) && !ReadBetween(rereads, k, a, b)
      ensures |KeysBetween(log + [r], a, b)| < BUFFER_SIZE
    {
      if b < |log| {
        OldWindow(log, r, disk, disk', k, a, b);
      } else {
        assert OnPage(r, k);
        NewWindow(keys, log, disk, disk', rereads, q, r, a);
      }
    }
  }

  lemma OldWindow(log: seq<LogRec>, r: LogRec, disk: PageMap, disk': PageMap, k: PageKey, a: nat, b: nat)
    requires Neighbours(log + [r], a, b, disk', k) && b < |log|
    requires disk'.Keys == disk.Keys && forall j :: j in disk ==> disk[j].lsn <= disk'[j].lsn
    ensures Neighbours(log, a, b, disk, k) && KeysBetween(log + [r], a, b) == KeysBetween(log, a, b)
  {
    PrefixOfPush(log, r);
    forall h | a <= h <= b ensures (log + [r])[h] == log[h] {}
    assert Missing(log, a, disk, k) && Missing(log, b, disk, k);
  }

  lemma PushAhead(keys: seq<PageKey>, log: seq<LogRec>, rereads: set<Reread>, r: LogRec, p: nat, a: nat)
    requires p < |keys| && AheadAt(keys, log, rereads, p, a) && !OnPage(r, keys[p])
    requires IsRowRec(r) ==> KeyOfRec(r) in keys[..p]
    ensures AheadAt(keys, log + [r], rereads, p, a)
  {
    PrefixOfPush(log, r);
    var l := log + [r];
    if LastOn(l, a, keys[p]) && !ReadBetween(rereads, keys[p], a, |l|) {
      assert a < |log|;
      forall g | a < g < |log| ensures !OnPage(log[g], keys[p]) { assert l[g] == log[g]; }
      forall n | a < n <= |log| ensures Reread(keys[p], n) !in rereads {}
      forall h | a < h < |l| && IsRowRec(l[h]) ensures KeyOfRec(l[h]) in keys[..p] {
        if h < |log| { assert l[h] == log[h]; }
      }
    }
  }

  /** A row operation asks for its page and logs a record. */
  lemma RowKeeps(keys: seq<PageKey>, keys': seq<PageKey>, log: seq<LogRec>, disk: PageMap, disk': PageMap, rereads: set<Reread>, q: PageKey, r: LogRec)
    requires TraceInv(keys, log, disk, rereads) && AccessOf(keys, keys', log, disk, disk', q) && OnPage(r, q)
    ensures TraceInv(keys', log + [r], disk', rereads)
  {
    PrefixOfPush(log, r);
    FrontFacts(keys, q);
    AccessMissing(keys, keys', log, disk, disk', q);
    PushWindows(keys, log, disk, disk', rereads, q, r);
    forall i, k | 0 <= i < |log| + 1 && Missing(log + [r], i, disk', k) ensures k in keys' {
      if i < |log| { assert Missing(log, i, disk', k); }
    }
    forall p, a: nat | 0 <= p < |keys'| ensures AheadAt(keys', log + [r], rereads, p, a) {
      if p == 0 {
        if a < |log| { assert OnPage((log + [r])[|log|], keys'[0]); }
      } else {
        AccessAhead(keys, log, rereads, q, p, a);
        assert keys'[..p][0] == q;
        PushAhead(keys', log, rereads, r, p, a);
      }
    }
  }

  // ---- any other record ---------------------------------------------------

  lemma OtherKeeps(keys: seq<PageKey>, log: seq<LogRec>, disk: PageMap, rereads: set<Reread>, r: LogRec)
    requires TraceInv(keys, log, disk, rereads) && !IsRowRec(r)
    ensures TraceInv(keys, log + [r], disk, rereads)
  {
    PrefixOfPush(log, r);
    PushWindows(keys, log, disk, disk, rereads, PageKey(0, 0), r);
    forall i, k | 0 <= i < |log| + 1 && Missing(log + [r], i, disk, k) ensures k in keys {
      if i < |log| { assert Missing(log, i, disk, k); }
    }
    forall p, a: nat | 0 <= p < |keys| ensures AheadAt(keys, log + [r], rereads, p, a) {
      PushAhead(keys, log, rereads, r, p, a);
    }
  }

  lemma {:induction false} OthersKeep(keys: seq<PageKey>, log: seq<LogRec>, more: seq<LogRec>, disk: PageMap, rereads: set<Reread>)
    requires TraceInv(keys, log, disk, rereads) && forall i :: 0 <= i < |more| ==> !IsRowRec(more[i])
    ensures TraceInv(keys, log + more, disk, rereads)
  {
    if more == [] {
      assert log + more == log;
    } else {
      var n := |more| - 1;
      OthersKeep(keys, log, more[..n], disk, rereads);
      OtherKeeps(keys, log + more[..n], disk, rereads, more[n]);
      assert log + more[..n] + [more[n]] == log + more;
    }
  }

  // More reads known of are no harm.
  lemma MoreRereads(keys: seq<PageKey>, log: seq<LogRec>, disk: PageMap, a: set<Reread>, b: set<Reread>)
    requires TraceInv(keys, log, disk, a) && a <= b
    ensures TraceInv(keys, log, disk, b)
  {
    forall k, i: nat, j: nat | ReadBetween(a, k, i, j) ensures ReadBetween(b, k, i, j) {
      var n :| i < n <= j && Reread(k, n) in a;
    }
    forall p, i: nat | 0 <= p < |keys| ensures AheadAt(keys, log, b, p, i) {
      assert AheadAt(keys, log, a, p, i);
    }
  }

  // An access after a record of another page that stays cached.
  lemma AccessAfter(keys: seq<PageKey>, keys': seq<PageKey>, log: seq<LogRec>, disk: PageMap, disk': PageMap, q: PageKey, r: LogRec, k: PageKey)
    requires AccessOf(keys, keys', log, disk, disk', q) && OnPage(r, k) && k in keys'
    ensures AccessOf(keys, keys', log + [r], disk, disk', q)
  {
    PrefixOfPush(log, r);
    forall i, j | 0 <= i < |log| + 1 && j in keys && j !in keys' ensures !Missing(log + [r], i, disk', j) {
      if i < |log| { assert !Missing(log, i, disk', j); }
    }
  }

  // The page used last is not the next to go.
  lemma FirstStays(keys: seq<PageKey>, q: PageKey)
    requires Distinct(keys) && 1 <= |keys| <= BUFFER_SIZE
    ensures keys[0] in Front(keys, q)
  {
    FrontFacts(keys, q);
    if q !in keys { assert Front(keys, q)[1] == keys[0]; }
  }
}
