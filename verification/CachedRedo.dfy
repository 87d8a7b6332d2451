/** Redo through the page cache.  Asking for a page may write another one back,
    that erases its dirty-page entry, and redo passes over every record whose
    page has no entry. */
module CachedRedo {
  import opened Types
  import opened Pages
  import opened Wal
  import opened Replay
  import opened EngineDisk
  import opened Recovery
  import opened Caches

  datatype Redoing = Redoing(cache: Cache<Page>, dpt: map<PageKey, Lsn>)

  // Redo asks for the page of this record.
  predicate Asks(r: LogRec, dpt: map<PageKey, Lsn>) {
    IsRowRec(r) && KeyOfRec(r) in dpt && r.lsn >= dpt[KeyOfRec(r)]
  }

  function RedoStep(r: LogRec, s: Redoing): Redoing {
    if Asks(r, s.dpt) && KeyOfRec(r) in View(s.cache) then
      var k := KeyOfRec(r);
      var c := Fetched(s.cache, k);
      var p := View(s.cache)[k];
      Redoing(if r.lsn > p.lsn then Stored(c, k, p.(recs := ApplyRecs(p.recs, r))) else c, s.dpt - WrittenBack(s.cache, k))
    else s
  }

  // The records from `i` up to `n`.
  function RedoTo(log: seq<LogRec>, i: nat, n: nat, s: Redoing): Redoing
    requires i <= n <= |log|
  {
    if i == n then s else RedoStep(log[n - 1], RedoTo(log, i, n - 1, s))
  }

  lemma RedoToNext(log: seq<LogRec>, i: nat, n: nat, s: Redoing)
    requires i <= n < |log|
    ensures RedoTo(log, i, n + 1, s) == RedoStep(log[n], RedoTo(log, i, n, s))
  {
  }

  // Restart: nothing is cached.
  function Cold(disk: PageMap): Cache<Page> {
    Cache([], map[], {}, disk)
  }

  /** One record changes the pages like redo over a page map does, with the
      entries that are left. */
  lemma RedoStepView(r: LogRec, s: Redoing)
    requires CacheOk(s.cache)
    ensures CacheOk(RedoStep(r, s).cache)
    ensures View(RedoStep(r, s).cache) == RedoRec(r, s.dpt, View(s.cache))
  {
    if Asks(r, s.dpt) && KeyOfRec(r) in View(s.cache) {
      var k := KeyOfRec(r);
      var p := View(s.cache)[k];
      FetchedFacts(s.cache, k);
      StoredFacts(Fetched(s.cache, k), k, p.(recs := ApplyRecs(p.recs, r)));
    }
  }

  // ---- the pages ----------------------------------------------------------

  /** How many of the first `n` records redo looks at before the entry of `k`
      is gone. */
  function Cut(log: seq<LogRec>, i: nat, n: nat, s: Redoing, k: PageKey): (e: nat)
    requires i <= n <= |log|
    ensures i <= e <= n
  {
    if n == i || k !in s.dpt || k in RedoTo(log, i, n - 1, s).dpt then n else Cut(log, i, n - 1, s, k)
  }

  // What is known of one page while redo runs.
  ghost predicate PageAt(base: PageMap, log: seq<LogRec>, i: nat, n: nat, s: Redoing, disk: PageMap, k: PageKey, m: nat)
    requires i <= n <= |log| && m <= |log|
  {
    var t := RedoTo(log, i, n, s);
    && CacheOk(t.cache)
    && (k in t.dpt ==> k in s.dpt && t.dpt[k] == s.dpt[k])
    && k in disk && k in View(t.cache) && View(t.cache)[k].lsn == disk[k].lsn
    && View(t.cache)[k].recs == After(base, log, Max(Cut(log, i, n, s, k), m), k)
  }

  lemma CutStep(log: seq<LogRec>, i: nat, n: nat, s: Redoing, k: PageKey)
    requires i < n <= |log|
    ensures k !in RedoTo(log, i, n - 1, s).dpt && k in s.dpt ==> Cut(log, i, n, s, k) == Cut(log, i, n - 1, s, k)
    ensures k in RedoTo(log, i, n - 1, s).dpt || k !in s.dpt ==> Cut(log, i, n, s, k) == n
    ensures k in RedoTo(log, i, n - 1, s).dpt ==> Cut(log, i, n - 1, s, k) == n - 1
  {
    if i < n - 1 && k in RedoTo(log, i, n - 1, s).dpt {
      EntriesShrink(log, i, n - 2, n - 1, s, k);
    }
  }

  // An entry that is gone stays gone.
  lemma {:induction false} EntriesShrink(log: seq<LogRec>, i: nat, a: nat, b: nat, s: Redoing, k: PageKey)
    requires i <= a <= b <= |log|
    ensures k in RedoTo(log, i, b, s).dpt ==> k in RedoTo(log, i, a, s).dpt && RedoTo(log, i, b, s).dpt[k] == RedoTo(log, i, a, s).dpt[k]
    decreases b - a
  {
    if a < b { EntriesShrink(log, i, a, b - 1, s, k); }
  }

  /** Redo through the cache brings a page up to the moment its entry is lost,
      and no further. */
  lemma {:induction false} RedoneTo(
      base: PageMap, log: seq<LogRec>, i: nat, n: nat, s: Redoing, disk: PageMap, k: PageKey, m: nat)
    requires i <= n <= |log| && ImageOk(base, log, disk, k, m) && Covers(s.dpt, log, |log|, disk, k)
    requires PageAt(base, log, i, i, s, disk, k, m)
    ensures PageAt(base, log, i, n, s, disk, k, m)
    decreases n
  {
    if i < n {
      RedoneTo(base, log, i, n - 1, s, disk, k, m);
      RedoneStep(base, log, i, n, s, disk, k, m);
    }
  }

  lemma RedoneStep(base: PageMap, log: seq<LogRec>, i: nat, n: nat, s: Redoing, disk: PageMap, k: PageKey, m: nat)
    requires i < n <= |log| && ImageOk(base, log, disk, k, m) && Covers(s.dpt, log, |log|, disk, k)
    requires PageAt(base, log, i, n - 1, s, disk, k, m)
    ensures PageAt(base, log, i, n, s, disk, k, m)
  {
    var t := RedoTo(log, i, n - 1, s);
    RedoToNext(log, i, n - 1, s);
    CutStep(log, i, n, s, k);
    if k in s.dpt { EntriesShrink(log, i, n - 1, n, s, k); }
    PageStep(base, log, n, t, disk, k, m, Cut(log, i, n - 1, s, k), Cut(log, i, n, s, k), s.dpt);
  }

  lemma PageStep(base: PageMap, log: seq<LogRec>, n: nat, t: Redoing, disk: PageMap, k: PageKey, m: nat, c: nat, c': nat, dpt: map<PageKey, Lsn>)
    requires 0 < n <= |log| && ImageOk(base, log, disk, k, m) && Covers(dpt, log, |log|, disk, k) && CacheOk(t.cache)
    requires (k in t.dpt ==> k in dpt && t.dpt[k] == dpt[k]) && k in View(t.cache) && View(t.cache)[k].lsn == disk[k].lsn
    requires c <= n - 1 && c' <= n && View(t.cache)[k].recs == After(base, log, Max(c, m), k)
    requires k in t.dpt ==> c == n - 1 && c' == n
    requires k !in t.dpt && k in dpt ==> c' == c
    requires k !in dpt ==> c' == n && c == n - 1
    ensures var u := RedoStep(log[n - 1], t);
      && CacheOk(u.cache) && k in View(u.cache) && View(u.cache)[k].lsn == disk[k].lsn
      && View(u.cache)[k].recs == After(base, log, Max(c', m), k)
  {
    var r := log[n - 1];
    RedoStepView(r, t);
    if OnPage(r, k) && n - 1 >= m {
      assert Missing(log, n - 1, disk, k);
    }
  }

  // Before the first record the page is as on disk.
  lemma ColdPage(base: PageMap, log: seq<LogRec>, i: nat, dpt: map<PageKey, Lsn>, disk: PageMap, k: PageKey, m: nat)
    requires i <= |log| && ImageOk(base, log, disk, k, m) && Covers(dpt, log, |log|, disk, k)
    requires forall j :: 0 <= j < i && k in dpt ==> log[j].lsn < dpt[k]
    ensures PageAt(base, log, i, i, Redoing(Cold(disk), dpt), disk, k, m)
  {
    RedoMayStartLate(base, log, i, dpt, disk, k, m);
    assert View(Cold(disk)) == disk;
  }

  // ---- which pages are recovered ------------------------------------------

  // Records plus deletion marks: what every row record adds one to.
  function Weight(recs: seq<Version>): nat {
    if recs == [] then 0
    else Weight(recs[..|recs| - 1]) + (if recs[|recs| - 1].xmax == NULL_XID then 1 else 2)
  }

  lemma {:induction false} WeightMark(recs: seq<Version>, slot: nat, x: Xid)
    requires slot < |recs| && recs[slot].xmax == NULL_XID && x != NULL_XID
    ensures Weight(recs[slot := MarkDeleted(recs[slot], x)]) == Weight(recs) + 1
  {
    var n := |recs| - 1;
    var b := recs[slot := MarkDeleted(recs[slot], x)];
    if slot == n {
      assert b[..n] == recs[..n];
    } else {
      assert b[..n] == recs[..n][slot := MarkDeleted(recs[slot], x)];
      WeightMark(recs[..n], slot, x);
    }
  }

  lemma {:induction false} RecordsChangePages(base: PageMap, first: Xid, log: seq<LogRec>, a: nat, n: nat, k: PageKey)
    requires AllDisciplined(base, first, log) && a <= n <= |log|
    ensures Weight(After(base, log, a, k)) <= Weight(After(base, log, n, k))
    ensures (exists j :: a <= j < n && OnPage(log[j], k)) ==> Weight(After(base, log, a, k)) < Weight(After(base, log, n, k))
    decreases n
  {
    if a < n {
      RecordsChangePages(base, first, log, a, n - 1, k);
      var r := log[n - 1];
      if OnPage(r, k) {
        assert Disciplined(base, first, log, n - 1);
        LoserIffNotCommitted(base, first, log, n - 1, r.xid);
        var recs := After(base, log, n - 1, k);
        if r.DeleteLog? {
          WeightMark(recs, r.slot, r.xid);
        } else {
          assert (recs + [r.rec])[..|recs|] == recs;
        }
      }
    }
  }

  // No record the disk image lacks comes after the loss of the entry.
  predicate Reached(log: seq<LogRec>, i: nat, s: Redoing, disk: PageMap, k: PageKey)
    requires i <= |log|
  {
    forall j :: Cut(log, i, |log|, s, k) <= j < |log| ==> !Missing(log, j, disk, k)
  }

  lemma CompleteIff(base: PageMap, first: Xid, log: seq<LogRec>, a: nat, k: PageKey)
    requires AllDisciplined(base, first, log) && a <= |log|
    ensures After(base, log, a, k) == After(base, log, |log|, k) <==> forall j :: a <= j < |log| ==> !OnPage(log[j], k)
  {
    RecordsChangePages(base, first, log, a, |log|, k);
    if forall j :: a <= j < |log| ==> !OnPage(log[j], k) {
      ReplaySkip(BaseRecs(base, k), log, a, |log|, k);
    }
  }

  // The records from `c` on that the image lacks are those from `m` on.
  lemma LackedFrom(base: PageMap, log: seq<LogRec>, disk: PageMap, c: nat, k: PageKey, m: nat)
    requires ImageOk(base, log, disk, k, m) && c <= |log|
    ensures (forall j :: Max(c, m) <= j < |log| ==> !OnPage(log[j], k)) <==> (forall j :: c <= j < |log| ==> !Missing(log, j, disk, k))
  {
    if (forall j :: c <= j < |log| ==> !Missing(log, j, disk, k)) {
      forall j | Max(c, m) <= j < |log| ensures !OnPage(log[j], k) {
        assert !Missing(log, j, disk, k);
      }
    }
  }

  /** A page is recovered if and only if none of the records its disk image
      lacks comes after the loss of its entry. */
  lemma PageRecoveredIff(
      base: PageMap, first: Xid, log: seq<LogRec>, i: nat, dpt: map<PageKey, Lsn>, disk: PageMap, k: PageKey, m: nat)
    requires AllDisciplined(base, first, log) && i <= |log|
    requires ImageOk(base, log, disk, k, m) && Covers(dpt, log, |log|, disk, k)
    requires forall j :: 0 <= j < i && k in dpt ==> log[j].lsn < dpt[k]
    ensures var s := Redoing(Cold(disk), dpt);
      var r := View(RedoTo(log, i, |log|, s).cache);
      && k in r && r[k].lsn == disk[k].lsn
      && r[k].recs == After(base, log, Max(Cut(log, i, |log|, s, k), m), k)
      && (r[k].recs == After(base, log, |log|, k) <==> Reached(log, i, s, disk, k))
  {
    var s := Redoing(Cold(disk), dpt);
    ColdPage(base, log, i, dpt, disk, k, m);
    RedoneTo(base, log, i, |log|, s, disk, k, m);
    var c := Cut(log, i, |log|, s, k);
    CompleteIff(base, first, log, Max(c, m), k);
    LackedFrom(base, log, disk, c, k, m);
  }
}
