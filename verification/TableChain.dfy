/** A table's pages: a chain of page ids 0, 1, ... in which a record goes to
    the first page it fits. */
module TableChain {
  import opened Types
  import opened Pages

  // The bytes of a page suffice for what it holds.
  predicate PageFits(p: Page) {
    UsedBytes(p.recs) + PAGE_HEADER_SIZE + SLOT_SIZE * |p.recs| <= DB_PAGE_SIZE
  }

  function NextOf(n: nat, q: nat): nat { if q + 1 < n then q + 1 else NULL_PAGE_ID }

  ghost predicate LinkOk(ps: PageMap, oid: Oid, n: nat, q: nat) {
    var k := PageKey(oid, q);
    k in ps && ps[k].next == NextOf(n, q) && ps[k].recs != [] && PageFits(ps[k])
  }

  /** Pages 0 to n - 1 exist, each linked to the next and the last to none;
      every page holds a record. */
  ghost predicate ChainOk(ps: PageMap, oid: Oid, n: nat) {
    && n < NULL_PAGE_ID
    && (forall q :: 0 <= q < n ==> LinkOk(ps, oid, n, q))
    && (forall q :: n <= q ==> PageKey(oid, q) !in ps)
  }

  predicate Fits(ps: PageMap, oid: Oid, q: nat, size: nat) {
    PageKey(oid, q) in ps && size <= FreeSpace(ps[PageKey(oid, q)])
  }

  // The first page from `q` on with room for `size` bytes; `n` when there is none.
  function FirstFit(ps: PageMap, oid: Oid, n: nat, size: nat, q: nat): (f: nat)
    requires q <= n
    ensures q <= f <= n
    ensures f < n ==> Fits(ps, oid, f, size)
    ensures forall p :: q <= p < f ==> !Fits(ps, oid, p, size)
    decreases n - q
  {
    if q == n || Fits(ps, oid, q, size) then q else FirstFit(ps, oid, n, size, q + 1)
  }

  // The pages with a new page `n` at the end of the chain.
  function Extended(ps: PageMap, oid: Oid, n: nat, v: Version): PageMap {
    var linked :=
      if n > 0 && PageKey(oid, n - 1) in ps
      then ps[PageKey(oid, n - 1) := ps[PageKey(oid, n - 1)].(next := n)]
      else ps;
    linked[PageKey(oid, n) := Page(0, NULL_PAGE_ID, [v])]
  }

  // Where a record of this size goes, and the pages once it is there.
  function Place(ps: PageMap, oid: Oid, n: nat, size: nat): Rid {
    var q := FirstFit(ps, oid, n, size, 0);
    Rid(q, if q < n then |ps[PageKey(oid, q)].recs| else 0)
  }

  function InsertedInto(ps: PageMap, oid: Oid, n: nat, v: Version): PageMap {
    var q := FirstFit(ps, oid, n, RecordSize(v), 0);
    if q < n then Append(ps, PageKey(oid, q), v) else Extended(ps, oid, n, v)
  }

  function PagesAfter(ps: PageMap, oid: Oid, n: nat, size: nat): nat {
    if FirstFit(ps, oid, n, size, 0) < n then n else n + 1
  }

  lemma AppendFits(p: Page, v: Version)
    requires PageFits(p) && RecordSize(v) <= FreeSpace(p)
    ensures PageFits(PageInsert(p, v))
  {
    assert (p.recs + [v])[..|p.recs|] == p.recs;
  }

  /** Free space is exactly the room there is: a record is at most that large if
      and only if the page still holds everything once it is in. */
  lemma FreeSpaceIsRoom(p: Page, v: Version)
    requires PageFits(p)
    ensures RecordSize(v) <= FreeSpace(p) <==> PageFits(PageInsert(p, v))
  {
    assert (p.recs + [v])[..|p.recs|] == p.recs;
  }

  // A page has no room for so many bytes.
  predicate TooFull(ps: PageMap, oid: Oid, q: nat, size: nat) {
    PageKey(oid, q) in ps && size > FreeSpace(ps[PageKey(oid, q)])
  }

  /** First fit: every page ahead of the chosen one is too full; the chosen one
      has room, and the record goes behind those it holds, or it is new. */
  ghost predicate FirstWithRoom(ps: PageMap, oid: Oid, n: nat, size: nat, r: Rid) {
    && r.page <= n
    && (forall q :: 0 <= q < r.page ==> TooFull(ps, oid, q, size))
    && (if r.page < n then
          var k := PageKey(oid, r.page);
          k in ps && size <= FreeSpace(ps[k]) && r.slot == |ps[k].recs|
        else r.slot == 0)
  }

  lemma PlaceIsFirst(ps: PageMap, oid: Oid, n: nat, size: nat)
    requires ChainOk(ps, oid, n)
    ensures FirstWithRoom(ps, oid, n, size, Place(ps, oid, n, size))
    ensures PagesAfter(ps, oid, n, size) == if Place(ps, oid, n, size).page < n then n else n + 1
  {
    var f := FirstFit(ps, oid, n, size, 0);
    forall q | 0 <= q < f ensures TooFull(ps, oid, q, size) {
      assert LinkOk(ps, oid, n, q) && !Fits(ps, oid, q, size);
    }
  }

  // `t` is `ps` with one more row.
  ghost predicate OneMoreRow(ps: PageMap, t: PageMap, l: Loc, v: Version) {
    && !HasLoc(ps, l)
    && (forall k :: HasLoc(t, k) <==> HasLoc(ps, k) || k == l)
    && (forall k :: HasLoc(t, k) ==> At(t, k) == if k == l then v else At(ps, k))
  }

  lemma FreshPageFits(v: Version)
    requires RecordSize(v) <= MAX_RECORD_SIZE
    ensures PageFits(Page(0, NULL_PAGE_ID, [v])) && RecordSize(v) <= FreeSpace(Page(0, NULL_PAGE_ID, []))
  {
    assert [v][..0] == [];
    assert UsedBytes([v]) == UsedBytes([]) + RecordSize(v);
  }

  /** Inserting keeps the chain 0, 1, ... ending in no page. */
  lemma InsertedChain(ps: PageMap, oid: Oid, n: nat, v: Version)
    requires ChainOk(ps, oid, n) && RecordSize(v) <= MAX_RECORD_SIZE && n + 1 < NULL_PAGE_ID
    ensures ChainOk(InsertedInto(ps, oid, n, v), oid, PagesAfter(ps, oid, n, RecordSize(v)))
  {
    var q := FirstFit(ps, oid, n, RecordSize(v), 0);
    var t := InsertedInto(ps, oid, n, v);
    var m := PagesAfter(ps, oid, n, RecordSize(v));
    forall p | 0 <= p < m ensures LinkOk(t, oid, m, p) {
      if p < n { assert LinkOk(ps, oid, n, p); }
      if p == q && q < n { AppendFits(ps[PageKey(oid, q)], v); }
      if p == n { FreshPageFits(v); }
    }
  }

  /** The new record reads back at the rid it was given, which was unused
      before; every other record of every table is as it was. */
  lemma InsertedAt(ps: PageMap, oid: Oid, n: nat, v: Version, l: Loc)
    requires ChainOk(ps, oid, n)
    ensures var r := Loc(oid, Place(ps, oid, n, RecordSize(v)));
      var t := InsertedInto(ps, oid, n, v);
      && !HasLoc(ps, r)
      && (HasLoc(t, l) <==> HasLoc(ps, l) || l == r)
      && (HasLoc(t, l) ==> At(t, l) == if l == r then v else At(ps, l))
  {
    if 0 < n { assert LinkOk(ps, oid, n, n - 1); }
  }

  // A delete changes one version and no link.
  lemma MarkedChain(ps: PageMap, oid: Oid, n: nat, l: Loc, v: Version)
    requires ChainOk(ps, oid, n) && HasLoc(ps, l) && RecordSize(v) == RecordSize(At(ps, l))
    ensures ChainOk(SetAt(ps, l, v), oid, n)
  {
    var t := SetAt(ps, l, v);
    UsedBytesSame(ps[KeyOf(l)].recs, t[KeyOf(l)].recs);
    forall p | 0 <= p < n ensures LinkOk(t, oid, n, p) { assert LinkOk(ps, oid, n, p); }
  }

  lemma StampedChain(ps: PageMap, oid: Oid, n: nat, k: PageKey, lsn: Lsn)
    requires ChainOk(ps, oid, n) && k in ps
    ensures ChainOk(SetPageLsn(ps, k, lsn), oid, n)
  {
    forall p | 0 <= p < n ensures LinkOk(SetPageLsn(ps, k, lsn), oid, n, p) { assert LinkOk(ps, oid, n, p); }
  }

  // A page holds few records, each at a small offset.
  lemma SmallPage(p: Page)
    requires PageFits(p)
    ensures |p.recs| <= 14
  {
    UsedAtLeast(p.recs);
  }

  lemma {:induction false} UsedAtLeast(recs: seq<Version>)
    ensures UsedBytes(recs) >= RECORD_HEADER_SIZE * |recs|
  {
    if recs != [] { UsedAtLeast(recs[..|recs| - 1]); }
  }
}
