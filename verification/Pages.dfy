/** The table pages as one map from keys to contents: what the buffer pool
    presents to the layers above it. */
module Pages {
  import opened Types

  type PageMap = map<PageKey, Page>

  predicate HasLoc(ps: PageMap, l: Loc) {
    KeyOf(l) in ps && l.rid.slot < |ps[KeyOf(l)].recs|
  }

  function At(ps: PageMap, l: Loc): Version
    requires HasLoc(ps, l)
  {
    ps[KeyOf(l)].recs[l.rid.slot]
  }

  function SetAt(ps: PageMap, l: Loc, v: Version): PageMap
    requires HasLoc(ps, l)
  {
    var p := ps[KeyOf(l)];
    ps[KeyOf(l) := p.(recs := p.recs[l.rid.slot := v])]
  }

  function Append(ps: PageMap, k: PageKey, v: Version): PageMap
    requires k in ps
  {
    ps[k := PageInsert(ps[k], v)]
  }

  function SetPageLsn(ps: PageMap, k: PageKey, lsn: Lsn): PageMap
    requires k in ps
  {
    ps[k := ps[k].(lsn := lsn)]
  }

  // The place the next record inserted into page `k` gets.
  function NextLoc(ps: PageMap, k: PageKey): Loc
    requires k in ps
  {
    Loc(k.oid, Rid(k.page, |ps[k].recs|))
  }

  // Same pages, same number of records in each.
  ghost predicate SameShape(a: PageMap, b: PageMap) {
    && a.Keys == b.Keys
    && (forall k :: k in a ==> |a[k].recs| == |b[k].recs| && a[k].lsn == b[k].lsn && a[k].next == b[k].next)
  }

  lemma SetAtFacts(ps: PageMap, l: Loc, v: Version, m: Loc)
    requires HasLoc(ps, l)
    ensures HasLoc(SetAt(ps, l, v), m) <==> HasLoc(ps, m)
    ensures HasLoc(ps, m) ==> At(SetAt(ps, l, v), m) == if m == l then v else At(ps, m)
    ensures SameShape(ps, SetAt(ps, l, v))
  {
  }

  lemma AppendFacts(ps: PageMap, k: PageKey, v: Version, m: Loc)
    requires k in ps
    ensures HasLoc(Append(ps, k, v), m) <==> HasLoc(ps, m) || m == NextLoc(ps, k)
    ensures HasLoc(Append(ps, k, v), m) ==>
      At(Append(ps, k, v), m) == if m == NextLoc(ps, k) then v else At(ps, m)
  {
  }

  lemma SetPageLsnFacts(ps: PageMap, k: PageKey, lsn: Lsn, m: Loc)
    requires k in ps
    ensures HasLoc(SetPageLsn(ps, k, lsn), m) <==> HasLoc(ps, m)
    ensures HasLoc(ps, m) ==> At(SetPageLsn(ps, k, lsn), m) == At(ps, m)
  {
  }

  function UsedBytes(recs: seq<Version>): nat {
    if recs == [] then 0 else UsedBytes(recs[..|recs| - 1]) + RecordSize(recs[|recs| - 1])
  }

  // Only the sizes count.
  lemma {:induction false} UsedBytesSame(a: seq<Version>, b: seq<Version>)
    requires |a| == |b| && forall i :: 0 <= i < |a| ==> RecordSize(a[i]) == RecordSize(b[i])
    ensures UsedBytes(a) == UsedBytes(b)
  {
    if a != [] {
      UsedBytesSame(a[..|a| - 1], b[..|b| - 1]);
    }
  }

  // Bytes that these records leave for one more record and its slot.
  function SpaceAfter(recs: seq<Version>): nat {
    var lower := PAGE_HEADER_SIZE + SLOT_SIZE * |recs|;
    if DB_PAGE_SIZE - UsedBytes(recs) < lower + SLOT_SIZE then 0
    else DB_PAGE_SIZE - UsedBytes(recs) - lower - SLOT_SIZE
  }

  function FreeSpace(p: Page): nat { SpaceAfter(p.recs) }

  // Where in the page the bytes of a new record of size `n` start.
  function OffsetFor(p: Page, n: nat): nat
    requires n <= FreeSpace(p) && n > 0
  {
    DB_PAGE_SIZE - UsedBytes(p.recs) - n
  }
}
