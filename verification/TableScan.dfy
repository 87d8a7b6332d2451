/** The scan cursor: one visible record per call, in page and slot order. */
module TableScans {
  import opened Types
  import opened Pages
  import opened Visibility
  import opened TableChain
  import opened LogManagement
  import opened Tables

  // Scan order; the cursor of a finished scan lies behind every record.
  predicate Before(a: Rid, b: Rid) {
    a.page < b.page || (a.page == b.page && a.slot < b.slot)
  }

  const END: Rid := Rid(NULL_PAGE_ID, 0)

  predicate HasRow(ps: PageMap, oid: Oid, r: Rid) { HasLoc(ps, Loc(oid, r)) }

  predicate CursorOk(ps: PageMap, oid: Oid, c: Rid) { c == END || HasRow(ps, oid, c) }

  // The cursor after the record at `r`.
  function Succ(ps: PageMap, oid: Oid, r: Rid): Rid
    requires HasRow(ps, oid, r)
  {
    var p := ps[PageKey(oid, r.page)];
    if r.slot + 1 < |p.recs| then Rid(r.page, r.slot + 1) else Rid(p.next, 0)
  }

  /** Stepping the cursor passes exactly one record. */
  lemma SuccFacts(ps: PageMap, oid: Oid, n: nat, r: Rid)
    requires ChainOk(ps, oid, n) && HasRow(ps, oid, r)
    ensures CursorOk(ps, oid, Succ(ps, oid, r)) && Before(r, Succ(ps, oid, r))
    ensures forall l :: HasRow(ps, oid, l) ==> (Before(l, Succ(ps, oid, r)) <==> l == r || Before(l, r))
  {
    assert LinkOk(ps, oid, n, r.page);
    var s := Succ(ps, oid, r);
    if s.page != r.page && s.page != NULL_PAGE_ID { assert LinkOk(ps, oid, n, s.page); }
    forall l | HasRow(ps, oid, l) ensures Before(l, s) <==> l == r || Before(l, r) {
      assert l.page < n;
      assert LinkOk(ps, oid, n, l.page);
    }
  }

  // What one reader sees.
  datatype View = View(xid: Xid, iso: Isolation, cid: Cid, active: set<Xid>)

  predicate Skips(v: Version, w: View) { CanGet(v, w.xid, w.cid, w.iso, w.active) }

  // Stored records from `a` up to, not including, `b` are all skipped.
  ghost predicate AllSkipped(ps: PageMap, oid: Oid, w: View, a: Rid, b: Rid) {
    forall l :: HasRow(ps, oid, l) && !Before(l, a) && Before(l, b) ==> Skips(At(ps, Loc(oid, l)), w)
  }

  class TableScan {
    const table: Table
    var rid: Rid

    ghost predicate Valid()
      reads this, table, table.store
    {
      table.Valid() && CursorOk(table.store.pages, table.oid, rid)
    }

    constructor (table: Table)
      requires table.Valid()
      ensures this.table == table && Valid()
      ensures rid == Rid(table.firstPageId, 0)
      ensures forall l :: HasRow(table.store.pages, table.oid, l) ==> !Before(l, rid)
    {
      this.table := table;
      rid := Rid(table.firstPageId, 0);
      new;
      if table.pageCount > 0 { assert LinkOk(table.store.pages, table.oid, table.pageCount, 0); }
    }

    /** The next record the reader sees, or none; either way every record
        passed over is one the reader skips, and no record is passed twice. */
    method GetNextRecord(w: View) returns (r: Option<Rid>)
      requires Valid()
      modifies this
      ensures Valid()
      ensures r.Some? ==>
        && HasRow(table.store.pages, table.oid, r.value) && !Skips(At(table.store.pages, Loc(table.oid, r.value)), w)
        && !Before(r.value, old(rid)) && AllSkipped(table.store.pages, table.oid, w, old(rid), r.value)
        && rid == Succ(table.store.pages, table.oid, r.value)
      ensures r.None? ==> rid == END && AllSkipped(table.store.pages, table.oid, w, old(rid), END)
    {
      if rid.page == NULL_PAGE_ID {
        return None;
      }
      var ps := table.store.pages;
      while Skips(At(ps, Loc(table.oid, rid)), w)
        invariant HasRow(ps, table.oid, rid) && !Before(rid, old(rid))
        invariant AllSkipped(ps, table.oid, w, old(rid), rid)
        decreases table.pageCount - rid.page, |ps[PageKey(table.oid, rid.page)].recs| - rid.slot
      {
        SuccFacts(ps, table.oid, table.pageCount, rid);
        assert LinkOk(ps, table.oid, table.pageCount, rid.page);
        rid := Succ(ps, table.oid, rid);
        if rid.page == NULL_PAGE_ID {
          return None;
        }
      }
      SuccFacts(ps, table.oid, table.pageCount, rid);
      r := Some(rid);
      rid := Succ(ps, table.oid, rid);
    }
  }
}
