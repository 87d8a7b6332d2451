/** Redo and undo of the record that announces a new page, and the chain of
    pages they leave. */
module NewPageRedo {
  import opened Types
  import opened Pages
  import opened Wal
  import opened Replay
  import LogManagement
  import opened TableChain
  import Tables

  /** NewPageLog::Redo: the page becomes an empty one that takes over the link
      of its predecessor, which is then linked to it.  No page LSN is looked at. */
  function RedoNewPage(ps: PageMap, oid: Oid, prev: nat, page: nat): PageMap
    requires prev != NULL_PAGE_ID ==> PageKey(oid, prev) in ps && prev != page
  {
    if prev != NULL_PAGE_ID then
      var p := ps[PageKey(oid, prev)];
      ps[PageKey(oid, page) := Page(0, p.next, [])][PageKey(oid, prev) := p.(next := page)]
    else ps[PageKey(oid, page) := Page(0, NULL_PAGE_ID, [])]
  }

  /** NewPageLog::Undo: the predecessor takes over the link of the page. */
  function UndoNewPage(ps: PageMap, oid: Oid, prev: nat, page: nat): PageMap
    requires PageKey(oid, prev) in ps && PageKey(oid, page) in ps
  {
    ps[PageKey(oid, prev) := ps[PageKey(oid, prev)].(next := ps[PageKey(oid, page)].next)]
  }

  // The page `k` links away from page `q`.
  function Walk(ps: PageMap, oid: Oid, q: nat, k: nat): nat {
    if k == 0 then q
    else
      var p := Walk(ps, oid, q, k - 1);
      if p != NULL_PAGE_ID && PageKey(oid, p) in ps then ps[PageKey(oid, p)].next else p
  }

  // Whoever follows the links from page `q` comes to an end.
  ghost predicate Ends(ps: PageMap, oid: Oid, q: nat) {
    exists k :: Walk(ps, oid, q, k) == NULL_PAGE_ID
  }

  predicate HopOk(ps: PageMap, oid: Oid, n: nat, last: nat, q: nat) {
    PageKey(oid, q) in ps && ps[PageKey(oid, q)].next == if q + 1 < n then q + 1 else last
  }

  // Pages 0 to n - 1, each linked to the next; the last one to `last`.
  ghost predicate Linked(ps: PageMap, oid: Oid, n: nat, last: nat) {
    0 < n < NULL_PAGE_ID && forall q :: 0 <= q < n ==> HopOk(ps, oid, n, last, q)
  }

  lemma {:induction false} WalkLinked(ps: PageMap, oid: Oid, n: nat, last: nat, k: nat)
    requires Linked(ps, oid, n, last) && k < n
    ensures Walk(ps, oid, 0, k) == k
  {
    if k > 0 {
      WalkLinked(ps, oid, n, last, k - 1);
      assert HopOk(ps, oid, n, last, k - 1);
    }
  }

  lemma {:induction false} WalkStays(ps: PageMap, oid: Oid, q: nat, m: nat, k: nat)
    requires m != NULL_PAGE_ID && PageKey(oid, m) in ps && ps[PageKey(oid, m)].next == m && Walk(ps, oid, q, m) == m <= k
    ensures Walk(ps, oid, q, k) == m
  {
    if k > m { WalkStays(ps, oid, q, m, k - 1); }
  }

  /** Redo of the record of page `n` gives a chain that ends if and only if the
      image of its predecessor does not have the link yet.  If it has, the new
      page is linked to itself. */
  lemma RedoneChainEndsIff(ps: PageMap, oid: Oid, n: nat)
    requires n + 1 < NULL_PAGE_ID && 0 < n
    requires Linked(ps, oid, n, NULL_PAGE_ID) || Linked(ps, oid, n, n)
    ensures HopOk(ps, oid, n, NULL_PAGE_ID, n - 1) || HopOk(ps, oid, n, n, n - 1)
    ensures var t := RedoNewPage(ps, oid, n - 1, n);
      && (Ends(t, oid, 0) <==> ps[PageKey(oid, n - 1)].next == NULL_PAGE_ID)
      && (ps[PageKey(oid, n - 1)].next == NULL_PAGE_ID ==> Linked(t, oid, n + 1, NULL_PAGE_ID))
      && (ps[PageKey(oid, n - 1)].next == n ==> t[PageKey(oid, n)].next == n)
  {
    var last := if Linked(ps, oid, n, NULL_PAGE_ID) then NULL_PAGE_ID else n;
    assert HopOk(ps, oid, n, last, n - 1);
    var t := RedoNewPage(ps, oid, n - 1, n);
    var m := n + 1;
    forall q | 0 <= q < m ensures HopOk(t, oid, m, last, q) {
      if q < n { assert HopOk(ps, oid, n, last, q); }
    }
    WalkLinked(t, oid, n + 1, last, n);
    assert HopOk(t, oid, n + 1, last, n);
    if last == NULL_PAGE_ID {
      assert Walk(t, oid, 0, n + 1) == NULL_PAGE_ID;
    } else {
      forall k: nat ensures Walk(t, oid, 0, k) != NULL_PAGE_ID {
        if k < n { WalkLinked(t, oid, n + 1, last, k); } else { WalkStays(t, oid, 0, n, k); }
      }
    }
  }

  /** The insert that made the page linked it; written out before the crash,
      that link makes the redo of the insert's own record go round. */
  lemma RedoOverOwnLink(ps: PageMap, oid: Oid, n: nat, v: Version)
    requires ChainOk(ps, oid, n) && 0 < n && n + 1 < NULL_PAGE_ID
    ensures PageKey(oid, n - 1) in ps && PageKey(oid, n - 1) in Extended(ps, oid, n, v)
    ensures !Ends(RedoNewPage(Extended(ps, oid, n, v), oid, n - 1, n), oid, 0)
    ensures Ends(RedoNewPage(ps, oid, n - 1, n), oid, 0)
  {
    var e := Extended(ps, oid, n, v);
    forall q | 0 <= q < n ensures HopOk(ps, oid, n, NULL_PAGE_ID, q) && HopOk(e, oid, n, n, q) {
      assert LinkOk(ps, oid, n, q) && LinkOk(ps, oid, n, n - 1);
    }
    RedoneChainEndsIff(ps, oid, n);
    RedoneChainEndsIff(e, oid, n);
    assert HopOk(ps, oid, n, NULL_PAGE_ID, n - 1) && HopOk(e, oid, n, n, n - 1);
  }

  /** Undo of the last page's record takes the page out of the chain. */
  lemma UndoneChainEnds(ps: PageMap, oid: Oid, n: nat)
    requires Linked(ps, oid, n + 1, NULL_PAGE_ID) && 0 < n
    ensures HopOk(ps, oid, n + 1, NULL_PAGE_ID, n - 1) && HopOk(ps, oid, n + 1, NULL_PAGE_ID, n)
    ensures Linked(UndoNewPage(ps, oid, n - 1, n), oid, n, NULL_PAGE_ID)
  {
    assert HopOk(ps, oid, n + 1, NULL_PAGE_ID, n - 1) && HopOk(ps, oid, n + 1, NULL_PAGE_ID, n);
    var t := UndoNewPage(ps, oid, n - 1, n);
    forall q | 0 <= q < n ensures HopOk(t, oid, n, NULL_PAGE_ID, q) {
      assert HopOk(ps, oid, n + 1, NULL_PAGE_ID, q);
    }
  }

  /** Redo then undo of the record leaves every link of the predecessor's chain
      as it was, whether or not the image had the link. */
  lemma UndoAfterRedo(ps: PageMap, oid: Oid, prev: nat, page: nat)
    requires PageKey(oid, prev) in ps && prev != page && prev != NULL_PAGE_ID
    ensures var t := UndoNewPage(RedoNewPage(ps, oid, prev, page), oid, prev, page);
      t[PageKey(oid, prev)] == ps[PageKey(oid, prev)] && forall k :: k in ps && k != PageKey(oid, page) ==> k in t && t[k] == ps[k]
  {
  }

  // The record ahead of the last row is that of its page.
  lemma PageLoggedFirst(w: Wal, w': Wal, x: Xid, n: nat, l: Loc, v: Version, t: PageMap)
    requires Tables.InsertLogged(w, w', x, n, l, v, t) && l.rid == Rid(n, 0) && x != LogManagement.DDL_XID
    ensures |w'.log| == |w.log| + 2 && w'.log[..|w.log|] == w.log && x in w.att
    ensures w'.log[|w.log|] == NewPageLog(w.nextLsn, x, w.att[x], l.oid, if n == 0 then NULL_PAGE_ID else n - 1, n)
    ensures Inserts(w'.log[|w.log| + 1], l) && w'.log[|w.log| + 1].rec == v
  {
    var w1 :| LogManagement.NewPageLogged(w, w1, x, l.oid, if n == 0 then NULL_PAGE_ID else n - 1, n) && Tables.RowLogged(w1, w', x, l, v, t);
    assert w'.log[|w.log|] == w1.log[|w.log|];
  }

  /** Redo of the two records that a new page logs, read from the log the insert
      left, makes of the pages before it those the insert made: the same links,
      the same rows. */
  lemma RedoneIsInserted(ps: PageMap, t: PageMap, w: Wal, w': Wal, x: Xid, oid: Oid, n: nat, v: Version, q: Rid)
    requires ChainOk(ps, oid, n) && x != LogManagement.DDL_XID && Tables.InsertDone(ps, t, w, w', x, oid, n, v, true, q) && q.page == n
    ensures |w'.log| == |w.log| + 2
    ensures var r, i := w'.log[|w.log|], w'.log[|w.log| + 1];
      && r.NewPageLog? && i.InsertLog? && r.prevPage != r.page && (r.prevPage != NULL_PAGE_ID ==> PageKey(r.oid, r.prevPage) in ps)
      && var u := RedoNewPage(ps, r.oid, r.prevPage, r.page);
      && KeyOfRec(i) in u
      && u[KeyOfRec(i) := u[KeyOfRec(i)].(recs := ApplyRecs(u[KeyOfRec(i)].recs, i))] == InsertedInto(ps, oid, n, v)
  {
    PageLoggedFirst(w, w', x, n, Loc(oid, q), v, t);
    forall p | 0 <= p < n ensures !Fits(ps, oid, p, RecordSize(v)) { assert TooFull(ps, oid, p, RecordSize(v)); }
    assert InsertedInto(ps, oid, n, v) == Extended(ps, oid, n, v);
    if n > 0 { assert LinkOk(ps, oid, n, n - 1); }
    RedoIsExtended(ps, oid, n, v);
    var i := w'.log[|w.log| + 1];
    assert ApplyRecs([], i) == [v];
  }

  lemma RedoIsExtended(ps: PageMap, oid: Oid, n: nat, v: Version)
    requires ChainOk(ps, oid, n) && (n > 0 ==> LinkOk(ps, oid, n, n - 1))
    ensures var u := RedoNewPage(ps, oid, if n == 0 then NULL_PAGE_ID else n - 1, n);
      var k := PageKey(oid, n);
      k in u && u[k].recs == [] && u[k := u[k].(recs := [v])] == Extended(ps, oid, n, v)
  {
  }
}
