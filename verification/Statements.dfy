/** What one DELETE or UPDATE statement does to its table, row by row. */
module Statements {
  import opened Types
  import opened Pages
  import opened Wal
  import opened Visibility
  import opened TableChain
  import opened Tables
  import opened TableScans

  type Filter = Version -> bool
  type NewBytes = Version -> seq<byte>

  // A row the statement is about: the reader sees it and the filter accepts it.
  predicate Matches(v: Version, w: View, f: Filter) { !Skips(v, w) && f(v) }

  ghost predicate NoMatch(ps: PageMap, oid: Oid, w: View, f: Filter, a: Rid, b: Rid) {
    forall l :: HasRow(ps, oid, l) && !Before(l, a) && Before(l, b) ==> !Matches(At(ps, Loc(oid, l)), w, f)
  }

  // The version an update writes for an old one.
  function NewVersionOf(v: Version, w: View, g: NewBytes): Version {
    Version(false, w.xid, NULL_XID, w.cid, g(v))
  }

  /** No isolation level shows a statement the versions it writes itself. */
  lemma OwnVersionsSkipped(v: Version, w: View, g: NewBytes)
    ensures Skips(NewVersionOf(v, w, g), w)
  {
  }

  /** Between `ps0` and `ps` the statement has deleted the rows `olds` and
      written the versions `news` for them, each for one, behind the cursor
      `c`; every matching row behind the cursor is among `olds`. */
  ghost predicate Progress(ps0: PageMap, ps: PageMap, oid: Oid, w: View, f: Filter, g: NewBytes, c: Rid, olds: seq<Rid>, news: seq<Rid>) {
    && OldRows(ps0, ps, oid, w, olds)
    && NewRows(ps0, ps, oid, w, g, olds, news)
    && Ordered(ps0, oid, w, f, c, olds)
    && Complete(ps0, oid, w, f, c, olds)
  }

  // Rows of the start are deleted by the statement if listed, else untouched.
  ghost predicate OldRows(ps0: PageMap, ps: PageMap, oid: Oid, w: View, olds: seq<Rid>) {
    forall l :: HasLoc(ps0, l) ==> OldRow(ps0, ps, oid, w, olds, l)
  }

  predicate OldRow(ps0: PageMap, ps: PageMap, oid: Oid, w: View, olds: seq<Rid>, l: Loc)
    requires HasLoc(ps0, l)
  {
    && HasLoc(ps, l)
    && At(ps, l) == (if l.oid == oid && l.rid in olds then MarkDeleted(At(ps0, l), w.xid) else At(ps0, l))
  }

  // The rows that were not there at the start are the new versions, one each.
  ghost predicate NewRows(ps0: PageMap, ps: PageMap, oid: Oid, w: View, g: NewBytes, olds: seq<Rid>, news: seq<Rid>) {
    && |news| == |olds|
    && (forall i :: 0 <= i < |olds| ==> HasRow(ps0, oid, olds[i]))
    && (forall i :: 0 <= i < |news| ==> NewRow(ps0, ps, oid, w, g, olds[i], news[i]))
    && (forall i, j :: 0 <= i < j < |news| ==> news[i] != news[j])
    && (forall l :: HasLoc(ps, l) && !HasLoc(ps0, l) ==> l.oid == oid && l.rid in news)
  }

  predicate NewRow(ps0: PageMap, ps: PageMap, oid: Oid, w: View, g: NewBytes, r: Rid, q: Rid)
    requires HasRow(ps0, oid, r)
  {
    !HasRow(ps0, oid, q) && HasRow(ps, oid, q) && At(ps, Loc(oid, q)) == NewVersionOf(At(ps0, Loc(oid, r)), w, g)
  }

  ghost predicate Ordered(ps0: PageMap, oid: Oid, w: View, f: Filter, c: Rid, olds: seq<Rid>) {
    && (forall i :: 0 <= i < |olds| ==> HasRow(ps0, oid, olds[i]) && Matches(At(ps0, Loc(oid, olds[i])), w, f) && Before(olds[i], c))
    && (forall i, j :: 0 <= i < j < |olds| ==> Before(olds[i], olds[j]))
  }

  ghost predicate Complete(ps0: PageMap, oid: Oid, w: View, f: Filter, c: Rid, olds: seq<Rid>) {
    forall l :: HasRow(ps0, oid, l) && Before(l, c) && Matches(At(ps0, Loc(oid, l)), w, f) ==> l in olds
  }

  /** A row the scan now finds was there at the start and is unchanged: what
      the statement wrote ahead of the cursor is skipped. */
  lemma FoundIsOld(ps0: PageMap, ps: PageMap, oid: Oid, w: View, f: Filter, g: NewBytes, c: Rid, olds: seq<Rid>, news: seq<Rid>, r: Rid)
    requires Progress(ps0, ps, oid, w, f, g, c, olds, news)
    requires HasRow(ps, oid, r) && !Before(r, c) && !Skips(At(ps, Loc(oid, r)), w)
    ensures HasRow(ps0, oid, r) && r !in olds && At(ps, Loc(oid, r)) == At(ps0, Loc(oid, r))
  {
    if !HasRow(ps0, oid, r) {
      assert HasLoc(ps, Loc(oid, r)) && !HasLoc(ps0, Loc(oid, r));
      var i :| 0 <= i < |news| && news[i] == r;
      assert NewRow(ps0, ps, oid, w, g, olds[i], news[i]);
      OwnVersionsSkipped(At(ps0, Loc(oid, olds[i])), w, g);
    }
  }

  // The cursor moves on over rows that do not match.
  lemma Passed(ps0: PageMap, ps: PageMap, oid: Oid, w: View, f: Filter, g: NewBytes, c: Rid, c': Rid, olds: seq<Rid>, news: seq<Rid>)
    requires Progress(ps0, ps, oid, w, f, g, c, olds, news)
    requires forall l :: Before(l, c) ==> Before(l, c')
    requires NoMatch(ps, oid, w, f, c, c')
    ensures Progress(ps0, ps, oid, w, f, g, c', olds, news)
  {
    forall l | HasRow(ps0, oid, l) && Before(l, c') && Matches(At(ps0, Loc(oid, l)), w, f) ensures l in olds {
      assert OldRow(ps0, ps, oid, w, olds, Loc(oid, l));
    }
  }

  lemma Begun(ps: PageMap, oid: Oid, w: View, f: Filter, g: NewBytes, c: Rid)
    requires forall l :: HasRow(ps, oid, l) ==> !Before(l, c)
    ensures Progress(ps, ps, oid, w, f, g, c, [], [])
  {
  }

  // ---- one row ------------------------------------------------------------

  /** What UpdateRecord leaves, seen as rows. */
  lemma UpdateReplaces(ps: PageMap, w: Wal, w': Wal, x: Xid, oid: Oid, n: nat, r: Rid, lsn: Lsn, v: Version)
    requires x in w'.att && ChainOk(ps, oid, n) && HasRow(ps, oid, r) && RecordSize(v) <= MAX_RECORD_SIZE
    ensures var m := Marked(ps, Loc(oid, r), x, lsn);
      Replaced(ps, Stamped(m, w', x, oid, n, v), oid, r, x, Place(m, oid, n, RecordSize(v)), v)
  {
    var m := Marked(ps, Loc(oid, r), x, lsn);
    MarkedOk(ps, oid, n, Loc(oid, r), x, lsn);
    var t := Stamped(m, w', x, oid, n, v);
    var q := Place(m, oid, n, RecordSize(v));
    forall l ensures (HasLoc(t, l) <==> HasLoc(ps, l) || l == Loc(oid, q))
      && (HasLoc(t, l) ==> At(t, l) == if l == Loc(oid, q) then v else if l == Loc(oid, r) then MarkDeleted(At(ps, l), x) else At(ps, l))
    {
      StampedAt(m, w', x, oid, n, v, l);
      InsertedAt(m, oid, n, v, l);
      MarkedAt(ps, Loc(oid, r), x, lsn, l);
    }
    InsertedAt(m, oid, n, v, Loc(oid, q));
    MarkedAt(ps, Loc(oid, r), x, lsn, Loc(oid, q));
  }

  /** Updating the row just found carries the progress over it. */
  lemma UpdatedOne(ps0: PageMap, ps: PageMap, t: PageMap, oid: Oid, w: View, f: Filter, g: NewBytes, c: Rid, c': Rid,
                   olds: seq<Rid>, news: seq<Rid>, r: Rid, q: Rid)
    requires Progress(ps0, ps, oid, w, f, g, c, olds, news) && HasRow(ps, oid, r) && !Before(r, c)
    requires Matches(At(ps, Loc(oid, r)), w, f) && NoMatch(ps, oid, w, f, c, r)
    requires Before(r, c') && forall l :: HasRow(ps, oid, l) ==> (Before(l, c') <==> l == r || Before(l, r))
    requires Replaced(ps, t, oid, r, w.xid, q, NewVersionOf(At(ps, Loc(oid, r)), w, g))
    ensures Progress(ps0, t, oid, w, f, g, c', olds + [r], news + [q])
  {
    FoundIsOld(ps0, ps, oid, w, f, g, c, olds, news, r);
    assert HasLoc(ps0, Loc(oid, q)) ==> HasLoc(ps, Loc(oid, q));
    UpdatedOld(ps0, ps, t, oid, w, g, olds, news, r, q);
    UpdatedNew(ps0, ps, t, oid, w, g, olds, news, r, q);
    UpdatedOrder(ps0, ps, oid, w, f, c, c', olds, r);
    forall l | HasRow(ps0, oid, l) && Before(l, c') && Matches(At(ps0, Loc(oid, l)), w, f) ensures l in olds + [r] {
      assert OldRow(ps0, ps, oid, w, olds, Loc(oid, l));
      assert l == r || Before(l, r);
    }
  }

  lemma UpdatedOld(ps0: PageMap, ps: PageMap, t: PageMap, oid: Oid, w: View, g: NewBytes, olds: seq<Rid>, news: seq<Rid>, r: Rid, q: Rid)
    requires OldRows(ps0, ps, oid, w, olds) && HasRow(ps0, oid, r) && r !in olds && !HasRow(ps0, oid, q)
    requires HasRow(ps, oid, r) && Replaced(ps, t, oid, r, w.xid, q, NewVersionOf(At(ps, Loc(oid, r)), w, g))
    ensures OldRows(ps0, t, oid, w, olds + [r])
  {
    forall l | HasLoc(ps0, l) ensures OldRow(ps0, t, oid, w, olds + [r], l) {
      assert OldRow(ps0, ps, oid, w, olds, l);
      assert l.oid == oid && l.rid == r <==> l == Loc(oid, r);
      assert l.rid in olds + [r] <==> l.rid in olds || l.rid == r;
    }
  }

  lemma UpdatedNew(ps0: PageMap, ps: PageMap, t: PageMap, oid: Oid, w: View, g: NewBytes, olds: seq<Rid>, news: seq<Rid>, r: Rid, q: Rid)
    requires NewRows(ps0, ps, oid, w, g, olds, news) && HasRow(ps0, oid, r) && !HasRow(ps0, oid, q)
    requires HasRow(ps, oid, r) && At(ps, Loc(oid, r)) == At(ps0, Loc(oid, r))
    requires Replaced(ps, t, oid, r, w.xid, q, NewVersionOf(At(ps, Loc(oid, r)), w, g))
    ensures NewRows(ps0, t, oid, w, g, olds + [r], news + [q])
  {
    var os, ns := olds + [r], news + [q];
    forall i | 0 <= i < |ns| ensures NewRow(ps0, t, oid, w, g, os[i], ns[i]) {
      if i < |news| { assert NewRow(ps0, ps, oid, w, g, olds[i], news[i]) && news[i] != q && news[i] != r; }
    }
    forall l | HasLoc(t, l) && !HasLoc(ps0, l) ensures l.oid == oid && l.rid in ns {
      if l != Loc(oid, q) { assert HasLoc(ps, l); }
    }
  }

  lemma UpdatedOrder(ps0: PageMap, ps: PageMap, oid: Oid, w: View, f: Filter, c: Rid, c': Rid, olds: seq<Rid>, r: Rid)
    requires Ordered(ps0, oid, w, f, c, olds) && !Before(r, c) && Before(r, c')
    requires HasRow(ps0, oid, r) && Matches(At(ps0, Loc(oid, r)), w, f)
    ensures Ordered(ps0, oid, w, f, c', olds + [r])
  {
  }

  // The filter accepts a row whose new version no page can hold.
  ghost predicate TooLarge(ps: PageMap, oid: Oid, w: View, f: Filter, g: NewBytes) {
    exists l :: HasRow(ps, oid, l) && Matches(At(ps, Loc(oid, l)), w, f) && RECORD_HEADER_SIZE + |g(At(ps, Loc(oid, l)))| > MAX_RECORD_SIZE
  }

  // ---- a statement that stops ---------------------------------------------

  // How far the round on row `r` got: `last` is empty, the row, or the row and its new version.
  ghost predicate RoundLeft(ps: PageMap, t: PageMap, oid: Oid, r: Rid, x: Xid, v: Version, last: seq<Rid>) {
    if last == [] then t == ps
    else
      && last[0] == r && |last| <= 2
      && (if |last| == 1 then OnlyMarked(ps, t, oid, r, x) else Replaced(ps, t, oid, r, x, last[1], v))
  }

  /** What an update that is refused leaves: some matching rows replaced, and
      of one more perhaps the deletion, or also its new version. */
  ghost predicate Halted(ps0: PageMap, ps: PageMap, oid: Oid, w: View, f: Filter, g: NewBytes, olds: seq<Rid>, news: seq<Rid>, last: seq<Rid>) {
    && |last| <= 2
    && var os := if last == [] then olds else olds + [last[0]];
    && OldRows(ps0, ps, oid, w, os)
    && (if |last| == 2 then NewRows(ps0, ps, oid, w, g, os, news + [last[1]]) else NewRows(ps0, ps, oid, w, g, olds, news))
    && (forall i :: 0 <= i < |os| ==> HasRow(ps0, oid, os[i]) && Matches(At(ps0, Loc(oid, os[i])), w, f))
    && (forall i, j :: 0 <= i < j < |os| ==> os[i] != os[j])
  }

  lemma HaltedBetween(ps0: PageMap, ps: PageMap, oid: Oid, w: View, f: Filter, g: NewBytes, c: Rid, olds: seq<Rid>, news: seq<Rid>)
    requires Progress(ps0, ps, oid, w, f, g, c, olds, news)
    ensures Halted(ps0, ps, oid, w, f, g, olds, news, [])
  {
  }

  /** A round that stops half way adds what it did, and no more. */
  lemma HaltedInside(ps0: PageMap, ps: PageMap, t: PageMap, oid: Oid, w: View, f: Filter, g: NewBytes, c: Rid,
                     olds: seq<Rid>, news: seq<Rid>, r: Rid, last: seq<Rid>)
    requires Progress(ps0, ps, oid, w, f, g, c, olds, news) && HasRow(ps, oid, r) && !Before(r, c)
    requires Matches(At(ps, Loc(oid, r)), w, f)
    requires RoundLeft(ps, t, oid, r, w.xid, NewVersionOf(At(ps, Loc(oid, r)), w, g), last)
    ensures Halted(ps0, t, oid, w, f, g, olds, news, last)
  {
    FoundIsOld(ps0, ps, oid, w, f, g, c, olds, news, r);
    if |last| == 1 {
      MarkedHalt(ps0, ps, t, oid, w, g, olds, news, r);
    } else if |last| == 2 {
      ReplacedHalt(ps0, ps, t, oid, w, g, olds, news, r, last[1]);
    }
    if last != [] { MatchesMore(ps0, oid, w, f, olds, r); }
  }

  lemma MatchesMore(ps0: PageMap, oid: Oid, w: View, f: Filter, olds: seq<Rid>, r: Rid)
    requires forall i :: 0 <= i < |olds| ==> HasRow(ps0, oid, olds[i]) && Matches(At(ps0, Loc(oid, olds[i])), w, f)
    requires forall i, j :: 0 <= i < j < |olds| ==> olds[i] != olds[j]
    requires r !in olds && HasRow(ps0, oid, r) && Matches(At(ps0, Loc(oid, r)), w, f)
    ensures var os := olds + [r];
      && (forall i :: 0 <= i < |os| ==> HasRow(ps0, oid, os[i]) && Matches(At(ps0, Loc(oid, os[i])), w, f))
      && (forall i, j :: 0 <= i < j < |os| ==> os[i] != os[j])
  {
  }

  lemma ReplacedHalt(ps0: PageMap, ps: PageMap, t: PageMap, oid: Oid, w: View, g: NewBytes, olds: seq<Rid>, news: seq<Rid>, r: Rid, q: Rid)
    requires OldRows(ps0, ps, oid, w, olds) && NewRows(ps0, ps, oid, w, g, olds, news)
    requires HasRow(ps0, oid, r) && r !in olds && HasRow(ps, oid, r) && At(ps, Loc(oid, r)) == At(ps0, Loc(oid, r))
    requires Replaced(ps, t, oid, r, w.xid, q, NewVersionOf(At(ps, Loc(oid, r)), w, g))
    ensures OldRows(ps0, t, oid, w, olds + [r]) && NewRows(ps0, t, oid, w, g, olds + [r], news + [q])
  {
    assert HasLoc(ps0, Loc(oid, q)) ==> HasLoc(ps, Loc(oid, q));
    UpdatedOld(ps0, ps, t, oid, w, g, olds, news, r, q);
    UpdatedNew(ps0, ps, t, oid, w, g, olds, news, r, q);
  }

  lemma MarkedHalt(ps0: PageMap, ps: PageMap, t: PageMap, oid: Oid, w: View, g: NewBytes, olds: seq<Rid>, news: seq<Rid>, r: Rid)
    requires OldRows(ps0, ps, oid, w, olds) && NewRows(ps0, ps, oid, w, g, olds, news)
    requires HasRow(ps0, oid, r) && r !in olds && OnlyMarked(ps, t, oid, r, w.xid)
    ensures OldRows(ps0, t, oid, w, olds + [r]) && NewRows(ps0, t, oid, w, g, olds, news)
  {
    forall l | HasLoc(ps0, l) ensures OldRow(ps0, t, oid, w, olds + [r], l) {
      assert OldRow(ps0, ps, oid, w, olds, l);
      assert l.oid == oid && l.rid == r <==> l == Loc(oid, r);
      assert l.rid in olds + [r] <==> l.rid in olds || l.rid == r;
    }
    forall i | 0 <= i < |news| ensures NewRow(ps0, t, oid, w, g, olds[i], news[i]) {
      assert NewRow(ps0, ps, oid, w, g, olds[i], news[i]) && news[i] != r;
    }
  }

  /** One round of the loop on the row just found, however far it gets. */
  lemma RoundDone(ps0: PageMap, ps: PageMap, t: PageMap, oid: Oid, n: nat, w: View, f: Filter, g: NewBytes, c: Rid,
                  olds: seq<Rid>, news: seq<Rid>, r: Rid, last: seq<Rid>)
    requires Progress(ps0, ps, oid, w, f, g, c, olds, news) && ChainOk(ps, oid, n) && HasRow(ps, oid, r) && !Before(r, c)
    requires Matches(At(ps, Loc(oid, r)), w, f) && NoMatch(ps, oid, w, f, c, r)
    requires RoundLeft(ps, t, oid, r, w.xid, NewVersionOf(At(ps, Loc(oid, r)), w, g), last)
    ensures Halted(ps0, t, oid, w, f, g, olds, news, last)
    ensures |last| == 2 ==> Progress(ps0, t, oid, w, f, g, Succ(ps, oid, r), olds + [r], news + [last[1]])
  {
    HaltedInside(ps0, ps, t, oid, w, f, g, c, olds, news, r, last);
    SuccFacts(ps, oid, n, r);
    if |last| == 2 {
      UpdatedOne(ps0, ps, t, oid, w, f, g, c, Succ(ps, oid, r), olds, news, r, last[1]);
    }
  }

  // ---- deletes ------------------------------------------------------------

  ghost predicate Deleted(ps0: PageMap, ps: PageMap, oid: Oid, w: View, f: Filter, c: Rid, olds: seq<Rid>) {
    && OldRows(ps0, ps, oid, w, olds)
    && (forall l :: HasLoc(ps, l) ==> HasLoc(ps0, l))
    && Ordered(ps0, oid, w, f, c, olds)
    && Complete(ps0, oid, w, f, c, olds)
  }

  lemma DeleteBegun(ps: PageMap, oid: Oid, w: View, f: Filter, c: Rid)
    requires forall l :: HasRow(ps, oid, l) ==> !Before(l, c)
    ensures Deleted(ps, ps, oid, w, f, c, [])
  {
  }

  lemma DeletedOne(ps0: PageMap, ps: PageMap, oid: Oid, w: View, f: Filter, c: Rid, c': Rid, olds: seq<Rid>, r: Rid, lsn: Lsn)
    requires Deleted(ps0, ps, oid, w, f, c, olds) && HasRow(ps, oid, r) && !Before(r, c)
    requires Matches(At(ps, Loc(oid, r)), w, f) && NoMatch(ps, oid, w, f, c, r)
    requires Before(r, c') && forall l :: HasRow(ps, oid, l) ==> (Before(l, c') <==> l == r || Before(l, r))
    ensures Deleted(ps0, Marked(ps, Loc(oid, r), w.xid, lsn), oid, w, f, c', olds + [r])
  {
    var t := Marked(ps, Loc(oid, r), w.xid, lsn);
    assert HasLoc(ps, Loc(oid, r)) && HasLoc(ps0, Loc(oid, r)) && r !in olds;
    forall l ensures (HasLoc(t, l) <==> HasLoc(ps, l))
      && (HasLoc(ps, l) ==> At(t, l) == if l == Loc(oid, r) then MarkDeleted(At(ps, l), w.xid) else At(ps, l))
    {
      MarkedAt(ps, Loc(oid, r), w.xid, lsn, l);
    }
    forall l | HasLoc(ps0, l) ensures OldRow(ps0, t, oid, w, olds + [r], l) {
      assert OldRow(ps0, ps, oid, w, olds, l);
      assert l.rid in olds + [r] <==> l.rid in olds || l.rid == r;
    }
    UpdatedOrder(ps0, ps, oid, w, f, c, c', olds, r);
    forall l | HasRow(ps0, oid, l) && Before(l, c') && Matches(At(ps0, Loc(oid, l)), w, f) ensures l in olds + [r] {
      assert OldRow(ps0, ps, oid, w, olds, Loc(oid, l));
      assert l == r || Before(l, r);
    }
  }

  lemma DeletedFound(ps0: PageMap, ps: PageMap, oid: Oid, n: nat, w: View, f: Filter, c: Rid, olds: seq<Rid>, r: Rid, lsn: Lsn)
    requires Deleted(ps0, ps, oid, w, f, c, olds) && ChainOk(ps, oid, n) && HasRow(ps, oid, r) && !Before(r, c)
    requires Matches(At(ps, Loc(oid, r)), w, f) && NoMatch(ps, oid, w, f, c, r)
    ensures HasRow(ps0, oid, r) && Deleted(ps0, Marked(ps, Loc(oid, r), w.xid, lsn), oid, w, f, Succ(ps, oid, r), olds + [r])
  {
    SuccFacts(ps, oid, n, r);
    assert HasLoc(ps, Loc(oid, r));
    DeletedOne(ps0, ps, oid, w, f, c, Succ(ps, oid, r), olds, r, lsn);
  }

  lemma DeletePassed(ps0: PageMap, ps: PageMap, oid: Oid, w: View, f: Filter, c: Rid, c': Rid, olds: seq<Rid>)
    requires Deleted(ps0, ps, oid, w, f, c, olds)
    requires forall l :: Before(l, c) ==> Before(l, c')
    requires NoMatch(ps, oid, w, f, c, c')
    ensures Deleted(ps0, ps, oid, w, f, c', olds)
  {
    forall l | HasRow(ps0, oid, l) && Before(l, c') && Matches(At(ps0, Loc(oid, l)), w, f) ensures l in olds {
      assert OldRow(ps0, ps, oid, w, olds, Loc(oid, l));
    }
  }

  // ---- the whole statement ------------------------------------------------

  // Row `r` is marked deleted by the writer; row `q` is undeleted, the writer's
  // own under its running command, and holds what `g` makes of the old row.
  predicate Rewritten(ps0: PageMap, ps: PageMap, oid: Oid, w: View, g: NewBytes, r: Rid, q: Rid) {
    && HasRow(ps0, oid, r) && HasRow(ps, oid, r) && HasRow(ps, oid, q)
    && At(ps, Loc(oid, r)) == At(ps0, Loc(oid, r)).(deleted := true, xmax := w.xid)
    && At(ps, Loc(oid, q)) == Version(false, w.xid, NULL_XID, w.cid, g(At(ps0, Loc(oid, r))))
  }

  /** Halloween safety.  When the cursor has reached the end, the rows the
      statement updated are exactly those that matched when it started, each
      once; each of them is deleted and has one new version, and nothing else
      in the database has changed. */
  lemma EachRowOnce(ps0: PageMap, ps: PageMap, oid: Oid, n: nat, w: View, f: Filter, g: NewBytes, olds: seq<Rid>, news: seq<Rid>)
    requires ChainOk(ps0, oid, n) && Progress(ps0, ps, oid, w, f, g, END, olds, news)
    ensures forall l :: l in olds <==> HasRow(ps0, oid, l) && Matches(At(ps0, Loc(oid, l)), w, f)
    ensures forall i, j :: 0 <= i < j < |olds| ==> olds[i] != olds[j] && news[i] != news[j]
    ensures forall l :: HasLoc(ps, l) <==> HasLoc(ps0, l) || (l.oid == oid && l.rid in news)
    ensures forall l :: HasLoc(ps0, l) && !(l.oid == oid && l.rid in olds) ==> At(ps, l) == At(ps0, l)
    ensures |news| == |olds| && forall i :: 0 <= i < |olds| ==> Rewritten(ps0, ps, oid, w, g, olds[i], news[i])
  {
    forall l | HasRow(ps0, oid, l) && Matches(At(ps0, Loc(oid, l)), w, f) ensures l in olds {
      assert Before(l, END);
    }
    forall i | 0 <= i < |olds| ensures Rewritten(ps0, ps, oid, w, g, olds[i], news[i]) {
      assert NewRow(ps0, ps, oid, w, g, olds[i], news[i]) && OldRow(ps0, ps, oid, w, olds, Loc(oid, olds[i]));
    }
    forall l: Loc | l.oid == oid && l.rid in news ensures HasLoc(ps, l) {
      var i :| 0 <= i < |news| && news[i] == l.rid;
      assert NewRow(ps0, ps, oid, w, g, olds[i], news[i]);
    }
  }

  // ---- inserts ------------------------------------------------------------

  // `ps` is `ps0` with one new version for each of the first rows, in order.
  ghost predicate Added(ps0: PageMap, ps: PageMap, oid: Oid, w: View, rows: seq<seq<byte>>, news: seq<Rid>) {
    && |news| <= |rows|
    && (forall i :: 0 <= i < |news| ==> NewAt(ps0, ps, oid, w, rows[i], news[i]))
    && (forall i, j :: 0 <= i < j < |news| ==> news[i] != news[j])
    && (forall l :: HasLoc(ps0, l) ==> HasLoc(ps, l) && At(ps, l) == At(ps0, l))
    && (forall l :: HasLoc(ps, l) && !HasLoc(ps0, l) ==> l.oid == oid && l.rid in news)
  }

  predicate NewAt(ps0: PageMap, ps: PageMap, oid: Oid, w: View, payload: seq<byte>, q: Rid) {
    !HasRow(ps0, oid, q) && HasRow(ps, oid, q) && At(ps, Loc(oid, q)) == Version(false, w.xid, NULL_XID, w.cid, payload)
  }

  lemma InsertedOne(ps0: PageMap, ps: PageMap, oid: Oid, w: View, rows: seq<seq<byte>>, news: seq<Rid>,
                    wal: Wal, n: nat, v: Version)
    requires Added(ps0, ps, oid, w, rows, news) && |news| < |rows| && ChainOk(ps, oid, n) && w.xid in wal.att
    requires v == Version(false, w.xid, NULL_XID, w.cid, rows[|news|])
    ensures Added(ps0, Stamped(ps, wal, w.xid, oid, n, v), oid, w, rows, news + [Place(ps, oid, n, RecordSize(v))])
  {
    var t := Stamped(ps, wal, w.xid, oid, n, v);
    var q := Place(ps, oid, n, RecordSize(v));
    forall l ensures (HasLoc(t, l) <==> HasLoc(ps, l) || l == Loc(oid, q))
      && (HasLoc(t, l) ==> At(t, l) == if l == Loc(oid, q) then v else At(ps, l))
    {
      StampedAt(ps, wal, w.xid, oid, n, v, l);
      InsertedAt(ps, oid, n, v, l);
    }
    InsertedAt(ps, oid, n, v, Loc(oid, q));
    var ns := news + [q];
    forall i | 0 <= i < |ns| ensures NewAt(ps0, t, oid, w, rows[i], ns[i]) {
      if i < |news| { assert NewAt(ps0, ps, oid, w, rows[i], news[i]) && news[i] != q; }
    }
    forall i, j | 0 <= i < j < |ns| ensures ns[i] != ns[j] {
      assert NewAt(ps0, ps, oid, w, rows[i], news[i]);
    }
    forall l | HasLoc(t, l) && !HasLoc(ps0, l) ensures l.oid == oid && l.rid in ns {
      if l != Loc(oid, q) { assert HasLoc(ps, l); }
    }
  }
}
