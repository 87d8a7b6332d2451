/** The slotted page as the table layer uses it: methods over its 256 bytes,
    and the page of versions those bytes stand for. */
module TablePages {
  import opened Types
  import opened Bytes
  import opened HeaderCodec
  import opened PageLayout
  import opened Records
  import opened PageBuffers
  import Pages

  // ---- what the bytes stand for -------------------------------------------

  function VersionAt(b: bytes, i: nat): Version
    requires LayoutOk(b) && i < RecordCount(b)
  {
    VersionOf(RecordAt(b, i)).value
  }

  function AbsPage(b: bytes): (p: Page)
    requires LayoutOk(b)
    ensures |p.recs| == RecordCount(b)
  {
    Page(PageLsn(b), NextPageId(b), seq(RecordCount(b), i requires 0 <= i < RecordCount(b) => VersionAt(b, i)))
  }

  lemma FromBytesBound(b: bytes)
    ensures FromBytes(b) < Pow256(|b|)
  {
  }

  // A decoded header fits its fields.
  lemma VersionOfFits(b: bytes)
    requires |b| >= RECORD_HEADER_SIZE
    ensures VersionFits(VersionOf(b).value)
  {
    Widths();
    FromBytesBound(b[1..5]);
    FromBytesBound(b[5..9]);
    FromBytesBound(b[9..13]);
  }

  /** Storing a record adds its version to the page. */
  lemma InsertedAbs(b: bytes, v: Version)
    requires VersionFits(v) && Room(b, VersionBytes(v))
    ensures LayoutOk(Inserted(b, RecordCount(b), VersionBytes(v)))
    ensures AbsPage(Inserted(b, RecordCount(b), VersionBytes(v))) == PageInsert(AbsPage(b), v)
  {
    var n := RecordCount(b);
    var r := Inserted(b, n, VersionBytes(v));
    InsertedLayout(b, VersionBytes(v));
    InsertedCounters(b, VersionBytes(v));
    VersionRoundTrip(v);
    assert AbsPage(r).recs == AbsPage(b).recs + [v] by {
      forall i | 0 <= i < n + 1 ensures AbsPage(r).recs[i] == (AbsPage(b).recs + [v])[i] {
        if i < n { assert RecordAt(r, i) == RecordAt(b, i); }
      }
    }
  }

  // Record `i` with another header.
  function Reheaded(b: bytes, i: nat, h: Version): bytes
    requires LayoutOk(b) && i < RecordCount(b)
  {
    RecordInPage(b, i);
    Patched(b, i, HeaderBytes(h))
  }

  lemma ReheadedAbs(b: bytes, i: nat, h: Version)
    requires LayoutOk(b) && i < RecordCount(b) && VersionFits(h) && h.payload == VersionAt(b, i).payload
    ensures LayoutOk(Reheaded(b, i, h)) && RecordCount(Reheaded(b, i, h)) == RecordCount(b)
    ensures AbsPage(Reheaded(b, i, h)) == AbsPage(b).(recs := AbsPage(b).recs[i := h])
  {
    var r := Reheaded(b, i, h);
    RecordInPage(b, i);
    PatchedLayout(b, i, HeaderBytes(h));
    PatchedFields(b, i, HeaderBytes(h));
    assert RecordAt(r, i) == VersionBytes(h);
    VersionRoundTrip(h);
    forall j | 0 <= j < RecordCount(b) ensures AbsPage(r).recs[j] == AbsPage(b).recs[i := h][j] {
      if j != i { assert RecordAt(r, j) == RecordAt(b, j); }
    }
  }

  /** Deleting marks the version, undoing the delete clears the mark; no other
      version changes. */
  lemma MarkedAbs(b: bytes, i: nat, x: Xid)
    requires LayoutOk(b) && i < RecordCount(b) && x < U32
    ensures LayoutOk(Reheaded(b, i, MarkDeleted(VersionAt(b, i), x)))
    ensures AbsPage(Reheaded(b, i, MarkDeleted(VersionAt(b, i), x))) == PageDelete(AbsPage(b), i, x)
    ensures LayoutOk(Reheaded(b, i, Unmark(VersionAt(b, i))))
    ensures AbsPage(Reheaded(b, i, Unmark(VersionAt(b, i)))) == PageUndelete(AbsPage(b), i)
  {
    VersionOfFits(RecordAt(b, i));
    ReheadedAbs(b, i, MarkDeleted(VersionAt(b, i), x));
    ReheadedAbs(b, i, Unmark(VersionAt(b, i)));
  }

  lemma {:induction false} CeilingIsUsed(b: bytes, n: nat)
    requires LayoutOk(b) && n <= RecordCount(b)
    ensures Ceiling(b, n) + Pages.UsedBytes(AbsPage(b).recs[..n]) == DB_PAGE_SIZE
  {
    if n > 0 {
      var recs := AbsPage(b).recs;
      CeilingIsUsed(b, n - 1);
      assert recs[..n][..n - 1] == recs[..n - 1] && recs[..n][n - 1] == VersionAt(b, n - 1);
      assert SlotOk(b, n - 1);
    }
  }

  /** Both views of a page agree on how much fits and where it would go. */
  lemma SpaceAgrees(b: bytes)
    requires LayoutOk(b)
    ensures FreeSpaceSize(b) == Pages.FreeSpace(AbsPage(b))
    ensures Upper(b) + Pages.UsedBytes(AbsPage(b).recs) == DB_PAGE_SIZE
  {
    CeilingIsUsed(b, RecordCount(b));
    assert AbsPage(b).recs[..RecordCount(b)] == AbsPage(b).recs;
  }

  // What a read from the slot's offset on finds.
  lemma FromSlot(b: bytes, i: nat)
    requires LayoutOk(b) && i < RecordCount(b)
    ensures SlotOffset(b, i) + RECORD_HEADER_SIZE <= DB_PAGE_SIZE
    ensures var c := b[SlotOffset(b, i)..];
      VersionOf(c[..13]) == Some(VersionAt(b, i).(payload := [])) && Stands(c, 13, VersionAt(b, i).payload)
  {
    RecordInPage(b, i);
    var o, n := SlotOffset(b, i), SlotSize(b, i);
    var c, r := b[o..], RecordAt(b, i);
    assert c[..n] == r;
    assert c[..13] == r[..13] && r[..13] + r[13..] == r;
    HeaderPrefix(r[..13], r[13..]);
    assert r[..13][13..] == [];
    assert c[13..n] == r[13..];
  }

  lemma GetsHeader(b: bytes, i: nat, columns: seq<Column>)
    requires LayoutOk(b) && i < RecordCount(b) && SlotOffset(b, i) <= DB_PAGE_SIZE
    ensures var r := DecodeRecord(b[SlotOffset(b, i)..], columns);
      r.ReadRecord? ==> r.header == AbsPage(b).recs[i].(payload := [])
  {
    FromSlot(b, i);
    if DecodeRecord(b[SlotOffset(b, i)..], columns).ReadRecord? { HeaderRead(b[SlotOffset(b, i)..], columns); }
  }

  /** A record that was stored is read back, header and values. */
  lemma GetsValues(b: bytes, i: nat, bits: bytes, values: seq<Value>, columns: seq<Column>)
    requires LayoutOk(b) && i < RecordCount(b) && SlotOffset(b, i) <= DB_PAGE_SIZE
    requires StoredAs(AbsPage(b).recs[i], bits, values, columns)
    ensures DecodeRecord(b[SlotOffset(b, i)..], columns) ==
      ReadRecord(AbsPage(b).recs[i].(payload := []), KeptAll(values, columns, |values|), SizeOf(values))
  {
    FromSlot(b, i);
    PayloadReads(VersionAt(b, i), bits, values, columns, b[SlotOffset(b, i)..]);
  }

  // ---- the page object ----------------------------------------------------

  method Write(data: array<byte>, offset: nat, f: bytes)
    requires offset + |f| <= data.Length
    modifies data
    ensures data[..] == Splice(old(data[..]), offset, f)
  {
    ghost var was := data[..];
    PutBytes(data, offset, f);
    assert data[..] == data[..offset + |f|] + data[offset + |f|..];
    assert data[offset + |f|..] == was[offset + |f|..];
  }

  method WriteTwo(data: array<byte>, o1: nat, f1: bytes, o2: nat, f2: bytes)
    requires o1 + |f1| <= data.Length && o2 + |f2| <= data.Length
    modifies data
    ensures data[..] == Splice(Splice(old(data[..]), o1, f1), o2, f2)
  {
    Write(data, o1, f1);
    Write(data, o2, f2);
  }

  class TablePage {
    const page: PageBuffer

    ghost predicate Valid()
      reads page.data
    {
      LayoutOk(page.data[..])
    }

    constructor (page: PageBuffer)
      ensures this.page == page
    {
      this.page := page;
    }

    // An empty page whose four header fields are set, whatever was there.
    method Init()
      requires page.data.Length == DB_PAGE_SIZE
      modifies page`dirty, page.data
      ensures Valid() && page.dirty && AbsPage(page.data[..]) == Page(0, NULL_PAGE_ID, [])
      ensures Num(page.data[..], 0, 8) == 0 && Num(page.data[..], 8, 4) == 0xFFFF_FFFF
      ensures Num(page.data[..], 12, 2) == 16 && Num(page.data[..], 14, 2) == 256
    {
      Widths();
      ghost var b0 := page.data[..];
      Write(page.data, 0, ToBytes(0, 8));
      ghost var b1 := page.data[..];
      Write(page.data, 8, ToBytes(NULL_PAGE_ID, 4));
      ghost var b2 := page.data[..];
      Write(page.data, 12, ToBytes(PAGE_HEADER_SIZE, 2));
      ghost var b3 := page.data[..];
      Write(page.data, 14, ToBytes(DB_PAGE_SIZE, 2));
      InitFields(b0, b1, b2, b3, page.data[..]);
      page.SetDirty();
    }

    method InsertRecord(record: Version, xid: Xid, cid: Cid) returns (slot: nat)
      requires Valid() && RecordSize(record) <= FreeSpaceSize(page.data[..])
      modifies page`dirty, page.data
      ensures slot == RecordCount(old(page.data[..]))
      ensures page.data[..] == Inserted(old(page.data[..]), slot, VersionBytes(record.(xmin := xid, cid := cid)))
      ensures Valid() && page.dirty && RecordCount(page.data[..]) == slot + 1
    {
      slot := (Num(page.data[..], 12, 2) - PAGE_HEADER_SIZE) / SLOT_SIZE;
      var stored := record.(xmin := xid, cid := cid);
      InsertedLayout(page.data[..], VersionBytes(stored));
      StoreUnder(slot, VersionBytes(stored));
    }

    // Move both counters, fill the slot, copy the bytes to the new upper end.
    method StoreUnder(slot: nat, raw: bytes)
      requires page.data.Length == DB_PAGE_SIZE && |raw| <= Upper(page.data[..]) <= DB_PAGE_SIZE
      requires PAGE_HEADER_SIZE + SLOT_SIZE * (slot + 1) <= DB_PAGE_SIZE
      modifies page`dirty, page.data
      ensures page.data[..] == Inserted(old(page.data[..]), slot, raw) && page.dirty
    {
      var lower := Num(page.data[..], 12, 2) + SLOT_SIZE;
      var upper := Num(page.data[..], 14, 2) - |raw|;
      WriteTwo(page.data, 12, ToBytes(lower, 2), 14, ToBytes(upper, 2));
      WriteTwo(page.data, PAGE_HEADER_SIZE + SLOT_SIZE * slot, ToBytes(upper, 2) + ToBytes(|raw|, 2), upper, raw);
      page.SetDirty();
    }

    /** The logged page offset is not used: the bytes go below what is there. */
    method RedoInsertRecord(slot: nat, raw: bytes, pageOffset: nat)
      requires Valid() && slot == RecordCount(page.data[..]) && Room(page.data[..], raw)
      modifies page`dirty, page.data
      ensures page.data[..] == Inserted(old(page.data[..]), slot, raw)
      ensures Valid() && page.dirty
    {
      InsertedLayout(page.data[..], raw);
      StoreUnder(slot, raw);
    }

    method DeleteRecord(slot: nat, xid: Xid)
      requires Valid() && slot < RecordCount(page.data[..]) && xid < U32
      modifies page`dirty, page.data
      ensures Valid() && page.dirty && AbsPage(page.data[..]) == PageDelete(AbsPage(old(page.data[..])), slot, xid)
      ensures page.data[..] == Reheaded(old(page.data[..]), slot, MarkDeleted(VersionAt(old(page.data[..]), slot), xid))
    {
      ghost var b := page.data[..];
      MarkedAbs(b, slot, xid);
      RewriteHeader(slot, MarkDeleted(ReadHeader(page.data[..], slot), xid));
    }

    method UndoDeleteRecord(slot: nat)
      requires Valid() && slot < RecordCount(page.data[..])
      modifies page`dirty, page.data
      ensures Valid() && page.dirty && AbsPage(page.data[..]) == PageUndelete(AbsPage(old(page.data[..])), slot)
    {
      ghost var b := page.data[..];
      MarkedAbs(b, slot, 0);
      RewriteHeader(slot, Unmark(ReadHeader(page.data[..], slot)));
    }

    method RewriteHeader(slot: nat, h: Version)
      requires Valid() && slot < RecordCount(page.data[..])
      modifies page`dirty, page.data
      ensures page.data[..] == Reheaded(old(page.data[..]), slot, h) && page.dirty
    {
      RecordInPage(page.data[..], slot);
      Write(page.data, SlotOffset(page.data[..], slot), HeaderBytes(h));
      page.SetDirty();
    }

    /** The header is that of the stored version; a version that was stored as
        a record of the schema gives its values back. */
    method GetRecord(slot: nat, columns: seq<Column>) returns (r: RecordRead)
      requires Valid() && slot < RecordCount(page.data[..])
      ensures r.ReadRecord? ==> r.header == AbsPage(page.data[..]).recs[slot].(payload := [])
      ensures forall bits, values :: StoredAs(AbsPage(page.data[..]).recs[slot], bits, values, columns) ==>
        r == ReadRecord(AbsPage(page.data[..]).recs[slot].(payload := []), KeptAll(values, columns, |values|), SizeOf(values))
    {
      ghost var b := page.data[..];
      RecordInPage(b, slot);
      r := DecodeRecord(page.data[..][SlotOffset(page.data[..], slot)..], columns);
      GetsHeader(b, slot, columns);
      forall bits, values | StoredAs(AbsPage(b).recs[slot], bits, values, columns)
        ensures r == ReadRecord(AbsPage(b).recs[slot].(payload := []), KeptAll(values, columns, |values|), SizeOf(values))
      {
        GetsValues(b, slot, bits, values, columns);
      }
    }

    method GetFreeSpaceSize() returns (n: nat)
      requires Valid()
      ensures n == Pages.FreeSpace(AbsPage(page.data[..]))
    {
      SpaceAgrees(page.data[..]);
      var lower, upper := Num(page.data[..], 12, 2), Num(page.data[..], 14, 2);
      n := if upper < lower + SLOT_SIZE then 0 else upper - lower - SLOT_SIZE;
    }

    method SetPageLSN(lsn: Lsn)
      requires Valid() && lsn < U64
      modifies page`dirty, page.data
      ensures Valid() && page.dirty && page.data[..] == WithLsn(old(page.data[..]), lsn)
      ensures AbsPage(page.data[..]) == AbsPage(old(page.data[..])).(lsn := lsn)
    {
      WithLsnLayout(page.data[..], lsn);
      ghost var b := page.data[..];
      Write(page.data, 0, ToBytes(lsn, 8));
      page.SetDirty();
      SameRecords(b, page.data[..]);
    }
  }

  function ReadHeader(b: bytes, slot: nat): Version
    requires LayoutOk(b) && slot < RecordCount(b)
  {
    VersionAt(b, slot)
  }

  lemma SameRecords(a: bytes, b: bytes)
    requires LayoutOk(a) && LayoutOk(b) && RecordCount(a) == RecordCount(b)
    requires forall i :: 0 <= i < RecordCount(a) ==> RecordAt(a, i) == RecordAt(b, i)
    ensures AbsPage(a).recs == AbsPage(b).recs
  {
    forall i | 0 <= i < RecordCount(a) ensures AbsPage(a).recs[i] == AbsPage(b).recs[i] {
      assert RecordAt(a, i) == RecordAt(b, i);
    }
  }

  // The four header fields, written one after the other.
  lemma InitFields(b0: bytes, b1: bytes, b2: bytes, b3: bytes, b4: bytes)
    requires |b0| == DB_PAGE_SIZE && b1 == Splice(b0, 0, ToBytes(0, 8)) && b2 == Splice(b1, 8, ToBytes(NULL_PAGE_ID, 4))
    requires b3 == Splice(b2, 12, ToBytes(PAGE_HEADER_SIZE, 2)) && b4 == Splice(b3, 14, ToBytes(DB_PAGE_SIZE, 2))
    ensures LayoutOk(b4) && PageLsn(b4) == 0 && NextPageId(b4) == NULL_PAGE_ID && RecordCount(b4) == 0
  {
    Widths();
    SpliceNum(b0, 0, 0, 8);
    SpliceNum(b1, 8, NULL_PAGE_ID, 4);
    SpliceNum(b2, 12, PAGE_HEADER_SIZE, 2);
    SpliceNum(b3, 14, DB_PAGE_SIZE, 2);
    FieldStays(b1, 8, ToBytes(NULL_PAGE_ID, 4), 0, 8);
    FieldStays(b2, 12, ToBytes(PAGE_HEADER_SIZE, 2), 0, 8);
    FieldStays(b3, 14, ToBytes(DB_PAGE_SIZE, 2), 0, 8);
    FieldStays(b2, 12, ToBytes(PAGE_HEADER_SIZE, 2), 8, 4);
    FieldStays(b3, 14, ToBytes(DB_PAGE_SIZE, 2), 8, 4);
    FieldStays(b3, 14, ToBytes(DB_PAGE_SIZE, 2), 12, 2);
  }

  lemma FieldStays(b: bytes, off: nat, f: bytes, at: nat, w: nat)
    requires |b| == DB_PAGE_SIZE && off + |f| <= DB_PAGE_SIZE && at + w <= off
    ensures Num(Splice(b, off, f), at, w) == Num(b, at, w)
  {
    SpliceOutside(b, off, f, at, at + w);
  }
}
