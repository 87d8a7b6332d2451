/** The 256 bytes of a slotted page: header, slots growing up, records growing
    down.  Every change is a splice, and splices leave the rest alone. */
module PageLayout {
  import opened Types
  import opened Bytes

  // ---- splices ------------------------------------------------------------

  // `f` written over the bytes at `off`.
  function Splice(b: bytes, off: nat, f: bytes): (r: bytes)
    requires off + |f| <= |b|
    ensures |r| == |b|
  {
    b[..off] + f + b[off + |f|..]
  }

  lemma SpliceOutside(b: bytes, off: nat, f: bytes, i: nat, j: nat)
    requires off + |f| <= |b| && i <= j <= |b| && (j <= off || off + |f| <= i)
    ensures Splice(b, off, f)[i..j] == b[i..j]
  {
    var r := Splice(b, off, f);
    forall k | i <= k < j ensures r[k] == b[k] {}
  }

  lemma SpliceInside(b: bytes, off: nat, f: bytes)
    requires off + |f| <= |b|
    ensures Splice(b, off, f)[off..off + |f|] == f
  {
  }

  lemma SpliceNum(b: bytes, off: nat, n: nat, w: nat)
    requires off + w <= |b| && n < Pow256(w)
    ensures Num(Splice(b, off, ToBytes(n, w)), off, w) == n
  {
    SpliceInside(b, off, ToBytes(n, w));
    FromToFits(n, w);
  }

  // Disjoint splices commute.
  lemma SplicesCommute(b: bytes, o1: nat, f1: bytes, o2: nat, f2: bytes)
    requires o1 + |f1| <= o2 && o2 + |f2| <= |b|
    ensures Splice(Splice(b, o1, f1), o2, f2) == Splice(Splice(b, o2, f2), o1, f1)
  {
    var x, y := Splice(Splice(b, o1, f1), o2, f2), Splice(Splice(b, o2, f2), o1, f1);
    forall k | 0 <= k < |b| ensures x[k] == y[k] {}
  }

  // ---- fields -------------------------------------------------------------

  function PageLsn(b: bytes): nat requires |b| == DB_PAGE_SIZE { Num(b, 0, 8) }

  function NextPageId(b: bytes): nat requires |b| == DB_PAGE_SIZE { Num(b, 8, 4) }

  function Lower(b: bytes): nat requires |b| == DB_PAGE_SIZE { Num(b, 12, 2) }

  function Upper(b: bytes): nat requires |b| == DB_PAGE_SIZE { Num(b, 14, 2) }

  function RecordCount(b: bytes): nat
    requires |b| == DB_PAGE_SIZE && Lower(b) >= PAGE_HEADER_SIZE
  {
    (Lower(b) - PAGE_HEADER_SIZE) / SLOT_SIZE
  }

  function SlotOffset(b: bytes, i: nat): nat
    requires |b| == DB_PAGE_SIZE && PAGE_HEADER_SIZE + SLOT_SIZE * (i + 1) <= |b|
  {
    Num(b, PAGE_HEADER_SIZE + SLOT_SIZE * i, 2)
  }

  function SlotSize(b: bytes, i: nat): nat
    requires |b| == DB_PAGE_SIZE && PAGE_HEADER_SIZE + SLOT_SIZE * (i + 1) <= |b|
  {
    Num(b, PAGE_HEADER_SIZE + SLOT_SIZE * i + 2, 2)
  }

  // ---- layout -------------------------------------------------------------

  // Where the records of the slots before slot `i` end, going down.
  function Ceiling(b: bytes, i: nat): nat
    requires |b| == DB_PAGE_SIZE && PAGE_HEADER_SIZE + SLOT_SIZE * i <= |b|
  {
    if i == 0 then DB_PAGE_SIZE else SlotOffset(b, i - 1)
  }

  ghost predicate SlotOk(b: bytes, i: nat)
    requires |b| == DB_PAGE_SIZE && PAGE_HEADER_SIZE + SLOT_SIZE * (i + 1) <= |b|
  {
    && SlotSize(b, i) >= RECORD_HEADER_SIZE
    && SlotOffset(b, i) + SlotSize(b, i) == Ceiling(b, i)
  }

  /** Header, slots, gap and records fill the page without overlap: the slot
      array ends at `lower`, the records lie from `upper` to the end of the
      page, each right below the one before it. */
  ghost predicate LayoutOk(b: bytes) {
    && |b| == DB_PAGE_SIZE
    && PAGE_HEADER_SIZE <= Lower(b) <= Upper(b) <= DB_PAGE_SIZE
    && Lower(b) == PAGE_HEADER_SIZE + SLOT_SIZE * RecordCount(b)
    && (forall i :: 0 <= i < RecordCount(b) ==> SlotOk(b, i))
    && Upper(b) == Ceiling(b, RecordCount(b))
  }

  // Later records lie lower.
  lemma {:induction false} OffsetsDescend(b: bytes, i: nat, j: nat)
    requires LayoutOk(b) && i < j <= RecordCount(b)
    ensures Ceiling(b, j) <= SlotOffset(b, i)
    decreases j
  {
    if i + 1 < j {
      OffsetsDescend(b, i, j - 1);
      assert SlotOk(b, j - 1);
    }
  }

  /** Every record lies above the slot array, inside the page, and apart from
      every other record. */
  lemma RecordsDisjoint(b: bytes, i: nat, j: nat)
    requires LayoutOk(b) && i < j < RecordCount(b)
    ensures Lower(b) <= Upper(b) <= SlotOffset(b, j)
    ensures SlotOffset(b, j) + SlotSize(b, j) <= SlotOffset(b, i)
    ensures SlotOffset(b, i) + SlotSize(b, i) <= DB_PAGE_SIZE
  {
    OffsetsDescend(b, i, j);
    RecordInPage(b, i);
    RecordInPage(b, j);
    assert SlotOk(b, j);
  }

  lemma RecordInPage(b: bytes, i: nat)
    requires LayoutOk(b) && i < RecordCount(b)
    ensures Upper(b) <= SlotOffset(b, i) && SlotOffset(b, i) + SlotSize(b, i) <= DB_PAGE_SIZE
    ensures SlotSize(b, i) >= RECORD_HEADER_SIZE
  {
    OffsetsDescend(b, i, RecordCount(b));
    assert SlotOk(b, i);
    if i > 0 {
      OffsetsDescend(b, 0, i);
      assert SlotOk(b, 0);
    }
  }

  function RecordAt(b: bytes, i: nat): (r: bytes)
    requires LayoutOk(b) && i < RecordCount(b)
    ensures |r| == SlotSize(b, i) && |r| >= RECORD_HEADER_SIZE
  {
    RecordInPage(b, i);
    b[SlotOffset(b, i)..SlotOffset(b, i) + SlotSize(b, i)]
  }

  function FreeSpaceSize(b: bytes): nat
    requires |b| == DB_PAGE_SIZE
  {
    if Upper(b) < Lower(b) + SLOT_SIZE then 0 else Upper(b) - Lower(b) - SLOT_SIZE
  }

  // ---- the four changes ---------------------------------------------------

  function WithLsn(b: bytes, lsn: nat): bytes
    requires |b| == DB_PAGE_SIZE
  {
    Splice(b, 0, ToBytes(lsn, 8))
  }

  // The page with `raw` stored under slot `slot`.
  function Inserted(b: bytes, slot: nat, raw: bytes): (r: bytes)
    requires |b| == DB_PAGE_SIZE && |raw| <= Upper(b) <= DB_PAGE_SIZE && PAGE_HEADER_SIZE + SLOT_SIZE * (slot + 1) <= DB_PAGE_SIZE
    ensures |r| == DB_PAGE_SIZE
  {
    var upper := Upper(b) - |raw|;
    var b1 := Splice(b, 12, ToBytes(Lower(b) + SLOT_SIZE, 2));
    var b2 := Splice(b1, 14, ToBytes(upper, 2));
    var b3 := Splice(b2, PAGE_HEADER_SIZE + SLOT_SIZE * slot, ToBytes(upper, 2) + ToBytes(|raw|, 2));
    Splice(b3, upper, raw)
  }

  // Outside the two counters, the new slot and the new record nothing changes.
  lemma InsertedOutside(b: bytes, raw: bytes, i: nat, j: nat)
    requires LayoutOk(b) && RECORD_HEADER_SIZE <= |raw| <= FreeSpaceSize(b)
    requires i <= j <= DB_PAGE_SIZE && (j <= 12 || PAGE_HEADER_SIZE <= i)
    requires j <= Lower(b) || Lower(b) + SLOT_SIZE <= i
    requires j <= Upper(b) - |raw| || Upper(b) <= i
    ensures Inserted(b, RecordCount(b), raw)[i..j] == b[i..j]
  {
    var upper := Upper(b) - |raw|;
    var b1 := Splice(b, 12, ToBytes(Lower(b) + SLOT_SIZE, 2));
    var b2 := Splice(b1, 14, ToBytes(upper, 2));
    var b3 := Splice(b2, Lower(b), ToBytes(upper, 2) + ToBytes(|raw|, 2));
    SpliceOutside(b, 12, ToBytes(Lower(b) + SLOT_SIZE, 2), i, j);
    SpliceOutside(b1, 14, ToBytes(upper, 2), i, j);
    SpliceOutside(b2, Lower(b), ToBytes(upper, 2) + ToBytes(|raw|, 2), i, j);
    SpliceOutside(b3, upper, raw, i, j);
  }

  // The room a new record takes.
  ghost predicate Room(b: bytes, raw: bytes) {
    LayoutOk(b) && RECORD_HEADER_SIZE <= |raw| <= FreeSpaceSize(b)
  }

  lemma InsertedCounters(b: bytes, raw: bytes)
    requires Room(b, raw)
    ensures var r := Inserted(b, RecordCount(b), raw);
      && Lower(r) == Lower(b) + SLOT_SIZE && Upper(r) == Upper(b) - |raw|
      && PageLsn(r) == PageLsn(b) && NextPageId(r) == NextPageId(b)
  {
    Widths();
    var upper := Upper(b) - |raw|;
    var lo := ToBytes(Lower(b) + SLOT_SIZE, 2);
    var up := ToBytes(upper, 2);
    var slot := ToBytes(upper, 2) + ToBytes(|raw|, 2);
    var b1 := Splice(b, 12, lo);
    var b2 := Splice(b1, 14, up);
    var b3 := Splice(b2, Lower(b), slot);
    SpliceNum(b, 12, Lower(b) + SLOT_SIZE, 2);
    SpliceOutside(b1, 14, up, 12, 14);
    SpliceNum(b1, 14, upper, 2);
    SpliceOutside(b2, Lower(b), slot, 12, 14);
    SpliceOutside(b2, Lower(b), slot, 14, 16);
    SpliceOutside(b3, upper, raw, 12, 14);
    SpliceOutside(b3, upper, raw, 14, 16);
    InsertedOutside(b, raw, 0, 8);
    InsertedOutside(b, raw, 8, 12);
  }

  lemma InsertedSlot(b: bytes, raw: bytes)
    requires Room(b, raw)
    ensures var n := RecordCount(b);
      var r := Inserted(b, n, raw);
      && SlotOffset(r, n) == Upper(b) - |raw| && SlotSize(r, n) == |raw|
      && r[Upper(b) - |raw|..Upper(b)] == raw
  {
    Widths();
    var upper := Upper(b) - |raw|;
    var slot := ToBytes(upper, 2) + ToBytes(|raw|, 2);
    var b2 := Splice(Splice(b, 12, ToBytes(Lower(b) + SLOT_SIZE, 2)), 14, ToBytes(upper, 2));
    var b3 := Splice(b2, Lower(b), slot);
    var at := Lower(b);
    SpliceInside(b2, at, slot);
    assert Stands(b3, at, slot);
    Split(b3, at, ToBytes(upper, 2), ToBytes(|raw|, 2));
    NumStands(b3, at, upper, 2);
    NumStands(b3, at + 2, |raw|, 2);
    SpliceOutside(b3, upper, raw, at, at + 2);
    SpliceOutside(b3, upper, raw, at + 2, at + 4);
    SpliceInside(b3, upper, raw);
  }

  lemma InsertedOldSlot(b: bytes, raw: bytes, i: nat)
    requires Room(b, raw) && i < RecordCount(b)
    ensures SlotOffset(b, i) + SlotSize(b, i) <= DB_PAGE_SIZE
    ensures var r := Inserted(b, RecordCount(b), raw);
      && SlotOffset(r, i) == SlotOffset(b, i) && SlotSize(r, i) == SlotSize(b, i)
      && r[SlotOffset(b, i)..SlotOffset(b, i) + SlotSize(b, i)] == RecordAt(b, i)
  {
    var at := PAGE_HEADER_SIZE + SLOT_SIZE * i;
    InsertedOutside(b, raw, at, at + 2);
    InsertedOutside(b, raw, at + 2, at + 4);
    RecordInPage(b, i);
    InsertedOutside(b, raw, SlotOffset(b, i), SlotOffset(b, i) + SlotSize(b, i));
  }

  /** Where an insert writes: the counters at 12 and 14, the slot with offset and
      size behind the slots there are, the record right below the others. */
  lemma InsertedFormat(b: bytes, raw: bytes)
    requires Room(b, raw)
    ensures var n := RecordCount(b);
      var r := Inserted(b, n, raw);
      var upper := Num(b, 14, 2) - |raw|;
      && PAGE_HEADER_SIZE + SLOT_SIZE * (n + 1) <= upper
      && Num(r, 12, 2) == 16 + 4 * (n + 1) && Num(r, 14, 2) == upper
      && Num(r, 16 + 4 * n, 2) == upper && Num(r, 18 + 4 * n, 2) == |raw| && r[upper..upper + |raw|] == raw
  {
    InsertedCounters(b, raw);
    InsertedSlot(b, raw);
  }

  /** An insert that fits keeps the layout, adds its record under the next slot
      and leaves every other record as it was, byte for byte. */
  lemma InsertedLayout(b: bytes, raw: bytes)
    requires Room(b, raw)
    ensures var n := RecordCount(b);
      var r := Inserted(b, n, raw);
      && LayoutOk(r) && RecordCount(r) == n + 1
      && RecordAt(r, n) == raw
      && (forall i :: 0 <= i < n ==> RecordAt(r, i) == RecordAt(b, i))
      && FreeSpaceSize(r) <= FreeSpaceSize(b) - |raw|
  {
    var n := RecordCount(b);
    var r := Inserted(b, n, raw);
    InsertedCounters(b, raw);
    InsertedSlot(b, raw);
    forall i | 0 <= i < n + 1 ensures SlotOk(r, i) {
      if i > 0 { InsertedOldSlot(b, raw, i - 1); }
      if i < n {
        InsertedOldSlot(b, raw, i);
        assert SlotOk(b, i);
      }
    }
    forall i | 0 <= i < n ensures RecordAt(r, i) == RecordAt(b, i) {
      InsertedOldSlot(b, raw, i);
    }
  }

  // ---- overwriting part of a record ---------------------------------------

  // The first bytes of record `i` replaced.
  function Patched(b: bytes, i: nat, f: bytes): bytes
    requires LayoutOk(b) && i < RecordCount(b) && |f| <= SlotSize(b, i)
  {
    RecordInPage(b, i);
    Splice(b, SlotOffset(b, i), f)
  }

  lemma PatchedOutside(b: bytes, i: nat, f: bytes, x: nat, y: nat)
    requires LayoutOk(b) && i < RecordCount(b) && |f| <= SlotSize(b, i)
    requires x <= y <= DB_PAGE_SIZE && (y <= SlotOffset(b, i) || SlotOffset(b, i) + SlotSize(b, i) <= x)
    ensures Patched(b, i, f)[x..y] == b[x..y]
  {
    RecordInPage(b, i);
    SpliceOutside(b, SlotOffset(b, i), f, x, y);
  }

  lemma PatchedFields(b: bytes, i: nat, f: bytes)
    requires LayoutOk(b) && i < RecordCount(b) && |f| <= SlotSize(b, i)
    ensures var r := Patched(b, i, f);
      && Lower(r) == Lower(b) && Upper(r) == Upper(b) && PageLsn(r) == PageLsn(b) && NextPageId(r) == NextPageId(b)
      && (forall j :: 0 <= j < RecordCount(b) ==> SlotOffset(r, j) == SlotOffset(b, j) && SlotSize(r, j) == SlotSize(b, j))
  {
    RecordInPage(b, i);
    PatchedOutside(b, i, f, 12, 14);
    PatchedOutside(b, i, f, 14, 16);
    PatchedOutside(b, i, f, 0, 8);
    PatchedOutside(b, i, f, 8, 12);
    forall j | 0 <= j < RecordCount(b) ensures
      SlotOffset(Patched(b, i, f), j) == SlotOffset(b, j) && SlotSize(Patched(b, i, f), j) == SlotSize(b, j)
    {
      var at := PAGE_HEADER_SIZE + SLOT_SIZE * j;
      PatchedOutside(b, i, f, at, at + 2);
      PatchedOutside(b, i, f, at + 2, at + 4);
    }
  }

  /** Overwriting the head of one record keeps the layout and every other
      record. */
  lemma PatchedLayout(b: bytes, i: nat, f: bytes)
    requires LayoutOk(b) && i < RecordCount(b) && |f| <= SlotSize(b, i)
    ensures var r := Patched(b, i, f);
      && LayoutOk(r) && RecordCount(r) == RecordCount(b)
      && RecordAt(r, i) == f + RecordAt(b, i)[|f|..]
      && (forall j :: 0 <= j < RecordCount(b) && j != i ==> RecordAt(r, j) == RecordAt(b, j))
  {
    var r := Patched(b, i, f);
    PatchedFields(b, i, f);
    forall j | 0 <= j < RecordCount(b) ensures SlotOk(r, j) { assert SlotOk(b, j); }
    RecordInPage(b, i);
    forall j | 0 <= j < RecordCount(b) && j != i ensures RecordAt(r, j) == RecordAt(b, j) {
      RecordInPage(b, j);
      if j < i { RecordsDisjoint(b, j, i); } else { RecordsDisjoint(b, i, j); }
      PatchedOutside(b, i, f, SlotOffset(b, j), SlotOffset(b, j) + SlotSize(b, j));
    }
    PatchedHead(b, i, f);
  }

  lemma PatchedHead(b: bytes, i: nat, f: bytes)
    requires LayoutOk(b) && i < RecordCount(b) && |f| <= SlotSize(b, i)
    ensures SlotOffset(b, i) + SlotSize(b, i) <= DB_PAGE_SIZE
    ensures Patched(b, i, f)[SlotOffset(b, i)..SlotOffset(b, i) + SlotSize(b, i)] == f + RecordAt(b, i)[|f|..]
  {
    RecordInPage(b, i);
    var r := Patched(b, i, f);
    var o, n := SlotOffset(b, i), SlotSize(b, i);
    forall k | 0 <= k < n ensures r[o..o + n][k] == (f + RecordAt(b, i)[|f|..])[k] {}
    assert r[o..o + n] == f + RecordAt(b, i)[|f|..];
  }

  // Stamping the page touches nothing but the LSN.
  lemma WithLsnLayout(b: bytes, lsn: nat)
    requires LayoutOk(b) && lsn < U64
    ensures var r := WithLsn(b, lsn);
      && LayoutOk(r) && RecordCount(r) == RecordCount(b) && PageLsn(r) == lsn && NextPageId(r) == NextPageId(b)
      && (forall i :: 0 <= i < RecordCount(b) ==> RecordAt(r, i) == RecordAt(b, i))
  {
    Widths();
    var f := ToBytes(lsn, 8);
    var r := WithLsn(b, lsn);
    SpliceNum(b, 0, lsn, 8);
    SpliceOutside(b, 0, f, 8, 12);
    SpliceOutside(b, 0, f, 12, 14);
    SpliceOutside(b, 0, f, 14, 16);
    forall i | 0 <= i < RecordCount(b) ensures SlotOffset(r, i) == SlotOffset(b, i) && SlotSize(r, i) == SlotSize(b, i) {
      var at := PAGE_HEADER_SIZE + SLOT_SIZE * i;
      SpliceOutside(b, 0, f, at, at + 2);
      SpliceOutside(b, 0, f, at + 2, at + 4);
    }
    forall i | 0 <= i < RecordCount(b) ensures SlotOk(r, i) { assert SlotOk(b, i); }
    forall i | 0 <= i < RecordCount(b) ensures RecordAt(r, i) == RecordAt(b, i) {
      RecordInPage(b, i);
      SpliceOutside(b, 0, f, SlotOffset(b, i), SlotOffset(b, i) + SlotSize(b, i));
    }
  }

  /** Redo of an insert, on a page that holds what the original page held
      under whatever page LSN, gives byte for byte what the insert and its LSN
      stamp gave, but for the page LSN. */
  lemma RedoIsDo(b: bytes, image: bytes, raw: bytes, lsn: nat)
    requires Room(b, raw) && |image| == DB_PAGE_SIZE && image[8..] == b[8..]
    ensures Upper(image) == Upper(b)
    ensures var n := RecordCount(b);
      Inserted(image, n, raw)[8..] == WithLsn(Inserted(b, n, raw), lsn)[8..]
  {
    var n := RecordCount(b);
    var f := image[..8];
    assert image == Splice(b, 0, f);
    SpliceOutside(b, 0, f, 12, 14);
    SpliceOutside(b, 0, f, 14, 16);
    var upper := Upper(b) - |raw|;
    var lo, up, slot := ToBytes(Lower(b) + SLOT_SIZE, 2), ToBytes(upper, 2), ToBytes(upper, 2) + ToBytes(|raw|, 2);
    var b1 := Splice(b, 12, lo);
    var b2 := Splice(b1, 14, up);
    var b3 := Splice(b2, Lower(b), slot);
    SplicesCommute(b, 0, f, 12, lo);
    SplicesCommute(b1, 0, f, 14, up);
    SplicesCommute(b2, 0, f, Lower(b), slot);
    SplicesCommute(b3, 0, f, upper, raw);
    var done := Inserted(b, n, raw);
    assert Inserted(image, n, raw) == Splice(done, 0, f);
    SpliceOutside(done, 0, f, 8, DB_PAGE_SIZE);
    SpliceOutside(done, 0, ToBytes(lsn, 8), 8, DB_PAGE_SIZE);
  }
}
