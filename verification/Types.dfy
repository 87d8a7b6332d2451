/** Identifiers, constants and small value types shared by every component. */
module Types {

  type Lsn = nat
  type Xid = nat
  type Cid = nat
  type Oid = nat

  const NULL_LSN: Lsn := 0xFFFF_FFFF_FFFF_FFFF
  const FIRST_LSN: Lsn := 0
  const NULL_XID: Xid := 0xFFFF_FFFF
  const FIRST_CID: Cid := 1
  const NULL_CID: Cid := 0xFFFF_FFFF
  const NULL_PAGE_ID: nat := 0xFFFF_FFFF
  const DB_PAGE_SIZE: nat := 256
  const MAX_RECORD_SIZE: nat := 230
  const BUFFER_SIZE: nat := 5
  const PAGE_HEADER_SIZE: nat := 16
  const SLOT_SIZE: nat := 4
  const RECORD_HEADER_SIZE: nat := 13

  type byte = b: nat | b < 256

  datatype Option<+T> = None | Some(value: T)

  datatype Result<+T> = Ok(value: T) | Err(error: string)

  // A record's place inside one table.
  datatype Rid = Rid(page: nat, slot: nat)

  // A page of a table; the key of the dirty-page table and of the buffer pool.
  datatype PageKey = PageKey(oid: Oid, page: nat)

  // A record's place in the whole database.
  datatype Loc = Loc(oid: Oid, rid: Rid)

  function KeyOf(l: Loc): PageKey {
    PageKey(l.oid, l.rid.page)
  }

  // One stored record: its 13-byte header and the bytes after it.
  datatype Version = Version(deleted: bool, xmin: Xid, xmax: Xid, cid: Cid, payload: seq<byte>)

  function RecordSize(v: Version): nat {
    RECORD_HEADER_SIZE + |v.payload|
  }

  // What a slotted page holds, without its byte layout.
  datatype Page = Page(lsn: Lsn, next: nat, recs: seq<Version>)

  function MarkDeleted(v: Version, x: Xid): Version {
    v.(deleted := true, xmax := x)
  }

  function Unmark(v: Version): Version {
    v.(deleted := false, xmax := NULL_XID)
  }

  function PageInsert(p: Page, v: Version): Page {
    p.(recs := p.recs + [v])
  }

  function PageDelete(p: Page, slot: nat, x: Xid): Page
    requires slot < |p.recs|
  {
    p.(recs := p.recs[slot := MarkDeleted(p.recs[slot], x)])
  }

  function PageUndelete(p: Page, slot: nat): Page
    requires slot < |p.recs|
  {
    p.(recs := p.recs[slot := Unmark(p.recs[slot])])
  }
}
