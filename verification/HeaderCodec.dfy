/** The 13-byte record header and raw record bytes. */
module HeaderCodec {
  import opened Types
  import opened Bytes

  predicate VersionFits(v: Version) {
    v.xmin < U32 && v.xmax < U32 && v.cid < U32
  }

  function HeaderBytes(v: Version): (b: bytes)
    ensures |b| == RECORD_HEADER_SIZE
  {
    ToBytes(if v.deleted then 1 else 0, 1) + ToBytes(v.xmin, 4) + ToBytes(v.xmax, 4) + ToBytes(v.cid, 4)
  }

  // The bytes of a whole stored record.
  function VersionBytes(v: Version): (b: bytes)
    ensures |b| == RecordSize(v)
  {
    HeaderBytes(v) + v.payload
  }

  function VersionOf(b: bytes): Option<Version> {
    if |b| < RECORD_HEADER_SIZE then None
    else Some(Version(Num(b, 0, 1) != 0, Num(b, 1, 4), Num(b, 5, 4), Num(b, 9, 4), b[13..]))
  }

  /** Decoding the bytes of a record gives the record back. */
  lemma VersionRoundTrip(v: Version)
    requires VersionFits(v)
    ensures VersionOf(VersionBytes(v)) == Some(v)
  {
    HeaderReads(v, VersionBytes(v));
    assert VersionBytes(v)[13..] == v.payload;
  }

  lemma HeaderReads(v: Version, b: bytes)
    requires VersionFits(v) && Stands(b, 0, HeaderBytes(v))
    ensures |b| >= RECORD_HEADER_SIZE && (Num(b, 0, 1) != 0 <==> v.deleted)
    ensures Num(b, 1, 4) == v.xmin && Num(b, 5, 4) == v.xmax && Num(b, 9, 4) == v.cid
  {
    Widths();
    var d := if v.deleted then 1 else 0;
    var h1 := ToBytes(d, 1);
    var h2 := h1 + ToBytes(v.xmin, 4);
    var h3 := h2 + ToBytes(v.xmax, 4);
    Split(b, 0, h3, ToBytes(v.cid, 4));
    Split(b, 0, h2, ToBytes(v.xmax, 4));
    Split(b, 0, h1, ToBytes(v.xmin, 4));
    NumStands(b, 0, d, 1);
    NumStands(b, 1, v.xmin, 4);
    NumStands(b, 5, v.xmax, 4);
    NumStands(b, 9, v.cid, 4);
  }

  // The header fields are those of the first 13 bytes.
  lemma HeaderPrefix(h: bytes, tail: bytes)
    requires |h| == RECORD_HEADER_SIZE
    ensures Num(h + tail, 0, 1) == Num(h, 0, 1) && Num(h + tail, 1, 4) == Num(h, 1, 4)
    ensures Num(h + tail, 5, 4) == Num(h, 5, 4) && Num(h + tail, 9, 4) == Num(h, 9, 4)
  {
    NumPrefix(h, tail, 0, 1);
    NumPrefix(h, tail, 1, 4);
    NumPrefix(h, tail, 5, 4);
    NumPrefix(h, tail, 9, 4);
  }

  class RecordHeader {
    var deleted: bool
    var xmin: Xid
    var xmax: Xid
    var cid: Cid

    constructor ()
      ensures !deleted && xmin == NULL_XID && xmax == NULL_XID && cid == NULL_CID
    {
      deleted, xmin, xmax, cid := false, NULL_XID, NULL_XID, NULL_CID;
    }

    function State(): Version
      reads this
    {
      Version(deleted, xmin, xmax, cid, [])
    }

    method SerializeTo(data: array<byte>) returns (offset: nat)
      requires data.Length >= RECORD_HEADER_SIZE
      modifies data
      ensures offset == RECORD_HEADER_SIZE
      ensures data[..13] == HeaderBytes(State())
      ensures forall k :: 13 <= k < data.Length ==> data[k] == old(data[k])
    {
      var d := if deleted then 1 else 0;
      Put(data, 0, d, 1);
      assert data[..1] == ToBytes(d, 1);
      offset := 1;
      Put(data, offset, xmin, 4);
      offset := offset + 4;
      assert data[..5] == ToBytes(d, 1) + ToBytes(xmin, 4);
      Put(data, offset, xmax, 4);
      offset := offset + 4;
      assert data[..9] == ToBytes(d, 1) + ToBytes(xmin, 4) + ToBytes(xmax, 4);
      Put(data, offset, cid, 4);
      offset := offset + 4;
    }

    method DeserializeFrom(data: bytes) returns (offset: nat)
      requires |data| >= RECORD_HEADER_SIZE
      modifies this
      ensures offset == RECORD_HEADER_SIZE
      ensures VersionOf(data[..13]) == Some(State())
    {
      ghost var h := data[..13];
      HeaderPrefix(h, data[13..]);
      assert data == h + data[13..];
      offset := 0;
      deleted := Num(data, offset, 1) != 0;
      offset := offset + 1;
      xmin := Num(data, offset, 4);
      offset := offset + 4;
      xmax := Num(data, offset, 4);
      offset := offset + 4;
      cid := Num(data, offset, 4);
      offset := offset + 4;
      assert h[13..] == [];
    }

    method SetDeleted(d: bool)
      modifies this
      ensures State() == old(State()).(deleted := d)
    {
      deleted := d;
    }

    method SetXmax(x: Xid)
      modifies this
      ensures State() == old(State()).(xmax := x)
    {
      xmax := x;
    }
  }
}
