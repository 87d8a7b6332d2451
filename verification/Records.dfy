/** Records: values, null bitmap and their byte form. */
module Records {
  import opened Types
  import opened Bytes
  import opened HeaderCodec
  import opened Bitmaps

  // ---- values -------------------------------------------------------------

  datatype Type = NULL_TYPE | BOOL | INT | UINT | DOUBLE | CHAR | VARCHAR

  // A double is its eight bytes.
  datatype Value =
    | Null(ty: Type)
    | Bool(b: bool)
    | Int(i: int)
    | UInt(u: nat)
    | Double(raw: bytes)
    | Str(ty: Type, s: bytes)

  datatype Column = Column(ty: Type, maxSize: nat)

  predicate IsString(t: Type) { t == CHAR || t == VARCHAR }

  // What fits the C++ types.
  predicate ValueOk(v: Value) {
    match v
    case Null(_) => true
    case Bool(_) => true
    case Int(i) => -0x8000_0000 <= i < 0x8000_0000
    case UInt(u) => u < U32
    case Double(raw) => |raw| == 8
    case Str(ty, s) => IsString(ty) && |s| < U16
  }

  // A value a column of the schema may hold.
  predicate Matches(v: Value, c: Column) {
    match v
    case Null(_) => true
    case Bool(_) => c == Column(BOOL, 1)
    case Int(_) => c == Column(INT, 4)
    case UInt(_) => c == Column(UINT, 4)
    case Double(_) => c == Column(DOUBLE, 8)
    case Str(_, _) => IsString(c.ty)
  }

  // What the bytes keep of a value: neither the type of a null nor which of
  // the two string types it was.
  function Kept(v: Value, c: Column): Value {
    match v
    case Null(_) => Null(NULL_TYPE)
    case Str(_, s) => Str(c.ty, s)
    case _ => v
  }

  function Unsigned(i: int): nat
    requires -0x8000_0000 <= i < 0x8000_0000
  {
    if i < 0 then i + U32 else i
  }

  function Signed(n: nat): int { if n < 0x8000_0000 then n else n - U32 }

  /** A negative number is stored as its complement to 2 to the power of 32. */
  lemma TwosComplement(i: int)
    requires -0x8000_0000 <= i < 0x8000_0000
    ensures Unsigned(i) == i % U32 && Signed(i % U32) == i
  {
  }

  function ValueBytes(v: Value): bytes
    requires ValueOk(v)
  {
    match v
    case Null(_) => []
    case Bool(b) => ToBytes(if b then 1 else 0, 1)
    case Int(i) => ToBytes(Unsigned(i), 4)
    case UInt(u) => ToBytes(u, 4)
    case Double(raw) => raw
    case Str(_, s) => ToBytes(|s|, 2) + s
  }

  function GetSize(v: Value): nat {
    match v
    case Null(_) => 0
    case Bool(_) => 1
    case Int(_) => 4
    case UInt(_) => 4
    case Double(_) => 8
    case Str(_, s) => |s|
  }

  // Bytes of a value in a record; a string is preceded by its length.
  function StoredSize(v: Value): nat {
    if v.Null? then 0 else if v.Str? then GetSize(v) + 2 else GetSize(v)
  }

  // What reading gives: the values and where the next one starts, or nothing
  // when the buffer is too short.
  datatype OneRead = NoValue | OneValue(v: Value, next: nat)

  datatype ManyRead = NoValues | Values(values: seq<Value>, next: nat)

  datatype RecordRead = NoRecord | ReadRecord(header: Version, values: seq<Value>, size: nat)

  /** The value of a column at `off`, and where the next one starts. */
  function DecodeValue(b: bytes, off: nat, c: Column): OneRead {
    if c.ty == NULL_TYPE then NoValue
    else if IsString(c.ty) then
      if |b| < off + 2 || |b| < off + 2 + Num(b, off, 2) then NoValue
      else OneValue(Str(c.ty, b[off + 2..off + 2 + Num(b, off, 2)]), off + 2 + Num(b, off, 2))
    else if |b| < off + c.maxSize then NoValue
    else
      var v :=
        if c.ty == BOOL then Bool(Num(b, off, c.maxSize) != 0)
        else if c.ty == INT then Int(Signed(Num(b, off, c.maxSize)))
        else if c.ty == UINT then UInt(Num(b, off, c.maxSize))
        else Double(b[off..off + c.maxSize]);
      OneValue(v, off + c.maxSize)
  }

  lemma ValueRoundTrip(v: Value, c: Column, b: bytes, off: nat)
    requires ValueOk(v) && Matches(v, c) && !v.Null? && Stands(b, off, ValueBytes(v))
    ensures DecodeValue(b, off, c) == OneValue(Kept(v, c), off + StoredSize(v))
    ensures |ValueBytes(v)| == StoredSize(v)
  {
    Widths();
    match v
    case Bool(x) => NumStands(b, off, if x then 1 else 0, 1);
    case Int(i) => NumStands(b, off, Unsigned(i), 4);
    case UInt(u) => NumStands(b, off, u, 4);
    case Double(raw) =>
    case Str(_, s) =>
      Split(b, off, ToBytes(|s|, 2), s);
      NumStands(b, off, |s|, 2);
  }

  /** The bytes of each kind of value: one byte for a truth value, four for an
      integer, a string behind its length in two bytes. */
  lemma ValueFormat(v: Value)
    requires ValueOk(v)
    ensures var b := ValueBytes(v);
      match v
      case Null(_) => b == []
      case Bool(x) => |b| == 1 && Num(b, 0, 1) == if x then 1 else 0
      case Int(i) => |b| == 4 && Num(b, 0, 4) == i % U32
      case UInt(u) => |b| == 4 && Num(b, 0, 4) == u
      case Double(raw) => b == raw
      case Str(_, s) => |b| == 2 + |s| && Num(b, 0, 2) == |s| && b[2..] == s
  {
    Widths();
    var b := ValueBytes(v);
    match v
    case Null(_) =>
    case Bool(x) => NumStands(b, 0, if x then 1 else 0, 1);
    case Int(i) => NumStands(b, 0, Unsigned(i), 4);
    case UInt(u) => NumStands(b, 0, u, 4);
    case Double(_) =>
    case Str(_, s) => NumStands(b, 0, |s|, 2);
  }

  // ---- records ------------------------------------------------------------

  predicate ValuesOk(values: seq<Value>) { forall i :: 0 <= i < |values| ==> ValueOk(values[i]) }

  predicate Fit(values: seq<Value>, columns: seq<Column>) {
    |values| == |columns| && forall i :: 0 <= i < |values| ==> Matches(values[i], columns[i])
  }

  // The stored bytes of each value; a null takes none.
  function Encoded(values: seq<Value>): (parts: seq<bytes>)
    requires ValuesOk(values)
    ensures |parts| == |values|
  {
    seq(|values|, i requires 0 <= i < |values| => ValueBytes(values[i]))
  }

  // The first `n` parts, one after the other.
  function Concat(parts: seq<bytes>, n: nat): bytes
    requires n <= |parts|
  {
    if n == 0 then [] else Concat(parts, n - 1) + parts[n - 1]
  }

  function ValuesSize(values: seq<Value>, n: nat): nat
    requires n <= |values|
  {
    if n == 0 then 0 else ValuesSize(values, n - 1) + StoredSize(values[n - 1])
  }

  lemma PartSize(values: seq<Value>, i: nat)
    requires ValuesOk(values) && i < |values|
    ensures |Encoded(values)[i]| == StoredSize(values[i])
  {
  }

  lemma {:induction false} SizesAgree(values: seq<Value>, n: nat)
    requires ValuesOk(values) && n <= |values|
    ensures |Concat(Encoded(values), n)| == ValuesSize(values, n)
  {
    if n > 0 {
      SizesAgree(values, n - 1);
      PartSize(values, n - 1);
    }
  }

  lemma {:induction false} SizeGrows(values: seq<Value>, n: nat, m: nat)
    requires n <= m <= |values|
    ensures ValuesSize(values, n) <= ValuesSize(values, m)
    decreases m
  {
    if n < m { SizeGrows(values, n, m - 1); }
  }

  function RecordBytes(h: Version, bits: bytes, values: seq<Value>): bytes
    requires ValuesOk(values)
  {
    HeaderBytes(h) + bits + Concat(Encoded(values), |values|)
  }

  /** Header, null bitmap, then the values one after the other. */
  lemma RecordFormat(h: Version, bits: bytes, values: seq<Value>)
    requires ValuesOk(values)
    ensures var b, n := RecordBytes(h, bits, values), 13 + |bits|;
      |b| >= n && b[..13] == HeaderBytes(h) && b[13..n] == bits && b[n..] == Concat(Encoded(values), |values|)
  {
  }

  // What GetSize() of a record promises.
  function SizeOf(values: seq<Value>): nat { RECORD_HEADER_SIZE + BytesFor(|values|) + ValuesSize(values, |values|) }

  // ---- which values are null ----------------------------------------------

  function Nulls(bits: bytes, n: nat): (nulls: seq<bool>)
    requires n <= 8 * |bits|
    ensures |nulls| == n
  {
    seq(n, i requires 0 <= i < n => BitAt(bits, i))
  }

  function NullFlags(values: seq<Value>): (nulls: seq<bool>)
    ensures |nulls| == |values|
  {
    seq(|values|, i requires 0 <= i < |values| => values[i].Null?)
  }

  /** The bitmap marks exactly the null values. */
  predicate Marks(bits: bytes, values: seq<Value>) {
    |bits| == BytesFor(|values|) && |values| <= 8 * |bits| && Nulls(bits, |values|) == NullFlags(values)
  }

  lemma MarksFrom(bits: bytes, values: seq<Value>)
    requires |bits| == BytesFor(|values|)
    requires forall j :: 0 <= j < |values| ==> (BitAt(bits, j) <==> values[j].Null?)
    ensures Marks(bits, values)
  {
    forall j | 0 <= j < |values| ensures Nulls(bits, |values|)[j] == NullFlags(values)[j] {}
    assert Nulls(bits, |values|) == NullFlags(values);
  }

  lemma MarksTell(bits: bytes, values: seq<Value>)
    requires Marks(bits, values)
    ensures forall j :: 0 <= j < |values| ==> (BitAt(bits, j) <==> values[j].Null?)
  {
    forall j | 0 <= j < |values| ensures BitAt(bits, j) <==> values[j].Null? {
      assert Nulls(bits, |values|)[j] == NullFlags(values)[j];
    }
  }

  // ---- decoding -----------------------------------------------------------

  function DecodeValues(b: bytes, off: nat, nulls: seq<bool>, columns: seq<Column>, n: nat): ManyRead
    requires n <= |columns| <= |nulls|
  {
    if n == 0 then Values([], off)
    else
      match DecodeValues(b, off, nulls, columns, n - 1)
      case NoValues => NoValues
      case Values(values, at) =>
        if nulls[n - 1] then Values(values + [Null(NULL_TYPE)], at)
        else
          match DecodeValue(b, at, columns[n - 1])
          case NoValue => NoValues
          case OneValue(v, next) => Values(values + [v], next)
  }

  /** Header, values and number of bytes of the record at the head of `b`. */
  function DecodeRecord(b: bytes, columns: seq<Column>): RecordRead {
    var start := RECORD_HEADER_SIZE + BytesFor(|columns|);
    if |b| < start then NoRecord
    else
      var nulls := Nulls(b[13..start], |columns|);
      match DecodeValues(b, start, nulls, columns, |columns|)
      case NoValues => NoRecord
      case Values(values, next) => ReadRecord(VersionOf(b[..13]).value, values, next)
  }

  // The first `n` values as the bytes keep them.
  function KeptAll(values: seq<Value>, columns: seq<Column>, n: nat): seq<Value>
    requires n <= |values| == |columns|
  {
    if n == 0 then [] else KeptAll(values, columns, n - 1) + [Kept(values[n - 1], columns[n - 1])]
  }

  lemma {:induction false} KeptAt(values: seq<Value>, columns: seq<Column>, n: nat, i: nat)
    requires i < n <= |values| == |columns|
    ensures |KeptAll(values, columns, n)| == n && KeptAll(values, columns, n)[i] == Kept(values[i], columns[i])
  {
    if n > 1 { KeptAt(values, columns, n - 1, if i < n - 1 then i else 0); }
  }

  lemma PartReads(values: seq<Value>, i: nat, c: Column, b: bytes, at: nat)
    requires ValuesOk(values) && i < |values| && Matches(values[i], c) && Stands(b, at, Encoded(values)[i])
    ensures !values[i].Null? ==> DecodeValue(b, at, c) == OneValue(Kept(values[i], c), at + StoredSize(values[i]))
  {
    if !values[i].Null? { ValueRoundTrip(values[i], c, b, at); }
  }

  // One more column: a null takes no bytes, a value as many as were stored.
  lemma NextValueReads(vs: seq<Value>, at: nat, v: Value, columns: seq<Column>, nulls: seq<bool>, b: bytes, off: nat, n: nat)
    requires 0 < n <= |columns| <= |nulls| && DecodeValues(b, off, nulls, columns, n - 1) == Values(vs, at)
    requires nulls[n - 1] <==> v.Null?
    requires !v.Null? ==> DecodeValue(b, at, columns[n - 1]) == OneValue(Kept(v, columns[n - 1]), at + StoredSize(v))
    ensures DecodeValues(b, off, nulls, columns, n) == Values(vs + [Kept(v, columns[n - 1])], at + StoredSize(v))
  {
  }

  // The first `n` columns read as the first `n` values.
  ghost predicate ReadsFirst(values: seq<Value>, columns: seq<Column>, b: bytes, off: nat, n: nat)
    requires n <= |values| == |columns|
  {
    DecodeValues(b, off, NullFlags(values), columns, n) == Values(KeptAll(values, columns, n), off + ValuesSize(values, n))
  }

  lemma ReadsOneMore(values: seq<Value>, columns: seq<Column>, b: bytes, off: nat, n: nat)
    requires ValuesOk(values) && Fit(values, columns) && n < |values| && ReadsFirst(values, columns, b, off, n)
    requires Stands(b, off + ValuesSize(values, n), Encoded(values)[n])
    ensures ReadsFirst(values, columns, b, off, n + 1)
  {
    var at := off + ValuesSize(values, n);
    PartReads(values, n, columns[n], b, at);
    NextValueReads(KeptAll(values, columns, n), at, values[n], columns, NullFlags(values), b, off, n + 1);
  }

  lemma LastStands(values: seq<Value>, b: bytes, off: nat, n: nat)
    requires ValuesOk(values) && n < |values| && Stands(b, off, Concat(Encoded(values), n + 1))
    ensures Stands(b, off, Concat(Encoded(values), n)) && Stands(b, off + ValuesSize(values, n), Encoded(values)[n])
  {
    Split(b, off, Concat(Encoded(values), n), Encoded(values)[n]);
    SizesAgree(values, n);
  }

  lemma {:induction false} ValuesRead(values: seq<Value>, columns: seq<Column>, b: bytes, off: nat, n: nat)
    requires ValuesOk(values) && Fit(values, columns) && n <= |values| && Stands(b, off, Concat(Encoded(values), n))
    ensures ReadsFirst(values, columns, b, off, n)
  {
    if n > 0 {
      LastStands(values, b, off, n - 1);
      ValuesRead(values, columns, b, off, n - 1);
      ReadsOneMore(values, columns, b, off, n - 1);
    }
  }

  lemma HeaderRoundTrip(h: Version)
    requires VersionFits(h)
    ensures VersionOf(HeaderBytes(h)) == Some(h.(payload := []))
  {
    VersionRoundTrip(h.(payload := []));
    assert HeaderBytes(h) + [] == HeaderBytes(h);
  }

  // The three parts of an encoded record.
  lemma PartsRead(h: Version, bits: bytes, tail: bytes, b: bytes)
    requires VersionFits(h) && Stands(b, 0, HeaderBytes(h) + bits + tail)
    ensures |b| >= 13 + |bits| && b[13..13 + |bits|] == bits
    ensures VersionOf(b[..13]) == Some(h.(payload := []))
    ensures Stands(b, 13 + |bits|, tail)
  {
    Split(b, 0, HeaderBytes(h) + bits, tail);
    Split(b, 0, HeaderBytes(h), bits);
    HeaderRoundTrip(h);
  }

  lemma DecodesTo(h: Version, bits: bytes, columns: seq<Column>, b: bytes, values: seq<Value>, next: nat)
    requires |bits| == BytesFor(|columns|) && |b| >= 13 + |bits| && b[13..13 + |bits|] == bits
    requires VersionOf(b[..13]) == Some(h)
    requires DecodeValues(b, 13 + |bits|, Nulls(bits, |columns|), columns, |columns|) == Values(values, next)
    ensures DecodeRecord(b, columns) == ReadRecord(h, values, next)
  {
  }

  lemma Assembled(h: Version, bits: bytes, tail: bytes, columns: seq<Column>, b: bytes, values: seq<Value>, next: nat)
    requires VersionFits(h) && Stands(b, 0, HeaderBytes(h) + bits + tail) && |bits| == BytesFor(|columns|)
    requires DecodeValues(b, 13 + |bits|, Nulls(bits, |columns|), columns, |columns|) == Values(values, next)
    ensures DecodeRecord(b, columns) == ReadRecord(h.(payload := []), values, next)
  {
    PartsRead(h, bits, tail, b);
    DecodesTo(h.(payload := []), bits, columns, b, values, next);
  }

  /** Decoding what a record of the schema was encoded to, whatever follows
      it, restores header, nulls and values and consumes GetSize() bytes. */
  lemma RecordRoundTrip(h: Version, bits: bytes, values: seq<Value>, columns: seq<Column>, b: bytes)
    requires VersionFits(h) && ValuesOk(values) && Fit(values, columns) && Marks(bits, values)
    requires Stands(b, 0, RecordBytes(h, bits, values))
    ensures DecodeRecord(b, columns) == ReadRecord(h.(payload := []), KeptAll(values, columns, |values|), SizeOf(values))
  {
    var tail := Concat(Encoded(values), |values|);
    PartsRead(h, bits, tail, b);
    ValuesRead(values, columns, b, 13 + |bits|, |values|);
    Assembled(h, bits, tail, columns, b, KeptAll(values, columns, |values|), 13 + |bits| + ValuesSize(values, |values|));
  }

  /** The payload of a stored version is null bitmap and values of a record of
      the schema. */
  ghost predicate StoredAs(v: Version, bits: bytes, values: seq<Value>, columns: seq<Column>) {
    && ValuesOk(values) && Fit(values, columns) && Marks(bits, values)
    && v.payload == bits + Concat(Encoded(values), |values|)
  }

  // Reading needs the header bytes only for the header.
  lemma PayloadReads(v: Version, bits: bytes, values: seq<Value>, columns: seq<Column>, b: bytes)
    requires StoredAs(v, bits, values, columns) && |b| >= RECORD_HEADER_SIZE
    requires VersionOf(b[..13]) == Some(v.(payload := [])) && Stands(b, 13, v.payload)
    ensures DecodeRecord(b, columns) == ReadRecord(v.(payload := []), KeptAll(values, columns, |values|), SizeOf(values))
  {
    var tail := Concat(Encoded(values), |values|);
    Split(b, 13, bits, tail);
    ValuesRead(values, columns, b, 13 + |bits|, |values|);
    DecodesTo(v.(payload := []), bits, columns, b, KeptAll(values, columns, |values|), 13 + |bits| + ValuesSize(values, |values|));
  }

  // The header read is that of the first 13 bytes.
  lemma HeaderRead(b: bytes, columns: seq<Column>)
    requires DecodeRecord(b, columns).ReadRecord?
    ensures |b| >= RECORD_HEADER_SIZE && DecodeRecord(b, columns).header == VersionOf(b[..13]).value
  {
  }

  // ---- buffers ------------------------------------------------------------

  // Copy one value's bytes into the buffer.
  method PutValue(v: Value, data: array<byte>, offset: nat) returns (n: nat)
    requires ValueOk(v) && !v.Null? && offset + StoredSize(v) <= data.Length
    modifies data
    ensures n == StoredSize(v) && data[..offset + n] == old(data[..offset]) + ValueBytes(v)
  {
    n := GetSize(v);
    match v
    case Bool(b) => Put(data, offset, if b then 1 else 0, n);
    case Int(i) => Put(data, offset, Unsigned(i), n);
    case UInt(u) => Put(data, offset, u, n);
    case Double(raw) => PutBytes(data, offset, raw);
    case Str(_, s) =>
      Put(data, offset, |s|, 2);
      PutBytes(data, offset + 2, s);
      n := |s| + 2;
      assert data[..offset + n] == old(data[..offset]) + (ToBytes(|s|, 2) + s);
  }

  // The non-null values, one after the other.
  method PutValues(values: seq<Value>, data: array<byte>, start: nat) returns (offset: nat)
    requires ValuesOk(values) && start + ValuesSize(values, |values|) <= data.Length
    modifies data
    ensures offset == start + ValuesSize(values, |values|)
    ensures data[..offset] == old(data[..start]) + Concat(Encoded(values), |values|)
  {
    offset := start;
    ghost var before := data[..start];
    for i := 0 to |values|
      invariant offset == start + ValuesSize(values, i)
      invariant offset <= data.Length && data[..offset] == before + Concat(Encoded(values), i)
    {
      SizeGrows(values, i + 1, |values|);
      ghost var so := data[..offset];
      offset := PutPart(values, i, data, offset);
      assert before + Concat(Encoded(values), i) + Encoded(values)[i] == before + Concat(Encoded(values), i + 1);
    }
  }

  // A value that is not null is copied.
  method PutPart(values: seq<Value>, i: nat, data: array<byte>, start: nat) returns (offset: nat)
    requires ValuesOk(values) && i < |values| && start + StoredSize(values[i]) <= data.Length
    modifies data
    ensures offset == start + StoredSize(values[i]) && data[..offset] == old(data[..start]) + Encoded(values)[i]
  {
    offset := start;
    if !values[i].Null? {
      var n := PutValue(values[i], data, offset);
      offset := offset + n;
    }
  }

  method GetValues(data: bytes, start: nat, bits: bytes, columns: seq<Column>) returns (values: seq<Value>, offset: nat)
    requires |columns| <= 8 * |bits| && DecodeValues(data, start, Nulls(bits, |columns|), columns, |columns|).Values?
    ensures DecodeValues(data, start, Nulls(bits, |columns|), columns, |columns|) == Values(values, offset)
  {
    ghost var nulls := Nulls(bits, |columns|);
    values := [];
    offset := start;
    for i := 0 to |columns|
      invariant DecodeValues(data, start, nulls, columns, i) == Values(values, offset)
    {
      ReadPrefix(data, start, nulls, columns, i + 1);
      assert nulls[i] == BitAt(bits, i);
      if TestBit(bits[i / 8], i % 8) {
        values := values + [Null(NULL_TYPE)];
      } else {
        var read := DecodeValue(data, offset, columns[i]);
        values := values + [read.v];
        offset := read.next;
      }
    }
  }

  // If all the columns can be read, so can the first ones.
  lemma {:induction false} ReadPrefix(b: bytes, off: nat, nulls: seq<bool>, columns: seq<Column>, n: nat)
    requires n <= |columns| <= |nulls| && DecodeValues(b, off, nulls, columns, |columns|).Values?
    ensures DecodeValues(b, off, nulls, columns, n).Values?
    decreases |columns| - n
  {
    if n < |columns| { ReadPrefix(b, off, nulls, columns, n + 1); }
  }

  // A column of a table: the types of fixed size have that size.
  predicate ColumnOk(c: Column) {
    || IsString(c.ty)
    || c == Column(BOOL, 1) || c == Column(INT, 4) || c == Column(UINT, 4) || c == Column(DOUBLE, 8)
  }

  lemma ValueReadSize(b: bytes, off: nat, c: Column)
    requires ColumnOk(c) && DecodeValue(b, off, c).OneValue?
    ensures DecodeValue(b, off, c).next == off + StoredSize(DecodeValue(b, off, c).v) && !DecodeValue(b, off, c).v.Null?
  {
  }

  lemma {:induction false} SizeSame(a: seq<Value>, b: seq<Value>, n: nat)
    requires n <= |a| && n <= |b| && forall i :: 0 <= i < n ==> a[i] == b[i]
    ensures ValuesSize(a, n) == ValuesSize(b, n)
  {
    if n > 0 { SizeSame(a, b, n - 1); }
  }

  /** Whatever was read, its size is that of the values and its nulls are the
      marked ones. */
  lemma {:induction false} ReadFacts(b: bytes, off: nat, nulls: seq<bool>, columns: seq<Column>, n: nat)
    requires n <= |columns| <= |nulls| && DecodeValues(b, off, nulls, columns, n).Values?
    requires forall i :: 0 <= i < |columns| ==> ColumnOk(columns[i])
    ensures var r := DecodeValues(b, off, nulls, columns, n);
      && |r.values| == n && r.next == off + ValuesSize(r.values, n)
      && (forall i :: 0 <= i < n ==> (nulls[i] <==> r.values[i].Null?))
  {
    if n > 0 {
      ReadFacts(b, off, nulls, columns, n - 1);
      var p := DecodeValues(b, off, nulls, columns, n - 1);
      var r := DecodeValues(b, off, nulls, columns, n);
      SizeSame(p.values, r.values, n - 1);
      if !nulls[n - 1] { ValueReadSize(b, p.next, columns[n - 1]); }
    }
  }

  class Record {
    const nullBitmap: Bitmap
    const header: RecordHeader
    var values: seq<Value>
    var size: nat

    /** The bitmap marks the nulls, the size is that of the stored bytes. */
    ghost predicate Valid()
      reads this, nullBitmap
    {
      nullBitmap.size == |values| && Marks(nullBitmap.bits, values) && size == SizeOf(values)
    }

    constructor (values: seq<Value>)
      ensures Valid() && this.values == values && fresh(nullBitmap) && fresh(header)
    {
      nullBitmap := new Bitmap(|values|);
      header := new RecordHeader();
      this.values := values;
      size := 0;
      new;
      for i := 0 to |values|
        invariant nullBitmap.Valid() && nullBitmap.size == |values|
        invariant forall j :: 0 <= j < 8 * |nullBitmap.bits| ==> (BitAt(nullBitmap.bits, j) <==> j < i && values[j].Null?)
        modifies nullBitmap
      {
        if values[i].Null? {
          var ok := nullBitmap.Set(i);
        }
      }
      MarksFrom(nullBitmap.bits, values);
      UpdateSize();
    }

    // Sum up the stored sizes.
    method UpdateSize()
      requires nullBitmap.Valid() && nullBitmap.size == |values|
      modifies this`size
      ensures size == SizeOf(values)
    {
      size := RECORD_HEADER_SIZE + |nullBitmap.bits|;
      for i := 0 to |values|
        invariant size == RECORD_HEADER_SIZE + |nullBitmap.bits| + ValuesSize(values, i)
        modifies this`size
      {
        if values[i].Null? {
          continue;
        }
        size := size + GetSize(values[i]);
        if values[i].Str? {
          size := size + 2;
        }
      }
    }

    method SetValue(colIdx: nat, v: Value)
      requires Valid() && colIdx < |values|
      modifies this, nullBitmap
      ensures Valid() && values == old(values)[colIdx := v]
    {
      values := values[colIdx := v];
      MarksTell(nullBitmap.bits, old(values));
      if v.Null? {
        var ok := nullBitmap.Set(colIdx);
      } else {
        var ok := nullBitmap.Clear(colIdx);
      }
      MarksFrom(nullBitmap.bits, values);
      UpdateSize();
    }

    method SerializeTo(data: array<byte>) returns (offset: nat)
      requires Valid() && ValuesOk(values) && data.Length >= size
      modifies data
      ensures offset == size && data[..offset] == RecordBytes(header.State(), nullBitmap.bits, values)
    {
      offset := header.SerializeTo(data);
      PutBytes(data, offset, nullBitmap.bits);
      offset := offset + |nullBitmap.bits|;
      offset := PutValues(values, data, offset);
    }

    // Read header, bitmap and then one value per column.
    method DeserializeFrom(data: bytes, columns: seq<Column>) returns (offset: nat)
      requires Valid() && values == [] && DecodeRecord(data, columns).ReadRecord?
      requires forall i :: 0 <= i < |columns| ==> ColumnOk(columns[i])
      modifies this, header, nullBitmap
      ensures Valid() && offset == size
      ensures DecodeRecord(data, columns) == ReadRecord(header.State(), values, offset)
    {
      var start := RECORD_HEADER_SIZE + BytesFor(|columns|);
      var used := header.DeserializeFrom(data);
      nullBitmap.Resize(|columns|);
      nullBitmap.bits := data[13..start];
      values, offset := GetValues(data, start, nullBitmap.bits, columns);
      ghost var nulls := Nulls(nullBitmap.bits, |columns|);
      ReadFacts(data, start, nulls, columns, |columns|);
      assert forall i :: 0 <= i < |values| ==> (nulls[i] <==> BitAt(nullBitmap.bits, i));
      MarksFrom(nullBitmap.bits, values);
      UpdateSize();
    }
  }
}
