/** Lock modes and the recorded lock lists of the lock manager, as values. */
module Locks {
  import opened Types

  datatype LockType = IS | IX | S | SIX | X

  datatype Granularity = TABLE | ROW

  datatype Lock = Lock(gran: Granularity, mode: LockType, oid: Oid, rid: Rid)

  // The record id of a table lock is never looked at.
  const NO_RID := Rid(0, 0)

  type LockMap = map<Xid, seq<Lock>>

  function Compatible(a: LockType, b: LockType): bool {
    if a == S then
      if b == S || b == IS then true else false
    else if a == X then
      false
    else if a == IS then
      if b == X then false else true
    else if a == IX then
      if b == IS || b == IX then true else false
    else if a == SIX then
      if b == IS then true else false
    else
      true
  }

  function Upgrade(self: LockType, other: LockType): LockType {
    if self == S then
      if other == X then X
      else if other == IX then SIX
      else S
    else if self == X then
      X
    else if self == IS then
      other
    else if self == IX then
      if other == S then SIX
      else if other == X || other == SIX then other
      else self
    else if self == SIX then
      if other == X then other else self
    else
      IS
  }

  /** The strength order of the modes: `a` gives no more than `b`. */
  predicate Leq(a: LockType, b: LockType) {
    a == b || a == IS || b == X || ((a == IX || a == S) && b == SIX)
  }

  predicate TableRequest(m: LockType) { m != SIX }

  predicate RowRequest(m: LockType) { m == S || m == X }

  // ---- what a mode allows -------------------------------------------------

  // A table mode as rights on the rows: an intention mode alone reads no row
  // and leaves the rows it writes to row locks.
  predicate ReadsAll(m: LockType) { m == S || m == SIX || m == X }

  predicate WritesAll(m: LockType) { m == X }

  predicate WritesSome(m: LockType) { m == IX || m == SIX || m == X }

  /** Two modes conflict when one writes every row, or one reads every row while
      the other writes some. */
  predicate Clash(a: LockType, b: LockType) {
    WritesAll(a) || WritesAll(b) || (ReadsAll(a) && WritesSome(b)) || (WritesSome(a) && ReadsAll(b))
  }

  /** Modes are compatible exactly when what they allow does not conflict. */
  lemma CompatibleMeaning(a: LockType, b: LockType)
    ensures Compatible(a, b) <==> !Clash(a, b)
  {
  }

  /** A mode is at most another exactly when it allows no more. */
  lemma LeqMeaning(a: LockType, b: LockType)
    ensures Leq(a, b) <==>
      (ReadsAll(a) ==> ReadsAll(b)) && (WritesSome(a) ==> WritesSome(b)) && (WritesAll(a) ==> WritesAll(b))
  {
  }

  // The weakest mode that allows what is held already and what is asked for.
  ghost predicate LeastOver(prior: Option<LockType>, m: LockType, r: LockType) {
    && (prior.Some? ==> Leq(prior.value, r)) && Leq(m, r)
    && forall c :: (prior.Some? ==> Leq(prior.value, c)) && Leq(m, c) ==> Leq(r, c)
  }

  /** Upgrading by a mode a client can ask for is the least upper bound. */
  lemma UpgradeIsJoin(a: LockType, b: LockType)
    requires TableRequest(b)
    ensures Leq(a, Upgrade(a, b)) && Leq(b, Upgrade(a, b))
    ensures forall c :: Leq(a, c) && Leq(b, c) ==> Leq(Upgrade(a, b), c)
  {
  }

  /** Only the mode SIX, which no client can ask for, breaks the join: an S
      lock asked to become SIX stays S. */
  lemma UpgradeJoinExactly(a: LockType, b: LockType)
    ensures (Leq(a, Upgrade(a, b)) && Leq(b, Upgrade(a, b))) <==> !(a == S && b == SIX)
  {
  }

  /** Compatibility is symmetric and can only shrink when a mode grows. */
  lemma CompatibleShrinks(a: LockType, b: LockType, c: LockType)
    requires Leq(a, b)
    ensures Compatible(a, c) == Compatible(c, a)
    ensures Compatible(b, c) ==> Compatible(a, c)
  {
  }

  // ---- the recorded lists -------------------------------------------------

  predicate IsTable(l: Lock, oid: Oid) { l.gran == TABLE && l.oid == oid }

  predicate IsRow(l: Lock, oid: Oid, rid: Rid) { l.gran == ROW && l.oid == oid && l.rid == rid }

  function Held(m: LockMap, x: Xid): seq<Lock> {
    if x in m then m[x] else []
  }

  // The mode of the last entry for the table among the first `n`.
  function TableModeTo(ls: seq<Lock>, n: nat, oid: Oid): Option<LockType>
    requires n <= |ls|
  {
    if n == 0 then None
    else if IsTable(ls[n - 1], oid) then Some(ls[n - 1].mode)
    else TableModeTo(ls, n - 1, oid)
  }

  function RowModeTo(ls: seq<Lock>, n: nat, oid: Oid, rid: Rid): Option<LockType>
    requires n <= |ls|
  {
    if n == 0 then None
    else if IsRow(ls[n - 1], oid, rid) then Some(ls[n - 1].mode)
    else RowModeTo(ls, n - 1, oid, rid)
  }

  function TableModeIn(ls: seq<Lock>, oid: Oid): Option<LockType> {
    TableModeTo(ls, |ls|, oid)
  }

  function RowModeIn(ls: seq<Lock>, oid: Oid, rid: Rid): Option<LockType> {
    RowModeTo(ls, |ls|, oid, rid)
  }

  lemma {:induction false} TableModeNone(ls: seq<Lock>, n: nat, oid: Oid)
    requires n <= |ls|
    ensures TableModeTo(ls, n, oid).None? <==> forall i :: 0 <= i < n ==> !IsTable(ls[i], oid)
  {
    if n > 0 { TableModeNone(ls, n - 1, oid); }
  }

  lemma {:induction false} RowModeNone(ls: seq<Lock>, n: nat, oid: Oid, rid: Rid)
    requires n <= |ls|
    ensures RowModeTo(ls, n, oid, rid).None? <==> forall i :: 0 <= i < n ==> !IsRow(ls[i], oid, rid)
  {
    if n > 0 { RowModeNone(ls, n - 1, oid, rid); }
  }

  lemma {:induction false} TableModeWitness(ls: seq<Lock>, n: nat, oid: Oid) returns (k: nat)
    requires n <= |ls| && TableModeTo(ls, n, oid).Some?
    ensures k < n && IsTable(ls[k], oid) && TableModeTo(ls, n, oid) == Some(ls[k].mode)
  {
    if IsTable(ls[n - 1], oid) { k := n - 1; } else { k := TableModeWitness(ls, n - 1, oid); }
  }

  lemma {:induction false} RowModeWitness(ls: seq<Lock>, n: nat, oid: Oid, rid: Rid) returns (k: nat)
    requires n <= |ls| && RowModeTo(ls, n, oid, rid).Some?
    ensures k < n && IsRow(ls[k], oid, rid) && RowModeTo(ls, n, oid, rid) == Some(ls[k].mode)
  {
    if IsRow(ls[n - 1], oid, rid) { k := n - 1; } else { k := RowModeWitness(ls, n - 1, oid, rid); }
  }

  function TableMode(m: LockMap, x: Xid, oid: Oid): Option<LockType> {
    TableModeIn(Held(m, x), oid)
  }

  function RowMode(m: LockMap, x: Xid, oid: Oid, rid: Rid): Option<LockType> {
    RowModeIn(Held(m, x), oid, rid)
  }

  function Joined(prior: Option<LockType>, m: LockType): LockType {
    if prior.Some? then Upgrade(prior.value, m) else m
  }

  function TableUpgraded(l: Lock, m: LockType, oid: Oid): Lock {
    if IsTable(l, oid) then l.(mode := Upgrade(l.mode, m)) else l
  }

  function RowUpgraded(l: Lock, m: LockType, oid: Oid, rid: Rid): Lock {
    if IsRow(l, oid, rid) then l.(mode := Upgrade(l.mode, m)) else l
  }

  function UpgradeTable(ls: seq<Lock>, m: LockType, oid: Oid): seq<Lock> {
    seq(|ls|, i requires 0 <= i < |ls| => TableUpgraded(ls[i], m, oid))
  }

  function UpgradeRow(ls: seq<Lock>, m: LockType, oid: Oid, rid: Rid): seq<Lock> {
    seq(|ls|, i requires 0 <= i < |ls| => RowUpgraded(ls[i], m, oid, rid))
  }

  // What LockTable leaves recorded for the caller.
  function RecordTable(ls: seq<Lock>, m: LockType, oid: Oid): seq<Lock> {
    if TableModeIn(ls, oid).Some? then UpgradeTable(ls, m, oid) else ls + [Lock(TABLE, m, oid, NO_RID)]
  }

  function RecordRow(ls: seq<Lock>, m: LockType, oid: Oid, rid: Rid): seq<Lock> {
    if RowModeIn(ls, oid, rid).Some? then UpgradeRow(ls, m, oid, rid) else ls + [Lock(ROW, m, oid, rid)]
  }

  function Intention(m: LockType): LockType { if m == S then IS else IX }

  // Row entry first, table entry second: the order in which LockRow appends.
  function RecordRowAndTable(ls: seq<Lock>, m: LockType, oid: Oid, rid: Rid): seq<Lock> {
    RecordTable(RecordRow(ls, m, oid, rid), Intention(m), oid)
  }

  predicate TableOk(ls: seq<Lock>, oid: Oid, mine: LockType) {
    forall i :: 0 <= i < |ls| && IsTable(ls[i], oid) ==> Compatible(ls[i].mode, mine)
  }

  predicate RowOk(ls: seq<Lock>, oid: Oid, rid: Rid, mine: LockType) {
    forall i :: 0 <= i < |ls| && IsRow(ls[i], oid, rid) ==> Compatible(ls[i].mode, mine)
  }

  // An entry of the list conflicts with the mode on the table, or on the row.
  ghost predicate BarsTable(ls: seq<Lock>, oid: Oid, mine: LockType) {
    exists i :: 0 <= i < |ls| && IsTable(ls[i], oid) && Clash(ls[i].mode, mine)
  }

  ghost predicate BarsRow(ls: seq<Lock>, oid: Oid, rid: Rid, mine: LockType) {
    exists i :: 0 <= i < |ls| && IsRow(ls[i], oid, rid) && Clash(ls[i].mode, mine)
  }

  // LockTable: the map after the call, and the answer.
  function AfterLockTable(m: LockMap, x: Xid, t: LockType, oid: Oid): LockMap {
    m[x := RecordTable(Held(m, x), t, oid)]
  }

  predicate LockTableOk(m: LockMap, x: Xid, t: LockType, oid: Oid) {
    forall y :: y in m && y != x ==> TableOk(m[y], oid, Joined(TableMode(m, x, oid), t))
  }

  function AfterLockRow(m: LockMap, x: Xid, t: LockType, oid: Oid, rid: Rid): LockMap {
    m[x := RecordRowAndTable(Held(m, x), t, oid, rid)]
  }

  predicate LockRowOk(m: LockMap, x: Xid, t: LockType, oid: Oid, rid: Rid) {
    forall y :: y in m && y != x ==>
      TableOk(m[y], oid, Joined(TableMode(m, x, oid), Intention(t))) &&
      RowOk(m[y], oid, rid, Joined(RowMode(m, x, oid, rid), t))
  }

  function AfterRelease(m: LockMap, x: Xid): LockMap {
    m[x := []]
  }

  // ---- shape --------------------------------------------------------------

  predicate SameTarget(a: Lock, b: Lock) {
    a.gran == b.gran && a.oid == b.oid && (a.gran == ROW ==> a.rid == b.rid)
  }

  ghost predicate Distinct(ls: seq<Lock>) {
    forall i, j :: 0 <= i < j < |ls| ==> !SameTarget(ls[i], ls[j])
  }

  // The row lock `l` is covered by a strong enough lock on its table.
  predicate Covered(ls: seq<Lock>, l: Lock) {
    l.gran == ROW ==>
      RowRequest(l.mode) && TableModeIn(ls, l.oid).Some? && Leq(Intention(l.mode), TableModeIn(ls, l.oid).value)
  }

  /** At most one entry per table and per row, and every row lock covered by
      a table lock strong enough for it. */
  ghost predicate Shape(ls: seq<Lock>) {
    && Distinct(ls)
    && (forall i :: 0 <= i < |ls| ==> Covered(ls, ls[i]))
  }

  ghost predicate AllShaped(m: LockMap) {
    forall x :: x in m ==> Shape(m[x])
  }

  // In a distinct list the recorded mode is that of the one matching entry.
  lemma {:induction false} TableModeUnique(ls: seq<Lock>, oid: Oid, k: nat)
    requires Distinct(ls)
    requires k < |ls| && IsTable(ls[k], oid)
    ensures TableModeIn(ls, oid) == Some(ls[k].mode)
  {
    TableModeNone(ls, |ls|, oid);
    var i := TableModeWitness(ls, |ls|, oid);
    assert i != k ==> SameTarget(ls[i], ls[k]) && SameTarget(ls[k], ls[i]);
  }

  lemma {:induction false} RowModeUnique(ls: seq<Lock>, oid: Oid, rid: Rid, k: nat)
    requires Distinct(ls)
    requires k < |ls| && IsRow(ls[k], oid, rid)
    ensures RowModeIn(ls, oid, rid) == Some(ls[k].mode)
  {
    RowModeNone(ls, |ls|, oid, rid);
    var i := RowModeWitness(ls, |ls|, oid, rid);
    assert i != k ==> SameTarget(ls[i], ls[k]) && SameTarget(ls[k], ls[i]);
  }

  // `r` is `ls` with some modes changed and perhaps one entry for a new target appended.
  ghost predicate Extends(ls: seq<Lock>, r: seq<Lock>) {
    && |ls| <= |r| <= |ls| + 1
    && (forall i :: 0 <= i < |ls| ==> SameTarget(r[i], ls[i]))
    && (|r| > |ls| ==> forall i :: 0 <= i < |ls| ==> !SameTarget(ls[i], r[|ls|]))
  }

  ghost predicate SameForTable(ls: seq<Lock>, r: seq<Lock>, oid: Oid)
    requires Extends(ls, r)
  {
    && (forall i :: 0 <= i < |ls| && IsTable(ls[i], oid) ==> r[i] == ls[i])
    && (|r| > |ls| ==> !IsTable(r[|ls|], oid))
  }

  ghost predicate SameForRow(ls: seq<Lock>, r: seq<Lock>, oid: Oid, rid: Rid)
    requires Extends(ls, r)
  {
    && (forall i :: 0 <= i < |ls| && IsRow(ls[i], oid, rid) ==> r[i] == ls[i])
    && (|r| > |ls| ==> !IsRow(r[|ls|], oid, rid))
  }

  lemma ExtendsDistinct(ls: seq<Lock>, r: seq<Lock>)
    requires Distinct(ls) && Extends(ls, r)
    ensures Distinct(r)
  {
    forall i, j | 0 <= i < j < |r| ensures !SameTarget(r[i], r[j]) {
      assert SameTarget(r[i], ls[i]);
      if j < |ls| {
        assert !SameTarget(ls[i], ls[j]) && SameTarget(r[j], ls[j]);
      } else {
        assert !SameTarget(ls[i], r[|ls|]);
      }
    }
  }

  // What an update at one target does to the two mode functions.
  lemma {:induction false} ExtendsModes(ls: seq<Lock>, r: seq<Lock>, oid: Oid, rid: Rid)
    requires Distinct(ls) && Extends(ls, r)
    ensures SameForTable(ls, r, oid) ==> TableModeIn(r, oid) == TableModeIn(ls, oid)
    ensures SameForRow(ls, r, oid, rid) ==> RowModeIn(r, oid, rid) == RowModeIn(ls, oid, rid)
  {
    ExtendsDistinct(ls, r);
    if TableModeIn(r, oid).Some? {
      var k := TableModeWitness(r, |r|, oid);
      if k < |ls| {
        assert IsTable(ls[k], oid);
        TableModeUnique(ls, oid, k);
      }
    } else if TableModeIn(ls, oid).Some? {
      var k := TableModeWitness(ls, |ls|, oid);
      assert IsTable(r[k], oid);
      TableModeUnique(r, oid, k);
    }
    if RowModeIn(r, oid, rid).Some? {
      var k := RowModeWitness(r, |r|, oid, rid);
      if k < |ls| {
        assert IsRow(ls[k], oid, rid);
        RowModeUnique(ls, oid, rid, k);
      }
    } else if RowModeIn(ls, oid, rid).Some? {
      var k := RowModeWitness(ls, |ls|, oid, rid);
      assert IsRow(r[k], oid, rid);
      RowModeUnique(r, oid, rid, k);
    }
  }

  lemma RecordTableExtends(ls: seq<Lock>, m: LockType, oid: Oid)
    ensures Extends(ls, RecordTable(ls, m, oid))
  {
    TableModeNone(ls, |ls|, oid);
  }

  lemma RecordRowExtends(ls: seq<Lock>, m: LockType, oid: Oid, rid: Rid)
    ensures Extends(ls, RecordRow(ls, m, oid, rid))
  {
    RowModeNone(ls, |ls|, oid, rid);
  }

  /** Recording a table request makes the caller's mode for that table the
      join and leaves every other recorded mode as it was. */
  lemma {:induction false} RecordTableModes(ls: seq<Lock>, m: LockType, oid: Oid, o2: Oid, rid: Rid)
    requires Distinct(ls)
    ensures Distinct(RecordTable(ls, m, oid))
    ensures TableModeIn(RecordTable(ls, m, oid), o2) ==
      if o2 == oid then Some(Joined(TableModeIn(ls, oid), m)) else TableModeIn(ls, o2)
    ensures RowModeIn(RecordTable(ls, m, oid), o2, rid) == RowModeIn(ls, o2, rid)
  {
    var r := RecordTable(ls, m, oid);
    RecordTableExtends(ls, m, oid);
    ExtendsDistinct(ls, r);
    ExtendsModes(ls, r, o2, rid);
    if TableModeIn(ls, oid).Some? {
      var k := TableModeWitness(ls, |ls|, oid);
      TableModeUnique(r, oid, k);
    } else {
      TableModeUnique(r, oid, |ls|);
    }
  }

  lemma {:induction false} RecordRowModes(ls: seq<Lock>, m: LockType, oid: Oid, rid: Rid, o2: Oid, rid2: Rid)
    requires Distinct(ls)
    ensures Distinct(RecordRow(ls, m, oid, rid))
    ensures TableModeIn(RecordRow(ls, m, oid, rid), o2) == TableModeIn(ls, o2)
    ensures RowModeIn(RecordRow(ls, m, oid, rid), o2, rid2) ==
      if o2 == oid && rid2 == rid then Some(Joined(RowModeIn(ls, oid, rid), m)) else RowModeIn(ls, o2, rid2)
  {
    var r := RecordRow(ls, m, oid, rid);
    RecordRowExtends(ls, m, oid, rid);
    ExtendsDistinct(ls, r);
    ExtendsModes(ls, r, o2, rid2);
    if RowModeIn(ls, oid, rid).Some? {
      var k := RowModeWitness(ls, |ls|, oid, rid);
      RowModeUnique(r, oid, rid, k);
    } else {
      RowModeUnique(r, oid, rid, |ls|);
    }
  }

  /** Recording a row request: the join for the row, the join with the
      intention mode for its table, nothing else. */
  lemma {:induction false} RecordRowAndTableModes(ls: seq<Lock>, m: LockType, oid: Oid, rid: Rid, o2: Oid, rid2: Rid)
    requires Distinct(ls)
    ensures Distinct(RecordRowAndTable(ls, m, oid, rid))
    ensures TableModeIn(RecordRowAndTable(ls, m, oid, rid), o2) ==
      if o2 == oid then Some(Joined(TableModeIn(ls, oid), Intention(m))) else TableModeIn(ls, o2)
    ensures RowModeIn(RecordRowAndTable(ls, m, oid, rid), o2, rid2) ==
      if o2 == oid && rid2 == rid then Some(Joined(RowModeIn(ls, oid, rid), m)) else RowModeIn(ls, o2, rid2)
  {
    RecordRowModes(ls, m, oid, rid, o2, rid2);
    RecordTableModes(RecordRow(ls, m, oid, rid), Intention(m), oid, o2, rid2);
    RecordRowModes(ls, m, oid, rid, oid, rid2);
  }

  // Shape in terms of modes only.
  ghost predicate CoveredAt(ls: seq<Lock>, oid: Oid, rid: Rid) {
    RowModeIn(ls, oid, rid).Some? ==>
      && RowRequest(RowModeIn(ls, oid, rid).value)
      && TableModeIn(ls, oid).Some?
      && Leq(Intention(RowModeIn(ls, oid, rid).value), TableModeIn(ls, oid).value)
  }

  lemma CoveredByModes(ls: seq<Lock>)
    requires Distinct(ls)
    requires forall oid, rid :: CoveredAt(ls, oid, rid)
    ensures Shape(ls)
  {
    forall i | 0 <= i < |ls| ensures Covered(ls, ls[i]) {
      if ls[i].gran == ROW {
        RowModeUnique(ls, ls[i].oid, ls[i].rid, i);
        assert CoveredAt(ls, ls[i].oid, ls[i].rid);
      }
    }
  }

  lemma ShapeModes(ls: seq<Lock>, oid: Oid, rid: Rid)
    requires Shape(ls)
    ensures CoveredAt(ls, oid, rid)
  {
    if RowModeIn(ls, oid, rid).Some? {
      var i := RowModeWitness(ls, |ls|, oid, rid);
      assert Covered(ls, ls[i]);
    }
  }

  /** The list keeps its shape whatever is requested, granted or not. */
  lemma RecordTableShape(ls: seq<Lock>, m: LockType, oid: Oid)
    requires Shape(ls) && TableRequest(m)
    ensures Shape(RecordTable(ls, m, oid))
  {
    var r := RecordTable(ls, m, oid);
    forall o, rid ensures CoveredAt(r, o, rid) {
      RecordTableModes(ls, m, oid, o, rid);
      ShapeModes(ls, o, rid);
    }
    RecordTableModes(ls, m, oid, oid, NO_RID);
    CoveredByModes(r);
  }

  lemma {:induction false} RecordRowCovers(ls: seq<Lock>, m: LockType, oid: Oid, rid: Rid, o: Oid, rid2: Rid)
    requires Shape(ls) && RowRequest(m)
    ensures CoveredAt(RecordRowAndTable(ls, m, oid, rid), o, rid2)
  {
    var r := RecordRowAndTable(ls, m, oid, rid);
    RecordRowAndTableModes(ls, m, oid, rid, o, rid2);
    ShapeModes(ls, o, rid2);
    ShapeModes(ls, oid, rid);
    JoinCovers(TableModeIn(ls, oid), RowModeIn(ls, oid, rid), m);
    if o == oid && RowModeIn(ls, o, rid2).Some? {
      JoinKeeps(TableModeIn(ls, oid).value, Intention(m), Intention(RowModeIn(ls, o, rid2).value));
    }
  }

  lemma JoinCovers(t: Option<LockType>, r: Option<LockType>, m: LockType)
    requires RowRequest(m)
    requires r.Some? ==> RowRequest(r.value) && t.Some? && Leq(Intention(r.value), t.value)
    ensures RowRequest(Joined(r, m)) && Leq(Intention(Joined(r, m)), Joined(t, Intention(m)))
  {
  }

  lemma JoinKeeps(t: LockType, m: LockType, low: LockType)
    requires TableRequest(m) && Leq(low, t)
    ensures Leq(low, Upgrade(t, m))
  {
  }

  lemma RecordRowShape(ls: seq<Lock>, m: LockType, oid: Oid, rid: Rid)
    requires Shape(ls) && RowRequest(m)
    ensures Shape(RecordRowAndTable(ls, m, oid, rid))
  {
    forall o, rid2 ensures CoveredAt(RecordRowAndTable(ls, m, oid, rid), o, rid2) {
      RecordRowCovers(ls, m, oid, rid, o, rid2);
    }
    RecordRowAndTableModes(ls, m, oid, rid, oid, rid);
    CoveredByModes(RecordRowAndTable(ls, m, oid, rid));
  }

  // ---- the check in terms of modes ---------------------------------------

  lemma TableOkIsMode(ls: seq<Lock>, oid: Oid, mine: LockType)
    requires Distinct(ls)
    ensures TableOk(ls, oid, mine) <==>
      (TableModeIn(ls, oid).Some? ==> Compatible(TableModeIn(ls, oid).value, mine))
  {
    TableModeNone(ls, |ls|, oid);
    if TableModeIn(ls, oid).Some? {
      var k := TableModeWitness(ls, |ls|, oid);
    }
    forall i | 0 <= i < |ls| && IsTable(ls[i], oid) ensures TableModeIn(ls, oid) == Some(ls[i].mode) {
      TableModeUnique(ls, oid, i);
    }
  }

  lemma RowOkIsMode(ls: seq<Lock>, oid: Oid, rid: Rid, mine: LockType)
    requires Distinct(ls)
    ensures RowOk(ls, oid, rid, mine) <==>
      (RowModeIn(ls, oid, rid).Some? ==> Compatible(RowModeIn(ls, oid, rid).value, mine))
  {
    RowModeNone(ls, |ls|, oid, rid);
    if RowModeIn(ls, oid, rid).Some? {
      var k := RowModeWitness(ls, |ls|, oid, rid);
    }
    forall i | 0 <= i < |ls| && IsRow(ls[i], oid, rid) ensures RowModeIn(ls, oid, rid) == Some(ls[i].mode) {
      RowModeUnique(ls, oid, rid, i);
    }
  }

  // ---- the answer in terms of what the modes allow ------------------------

  lemma {:induction false} UpgradedTableMode(ls: seq<Lock>, n: nat, m: LockType, oid: Oid)
    requires n <= |ls|
    ensures TableModeTo(UpgradeTable(ls, m, oid), n, oid) ==
      if TableModeTo(ls, n, oid).Some? then Some(Upgrade(TableModeTo(ls, n, oid).value, m)) else None
  {
    if n > 0 { UpgradedTableMode(ls, n - 1, m, oid); }
  }

  lemma {:induction false} UpgradedRowMode(ls: seq<Lock>, n: nat, m: LockType, oid: Oid, rid: Rid)
    requires n <= |ls|
    ensures RowModeTo(UpgradeRow(ls, m, oid, rid), n, oid, rid) ==
      if RowModeTo(ls, n, oid, rid).Some? then Some(Upgrade(RowModeTo(ls, n, oid, rid).value, m)) else None
  {
    if n > 0 { UpgradedRowMode(ls, n - 1, m, oid, rid); }
  }

  // Entries of the other kind do not matter.
  lemma {:induction false} OtherKindSame(a: seq<Lock>, b: seq<Lock>, n: nat, oid: Oid, rid: Rid)
    requires n <= |a| && n <= |b|
    ensures (forall i :: 0 <= i < n ==> (if IsTable(a[i], oid) then b[i] == a[i] else !IsTable(b[i], oid))) ==>
      TableModeTo(a, n, oid) == TableModeTo(b, n, oid)
    ensures (forall i :: 0 <= i < n ==> (if IsRow(a[i], oid, rid) then b[i] == a[i] else !IsRow(b[i], oid, rid))) ==>
      RowModeTo(a, n, oid, rid) == RowModeTo(b, n, oid, rid)
  {
    if n > 0 { OtherKindSame(a, b, n - 1, oid, rid); }
  }

  lemma RecordedTable(ls: seq<Lock>, m: LockType, oid: Oid)
    ensures TableModeIn(RecordTable(ls, m, oid), oid) == Some(Joined(TableModeIn(ls, oid), m))
  {
    UpgradedTableMode(ls, |ls|, m, oid);
  }

  lemma RecordedRow(ls: seq<Lock>, m: LockType, oid: Oid, rid: Rid)
    ensures RowModeIn(RecordRow(ls, m, oid, rid), oid, rid) == Some(Joined(RowModeIn(ls, oid, rid), m))
    ensures TableModeIn(RecordRow(ls, m, oid, rid), oid) == TableModeIn(ls, oid)
  {
    var r := RecordRow(ls, m, oid, rid);
    UpgradedRowMode(ls, |ls|, m, oid, rid);
    OtherKindSame(ls, r, |ls|, oid, rid);
  }

  lemma RecordedBoth(ls: seq<Lock>, m: LockType, oid: Oid, rid: Rid)
    ensures var r := RecordRowAndTable(ls, m, oid, rid);
      && TableModeIn(r, oid) == Some(Joined(TableModeIn(ls, oid), Intention(m)))
      && RowModeIn(r, oid, rid) == Some(Joined(RowModeIn(ls, oid, rid), m))
  {
    var row := RecordRow(ls, m, oid, rid);
    RecordedRow(ls, m, oid, rid);
    RecordedTable(row, Intention(m), oid);
    OtherKindSame(row, RecordTable(row, Intention(m), oid), |row|, oid, rid);
  }

  lemma OkIsUnbarred(ls: seq<Lock>, oid: Oid, rid: Rid, mine: LockType)
    ensures TableOk(ls, oid, mine) <==> !BarsTable(ls, oid, mine)
    ensures RowOk(ls, oid, rid, mine) <==> !BarsRow(ls, oid, rid, mine)
  {
  }

  lemma JoinedIsLeast(prior: Option<LockType>, m: LockType)
    requires TableRequest(m)
    ensures LeastOver(prior, m, Joined(prior, m))
  {
    if prior.Some? { UpgradeIsJoin(prior.value, m); }
  }

  /** A table request is recorded as the weakest mode that covers it, whatever
      the answer, and refused exactly when another transaction's entry really
      conflicts with that mode. */
  lemma TableRequestMeaning(m: LockMap, x: Xid, t: LockType, oid: Oid)
    ensures var mode := TableMode(AfterLockTable(m, x, t, oid), x, oid);
      && mode.Some?
      && (TableRequest(t) ==> LeastOver(TableMode(m, x, oid), t, mode.value))
      && (LockTableOk(m, x, t, oid) <==> forall y :: y in m && y != x ==> !BarsTable(m[y], oid, mode.value))
  {
    RecordedTable(Held(m, x), t, oid);
    if TableRequest(t) { JoinedIsLeast(TableMode(m, x, oid), t); }
    var mode := Joined(TableMode(m, x, oid), t);
    forall y | y in m ensures TableOk(m[y], oid, mode) <==> !BarsTable(m[y], oid, mode) { OkIsUnbarred(m[y], oid, NO_RID, mode); }
  }

  /** A row request asks for the row and for the intention on its table. */
  lemma RowRequestMeaning(m: LockMap, x: Xid, t: LockType, oid: Oid, rid: Rid)
    ensures var m' := AfterLockRow(m, x, t, oid, rid);
      var table, row := TableMode(m', x, oid), RowMode(m', x, oid, rid);
      && table.Some? && row.Some?
      && LeastOver(TableMode(m, x, oid), if t == S then IS else IX, table.value)
      && (TableRequest(t) ==> LeastOver(RowMode(m, x, oid, rid), t, row.value))
      && (LockRowOk(m, x, t, oid, rid) <==>
            forall y :: y in m && y != x ==> !BarsTable(m[y], oid, table.value) && !BarsRow(m[y], oid, rid, row.value))
  {
    RecordedBoth(Held(m, x), t, oid, rid);
    JoinedIsLeast(TableMode(m, x, oid), Intention(t));
    if TableRequest(t) { JoinedIsLeast(RowMode(m, x, oid, rid), t); }
    var table, row := Joined(TableMode(m, x, oid), Intention(t)), Joined(RowMode(m, x, oid, rid), t);
    forall y | y in m ensures (TableOk(m[y], oid, table) <==> !BarsTable(m[y], oid, table)) && (RowOk(m[y], oid, rid, row) <==> !BarsRow(m[y], oid, rid, row)) {
      OkIsUnbarred(m[y], oid, rid, table);
      OkIsUnbarred(m[y], oid, rid, row);
    }
  }

  // ---- release ------------------------------------------------------------

  // The transaction holds nothing.
  ghost predicate HoldsNothing(m: LockMap, x: Xid) {
    (forall oid :: TableMode(m, x, oid).None?) && (forall oid, rid :: RowMode(m, x, oid, rid).None?)
  }

  // Every other transaction holds what it held.
  ghost predicate OthersHold(m: LockMap, m': LockMap, x: Xid) {
    forall y :: y != x ==> (y in m <==> y in m') && Held(m, y) == Held(m', y)
  }

  /** A release leaves the transaction no lock on any table or row, and every
      other transaction all of its own. */
  lemma ReleaseForgets(m: LockMap, x: Xid)
    ensures HoldsNothing(AfterRelease(m, x), x) && OthersHold(m, AfterRelease(m, x), x)
  {
    assert Held(AfterRelease(m, x), x) == [];
  }

  // Who holds nothing has no entry.
  lemma NothingIsEmpty(m: LockMap, x: Xid)
    requires HoldsNothing(m, x)
    ensures Held(m, x) == []
  {
    var ls := Held(m, x);
    if ls != [] {
      assert TableMode(m, x, ls[0].oid).None? && RowMode(m, x, ls[0].oid, ls[0].rid).None?;
      TableModeNone(ls, |ls|, ls[0].oid);
      RowModeNone(ls, |ls|, ls[0].oid, ls[0].rid);
    }
  }

  /** What another transaction is told does not depend on one that holds nothing:
      it is as if that one were not in the map. */
  lemma NothingInTheWay(m: LockMap, x: Xid, y: Xid, t: LockType, oid: Oid, rid: Rid)
    requires HoldsNothing(m, x) && y != x
    ensures LockTableOk(m, y, t, oid) <==> LockTableOk(m - {x}, y, t, oid)
    ensures LockRowOk(m, y, t, oid, rid) <==> LockRowOk(m - {x}, y, t, oid, rid)
  {
    NothingIsEmpty(m, x);
    var n := m - {x};
    assert Held(m, y) == Held(n, y);
    forall z | z in m && z != x ensures z in n && n[z] == m[z] {}
  }
}
