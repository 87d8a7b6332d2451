/** Safety of hierarchical locking over whole runs.  The recorded lists only
    over-approximate what was granted, because a refused request stays
    recorded; what was granted is tracked beside them. */
module LockSafety {
  import opened Types
  import opened Locks

  datatype LockOp =
    | TableReq(x: Xid, mode: LockType, oid: Oid)
    | RowReq(x: Xid, mode: LockType, oid: Oid, rid: Rid)
    | Release(x: Xid)

  datatype TableKey = TableKey(x: Xid, oid: Oid)
  datatype RowKey = RowKey(x: Xid, oid: Oid, rid: Rid)

  // What each transaction was told it holds.
  datatype Granted = Granted(tables: map<TableKey, LockType>, rows: map<RowKey, LockType>)

  datatype State = State(recorded: LockMap, granted: Granted)

  const INITIAL := State(map[], Granted(map[], map[]))

  predicate Requestable(op: LockOp) {
    match op
    case TableReq(_, m, _) => TableRequest(m)
    case RowReq(_, m, _, _) => RowRequest(m)
    case Release(_) => true
  }

  // A request that returns true grants the modes that were checked: the
  // recorded ones, after the upgrade.
  function Step(s: State, op: LockOp): State {
    match op
    case TableReq(x, m, oid) =>
      State(AfterLockTable(s.recorded, x, m, oid),
            if LockTableOk(s.recorded, x, m, oid)
            then GrantTable(s.granted, x, oid, Joined(TableMode(s.recorded, x, oid), m))
            else s.granted)
    case RowReq(x, m, oid, rid) =>
      State(AfterLockRow(s.recorded, x, m, oid, rid),
            if LockRowOk(s.recorded, x, m, oid, rid)
            then GrantRow(GrantTable(s.granted, x, oid, Joined(TableMode(s.recorded, x, oid), Intention(m))),
                          x, oid, rid, Joined(RowMode(s.recorded, x, oid, rid), m))
            else s.granted)
    case Release(x) =>
      State(AfterRelease(s.recorded, x),
            Granted(map k | k in s.granted.tables && k.x != x :: s.granted.tables[k],
                    map k | k in s.granted.rows && k.x != x :: s.granted.rows[k]))
  }

  function GrantTable(g: Granted, x: Xid, oid: Oid, m: LockType): Granted {
    g.(tables := g.tables[TableKey(x, oid) := m])
  }

  function GrantRow(g: Granted, x: Xid, oid: Oid, rid: Rid, m: LockType): Granted {
    g.(rows := g.rows[RowKey(x, oid, rid) := m])
  }

  function Run(s: State, ops: seq<LockOp>): State
    decreases |ops|
  {
    if ops == [] then s else Run(Step(s, ops[0]), ops[1..])
  }

  // ---- granted access to a row, from the row's own lock or its table's ----

  predicate MayRead(g: Granted, x: Xid, oid: Oid, rid: Rid) {
    || RowKey(x, oid, rid) in g.rows
    || (TableKey(x, oid) in g.tables && g.tables[TableKey(x, oid)] in {S, SIX, X})
  }

  predicate MayWrite(g: Granted, x: Xid, oid: Oid, rid: Rid) {
    || (RowKey(x, oid, rid) in g.rows && g.rows[RowKey(x, oid, rid)] == X)
    || (TableKey(x, oid) in g.tables && g.tables[TableKey(x, oid)] == X)
  }

  ghost predicate Safe(g: Granted) {
    forall x, y, oid, rid :: x != y && MayWrite(g, x, oid, rid) ==> !MayRead(g, y, oid, rid) && !MayWrite(g, y, oid, rid)
  }

  // ---- the invariant ------------------------------------------------------

  predicate DominatedTable(s: State, k: TableKey) {
    k in s.granted.tables ==>
      TableMode(s.recorded, k.x, k.oid).Some? && Leq(s.granted.tables[k], TableMode(s.recorded, k.x, k.oid).value)
  }

  predicate DominatedRow(s: State, k: RowKey) {
    k in s.granted.rows ==>
      RowMode(s.recorded, k.x, k.oid, k.rid).Some? && Leq(s.granted.rows[k], RowMode(s.recorded, k.x, k.oid, k.rid).value)
  }

  // A granted row lock comes with a granted table lock at least as strong as its intention.
  predicate BackedRow(s: State, k: RowKey) {
    k in s.granted.rows ==>
      && RowRequest(s.granted.rows[k])
      && TableKey(k.x, k.oid) in s.granted.tables
      && Leq(Intention(s.granted.rows[k]), s.granted.tables[TableKey(k.x, k.oid)])
  }

  predicate CompatibleTables(g: Granted, k: TableKey, l: TableKey) {
    k in g.tables && l in g.tables && k.oid == l.oid && k.x != l.x ==> Compatible(g.tables[k], g.tables[l])
  }

  predicate CompatibleRows(g: Granted, k: RowKey, l: RowKey) {
    k in g.rows && l in g.rows && k.oid == l.oid && k.rid == l.rid && k.x != l.x ==> Compatible(g.rows[k], g.rows[l])
  }

  /** Recorded lists keep their shape and dominate what was granted; granted
      modes of different transactions are compatible. */
  ghost predicate Inv(s: State) {
    && AllShaped(s.recorded)
    && (forall k :: DominatedTable(s, k))
    && (forall k :: DominatedRow(s, k))
    && (forall k :: BackedRow(s, k))
    && (forall k, l :: CompatibleTables(s.granted, k, l))
    && (forall k, l :: CompatibleRows(s.granted, k, l))
  }

  lemma HeldShaped(m: LockMap, x: Xid)
    requires AllShaped(m)
    ensures Shape(Held(m, x))
  {
  }

  // The recorded modes after each request, for every transaction.
  lemma TableReqModes(m: LockMap, x: Xid, t: LockType, oid: Oid, y: Xid, o: Oid, rid: Rid)
    requires AllShaped(m)
    ensures var m' := AfterLockTable(m, x, t, oid);
      && TableMode(m', y, o) == (if y == x && o == oid then Some(Joined(TableMode(m, x, oid), t)) else TableMode(m, y, o))
      && RowMode(m', y, o, rid) == RowMode(m, y, o, rid)
  {
    RecordTableModes(Held(m, x), t, oid, o, rid);
  }

  lemma RowReqModes(m: LockMap, x: Xid, t: LockType, oid: Oid, r: Rid, y: Xid, o: Oid, rid: Rid)
    requires AllShaped(m)
    ensures var m' := AfterLockRow(m, x, t, oid, r);
      && TableMode(m', y, o) ==
         (if y == x && o == oid then Some(Joined(TableMode(m, x, oid), Intention(t))) else TableMode(m, y, o))
      && RowMode(m', y, o, rid) ==
         (if y == x && o == oid && rid == r then Some(Joined(RowMode(m, x, oid, r), t)) else RowMode(m, y, o, rid))
  {
    RecordRowAndTableModes(Held(m, x), t, oid, r, o, rid);
  }

  // A granted mode is compatible with whatever every other transaction holds.
  lemma TableOkGranted(s: State, x: Xid, oid: Oid, mine: LockType, l: TableKey)
    requires Inv(s) && l in s.granted.tables && l.oid == oid && l.x != x
    requires l.x in s.recorded ==> TableOk(s.recorded[l.x], oid, mine)
    ensures Compatible(s.granted.tables[l], mine) && Compatible(mine, s.granted.tables[l])
  {
    assert DominatedTable(s, l);
    TableOkIsMode(s.recorded[l.x], oid, mine);
    CompatibleShrinks(s.granted.tables[l], TableMode(s.recorded, l.x, oid).value, mine);
  }

  lemma RowOkGranted(s: State, x: Xid, oid: Oid, rid: Rid, mine: LockType, l: RowKey)
    requires Inv(s) && l in s.granted.rows && l.oid == oid && l.rid == rid && l.x != x
    requires l.x in s.recorded ==> RowOk(s.recorded[l.x], oid, rid, mine)
    ensures Compatible(s.granted.rows[l], mine) && Compatible(mine, s.granted.rows[l])
  {
    assert DominatedRow(s, l);
    RowOkIsMode(s.recorded[l.x], oid, rid, mine);
    CompatibleShrinks(s.granted.rows[l], RowMode(s.recorded, l.x, oid, rid).value, mine);
  }

  lemma JoinGrows(prior: Option<LockType>, m: LockType, low: LockType)
    requires TableRequest(m)
    requires prior.Some? && Leq(low, prior.value)
    ensures Leq(low, Joined(prior, m))
  {
  }

  lemma TableReqDominates(s: State, x: Xid, m: LockType, oid: Oid, k: TableKey)
    requires AllShaped(s.recorded) && TableRequest(m) && DominatedTable(s, k)
    ensures DominatedTable(Step(s, TableReq(x, m, oid)), k)
  {
    TableReqModes(s.recorded, x, m, oid, k.x, k.oid, NO_RID);
    if k == TableKey(x, oid) && k in s.granted.tables {
      JoinGrows(TableMode(s.recorded, x, oid), m, s.granted.tables[k]);
    }
  }

  lemma TableReqRows(s: State, x: Xid, m: LockType, oid: Oid, k: RowKey)
    requires AllShaped(s.recorded) && TableRequest(m)
    requires DominatedRow(s, k) && BackedRow(s, k) && DominatedTable(s, TableKey(k.x, k.oid))
    ensures DominatedRow(Step(s, TableReq(x, m, oid)), k)
  {
    TableReqModes(s.recorded, x, m, oid, k.x, k.oid, k.rid);
  }

  lemma TableReqBacks(s: State, x: Xid, m: LockType, oid: Oid, k: RowKey)
    requires TableRequest(m) && BackedRow(s, k) && DominatedTable(s, TableKey(k.x, k.oid))
    ensures BackedRow(Step(s, TableReq(x, m, oid)), k)
  {
    if k in s.granted.rows && k.x == x && k.oid == oid {
      LeqTransitive(Intention(s.granted.rows[k]), s.granted.tables[TableKey(x, oid)], TableMode(s.recorded, x, oid).value);
      JoinGrows(TableMode(s.recorded, x, oid), m, Intention(s.granted.rows[k]));
    }
  }

  lemma LeqTransitive(a: LockType, b: LockType, c: LockType)
    requires Leq(a, b) && Leq(b, c)
    ensures Leq(a, c)
  {
  }

  lemma TableReqPreserves(s: State, x: Xid, m: LockType, oid: Oid)
    requires Inv(s) && TableRequest(m)
    ensures Inv(Step(s, TableReq(x, m, oid)))
  {
    var s' := Step(s, TableReq(x, m, oid));
    HeldShaped(s.recorded, x);
    RecordTableShape(Held(s.recorded, x), m, oid);
    forall k ensures DominatedTable(s', k) {
      assert DominatedTable(s, k);
      TableReqDominates(s, x, m, oid, k);
    }
    forall k ensures DominatedRow(s', k) && BackedRow(s', k) {
      assert DominatedRow(s, k) && BackedRow(s, k) && DominatedTable(s, TableKey(k.x, k.oid));
      TableReqRows(s, x, m, oid, k);
      TableReqBacks(s, x, m, oid, k);
    }
    forall k, l ensures CompatibleTables(s'.granted, k, l) {
      GrantedTableStep(s, x, oid, Joined(TableMode(s.recorded, x, oid), m), k, l, s'.granted);
    }
    forall k, l ensures CompatibleRows(s'.granted, k, l) {
      assert CompatibleRows(s.granted, k, l);
    }
  }

  // Granting a checked table mode keeps all granted table modes compatible.
  lemma GrantedTableStep(s: State, x: Xid, oid: Oid, mine: LockType, k: TableKey, l: TableKey, g: Granted)
    requires Inv(s)
    requires g.tables == s.granted.tables ||
      (g.tables == s.granted.tables[TableKey(x, oid) := mine] &&
       forall y :: y in s.recorded && y != x ==> TableOk(s.recorded[y], oid, mine))
    ensures CompatibleTables(g, k, l)
  {
    assert CompatibleTables(s.granted, k, l);
    if k in g.tables && l in g.tables && k.oid == l.oid && k.x != l.x && g.tables != s.granted.tables {
      if k == TableKey(x, oid) {
        TableOkGranted(s, x, oid, mine, l);
      } else if l == TableKey(x, oid) {
        TableOkGranted(s, x, oid, mine, k);
      }
    }
  }

  lemma RowReqDominatesTable(s: State, x: Xid, m: LockType, oid: Oid, rid: Rid, t: TableKey)
    requires AllShaped(s.recorded) && RowRequest(m) && DominatedTable(s, t)
    ensures DominatedTable(Step(s, RowReq(x, m, oid, rid)), t)
  {
    RowReqModes(s.recorded, x, m, oid, rid, t.x, t.oid, rid);
    if t == TableKey(x, oid) && t in s.granted.tables {
      JoinGrows(TableMode(s.recorded, x, oid), Intention(m), s.granted.tables[t]);
    }
  }

  lemma RowReqDominatesRow(s: State, x: Xid, m: LockType, oid: Oid, rid: Rid, k: RowKey)
    requires AllShaped(s.recorded) && RowRequest(m) && DominatedRow(s, k)
    ensures DominatedRow(Step(s, RowReq(x, m, oid, rid)), k)
  {
    RowReqModes(s.recorded, x, m, oid, rid, k.x, k.oid, k.rid);
    if k == RowKey(x, oid, rid) && k in s.granted.rows {
      JoinGrows(RowMode(s.recorded, x, oid, rid), m, s.granted.rows[k]);
    }
  }

  lemma RowReqRowsCompatible(s: State, x: Xid, m: LockType, oid: Oid, rid: Rid, k: RowKey, l: RowKey)
    requires Inv(s) && RowRequest(m)
    ensures CompatibleRows(Step(s, RowReq(x, m, oid, rid)).granted, k, l)
  {
    var g := Step(s, RowReq(x, m, oid, rid)).granted;
    assert CompatibleRows(s.granted, k, l);
    if k in g.rows && l in g.rows && k.oid == l.oid && k.rid == l.rid && k.x != l.x && g != s.granted {
      var mine := Joined(RowMode(s.recorded, x, oid, rid), m);
      if k == RowKey(x, oid, rid) {
        RowOkGranted(s, x, oid, rid, mine, l);
      } else if l == RowKey(x, oid, rid) {
        RowOkGranted(s, x, oid, rid, mine, k);
      }
    }
  }

  lemma RowReqPreserves(s: State, x: Xid, m: LockType, oid: Oid, rid: Rid)
    requires Inv(s) && RowRequest(m)
    ensures Inv(Step(s, RowReq(x, m, oid, rid)))
  {
    var s' := Step(s, RowReq(x, m, oid, rid));
    HeldShaped(s.recorded, x);
    RecordRowShape(Held(s.recorded, x), m, oid, rid);
    forall k ensures DominatedTable(s', k) {
      assert DominatedTable(s, k);
      RowReqDominatesTable(s, x, m, oid, rid, k);
    }
    forall k ensures DominatedRow(s', k) && BackedRow(s', k) {
      assert DominatedRow(s, k);
      RowReqDominatesRow(s, x, m, oid, rid, k);
      RowReqBacks(s, x, m, oid, rid, k);
    }
    forall k, l ensures CompatibleTables(s'.granted, k, l) {
      GrantedTableStep(s, x, oid, Joined(TableMode(s.recorded, x, oid), Intention(m)), k, l, s'.granted);
    }
    forall k, l ensures CompatibleRows(s'.granted, k, l) {
      RowReqRowsCompatible(s, x, m, oid, rid, k, l);
    }
  }

  lemma RowReqBacks(s: State, x: Xid, m: LockType, oid: Oid, rid: Rid, k: RowKey)
    requires Inv(s) && RowRequest(m)
    ensures BackedRow(Step(s, RowReq(x, m, oid, rid)), k)
  {
    assert BackedRow(s, k) && DominatedTable(s, TableKey(x, oid));
    HeldShaped(s.recorded, x);
    ShapeModes(Held(s.recorded, x), oid, rid);
    JoinCovers(TableMode(s.recorded, x, oid), RowMode(s.recorded, x, oid, rid), m);
    if k in s.granted.rows && k.x == x && k.oid == oid {
      JoinGrows(TableMode(s.recorded, x, oid), Intention(m), s.granted.tables[TableKey(x, oid)]);
      assert Leq(Intention(s.granted.rows[k]), s.granted.tables[TableKey(x, oid)]);
      JoinKeeps(TableMode(s.recorded, x, oid).value, Intention(m), Intention(s.granted.rows[k]));
    }
  }

  lemma ReleasePreserves(s: State, x: Xid)
    requires Inv(s)
    ensures Inv(Step(s, Release(x)))
  {
    var s' := Step(s, Release(x));
    forall k ensures DominatedTable(s', k) { assert DominatedTable(s, k); }
    forall k ensures DominatedRow(s', k) { assert DominatedRow(s, k); }
    forall k ensures BackedRow(s', k) { assert BackedRow(s, k); }
    forall k, l ensures CompatibleTables(s'.granted, k, l) { assert CompatibleTables(s.granted, k, l); }
    forall k, l ensures CompatibleRows(s'.granted, k, l) { assert CompatibleRows(s.granted, k, l); }
  }

  lemma {:induction false} RunInv(s: State, ops: seq<LockOp>)
    requires Inv(s) && forall i :: 0 <= i < |ops| ==> Requestable(ops[i])
    ensures Inv(Run(s, ops))
    decreases |ops|
  {
    if ops != [] {
      assert Requestable(ops[0]);
      match ops[0] {
        case TableReq(x, m, oid) => TableReqPreserves(s, x, m, oid);
        case RowReq(x, m, oid, rid) => RowReqPreserves(s, x, m, oid, rid);
        case Release(x) => ReleasePreserves(s, x);
      }
      RunInv(Step(s, ops[0]), ops[1..]);
    }
  }

  lemma InvIsSafe(s: State)
    requires Inv(s)
    ensures Safe(s.granted)
  {
    forall x, y, oid, rid | x != y && MayWrite(s.granted, x, oid, rid)
      ensures !MayRead(s.granted, y, oid, rid) && !MayWrite(s.granted, y, oid, rid)
    {
      assert BackedRow(s, RowKey(x, oid, rid)) && BackedRow(s, RowKey(y, oid, rid));
      assert CompatibleTables(s.granted, TableKey(x, oid), TableKey(y, oid));
      assert CompatibleRows(s.granted, RowKey(x, oid, rid), RowKey(y, oid, rid));
    }
  }

  /** Over every sequence of requests and releases, refused ones included, no
      transaction may write a row another may read or write, through row or
      table locks. */
  lemma HierarchicalLockSafety(ops: seq<LockOp>)
    requires forall i :: 0 <= i < |ops| ==> Requestable(ops[i])
    ensures Safe(Run(INITIAL, ops).granted)
    ensures AllShaped(Run(INITIAL, ops).recorded)
  {
    RunInv(INITIAL, ops);
    InvIsSafe(Run(INITIAL, ops));
  }

  // ---- after a release ----------------------------------------------------

  predicate Answer(m: LockMap, op: LockOp) {
    match op
    case TableReq(x, t, oid) => LockTableOk(m, x, t, oid)
    case RowReq(x, t, oid, rid) => LockRowOk(m, x, t, oid, rid)
    case Release(_) => true
  }

  // What the requests of a sequence are told, one after the other.
  function Answers(s: State, ops: seq<LockOp>): seq<bool>
    decreases |ops|
  {
    if ops == [] then [] else [Answer(s.recorded, ops[0])] + Answers(Step(s, ops[0]), ops[1..])
  }

  // The two maps differ in nothing but that `m` still lists `x`, with no lock.
  ghost predicate Forgot(m: LockMap, n: LockMap, x: Xid) {
    HoldsNothing(m, x) && n == m - {x}
  }

  lemma ForgotAnswer(m: LockMap, x: Xid, op: LockOp)
    requires HoldsNothing(m, x) && op.x != x
    ensures Answer(m, op) <==> Answer(m - {x}, op)
  {
    match op
    case TableReq(y, mode, oid) => NothingInTheWay(m, x, y, mode, oid, NO_RID);
    case RowReq(y, mode, oid, rid) => NothingInTheWay(m, x, y, mode, oid, rid);
    case Release(_) =>
  }

  lemma StillNothing(m: LockMap, m': LockMap, x: Xid)
    requires HoldsNothing(m, x) && Held(m', x) == Held(m, x)
    ensures HoldsNothing(m', x)
  {
    forall oid ensures TableMode(m', x, oid).None? { assert TableMode(m, x, oid).None?; }
    forall oid, rid ensures RowMode(m', x, oid, rid).None? { assert RowMode(m, x, oid, rid).None?; }
  }

  lemma ForgotStep(s: State, t: State, x: Xid, op: LockOp)
    requires Forgot(s.recorded, t.recorded, x) && op.x != x
    ensures Forgot(Step(s, op).recorded, Step(t, op).recorded, x)
  {
    var m, m' := s.recorded, Step(s, op).recorded;
    assert Held(m, op.x) == Held(m - {x}, op.x);
    assert Step(t, op).recorded == m' - {x};
    StillNothing(m, m', x);
  }

  lemma {:induction false} ForgotRun(s: State, t: State, x: Xid, ops: seq<LockOp>)
    requires Forgot(s.recorded, t.recorded, x) && forall i :: 0 <= i < |ops| ==> ops[i].x != x
    ensures Answers(s, ops) == Answers(t, ops)
    decreases |ops|
  {
    if ops != [] {
      ForgotAnswer(s.recorded, x, ops[0]);
      ForgotStep(s, t, x, ops[0]);
      ForgotRun(Step(s, ops[0]), Step(t, ops[0]), x, ops[1..]);
    }
  }

  /** After a release, whatever the others request and release, in whatever
      order: every answer is what it would be had the transaction never been in
      the map. */
  lemma ReleasedAsIfAbsent(s: State, x: Xid, ops: seq<LockOp>)
    requires forall i :: 0 <= i < |ops| ==> ops[i].x != x
    ensures Answers(Step(s, Release(x)), ops) == Answers(s.(recorded := s.recorded - {x}), ops)
  {
    ReleaseForgets(s.recorded, x);
    assert s.recorded[x := []] - {x} == s.recorded - {x};
    ForgotRun(Step(s, Release(x)), s.(recorded := s.recorded - {x}), x, ops);
  }
}
