/** How rollback and recovery move through the log: back along a
    transaction's chain, forward by record sizes. */
module LogWalks {
  import opened Types
  import opened Pages
  import opened Wal
  import opened Replay
  import opened Bytes
  import opened LogCodec
  import opened LogRecords
  import opened Recovery

  // ---- backward -----------------------------------------------------------

  // Record `i` is the newest of `x` among the first `n`.
  ghost predicate Newest(log: seq<LogRec>, n: nat, x: Xid, i: nat) {
    && i < n <= |log| && OfXid(log[i], x)
    && (forall j :: i < j < n ==> !OfXid(log[j], x))
  }

  /** The chain of a transaction leads from each of its records to the one
      before it, and ends at its begin record; undo takes them in that order. */
  lemma {:induction false} ChainStep(log: seq<LogRec>, n: nat, x: Xid, ps: PageMap) returns (i: nat)
    requires n <= |log| && LastLsn(log, n, x) != NULL_LSN && forall j :: 0 <= j < |log| ==> PrevOk(log, j)
    ensures Newest(log, n, x, i) && log[i].lsn == LastLsn(log, n, x) && log[i].prev == PrevFor(log, i, log[i])
    ensures UndoChain(log, n, x, ps) == if log[i].BeginLog? then ps else UndoChain(log, i, x, UndoRec(log[i], ps))
    ensures Chain(log, n, x) == [log[i]] + if log[i].BeginLog? then [] else Chain(log, i, x)
  {
    if OfXid(log[n - 1], x) {
      i := n - 1;
      assert PrevOk(log, i);
    } else {
      i := ChainStep(log, n - 1, x, ps);
    }
  }

  lemma LsnsNotNull(log: seq<LogRec>, nextLsn: Lsn)
    requires Contiguous(log, nextLsn) && nextLsn <= NULL_LSN
    ensures forall i :: 0 <= i < |log| ==> log[i].lsn < NULL_LSN
  {
    LsnOrders(log, nextLsn);
  }

  // The chain ends where the transaction has no earlier record.
  lemma {:induction false} ChainEnd(log: seq<LogRec>, n: nat, x: Xid, ps: PageMap)
    requires n <= |log| && LastLsn(log, n, x) == NULL_LSN
    requires forall i :: 0 <= i < |log| ==> log[i].lsn < NULL_LSN
    ensures UndoChain(log, n, x, ps) == ps && Chain(log, n, x) == []
  {
    if n > 0 {
      ChainEnd(log, n - 1, x, ps);
    }
  }

  // No begin record of `x` after position `i`.
  ghost predicate NotRestarted(log: seq<LogRec>, i: nat, n: nat, x: Xid)
    requires n <= |log|
  {
    forall j :: i < j < n && log[j].BeginLog? ==> log[j].xid != x
  }

  /** The visited records are exactly those of the transaction since its last
      begin record, newest first. */
  lemma {:induction false} ChainIsExact(log: seq<LogRec>, n: nat, x: Xid)
    requires n <= |log|
    ensures forall i :: 0 <= i < n && OfXid(log[i], x) && NotRestarted(log, i, n, x) ==> log[i] in Chain(log, n, x)
    ensures forall r :: r in Chain(log, n, x) ==>
      OfXid(r, x) && exists i :: 0 <= i < n && log[i] == r && NotRestarted(log, i, n, x)
  {
    if n > 0 {
      ChainIsExact(log, n - 1, x);
      forall i | 0 <= i < n && OfXid(log[i], x) && NotRestarted(log, i, n, x) ensures log[i] in Chain(log, n, x) {
        if i < n - 1 {
          assert NotRestarted(log, i, n - 1, x);
        }
      }
      forall r | r in Chain(log, n, x) ensures OfXid(r, x) && exists i :: 0 <= i < n && log[i] == r && NotRestarted(log, i, n, x) {
        if OfXid(log[n - 1], x) && r == log[n - 1] {
          assert NotRestarted(log, n - 1, n, x);
        } else {
          var i :| 0 <= i < n - 1 && log[i] == r && NotRestarted(log, i, n - 1, x);
          assert NotRestarted(log, i, n, x);
        }
      }
    }
  }

  lemma {:induction false} ChainDescends(log: seq<LogRec>, n: nat, x: Xid)
    requires n <= |log| && forall i, j :: 0 <= i < j < |log| ==> log[i].lsn < log[j].lsn
    ensures forall a, b :: 0 <= a < b < |Chain(log, n, x)| ==> Chain(log, n, x)[a].lsn > Chain(log, n, x)[b].lsn
  {
    if n > 0 {
      ChainDescends(log, n - 1, x);
      var rest := Chain(log, n - 1, x);
      ChainIsExact(log, n - 1, x);
      forall b | 0 <= b < |rest| ensures rest[b].lsn < log[n - 1].lsn {
        assert rest[b] in rest;
      }
    }
  }

  // ---- the walk of rollback -----------------------------------------------

  /** One turn of the loop: above the flushed LSN the record is looked for in
      the buffer, otherwise it is read from the file.  A buffer that does not
      hold it leaves the loop where it is; unreadable bytes end it in an error. */
  function NextLsn(buffer: seq<LogRec>, flushed: Lsn, file: bytes, lsn: Lsn): Option<Lsn> {
    if lsn > flushed then Some(PrevInBuffer(buffer, lsn))
    else
      var r := ReadAt(file, lsn);
      if r.None? then None else Some(r.value.prev)
  }

  function PrevInBuffer(buffer: seq<LogRec>, lsn: Lsn): Lsn {
    if buffer == [] then lsn
    else if buffer[0].lsn == lsn then buffer[0].prev
    else PrevInBuffer(buffer[1..], lsn)
  }

  // Where the loop stands after `k` turns; at NULL_LSN it has ended.
  function WalkBack(buffer: seq<LogRec>, flushed: Lsn, file: bytes, lsn: Lsn, k: nat): Option<Lsn> {
    if k == 0 then Some(lsn)
    else
      match WalkBack(buffer, flushed, file, lsn, k - 1)
      case None => None
      case Some(at) => if at == NULL_LSN then Some(at) else NextLsn(buffer, flushed, file, at)
  }

  ghost predicate WalkEnds(buffer: seq<LogRec>, flushed: Lsn, file: bytes, lsn: Lsn) {
    exists k :: WalkBack(buffer, flushed, file, lsn, k) == Some(NULL_LSN)
  }

  ghost predicate Zeroed(file: bytes) {
    forall i :: 0 <= i < |file| ==> file[i] == 0
  }

  /** A new log file is zeros.  While the flushed LSN is NULL_LSN, which is
      above every LSN, every turn reads that file, and each read yields LSN 0. */
  lemma {:induction false} ZerosLeadToZero(buffer: seq<LogRec>, file: bytes, lsn: Lsn, k: nat)
    requires Zeroed(file) && lsn < NULL_LSN
    ensures var at := WalkBack(buffer, NULL_LSN, file, lsn, k);
      at == None || at == Some(lsn) || at == Some(0)
  {
    if k > 0 {
      ZerosLeadToZero(buffer, file, lsn, k - 1);
      var at := WalkBack(buffer, NULL_LSN, file, lsn, k - 1);
      if at.Some? { ZeroRecord(file, at.value); }
    }
  }

  lemma {:induction false} ZeroNum(b: bytes)
    requires forall i :: 0 <= i < |b| ==> b[i] == 0
    ensures FromBytes(b) == 0
  {
    if b != [] { ZeroNum(b[1..]); }
  }

  lemma ZeroRecord(file: bytes, lsn: Lsn)
    requires Zeroed(file)
    ensures ReadAt(file, lsn) == if lsn + 13 <= |file| then Some(BeginLog(lsn, 0, 0)) else None
  {
    if lsn + 13 <= |file| {
      var b := file[lsn..];
      ZeroNum(b[0..1]);
      ZeroNum(b[1..5]);
      ZeroNum(b[5..13]);
    }
  }

  lemma {:induction false} InBuffer(buffer: seq<LogRec>, i: nat)
    requires i < |buffer| && forall a, b :: 0 <= a < b < |buffer| ==> buffer[a].lsn != buffer[b].lsn
    ensures PrevInBuffer(buffer, buffer[i].lsn) == buffer[i].prev
  {
    if i > 0 { InBuffer(buffer[1..], i - 1); }
  }

  // A turn first, then the rest.
  lemma {:induction false} WalkFrom(buffer: seq<LogRec>, flushed: Lsn, file: bytes, lsn: Lsn, k: nat)
    requires lsn != NULL_LSN && NextLsn(buffer, flushed, file, lsn).Some?
    ensures WalkBack(buffer, flushed, file, lsn, k + 1) == WalkBack(buffer, flushed, file, NextLsn(buffer, flushed, file, lsn).value, k)
  {
    if k > 0 {
      WalkFrom(buffer, flushed, file, lsn, k - 1);
    } else {
      assert WalkBack(buffer, flushed, file, lsn, 0) == Some(lsn);
    }
  }

  // ---- forward ------------------------------------------------------------

  // Where record `i` starts; past the last one, the end of the log.
  function LsnAt(log: seq<LogRec>, i: nat, end: Lsn): Lsn
    requires i <= |log|
  {
    if i < |log| then log[i].lsn else end
  }

  lemma NextAt(log: seq<LogRec>, i: nat, end: Lsn)
    requires Contiguous(log, end) && i < |log|
    ensures log[i].lsn + Size(log[i]) == LsnAt(log, i + 1, end) && log[i].lsn < end
  {
    LsnBelowEnd(log, end, i);
  }

  // The walk has come to its end exactly when every record was read.
  lemma AtEnd(log: seq<LogRec>, i: nat, end: Lsn)
    requires Contiguous(log, end) && i <= |log|
    ensures LsnAt(log, i, end) >= end <==> i == |log|
  {
    if i < |log| { LsnBelowEnd(log, end, i); }
  }
}
