/** The least-recently-used replacement strategy. */
module Lru {
  import opened Lists

  // What the list looks like after the given accesses.
  function MostRecentFirst(history: seq<nat>): seq<nat> {
    if history == [] then []
    else
      var n := |history| - 1;
      [history[n]] + Erase<nat>(MostRecentFirst(history[..n]), history[n])
  }

  // When `x` was last accessed, counted from one; zero when it never was.
  function LastAccess(history: seq<nat>, x: nat): nat {
    if history == [] then 0
    else if history[|history| - 1] == x then |history|
    else LastAccess(history[..|history| - 1], x)
  }

  lemma {:induction false} AccessBound(history: seq<nat>, x: nat)
    ensures LastAccess(history, x) <= |history|
  {
    if history != [] { AccessBound(history[..|history| - 1], x); }
  }

  /** The list holds every frame ever accessed once, ordered by the time of
      its last access, most recent first. */
  lemma {:induction false} ListIsByRecency(history: seq<nat>)
    ensures var v := MostRecentFirst(history);
      && Distinct<nat>(v)
      && (forall x :: x in v <==> x in history)
      && (forall i, j :: 0 <= i < j < |v| ==> LastAccess(history, v[i]) > LastAccess(history, v[j]))
  {
    if history != [] {
      var n := |history| - 1;
      var h, x := history[..n], history[n];
      ListIsByRecency(h);
      var v := MostRecentFirst(h);
      EraseFacts<nat>(v, x);
      EraseKeepsOrder<nat>(v, x, (y: nat) => LastAccess(h, y));
      var w := MostRecentFirst(history);
      assert forall y :: y in history <==> y == x || y in h;
      forall i, j | 0 <= i < j < |w| ensures LastAccess(history, w[i]) > LastAccess(history, w[j]) {
        assert w[j] in Erase<nat>(v, x) && LastAccess(history, w[j]) == LastAccess(h, w[j]);
        AccessBound(h, w[j]);
        if i > 0 {
          assert w[i] in Erase<nat>(v, x) && LastAccess(history, w[i]) == LastAccess(h, w[i]);
        }
      }
    }
  }

  class LRUBufferStrategy {
    var bufferVec: seq<nat>

    constructor ()
      ensures bufferVec == []
    {
      bufferVec := [];
    }

    method Access(frame: nat)
      modifies this
      ensures bufferVec == [frame] + Erase<nat>(old(bufferVec), frame)
    {
      bufferVec := [frame] + Erase<nat>(bufferVec, frame);
    }

    // The last of the list, found by walking it, leaves it.
    method Evict() returns (victim: nat)
      requires bufferVec != [] && Distinct<nat>(bufferVec)
      modifies this
      ensures victim == old(bufferVec)[|old(bufferVec)| - 1]
      ensures bufferVec == old(bufferVec)[..|old(bufferVec)| - 1]
    {
      victim := bufferVec[0];
      var i := 0;
      while i < |bufferVec|
        invariant 0 <= i <= |bufferVec| && victim == if i == 0 then bufferVec[0] else bufferVec[i - 1]
      {
        victim := bufferVec[i];
        i := i + 1;
      }
      EraseLast<nat>(bufferVec);
      bufferVec := Erase<nat>(bufferVec, victim);
    }
  }

  /** When the list is what the accesses made it, the victim is the frame whose
      last access lies furthest back. */
  lemma VictimIsLeastRecent(history: seq<nat>, x: nat)
    requires history != [] && x in history
    ensures var v := MostRecentFirst(history);
      && v != [] && v[|v| - 1] in history
      && LastAccess(history, v[|v| - 1]) <= LastAccess(history, x)
  {
    ListIsByRecency(history);
    var v := MostRecentFirst(history);
    var i :| 0 <= i < |v| && v[i] == x;
  }
}
