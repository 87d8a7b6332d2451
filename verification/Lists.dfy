/** Lists without repeats, and how many members sets have. */
module Lists {

  // `s` without the first occurrence of `x`.
  function Erase<T(==)>(s: seq<T>, x: T): seq<T> {
    if s == [] then [] else if s[0] == x then s[1..] else [s[0]] + Erase(s[1..], x)
  }

  ghost predicate Distinct<T>(s: seq<T>) {
    forall i, j :: 0 <= i < j < |s| ==> s[i] != s[j]
  }

  lemma {:induction false} EraseFacts<T>(s: seq<T>, x: T)
    requires Distinct(s)
    ensures Distinct(Erase(s, x)) && x !in Erase(s, x)
    ensures forall y :: y in Erase(s, x) ==> y in s
    ensures forall y :: y != x ==> (y in Erase(s, x) <==> y in s)
    ensures |Erase(s, x)| == if x in s then |s| - 1 else |s|
  {
    if s != [] && s[0] != x {
      EraseFacts(s[1..], x);
      assert s[0] !in s[1..];
      assert s[0] !in Erase(s[1..], x);
      assert forall y :: y in s <==> y == s[0] || y in s[1..];
    }
  }

  // Erasing keeps the order of what is left.
  lemma {:induction false} EraseKeepsOrder<T>(s: seq<T>, x: T, f: T -> int)
    requires Distinct(s) && forall i, j :: 0 <= i < j < |s| ==> f(s[i]) > f(s[j])
    ensures forall i, j :: 0 <= i < j < |Erase(s, x)| ==> f(Erase(s, x)[i]) > f(Erase(s, x)[j])
  {
    if s != [] && s[0] != x {
      EraseKeepsOrder(s[1..], x, f);
      EraseFacts(s[1..], x);
      var rest, e := Erase(s[1..], x), Erase(s, x);
      forall i, j | 0 <= i < j < |e| ensures f(e[i]) > f(e[j]) {
        assert e[j] == rest[j - 1] && rest[j - 1] in rest && rest[j - 1] in s[1..];
        if i == 0 {
          var k :| 0 <= k < |s[1..]| && s[1..][k] == rest[j - 1];
          assert f(s[0]) > f(s[k + 1]);
        } else {
          assert f(rest[i - 1]) > f(rest[j - 1]);
        }
      }
    }
  }

  lemma {:induction false} EraseLast<T>(s: seq<T>)
    requires s != [] && Distinct(s)
    ensures Erase(s, s[|s| - 1]) == s[..|s| - 1]
  {
    if |s| > 1 {
      EraseLast(s[1..]);
      assert s[1..][..|s| - 2] == s[1..|s| - 1];
    }
  }

  lemma {:induction false} SubsetCard<T>(a: set<T>, b: set<T>)
    requires a <= b
    ensures |a| <= |b|
  {
    if a != {} {
      var x :| x in a;
      SubsetCard(a - {x}, b - {x});
    }
  }

  lemma {:induction false} DistinctCard<T>(s: seq<T>, members: set<T>)
    requires Distinct(s) && forall a :: 0 <= a < |s| ==> s[a] in members
    ensures |members| >= |s|
  {
    if s != [] { DistinctCard(s[1..], members - {s[0]}); }
  }

  lemma {:induction false} ListedCard<T>(s: seq<T>, members: set<T>)
    requires forall x :: x in members ==> x in s
    ensures |members| <= |s|
  {
    if s != [] {
      ListedCard(s[1..], members - {s[0]});
    } else {
      assert members == {};
    }
  }
}
