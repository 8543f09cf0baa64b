// Counting the elements of a sequence that fall into a category, and the members of a set.
module Counting {

  function Count<C(==)>(s: seq<C>, c: C): nat {
    if s == [] then 0 else Count(s[..|s| - 1], c) + if s[|s| - 1] == c then 1 else 0
  }

  lemma {:induction false} CountUpdate<C>(s: seq<C>, i: nat, x: C, c: C)
    requires i < |s|
    ensures Count(s[i := x], c) == Count(s, c) - (if s[i] == c then 1 else 0) + (if x == c then 1 else 0)
  {
    var n := |s| - 1;
    if i == n {
      assert s[i := x][..n] == s[..n];
    } else {
      assert s[i := x][..n] == s[..n][i := x];
      CountUpdate(s[..n], i, x, c);
    }
  }

  /** A category that only position i can be in. */
  lemma {:induction false} CountOnly<C>(s: seq<C>, i: nat, c: C)
    requires i < |s| && forall j | 0 <= j < |s| && j != i :: s[j] != c
    ensures Count(s, c) == if s[i] == c then 1 else 0
  {
    var n := |s| - 1;
    if i == n {
      CountNone(s[..n], c);
    } else {
      CountOnly(s[..n], i, c);
    }
  }

  lemma {:induction false} CountNone<C>(s: seq<C>, c: C)
    requires forall j | 0 <= j < |s| :: s[j] != c
    ensures Count(s, c) == 0
  {
    if s != [] {
      CountNone(s[..|s| - 1], c);
    }
  }

  lemma {:induction false} CountSome<C>(s: seq<C>, i: nat, c: C)
    requires i < |s| && s[i] == c
    ensures Count(s, c) >= 1
  {
    if i < |s| - 1 {
      CountSome(s[..|s| - 1], i, c);
    }
  }

  function Range(n: nat): set<nat> {
    if n == 0 then {} else Range(n - 1) + {n - 1}
  }

  lemma {:induction false} RangeCount(n: nat)
    ensures |Range(n)| == n && forall x: nat :: x in Range(n) <==> x < n
  {
    if n > 0 {
      RangeCount(n - 1);
    }
  }

  lemma SubsetCount(a: set<nat>, b: set<nat>)
    requires a <= b
    ensures |a| <= |b| && (|a| == |b| <==> a == b)
  {
    assert b == a + (b - a);
  }
}
