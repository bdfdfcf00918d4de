/** Finite sums over sequences of integers, and over the positions of a sequence that lie in a set. */
module Sums {

  function Sum(v: seq<int>): int {
    if |v| == 0 then 0 else Sum(v[..|v| - 1]) + v[|v| - 1]
  }

  /** The sum of v at the positions in S. */
  function SumOn(v: seq<int>, S: set<int>): int {
    if |v| == 0 then 0
    else SumOn(v[..|v| - 1], S) + (if |v| - 1 in S then v[|v| - 1] else 0)
  }

  ghost predicate Within(S: set<int>, n: nat) {
    forall x | x in S :: 0 <= x < n
  }

  function Positions(n: nat): (S: set<int>)
    ensures Within(S, n) && |S| == n && forall i | 0 <= i < n :: i in S
  {
    if n == 0 then {} else Positions(n - 1) + {n - 1}
  }

  lemma {:induction false} WithinSize(S: set<int>, n: nat)
    requires Within(S, n)
    ensures |S| <= n
    ensures |S| == n ==> forall i | 0 <= i < n :: i in S
  {
    if n > 0 {
      WithinSize(S - {n - 1}, n - 1);
      if n - 1 in S {
        assert S == (S - {n - 1}) + {n - 1};
      } else {
        assert S == S - {n - 1};
      }
    } else {
      assert forall x | x in S :: false;
      assert S == {};
    }
  }

  lemma {:induction false} SumUpdate(v: seq<int>, j: nat, x: int)
    requires j < |v|
    ensures Sum(v[j := x]) == Sum(v) + x - v[j]
  {
    var n := |v| - 1;
    if j < n {
      assert v[j := x][..n] == v[..n][j := x];
      SumUpdate(v[..n], j, x);
    } else {
      assert v[j := x][..n] == v[..n];
    }
  }

  lemma {:induction false} SumOnUpdate(v: seq<int>, j: nat, x: int, S: set<int>)
    requires j < |v|
    ensures SumOn(v[j := x], S) == SumOn(v, S) + if j in S then x - v[j] else 0
  {
    var n := |v| - 1;
    if j < n {
      assert v[j := x][..n] == v[..n][j := x];
      SumOnUpdate(v[..n], j, x, S);
    } else {
      assert v[j := x][..n] == v[..n];
    }
  }

  lemma {:induction false} SumAdd(a: seq<int>, b: seq<int>, c: seq<int>)
    requires |a| == |b| == |c|
    requires forall i | 0 <= i < |a| :: c[i] == a[i] + b[i]
    ensures Sum(c) == Sum(a) + Sum(b)
  {
    if |a| > 0 {
      SumAdd(a[..|a| - 1], b[..|a| - 1], c[..|a| - 1]);
    }
  }

  lemma {:induction false} SumOnAdd(a: seq<int>, b: seq<int>, c: seq<int>, S: set<int>)
    requires |a| == |b| == |c|
    requires forall i | 0 <= i < |a| :: c[i] == a[i] + b[i]
    ensures SumOn(c, S) == SumOn(a, S) + SumOn(b, S)
  {
    if |a| > 0 {
      SumOnAdd(a[..|a| - 1], b[..|a| - 1], c[..|a| - 1], S);
    }
  }

  lemma {:induction false} SumLe(a: seq<int>, b: seq<int>)
    requires |a| == |b|
    requires forall i | 0 <= i < |a| :: a[i] <= b[i]
    ensures Sum(a) <= Sum(b)
    ensures Sum(a) == Sum(b) ==> a == b
  {
    if |a| > 0 {
      var n := |a| - 1;
      SumLe(a[..n], b[..n]);
      if Sum(a) == Sum(b) {
        assert a == a[..n] + [a[n]] && b == b[..n] + [b[n]];
      }
    }
  }

  /** Adding position i to S, or taking it away, changes the sum by v[i]. */
  lemma {:induction false} SumOnInsert(v: seq<int>, S: set<int>, i: nat)
    requires i < |v| && i !in S
    ensures SumOn(v, S + {i}) == SumOn(v, S) + v[i]
  {
    var n := |v| - 1;
    if i < n {
      SumOnInsert(v[..n], S, i);
      assert n in S + {i} <==> n in S;
    } else {
      SumOnFrame(v[..n], S, S + {i});
    }
  }

  lemma {:induction false} SumOnFrame(v: seq<int>, S: set<int>, T: set<int>)
    requires forall i | 0 <= i < |v| :: i in S <==> i in T
    ensures SumOn(v, S) == SumOn(v, T)
  {
    if |v| > 0 {
      SumOnFrame(v[..|v| - 1], S, T);
    }
  }

  /** If v is zero outside S, the sum over S is the whole sum. */
  lemma {:induction false} SumOnSupport(v: seq<int>, S: set<int>)
    requires forall i | 0 <= i < |v| && i !in S :: v[i] == 0
    ensures SumOn(v, S) == Sum(v)
  {
    if |v| > 0 {
      SumOnSupport(v[..|v| - 1], S);
    }
  }

  lemma {:induction false} SumOnNonNegative(v: seq<int>, S: set<int>)
    requires forall i | 0 <= i < |v| :: v[i] >= 0
    ensures 0 <= SumOn(v, S) <= Sum(v)
    ensures forall i | 0 <= i < |v| && i in S :: SumOn(v, S) >= v[i]
  {
    if |v| > 0 {
      SumOnNonNegative(v[..|v| - 1], S);
    }
  }

  lemma {:induction false} SumZeros(v: seq<int>)
    requires forall i | 0 <= i < |v| :: v[i] == 0
    ensures Sum(v) == 0
  {
    if |v| > 0 {
      SumZeros(v[..|v| - 1]);
    }
  }
}
