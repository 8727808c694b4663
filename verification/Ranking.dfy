/**
 How the semantic search ranks: the cosine of the query with each candidate after both are centred on the
 candidates' mean, expanded so that no centred copy is made. Numbers are reals.
 */
module Ranking {
  import opened Wrappers

  type Vector = seq<real>

  // ----- what the ranking means

  function Dot(a: Vector, b: Vector): real
    requires |a| == |b|
  {
    if a == [] then 0.0 else Dot(a[..|a| - 1], b[..|b| - 1]) + a[|a| - 1] * b[|b| - 1]
  }

  function Minus(a: Vector, b: Vector): (d: Vector)
    requires |a| == |b|
    ensures |d| == |a|
  {
    seq(|a|, i requires 0 <= i < |a| => a[i] - b[i])
  }

  predicate SameSize(vs: seq<Vector>, dim: nat) {
    forall k :: 0 <= k < |vs| ==> |vs[k]| == dim
  }

  /** The sum of the vectors' i-th numbers. */
  function Sum(vs: seq<Vector>, dim: nat, i: nat): real
    requires SameSize(vs, dim) && i < dim
  {
    if vs == [] then 0.0 else Sum(vs[..|vs| - 1], dim, i) + vs[|vs| - 1][i]
  }

  function Mean(vs: seq<Vector>, dim: nat): (m: Vector)
    requires SameSize(vs, dim) && vs != []
    ensures |m| == dim
  {
    seq(dim, i requires 0 <= i < dim => Sum(vs, dim, i) / (|vs| as real))
  }

  type Root = real -> real

  /** Any non-negative root will do. */
  ghost predicate GoodRoot(root: Root) {
    forall x: real :: x >= 0.0 ==> root(x) >= 0.0 && root(x) * root(x) == x
  }

  /** The cosine of two vectors, 0 when one of them has no direction. */
  function Cosine(root: Root, a: Vector, b: Vector): real
    requires |a| == |b|
  {
    var denom := root(Dot(a, a)) * root(Dot(b, b));
    if denom > 0.0 then Dot(a, b) / denom else 0.0
  }

  /** The score of v: both vectors literally centred on the mean of all of them. */
  function Score(root: Root, q: Vector, vs: seq<Vector>, v: Vector): real
    requires SameSize(vs, |q|) && vs != [] && |v| == |q|
  {
    Cosine(root, Minus(q, Mean(vs, |q|)), Minus(v, Mean(vs, |q|)))
  }

  // ----- the algebra

  lemma {:induction false} Expanded(q: Vector, d: Vector, m: Vector)
    requires |q| == |d| == |m|
    ensures Dot(Minus(q, m), Minus(d, m)) == Dot(q, d) - Dot(q, m) - Dot(d, m) + Dot(m, m)
  {
    if q != [] {
      var n := |q| - 1;
      Expanded(q[..n], d[..n], m[..n]);
      assert Minus(q, m)[..n] == Minus(q[..n], m[..n]) && Minus(d, m)[..n] == Minus(d[..n], m[..n]);
      assert (q[n] - m[n]) * (d[n] - m[n]) == q[n] * d[n] - q[n] * m[n] - d[n] * m[n] + m[n] * m[n];
    }
  }

  lemma {:induction false} SquareNotNegative(a: Vector)
    ensures Dot(a, a) >= 0.0
  {
    if a != [] {
      SquareNotNegative(a[..|a| - 1]);
    }
  }

  lemma PositiveSquare(x: real, y: real)
    requires x > 0.0 && y > 0.0
    ensures x * y > 0.0
  {
  }

  lemma SquareSign(x: real)
    ensures x == 0.0 || x * x > 0.0
  {
    if x > 0.0 {
      PositiveSquare(x, x);
    } else if x < 0.0 {
      PositiveSquare(-x, -x);
      assert (-x) * (-x) == x * x;
    }
  }

  lemma {:induction false} NoDirection(a: Vector, b: Vector)
    requires |a| == |b| && Dot(a, a) == 0.0
    ensures Dot(a, b) == 0.0
  {
    if a != [] {
      var n := |a| - 1;
      SquareNotNegative(a[..n]);
      SquareSign(a[n]);
      NoDirection(a[..n], b[..n]);
    }
  }

  lemma {:induction false} DotSymmetric(a: Vector, b: Vector)
    requires |a| == |b|
    ensures Dot(a, b) == Dot(b, a)
  {
    if a != [] {
      DotSymmetric(a[..|a| - 1], b[..|b| - 1]);
    }
  }

  /** The expanded square is the square of the centred vector, so the code's guard against a negative never acts. */
  lemma ExpandedSquare(x: Vector, m: Vector)
    requires |x| == |m|
    ensures Dot(x, x) - 2.0 * Dot(x, m) + Dot(m, m) == Dot(Minus(x, m), Minus(x, m)) >= 0.0
  {
    Expanded(x, x, m);
    SquareNotNegative(Minus(x, m));
  }

  // ----- the code

  function Max(x: real, y: real): real {
    if x > y then x else y
  }

  method DotOf(a: Vector, b: Vector) returns (s: real)
    requires |a| == |b|
    ensures s == Dot(a, b)
  {
    s := 0.0;
    for i := 0 to |a|
      invariant s == Dot(a[..i], b[..i])
    {
      assert a[..i + 1][..i] == a[..i] && b[..i + 1][..i] == b[..i];
      s := s + a[i] * b[i];
    }
    assert a[..|a|] == a && b[..|b|] == b;
  }

  lemma SumNext(vs: seq<Vector>, dim: nat, k: nat, i: nat, n: nat)
    requires SameSize(vs, dim) && k < |vs| && i < dim && n == k + 1
    ensures Sum(vs[..n], dim, i) == Sum(vs[..k], dim, i) + vs[k][i]
  {
    assert vs[..n][..k] == vs[..k];
  }

  lemma NoVectors(vs: seq<Vector>, dim: nat)
    requires SameSize(vs, dim)
    ensures forall i :: 0 <= i < dim ==> Sum(vs[..0], dim, i) == 0.0
  {
  }

  method MeanOf(vs: seq<Vector>, dim: nat) returns (m: Vector)
    requires SameSize(vs, dim) && vs != []
    ensures m == Mean(vs, dim)
  {
    hide Sum;
    var mean := new real[dim](_ => 0.0);
    NoVectors(vs, dim);
    for k := 0 to |vs|
      invariant forall i :: 0 <= i < dim ==> mean[i] == Sum(vs[..k], dim, i)
    {
      for i := 0 to dim
        invariant forall j :: 0 <= j < i ==> mean[j] == Sum(vs[..k + 1], dim, j)
        invariant forall j :: i <= j < dim ==> mean[j] == Sum(vs[..k], dim, j)
      {
        SumNext(vs, dim, k, i, k + 1);
        mean[i] := mean[i] + vs[k][i];
      }
    }
    assert vs[..|vs|] == vs;
    for i := 0 to dim
      invariant forall j :: 0 <= j < i ==> mean[j] == Sum(vs, dim, j) / (|vs| as real)
      invariant forall j :: i <= j < dim ==> mean[j] == Sum(vs, dim, j)
    {
      mean[i] := mean[i] / (|vs| as real);
    }
    m := mean[..];
  }

  method OneScore(root: Root, query: Vector, mean: Vector, qm: real, mm: real, qNorm: real, v: Vector)
    returns (score: real)
    requires |mean| == |query| == |v| && qm == Dot(query, mean) && mm == Dot(mean, mean)
    requires qNorm == root(Dot(Minus(query, mean), Minus(query, mean)))
    ensures score == Cosine(root, Minus(query, mean), Minus(v, mean))
  {
    hide Dot;
    var dm := DotOf(v, mean);
    var vv := DotOf(v, v);
    var qv := DotOf(query, v);
    var dNorm := root(Max(0.0, vv - 2.0 * dm + mm));
    var denom := qNorm * dNorm;
    ExpandedSquare(v, mean);
    Expanded(query, v, mean);
    score := if denom > 0.0 then (qv - qm - dm + mm) / denom else 0.0;
  }

  /** `centredCosines`: the expanded formula gives every candidate its score. */
  method CentredCosines(root: Root, query: Vector, vs: seq<Vector>) returns (scores: seq<real>)
    requires GoodRoot(root) && SameSize(vs, |query|)
    ensures |scores| == |vs|
    ensures forall k :: 0 <= k < |vs| ==> scores[k] == Score(root, query, vs, vs[k])
  {
    hide Dot, GoodRoot, Mean, Minus;
    if |vs| == 0 {
      return [];
    }
    var mean := MeanOf(vs, |query|);
    var mm := DotOf(mean, mean);
    var qm := DotOf(query, mean);
    var qq := DotOf(query, query);
    var qNorm := root(Max(0.0, qq - 2.0 * qm + mm));
    ExpandedSquare(query, mean);
    scores := [];
    for k := 0 to |vs|
      invariant |scores| == k
      invariant forall j :: 0 <= j < k ==> scores[j] == Score(root, query, vs, vs[j])
    {
      var score := OneScore(root, query, mean, qm, mm, qNorm, vs[k]);
      scores := scores + [score];
    }
  }

  // ----- the order

  /** The candidates by score, best first, those of one score in the order they came. */
  ghost predicate IsRanking(scores: seq<real>, order: seq<nat>) {
    && |order| == |scores|
    && (forall i :: 0 <= i < |order| ==> order[i] < |scores|)
    && (forall i, j :: 0 <= i < j < |order| ==>
          scores[order[i]] > scores[order[j]] || (scores[order[i]] == scores[order[j]] && order[i] < order[j]))
  }

  /** Whether x comes before y. */
  predicate Before(scores: seq<real>, x: nat, y: nat)
    requires x < |scores| && y < |scores|
  {
    scores[x] > scores[y] || (scores[x] == scores[y] && x < y)
  }

  function Upto(n: nat): (s: set<nat>)
    ensures |s| == n && forall x :: x in s <==> 0 <= x < n
  {
    if n == 0 then {} else Upto(n - 1) + {n - 1}
  }

  lemma {:induction false} CountDistinct(s: seq<nat>)
    requires forall i, j :: 0 <= i < j < |s| ==> s[i] != s[j]
    ensures |set i | 0 <= i < |s| :: s[i]| == |s|
  {
    if s != [] {
      var init := s[..|s| - 1];
      CountDistinct(init);
      assert (set i | 0 <= i < |s| :: s[i]) == (set i | 0 <= i < |init| :: init[i]) + {s[|s| - 1]};
    }
  }

  lemma SubsetSameSize(a: set<nat>, b: set<nat>)
    requires a <= b && |a| == |b|
    ensures a == b
  {
    assert b == a + (b - a);
  }

  lemma {:induction false} EveryIndexOnce(order: seq<nat>, n: nat)
    requires |order| == n && (forall i :: 0 <= i < n ==> order[i] < n)
    requires forall i, j :: 0 <= i < j < n ==> order[i] != order[j]
    ensures forall x :: 0 <= x < n ==> x in order
  {
    var used := set i | 0 <= i < n :: order[i];
    CountDistinct(order);
    SubsetSameSize(used, Upto(n));
    forall x | 0 <= x < n
      ensures x in order
    {
      assert x in Upto(n);
    }
  }

  /** There is one ranking of a list of scores. */
  lemma {:induction false} OneRanking(scores: seq<real>, a: seq<nat>, b: seq<nat>, n: nat)
    requires IsRanking(scores, a) && IsRanking(scores, b) && n <= |scores|
    ensures a[..n] == b[..n]
  {
    if n > 0 {
      OneRanking(scores, a, b, n - 1);
      EveryIndexOnce(a, |scores|);
      EveryIndexOnce(b, |scores|);
      assert a[n - 1] in b && b[n - 1] in a;
      var i :| 0 <= i < |b| && b[i] == a[n - 1];
      var j :| 0 <= j < |a| && a[j] == b[n - 1];
      forall k | 0 <= k < n - 1
        ensures a[k] == b[k] && a[k] != a[n - 1] && b[k] != b[n - 1]
      {
        assert a[..n - 1][k] == b[..n - 1][k];
      }
      assert a[n - 1] == b[n - 1];
      assert a[..n] == a[..n - 1] + [a[n - 1]] && b[..n] == b[..n - 1] + [b[n - 1]];
    }
  }

  /** The first i of a ranking come before a candidate that the i-th does not come after. */
  lemma AllBefore(scores: seq<real>, order: seq<nat>, k: nat, i: nat)
    requires i <= k < |scores| && IsRanking(scores[..k], order)
    requires i > 0 ==> scores[order[i - 1]] >= scores[k]
    ensures forall j :: 0 <= j < i ==> scores[order[j]] >= scores[k]
  {
    forall j | 0 <= j < i
      ensures scores[order[j]] >= scores[k]
    {
      if j < i - 1 {
        assert Before(scores[..k], order[j], order[i - 1]);
      }
    }
  }

  lemma RankedPairs(scores: seq<real>, order: seq<nat>, k: nat)
    requires k < |scores| && IsRanking(scores[..k], order)
    ensures |order| == k && forall i :: 0 <= i < k ==> order[i] < k
    ensures forall i, j :: 0 <= i < j < k ==> Before(scores, order[i], order[j])
  {
    forall i, j | 0 <= i < j < k
      ensures Before(scores, order[i], order[j])
    {
      assert Before(scores[..k], order[i], order[j]);
    }
  }

  lemma NextPair(scores: seq<real>, order: seq<nat>, k: nat, i: nat, x: nat, y: nat)
    requires i <= k < |scores| && x < y <= k && |order| == k && forall j :: 0 <= j < k ==> order[j] < k
    requires forall j :: 0 <= j < i ==> scores[order[j]] >= scores[k]
    requires forall j :: i <= j < k ==> scores[order[j]] < scores[k]
    requires forall a, b :: 0 <= a < b < k ==> Before(scores, order[a], order[b])
    ensures var next := order[..i] + [k] + order[i..]; next[x] <= k && next[y] <= k && Before(scores, next[x], next[y])
  {
    if x == i {
      assert scores[order[y - 1]] < scores[k];
    } else if y == i {
      assert scores[order[x]] >= scores[k];
    } else {
      var a, b := if x > i then x - 1 else x, if y > i then y - 1 else y;
      assert Before(scores, order[a], order[b]);
    }
  }

  lemma RankingOf(scores: seq<real>, order: seq<nat>, n: nat)
    requires n <= |scores| && |order| == n && forall i :: 0 <= i < n ==> order[i] < n
    requires forall i, j :: 0 <= i < j < n ==> Before(scores, order[i], order[j])
    ensures IsRanking(scores[..n], order)
  {
    forall i, j | 0 <= i < j < n
      ensures Before(scores[..n], order[i], order[j])
    {
      assert Before(scores, order[i], order[j]);
    }
  }

  lemma InsertRanked(scores: seq<real>, order: seq<nat>, k: nat, i: nat)
    requires i <= k < |scores| && IsRanking(scores[..k], order)
    requires i > 0 ==> scores[order[i - 1]] >= scores[k]
    requires forall j :: i <= j < k ==> scores[order[j]] < scores[k]
    ensures IsRanking(scores[..k + 1], order[..i] + [k] + order[i..])
  {
    hide IsRanking, Before;
    AllBefore(scores, order, k, i);
    RankedPairs(scores, order, k);
    var next := order[..i] + [k] + order[i..];
    forall x | 0 <= x <= k
      ensures next[x] <= k
    {
    }
    forall x, y | 0 <= x < y <= k
      ensures Before(scores, next[x], next[y])
    {
      NextPair(scores, order, k, i, x, y);
    }
    RankingOf(scores, next, k + 1);
  }

  /** Where the k-th candidate goes among those before it. */
  method PlaceFor(scores: seq<real>, order: seq<nat>, k: nat) returns (i: nat)
    requires k < |scores| && IsRanking(scores[..k], order)
    ensures i <= k && IsRanking(scores[..k + 1], order[..i] + [k] + order[i..])
  {
    i := k;
    while i > 0 && scores[order[i - 1]] < scores[k]
      invariant 0 <= i <= k
      invariant forall j :: i <= j < k ==> scores[order[j]] < scores[k]
    {
      i := i - 1;
    }
    InsertRanked(scores, order, k, i);
  }

  lemma NothingRanked(scores: seq<real>)
    ensures IsRanking(scores[..0], [])
  {
  }

  /** `sort` with the comparator `b.score - a.score`; the library's sort is stable. */
  method SortDescending(scores: seq<real>) returns (order: seq<nat>)
    ensures IsRanking(scores, order)
  {
    hide IsRanking;
    order := [];
    NothingRanked(scores);
    for k := 0 to |scores|
      invariant |order| == k && IsRanking(scores[..k], order)
    {
      var i := PlaceFor(scores, order, k);
      order := order[..i] + [k] + order[i..];
    }
    assert scores[..|scores|] == scores;
  }

  // ----- two candidates

  function Half(a: Vector): (b: Vector)
    ensures |b| == |a|
  {
    seq(|a|, i requires 0 <= i < |a| => 0.5 * a[i])
  }

  lemma HalfPrefix(a: Vector, n: nat)
    requires n <= |a|
    ensures Half(a)[..n] == Half(a[..n])
  {
    forall i | 0 <= i < n
      ensures Half(a)[..n][i] == Half(a[..n])[i]
    {
    }
  }

  lemma {:induction false} DotHalf(a: Vector, b: Vector)
    requires |a| == |b|
    ensures Dot(Half(a), b) == 0.5 * Dot(a, b) && Dot(b, Half(a)) == 0.5 * Dot(b, a)
  {
    if a != [] {
      var n := |a| - 1;
      DotHalf(a[..n], b[..n]);
      HalfPrefix(a, n);
    }
  }

  lemma MeanOfTwo(a: Vector, b: Vector)
    requires |a| == |b|
    ensures SameSize([a, b], |a|)
    ensures Minus(a, Mean([a, b], |a|)) == Half(Minus(a, b))
    ensures Minus(b, Mean([a, b], |a|)) == Half(Minus(b, a))
  {
    var m := Mean([a, b], |a|);
    forall i | 0 <= i < |a|
      ensures m[i] == (a[i] + b[i]) / 2.0
    {
      SumNext([a, b], |a|, 0, i, 1);
      SumNext([a, b], |a|, 1, i, 2);
      assert [a, b][..2] == [a, b];
      assert [a, b][..0] == [];
    }
  }

  /** How far apart the two candidates' scores are, before the lengths are divided out. */
  function Gap(q: Vector, a: Vector, b: Vector): real
    requires |q| == |a| == |b|
  {
    Dot(Minus(q, Mean([a, b], |a|)), Minus(a, b))
  }

  /** What the centred products differ by is the product with the difference. */
  lemma {:induction false} MinusMinus(x: Vector, a: Vector, b: Vector, m: Vector)
    requires |x| == |a| == |b| == |m|
    ensures Dot(x, Minus(a, b)) == Dot(x, Minus(a, m)) - Dot(x, Minus(b, m))
  {
    if x != [] {
      var n := |x| - 1;
      MinusMinus(x[..n], a[..n], b[..n], m[..n]);
      assert Minus(a, b)[..n] == Minus(a[..n], b[..n]);
      assert Minus(a, m)[..n] == Minus(a[..n], m[..n]) && Minus(b, m)[..n] == Minus(b[..n], m[..n]);
    }
  }

  lemma FlipStep(x: real, a: real, b: real, rest: real)
    ensures -rest + x * (b - a) == -(rest + x * (a - b))
  {
  }

  lemma {:induction false} DotFlipped(x: Vector, a: Vector, b: Vector)
    requires |x| == |a| == |b|
    ensures Dot(x, Minus(b, a)) == -Dot(x, Minus(a, b))
  {
    if x != [] {
      var n := |x| - 1;
      DotFlipped(x[..n], a[..n], b[..n]);
      assert Minus(a, b)[..n] == Minus(a[..n], b[..n]) && Minus(b, a)[..n] == Minus(b[..n], a[..n]);
      FlipStep(x[n], a[n], b[n], Dot(x[..n], Minus(a[..n], b[..n])));
    }
  }

  lemma HalfDot(x: Vector, u: Vector, d: Vector)
    requires |x| == |u| == |d| && u == Half(d)
    ensures Dot(x, u) == 0.5 * Dot(x, d) && Dot(u, x) == 0.5 * Dot(d, x)
  {
    hide Dot, Half;
    DotHalf(d, x);
  }

  lemma HalfProducts(x: Vector, u: Vector, d: Vector)
    requires |x| == |u| == |d| && u == Half(d)
    ensures Dot(x, u) == 0.5 * Dot(x, d) && Dot(u, u) == 0.25 * Dot(d, d)
  {
    hide Dot, Half;
    HalfDot(x, u, d);
    HalfDot(u, u, d);
    HalfDot(d, u, d);
  }

  /** Two vectors of one length have the same product with their mean. */
  lemma HalfDifference(a: Vector, b: Vector, m: Vector)
    requires |a| == |b| && m == Mean([a, b], |a|) && Dot(a, a) == Dot(b, b)
    ensures Dot(a, m) == Dot(b, m)
  {
    MeanOfTwo(a, b);
    var d := Minus(a, b);
    Expanded(a, a, m);
    Expanded(b, b, m);
    DotFlipped(d, a, b);
    DotFlipped(Minus(b, a), a, b);
    DotSymmetric(d, Minus(b, a));
    HalfProducts(d, Minus(a, m), d);
    HalfProducts(d, Minus(b, m), Minus(b, a));
  }

  /** For two vectors of one length the gap is that of the raw products. */
  lemma GapIsRaw(q: Vector, a: Vector, b: Vector)
    requires |q| == |a| == |b| && Dot(a, a) == Dot(b, b)
    ensures Gap(q, a, b) == Dot(q, a) - Dot(q, b)
  {
    var m := Mean([a, b], |a|);
    var qm := Minus(q, m);
    Expanded(q, a, m);
    Expanded(q, b, m);
    MeanOfTwo(a, b);
    MinusMinus(qm, a, b, m);
    HalfDifference(a, b, m);
  }

  lemma SameLength(a: Vector, b: Vector)
    requires |a| == |b|
    ensures Dot(Minus(a, b), Minus(a, b)) == Dot(Minus(b, a), Minus(b, a))
  {
    DotFlipped(Minus(a, b), a, b);
    DotFlipped(Minus(b, a), b, a);
    DotSymmetric(Minus(a, b), Minus(b, a));
  }

  lemma Sign(p: real, denom: real)
    requires denom > 0.0
    ensures (p > 0.0 ==> p / denom > 0.0) && (p == 0.0 ==> p / denom == 0.0) && (p < 0.0 ==> p / denom < 0.0)
  {
  }

  lemma Divided(gap: real, denom: real, pu: real, pw: real, u: real, w: real)
    requires pu == 0.5 * gap && pw == -0.5 * gap && (denom <= 0.0 ==> gap == 0.0)
    requires u == (if denom > 0.0 then pu / denom else 0.0) && w == (if denom > 0.0 then pw / denom else 0.0)
    ensures (gap > 0.0 ==> u > w) && (gap == 0.0 ==> u == w) && (gap < 0.0 ==> u < w)
  {
    if denom > 0.0 {
      Sign(pu, denom);
      Sign(pw, denom);
    }
  }

  lemma NoGap(root: Root, x: Vector, u: Vector)
    requires GoodRoot(root) && |x| == |u| && root(Dot(x, x)) * root(Dot(u, u)) <= 0.0
    ensures Dot(x, u) == 0.0
  {
    SquareNotNegative(x);
    SquareNotNegative(u);
    var rx, ru := root(Dot(x, x)), root(Dot(u, u));
    if rx > 0.0 && ru > 0.0 {
      PositiveSquare(rx, ru);
      assert false;
    }
    if rx == 0.0 {
      NoDirection(x, u);
    } else {
      NoDirection(u, x);
      DotSymmetric(u, x);
    }
  }

  /** The cosines of two candidates that lie opposite each other, equally far from their mean. */
  lemma OppositeScores(root: Root, x: Vector, u: Vector, w: Vector, a: Vector, b: Vector, gap: real)
    requires GoodRoot(root) && |x| == |u| == |w| == |a| == |b| && gap == Dot(x, Minus(a, b))
    requires u == Half(Minus(a, b)) && w == Half(Minus(b, a))
    ensures gap > 0.0 ==> Cosine(root, x, u) > Cosine(root, x, w)
    ensures gap == 0.0 ==> Cosine(root, x, u) == Cosine(root, x, w)
    ensures gap < 0.0 ==> Cosine(root, x, u) < Cosine(root, x, w)
  {
    hide Dot, Half, GoodRoot;
    HalfProducts(x, u, Minus(a, b));
    HalfProducts(x, w, Minus(b, a));
    DotFlipped(x, a, b);
    SameLength(a, b);
    var denom := root(Dot(x, x)) * root(Dot(u, u));
    if denom <= 0.0 {
      NoGap(root, x, u);
    }
    Divided(gap, denom, Dot(x, u), Dot(x, w), Cosine(root, x, u), Cosine(root, x, w));
  }

  lemma SameOrder(x: real, y: real, x': real, y': real, order: seq<nat>)
    requires (x > y <==> x' > y') && (x == y <==> x' == y')
    ensures IsRanking([x, y], order) <==> IsRanking([x', y'], order)
  {
  }

  /** With two unit candidates, centring does not change their order: it is that of the raw products. */
  lemma TwoCandidatesKeepOrder(root: Root, q: Vector, a: Vector, b: Vector, order: seq<nat>)
    requires GoodRoot(root) && |q| == |a| == |b| && Dot(a, a) == 1.0 && Dot(b, b) == 1.0
    ensures SameSize([a, b], |q|)
    ensures IsRanking([Score(root, q, [a, b], a), Score(root, q, [a, b], b)], order) <==>
      IsRanking([Dot(q, a), Dot(q, b)], order)
  {
    hide Dot, Mean, Minus;
    MeanOfTwo(a, b);
    GapIsRaw(q, a, b);
    var m := Mean([a, b], |q|);
    OppositeScores(root, Minus(q, m), Minus(a, m), Minus(b, m), a, b, Gap(q, a, b));
    SameOrder(Score(root, q, [a, b], a), Score(root, q, [a, b], b), Dot(q, a), Dot(q, b), order);
  }

  // ----- the search

  datatype Engram = Engram(id: string, text: string)

  datatype Cached = Cached(hash: string, embedding: Vector)

  /** The active embedder, with the instruction it puts before a query, and the hash of a text. */
  datatype Embedder = Embedder(instruction: string, query: string -> Option<Vector>, passage: string -> Option<Vector>,
                               hash: string -> string)

  ghost predicate GoodEmbedder(e: Embedder, dim: nat) {
    && (forall t :: e.query(t).Some? ==> |e.query(t).value| == dim)
    && (forall t :: e.passage(t).Some? ==> |e.passage(t).value| == dim)
    && (forall t, u :: e.hash(t) == e.hash(u) ==> t == u)
  }

  /** Every entry holds the embedding of the text its hash names. */
  ghost predicate Coherent(e: Embedder, cache: map<string, Cached>) {
    forall id, text :: id in cache && e.hash(text) == cache[id].hash ==> e.passage(text) == Some(cache[id].embedding)
  }

  /** The first n engrams can all be embedded. */
  predicate Embeddable(e: Embedder, engrams: seq<Engram>, n: nat)
    requires n <= |engrams|
  {
    forall k :: 0 <= k < n ==> e.passage(engrams[k].text).Some?
  }

  function Embeddings(e: Embedder, engrams: seq<Engram>): (vs: seq<Vector>)
    requires Embeddable(e, engrams, |engrams|)
    ensures |vs| == |engrams|
  {
    seq(|engrams|, k requires 0 <= k < |engrams| => e.passage(engrams[k].text).value)
  }

  /** The engrams at these places, limit of them at most. */
  function Picked(engrams: seq<Engram>, order: seq<nat>, limit: nat): seq<Engram>
    requires forall i :: 0 <= i < |order| ==> order[i] < |engrams|
  {
    seq(if limit < |order| then limit else |order|, i requires 0 <= i < |order| => engrams[order[i]])
  }

  ghost predicate IsScores(root: Root, q: Vector, vs: seq<Vector>, scores: seq<real>) {
    && SameSize(vs, |q|) && |scores| == |vs|
    && forall k :: 0 <= k < |vs| ==> scores[k] == Score(root, q, vs, vs[k])
  }

  /** What the search finds when it embeds everything afresh and ranks by the literally centred cosine. */
  ghost predicate IsSearch(e: Embedder, root: Root, engrams: seq<Engram>, query: string, limit: nat,
                           found: seq<Engram>) {
    if engrams == [] || e.query(e.instruction + query).None? || !Embeddable(e, engrams, |engrams|) then found == []
    else
      exists scores, order ::
        && IsScores(root, e.query(e.instruction + query).value, Embeddings(e, engrams), scores)
        && IsRanking(scores, order) && found == Picked(engrams, order, limit)
  }

  /**
   `found` are the engrams at `places`, as many as there are up to the limit: each place once, scores never rising
   and equal ones in the order they came, and no other engram scores more than any of them.
   */
  ghost predicate AreBest(scores: seq<real>, engrams: seq<Engram>, limit: nat, found: seq<Engram>, places: seq<nat>) {
    && |scores| == |engrams| && |places| == |found| && |found| <= limit
    && (|found| == limit || |found| == |engrams|)
    && (forall i :: 0 <= i < |found| ==> places[i] < |engrams| && found[i] == engrams[places[i]])
    && (forall i, j :: 0 <= i < j < |found| ==>
          && scores[places[i]] >= scores[places[j]] && places[i] != places[j]
          && (scores[places[i]] == scores[places[j]] ==> places[i] < places[j]))
    && (forall i, k :: 0 <= i < |found| && 0 <= k < |engrams| && k !in places ==>
          && scores[k] <= scores[places[i]] && (scores[k] == scores[places[i]] ==> k > places[i]))
  }

  lemma LaterPlace(order: seq<nat>, n: nat, all: nat, k: nat) returns (j: nat)
    requires |order| == all && (forall i :: 0 <= i < all ==> order[i] < all)
    requires forall i, j :: 0 <= i < j < all ==> order[i] != order[j]
    requires n <= all && k < all && k !in order[..n]
    ensures n <= j < all && order[j] == k
  {
    EveryIndexOnce(order, all);
    assert k in order;
    j :| 0 <= j < |order| && order[j] == k;
    assert forall i :: 0 <= i < n ==> order[..n][i] == order[i];
  }

  lemma Distinct(scores: seq<real>, order: seq<nat>)
    requires IsRanking(scores, order)
    ensures forall i, j :: 0 <= i < j < |order| ==> order[i] != order[j]
  {
  }

  lemma RankingInRange(scores: seq<real>, order: seq<nat>)
    requires IsRanking(scores, order)
    ensures |order| == |scores| && forall i :: 0 <= i < |order| ==> order[i] < |scores|
  {
  }

  lemma EarlierScoresMore(scores: seq<real>, order: seq<nat>, i: nat, j: nat)
    requires IsRanking(scores, order) && i < j < |order|
    ensures scores[order[i]] >= scores[order[j]] && (scores[order[i]] == scores[order[j]] ==> order[i] < order[j])
  {
  }

  lemma PickedAreBest(scores: seq<real>, order: seq<nat>, engrams: seq<Engram>, limit: nat)
    requires |scores| == |engrams| == |order| && IsRanking(scores, order)
    ensures var n := if limit < |order| then limit else |order|;
      AreBest(scores, engrams, limit, Picked(engrams, order, limit), order[..n])
  {
    var n := if limit < |order| then limit else |order|;
    var places := order[..n];
    hide IsRanking;
    Distinct(scores, order);
    RankingInRange(scores, order);
    forall i, j | 0 <= i < j < |order|
      ensures scores[order[i]] >= scores[order[j]] && (scores[order[i]] == scores[order[j]] ==> order[i] < order[j])
    {
      EarlierScoresMore(scores, order, i, j);
    }
    forall i, k | 0 <= i < n && 0 <= k < |engrams| && k !in places
      ensures scores[k] <= scores[places[i]] && (scores[k] == scores[places[i]] ==> k > places[i])
    {
      var j := LaterPlace(order, n, |scores|, k);
      assert i < j && places[i] == order[i];
    }
  }

  /** What a search that can embed everything finds is the best the candidates have. */
  ghost predicate FindsBest(e: Embedder, root: Root, engrams: seq<Engram>, query: string, limit: nat,
                            found: seq<Engram>) {
    engrams != [] && e.query(e.instruction + query).Some? && Embeddable(e, engrams, |engrams|) ==>
      exists scores, places ::
        IsScores(root, e.query(e.instruction + query).value, Embeddings(e, engrams), scores) &&
        AreBest(scores, engrams, limit, found, places)
  }

  lemma SearchFindsBest(e: Embedder, root: Root, engrams: seq<Engram>, query: string, limit: nat, found: seq<Engram>)
    requires IsSearch(e, root, engrams, query, limit, found)
    ensures FindsBest(e, root, engrams, query, limit, found)
  {
    hide Score, AreBest, Picked;
    if engrams != [] && e.query(e.instruction + query).Some? && Embeddable(e, engrams, |engrams|) {
      var vs, q := Embeddings(e, engrams), e.query(e.instruction + query).value;
      var scores, order :| IsScores(root, q, vs, scores) && IsRanking(scores, order) &&
        found == Picked(engrams, order, limit);
      PickedAreBest(scores, order, engrams, limit);
    }
  }

  lemma SizesAgree(e: Embedder, dim: nat)
    requires GoodEmbedder(e, dim)
    ensures forall t :: e.query(t).Some? ==> |e.query(t).value| == dim
    ensures forall t :: e.passage(t).Some? ==> |e.passage(t).value| == dim
  {
  }

  lemma CacheHit(e: Embedder, cache: map<string, Cached>, engram: Engram)
    requires Coherent(e, cache) && engram.id in cache && cache[engram.id].hash == e.hash(engram.text)
    ensures e.passage(engram.text) == Some(cache[engram.id].embedding)
  {
  }

  lemma CacheMiss(e: Embedder, cache: map<string, Cached>, engram: Engram, dim: nat)
    requires GoodEmbedder(e, dim) && Coherent(e, cache) && e.passage(engram.text).Some?
    ensures Coherent(e, cache[engram.id := Cached(e.hash(engram.text), e.passage(engram.text).value)])
  {
  }

  /** Of the first n engrams, the last of every id is in the cache with its text. */
  ghost predicate IsFilled(e: Embedder, engrams: seq<Engram>, n: nat, cache: map<string, Cached>)
    requires n <= |engrams|
  {
    forall j :: 0 <= j < n && (forall i :: j < i < n ==> engrams[i].id != engrams[j].id) ==>
      engrams[j].id in cache && cache[engrams[j].id].hash == e.hash(engrams[j].text)
  }

  /** Entries of other ids are as they were. */
  ghost predicate OthersKept(engrams: seq<Engram>, before: map<string, Cached>, after: map<string, Cached>) {
    forall id :: (forall i :: 0 <= i < |engrams| ==> engrams[i].id != id) ==>
      (id in after <==> id in before) && (id in before ==> after[id] == before[id])
  }

  lemma NothingFilled(e: Embedder, engrams: seq<Engram>, cache: map<string, Cached>)
    ensures IsFilled(e, engrams, 0, cache) && OthersKept(engrams, cache, cache)
  {
  }

  lemma HitFills(e: Embedder, engrams: seq<Engram>, k: nat, n: nat, cache: map<string, Cached>)
    requires n == k + 1 <= |engrams| && IsFilled(e, engrams, k, cache)
    requires engrams[k].id in cache && cache[engrams[k].id].hash == e.hash(engrams[k].text)
    ensures IsFilled(e, engrams, n, cache)
  {
  }

  lemma MissFills(e: Embedder, engrams: seq<Engram>, k: nat, n: nat, cache: map<string, Cached>, v: Vector)
    requires n == k + 1 <= |engrams| && IsFilled(e, engrams, k, cache)
    ensures IsFilled(e, engrams, n, cache[engrams[k].id := Cached(e.hash(engrams[k].text), v)])
  {
    var now := cache[engrams[k].id := Cached(e.hash(engrams[k].text), v)];
    forall j | 0 <= j < n && (forall i :: j < i < n ==> engrams[i].id != engrams[j].id)
      ensures engrams[j].id in now && now[engrams[j].id].hash == e.hash(engrams[j].text)
    {
      assert j < k ==> engrams[k].id != engrams[j].id;
    }
  }

  lemma MissKeepsOthers(engrams: seq<Engram>, k: nat, before: map<string, Cached>, cache: map<string, Cached>,
                        c: Cached)
    requires k < |engrams| && OthersKept(engrams, before, cache)
    ensures OthersKept(engrams, before, cache[engrams[k].id := c])
  {
  }

  /** Where nothing can be found there is nothing to be best of. */
  lemma NothingFound(e: Embedder, root: Root, engrams: seq<Engram>, query: string, limit: nat)
    requires engrams == [] || e.query(e.instruction + query).None? || !Embeddable(e, engrams, |engrams|)
    ensures FindsBest(e, root, engrams, query, limit, [])
  {
  }

  /** `embeddingSearch`, not cut off: whatever coherent cache it starts from, it finds what a fresh search finds. */
  method EmbeddingSearch(e: Embedder, root: Root, engrams: seq<Engram>, query: string, limit: nat,
                         cache: map<string, Cached>, ghost dim: nat)
    returns (found: seq<Engram>, filled: map<string, Cached>)
    requires GoodEmbedder(e, dim) && GoodRoot(root) && Coherent(e, cache)
    ensures IsSearch(e, root, engrams, query, limit, found)
    ensures FindsBest(e, root, engrams, query, limit, found)
    ensures Coherent(e, filled) && OthersKept(engrams, cache, filled)
    ensures e.query(e.instruction + query).Some? && Embeddable(e, engrams, |engrams|) ==>
      IsFilled(e, engrams, |engrams|, filled)
  {
    hide GoodRoot, Coherent, GoodEmbedder, Score, IsRanking, FindsBest, IsFilled, OthersKept;
    NothingFilled(e, engrams, cache);
    filled := cache;
    if |engrams| == 0 {
      NothingFound(e, root, engrams, query, limit);
      return [], filled;
    }
    var q := e.query(e.instruction + query);
    if q.None? {
      NothingFound(e, root, engrams, query, limit);
      return [], filled;
    }
    SizesAgree(e, dim);
    var vectors: seq<Vector> := [];
    for k := 0 to |engrams|
      invariant Coherent(e, filled) && Embeddable(e, engrams, k) && |vectors| == k
      invariant IsFilled(e, engrams, k, filled) && OthersKept(engrams, cache, filled)
      invariant forall j :: 0 <= j < k ==> vectors[j] == e.passage(engrams[j].text).value
    {
      var engram := engrams[k];
      var hash := e.hash(engram.text);
      var v: Vector;
      if engram.id in filled && filled[engram.id].hash == hash {
        CacheHit(e, filled, engram);
        HitFills(e, engrams, k, k + 1, filled);
        v := filled[engram.id].embedding;
      } else {
        var emb := e.passage(engram.text);
        if emb.None? {
          NothingFound(e, root, engrams, query, limit);
          return [], filled;
        }
        v := emb.value;
        CacheMiss(e, filled, engram, dim);
        MissFills(e, engrams, k, k + 1, filled, v);
        MissKeepsOthers(engrams, k, cache, filled, Cached(hash, v));
        filled := filled[engram.id := Cached(hash, v)];
      }
      vectors := vectors + [v];
    }
    assert vectors == Embeddings(e, engrams);
    var scores := CentredCosines(root, q.value, vectors);
    var order := SortDescending(scores);
    RankingInRange(scores, order);
    found := Picked(engrams, order, limit);
    assert IsScores(root, q.value, Embeddings(e, engrams), scores);
    SearchFindsBest(e, root, engrams, query, limit, found);
  }

  /** There is one answer, so no cache can change it. */
  lemma OneAnswer(e: Embedder, root: Root, engrams: seq<Engram>, query: string, limit: nat, a: seq<Engram>,
                  b: seq<Engram>)
    requires IsSearch(e, root, engrams, query, limit, a) && IsSearch(e, root, engrams, query, limit, b)
    ensures a == b
  {
    if engrams != [] && e.query(e.instruction + query).Some? && Embeddable(e, engrams, |engrams|) {
      hide IsRanking, Score;
      var vs, q := Embeddings(e, engrams), e.query(e.instruction + query).value;
      var sa, oa :| IsScores(root, q, vs, sa) && IsRanking(sa, oa) && a == Picked(engrams, oa, limit);
      var sb, ob :| IsScores(root, q, vs, sb) && IsRanking(sb, ob) && b == Picked(engrams, ob, limit);
      assert sa == sb;
      RankingInRange(sa, oa);
      RankingInRange(sa, ob);
      OneRanking(sa, oa, ob, |sa|);
      assert oa[..|sa|] == oa && ob[..|sa|] == ob;
    }
  }
}
