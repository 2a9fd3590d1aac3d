/**
 Ranks with ties averaged, and the correlation of two rankings. The correlation is kept as its
 covariance and its two variance sums, without the square root.
 */
module Ranks {
  import opened FiniteSets

  // ---- Tie ranks ----

  function Lower(v: seq<real>, x: real): set<nat> {
    set i: nat | i < |v| && v[i] < x
  }

  function Equal(v: seq<real>, x: real): set<nat> {
    set i: nat | i < |v| && v[i] == x
  }

  /** The number of smaller values, and half the number of other equal ones. */
  function Rank(v: seq<real>, k: nat): real
    requires k < |v|
  {
    |Lower(v, v[k])| as real + (|Equal(v, v[k])| - 1) as real / 2.0
  }

  /** An arrangement of the indices by increasing value. */
  ghost predicate SortOrder(v: seq<real>, order: seq<nat>) {
    && |order| == |v|
    && (forall k | 0 <= k < |order| :: order[k] < |v|)
    && (forall i | 0 <= i < |v| :: i in order)
    && (forall a, b | 0 <= a < b < |order| :: order[a] != order[b] && v[order[a]] <= v[order[b]])
  }

  ghost function Stretch(order: seq<nat>, from: nat, to: nat): set<nat>
    requires from <= to <= |order|
  {
    set k | from <= k < to :: order[k]
  }

  lemma {:induction false} StretchSize(order: seq<nat>, from: nat, to: nat)
    requires from <= to <= |order| && forall a, b | 0 <= a < b < |order| :: order[a] != order[b]
    ensures |Stretch(order, from, to)| == to - from
  {
    if from < to {
      StretchSize(order, from, to - 1);
      assert Stretch(order, from, to) == Stretch(order, from, to - 1) + {order[to - 1]};
    } else {
      assert Stretch(order, from, to) == {};
    }
  }

  /** A maximal run of equal values occupies the places of its smaller and its equal values. */
  lemma RunRank(v: seq<real>, order: seq<nat>, i: nat, j: nat, k: nat)
    requires SortOrder(v, order) && i <= k <= j < |v|
    requires forall m | i <= m <= j :: v[order[m]] == v[order[i]]
    requires i == 0 || v[order[i - 1]] < v[order[i]]
    requires j + 1 == |v| || v[order[j]] < v[order[j + 1]]
    ensures Rank(v, order[k]) == (i + j) as real / 2.0
  {
    LowerPlaces(v, order, i);
    EqualPlaces(v, order, i, j);
    StretchSize(order, 0, i);
    StretchSize(order, i, j + 1);
  }

  lemma LowerPlaces(v: seq<real>, order: seq<nat>, i: nat)
    requires SortOrder(v, order) && i < |v| && (i == 0 || v[order[i - 1]] < v[order[i]])
    ensures Lower(v, v[order[i]]) == Stretch(order, 0, i)
  {
    forall p: nat | p < |v| ensures v[p] < v[order[i]] <==> p in Stretch(order, 0, i) {
      assert p in order;
      var m :| 0 <= m < |order| && order[m] == p;
      assert m < i ==> v[order[m]] <= v[order[i - 1]];
    }
  }

  lemma EqualPlaces(v: seq<real>, order: seq<nat>, i: nat, j: nat)
    requires SortOrder(v, order) && i <= j < |v|
    requires forall m | i <= m <= j :: v[order[m]] == v[order[i]]
    requires i == 0 || v[order[i - 1]] < v[order[i]]
    requires j + 1 == |v| || v[order[j]] < v[order[j + 1]]
    ensures Equal(v, v[order[i]]) == Stretch(order, i, j + 1)
  {
    forall p: nat | p < |v| ensures v[p] == v[order[i]] <==> p in Stretch(order, i, j + 1) {
      assert p in order;
      var m :| 0 <= m < |order| && order[m] == p;
      assert m < i ==> v[order[m]] <= v[order[i - 1]];
      assert m > j ==> v[order[j + 1]] <= v[order[m]];
    }
  }

  /** Average the places of each run of equal values; places start at `first`. */
  method TieRanks(v: seq<real>, order: seq<nat>, first: real) returns (r: array<real>)
    requires SortOrder(v, order)
    ensures fresh(r) && r.Length == |v|
    ensures forall k | 0 <= k < |v| :: r[k] == first + Rank(v, k)
  {
    r := new real[|v|];
    var i := 0;
    while i < |order|
      invariant 0 <= i <= |v|
      invariant 0 < i < |v| ==> v[order[i - 1]] < v[order[i]]
      invariant forall m | 0 <= m < i :: r[order[m]] == first + Rank(v, order[m])
    {
      var j := i;
      while j + 1 < |order| && v[order[j + 1]] == v[order[i]]
        invariant i <= j < |v| && forall m | i <= m <= j :: v[order[m]] == v[order[i]]
      {
        j := j + 1;
      }
      for k := i to j + 1
        invariant forall m | 0 <= m < k :: r[order[m]] == first + Rank(v, order[m])
      {
        RunRank(v, order, i, j, k);
        r[order[k]] := first + (i + j) as real / 2.0;
      }
      i := j + 1;
    }
    forall k | 0 <= k < |v| ensures r[k] == first + Rank(v, k) {
      assert k in order;
    }
  }

  // ---- Ranks depend on order alone, and their sum on length alone ----

  ghost predicate SameOrder(v: seq<real>, w: seq<real>) {
    |v| == |w| && forall i, j | 0 <= i < |v| && 0 <= j < |v| :: v[i] < v[j] <==> w[i] < w[j]
  }

  lemma OrderIsAll(v: seq<real>, w: seq<real>, k: nat)
    requires SameOrder(v, w) && k < |v|
    ensures Rank(v, k) == Rank(w, k)
  {
    assert Lower(v, v[k]) == Lower(w, w[k]);
    assert Equal(v, v[k]) == Equal(w, w[k]) by {
      forall i: nat | i < |v| ensures v[i] == v[k] <==> w[i] == w[k] {
        assert v[i] < v[k] <==> w[i] < w[k];
        assert v[k] < v[i] <==> w[k] < w[i];
      }
    }
  }

  lemma RankOrder(v: seq<real>, i: nat, j: nat)
    requires i < |v| && j < |v|
    ensures Rank(v, i) < Rank(v, j) <==> v[i] < v[j]
  {
    if v[i] < v[j] {
      RankBelow(v, i, j);
    } else if v[j] < v[i] {
      RankBelow(v, j, i);
    }
  }

  lemma RankBelow(v: seq<real>, i: nat, j: nat)
    requires i < |v| && j < |v| && v[i] < v[j]
    ensures Rank(v, i) < Rank(v, j)
  {
    var both := Lower(v, v[i]) + Equal(v, v[i]);
    assert |both| == |Lower(v, v[i])| + |Equal(v, v[i])|;
    SubsetSize(both, Lower(v, v[j]));
    assert i in Equal(v, v[i]) && j in Equal(v, v[j]);
    SubsetSize({i}, Equal(v, v[i]));
    SubsetSize({j}, Equal(v, v[j]));
  }

  /** One value against another: a full place when it is smaller, half when equal. */
  function Weight(e: real, x: real): real {
    if e < x then 1.0 else if e == x then 0.5 else 0.0
  }

  function Against(v: seq<real>, x: real): real {
    if v == [] then 0.0 else Against(v[..|v| - 1], x) + Weight(v[|v| - 1], x)
  }

  lemma OneMore(v: seq<real>, x: real)
    requires v != []
    ensures var head, last := v[..|v| - 1], v[|v| - 1];
            && |Lower(v, x)| == |Lower(head, x)| + (if last < x then 1 else 0)
            && |Equal(v, x)| == |Equal(head, x)| + (if last == x then 1 else 0)
  {
    var head, last := v[..|v| - 1], |v| - 1;
    assert Lower(v, x) == Lower(head, x) + if v[last] < x then {last} else {};
    assert Equal(v, x) == Equal(head, x) + if v[last] == x then {last} else {};
  }

  lemma {:induction false} AgainstCounts(v: seq<real>, x: real)
    ensures Against(v, x) == |Lower(v, x)| as real + |Equal(v, x)| as real / 2.0
  {
    if v == [] {
      assert Lower(v, x) == {} && Equal(v, x) == {};
    } else {
      AgainstCounts(v[..|v| - 1], x);
      OneMore(v, x);
    }
  }

  function SumAgainst(v: seq<real>, xs: seq<real>): real {
    if xs == [] then 0.0 else SumAgainst(v, xs[..|xs| - 1]) + Against(v, xs[|xs| - 1])
  }

  lemma {:induction false} AgainstOneMore(v: seq<real>, e: real, xs: seq<real>)
    ensures SumAgainst(v + [e], xs) == SumAgainst(v, xs) + |xs| as real - Against(xs, e)
  {
    if xs != [] {
      AgainstOneMore(v, e, xs[..|xs| - 1]);
      assert (v + [e])[..|v|] == v;
    }
  }

  lemma {:induction false} AgainstItself(v: seq<real>)
    ensures SumAgainst(v, v) == (|v| * |v|) as real / 2.0
  {
    if v != [] {
      var head, e := v[..|v| - 1], v[|v| - 1];
      AgainstItself(head);
      assert v == head + [e];
      AgainstOneMore(head, e, head);
      assert (|v| * |v|) == |head| * |head| + 2 * |head| + 1;
    }
  }

  function Sum(r: seq<real>): real {
    if r == [] then 0.0 else Sum(r[..|r| - 1]) + r[|r| - 1]
  }

  function RanksOf(v: seq<real>, first: real): (r: seq<real>)
    ensures |r| == |v|
  {
    seq(|v|, k requires 0 <= k < |v| => first + Rank(v, k))
  }

  function Fold(n: nat, c: real): real {
    if n == 0 then 0.0 else Fold(n - 1, c) + c
  }

  lemma {:induction false} FoldIsProduct(n: nat, c: real)
    ensures Fold(n, c) == n as real * c
  {
    if n > 0 {
      FoldIsProduct(n - 1, c);
      assert n as real * c == (n - 1) as real * c + c;
    }
  }

  lemma {:induction false} SumRanks(v: seq<real>, first: real, n: nat)
    requires n <= |v|
    ensures Sum(RanksOf(v, first)[..n]) == SumAgainst(v, v[..n]) + Fold(n, first - 0.5)
  {
    if n > 0 {
      SumRanks(v, first, n - 1);
      assert RanksOf(v, first)[..n][..n - 1] == RanksOf(v, first)[..n - 1] && v[..n][..n - 1] == v[..n - 1];
      AgainstCounts(v, v[n - 1]);
    }
  }

  /** The sum of n consecutive places. */
  function Total(n: nat, first: real): real {
    (n * n) as real / 2.0 + n as real * (first - 0.5)
  }

  /** However the values tie, their ranks sum to the same total. */
  lemma RankTotal(v: seq<real>, first: real)
    ensures Sum(RanksOf(v, first)) == Total(|v|, first)
  {
    SumRanks(v, first, |v|);
    FoldIsProduct(|v|, first - 0.5);
    assert RanksOf(v, first)[..|v|] == RanksOf(v, first) && v[..|v|] == v;
    AgainstItself(v);
  }

  // ---- Correlation ----

  /** The covariance sum of two rankings and the variance sum of each. */
  datatype Correlation = Correlation(cov: real, vx: real, vy: real)
  {
    /** What the variances' product leaves beyond the squared covariance. */
    function Rest(): real {
      vx * vy - cov * cov
    }
  }

  function Dot(a: seq<real>, b: seq<real>): real
    requires |a| == |b|
  {
    if a == [] then 0.0 else Dot(a[..|a| - 1], b[..|b| - 1]) + a[|a| - 1] * b[|b| - 1]
  }

  function Centered(r: seq<real>, mean: real): (d: seq<real>)
    ensures |d| == |r|
  {
    seq(|r|, k requires 0 <= k < |r| => r[k] - mean)
  }

  function Correlate(rx: seq<real>, ry: seq<real>): Correlation
    requires |rx| == |ry| > 0
  {
    var n := |rx| as real;
    var dx, dy := Centered(rx, Sum(rx) / n), Centered(ry, Sum(ry) / n);
    Correlation(Dot(dx, dy), Dot(dx, dx), Dot(dy, dy))
  }

  /** How far each rank is from the middle one. */
  function Deviations(v: seq<real>): (d: seq<real>)
    ensures |d| == |v|
  {
    seq(|v|, k requires 0 <= k < |v| => Rank(v, k) - (|v| - 1) as real / 2.0)
  }

  lemma CenteredRanks(v: seq<real>, first: real)
    requires v != []
    ensures Centered(RanksOf(v, first), Sum(RanksOf(v, first)) / |v| as real) == Deviations(v)
  {
    RankTotal(v, first);
    var n := |v| as real;
    assert (|v| * |v|) as real == n * n;
    assert Sum(RanksOf(v, first)) == n * (n / 2.0 + first - 0.5);
    Divided(Sum(RanksOf(v, first)), n, n / 2.0 + first - 0.5);
  }

  lemma Divided(total: real, n: real, mean: real)
    requires n != 0.0 && total == n * mean
    ensures total / n == mean
  {
  }

  /** The correlation of two columns, given a sorting order of each; where places start does not matter. */
  method Correlated(xs: seq<real>, ys: seq<real>, orderX: seq<nat>, orderY: seq<nat>, first: real)
    returns (c: Correlation)
    requires |xs| == |ys| > 0 && SortOrder(xs, orderX) && SortOrder(ys, orderY)
    ensures c == RankCorrelation(xs, ys)
  {
    var rx := TieRanks(xs, orderX, first);
    var ry := TieRanks(ys, orderY, first);
    assert rx[..] == RanksOf(xs, first) && ry[..] == RanksOf(ys, first);
    CenteredRanks(xs, first);
    CenteredRanks(ys, first);
    c := Correlate(rx[..], ry[..]);
  }

  function Mix(p: real, q: real, x: real, y: real): real {
    p * x + q * y
  }

  function Combined(a: seq<real>, b: seq<real>, p: real, q: real): (c: seq<real>)
    requires |a| == |b|
    ensures |c| == |a|
  {
    seq(|a|, i requires 0 <= i < |a| => Mix(p, q, a[i], b[i]))
  }

  lemma {:induction false} Linear(a: seq<real>, b: seq<real>, c: seq<real>, p: real, q: real)
    requires |a| == |b| == |c|
    ensures Dot(Combined(a, b, p, q), c) == Mix(p, q, Dot(a, c), Dot(b, c))
  {
    if a != [] {
      var last := |a| - 1;
      Linear(a[..last], b[..last], c[..last], p, q);
      assert Combined(a, b, p, q)[..last] == Combined(a[..last], b[..last], p, q);
      MixProduct(p, q, a[last], b[last], c[last], Dot(a[..last], c[..last]), Dot(b[..last], c[..last]));
    }
  }

  lemma MixProduct(p: real, q: real, x: real, y: real, z: real, s: real, t: real)
    ensures Mix(p, q, s + x * z, t + y * z) == Mix(p, q, s, t) + Mix(p, q, x, y) * z
  {
  }

  lemma {:induction false} Symmetric(a: seq<real>, b: seq<real>)
    requires |a| == |b|
    ensures Dot(a, b) == Dot(b, a)
  {
    if a != [] {
      Symmetric(a[..|a| - 1], b[..|b| - 1]);
    }
  }

  function Times(x: real, y: real): real {
    x * y
  }

  lemma Positive(x: real, y: real)
    requires x > 0.0 && y > 0.0
    ensures Times(x, y) > 0.0
  {
  }

  lemma Negative(x: real)
    requires x < 0.0
    ensures Times(x, x) > 0.0
  {
    var y := -x;
    Positive(y, y);
    assert x * x == y * y;
  }

  lemma ZeroTimes(x: real, y: real)
    requires x == 0.0
    ensures Times(x, y) == 0.0 && Times(y, x) == 0.0
  {
  }

  function Squared(x: real): real {
    Times(x, x)
  }

  lemma SquareSign(x: real)
    ensures Squared(x) >= 0.0 && (Squared(x) == 0.0 <==> x == 0.0)
  {
    if x > 0.0 {
      Positive(x, x);
    } else if x < 0.0 {
      Negative(x);
    } else {
      ZeroTimes(x, x);
    }
  }

  lemma {:induction false} Squares(c: seq<real>)
    ensures Dot(c, c) >= 0.0
    ensures forall i | 0 <= i < |c| :: Squared(c[i]) <= Dot(c, c)
  {
    if c != [] {
      var last := |c| - 1;
      Squares(c[..last]);
      SquareSign(c[last]);
      forall i | 0 <= i < |c| ensures Squared(c[i]) <= Dot(c, c) {
        if i < last { assert c[..last][i] == c[i]; }
      }
    }
  }

  lemma Zeros(c: seq<real>)
    requires Dot(c, c) == 0.0
    ensures forall i | 0 <= i < |c| :: c[i] == 0.0
  {
    Squares(c);
    forall i | 0 <= i < |c| ensures c[i] == 0.0 {
      SquareSign(c[i]);
      assert Squared(c[i]) <= Dot(c, c);
    }
  }

  function Gap(a: seq<real>, b: seq<real>): real
    requires |a| == |b|
  {
    Dot(a, a) * Dot(b, b) - Dot(a, b) * Dot(a, b)
  }

  lemma GapIsSquare(a: seq<real>, b: seq<real>)
    requires |a| == |b|
    ensures var c := Combined(a, b, Dot(b, b), -Dot(a, b)); Dot(c, c) == Dot(b, b) * Gap(a, b)
  {
    var p, q := Dot(b, b), -Dot(a, b);
    var c := Combined(a, b, p, q);
    Linear(a, b, c, p, q);
    Linear(a, b, a, p, q);
    Linear(a, b, b, p, q);
    Symmetric(a, b);
    Symmetric(a, c);
    Symmetric(b, c);
    assert Dot(c, b) == 0.0;
    assert Dot(c, a) == Gap(a, b);
  }

  lemma SameSign(bb: real, gap: real)
    requires bb > 0.0 && bb * gap >= 0.0
    ensures gap >= 0.0
  {
    if gap < 0.0 { Positive(bb, -gap); }
  }

  /** The covariance squared never exceeds the product of the variances. */
  lemma Bounded(a: seq<real>, b: seq<real>)
    requires |a| == |b|
    ensures Gap(a, b) >= 0.0
  {
    GapIsSquare(a, b);
    Squares(Combined(a, b, Dot(b, b), -Dot(a, b)));
    Squares(b);
    if Dot(b, b) > 0.0 {
      SameSign(Dot(b, b), Gap(a, b));
    } else {
      Zeros(b);
      Orthogonal(a, b);
    }
  }

  ghost predicate Multiple(a: seq<real>, b: seq<real>, p: real, q: real) {
    |a| == |b| && forall i | 0 <= i < |a| :: p * a[i] == q * b[i]
  }

  /** It reaches it only when one side is a multiple of the other. */
  lemma BoundReached(a: seq<real>, b: seq<real>)
    requires |a| == |b| && Gap(a, b) == 0.0
    ensures Multiple(a, b, Dot(b, b), Dot(a, b))
  {
    GapIsSquare(a, b);
    Zeros(Combined(a, b, Dot(b, b), -Dot(a, b)));
    Cancelled(a, b, Dot(a, b), Dot(b, b));
  }

  lemma Cancelled(a: seq<real>, b: seq<real>, ab: real, bb: real)
    requires |a| == |b| && var c := Combined(a, b, bb, -ab); forall i | 0 <= i < |c| :: c[i] == 0.0
    ensures Multiple(a, b, bb, ab)
  {
    forall i | 0 <= i < |a| ensures bb * a[i] == ab * b[i] {
      assert Combined(a, b, bb, -ab)[i] == 0.0;
      Cancel(ab, bb, a[i], b[i]);
    }
  }

  lemma Cancel(ab: real, bb: real, x: real, y: real)
    ensures Mix(bb, -ab, x, y) == 0.0 ==> bb * x == ab * y
  {
  }

  /** With a positive covariance at the bound, both sides vary and each is a multiple of the other. */
  lemma Parallel(a: seq<real>, b: seq<real>)
    requires |a| == |b| && Gap(a, b) == 0.0 && Dot(a, b) > 0.0
    ensures Dot(a, a) > 0.0 && Dot(b, b) > 0.0 && Multiple(a, b, Dot(b, b), Dot(a, b))
  {
    BoundReached(a, b);
    NonNegative(a);
    NonNegative(b);
    NonZero(Correlation(Dot(a, b), Dot(a, a), Dot(b, b)));
  }

  lemma NonNegative(c: seq<real>)
    ensures Dot(c, c) >= 0.0
  {
    Squares(c);
  }

  lemma {:induction false} Orthogonal(a: seq<real>, b: seq<real>)
    requires |a| == |b| && forall i | 0 <= i < |b| :: b[i] == 0.0
    ensures Dot(a, b) == 0.0
  {
    if a != [] {
      Orthogonal(a[..|a| - 1], b[..|b| - 1]);
    }
  }


  // ---- What a correlation means ----

  /** The rank correlation of two columns, before the square root: places may start anywhere. */
  function RankCorrelation(xs: seq<real>, ys: seq<real>): Correlation
    requires |xs| == |ys|
  {
    var dx, dy := Deviations(xs), Deviations(ys);
    Correlation(Dot(dx, dy), Dot(dx, dx), Dot(dy, dy))
  }

  ghost predicate Constant(v: seq<real>) {
    forall i, j | 0 <= i < |v| && 0 <= j < |v| :: v[i] == v[j]
  }

  ghost predicate OppositeOrder(v: seq<real>, w: seq<real>) {
    |v| == |w| && forall i, j | 0 <= i < |v| && 0 <= j < |v| :: v[i] < v[j] <==> w[j] < w[i]
  }

  lemma SameRanks(v: seq<real>, w: seq<real>)
    requires SameOrder(v, w)
    ensures Deviations(v) == Deviations(w)
  {
    forall k | 0 <= k < |v| ensures Deviations(v)[k] == Deviations(w)[k] { OrderIsAll(v, w, k); }
  }

  /** The correlation depends on the order of each column alone. */
  lemma OrderDecides(xs: seq<real>, ys: seq<real>, xs': seq<real>, ys': seq<real>)
    requires |xs| == |ys| && SameOrder(xs, xs') && SameOrder(ys, ys')
    ensures RankCorrelation(xs, ys) == RankCorrelation(xs', ys')
  {
    SameRanks(xs, xs');
    SameRanks(ys, ys');
  }

  /** A column's variance vanishes exactly when it is constant: the case answered without a quotient. */
  lemma NoVariance(v: seq<real>)
    ensures Dot(Deviations(v), Deviations(v)) == 0.0 <==> Constant(v)
  {
    var d := Deviations(v);
    if Dot(d, d) == 0.0 {
      Zeros(d);
      forall i, j | 0 <= i < |v| && 0 <= j < |v| ensures v[i] == v[j] {
        assert d[i] == d[j] == 0.0;
        RankOrder(v, i, j);
        RankOrder(v, j, i);
      }
    }
    if Constant(v) {
      forall k | 0 <= k < |v| ensures d[k] == 0.0 { ConstantRank(v, k); }
      Orthogonal(d, d);
    }
  }

  lemma ConstantRank(v: seq<real>, k: nat)
    requires Constant(v) && k < |v|
    ensures Rank(v, k) == (|v| - 1) as real / 2.0
  {
    assert Lower(v, v[k]) == {};
    assert Equal(v, v[k]) == Below(|v|);
    BelowSize(|v|);
  }

  /** No rank correlation exceeds one in size: its square never exceeds the variances' product. */
  lemma AtMostOne(xs: seq<real>, ys: seq<real>)
    requires |xs| == |ys|
    ensures RankCorrelation(xs, ys).Rest() >= 0.0
  {
    Bounded(Deviations(xs), Deviations(ys));
  }

  /** The correlation is one exactly when the columns vary and rank everything alike. */
  lemma PerfectAgreement(xs: seq<real>, ys: seq<real>)
    requires |xs| == |ys|
    ensures var c := RankCorrelation(xs, ys);
            c.cov > 0.0 && c.Rest() == 0.0 <==> !Constant(xs) && SameOrder(xs, ys)
  {
    if SameOrder(xs, ys) && !Constant(xs) { AgreementIsPerfect(xs, ys); }
    if RankCorrelation(xs, ys).cov > 0.0 && RankCorrelation(xs, ys).Rest() == 0.0 { PerfectAgrees(xs, ys); }
  }

  lemma AgreementIsPerfect(xs: seq<real>, ys: seq<real>)
    requires SameOrder(xs, ys) && !Constant(xs)
    ensures var c := RankCorrelation(xs, ys); c.cov > 0.0 && c.cov == c.vx == c.vy
  {
    SameRanks(xs, ys);
    NoVariance(xs);
    Squares(Deviations(xs));
  }

  lemma PerfectAgrees(xs: seq<real>, ys: seq<real>)
    requires |xs| == |ys| && Gap(Deviations(xs), Deviations(ys)) == 0.0 && Dot(Deviations(xs), Deviations(ys)) > 0.0
    ensures !Constant(xs) && SameOrder(xs, ys)
  {
    var dx, dy := Deviations(xs), Deviations(ys);
    Parallel(dx, dy);
    NoVariance(xs);
    Proportional(xs, ys, Dot(dy, dy), Dot(dx, dy));
  }

  lemma NonZero(c: Correlation)
    requires c.cov > 0.0 && c.Rest() == 0.0
    ensures c.vx != 0.0 && c.vy != 0.0
  {
    Positive(c.cov, c.cov);
    if c.vx == 0.0 { ZeroTimes(c.vx, c.vy); }
    if c.vy == 0.0 { ZeroTimes(c.vy, c.vx); }
  }

  lemma Proportional(xs: seq<real>, ys: seq<real>, p: real, q: real)
    requires |xs| == |ys| && p > 0.0 && q > 0.0 && Multiple(Deviations(xs), Deviations(ys), p, q)
    ensures SameOrder(xs, ys)
  {
    var dx, dy := Deviations(xs), Deviations(ys);
    forall i, j | 0 <= i < |xs| && 0 <= j < |xs| ensures xs[i] < xs[j] <==> ys[i] < ys[j] {
      RankOrder(xs, i, j);
      RankOrder(ys, i, j);
      assert p * dx[i] == q * dy[i] && p * dx[j] == q * dy[j];
      Proportion(p, q, dx[i], dx[j], dy[i], dy[j]);
    }
  }

  lemma Proportion(p: real, q: real, x: real, x': real, y: real, y': real)
    requires p > 0.0 && q > 0.0 && p * x == q * y && p * x' == q * y'
    ensures x < x' <==> y < y'
  {
    if x < x' { Positive(p, x' - x); }
    if x > x' { Positive(p, x - x'); }
    if y < y' { Positive(q, y' - y); }
    if y > y' { Positive(q, y - y'); }
  }

  /** Opposite columns have opposite deviations, so their correlation is minus one when they vary. */
  lemma PerfectOpposition(xs: seq<real>, ys: seq<real>)
    requires OppositeOrder(xs, ys)
    ensures var c := RankCorrelation(xs, ys); c.cov == -c.vx && c.vx == c.vy
  {
    var dx, dy := Deviations(xs), Deviations(ys);
    forall k | 0 <= k < |xs| ensures dy[k] == -dx[k] { Mirrored(xs, ys, k); }
    Mirror(dx, dy, dx);
    Mirror(dx, dy, dy);
    Symmetric(dx, dy);
  }

  lemma {:induction false} Mirror(a: seq<real>, b: seq<real>, c: seq<real>)
    requires |a| == |b| == |c| && forall k | 0 <= k < |a| :: b[k] == -a[k]
    ensures Dot(b, c) == -Dot(a, c)
  {
    if a != [] {
      var last := |a| - 1;
      Mirror(a[..last], b[..last], c[..last]);
      assert b[last] * c[last] == -(a[last] * c[last]);
    }
  }

  lemma Mirrored(v: seq<real>, w: seq<real>, k: nat)
    requires OppositeOrder(v, w) && k < |v|
    ensures Rank(v, k) + Rank(w, k) == (|v| - 1) as real
  {
    var low, same, high := Lower(v, v[k]), Equal(v, v[k]), Lower(w, w[k]);
    assert Equal(w, w[k]) == same by {
      forall i: nat | i < |v| ensures v[i] == v[k] <==> w[i] == w[k] {
        assert v[i] < v[k] <==> w[k] < w[i];
        assert v[k] < v[i] <==> w[i] < w[k];
      }
    }
    forall i: nat | i < |v| ensures i in high <==> v[k] < v[i] {
      assert v[k] < v[i] <==> w[i] < w[k];
    }
    assert low + same + high == Below(|v|);
    BelowSize(|v|);
    ThreeSizes(low, same, high);
  }

  lemma ThreeSizes(a: set<nat>, b: set<nat>, c: set<nat>)
    requires a !! b !! c
    ensures |a + b + c| == |a| + |b| + |c|
  {
  }
}
