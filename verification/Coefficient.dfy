/**
 The rank correlation as a number: the covariance over the root of the variances' product, given a
 square root, and what its two users answer when a column is constant.
 */
module Coefficient {
  import opened Wrappers
  import opened Ranks

  /** The non-negative square root of x. */
  predicate IsRoot(root: real, x: real) {
    root >= 0.0 && Squared(root) == x
  }

  /** The quotient, or zero when a column does not vary. */
  function Quotient(c: Correlation, root: real): real
    requires c.vx != 0.0 && c.vy != 0.0 ==> root != 0.0
  {
    if c.vx != 0.0 && c.vy != 0.0 then c.cov / root else 0.0
  }

  // ---- Its laws ----

  lemma Difference(x: real, y: real)
    ensures Squared(x) - Squared(y) == Times(x - y, x + y)
  {
  }

  lemma OrderedSquares(x: real, y: real)
    requires y > 0.0 && Squared(x) <= Squared(y)
    ensures -y <= x <= y && (Squared(x) == Squared(y) <==> x == y || x == -y)
  {
    Difference(x, y);
    if x > y { Positive(x - y, x + y); }
    if x < -y {
      Positive(y - x, -x - y);
      Signs(x - y, x + y);
    }
    if -y < x < y {
      Positive(y - x, x + y);
      Flip(x - y, x + y);
    }
    if x == y || x == -y { ZeroTimes(if x == y then x - y else x + y, if x == y then x + y else x - y); }
  }

  lemma Signs(x: real, y: real)
    ensures Times(-x, -y) == Times(x, y)
  {
  }

  lemma Flip(x: real, y: real)
    ensures Times(-x, y) == -Times(x, y)
  {
  }

  lemma Divided(x: real, y: real)
    requires y > 0.0 && -y <= x <= y
    ensures -1.0 <= x / y <= 1.0 && (x / y == 1.0 <==> x == y) && (x / y == -1.0 <==> x == -y)
  {
    var q := x / y;
    assert Times(q, y) == x;
    Apart(q, 1.0, y);
    if q < 1.0 { Slower(q, 1.0, y); }
    if q > 1.0 { Slower(1.0, q, y); }
    if q < -1.0 { Slower(q, -1.0, y); }
    if q > -1.0 { Slower(-1.0, q, y); }
  }

  lemma Slower(q: real, r: real, y: real)
    requires q < r && y > 0.0
    ensures Times(q, y) < Times(r, y)
  {
    Positive(r - q, y);
    Apart(r, q, y);
  }

  lemma Apart(q: real, r: real, y: real)
    ensures Times(q - r, y) == Times(q, y) - Times(r, y) && Times(1.0, y) == y && Times(-1.0, y) == -y
  {
  }

  /** With variances that do not vanish, their product has a root that does not. */
  lemma RootPositive(xs: seq<real>, ys: seq<real>, root: real)
    requires |xs| == |ys| && !Constant(xs) && !Constant(ys)
    requires IsRoot(root, Times(RankCorrelation(xs, ys).vx, RankCorrelation(xs, ys).vy))
    ensures root > 0.0
  {
    Varies(xs);
    Varies(ys);
    Positive(RankCorrelation(xs, ys).vx, RankCorrelation(xs, ys).vy);
    if root == 0.0 { ZeroTimes(root, root); }
  }

  lemma Varies(v: seq<real>)
    ensures Dot(Deviations(v), Deviations(v)) >= 0.0
    ensures Dot(Deviations(v), Deviations(v)) == 0.0 <==> Constant(v)
  {
    NoVariance(v);
    Squares(Deviations(v));
  }

  function Negated(v: seq<real>): (w: seq<real>)
    ensures |w| == |v|
  {
    seq(|v|, i requires 0 <= i < |v| => -v[i])
  }

  /** Turning a column round turns the covariance's sign. */
  lemma TurnedRound(xs: seq<real>, ys: seq<real>)
    requires |xs| == |ys|
    ensures var c, d := RankCorrelation(xs, ys), RankCorrelation(xs, Negated(ys));
            d.cov == -c.cov && d.Rest() == c.Rest()
  {
    var dx, dy, dn := Deviations(xs), Deviations(ys), Deviations(Negated(ys));
    forall k | 0 <= k < |ys| ensures dn[k] == -dy[k] { Mirrored(ys, Negated(ys), k); }
    MirrorDots(dx, dy, dn);
    SameRest(RankCorrelation(xs, ys), RankCorrelation(xs, Negated(ys)));
  }

  lemma MirrorDots(a: seq<real>, b: seq<real>, c: seq<real>)
    requires |a| == |b| == |c| && forall k | 0 <= k < |b| :: c[k] == -b[k]
    ensures Dot(a, c) == -Dot(a, b) && Dot(c, c) == Dot(b, b)
  {
    Mirror(b, c, a);
    Mirror(b, c, c);
    Mirror(b, c, b);
    Symmetric(a, b);
    Symmetric(a, c);
    Symmetric(b, c);
  }

  lemma SameRest(c: Correlation, d: Correlation)
    requires d.cov == -c.cov && d.vx == c.vx && d.vy == c.vy
    ensures d.Rest() == c.Rest()
  {
    Signs(c.cov, c.cov);
  }

  lemma PerfectOppositionWhen(xs: seq<real>, ys: seq<real>)
    requires |xs| == |ys|
    ensures var c := RankCorrelation(xs, ys);
            c.cov < 0.0 && c.Rest() == 0.0 <==> !Constant(xs) && OppositeOrder(xs, ys)
  {
    TurnedRound(xs, ys);
    PerfectAgreement(xs, Negated(ys));
    assert SameOrder(xs, Negated(ys)) <==> OppositeOrder(xs, ys) by {
      if SameOrder(xs, Negated(ys)) {
        forall i, j | 0 <= i < |xs| && 0 <= j < |xs| ensures xs[i] < xs[j] <==> ys[j] < ys[i] {
          assert xs[i] < xs[j] <==> Negated(ys)[i] < Negated(ys)[j];
        }
      }
    }
  }

  /** It lies between minus one and one; it is one iff the columns vary and rank everything alike, minus
      one iff they vary and rank everything the other way round. */
  lemma QuotientLaws(xs: seq<real>, ys: seq<real>, root: real)
    requires |xs| == |ys| && IsRoot(root, Times(RankCorrelation(xs, ys).vx, RankCorrelation(xs, ys).vy))
    ensures RankCorrelation(xs, ys).vx != 0.0 && RankCorrelation(xs, ys).vy != 0.0 ==> root != 0.0
    ensures var r := Quotient(RankCorrelation(xs, ys), root);
            && -1.0 <= r <= 1.0
            && (r == 1.0 <==> !Constant(xs) && SameOrder(xs, ys))
            && (r == -1.0 <==> !Constant(xs) && OppositeOrder(xs, ys))
            && (Constant(xs) || Constant(ys) ==> r == 0.0)
  {
    var c := RankCorrelation(xs, ys);
    Varies(xs);
    Varies(ys);
    PerfectAgreement(xs, ys);
    PerfectOppositionWhen(xs, ys);
    if Constant(xs) || Constant(ys) {
      ZeroTimes(if c.vx == 0.0 then c.vx else c.vy, if c.vx == 0.0 then c.vy else c.vx);
      NotPerfect(c);
    } else {
      RootPositive(xs, ys, root);
      AtMostOne(xs, ys);
      RestIs(c, root);
      OrderedSquares(c.cov, root);
      Divided(c.cov, root);
    }
  }

  lemma RestIs(c: Correlation, root: real)
    requires IsRoot(root, Times(c.vx, c.vy))
    ensures c.Rest() == Squared(root) - Squared(c.cov)
  {
  }

  lemma NotPerfect(c: Correlation)
    requires Times(c.vx, c.vy) == 0.0
    ensures !(c.cov != 0.0 && c.Rest() == 0.0)
  {
    SquareSign(c.cov);
  }

  // ---- The two correlations ----

  /** Some root function that is zero nowhere else. */
  ghost predicate Roots(sqrt: real -> real) {
    forall x | x > 0.0 :: sqrt(x) > 0.0
  }

  /** The market board's correlation: zero when either column is constant. */
  method RankCorr(xs: seq<real>, ys: seq<real>, orderX: seq<nat>, orderY: seq<nat>, sqrt: real -> real)
    returns (r: real)
    requires |xs| == |ys| > 0 && SortOrder(xs, orderX) && SortOrder(ys, orderY) && Roots(sqrt)
    ensures var c := RankCorrelation(xs, ys);
            && (c.vx != 0.0 && c.vy != 0.0 ==> sqrt(Times(c.vx, c.vy)) != 0.0)
            && r == Quotient(c, sqrt(Times(c.vx, c.vy)))
    ensures Constant(xs) || Constant(ys) ==> r == 0.0
  {
    var c := Correlated(xs, ys, orderX, orderY, 0.0);
    Varies(xs);
    Varies(ys);
    r := 0.0;
    if c.vx != 0.0 && c.vy != 0.0 {
      Positive(c.vx, c.vy);
      r := c.cov / sqrt(Times(c.vx, c.vy));
    }
  }

  /** The report's correlation: none for under three pairs or a constant side. */
  method Spearman(pairs: seq<(real, real)>, orderX: seq<nat>, orderY: seq<nat>, sqrt: real -> real)
    returns (r: Option<real>)
    requires SortOrder(Firsts(pairs), orderX) && SortOrder(Seconds(pairs), orderY) && Roots(sqrt)
    ensures r.None? <==> |pairs| < 3 || Constant(Firsts(pairs)) || Constant(Seconds(pairs))
    ensures var c := RankCorrelation(Firsts(pairs), Seconds(pairs));
            var root := Times(sqrt(c.vx), sqrt(c.vy));
            r.Some? ==> root != 0.0 && r.value == Quotient(c, root)
  {
    if |pairs| < 3 {
      return None;
    }
    var xs, ys := Firsts(pairs), Seconds(pairs);
    Varies(xs);
    Varies(ys);
    var c := Correlated(xs, ys, orderX, orderY, 1.0);
    if c.vx == 0.0 || c.vy == 0.0 {
      return None;
    }
    Positive(sqrt(c.vx), sqrt(c.vy));
    return Some(c.cov / Times(sqrt(c.vx), sqrt(c.vy)));
  }

  /** The product of the roots is the root of the product. */
  lemma RootOfProduct(x: real, y: real, p: real, q: real)
    requires IsRoot(p, x) && IsRoot(q, y)
    ensures IsRoot(Times(p, q), Times(x, y))
  {
    if p > 0.0 && q > 0.0 {
      Positive(p, q);
    } else {
      ZeroTimes(if p == 0.0 then p else q, if p == 0.0 then q else p);
    }
    Regroup(p, q);
  }

  lemma Regroup(p: real, q: real)
    ensures Squared(Times(p, q)) == Times(Squared(p), Squared(q))
  {
    assert (p * q) * (p * q) == (p * p) * (q * q);
  }

  function Firsts(pairs: seq<(real, real)>): (xs: seq<real>)
    ensures |xs| == |pairs|
  {
    seq(|pairs|, i requires 0 <= i < |pairs| => pairs[i].0)
  }

  function Seconds(pairs: seq<(real, real)>): (ys: seq<real>)
    ensures |ys| == |pairs|
  {
    seq(|pairs|, i requires 0 <= i < |pairs| => pairs[i].1)
  }
}
