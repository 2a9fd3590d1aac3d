/** Cardinality facts about finite sets that several components count with. */
module FiniteSets {
  /** A set mapped one-to-one into another is no larger than it. */
  lemma {:induction false} InjectionBound<X, Y>(source: set<X>, f: map<X, Y>, target: set<Y>)
    requires source <= f.Keys
    requires forall x <- source :: f[x] in target
    requires forall x, y | x in source && y in source && f[x] == f[y] :: x == y
    ensures |source| <= |target|
  {
    if source != {} {
      var x :| x in source;
      InjectionBound(source - {x}, f, target - {f[x]});
    }
  }

  lemma {:induction false} SubsetSize<X>(small: set<X>, big: set<X>)
    requires small <= big
    ensures |small| <= |big|
    ensures |small| == |big| ==> small == big
  {
    if small != {} {
      var x :| x in small;
      SubsetSize(small - {x}, big - {x});
    }
  }

  /** The first n naturals. */
  ghost function Below(n: nat): (s: set<nat>)
    ensures forall i :: i in s <==> 0 <= i < n
  {
    if n == 0 then {} else Below(n - 1) + {n - 1}
  }

  lemma {:induction false} BelowSize(n: nat)
    ensures |Below(n)| == n
  {
    if n > 0 {
      BelowSize(n - 1);
    }
  }
}
