/** The elements of a list that have a property, in the order they came. */
module Sublists {
  ghost predicate Places(at: seq<nat>, n: nat) {
    (forall a | 0 <= a < |at| :: at[a] < n) && forall a, b | 0 <= a < b < |at| :: at[a] < at[b]
  }

  /** The kept elements are those at the rising places where the property holds. */
  ghost predicate KeptAt<T>(all: seq<T>, keep: T -> bool, at: seq<nat>, kept: seq<T>) {
    && Places(at, |all|) && |kept| == |at| && (forall k | 0 <= k < |at| :: kept[k] == all[at[k]])
    && forall i | 0 <= i < |all| :: i in at <==> keep(all[i])
  }

  ghost predicate InOrder<T>(all: seq<T>, keep: T -> bool, kept: seq<T>) {
    exists at :: KeptAt(all, keep, at, kept)
  }

  lemma NoneInOrder<T>(keep: T -> bool)
    ensures InOrder([], keep, [])
  {
    assert KeptAt([], keep, [], []);
  }

  lemma PlacesMore(at: seq<nat>, n: nat)
    requires Places(at, n)
    ensures Places(at, n + 1) && Places(at + [n], n + 1)
    ensures forall i :: i in at + [n] <==> i in at || i == n
    ensures n !in at
  {
  }

  lemma OneMoreInOrder<T>(all: seq<T>, keep: T -> bool, kept: seq<T>, last: T)
    requires InOrder(all, keep, kept)
    ensures InOrder(all + [last], keep, kept + if keep(last) then [last] else [])
  {
    var at :| KeptAt(all, keep, at, kept);
    OneMoreKept(all, keep, at, kept, last);
  }

  lemma OneMoreKept<T>(all: seq<T>, keep: T -> bool, at: seq<nat>, kept: seq<T>, last: T)
    requires KeptAt(all, keep, at, kept)
    ensures InOrder(all + [last], keep, kept + if keep(last) then [last] else [])
  {
    assert kept + [] == kept;
    var n: nat := |all|;
    PlacesMore(at, n);
    if keep(last) {
      var more: seq<nat> := at + [n];
      assert KeptAt(all + [last], keep, more, kept + [last]);
    } else {
      assert KeptAt(all + [last], keep, at, kept);
    }
  }

  /** There is only one such list. */
  lemma {:induction false} OneOrder<T>(all: seq<T>, keep: T -> bool, one: seq<T>, other: seq<T>)
    requires InOrder(all, keep, one) && InOrder(all, keep, other)
    ensures one == other
  {
    var a :| KeptAt(all, keep, a, one);
    var b :| KeptAt(all, keep, b, other);
    forall i ensures i in a <==> i in b {
      if 0 <= i < |all| { assert i in a <==> keep(all[i]); }
    }
    SamePlaces(a, b, |all|);
  }

  lemma {:induction false} SamePlaces(a: seq<nat>, b: seq<nat>, n: nat)
    requires Places(a, n) && Places(b, n) && forall i :: i in a <==> i in b
    ensures a == b
    decreases n
  {
    if n > 0 {
      var m: nat := n - 1;
      Split(a, m);
      Split(b, m);
      SamePlaces(Below(a, m), Below(b, m), m);
    } else {
      NoPlaces(a);
      NoPlaces(b);
    }
  }

  lemma NoPlaces(at: seq<nat>)
    requires Places(at, 0)
    ensures at == []
  {
    if at != [] { Bounded(at, 0, 0); }
  }

  lemma Bounded(at: seq<nat>, n: nat, k: nat)
    requires Places(at, n) && k < |at|
    ensures 0 <= at[k] < n
  {
  }

  /** The places below n. */
  function Below(at: seq<nat>, n: nat): seq<nat> {
    if at != [] && at[|at| - 1] == n then at[..|at| - 1] else at
  }

  lemma Split(at: seq<nat>, n: nat)
    requires Places(at, n + 1)
    ensures Places(Below(at, n), n) && at == Below(at, n) + if n in at then [n] else []
    ensures forall i :: i in Below(at, n) <==> i in at && i != n
  {
    if n in at {
      var k :| 0 <= k < |at| && at[k] == n;
      assert k == |at| - 1;
    }
  }
}
