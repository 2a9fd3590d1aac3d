/**
 The repeat cap of a served deck: among its first cards no asset may recur too often, and a card
 that would break this is deferred to just after them.
 */
module DeckRepeat {
  const REPEAT_WINDOW := 30
  const REPEAT_CAP := 3

  datatype Card = Card(give: seq<string>, receive: seq<string>, target: string, isProtected: bool)
  {
    function Assets(): seq<string> {
      give + receive
    }
  }

  // ---- The repeat cap ----

  /** Where each card of the deck goes, by index: the head, after it the deferred, then the tail. */
  datatype Split = Split(head: seq<nat>, deferred: seq<nat>, tail: seq<nat>)

  ghost predicate Indices(cards: seq<Card>, at: seq<nat>) {
    forall k | 0 <= k < |at| :: at[k] < |cards|
  }

  function Pick(cards: seq<Card>, at: seq<nat>): (picked: seq<Card>)
    requires forall k | 0 <= k < |at| :: at[k] < |cards|
    ensures |picked| == |at| && forall k | 0 <= k < |at| :: picked[k] == cards[at[k]]
  {
    seq(|at|, k requires 0 <= k < |at| => cards[at[k]])
  }

  /** How often each asset occurs in some cards. */
  function Seen(cards: seq<Card>): multiset<string> {
    if cards == [] then multiset{} else Seen(cards[..|cards| - 1]) + multiset(cards[|cards| - 1].Assets())
  }

  predicate Repeats(card: Card, seen: multiset<string>) {
    exists a <- card.Assets() :: seen[a] >= REPEAT_CAP
  }

  predicate OverCap(card: Card, seen: multiset<string>) {
    !card.isProtected && Repeats(card, seen)
  }

  /** Every index below n is somewhere, once: the tail is the last of them, the others keep order,
      and there is a tail only when the head is full. */
  ghost predicate Placement(n: nat, s: Split) {
    && |s.head| + |s.deferred| + |s.tail| == n
    && Rising(s.head, |s.head| + |s.deferred|) && Rising(s.deferred, |s.head| + |s.deferred|)
    && (forall i <- s.head :: i !in s.deferred)
    && (forall k | 0 <= k < |s.tail| :: s.tail[k] == |s.head| + |s.deferred| + k)
    && (forall i | 0 <= i < n :: Somewhere(i, s))
    && |s.head| <= REPEAT_WINDOW && (s.tail != [] ==> |s.head| == REPEAT_WINDOW)
  }

  ghost predicate Somewhere(i: nat, s: Split) {
    i in s.head || i in s.deferred || i in s.tail
  }

  /** No card of the head was over the cap of those before it in the head. */
  ghost predicate CapKept(cards: seq<Card>, head: seq<nat>) {
    Indices(cards, head) && forall k | 0 <= k < |head| :: Fits(cards, head, k)
  }

  ghost predicate Fits(cards: seq<Card>, head: seq<nat>, k: nat)
    requires Indices(cards, head)
  {
    k < |head| && !OverCap(cards[head[k]], Seen(Pick(cards, head[..k])))
  }

  /** Every deferred card was. */
  ghost predicate CapBroken(cards: seq<Card>, head: seq<nat>, deferred: seq<nat>) {
    && Indices(cards, head) && Indices(cards, deferred)
    && forall k | 0 <= k < |deferred| :: Deferred(cards, head, deferred[k])
  }

  /** The rule, card by card. */
  ghost predicate Splits(cards: seq<Card>, s: Split) {
    Placement(|cards|, s) && CapKept(cards, s.head) && CapBroken(cards, s.head, s.deferred)
  }

  ghost predicate Rising(at: seq<nat>, n: nat) {
    (forall a | 0 <= a < |at| :: at[a] < n) && forall a, b | 0 <= a < b < |at| :: at[a] < at[b]
  }

  /** A card over the cap of the head cards before it. */
  ghost predicate Deferred(cards: seq<Card>, head: seq<nat>, d: nat)
    requires Indices(cards, head) && d < |cards|
  {
    exists k :: 0 <= k <= |head| && Before(head, k, d) && OverCap(cards[d], Seen(Pick(cards, head[..k])))
  }

  /** The first k head cards are those before d. */
  ghost predicate Before(head: seq<nat>, k: nat, d: nat)
    requires k <= |head|
  {
    (forall j | 0 <= j < k :: head[j] < d) && forall j | k <= j < |head| :: head[j] > d
  }

  /** The three lists hold the cards at those indices. */
  ghost predicate Shows(cards: seq<Card>, s: Split, head: seq<Card>, deferred: seq<Card>, tail: seq<Card>) {
    && Indices(cards, s.head) && Indices(cards, s.deferred) && Indices(cards, s.tail)
    && head == Pick(cards, s.head) && deferred == Pick(cards, s.deferred) && tail == Pick(cards, s.tail)
  }

  ghost predicate Arranged(cards: seq<Card>, s: Split, ordered: seq<Card>) {
    && Indices(cards, s.head) && Indices(cards, s.deferred) && Indices(cards, s.tail)
    && ordered == Pick(cards, s.head) + Pick(cards, s.deferred) + Pick(cards, s.tail)
  }

  lemma ToTail(cards: seq<Card>, c: Card, s: Split, head: seq<Card>, deferred: seq<Card>, tail: seq<Card>)
    requires Splits(cards, s) && Shows(cards, s, head, deferred, tail) && |head| >= REPEAT_WINDOW
    ensures var s' := s.(tail := s.tail + [|cards|]);
            Splits(cards + [c], s') && Shows(cards + [c], s', head, deferred, tail + [c])
  {
    ShowsMore(cards, c, s, head, deferred, tail);
    Placed(|cards|, s, s.(tail := s.tail + [|cards|]));
    HeadMore(cards, c, s.head);
    BrokenSame(cards, c, s.head, s.deferred);
  }

  lemma ToDeferred(cards: seq<Card>, c: Card, s: Split, head: seq<Card>, deferred: seq<Card>, tail: seq<Card>)
    requires Splits(cards, s) && Shows(cards, s, head, deferred, tail) && |head| < REPEAT_WINDOW
             && OverCap(c, Seen(head))
    ensures var s' := s.(deferred := s.deferred + [|cards|]);
            Splits(cards + [c], s') && Shows(cards + [c], s', head, deferred + [c], tail)
  {
    ShowsMore(cards, c, s, head, deferred, tail);
    Placed(|cards|, s, s.(deferred := s.deferred + [|cards|]));
    HeadMore(cards, c, s.head);
    BrokenSame(cards, c, s.head, s.deferred);
    OneDeferred(cards, c, s.head, s.deferred);
  }

  lemma ToHead(cards: seq<Card>, c: Card, s: Split, head: seq<Card>, deferred: seq<Card>, tail: seq<Card>)
    requires Splits(cards, s) && Shows(cards, s, head, deferred, tail) && |head| < REPEAT_WINDOW
             && !OverCap(c, Seen(head))
    ensures var s' := s.(head := s.head + [|cards|]);
            Splits(cards + [c], s') && Shows(cards + [c], s', head + [c], deferred, tail)
  {
    ShowsMore(cards, c, s, head, deferred, tail);
    Placed(|cards|, s, s.(head := s.head + [|cards|]));
    HeadJoined(cards, c, s.head);
    BrokenMore(cards, c, s.head, [|cards|], s.deferred);
  }

  lemma ShowsMore(cards: seq<Card>, c: Card, s: Split, head: seq<Card>, deferred: seq<Card>, tail: seq<Card>)
    requires Shows(cards, s, head, deferred, tail)
    ensures var n, all := |cards|, cards + [c];
            && Shows(all, s, head, deferred, tail)
            && Shows(all, s.(tail := s.tail + [n]), head, deferred, tail + [c])
            && Shows(all, s.(deferred := s.deferred + [n]), head, deferred + [c], tail)
            && Shows(all, s.(head := s.head + [n]), head + [c], deferred, tail)
  {
    PickMore(cards, c, s.head);
    PickMore(cards, c, s.deferred);
    PickMore(cards, c, s.tail);
  }

  lemma PickMore(cards: seq<Card>, c: Card, at: seq<nat>)
    requires Indices(cards, at)
    ensures Pick(cards + [c], at) == Pick(cards, at) && Pick(cards + [c], at + [|cards|]) == Pick(cards, at) + [c]
  {
  }

  lemma HeadMore(cards: seq<Card>, c: Card, head: seq<nat>)
    requires CapKept(cards, head)
    ensures CapKept(cards + [c], head)
  {
    forall k | 0 <= k < |head| ensures Fits(cards + [c], head, k) {
      assert Fits(cards, head, k);
      PickMore(cards, c, head[..k]);
    }
  }

  lemma HeadJoined(cards: seq<Card>, c: Card, head: seq<nat>)
    requires CapKept(cards, head) && !OverCap(c, Seen(Pick(cards, head)))
    ensures CapKept(cards + [c], head + [|cards|])
  {
    var more := head + [|cards|];
    HeadMore(cards, c, head);
    forall k | 0 <= k < |head| ensures Fits(cards + [c], more, k) {
      assert Fits(cards + [c], head, k);
      assert more[..k] == head[..k];
    }
    PickMore(cards, c, head);
    assert more[..|head|] == head;
    assert Fits(cards + [c], more, |head|);
  }

  lemma DeferredMore(cards: seq<Card>, c: Card, head: seq<nat>, more: seq<nat>, d: nat)
    requires Indices(cards, head) && d < |cards| && Deferred(cards, head, d)
    requires more == [] || more == [|cards|]
    ensures Deferred(cards + [c], head + more, d)
  {
    var k :| 0 <= k <= |head| && Before(head, k, d) && OverCap(cards[d], Seen(Pick(cards, head[..k])));
    PickMore(cards, c, head[..k]);
    assert (head + more)[..k] == head[..k];
    assert Before(head + more, k, d);
  }

  lemma BrokenMore(cards: seq<Card>, c: Card, head: seq<nat>, more: seq<nat>, deferred: seq<nat>)
    requires CapBroken(cards, head, deferred) && (more == [] || more == [|cards|])
    ensures CapBroken(cards + [c], head + more, deferred)
  {
    forall k | 0 <= k < |deferred| ensures Deferred(cards + [c], head + more, deferred[k]) {
      DeferredMore(cards, c, head, more, deferred[k]);
    }
  }

  lemma BrokenSame(cards: seq<Card>, c: Card, head: seq<nat>, deferred: seq<nat>)
    requires CapBroken(cards, head, deferred)
    ensures CapBroken(cards + [c], head, deferred)
  {
    assert head + [] == head;
    BrokenMore(cards, c, head, [], deferred);
  }

  lemma OneDeferred(cards: seq<Card>, c: Card, head: seq<nat>, deferred: seq<nat>)
    requires CapBroken(cards + [c], head, deferred) && Indices(cards, head) && OverCap(c, Seen(Pick(cards, head)))
    ensures CapBroken(cards + [c], head, deferred + [|cards|])
  {
    var n := |cards|;
    PickMore(cards, c, head);
    assert head[..|head|] == head;
    assert Before(head, |head|, n);
    assert Deferred(cards + [c], head, n);
  }

  lemma Placed(n: nat, s: Split, s': Split)
    requires Placement(n, s)
    requires || (s' == s.(tail := s.tail + [n]) && |s.head| >= REPEAT_WINDOW)
             || (s' == s.(deferred := s.deferred + [n]) && |s.head| < REPEAT_WINDOW)
             || (s' == s.(head := s.head + [n]) && |s.head| < REPEAT_WINDOW)
    ensures Placement(n + 1, s')
  {
    forall i | 0 <= i < n + 1 ensures Somewhere(i, s') {
      if i < n { assert Somewhere(i, s); }
    }
  }

  // ---- The pass over the deck ----

  /** The pass so far: indices, and the cards at them. */
  datatype Pass = Pass(s: Split, head: seq<Card>, deferred: seq<Card>, tail: seq<Card>)

  function Next(p: Pass, n: nat, c: Card): Pass {
    if |p.head| >= REPEAT_WINDOW then p.(s := p.s.(tail := p.s.tail + [n]), tail := p.tail + [c])
    else if OverCap(c, Seen(p.head)) then p.(s := p.s.(deferred := p.s.deferred + [n]), deferred := p.deferred + [c])
    else p.(s := p.s.(head := p.s.head + [n]), head := p.head + [c])
  }

  function PassOf(cards: seq<Card>): Pass {
    if cards == [] then Pass(Split([], [], []), [], [], [])
    else Next(PassOf(cards[..|cards| - 1]), |cards| - 1, cards[|cards| - 1])
  }

  lemma PassAt(cards: seq<Card>, i: nat)
    requires i < |cards|
    ensures PassOf(cards[..i + 1]) == Next(PassOf(cards[..i]), i, cards[i])
  {
    assert cards[..i + 1][..i] == cards[..i];
  }

  lemma PassMore(cards: seq<Card>, c: Card)
    ensures PassOf(cards + [c]) == Next(PassOf(cards), |cards|, c)
  {
    assert (cards + [c])[..|cards|] == cards;
  }

  lemma {:induction false} PassSplits(cards: seq<Card>)
    ensures var p := PassOf(cards); Splits(cards, p.s) && Shows(cards, p.s, p.head, p.deferred, p.tail)
  {
    if cards != [] {
      var before, c := cards[..|cards| - 1], cards[|cards| - 1];
      assert cards == before + [c];
      PassSplits(before);
      NextSplits(before, c, PassOf(before));
    }
  }

  lemma NextSplits(cards: seq<Card>, c: Card, p: Pass)
    requires Splits(cards, p.s) && Shows(cards, p.s, p.head, p.deferred, p.tail)
    ensures var q := Next(p, |cards|, c);
              Splits(cards + [c], q.s) && Shows(cards + [c], q.s, q.head, q.deferred, q.tail)
  {
    if |p.head| >= REPEAT_WINDOW {
      ToTail(cards, c, p.s, p.head, p.deferred, p.tail);
    } else if OverCap(c, Seen(p.head)) {
      ToDeferred(cards, c, p.s, p.head, p.deferred, p.tail);
    } else {
      ToHead(cards, c, p.s, p.head, p.deferred, p.tail);
    }
  }

  lemma PassArranged(cards: seq<Card>)
    ensures var p := PassOf(cards); Arranged(cards, p.s, p.head + p.deferred + p.tail) && |p.deferred| == |p.s.deferred|
  {
    PassSplits(cards);
  }

  /** Put the cards under the repeat cap. */
  method RepeatCap(cards: seq<Card>) returns (ordered: seq<Card>, deferredCount: nat)
    ensures var s := PassOf(cards).s; Arranged(cards, s, ordered) && deferredCount == |s.deferred|
  {
    var head, deferred, tail: seq<Card> := [], [], [];
    var seen: multiset<string> := multiset{};
    ghost var p := PassOf([]);
    for i := 0 to |cards|
      invariant p == PassOf(cards[..i])
      invariant head == p.head && deferred == p.deferred && tail == p.tail && seen == Seen(head)
    {
      var c := cards[i];
      PassAt(cards, i);
      p := Next(p, i, c);
      SeenOne(head, c);
      if |head| >= REPEAT_WINDOW {
        tail := tail + [c];
      } else if OverCap(c, seen) {
        deferred := deferred + [c];
      } else {
        seen := seen + multiset(c.Assets());
        head := head + [c];
      }
    }
    assert cards[..|cards|] == cards;
    PassArranged(cards);
    ordered, deferredCount := head + deferred + tail, |deferred|;
  }

  lemma SeenOne(cards: seq<Card>, c: Card)
    ensures Seen(cards + [c]) == Seen(cards) + multiset(c.Assets())
  {
    assert (cards + [c])[..|cards|] == cards;
  }

  // ---- What the cap promises ----

  /** The capped deck is a permutation of the deck. */
  lemma {:induction false} PassKeepsCards(cards: seq<Card>)
    ensures var p := PassOf(cards); multiset(p.head) + multiset(p.deferred) + multiset(p.tail) == multiset(cards)
  {
    if cards != [] {
      var before, c := cards[..|cards| - 1], cards[|cards| - 1];
      assert cards == before + [c];
      PassKeepsCards(before);
      NextKeepsCards(PassOf(before), |before|, c);
    }
  }

  lemma NextKeepsCards(p: Pass, n: nat, c: Card)
    ensures var q := Next(p, n, c);
              multiset(q.head) + multiset(q.deferred) + multiset(q.tail) == multiset(p.head) + multiset(p.deferred)
                  + multiset(p.tail) + multiset{c}
  {
  }

  // ---- Where a card is served ----

  /** The indices of the deck in served order. */
  function Order(cards: seq<Card>): seq<nat> {
    var s := PassOf(cards).s;
    s.head + s.deferred + s.tail
  }

  /** The card is not over the cap of the cards before it. */
  predicate Fine(cards: seq<Card>, j: nat)
    requires j < |cards|
  {
    !OverCap(cards[j], Seen(cards[..j]))
  }

  predicate AllFine(cards: seq<Card>) {
    forall j | 0 <= j < |cards| :: Fine(cards, j)
  }

  predicate HeadFull(cards: seq<Card>) {
    |PassOf(cards).head| == REPEAT_WINDOW
  }

  predicate StartOf<T(==)>(x: seq<T>, y: seq<T>) {
    |x| <= |y| && forall i | 0 <= i < |x| :: y[i] == x[i]
  }

  predicate Grew(s: Split, s': Split) {
    StartOf(s.head, s'.head) && StartOf(s.deferred, s'.deferred) && StartOf(s.tail, s'.tail)
  }

  lemma StartMore(x: seq<nat>, y: seq<nat>, n: nat)
    requires StartOf(x, y)
    ensures StartOf(x, y + [n])
  {
  }

  lemma NextGrows(s: Split, p: Pass, n: nat, c: Card)
    requires Grew(s, p.s)
    ensures Grew(s, Next(p, n, c).s)
  {
    StartMore(s.head, p.s.head, n);
    StartMore(s.deferred, p.s.deferred, n);
    StartMore(s.tail, p.s.tail, n);
  }

  lemma GrewNone(s: Split)
    ensures Grew(s, s)
  {
  }

  /** The pass over the first n cards. */
  function PassTo(cards: seq<Card>, n: nat): Pass
    requires n <= |cards|
  {
    if n == 0 then PassOf([]) else Next(PassTo(cards, n - 1), n - 1, cards[n - 1])
  }

  lemma {:induction false} PassToIs(cards: seq<Card>, n: nat)
    requires n <= |cards|
    ensures PassTo(cards, n) == PassOf(cards[..n])
  {
    if n == 0 {
      assert cards[..n] == [];
    } else {
      PassToIs(cards, n - 1);
      PassAt(cards, n - 1);
    }
  }

  lemma PassToGrows(s: Split, cards: seq<Card>, n: nat)
    requires 0 < n <= |cards| && Grew(s, PassTo(cards, n - 1).s)
    ensures Grew(s, PassTo(cards, n).s)
  {
    NextGrows(s, PassTo(cards, n - 1), n - 1, cards[n - 1]);
  }

  lemma {:induction false} PassGrows(cards: seq<Card>, i: nat, n: nat)
    requires i <= n <= |cards|
    ensures Grew(PassTo(cards, i).s, PassTo(cards, n).s)
  {
    if i < n {
      PassGrows(cards, i, n - 1);
      PassToGrows(PassTo(cards, i).s, cards, n);
    } else {
      GrewNone(PassTo(cards, i).s);
    }
  }

  /** What a pass has put into its lists stays where it is. */
  lemma PassGrown(cards: seq<Card>, i: nat)
    requires i <= |cards|
    ensures Grew(PassOf(cards[..i]).s, PassOf(cards).s)
  {
    assert cards[..|cards|] == cards;
    PassToIs(cards, i);
    PassToIs(cards, |cards|);
    PassGrows(cards, i, |cards|);
  }

  /** How long the lists are. */
  ghost predicate Sized(n: nat, p: Pass) {
    && |p.head| == |p.s.head| && |p.deferred| == |p.s.deferred| && |p.tail| == |p.s.tail|
    && |p.head| + |p.deferred| + |p.tail| == n
    && |p.head| <= REPEAT_WINDOW && (p.tail != [] ==> |p.head| == REPEAT_WINDOW)
  }

  lemma PassSized(cards: seq<Card>)
    ensures Sized(|cards|, PassOf(cards))
  {
    PassSplits(cards);
  }

  lemma FineBefore(cards: seq<Card>, n: nat)
    requires n <= |cards|
    ensures AllFine(cards[..n]) <==> forall j | 0 <= j < n :: Fine(cards, j)
  {
    forall j | 0 <= j < n ensures Fine(cards[..n], j) == Fine(cards, j) {
      assert cards[..n][..j] == cards[..j];
    }
  }

  lemma FineOneMore(cards: seq<Card>, n: nat)
    requires n < |cards|
    ensures AllFine(cards[..n + 1]) <==> AllFine(cards[..n]) && Fine(cards, n)
    ensures n + 1 == |cards| ==> cards[..n + 1] == cards
  {
    FineBefore(cards, n);
    FineBefore(cards, n + 1);
  }

  /** Of a deck no longer than the window nothing is deferred iff no card is over the cap. */
  lemma {:induction false} NoneDeferred(cards: seq<Card>)
    requires |cards| <= REPEAT_WINDOW
    ensures AllFine(cards) <==> PassOf(cards).deferred == []
    ensures AllFine(cards) ==> PassOf(cards).head == cards
  {
    if cards != [] {
      var n := |cards| - 1;
      var before := cards[..n];
      assert cards == before + [cards[n]];
      NoneDeferred(before);
      PassSized(before);
      FineOneMore(cards, n);
    }
  }

  lemma FineJoins(cards: seq<Card>, n: nat)
    requires n <= |cards| && n <= REPEAT_WINDOW && AllFine(cards)
    ensures n <= |PassOf(cards).head|
  {
    FineBefore(cards, n);
    FineBefore(cards, |cards|);
    assert cards[..|cards|] == cards;
    NoneDeferred(cards[..n]);
    PassSized(cards[..n]);
    PassGrown(cards, n);
    PassSized(cards);
  }

  /** A window of cards without one over the cap fills the head. */
  lemma FineFills(cards: seq<Card>)
    requires AllFine(cards) && |cards| >= REPEAT_WINDOW
    ensures HeadFull(cards)
  {
    FineJoins(cards, REPEAT_WINDOW);
    PassSized(cards);
  }

  lemma OrderDistinct(cards: seq<Card>)
    ensures |Order(cards)| == |cards|
    ensures forall a, b | 0 <= a < b < |cards| :: Order(cards)[a] != Order(cards)[b]
  {
    PassSplits(cards);
  }

  /** Where the pass puts card i. */
  lemma Joined(cards: seq<Card>, i: nat)
    requires i < |cards|
    ensures Sized(i, PassOf(cards[..i])) && Sized(|cards|, PassOf(cards))
    ensures Grew(PassOf(cards[..i]).s, PassOf(cards).s)
    ensures Grew(Next(PassOf(cards[..i]), i, cards[i]).s, PassOf(cards).s)
  {
    PassSized(cards);
    PassSized(cards[..i]);
    PassAt(cards, i);
    PassGrown(cards, i);
    PassGrown(cards, i + 1);
  }

  lemma NextOf(x: seq<nat>, i: nat, y: seq<nat>)
    requires StartOf(x + [i], y)
    ensures |x| < |y| && y[|x|] == i
  {
    assert (x + [i])[|x|] == i;
  }

  lemma PlacedAt(cards: seq<Card>, place: nat, i: nat)
    requires i < |cards| && place < |Order(cards)| && Order(cards)[place] == i
    ensures |Order(cards)| == |cards| && (Order(cards)[i] == i <==> place == i)
  {
    OrderDistinct(cards);
  }

  lemma TailPlace(cards: seq<Card>, i: nat)
    requires i < |cards| && HeadFull(cards[..i])
    ensures |Order(cards)| == |cards| && Order(cards)[i] == i && |PassOf(cards).head| == REPEAT_WINDOW
  {
    Joined(cards, i);
    var p, q := PassOf(cards[..i]).s, PassOf(cards).s;
    NextOf(p.tail, i, q.tail);
    var place := |q.head| + |q.deferred| + |p.tail|;
    assert q.tail[|p.tail|] == place by { PassSplits(cards); }
    PlacedAt(cards, place, i);
  }

  lemma DeferredPlace(cards: seq<Card>, i: nat)
    requires i < |cards| && !HeadFull(cards[..i]) && OverCap(cards[i], Seen(PassOf(cards[..i]).head))
    ensures |Order(cards)| == |cards|
    ensures Order(cards)[i] == i <==> |PassOf(cards[..i]).head| == |PassOf(cards).head|
  {
    Joined(cards, i);
    var p, q := PassOf(cards[..i]).s, PassOf(cards).s;
    NextOf(p.deferred, i, q.deferred);
    PlacedAt(cards, |q.head| + |p.deferred|, i);
  }

  lemma HeadPlace(cards: seq<Card>, i: nat)
    requires i < |cards| && !HeadFull(cards[..i]) && !OverCap(cards[i], Seen(PassOf(cards[..i]).head))
    ensures |Order(cards)| == |cards|
    ensures Order(cards)[i] == i <==> PassOf(cards[..i]).deferred == []
    ensures |PassOf(cards[..i]).head| < |PassOf(cards).head|
  {
    Joined(cards, i);
    var p, q := PassOf(cards[..i]).s, PassOf(cards).s;
    NextOf(p.head, i, q.head);
    PlacedAt(cards, |p.head|, i);
  }

  /** With the head not yet full, a card and those before it are fine iff it joins the head
      and nothing was deferred. */
  lemma FineThrough(cards: seq<Card>, i: nat)
    requires i < |cards| && !HeadFull(cards[..i])
    ensures AllFine(cards[..i + 1]) <==>
            !OverCap(cards[i], Seen(PassOf(cards[..i]).head)) && PassOf(cards[..i]).deferred == []
  {
    FineOneMore(cards, i);
    PassSized(cards[..i]);
    if i >= REPEAT_WINDOW {
      if AllFine(cards[..i]) { FineFills(cards[..i]); }
    } else {
      NoneDeferred(cards[..i]);
    }
  }

  /** The pass puts card j at the head's end: the head is not full before it, and it is not over the cap. */
  predicate Joins(cards: seq<Card>, j: nat)
    requires j < |cards|
  {
    !HeadFull(cards[..j]) && !OverCap(cards[j], Seen(PassOf(cards[..j]).head))
  }

  lemma JoinsGrow(cards: seq<Card>, j: nat)
    requires j < |cards|
    ensures |PassTo(cards, j + 1).head| == |PassTo(cards, j).head| + if Joins(cards, j) then 1 else 0
  {
    PassToIs(cards, j);
    PassSized(cards[..j]);
  }

  /** How many of the first n have the property. */
  function Count(f: nat -> bool, n: nat): nat {
    if n == 0 then 0 else Count(f, n - 1) + if f(n - 1) then 1 else 0
  }

  lemma {:induction false} CountSteady(f: nat -> bool, i: nat, n: nat)
    requires i <= n
    ensures Count(f, i) <= Count(f, n) && (Count(f, i) == Count(f, n) <==> forall j | i <= j < n :: !f(j))
  {
    if i < n { CountSteady(f, i, n - 1); }
  }

  lemma {:induction false} HeadCounts(cards: seq<Card>, f: nat -> bool, n: nat)
    requires n <= |cards| && forall j | 0 <= j < |cards| :: f(j) == Joins(cards, j)
    ensures |PassTo(cards, n).head| == Count(f, n)
  {
    if n > 0 {
      HeadCounts(cards, f, n - 1);
      HeadCounted(cards, f, n - 1);
    }
  }

  lemma HeadCounted(cards: seq<Card>, f: nat -> bool, j: nat)
    requires j < |cards| && f(j) == Joins(cards, j) && |PassTo(cards, j).head| == Count(f, j)
    ensures |PassTo(cards, j + 1).head| == Count(f, j + 1)
  {
    JoinsGrow(cards, j);
  }

  lemma HeadStays(cards: seq<Card>, i: nat)
    requires i <= |cards|
    ensures |PassTo(cards, i).head| == |PassTo(cards, |cards|).head| <==> NoneJoins(cards, i, |cards|)
  {
    var f := (j: nat) => j < |cards| && Joins(cards, j);
    HeadCounts(cards, f, i);
    HeadCounts(cards, f, |cards|);
    CountSteady(f, i, |cards|);
  }

  predicate NoneJoins(cards: seq<Card>, i: nat, n: nat)
    requires n <= |cards|
  {
    forall j | i <= j < n :: !Joins(cards, j)
  }

  /** A card is served at its own place exactly when neither it nor a card before it is over the cap
      of all cards before, or no card from it on joins the head. */
  lemma WhoHoldsPlace(cards: seq<Card>, i: nat)
    requires i < |cards|
    ensures |Order(cards)| == |cards|
    ensures Order(cards)[i] == i <==>
            AllFine(cards[..i + 1]) || NoneJoins(cards, i, |cards|)
  {
    HeadStays(cards, i);
    PassToIs(cards, i);
    PassToIs(cards, |cards|);
    assert cards[..|cards|] == cards;
    HoldsPlace(cards, i);
  }

  lemma HoldsPlace(cards: seq<Card>, i: nat)
    requires i < |cards|
    ensures |Order(cards)| == |cards|
    ensures Order(cards)[i] == i <==>
            AllFine(cards[..i + 1]) || |PassOf(cards[..i]).head| == |PassOf(cards).head|
  {
    if HeadFull(cards[..i]) {
      TailPlace(cards, i);
    } else {
      FineThrough(cards, i);
      if OverCap(cards[i], Seen(PassOf(cards[..i]).head)) {
        DeferredPlace(cards, i);
      } else {
        HeadPlace(cards, i);
      }
    }
  }

  /** A protected card within the window holds its place iff no card before it is over the cap of
      the cards before that one; a later one iff the head is full before it. */
  lemma ProtectedHoldsPlace(cards: seq<Card>, i: nat)
    requires i < |cards| && cards[i].isProtected
    ensures |Order(cards)| == |cards|
    ensures i < REPEAT_WINDOW ==> (Order(cards)[i] == i <==> forall j | 0 <= j < i :: Fine(cards, j))
    ensures i >= REPEAT_WINDOW ==> (Order(cards)[i] == i <==> HeadFull(cards[..i]))
  {
    PassSized(cards[..i]);
    FineBefore(cards, i);
    if HeadFull(cards[..i]) {
      TailPlace(cards, i);
    } else {
      HeadPlace(cards, i);
      if i < REPEAT_WINDOW { NoneDeferred(cards[..i]); } else { assert PassOf(cards[..i]).deferred != []; }
    }
  }

  // ---- What the cap promises ----

  /** The first cards served. */
  function FirstServed(cards: seq<Card>): seq<Card> {
    var p := PassOf(cards);
    var served := p.head + p.deferred + p.tail;
    if |served| <= REPEAT_WINDOW then served else served[..REPEAT_WINDOW]
  }

  ghost predicate AtMost(seen: multiset<string>, n: nat) {
    forall a :: seen[a] <= n
  }

  /** No asset is in more of them than the cap. */
  ghost predicate CapKeptFirst(cards: seq<Card>) {
    AtMost(Seen(FirstServed(cards)), REPEAT_CAP)
  }

  ghost predicate Single(card: Card) {
    forall a :: multiset(card.Assets())[a] <= 1
  }

  /** No card of the head, protected or not, repeats an asset too often. */
  predicate ProtectedFit(head: seq<Card>) {
    forall k | 0 <= k < |head| :: FitsAt(head, k)
  }

  predicate FitsAt(head: seq<Card>, k: nat)
    requires k < |head|
  {
    head[k].isProtected ==> !Repeats(head[k], Seen(head[..k]))
  }

  lemma {:induction false} SeenStart(x: seq<Card>, y: seq<Card>)
    requires StartOf(x, y)
    ensures Seen(x) <= Seen(y)
  {
    if x == y {
    } else {
      var before := y[..|y| - 1];
      assert before[..|x|] == y[..|x|];
      SeenStart(x, before);
    }
  }

  lemma OneMoreSeen(head: seq<Card>, c: Card, a: string)
    requires a in c.Assets()
    ensures Seen(head + [c])[a] > Seen(head)[a]
  {
    SeenOne(head, c);
    assert a in multiset(c.Assets());
  }

  lemma SeenOnTop(head: seq<Card>, c: Card, y: seq<Card>)
    requires StartOf(head + [c], y) && Repeats(c, Seen(head))
    ensures !AtMost(Seen(y), REPEAT_CAP)
  {
    var a :| a in c.Assets() && Seen(head)[a] >= REPEAT_CAP;
    OneMoreSeen(head, c, a);
    SeenStart(head + [c], y);
    assert Seen(y)[a] > REPEAT_CAP;
  }

  lemma {:induction false} HeadCap(cards: seq<Card>, head: seq<nat>, n: nat)
    requires CapKept(cards, head) && n <= |head| && ProtectedFit(Pick(cards, head))
    requires forall c <- cards :: Single(c)
    ensures AtMost(Seen(Pick(cards, head[..n])), REPEAT_CAP)
  {
    var picked := Pick(cards, head);
    if n > 0 {
      var before, c := Pick(cards, head[..n - 1]), cards[head[n - 1]];
      assert Pick(cards, head[..n]) == before + [c];
      assert picked[..n - 1] == before;
      HeadCap(cards, head, n - 1);
      assert Fits(cards, head, n - 1) && FitsAt(picked, n - 1);
      SeenOne(before, c);
      assert Single(c);
      forall a ensures Seen(before + [c])[a] <= REPEAT_CAP {
        assert multiset(c.Assets())[a] > 0 ==> a in c.Assets();
      }
    }
  }

  /** The first cards served are the head when it is full or nothing was deferred. */
  lemma HeadFirst(cards: seq<Card>)
    requires HeadFull(cards) || AllFine(cards)
    ensures FirstServed(cards) == PassOf(cards).head
  {
    PassSized(cards);
    var p := PassOf(cards);
    if !HeadFull(cards) {
      if |cards| >= REPEAT_WINDOW { FineFills(cards); }
      NoneDeferred(cards);
    }
    assert p.head + [] == p.head;
  }

  /** Else a deferred card is among them. */
  lemma DeferredFirst(cards: seq<Card>)
    requires !HeadFull(cards) && !AllFine(cards)
    ensures PassOf(cards).deferred != []
    ensures StartOf(PassOf(cards).head + [PassOf(cards).deferred[0]], FirstServed(cards))
  {
    PassSized(cards);
    if |cards| <= REPEAT_WINDOW { NoneDeferred(cards); }
    var p := PassOf(cards);
    FirstDeferred(p.head, p.deferred);
  }

  lemma FirstDeferred(head: seq<Card>, deferred: seq<Card>)
    requires deferred != [] && |head| < REPEAT_WINDOW
    ensures var served := head + deferred + [];
            StartOf(head + [deferred[0]], if |served| <= REPEAT_WINDOW then served else served[..REPEAT_WINDOW])
  {
  }

  lemma ProtectedRepeats(head: seq<Card>)
    requires !ProtectedFit(head)
    ensures !AtMost(Seen(head), REPEAT_CAP)
  {
    var k: nat :| k < |head| && !FitsAt(head, k);
    assert head[..k + 1] == head[..k] + [head[k]];
    SeenOnTop(head[..k], head[k], head);
  }

  /** Card j, when it is protected and the head is not full before it, repeats no asset too often. */
  predicate GuardFits(cards: seq<Card>, j: nat)
    requires j < |cards|
  {
    cards[j].isProtected && !HeadFull(cards[..j]) ==> !Repeats(cards[j], Seen(PassOf(cards[..j]).head))
  }

  lemma FitMore(head: seq<Card>, c: Card)
    ensures ProtectedFit(head + [c]) <==> ProtectedFit(head) && (c.isProtected ==> !Repeats(c, Seen(head)))
  {
    var more := head + [c];
    assert more[..|head|] == head;
    forall k | 0 <= k < |head| ensures FitsAt(more, k) == FitsAt(head, k) { assert more[..k] == head[..k]; }
    if ProtectedFit(more) {
      assert FitsAt(more, |head|);
      forall k | 0 <= k < |head| ensures FitsAt(head, k) { assert FitsAt(more, k); }
    }
  }

  lemma {:induction false} FitCounts(cards: seq<Card>, f: nat -> bool, n: nat)
    requires n <= |cards| && forall j | 0 <= j < |cards| :: f(j) == GuardFits(cards, j)
    ensures FitTo(cards, f, n)
  {
    if n > 0 {
      FitCounts(cards, f, n - 1);
      FitCounted(cards, f, n - 1);
    }
  }

  ghost predicate FitTo(cards: seq<Card>, f: nat -> bool, n: nat)
    requires n <= |cards|
  {
    ProtectedFit(PassTo(cards, n).head) == (Count(f, n) == n) && Count(f, n) <= n
  }

  lemma FitCounted(cards: seq<Card>, f: nat -> bool, j: nat)
    requires j < |cards| && f(j) == GuardFits(cards, j) && FitTo(cards, f, j)
    ensures FitTo(cards, f, j + 1)
  {
    FitByGuard(cards, j);
  }

  lemma {:induction false} CountAll(f: nat -> bool, n: nat)
    ensures Count(f, n) <= n && (Count(f, n) == n <==> forall j | 0 <= j < n :: f(j))
  {
    if n > 0 { CountAll(f, n - 1); }
  }

  lemma FitByGuards(cards: seq<Card>)
    ensures ProtectedFit(PassTo(cards, |cards|).head) <==> GuardsFit(cards, |cards|)
  {
    var f := (j: nat) => j < |cards| && GuardFits(cards, j);
    FitCounts(cards, f, |cards|);
    CountAll(f, |cards|);
  }

  predicate GuardsFit(cards: seq<Card>, n: nat)
    requires n <= |cards|
  {
    forall j | 0 <= j < n :: GuardFits(cards, j)
  }

  lemma FitByGuard(cards: seq<Card>, j: nat)
    requires j < |cards|
    ensures ProtectedFit(PassTo(cards, j + 1).head) <==> ProtectedFit(PassTo(cards, j).head) && GuardFits(cards, j)
  {
    PassToIs(cards, j);
    PassSized(cards[..j]);
    FitMore(PassTo(cards, j).head, cards[j]);
  }

  /** No asset is in more than the cap's number of the first cards served, exactly when the head is full or
      no card is over the cap, and no protected card that comes before the head is full repeats an asset
      too often. */
  lemma CapHolds(cards: seq<Card>)
    requires forall c <- cards :: Single(c)
    ensures CapKeptFirst(cards) <==>
            (HeadFull(cards) || AllFine(cards)) && GuardsFit(cards, |cards|)
  {
    FitByGuards(cards);
    PassToIs(cards, |cards|);
    assert cards[..|cards|] == cards;
    CapOfHead(cards);
  }

  lemma CapOfHead(cards: seq<Card>)
    requires forall c <- cards :: Single(c)
    ensures CapKeptFirst(cards) <==> (HeadFull(cards) || AllFine(cards)) && ProtectedFit(PassOf(cards).head)
  {
    if !HeadFull(cards) && !AllFine(cards) {
      DeferredFirst(cards);
      DeferredRepeats(cards);
    } else {
      HeadFirst(cards);
      if ProtectedFit(PassOf(cards).head) {
        HeadKept(cards);
      } else {
        ProtectedRepeats(PassOf(cards).head);
      }
    }
  }

  /** The first cards given. */
  function FirstGiven(cards: seq<Card>): seq<Card> {
    if |cards| <= REPEAT_WINDOW then cards else cards[..REPEAT_WINDOW]
  }

  /** When no card is over the cap the first cards served are the first ones given, and the cap holds of them
      exactly when no protected one of them repeats an asset too often. */
  lemma CapHoldsGiven(cards: seq<Card>)
    requires AllFine(cards) && forall c <- cards :: Single(c)
    ensures FirstServed(cards) == FirstGiven(cards)
    ensures CapKeptFirst(cards) <==> ProtectedFit(FirstGiven(cards))
  {
    HeadFirst(cards);
    CapOfHead(cards);
    HeadGiven(cards);
  }

  lemma HeadGiven(cards: seq<Card>)
    requires AllFine(cards)
    ensures PassOf(cards).head == FirstGiven(cards)
  {
    if |cards| <= REPEAT_WINDOW {
      NoneDeferred(cards);
    } else {
      WindowHead(cards, REPEAT_WINDOW);
      FineFills(cards);
    }
  }

  lemma WindowHead(cards: seq<Card>, n: nat)
    requires AllFine(cards) && n <= REPEAT_WINDOW && n <= |cards|
    ensures StartOf(cards[..n], PassOf(cards).head)
  {
    var given := cards[..n];
    AllFineBefore(cards, n);
    NoneDeferred(given);
    var p, q := PassOf(given), PassOf(cards);
    PassGrown(cards, n);
    SameStart(cards, given, p, q, n);
  }

  lemma AllFineBefore(cards: seq<Card>, n: nat)
    requires AllFine(cards) && n <= |cards|
    ensures AllFine(cards[..n])
  {
    FineBefore(cards, n);
  }

  lemma SameStart(cards: seq<Card>, given: seq<Card>, p: Pass, q: Pass, n: nat)
    requires n <= |cards| && given == cards[..n] && p == PassOf(given) && q == PassOf(cards) && Grew(p.s, q.s)
    ensures StartOf(p.head, q.head)
  {
    PassSplits(given);
    PassSplits(cards);
  }

  lemma HeadKept(cards: seq<Card>)
    requires ProtectedFit(PassOf(cards).head)
    requires forall c <- cards :: Single(c)
    ensures AtMost(Seen(PassOf(cards).head), REPEAT_CAP)
  {
    PassSplits(cards);
    var at := PassOf(cards).s.head;
    HeadCap(cards, at, |at|);
    assert at[..|at|] == at;
  }

  lemma DeferredRepeats(cards: seq<Card>)
    requires PassOf(cards).deferred != []
    requires StartOf(PassOf(cards).head + [PassOf(cards).deferred[0]], FirstServed(cards))
    ensures !CapKeptFirst(cards)
  {
    var p := PassOf(cards);
    PassSplits(cards);
    var d := p.s.deferred[0];
    assert Deferred(cards, p.s.head, d);
    var k :| 0 <= k <= |p.s.head| && Before(p.s.head, k, d) && OverCap(cards[d], Seen(Pick(cards, p.s.head[..k])));
    assert Pick(cards, p.s.head[..k]) == p.head[..k];
    SeenStart(p.head[..k], p.head);
    SeenOnTop(p.head, cards[d], FirstServed(cards));
  }

  /** An asset no protected card lists, in a deck whose head is full or in which no card is over the cap. */
  lemma CapHoldsFor(cards: seq<Card>, a: string)
    requires HeadFull(cards) || AllFine(cards)
    requires forall c <- cards :: Ordinary(c, a)
    ensures Seen(FirstServed(cards))[a] <= REPEAT_CAP
  {
    HeadFirst(cards);
    PassCap(cards, a);
  }

  /** The card lists the asset once at most, and not at all when protected. */
  ghost predicate Ordinary(card: Card, a: string) {
    multiset(card.Assets())[a] <= if card.isProtected then 0 else 1
  }

  lemma {:induction false} PassCap(cards: seq<Card>, a: string)
    requires forall c <- cards :: Ordinary(c, a)
    ensures Seen(PassOf(cards).head)[a] <= REPEAT_CAP
  {
    if cards != [] {
      var before, c := cards[..|cards| - 1], cards[|cards| - 1];
      PassCap(before, a);
      assert Ordinary(c, a);
      if !OverCap(c, Seen(PassOf(before).head)) { CapStep(PassOf(before).head, c, a); }
    }
  }

  lemma CapStep(head: seq<Card>, c: Card, a: string)
    requires Seen(head)[a] <= REPEAT_CAP && Ordinary(c, a) && !OverCap(c, Seen(head))
    ensures Seen(head + [c])[a] <= REPEAT_CAP
  {
    SeenOne(head, c);
    assert multiset(c.Assets())[a] > 0 ==> a in c.Assets();
  }

  // ---- A deck of copies ----

  /** An unprotected card of one asset on each side. */
  predicate Swap(c: Card) {
    !c.isProtected && c.give == ["a"] && c.receive == ["b"]
  }

  lemma SwapSeen(c: Card, copies: seq<Card>)
    requires Swap(c)
    ensures Seen(copies + [c]) == Seen(copies) + multiset{"a", "b"}
  {
    SeenOne(copies, c);
    assert c.Assets() == ["a", "b"];
  }

  lemma SwapFits(c: Card, seen: multiset<string>)
    requires Swap(c)
    ensures OverCap(c, seen) <==> seen["a"] >= REPEAT_CAP || seen["b"] >= REPEAT_CAP
  {
    assert c.Assets() == ["a", "b"];
    assert "a" in c.Assets() && "b" in c.Assets();
  }

  /** Copies so far, all in the head. */
  ghost predicate Filled(c: Card, copies: seq<Card>, at: seq<nat>) {
    && PassOf(copies) == Pass(Split(at, [], []), copies, [], [])
    && |copies| == |at| && Seen(copies)["a"] == |at| && Seen(copies)["b"] == |at|
  }

  lemma CopyJoins(c: Card, copies: seq<Card>, at: seq<nat>)
    requires Swap(c) && Filled(c, copies, at) && |at| < REPEAT_CAP
    ensures Filled(c, copies + [c], at + [|at|])
  {
    SwapSeen(c, copies);
    SwapFits(c, Seen(copies));
    PassMore(copies, c);
  }

  lemma OneCopy(c: Card)
    requires Swap(c)
    ensures Filled(c, [c], [0])
  {
    assert [] + [c] == [c];
    CopyJoins(c, [], []);
  }

  lemma TwoCopies(c: Card)
    requires Swap(c)
    ensures Filled(c, [c, c], [0, 1])
  {
    assert [c] + [c] == [c, c];
    OneCopy(c);
    CopyJoins(c, [c], [0]);
  }

  lemma ThreeCopies(c: Card)
    requires Swap(c)
    ensures Filled(c, [c, c, c], [0, 1, 2])
  {
    assert [c, c] + [c] == [c, c, c];
    TwoCopies(c);
    CopyJoins(c, [c, c], [0, 1]);
  }

  /** Three copies fill the cap of their assets, and the fourth is deferred. */
  lemma FourCopies(c: Card)
    requires Swap(c)
    ensures PassOf([c, c, c, c]) == Pass(Split([0, 1, 2], [3], []), [c, c, c], [c], [])
    ensures Seen([c, c, c, c])["a"] == 4
  {
    assert [c, c, c] + [c] == [c, c, c, c];
    ThreeCopies(c);
    FilledDefers(c, [c, c, c], [0, 1, 2]);
  }

  lemma FilledDefers(c: Card, copies: seq<Card>, at: seq<nat>)
    requires Swap(c) && Filled(c, copies, at) && |at| == REPEAT_CAP
    ensures PassOf(copies + [c]) == Pass(Split(at, [REPEAT_CAP], []), copies, [c], [])
    ensures Seen(copies + [c])["a"] == REPEAT_CAP + 1
  {
    assert [] + [c] == [c];
    assert Split(at, [], []).deferred + [REPEAT_CAP] == [REPEAT_CAP];
    SwapSeen(c, copies);
    SwapFits(c, Seen(copies));
    PassMore(copies, c);
  }

  /** A protected card can be moved up: after a deferred card, it is served one place earlier. */
  lemma ProtectedMayMove(c: Card, p: Card)
    requires Swap(c) && p.isProtected
    ensures Order([c, c, c, c] + [p]) == [0, 1, 2, 4, 3]
  {
    FourCopies(c);
    PassMore([c, c, c, c], p);
  }

  /** The cap can fail: all of four copies are among the first cards served. */
  lemma CopiesServed(c: Card)
    requires Swap(c)
    ensures Seen(FirstServed([c, c, c, c]))["a"] > REPEAT_CAP
  {
    FourCopies(c);
    assert FirstServed([c, c, c, c]) == [c, c, c, c];
  }
}
