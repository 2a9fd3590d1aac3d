/**
 One group's composed list: the top of each lane up to its quota, slots one lane cannot fill
 given to the other, the lanes alternating, and, when asked, unlabelled cards for what remains.
 */
module GroupComposition {
  import opened Wrappers
  import opened Sublists

  const LANE_VALUE := "value"
  const LANE_OUTLOOK := "window"
  const DEFAULT_BASIS := "divergence"

  /** A card of an arm's ranked list; the id is the card's identity. */
  datatype Card = Card(id: nat, basis: Option<string>, lane: Option<string>)

  datatype Lane = ValueLane | OutlookLane | NoLane

  datatype Slot = ValueSlot | OutlookSlot | FillSlot

  datatype Counts = Counts(value: nat, outlook: nat)

  datatype GroupResult = GroupResult(
    cards: seq<Card>, slots: map<nat, Slot>, ranks: map<nat, nat>,
    filled: Counts, fills: nat, short: Counts, realloc: Counts, laneSplitActive: bool)

  function BasisOf(card: Card): string {
    if card.basis.None? || card.basis.value == "" then DEFAULT_BASIS else card.basis.value
  }

  function LaneOf(card: Card): Lane {
    if card.lane == Some(LANE_VALUE) then ValueLane
    else if card.lane == Some(LANE_OUTLOOK) then OutlookLane
    else NoLane
  }

  function Min(a: nat, b: nat): nat {
    if a <= b then a else b
  }

  function Short(a: nat, b: nat): nat {
    if a <= b then 0 else a - b
  }

  function Take<T>(s: seq<T>, n: nat): seq<T> {
    s[..Min(n, |s|)]
  }

  // ---- Pool and buckets ----

  function Pool(cards: seq<Card>, basis: Option<string>): seq<Card> {
    if cards == [] then []
    else
      var last := cards[|cards| - 1];
      Pool(cards[..|cards| - 1], basis) + if basis.None? || BasisOf(last) == basis.value then [last] else []
  }

  function Bucket(pool: seq<Card>, lane: Lane): seq<Card> {
    if pool == [] then []
    else
      var last := pool[|pool| - 1];
      Bucket(pool[..|pool| - 1], lane) + if LaneOf(last) == lane then [last] else []
  }

  function Unlike(pool: seq<Card>, taken: set<nat>): seq<Card> {
    if pool == [] then []
    else
      var last := pool[|pool| - 1];
      Unlike(pool[..|pool| - 1], taken) + if last.id in taken then [] else [last]
  }

  function IdsOf(cards: seq<Card>): set<nat> {
    set c | c in cards :: c.id
  }

  ghost predicate DistinctIds(cards: seq<Card>) {
    forall i, j | 0 <= i < j < |cards| :: cards[i].id != cards[j].id
  }

  // ---- Alternation ----

  /** The two lists by turns, the first leading, until one runs out. */
  function Alternated(first: seq<Card>, second: seq<Card>): (all: seq<Card>)
    ensures |all| == |first| + |second|
    decreases |first| + |second|
  {
    if first == [] then second else [first[0]] + Alternated(second, first[1..])
  }

  lemma {:induction false} AlternatedGrows(first: seq<Card>, second: seq<Card>, card: Card)
    ensures |second| <= |first| ==> Alternated(first + [card], second) == Alternated(first, second) + [card]
    ensures |first| <= |second| + 1 ==> Alternated(first, second + [card]) == Alternated(first, second) + [card]
    decreases |first| + |second|
  {
    if first == [] {
      assert second == [] ==> Alternated([card], second) == [card] + Alternated(second, []);
    } else {
      AlternatedGrows(second, first[1..], card);
      assert (first + [card])[1..] == first[1..] + [card];
    }
  }

  /** The lane's k-th card stands in the group after k cards of the other lane, one more when it
      follows, as far as the other lane has them. */
  ghost predicate StandsAt(cards: seq<Card>, lane: seq<Card>, k: nat, others: nat, follows: bool) {
    var at := k + Min(if follows then k + 1 else k, others);
    k < |lane| && at < |cards| && cards[at] == lane[k]
  }

  /** Where each card lands: neither lane leads by more than one place while both last. */
  lemma {:induction false} AlternatedAt(first: seq<Card>, second: seq<Card>, k: nat)
    ensures k < |first| ==> StandsAt(Alternated(first, second), first, k, |second|, false)
    ensures k < |second| ==> StandsAt(Alternated(first, second), second, k, |first|, true)
    decreases |first| + |second|
  {
    if first != [] {
      AlternatedAt(second, first[1..], k);
      if k > 0 { AlternatedAt(second, first[1..], k - 1); }
      var rest := Alternated(second, first[1..]);
      if k < |first| { LeadsNext(first, rest, k, |second|); }
      if k < |second| { FollowsNext(first[0], rest, second, k, |first| - 1); }
    }
  }

  lemma LeadsNext(first: seq<Card>, rest: seq<Card>, k: nat, others: nat)
    requires k < |first| && (k > 0 ==> StandsAt(rest, first[1..], k - 1, others, true))
    ensures StandsAt([first[0]] + rest, first, k, others, false)
  {
    assert k > 0 ==> first[1..][k - 1] == first[k];
  }

  lemma FollowsNext(card: Card, rest: seq<Card>, second: seq<Card>, k: nat, others: nat)
    requires StandsAt(rest, second, k, others, false)
    ensures StandsAt([card] + rest, second, k, others + 1, true)
  {
  }

  lemma TakeOneMore(cards: seq<Card>, i: nat)
    ensures Take(cards, i + 1) == if i < |cards| then cards[..i] + [cards[i]] else Take(cards, i)
  {
  }

  method Alternate(first: seq<Card>, second: seq<Card>) returns (ordered: seq<Card>)
    ensures ordered == Alternated(first, second)
  {
    ordered := [];
    var n := if |first| >= |second| then |first| else |second|;
    for i := 0 to n
      invariant ordered == Alternated(Take(first, i), Take(second, i))
    {
      TakeOneMore(first, i);
      TakeOneMore(second, i);
      if i < |first| {
        AlternatedGrows(first[..i], Take(second, i), first[i]);
        ordered := ordered + [first[i]];
      }
      if i < |second| {
        AlternatedGrows(Take(first, i + 1), second[..i], second[i]);
        ordered := ordered + [second[i]];
      }
    }
    assert Take(first, n) == first && Take(second, n) == second;
  }

  // ---- Composition ----

  /** The slots left when each lane has taken what it can of its own quota. */
  function Spare(size: nat, valueSlots: nat, values: nat, outlooks: nat): nat {
    Short(size, Min(values, valueSlots) + Min(outlooks, Short(size, valueSlots)))
  }

  function SlotMap(cards: seq<Card>, slot: Slot): map<nat, Slot> {
    map id | id in IdsOf(cards) :: slot
  }

  function RankMap(cards: seq<Card>): map<nat, nat> {
    if cards == [] then map[]
    else RankMap(cards[..|cards| - 1])[cards[|cards| - 1].id := |cards| - 1]
  }

  /** The slots a lane gets beyond its quota. */
  function Extra(size: nat, valueSlots: nat, values: nat, outlooks: nat, reallocate: bool): nat {
    if reallocate then Spare(size, valueSlots, values, outlooks) else 0
  }

  function Slice(s: seq<Card>, from: nat, count: nat): seq<Card> {
    s[Min(from, |s|)..Min(from + count, |s|)]
  }

  /** Each lane's share of its own bucket: its quota, then what the other lane leaves over. */
  method FillLanes(values: seq<Card>, outlooks: seq<Card>, size: nat, valueSlots: nat, reallocate: bool)
    returns (takeV: seq<Card>, takeO: seq<Card>, short: Counts, realloc: Counts)
    ensures var outlookSlots, extra :=
              Short(size, valueSlots), Extra(size, valueSlots, |values|, |outlooks|, reallocate);
            && takeV == Take(values, valueSlots + extra) && takeO == Take(outlooks, outlookSlots + extra)
            && short == Counts(Short(valueSlots, |values|), Short(outlookSlots, |outlooks|))
            && realloc == Counts(Short(|takeV|, valueSlots), Short(|takeO|, outlookSlots))
  {
    var outlookSlots := Short(size, valueSlots);
    takeV, takeO := Take(values, valueSlots), Take(outlooks, outlookSlots);
    short := Counts(valueSlots - |takeV|, outlookSlots - |takeO|);
    realloc := Counts(0, 0);
    if reallocate {
      var spare := Short(size, |takeV| + |takeO|);
      if spare > 0 {
        var extraV := Slice(values, valueSlots, spare);
        var extraO := Slice(outlooks, outlookSlots, spare - |extraV|);
        takeV, takeO := takeV + extraV, takeO + extraO;
        realloc := Counts(|extraV|, |extraO|);
      }
    }
  }

  /** With no lane labels in the pool: the front of the pool, every card a fill. */
  function Unlabelled(pool: seq<Card>, size: nat, short: Counts): GroupResult {
    var cards := Take(pool, size);
    GroupResult(cards, SlotMap(cards, FillSlot), RankMap(cards), Counts(0, 0), |cards|, short, Counts(0, 0), false)
  }

  /** What each lane serves, and the cards that fill residual slots. */
  datatype Shares = Shares(value: seq<Card>, outlook: seq<Card>, fills: seq<Card>)

  function Residue(pool: seq<Card>, size: nat, v: seq<Card>, o: seq<Card>, backfill: bool): seq<Card> {
    if backfill then Take(Unlike(pool, IdsOf(v) + IdsOf(o)), Short(size, |v| + |o|)) else []
  }

  /** Each lane serves the front of its own bucket. */
  function SharesOf(pool: seq<Card>, size: nat, valueSlots: nat, backfill: bool, reallocate: bool): Shares {
    var values, outlooks := Bucket(pool, ValueLane), Bucket(pool, OutlookLane);
    var extra := Extra(size, valueSlots, |values|, |outlooks|, reallocate);
    var v, o := Take(values, valueSlots + extra), Take(outlooks, Short(size, valueSlots) + extra);
    Shares(v, o, Residue(pool, size, v, o, backfill))
  }

  function Ordered(s: Shares, outlookLeads: bool): seq<Card> {
    (if outlookLeads then Alternated(s.outlook, s.value) else Alternated(s.value, s.outlook)) + s.fills
  }

  function SlotsOf(s: Shares): map<nat, Slot> {
    SlotMap(s.value, ValueSlot) + SlotMap(s.outlook, OutlookSlot) + SlotMap(s.fills, FillSlot)
  }

  /** The lanes' shares alternating, the residue after them. */
  function Assembled(s: Shares, short: Counts, realloc: Counts, outlookLeads: bool): GroupResult {
    var cards := Ordered(s, outlookLeads);
    GroupResult(cards, SlotsOf(s), RankMap(cards), Counts(|s.value|, |s.outlook|), |s.fills|, short, realloc, true)
  }

  function Composed(pool: seq<Card>, size: nat, valueSlots: nat, backfill: bool, reallocate: bool,
                    outlookLeads: bool): GroupResult {
    var values, outlooks := Bucket(pool, ValueLane), Bucket(pool, OutlookLane);
    var outlookSlots := Short(size, valueSlots);
    var short := Counts(Short(valueSlots, |values|), Short(outlookSlots, |outlooks|));
    if values == [] && outlooks == [] then Unlabelled(pool, size, short)
    else
      var shares := SharesOf(pool, size, valueSlots, backfill, reallocate);
      Assembled(shares, short, Counts(Short(|shares.value|, valueSlots), Short(|shares.outlook|, outlookSlots)),
                outlookLeads)
  }

  method ComposeGroup(armCards: seq<Card>, basis: Option<string>, size: nat, valueSlots: nat,
                      backfill: bool, reallocate: bool, outlookLeads: bool) returns (r: GroupResult)
    ensures r == Composed(Pool(armCards, basis), size, valueSlots, backfill, reallocate, outlookLeads)
    ensures Pooled(armCards, basis, Pool(armCards, basis))
  {
    PoolIsPooled(armCards, basis);
    var pool := Narrow(armCards, basis);
    var values, outlooks := Sort(pool);
    if values == [] && outlooks == [] {
      return Unlabelled(pool, size, Counts(valueSlots, Short(size, valueSlots)));
    }
    var shares, short, realloc := Share(pool, values, outlooks, size, valueSlots, backfill, reallocate);
    r := Assemble(shares, short, realloc, outlookLeads);
  }

  /** The pool is the arm's cards of the basis, in the arm's order. */
  lemma {:induction false} PoolInOrder(cards: seq<Card>, basis: Option<string>)
    ensures InOrder(cards, c => basis.None? || BasisOf(c) == basis.value, Pool(cards, basis))
  {
    var keep := (c: Card) => basis.None? || BasisOf(c) == basis.value;
    if cards == [] {
      NoneInOrder(keep);
    } else {
      var n := |cards| - 1;
      assert cards == cards[..n] + [cards[n]];
      PoolInOrder(cards[..n], basis);
      OneMoreInOrder(cards[..n], keep, Pool(cards[..n], basis), cards[n]);
    }
  }

  /** Any card when no basis is asked for; else those of that basis, a card of none being of the default one. */
  predicate OfBasis(card: Card, basis: Option<string>) {
    match basis
    case None => true
    case Some(b) => (card.basis == Some(b) && b != "") || (b == DEFAULT_BASIS && card.basis in {None, Some("")})
  }

  /** The pool is the arm's cards of the basis, and the buckets are the pool's cards of each label, all in
      the arm's order. */
  ghost predicate Pooled(armCards: seq<Card>, basis: Option<string>, pool: seq<Card>) {
    && InOrder(armCards, c => OfBasis(c, basis), pool)
    && forall lane :: InOrder(pool, c => Labelled(c, lane), Bucket(pool, lane))
  }

  lemma PoolIsPooled(armCards: seq<Card>, basis: Option<string>)
    ensures Pooled(armCards, basis, Pool(armCards, basis))
  {
    PoolInOrder(armCards, basis);
    var pool := Pool(armCards, basis);
    var kept := (c: Card) => basis.None? || BasisOf(c) == basis.value;
    var at :| KeptAt(armCards, kept, at, pool);
    assert KeptAt(armCards, c => OfBasis(c, basis), at, pool);
    forall lane ensures InOrder(pool, c => Labelled(c, lane), Bucket(pool, lane)) {
      BucketInOrder(pool, lane);
    }
  }

  /** The label of a lane, none for a card of neither. */
  predicate Labelled(card: Card, lane: Lane) {
    match lane
    case ValueLane => card.lane == Some(LANE_VALUE)
    case OutlookLane => card.lane == Some(LANE_OUTLOOK)
    case NoLane => card.lane != Some(LANE_VALUE) && card.lane != Some(LANE_OUTLOOK)
  }

  /** A bucket is the pool's cards of its label, in the pool's order. */
  lemma {:induction false} BucketInOrder(pool: seq<Card>, lane: Lane)
    ensures InOrder(pool, c => Labelled(c, lane), Bucket(pool, lane))
  {
    var keep := (c: Card) => Labelled(c, lane);
    if pool == [] {
      NoneInOrder(keep);
    } else {
      var n := |pool| - 1;
      assert pool == pool[..n] + [pool[n]];
      BucketInOrder(pool[..n], lane);
      OneMoreInOrder(pool[..n], keep, Bucket(pool[..n], lane), pool[n]);
    }
  }

  /** Fills are the pool's cards that no lane took, in the pool's order. */
  lemma {:induction false} UnlikeInOrder(pool: seq<Card>, taken: set<nat>)
    ensures InOrder(pool, (c: Card) => c.id !in taken, Unlike(pool, taken))
  {
    var keep := (c: Card) => c.id !in taken;
    if pool == [] {
      NoneInOrder(keep);
    } else {
      var n := |pool| - 1;
      assert pool == pool[..n] + [pool[n]];
      UnlikeInOrder(pool[..n], taken);
      OneMoreInOrder(pool[..n], keep, Unlike(pool[..n], taken), pool[n]);
    }
  }

  method Share(pool: seq<Card>, values: seq<Card>, outlooks: seq<Card>, size: nat, valueSlots: nat, backfill: bool,
               reallocate: bool)
    returns (s: Shares, short: Counts, realloc: Counts)
    requires values == Bucket(pool, ValueLane) && outlooks == Bucket(pool, OutlookLane)
    ensures s == SharesOf(pool, size, valueSlots, backfill, reallocate)
    ensures short == Counts(Short(valueSlots, |values|), Short(Short(size, valueSlots), |outlooks|))
    ensures realloc == Counts(Short(|s.value|, valueSlots), Short(|s.outlook|, Short(size, valueSlots)))
  {
    var takeV, takeO;
    takeV, takeO, short, realloc := FillLanes(values, outlooks, size, valueSlots, reallocate);
    var fills := Backfill(pool, size, takeV, takeO, backfill);
    s := Shares(takeV, takeO, fills);
  }

  method Backfill(pool: seq<Card>, size: nat, takeV: seq<Card>, takeO: seq<Card>, backfill: bool)
    returns (fills: seq<Card>)
    ensures fills == Residue(pool, size, takeV, takeO, backfill)
  {
    fills := [];
    if backfill {
      var residual := Short(size, |takeV| + |takeO|);
      if residual > 0 {
        fills := Take(Unlike(pool, IdsOf(takeV) + IdsOf(takeO)), residual);
      }
    }
  }

  method Assemble(s: Shares, short: Counts, realloc: Counts, outlookLeads: bool) returns (r: GroupResult)
    ensures r == Assembled(s, short, realloc, outlookLeads)
  {
    var ordered: seq<Card>;
    if outlookLeads {
      ordered := Alternate(s.outlook, s.value);
    } else {
      ordered := Alternate(s.value, s.outlook);
    }
    ordered := ordered + s.fills;
    r := GroupResult(ordered, SlotsOf(s), RankMap(ordered), Counts(|s.value|, |s.outlook|), |s.fills|, short, realloc,
                     true);
  }

  /** The arm's cards of the group's basis, in the arm's order. */
  method Narrow(armCards: seq<Card>, basis: Option<string>) returns (pool: seq<Card>)
    ensures pool == Pool(armCards, basis)
  {
    pool := [];
    for i := 0 to |armCards|
      invariant pool == Pool(armCards[..i], basis)
    {
      assert armCards[..i + 1][..i] == armCards[..i];
      if basis.None? || BasisOf(armCards[i]) == basis.value {
        pool := pool + [armCards[i]];
      }
    }
    assert armCards[..|armCards|] == armCards;
  }

  /** Put every card of the pool in its lane's bucket. */
  method Sort(pool: seq<Card>) returns (values: seq<Card>, outlooks: seq<Card>)
    ensures values == Bucket(pool, ValueLane) && outlooks == Bucket(pool, OutlookLane)
  {
    values, outlooks := [], [];
    for i := 0 to |pool|
      invariant values == Bucket(pool[..i], ValueLane) && outlooks == Bucket(pool[..i], OutlookLane)
    {
      assert pool[..i + 1][..i] == pool[..i];
      match LaneOf(pool[i]) {
        case ValueLane => values := values + [pool[i]];
        case OutlookLane => outlooks := outlooks + [pool[i]];
        case NoLane =>
      }
    }
    assert pool[..|pool|] == pool;
  }

  // ---- What the composition promises ----

  lemma {:induction false} BucketCards(pool: seq<Card>, lane: Lane)
    ensures forall c :: c in Bucket(pool, lane) <==> c in pool && LaneOf(c) == lane
    ensures DistinctIds(pool) ==> DistinctIds(Bucket(pool, lane))
  {
    if pool != [] {
      var head, last := pool[..|pool| - 1], pool[|pool| - 1];
      BucketCards(head, lane);
      assert pool == head + [last];
      var before := Bucket(head, lane);
      forall i | 0 <= i < |before| ensures DistinctIds(pool) ==> before[i].id != last.id {
        assert before[i] in head;
      }
    }
  }

  lemma {:induction false} UnlikeCards(pool: seq<Card>, taken: set<nat>)
    ensures forall c :: c in Unlike(pool, taken) <==> c in pool && c.id !in taken
    ensures DistinctIds(pool) ==> DistinctIds(Unlike(pool, taken))
  {
    if pool != [] {
      var head, last := pool[..|pool| - 1], pool[|pool| - 1];
      UnlikeCards(head, taken);
      assert pool == head + [last];
      var before := Unlike(head, taken);
      forall i | 0 <= i < |before| ensures DistinctIds(pool) ==> before[i].id != last.id {
        assert before[i] in head;
      }
    }
  }

  lemma {:induction false} UnlikeSize(pool: seq<Card>, taken: set<nat>)
    requires DistinctIds(pool) && taken <= IdsOf(pool)
    ensures |Unlike(pool, taken)| == |pool| - |taken|
    decreases |pool|
  {
    if pool == [] {
      assert taken == {};
    } else {
      var head, last := pool[..|pool| - 1], pool[|pool| - 1];
      assert pool == head + [last];
      UnlikeSize(head, taken - {last.id});
      SameUnlike(head, taken, last.id);
    }
  }

  lemma {:induction false} SameUnlike(pool: seq<Card>, taken: set<nat>, id: nat)
    requires forall c <- pool :: c.id != id
    ensures Unlike(pool, taken) == Unlike(pool, taken - {id})
  {
    if pool != [] {
      SameUnlike(pool[..|pool| - 1], taken, id);
    }
  }

  lemma {:induction false} ThreeLanes(pool: seq<Card>)
    ensures |Bucket(pool, ValueLane)| + |Bucket(pool, OutlookLane)| + |Bucket(pool, NoLane)| == |pool|
  {
    if pool != [] {
      ThreeLanes(pool[..|pool| - 1]);
    }
  }

  lemma {:induction false} IdsSize(cards: seq<Card>)
    requires DistinctIds(cards)
    ensures |IdsOf(cards)| == |cards|
  {
    if cards != [] {
      var head, last := cards[..|cards| - 1], cards[|cards| - 1];
      IdsSize(head);
      assert cards == head + [last];
      assert IdsOf(cards) == IdsOf(head) + {last.id};
    }
  }

  lemma SameIdSameCard(pool: seq<Card>, a: Card, b: Card)
    requires DistinctIds(pool) && a in pool && b in pool && a.id == b.id
    ensures a == b
  {
  }

  /** How many each lane serves: all the labelled supply there is, up to the size. */
  lemma LanesServe(size: nat, valueSlots: nat, values: nat, outlooks: nat)
    ensures var spare := Spare(size, valueSlots, values, outlooks);
            var v, o := Min(valueSlots + spare, values), Min(Short(size, valueSlots) + spare, outlooks);
            && (valueSlots <= size ==> v + o == Min(size, values + outlooks))
            && (v + o <= size <==> valueSlots <= size || values <= size)
  {
  }

  /** With reallocation the lane cards number all the labelled supply, up to the size; a size the
      value quota exceeds is kept exactly when the value lane cannot use the excess. */
  lemma ServesAllLabelled(pool: seq<Card>, size: nat, valueSlots: nat, backfill: bool, outlookLeads: bool)
    ensures var r := Composed(pool, size, valueSlots, backfill, true, outlookLeads);
            var values, outlooks := |Bucket(pool, ValueLane)|, |Bucket(pool, OutlookLane)|;
            r.laneSplitActive ==>
              && (valueSlots <= size ==> r.filled.value + r.filled.outlook == Min(size, values + outlooks))
              && (|r.cards| <= size <==> valueSlots <= size || values <= size)
  {
    SharesCount(pool, size, valueSlots, backfill);
  }

  /** With reallocation or without, a group stays within its size exactly when it has no lane label, the value
      quota does, or the value lane cannot use the excess. */
  lemma KeepsSize(pool: seq<Card>, size: nat, valueSlots: nat, backfill: bool, reallocate: bool, outlookLeads: bool)
    ensures var r := Composed(pool, size, valueSlots, backfill, reallocate, outlookLeads);
            |r.cards| <= size <==>
            !r.laneSplitActive || valueSlots <= size || |Bucket(pool, ValueLane)| <= size
  {
    if reallocate {
      ServesAllLabelled(pool, size, valueSlots, backfill, outlookLeads);
    }
  }

  /** A quota beyond the size can overfill the group. */
  lemma OverfullGroup(a: Card, b: Card)
    requires LaneOf(a) == LaneOf(b) == ValueLane
    ensures |Composed([a, b], 1, 2, false, true, false).cards| > 1
  {
    assert [a, b][..1] == [a] && [a][..0] == [];
    assert Bucket([a], ValueLane) == [a];
    assert Bucket([a, b], ValueLane) == [a, b];
    ServesAllLabelled([a, b], 1, 2, false, false);
  }

  lemma SharesCount(pool: seq<Card>, size: nat, valueSlots: nat, backfill: bool)
    ensures var s := SharesOf(pool, size, valueSlots, backfill, true);
            var values, outlooks := |Bucket(pool, ValueLane)|, |Bucket(pool, OutlookLane)|;
            && (valueSlots <= size ==> |s.value| + |s.outlook| == Min(size, values + outlooks))
            && (|s.value| + |s.outlook| + |s.fills| <= size <==> valueSlots <= size || values <= size)
  {
    LanesServe(size, valueSlots, |Bucket(pool, ValueLane)|, |Bucket(pool, OutlookLane)|);
  }

  /** Reallocation changes no shortfall, and gives a lane only what the other could not fill. */
  lemma ReallocationExtends(pool: seq<Card>, size: nat, valueSlots: nat, backfill: bool, outlookLeads: bool)
    ensures var nominal, spread := Composed(pool, size, valueSlots, backfill, false, outlookLeads),
                                   Composed(pool, size, valueSlots, backfill, true, outlookLeads);
            && spread.short == nominal.short && nominal.realloc == Counts(0, 0)
            && spread.filled.value == nominal.filled.value + spread.realloc.value
            && spread.filled.outlook == nominal.filled.outlook + spread.realloc.outlook
            && (valueSlots <= size ==>
                  spread.realloc.value <= spread.short.outlook && spread.realloc.outlook <= spread.short.value)
  {
  }

  lemma TakeCards(bucket: seq<Card>, n: nat)
    ensures forall c <- Take(bucket, n) :: c in bucket
    ensures DistinctIds(bucket) ==> DistinctIds(Take(bucket, n))
  {
  }

  /** Each lane serves its own cards, in distinct ids. */
  ghost predicate Apart(pool: seq<Card>, s: Shares) {
    && (forall c <- s.value :: c in pool && LaneOf(c) == ValueLane)
    && (forall c <- s.outlook :: c in pool && LaneOf(c) == OutlookLane)
    && (forall c <- s.fills :: c in pool && c.id !in IdsOf(s.value) && c.id !in IdsOf(s.outlook))
    && DistinctIds(s.value) && DistinctIds(s.outlook) && DistinctIds(s.fills) && IdsOf(s.value) !! IdsOf(s.outlook)
  }

  lemma LaneShare(pool: seq<Card>, lane: Lane, n: nat)
    requires DistinctIds(pool)
    ensures forall c <- Take(Bucket(pool, lane), n) :: c in pool && LaneOf(c) == lane
    ensures DistinctIds(Take(Bucket(pool, lane), n))
  {
    BucketCards(pool, lane);
    TakeCards(Bucket(pool, lane), n);
  }

  lemma FillsApart(pool: seq<Card>, v: seq<Card>, o: seq<Card>, size: nat, backfill: bool)
    requires DistinctIds(pool)
    ensures var fills := Residue(pool, size, v, o, backfill);
            DistinctIds(fills) && forall c <- fills :: c in pool && c.id !in IdsOf(v) && c.id !in IdsOf(o)
  {
    UnlikeCards(pool, IdsOf(v) + IdsOf(o));
    TakeCards(Unlike(pool, IdsOf(v) + IdsOf(o)), Short(size, |v| + |o|));
  }

  lemma IdsApart(pool: seq<Card>, v: seq<Card>, o: seq<Card>)
    requires DistinctIds(pool)
    requires forall c <- v :: c in pool && LaneOf(c) == ValueLane
    requires forall c <- o :: c in pool && LaneOf(c) == OutlookLane
    ensures IdsOf(v) !! IdsOf(o)
  {
    forall a, b | a in v && b in o ensures a.id != b.id {
      if a.id == b.id { SameIdSameCard(pool, a, b); }
    }
  }

  lemma SharesApart(pool: seq<Card>, size: nat, valueSlots: nat, backfill: bool, reallocate: bool)
    requires DistinctIds(pool)
    ensures Apart(pool, SharesOf(pool, size, valueSlots, backfill, reallocate))
  {
    var extra := Extra(size, valueSlots, |Bucket(pool, ValueLane)|, |Bucket(pool, OutlookLane)|, reallocate);
    var s := SharesOf(pool, size, valueSlots, backfill, reallocate);
    LaneShare(pool, ValueLane, valueSlots + extra);
    LaneShare(pool, OutlookLane, Short(size, valueSlots) + extra);
    IdsApart(pool, s.value, s.outlook);
    FillsApart(pool, s.value, s.outlook, size, backfill);
  }

  /** With backfill the group serves its whole size, if the pool has as many cards. */
  lemma BackfillServesSize(pool: seq<Card>, size: nat, valueSlots: nat, reallocate: bool, outlookLeads: bool)
    requires DistinctIds(pool) && valueSlots <= size
    ensures |Composed(pool, size, valueSlots, true, reallocate, outlookLeads).cards| == Min(size, |pool|)
  {
    ResidueFills(pool, size, valueSlots, reallocate);
  }

  lemma ResidueFills(pool: seq<Card>, size: nat, valueSlots: nat, reallocate: bool)
    requires DistinctIds(pool) && valueSlots <= size
    ensures var s := SharesOf(pool, size, valueSlots, true, reallocate);
            |s.value| + |s.outlook| + |s.fills| == Min(size, |pool|)
  {
    var s := SharesOf(pool, size, valueSlots, true, reallocate);
    SharesApart(pool, size, valueSlots, true, reallocate);
    UnlikeCount(pool, s.value, s.outlook);
    LanesServe(size, valueSlots, |Bucket(pool, ValueLane)|, |Bucket(pool, OutlookLane)|);
  }

  lemma UnlikeCount(pool: seq<Card>, v: seq<Card>, o: seq<Card>)
    requires DistinctIds(pool) && DistinctIds(v) && DistinctIds(o) && IdsOf(v) !! IdsOf(o)
    requires (forall c <- v :: c in pool) && (forall c <- o :: c in pool)
    ensures |Unlike(pool, IdsOf(v) + IdsOf(o))| == |pool| - |v| - |o|
  {
    IdsSize(v);
    IdsSize(o);
    UnlikeSize(pool, IdsOf(v) + IdsOf(o));
    assert |IdsOf(v) + IdsOf(o)| == |v| + |o|;
  }

  /** After reallocation only unlabelled cards are left to fill a residual slot. */
  lemma FillsUnlabelled(pool: seq<Card>, size: nat, valueSlots: nat, backfill: bool)
    requires valueSlots <= size
    ensures forall c <- SharesOf(pool, size, valueSlots, backfill, true).fills :: LaneOf(c) == NoLane
  {
    var s := SharesOf(pool, size, valueSlots, backfill, true);
    var values, outlooks := Bucket(pool, ValueLane), Bucket(pool, OutlookLane);
    SharesCount(pool, size, valueSlots, backfill);
    if s.fills != [] {
      assert s.value == values && s.outlook == outlooks;
      NoneLabelled(pool);
    }
  }

  lemma NoneLabelled(pool: seq<Card>)
    ensures forall c <- Unlike(pool, IdsOf(Bucket(pool, ValueLane)) + IdsOf(Bucket(pool, OutlookLane))) ::
              LaneOf(c) == NoLane
  {
    var values, outlooks := Bucket(pool, ValueLane), Bucket(pool, OutlookLane);
    BucketCards(pool, ValueLane);
    BucketCards(pool, OutlookLane);
    UnlikeCards(pool, IdsOf(values) + IdsOf(outlooks));
    forall c <- Unlike(pool, IdsOf(values) + IdsOf(outlooks)) ensures LaneOf(c) == NoLane {
      assert c in values ==> c.id in IdsOf(values);
      assert c in outlooks ==> c.id in IdsOf(outlooks);
    }
  }

  lemma {:induction false} AlternatedCards(first: seq<Card>, second: seq<Card>)
    requires DistinctIds(first) && DistinctIds(second) && IdsOf(first) !! IdsOf(second)
    ensures DistinctIds(Alternated(first, second))
    ensures forall c :: c in Alternated(first, second) <==> c in first || c in second
    decreases |first| + |second|
  {
    if first != [] {
      var rest := first[1..];
      assert first == [first[0]] + rest;
      assert IdsOf(rest) <= IdsOf(first);
      AlternatedCards(second, rest);
      forall c | c in Alternated(second, rest) ensures c.id != first[0].id {
        if c in second { assert c.id in IdsOf(second) && first[0].id in IdsOf(first); }
      }
    }
  }

  lemma {:induction false} RanksAre(cards: seq<Card>)
    requires DistinctIds(cards)
    ensures forall i | 0 <= i < |cards| :: cards[i].id in RankMap(cards) && RankMap(cards)[cards[i].id] == i
  {
    if cards != [] {
      var head := cards[..|cards| - 1];
      RanksAre(head);
      forall i | 0 <= i < |cards| - 1 ensures cards[i].id in RankMap(cards) && RankMap(cards)[cards[i].id] == i {
        assert head[i] == cards[i];
      }
    }
  }

  lemma OrderedCards(pool: seq<Card>, s: Shares, outlookLeads: bool)
    requires Apart(pool, s)
    ensures DistinctIds(Ordered(s, outlookLeads))
    ensures forall c :: c in Ordered(s, outlookLeads) <==> c in s.value || c in s.outlook || c in s.fills
  {
    AlternatedCards(s.value, s.outlook);
    AlternatedCards(s.outlook, s.value);
    var lanes := if outlookLeads then Alternated(s.outlook, s.value) else Alternated(s.value, s.outlook);
    forall a, b | a in lanes && b in s.fills ensures a.id != b.id {
      assert a.id in IdsOf(s.value) || a.id in IdsOf(s.outlook);
    }
  }

  predicate Earned(card: Card, slot: Slot) {
    match slot
    case ValueSlot => LaneOf(card) == ValueLane
    case OutlookSlot => LaneOf(card) == OutlookLane
    case FillSlot => true
  }

  /** A card's slot is that of the share it is in. */
  lemma SlotOf(pool: seq<Card>, s: Shares, c: Card)
    requires Apart(pool, s) && (c in s.value || c in s.outlook || c in s.fills)
    ensures c.id in SlotsOf(s) && Earned(c, SlotsOf(s)[c.id]) && (SlotsOf(s)[c.id] == FillSlot <==> c in s.fills)
  {
    assert c in s.value ==> c.id in IdsOf(s.value);
    assert c in s.outlook ==> c.id in IdsOf(s.outlook);
    assert c in s.fills ==> c.id in IdsOf(s.fills);
  }

  /** Every served card is served once, is ranked by its place, and takes a slot its own label
      earned; after reallocation only unlabelled cards are fills. */
  lemma ServedOnceEarned(pool: seq<Card>, size: nat, valueSlots: nat, backfill: bool, reallocate: bool,
                         outlookLeads: bool)
    requires DistinctIds(pool)
    ensures var r := Composed(pool, size, valueSlots, backfill, reallocate, outlookLeads);
            && DistinctIds(r.cards)
            && (forall i | 0 <= i < |r.cards| :: r.cards[i].id in r.ranks && r.ranks[r.cards[i].id] == i)
            && (forall c <- r.cards :: c in pool && c.id in r.slots && Earned(c, r.slots[c.id]))
            && (reallocate && valueSlots <= size ==>
                  forall c <- r.cards | r.slots[c.id] == FillSlot :: LaneOf(c) == NoLane)
  {
    var r := Composed(pool, size, valueSlots, backfill, reallocate, outlookLeads);
    var s := SharesOf(pool, size, valueSlots, backfill, reallocate);
    if r.laneSplitActive {
      SharesApart(pool, size, valueSlots, backfill, reallocate);
      OrderedCards(pool, s, outlookLeads);
      forall c <- r.cards
        ensures c in pool && c.id in r.slots && Earned(c, r.slots[c.id])
                && (r.slots[c.id] == FillSlot ==> c in s.fills) {
        SlotOf(pool, s, c);
      }
      if reallocate && valueSlots <= size { FillsUnlabelled(pool, size, valueSlots, backfill); }
    } else {
      BucketCards(pool, ValueLane);
      BucketCards(pool, OutlookLane);
      TakeCards(pool, size);
      forall c <- r.cards ensures LaneOf(c) == NoLane && c.id in r.slots && r.slots[c.id] == FillSlot {
        assert c in pool;
        assert c !in Bucket(pool, ValueLane) && c !in Bucket(pool, OutlookLane);
      }
    }
    RanksAre(r.cards);
  }

  function Holding(slots: map<nat, Slot>, slot: Slot): set<nat> {
    set id | id in slots && slots[id] == slot
  }

  /** The accounts are those of the group: each served card has one slot, and the counts are how many cards hold
      the slots of a lane and the fills; a quota's shortfall is what its bucket lacks, and what reallocation gave
      a lane is what the lane served beyond its quota. */
  ghost predicate Accounted(pool: seq<Card>, size: nat, valueSlots: nat, r: GroupResult) {
    && r.slots.Keys == IdsOf(r.cards)
    && r.filled == Counts(|Holding(r.slots, ValueSlot)|, |Holding(r.slots, OutlookSlot)|)
    && r.fills == |Holding(r.slots, FillSlot)|
    && r.short.value == Short(valueSlots, |Bucket(pool, ValueLane)|)
    && r.short.outlook == Short(Short(size, valueSlots), |Bucket(pool, OutlookLane)|)
    && r.realloc == Counts(Short(r.filled.value, valueSlots), Short(r.filled.outlook, Short(size, valueSlots)))
    && (r.laneSplitActive <==> exists c <- pool :: !Labelled(c, NoLane))
  }

  lemma GroupAccounted(pool: seq<Card>, size: nat, valueSlots: nat, backfill: bool, reallocate: bool,
                       outlookLeads: bool)
    requires DistinctIds(pool)
    ensures Accounted(pool, size, valueSlots, Composed(pool, size, valueSlots, backfill, reallocate, outlookLeads))
  {
    var r := Composed(pool, size, valueSlots, backfill, reallocate, outlookLeads);
    SplitWhen(pool);
    if r.laneSplitActive {
      var s := SharesOf(pool, size, valueSlots, backfill, reallocate);
      SharesApart(pool, size, valueSlots, backfill, reallocate);
      OrderedCards(pool, s, outlookLeads);
      SlotsCounted(pool, s);
      IdsOfThree(r.cards, s);
    } else {
      TakeCards(pool, size);
      IdsSize(r.cards);
      AllFills(r.cards);
    }
  }

  lemma AllFills(cards: seq<Card>)
    ensures Holding(SlotMap(cards, FillSlot), ValueSlot) == {} == Holding(SlotMap(cards, FillSlot), OutlookSlot)
    ensures Holding(SlotMap(cards, FillSlot), FillSlot) == IdsOf(cards) == SlotMap(cards, FillSlot).Keys
  {
  }

  lemma SplitWhen(pool: seq<Card>)
    ensures Bucket(pool, ValueLane) == [] && Bucket(pool, OutlookLane) == [] <==>
            forall c <- pool :: Labelled(c, NoLane)
  {
    var values, outlooks := Bucket(pool, ValueLane), Bucket(pool, OutlookLane);
    BucketCards(pool, ValueLane);
    BucketCards(pool, OutlookLane);
    forall c | c in pool && !Labelled(c, NoLane) ensures c in values || c in outlooks {}
    if values != [] { assert values[0] in pool; }
    if outlooks != [] { assert outlooks[0] in pool; }
  }

  lemma SlotsCounted(pool: seq<Card>, s: Shares)
    requires Apart(pool, s)
    ensures SlotsOf(s).Keys == IdsOf(s.value) + IdsOf(s.outlook) + IdsOf(s.fills)
    ensures |Holding(SlotsOf(s), ValueSlot)| == |s.value| && |Holding(SlotsOf(s), OutlookSlot)| == |s.outlook|
    ensures |Holding(SlotsOf(s), FillSlot)| == |s.fills|
  {
    Disjoint(s.fills, s.value);
    Disjoint(s.fills, s.outlook);
    SlotsHeld(s);
    IdsSize(s.value);
    IdsSize(s.outlook);
    IdsSize(s.fills);
  }

  lemma Disjoint(a: seq<Card>, b: seq<Card>)
    requires forall c <- a :: c.id !in IdsOf(b)
    ensures IdsOf(a) !! IdsOf(b)
  {
  }

  lemma SlotsHeld(s: Shares)
    requires IdsOf(s.value) !! IdsOf(s.outlook) && IdsOf(s.fills) !! IdsOf(s.value) + IdsOf(s.outlook)
    ensures SlotsOf(s).Keys == IdsOf(s.value) + IdsOf(s.outlook) + IdsOf(s.fills)
    ensures Holding(SlotsOf(s), ValueSlot) == IdsOf(s.value)
    ensures Holding(SlotsOf(s), OutlookSlot) == IdsOf(s.outlook)
    ensures Holding(SlotsOf(s), FillSlot) == IdsOf(s.fills)
  {
  }

  lemma IdsOfThree(all: seq<Card>, s: Shares)
    requires forall c :: c in all <==> c in s.value || c in s.outlook || c in s.fills
    ensures IdsOf(all) == IdsOf(s.value) + IdsOf(s.outlook) + IdsOf(s.fills)
  {
  }

  lemma TurnsAt(first: seq<Card>, second: seq<Card>, fills: seq<Card>, k: nat)
    ensures k < |first| ==> StandsAt(Alternated(first, second) + fills, first, k, |second|, false)
    ensures k < |second| ==> StandsAt(Alternated(first, second) + fills, second, k, |first|, true)
  {
    AlternatedAt(first, second, k);
  }

  /** Where each lane's cards stand in the group: both lanes serve the front of their own buckets by
      turns, the leading lane first, and the fills come last. */
  lemma PlacesInGroup(pool: seq<Card>, size: nat, valueSlots: nat, backfill: bool, reallocate: bool, outlookLeads: bool)
    ensures var r := Composed(pool, size, valueSlots, backfill, reallocate, outlookLeads);
            var valueLeads := !outlookLeads;
            r.laneSplitActive ==>
              && |r.cards| == r.filled.value + r.filled.outlook + r.fills
              && (forall k | 0 <= k < r.filled.value ::
                    StandsAt(r.cards, Bucket(pool, ValueLane), k, r.filled.outlook, outlookLeads))
              && (forall k | 0 <= k < r.filled.outlook ::
                    StandsAt(r.cards, Bucket(pool, OutlookLane), k, r.filled.value, valueLeads))
  {
    var r := Composed(pool, size, valueSlots, backfill, reallocate, outlookLeads);
    var s := SharesOf(pool, size, valueSlots, backfill, reallocate);
    var valueLeads := !outlookLeads;
    if r.laneSplitActive {
      forall k | 0 <= k < |s.value| ensures StandsAt(r.cards, Bucket(pool, ValueLane), k, |s.outlook|, outlookLeads) {
        TurnOf(s, outlookLeads, k);
        StandsInBucket(r.cards, s.value, Bucket(pool, ValueLane), k, |s.outlook|, outlookLeads);
      }
      forall k | 0 <= k < |s.outlook| ensures StandsAt(r.cards, Bucket(pool, OutlookLane), k, |s.value|, valueLeads) {
        TurnOf(s, outlookLeads, k);
        StandsInBucket(r.cards, s.outlook, Bucket(pool, OutlookLane), k, |s.value|, valueLeads);
      }
    }
  }

  lemma StandsInBucket(cards: seq<Card>, lane: seq<Card>, bucket: seq<Card>, k: nat, others: nat, follows: bool)
    requires lane <= bucket && StandsAt(cards, lane, k, others, follows)
    ensures StandsAt(cards, bucket, k, others, follows)
  {
  }

  lemma TurnOf(s: Shares, outlookLeads: bool, k: nat)
    ensures k < |s.value| ==> StandsAt(Ordered(s, outlookLeads), s.value, k, |s.outlook|, outlookLeads)
    ensures k < |s.outlook| ==> StandsAt(Ordered(s, outlookLeads), s.outlook, k, |s.value|, !outlookLeads)
  {
    TurnsAt(s.value, s.outlook, s.fills, k);
    TurnsAt(s.outlook, s.value, s.fills, k);
  }
}
