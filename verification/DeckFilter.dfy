/**
 The quality filter of a served deck: cards failing a rule are dropped and counted, and the rest
 are put under the repeat cap. Protected cards are never dropped.
 */
module DeckFilter {
  import opened DeckRepeat
  import opened Wrappers
  import opened FiniteSets

  const BREAKUP_MIN_RATIO := 0.70
  const FILLER_FLOOR := 450.0
  const FILLER_FRAC := 0.25
  const REDUNDANT_MIN_RATIO := 0.70

  /** What the rules look up: market values, positions, rosters and, when the lineup is known, the
      number of each capped position. */
  datatype League = League(market: string -> Option<real>, position: string -> Option<string>,
                           rosters: map<string, seq<string>>, viewer: string, caps: Option<map<string, nat>>)

  datatype Verdict = Fine | Breakup | Filler | Redundant

  // ---- The rules ----

  function Values(market: string -> Option<real>, assets: seq<string>): seq<real> {
    if assets == [] then []
    else
      var last := market(assets[|assets| - 1]);
      Values(market, assets[..|assets| - 1]) + if last.Some? then [last.value] else []
  }

  function Best(values: seq<real>): real
    requires values != []
  {
    if |values| == 1 || values[|values| - 1] >= Best(values[..|values| - 1]) then values[|values| - 1]
    else Best(values[..|values| - 1])
  }

  predicate AllKnown(market: string -> Option<real>, assets: seq<string>) {
    forall i | 0 <= i < |assets| :: market(assets[i]).Some?
  }

  predicate IsBreakup(market: string -> Option<real>, card: Card) {
    && card.give != [] && card.receive != [] && AllKnown(market, card.give) && AllKnown(market, card.receive)
    && var g, r := Values(market, card.give), Values(market, card.receive);
       g != [] && r != [] && Best(r) < BREAKUP_MIN_RATIO * Best(g)
  }

  function FillerBar(known: seq<real>): real
    requires known != []
  {
    var frac := FILLER_FRAC * Best(known);
    if frac > FILLER_FLOOR then frac else FILLER_FLOOR
  }

  predicate IsFiller(market: string -> Option<real>, card: Card) {
    var known := Values(market, card.Assets());
    known != [] && exists i :: 0 <= i < |known| && known[i] < FillerBar(known)
  }

  /** An asset of a position, worth at least the bar. */
  predicate Comparable(league: League, asset: string, pos: string, bar: real) {
    var value := league.market(asset);
    league.position(asset) == Some(pos) && (if value.Some? then value.value else 0.0) >= bar
  }

  function CountComparable(league: League, assets: seq<string>, without: set<string>, pos: string, bar: real): (n: nat)
    ensures n <= |assets|
  {
    if assets == [] then 0
    else
      var last := assets[|assets| - 1];
      CountComparable(league, assets[..|assets| - 1], without, pos, bar)
      + if last !in without && Comparable(league, last, pos, bar) then 1 else 0
  }

  /** Some incoming asset finds its position's cap filled by those kept and those coming with it. */
  predicate RedundantFor(league: League, caps: map<string, nat>, roster: seq<string>, out: seq<string>,
                         into: seq<string>, a: string) {
    var pos, value := league.position(a), league.market(a);
    && pos.Some? && pos.value in caps && value.Some?
    && var bar := REDUNDANT_MIN_RATIO * value.value;
       CountComparable(league, roster, (set p | p in out), pos.value, bar)
       + CountComparable(league, into, {a}, pos.value, bar) >= caps[pos.value]
  }

  predicate IsRedundant(league: League, card: Card) {
    league.caps.Some? &&
    (|| (exists a <- card.receive ::
         RedundantFor(league, league.caps.value, RosterOf(league, league.viewer), card.give, card.receive, a))
     || (exists a <- card.give ::
         RedundantFor(league, league.caps.value, RosterOf(league, card.target), card.receive, card.give, a)))
  }

  function RosterOf(league: League, team: string): seq<string> {
    if team in league.rosters then league.rosters[team] else []
  }

  /** The first rule a card fails; protected cards are not judged. */
  function Judge(league: League, card: Card): Verdict {
    if card.isProtected then Fine
    else if IsBreakup(league.market, card) then Breakup
    else if IsFiller(league.market, card) then Filler
    else if IsRedundant(league, card) then Redundant
    else Fine
  }

  // ---- The filter ----

  datatype Counts = Counts(breakup: nat, filler: nat, redundant: nat, deferred: nat)

  type Judgement = Card -> Verdict

  function Kept(judge: Judgement, cards: seq<Card>): seq<Card> {
    if cards == [] then []
    else
      var last := cards[|cards| - 1];
      Kept(judge, cards[..|cards| - 1]) + if judge(last).Fine? then [last] else []
  }

  function Judged(judge: Judgement, cards: seq<Card>, verdict: Verdict): (n: nat)
    ensures n <= |cards|
  {
    if cards == [] then 0
    else Judged(judge, cards[..|cards| - 1], verdict) + if judge(cards[|cards| - 1]) == verdict then 1 else 0
  }

  /** A card is served when it is protected, or none of the three rules holds of it. */
  predicate Passes(league: League, card: Card) {
    card.isProtected || !(IsBreakup(league.market, card) || IsFiller(league.market, card) || IsRedundant(league, card))
  }

  /** Where the unprotected cards are that a rule drops: the fillers are those that are no breakups, and the
      redundant ones neither. */
  function Breakups(league: League, cards: seq<Card>): set<nat> {
    set i | 0 <= i < |cards| && !cards[i].isProtected && IsBreakup(league.market, cards[i])
  }

  function Fillers(league: League, cards: seq<Card>): set<nat> {
    set i | 0 <= i < |cards| && !cards[i].isProtected && IsFiller(league.market, cards[i])
            && !IsBreakup(league.market, cards[i])
  }

  function Redundants(league: League, cards: seq<Card>): set<nat> {
    set i | 0 <= i < |cards| && !cards[i].isProtected && IsRedundant(league, cards[i])
            && !IsBreakup(league.market, cards[i]) && !IsFiller(league.market, cards[i])
  }

  /** The places of the cards that pass, rising: in the order they came. */
  ghost predicate Passing(league: League, cards: seq<Card>, at: seq<nat>) {
    Rising(at, |cards|) && forall i | 0 <= i < |cards| :: i in at <==> Passes(league, cards[i])
  }

  /** The passing cards in their order, under the repeat cap. */
  ghost predicate Serves(league: League, cards: seq<Card>, ordered: seq<Card>) {
    exists at: seq<nat> :: Passing(league, cards, at) && Arranged(Pick(cards, at), PassOf(Pick(cards, at)).s, ordered)
  }

  /** The kept cards in served order under the repeat cap, and how many each rule dropped. */
  method FilterDeck(league: League, cards: seq<Card>) returns (ordered: seq<Card>, counts: Counts)
    ensures Filtered(c => Judge(league, c), cards, ordered, counts)
    ensures forall c: Card :: multiset(ordered)[c] == if Passes(league, c) then multiset(cards)[c] else 0
    ensures counts.breakup == |Breakups(league, cards)| && counts.filler == |Fillers(league, cards)|
    ensures counts.redundant == |Redundants(league, cards)|
    ensures Serves(league, cards, ordered)
  {
    var judge := c => Judge(league, c);
    var kept: seq<Card> := [];
    var breakup, filler, redundant := 0, 0, 0;
    for i := 0 to |cards|
      invariant kept == Kept(judge, cards[..i])
      invariant breakup == Judged(judge, cards[..i], Breakup) && filler == Judged(judge, cards[..i], Filler)
      invariant redundant == Judged(judge, cards[..i], Redundant)
    {
      assert cards[..i + 1][..i] == cards[..i];
      match judge(cards[i]) {
        case Fine => kept := kept + [cards[i]];
        case Breakup => breakup := breakup + 1;
        case Filler => filler := filler + 1;
        case Redundant => redundant := redundant + 1;
      }
    }
    assert cards[..|cards|] == cards;
    var deferred;
    ordered, deferred := RepeatCap(kept);
    counts := Counts(breakup, filler, redundant, deferred);
    FilteredMeans(league, cards, ordered, counts);
  }

  /** What each verdict says of a card. */
  lemma Verdicts(league: League, card: Card)
    ensures Judge(league, card).Fine? <==> Passes(league, card)
    ensures Judge(league, card).Breakup? <==> !card.isProtected && IsBreakup(league.market, card)
    ensures Judge(league, card).Filler? <==>
              !card.isProtected && IsFiller(league.market, card) && !IsBreakup(league.market, card)
    ensures Judge(league, card).Redundant? <==>
              && !card.isProtected && IsRedundant(league, card)
              && !IsBreakup(league.market, card) && !IsFiller(league.market, card)
  {
  }

  function With(verdicts: seq<Verdict>, verdict: Verdict, n: nat): set<nat>
    requires n <= |verdicts|
  {
    set i | 0 <= i < n && verdicts[i] == verdict
  }

  lemma WithMore(verdicts: seq<Verdict>, verdict: Verdict, n: nat)
    requires n < |verdicts|
    ensures |With(verdicts, verdict, n + 1)| == |With(verdicts, verdict, n)| + if verdicts[n] == verdict then 1 else 0
  {
    var before := With(verdicts, verdict, n);
    if verdicts[n] == verdict {
      assert With(verdicts, verdict, n + 1) == before + {n};
    } else {
      assert With(verdicts, verdict, n + 1) == before;
    }
  }

  /** The verdicts on the cards, in order. */
  ghost predicate Are(verdicts: seq<Verdict>, judge: Judgement, cards: seq<Card>) {
    |verdicts| == |cards| && forall i | 0 <= i < |cards| :: verdicts[i] == judge(cards[i])
  }

  lemma OneMore(judge: Judgement, cards: seq<Card>, n: nat)
    requires n < |cards|
    ensures forall verdict :: Judged(judge, cards[..n + 1], verdict) ==
              Judged(judge, cards[..n], verdict) + if judge(cards[n]) == verdict then 1 else 0
    ensures Kept(judge, cards[..n + 1]) == Kept(judge, cards[..n]) + if judge(cards[n]).Fine? then [cards[n]] else []
  {
    assert cards[..n + 1][..n] == cards[..n];
  }

  lemma {:induction false} JudgedIs(verdicts: seq<Verdict>, judge: Judgement, cards: seq<Card>, verdict: Verdict,
                                    n: nat)
    requires Are(verdicts, judge, cards) && n <= |cards|
    ensures Judged(judge, cards[..n], verdict) == |With(verdicts, verdict, n)|
  {
    if n > 0 {
      JudgedIs(verdicts, judge, cards, verdict, n - 1);
      OneMore(judge, cards, n - 1);
      WithMore(verdicts, verdict, n - 1);
    }
  }

  /** The places of the kept cards among the first n. */
  function KeptAt(verdicts: seq<Verdict>, n: nat): seq<nat>
    requires n <= |verdicts|
  {
    if n == 0 then [] else KeptAt(verdicts, n - 1) + if verdicts[n - 1].Fine? then [n - 1] else []
  }

  lemma {:induction false} KeptAtIs(verdicts: seq<Verdict>, n: nat)
    requires n <= |verdicts|
    ensures Rising(KeptAt(verdicts, n), n)
    ensures forall i | 0 <= i < n :: i in KeptAt(verdicts, n) <==> verdicts[i].Fine?
  {
    if n > 0 {
      KeptAtIs(verdicts, n - 1);
    }
  }

  lemma {:induction false} KeptIs(verdicts: seq<Verdict>, judge: Judgement, cards: seq<Card>, n: nat)
    requires Are(verdicts, judge, cards) && n <= |cards|
    ensures Rising(KeptAt(verdicts, n), n) && Kept(judge, cards[..n]) == Pick(cards, KeptAt(verdicts, n))
  {
    if n > 0 {
      KeptIs(verdicts, judge, cards, n - 1);
      var at := KeptAt(verdicts, n - 1);
      assert verdicts[n - 1] == judge(cards[n - 1]);
      OneMore(judge, cards, n - 1);
      PickOn(cards, at, n - 1);
      RisingOn(at, n - 1);
    }
  }

  lemma RisingOn(at: seq<nat>, n: nat)
    requires Rising(at, n)
    ensures Rising(at + [n], n + 1) && Rising(at + [], n + 1)
  {
  }

  lemma PickOn(cards: seq<Card>, at: seq<nat>, n: nat)
    requires n < |cards| && Rising(at, n)
    ensures Pick(cards, at + [n]) == Pick(cards, at) + [cards[n]] && at + [] == at
  {
  }

  lemma FilteredMeans(league: League, cards: seq<Card>, ordered: seq<Card>, counts: Counts)
    requires Filtered(c => Judge(league, c), cards, ordered, counts)
    ensures forall c: Card :: multiset(ordered)[c] == if Passes(league, c) then multiset(cards)[c] else 0
    ensures counts.breakup == |Breakups(league, cards)| && counts.filler == |Fillers(league, cards)|
    ensures counts.redundant == |Redundants(league, cards)|
    ensures Serves(league, cards, ordered)
  {
    var judge := c => Judge(league, c);
    NothingLost(league, cards, ordered, counts);
    forall c: Card { Verdicts(league, c); }
    assert cards[..|cards|] == cards;
    var verdicts := seq(|cards|, i requires 0 <= i < |cards| => Judge(league, cards[i]));
    JudgedIs(verdicts, judge, cards, Breakup, |cards|);
    JudgedIs(verdicts, judge, cards, Filler, |cards|);
    JudgedIs(verdicts, judge, cards, Redundant, |cards|);
    assert With(verdicts, Breakup, |cards|) == Breakups(league, cards);
    assert With(verdicts, Filler, |cards|) == Fillers(league, cards);
    assert With(verdicts, Redundant, |cards|) == Redundants(league, cards);
    KeptAtIs(verdicts, |cards|);
    KeptIs(verdicts, judge, cards, |cards|);
    var at := KeptAt(verdicts, |cards|);
    assert Passing(league, cards, at);
  }

  ghost predicate Filtered(judge: Judgement, cards: seq<Card>, ordered: seq<Card>, counts: Counts) {
    var kept := Kept(judge, cards);
    && Arranged(kept, PassOf(kept).s, ordered)
    && counts == Counts(Judged(judge, cards, Breakup), Judged(judge, cards, Filler), Judged(judge, cards, Redundant),
                        |PassOf(kept).s.deferred|)
  }

  lemma {:induction false} CountsAdd(judge: Judgement, cards: seq<Card>)
    ensures |Kept(judge, cards)| + Judged(judge, cards, Breakup) + Judged(judge, cards, Filler)
              + Judged(judge, cards, Redundant) == |cards|
  {
    if cards != [] {
      CountsAdd(judge, cards[..|cards| - 1]);
    }
  }

  lemma {:induction false} KeptTimes(judge: Judgement, cards: seq<Card>, c: Card)
    ensures multiset(Kept(judge, cards))[c] == if judge(c).Fine? then multiset(cards)[c] else 0
  {
    if cards != [] {
      var head, last := cards[..|cards| - 1], cards[|cards| - 1];
      KeptTimes(judge, head, c);
      assert cards == head + [last];
    }
  }

  /** Every card is served or counted as dropped; the served cards are those no rule dropped, each as
      often as it came, and so no protected card is missing. */
  lemma NothingLost(league: League, cards: seq<Card>, ordered: seq<Card>, counts: Counts)
    requires Filtered(c => Judge(league, c), cards, ordered, counts)
    ensures |ordered| + counts.breakup + counts.filler + counts.redundant == |cards|
    ensures forall c: Card :: multiset(ordered)[c] == if Judge(league, c).Fine? then multiset(cards)[c] else 0
    ensures forall c: Card | c.isProtected :: multiset(ordered)[c] == multiset(cards)[c]
  {
    var judge := c => Judge(league, c);
    var kept := Kept(judge, cards);
    CountsAdd(judge, cards);
    OrderedAreKept(kept, ordered);
    forall c ensures multiset(ordered)[c] == if Judge(league, c).Fine? then multiset(cards)[c] else 0 {
      KeptTimes(judge, cards, c);
    }
  }

  lemma OrderedAreKept(kept: seq<Card>, ordered: seq<Card>)
    requires Arranged(kept, PassOf(kept).s, ordered)
    ensures multiset(ordered) == multiset(kept) && |ordered| == |kept|
  {
    PassSplits(kept);
    PassKeepsCards(kept);
    assert |multiset(ordered)| == |multiset(kept)|;
  }

  /** An unknown value triggers no value rule: unless both sides of a breakup are wholly known, unless
      an undersized asset is known, and unless the incoming asset is known, a card is not dropped by it. */
  lemma UnknownIsHarmless(league: League, card: Card)
    ensures IsBreakup(league.market, card) ==> AllKnown(league.market, card.Assets())
    ensures (forall a <- card.Assets() :: league.market(a).None?) ==> Judge(league, card).Fine?
  {
    if forall a <- card.Assets() :: league.market(a).None? {
      NoValues(league.market, card.Assets());
      assert forall a <- card.give :: a in card.Assets();
      assert forall a <- card.receive :: a in card.Assets();
      if card.give != [] { assert card.give[0] in card.Assets(); }
    }
  }

  lemma {:induction false} NoValues(market: string -> Option<real>, assets: seq<string>)
    requires forall a <- assets :: market(a).None?
    ensures Values(market, assets) == []
  {
    if assets != [] {
      NoValues(market, assets[..|assets| - 1]);
    }
  }

  // ---- What the value rules mean ----

  ghost predicate Worth(market: string -> Option<real>, assets: seq<string>, v: real) {
    exists a :: a in assets && market(a) == Some(v)
  }

  lemma {:induction false} ValuesAre(market: string -> Option<real>, assets: seq<string>, v: real)
    ensures v in Values(market, assets) <==> Worth(market, assets, v)
  {
    if assets != [] {
      var head, last := assets[..|assets| - 1], assets[|assets| - 1];
      ValuesAre(market, head, v);
      assert assets == head + [last];
      if Worth(market, assets, v) {
        var a :| a in assets && market(a) == Some(v);
        assert a in head || a == last;
      }
      if Worth(market, head, v) {
        var a :| a in head && market(a) == Some(v);
        assert a in assets;
      }
    }
  }

  lemma {:induction false} BestIs(values: seq<real>)
    requires values != []
    ensures Best(values) in values && forall v <- values :: v <= Best(values)
  {
    if |values| > 1 {
      BestIs(values[..|values| - 1]);
      assert values == values[..|values| - 1] + [values[|values| - 1]];
    }
  }

  /** A breakup: some piece given is worth so much that no piece received comes to the ratio of it. */
  lemma BreakupMeans(market: string -> Option<real>, card: Card)
    requires card.give != [] && card.receive != [] && AllKnown(market, card.give) && AllKnown(market, card.receive)
    ensures IsBreakup(market, card) <==>
            exists g :: Worth(market, card.give, g) && forall r :: Worth(market, card.receive, r) ==>
                r < BREAKUP_MIN_RATIO * g
  {
    var gs, rs := Values(market, card.give), Values(market, card.receive);
    forall v ensures v in gs <==> Worth(market, card.give, v) { ValuesAre(market, card.give, v); }
    forall v ensures v in rs <==> Worth(market, card.receive, v) { ValuesAre(market, card.receive, v); }
    assert Worth(market, card.give, market(card.give[0]).value)
           && Worth(market, card.receive, market(card.receive[0]).value);
    assert gs != [] && rs != [];
    BestIs(gs);
    BestIs(rs);
    if IsBreakup(market, card) {
      assert Worth(market, card.give, Best(gs));
    }
    if g :| Worth(market, card.give, g) && forall r :: Worth(market, card.receive, r) ==> r < BREAKUP_MIN_RATIO * g {
      assert g in gs && Worth(market, card.receive, Best(rs));
    }
  }

  /** Where in the assets those are that stay, of the position and worth the bar or more, nothing when of no
      known value. */
  function Staying(league: League, assets: seq<string>, without: set<string>, pos: string, bar: real): set<nat> {
    set i | 0 <= i < |assets| && assets[i] !in without && league.position(assets[i]) == Some(pos)
            && (league.market(assets[i]) == None ==> bar <= 0.0)
            && (league.market(assets[i]).Some? ==> bar <= league.market(assets[i]).value)
  }

  lemma {:induction false} CountIs(league: League, assets: seq<string>, without: set<string>, pos: string, bar: real)
    ensures CountComparable(league, assets, without, pos, bar) == |Staying(league, assets, without, pos, bar)|
  {
    if assets == [] {
      assert Staying(league, assets, without, pos, bar) == {};
    } else {
      var n := |assets| - 1;
      CountIs(league, assets[..n], without, pos, bar);
      var more: set<nat> := if assets[n] !in without && Comparable(league, assets[n], pos, bar) then {n} else {};
      assert Staying(league, assets, without, pos, bar) == Staying(league, assets[..n], without, pos, bar) + more;
    }
  }

  /** One side gets a piece of a capped position and known value, and as many others of that position as the
      cap, each worth the ratio of it or more, stay on its roster or come along. */
  ghost predicate Crowded(league: League, caps: map<string, nat>, roster: seq<string>, out: seq<string>,
                          into: seq<string>, a: string) {
    exists pos, value :: league.position(a) == Some(pos) && league.market(a) == Some(value) && pos in caps
      && |Staying(league, roster, (set p | p in out), pos, REDUNDANT_MIN_RATIO * value)|
         + |Staying(league, into, {a}, pos, REDUNDANT_MIN_RATIO * value)| >= caps[pos]
  }

  lemma CrowdedIs(league: League, caps: map<string, nat>, roster: seq<string>, out: seq<string>, into: seq<string>,
                  a: string)
    ensures RedundantFor(league, caps, roster, out, into, a) <==> Crowded(league, caps, roster, out, into, a)
  {
    if league.position(a).Some? && league.market(a).Some? {
      var pos, bar := league.position(a).value, REDUNDANT_MIN_RATIO * league.market(a).value;
      CountIs(league, roster, (set p | p in out), pos, bar);
      CountIs(league, into, {a}, pos, bar);
    }
  }

  /** A redundant card crowds the viewer, or its counterparty. */
  lemma RedundantMeans(league: League, card: Card)
    ensures IsRedundant(league, card) <==>
            league.caps.Some? &&
            ((exists a <- card.receive ::
              Crowded(league, league.caps.value, RosterOf(league, league.viewer), card.give, card.receive, a))
             || exists a <- card.give ::
                Crowded(league, league.caps.value, RosterOf(league, card.target), card.receive, card.give, a))
  {
    if league.caps.Some? {
      forall a { CrowdedIs(league, league.caps.value, RosterOf(league, league.viewer), card.give, card.receive, a); }
      forall a { CrowdedIs(league, league.caps.value, RosterOf(league, card.target), card.receive, card.give, a); }
    }
  }

  /** Sending one back frees the slot: sending more never crowds a side that was not. */
  lemma SendingFrees(league: League, caps: map<string, nat>, roster: seq<string>, out: seq<string>, more: seq<string>,
                     into: seq<string>, a: string)
    requires Crowded(league, caps, roster, out + more, into, a)
    ensures Crowded(league, caps, roster, out, into, a)
  {
    var pos, value :| league.position(a) == Some(pos) && league.market(a) == Some(value) && pos in caps
      && |Staying(league, roster, (set p | p in out + more), pos, REDUNDANT_MIN_RATIO * value)|
         + |Staying(league, into, {a}, pos, REDUNDANT_MIN_RATIO * value)| >= caps[pos];
    var few, many := Staying(league, roster, (set p | p in out + more), pos, REDUNDANT_MIN_RATIO * value),
                     Staying(league, roster, (set p | p in out), pos, REDUNDANT_MIN_RATIO * value);
    assert few <= many;
    SubsetSize(few, many);
  }

  /** A filler: some piece is worth less than the floor, or less than the fraction of another. */
  lemma FillerMeans(market: string -> Option<real>, card: Card)
    ensures IsFiller(market, card) <==>
            exists v :: Worth(market, card.Assets(), v)
                        && (v < FILLER_FLOOR || exists w :: Worth(market, card.Assets(), w) && v < FILLER_FRAC * w)
  {
    var known := Values(market, card.Assets());
    forall v ensures v in known <==> Worth(market, card.Assets(), v) { ValuesAre(market, card.Assets(), v); }
    if known != [] {
      BestIs(known);
      assert Worth(market, card.Assets(), Best(known));
    }
    if IsFiller(market, card) {
      var i :| 0 <= i < |known| && known[i] < FillerBar(known);
      assert Worth(market, card.Assets(), known[i]);
    }
    if v :| Worth(market, card.Assets(), v)
            && (v < FILLER_FLOOR || exists w :: Worth(market, card.Assets(), w) && v < FILLER_FRAC * w) {
      assert v in known;
      if w :| Worth(market, card.Assets(), w) && v < FILLER_FRAC * w { assert w in known; }
      var i :| 0 <= i < |known| && known[i] == v;
    }
  }
}
