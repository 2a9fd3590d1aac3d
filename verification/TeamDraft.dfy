/**
 The team draft: ranked lists interleaved by a rotation of participants, each trade credited
 to whoever picks it first. The loop's cursors are proved to refine a draft without them, in
 which a participant always contributes its best card not yet in the deck.
 */
module TeamDraft {
  import opened Wrappers
  import opened FiniteSets
  import opened Sublists

  /** "Same trade": each side's assets, sorted, and the partner. */
  datatype Key = Key(give: seq<string>, receive: seq<string>, partner: Option<string>)

  /** A proposed trade: the card object's identity, and its key. */
  datatype Card = Card(id: nat, key: Key)

  type Lists = map<string, seq<Card>>

  /** A deck card with its credit: who picked it, and its rank in that list. */
  datatype Pick = Pick(who: string, rank: nat, card: Card)

  datatype Table = Table(deck: seq<Pick>, forfeits: map<string, nat>)

  ghost function Keys(deck: seq<Pick>): set<Key> {
    set pick | pick in deck :: pick.card.key
  }

  ghost function ListKeys(cards: seq<Card>): set<Key> {
    set card | card in cards :: card.key
  }

  ghost predicate Seated(lists: Lists, order: seq<string>) {
    forall p <- order :: p in lists
  }

  /** The distinct trades over the drafted lists. */
  ghost function AllKeys(lists: Lists, order: seq<string>): set<Key>
    requires Seated(lists, order)
  {
    set p, card | p in order && card in lists[p] :: card.key
  }

  // ---- The draft without cursors ----

  /** The rank of the best card not taken; the length of the list when all are. */
  ghost function Best(cards: seq<Card>, taken: set<Key>): (rank: nat)
    ensures rank <= |cards|
    ensures rank < |cards| ==> cards[rank].key !in taken
    ensures forall i | 0 <= i < rank :: cards[i].key in taken
  {
    if cards == [] || cards[0].key !in taken then 0 else 1 + Best(cards[1..], taken)
  }

  /** One turn: p contributes its best card not in the deck, or forfeits. */
  ghost function Turn(lists: Lists, p: string, table: Table): Table
    requires p in lists
  {
    var rank := Best(lists[p], Keys(table.deck));
    if rank < |lists[p]| then table.(deck := table.deck + [Pick(p, rank, lists[p][rank])])
    else table.(forfeits := table.forfeits[p := Forfeits(table, p) + 1])
  }

  ghost function Forfeits(table: Table, p: string): nat {
    if p in table.forfeits then table.forfeits[p] else 0
  }

  /** The table after `round` full rotations and `seat` turns of the next. */
  ghost function Play(lists: Lists, order: seq<string>, round: nat, seat: nat): Table
    requires Seated(lists, order) && seat <= |order|
    decreases round, seat
  {
    if seat > 0 then Turn(lists, order[seat - 1], Play(lists, order, round, seat - 1))
    else if round > 0 then Play(lists, order, round - 1, |order|)
    else Table([], map[])
  }

  ghost predicate Earlier(round: nat, seat: nat, later: nat, laterSeat: nat) {
    round < later || (round == later && seat <= laterSeat)
  }

  /** The deck only ever grows at its end. */
  lemma {:induction false} DeckGrows(lists: Lists, order: seq<string>, round: nat, seat: nat, later: nat,
                                     laterSeat: nat)
    requires Seated(lists, order) && seat <= |order| && laterSeat <= |order|
    requires Earlier(round, seat, later, laterSeat)
    ensures Play(lists, order, round, seat).deck <= Play(lists, order, later, laterSeat).deck
    decreases later, laterSeat
  {
    if laterSeat > 0 && !(round == later && seat == laterSeat) {
      DeckGrows(lists, order, round, seat, later, laterSeat - 1);
    } else if laterSeat == 0 && round < later {
      DeckGrows(lists, order, round, seat, later - 1, |order|);
    }
  }

  /** What a credited card is: the card at that rank of its picker's list, every card ranked
      above it already in the deck, and its own trade not. */
  ghost predicate FairPick(lists: Lists, before: seq<Pick>, pick: Pick) {
    && pick.who in lists && pick.rank < |lists[pick.who]| && pick.card == lists[pick.who][pick.rank]
    && pick.card.key !in Keys(before)
    && forall i | 0 <= i < pick.rank :: lists[pick.who][i].key in Keys(before)
  }

  ghost predicate Fair(lists: Lists, deck: seq<Pick>) {
    forall j | 0 <= j < |deck| :: FairPick(lists, deck[..j], deck[j])
  }

  lemma FairGrows(lists: Lists, deck: seq<Pick>, pick: Pick)
    requires Fair(lists, deck) && FairPick(lists, deck, pick)
    ensures Fair(lists, deck + [pick]) && Keys(deck + [pick]) == Keys(deck) + {pick.card.key}
  {
    var more := deck + [pick];
    forall j | 0 <= j < |more| ensures FairPick(lists, more[..j], more[j]) {
      assert more[..j] == deck[..j];
      if j == |deck| { assert deck[..j] == deck; }
    }
  }

  lemma {:induction false} PlayIsFair(lists: Lists, order: seq<string>, round: nat, seat: nat)
    requires Seated(lists, order) && seat <= |order|
    ensures var deck := Play(lists, order, round, seat).deck;
            Fair(lists, deck) && Keys(deck) <= AllKeys(lists, order) && |Keys(deck)| == |deck|
    decreases round, seat
  {
    if seat > 0 {
      PlayIsFair(lists, order, round, seat - 1);
      var deck := Play(lists, order, round, seat - 1).deck;
      var p := order[seat - 1];
      var rank := Best(lists[p], Keys(deck));
      if rank < |lists[p]| {
        FairGrows(lists, deck, Pick(p, rank, lists[p][rank]));
      }
    } else if round > 0 {
      PlayIsFair(lists, order, round - 1, |order|);
    }
  }

  // ---- Balance ----

  ghost function Picks(deck: seq<Pick>, p: string): nat {
    if deck == [] then 0 else Picks(deck[..|deck| - 1], p) + if deck[|deck| - 1].who == p then 1 else 0
  }

  ghost predicate DistinctSeats(order: seq<string>) {
    forall i, j | 0 <= i < j < |order| :: order[i] != order[j]
  }

  lemma TurnCounts(lists: Lists, p: string, table: Table, q: string)
    requires p in lists
    ensures PicksAndForfeits(Turn(lists, p, table), q) == PicksAndForfeits(table, q) + if p == q then 1 else 0
  {
    var rank := Best(lists[p], Keys(table.deck));
    if rank < |lists[p]| {
      PicksGrow(table.deck, Pick(p, rank, lists[p][rank]), q);
    }
  }

  lemma PicksGrow(deck: seq<Pick>, pick: Pick, q: string)
    ensures Picks(deck + [pick], q) == Picks(deck, q) + if pick.who == q then 1 else 0
  {
    assert (deck + [pick])[..|deck|] == deck;
  }

  /** How many turns participant i has had. */
  function TurnsBy(round: nat, seat: nat, i: nat): nat {
    round + if i < seat then 1 else 0
  }

  ghost function PicksAndForfeits(table: Table, p: string): nat {
    Picks(table.deck, p) + Forfeits(table, p)
  }

  lemma NextHad(lists: Lists, order: seq<string>, round: nat, seat: nat, i: nat)
    requires Seated(lists, order) && DistinctSeats(order) && seat < |order| && i < |order|
    requires PicksAndForfeits(Play(lists, order, round, seat), order[i]) == TurnsBy(round, seat, i)
    ensures PicksAndForfeits(Play(lists, order, round, seat + 1), order[i]) == TurnsBy(round, seat + 1, i)
  {
    assert order[seat] == order[i] <==> i == seat;
    TurnCounts(lists, order[seat], Play(lists, order, round, seat), order[i]);
    PlayOn(lists, order, round, seat);
  }

  /** Picks plus forfeits count the turns a participant has had. */
  lemma {:induction false} TurnsHad(lists: Lists, order: seq<string>, round: nat, seat: nat, i: nat)
    requires Seated(lists, order) && DistinctSeats(order) && seat <= |order| && i < |order|
    ensures PicksAndForfeits(Play(lists, order, round, seat), order[i]) == TurnsBy(round, seat, i)
    decreases round, seat
  {
    if seat > 0 {
      TurnsHad(lists, order, round, seat - 1, i);
      NextHad(lists, order, round, seat - 1, i);
    } else if round > 0 {
      TurnsHad(lists, order, round - 1, |order|, i);
    }
  }

  /** At every step, any two participants' picks plus forfeits differ by at most one. */
  lemma Balance(lists: Lists, order: seq<string>, round: nat, seat: nat, i: nat, j: nat)
    requires Seated(lists, order) && DistinctSeats(order) && seat <= |order| && i < |order| && j < |order|
    ensures var table := Play(lists, order, round, seat);
            -1 <= PicksAndForfeits(table, order[i]) - PicksAndForfeits(table, order[j]) <= 1
  {
    TurnsHad(lists, order, round, seat, i);
    TurnsHad(lists, order, round, seat, j);
  }

  /** A participant that forfeits never picks again. */
  lemma ForfeitIsFinal(lists: Lists, order: seq<string>, round: nat, seat: nat, later: nat, laterSeat: nat)
    requires Seated(lists, order) && seat < |order| && laterSeat < |order|
    requires Earlier(round, seat, later, laterSeat) && order[seat] == order[laterSeat]
    requires Play(lists, order, round, seat + 1).deck == Play(lists, order, round, seat).deck
    ensures Play(lists, order, later, laterSeat + 1).deck == Play(lists, order, later, laterSeat).deck
  {
    var p := order[seat];
    var before, after := Play(lists, order, round, seat).deck, Play(lists, order, later, laterSeat).deck;
    DeckGrows(lists, order, round, seat, later, laterSeat);
    assert Keys(before) <= Keys(after);
    assert Best(lists[p], Keys(before)) == |lists[p]|;
    var rank := Best(lists[p], Keys(after));
  }

  // ---- The loop ----

  function Filtered(order: seq<string>, lists: Lists): (kept: seq<string>)
    ensures Seated(lists, kept)
    ensures forall p :: p in kept <==> p in order && p in lists
  {
    if order == [] then []
    else (if order[0] in lists then [order[0]] else []) + Filtered(order[1..], lists)
  }

  /** The rotation keeps the order's own order, and its repetitions. */
  lemma {:induction false} FilteredInOrder(order: seq<string>, lists: Lists)
    ensures InOrder(order, p => p in lists, Filtered(order, lists))
  {
    if order == [] {
      NoneInOrder((p: string) => p in lists);
    } else {
      var n := |order| - 1;
      FilteredInOrder(order[..n], lists);
      OneMoreInOrder(order[..n], p => p in lists, Filtered(order[..n], lists), order[n]);
      FilteredMore(order[..n], order[n], lists);
      assert order == order[..n] + [order[n]];
    }
  }

  lemma {:induction false} FilteredMore(order: seq<string>, last: string, lists: Lists)
    ensures Filtered(order + [last], lists) == Filtered(order, lists) + if last in lists then [last] else []
  {
    if order == [] {
      assert [last][1..] == [];
    } else {
      assert (order + [last])[1..] == order[1..] + [last];
      FilteredMore(order[1..], last, lists);
    }
  }

  function Total(lists: Lists, order: seq<string>): nat
    requires Seated(lists, order)
  {
    if order == [] then 0 else |lists[order[0]]| + Total(lists, order[1..])
  }

  lemma {:induction false} AtMostTotal(lists: Lists, order: seq<string>)
    requires Seated(lists, order)
    ensures |AllKeys(lists, order)| <= Total(lists, order)
  {
    if order == [] {
      assert AllKeys(lists, order) == {};
    } else {
      AtMostTotal(lists, order[1..]);
      ListKeysSize(lists[order[0]]);
      assert AllKeys(lists, order) == ListKeys(lists[order[0]]) + AllKeys(lists, order[1..]);
    }
  }

  lemma {:induction false} ListKeysSize(cards: seq<Card>)
    ensures |ListKeys(cards)| <= |cards|
  {
    if cards != [] {
      ListKeysSize(cards[1..]);
      assert ListKeys(cards) == {cards[0].key} + ListKeys(cards[1..]);
    }
  }

  /** The size of a deck limited to `limit` out of `all` trades. */
  ghost function Clamped(limit: Option<int>, all: nat): nat {
    if limit.None? || limit.value >= all then all
    else if limit.value < 0 then 0
    else limit.value
  }

  /** Everything behind a cursor is taken: scanning on from it finds the best card not taken. */
  ghost predicate Passed(cards: seq<Card>, cursor: nat, taken: set<Key>) {
    cursor <= |cards| && forall i | 0 <= i < cursor :: cards[i].key in taken
  }

  /** A card object is one trade wherever it is listed: the catalog has it under its identity. */
  ghost predicate Catalogued(lists: Lists, catalog: map<nat, Card>) {
    forall p, card | p in lists && card in lists[p] :: card.id in catalog && catalog[card.id] == card
  }

  /** The deck and credits as recorded so far. */
  ghost predicate Recorded(picks: seq<Pick>, deck: seq<Card>, credit: map<nat, (string, nat)>) {
    && |deck| == |picks|
    && forall j | 0 <= j < |deck| ::
         && deck[j] == picks[j].card
         && deck[j].id in credit && credit[deck[j].id] == (picks[j].who, picks[j].rank)
  }

  lemma BestIs(cards: seq<Card>, taken: set<Key>, i: nat)
    requires Passed(cards, i, taken) && (i < |cards| ==> cards[i].key !in taken)
    ensures Best(cards, taken) == i
  {
  }

  lemma RecordedGrows(lists: Lists, catalog: map<nat, Card>, picks: seq<Pick>, deck: seq<Card>,
                      credit: map<nat, (string, nat)>, pick: Pick)
    requires Catalogued(lists, catalog) && Fair(lists, picks) && Recorded(picks, deck, credit)
    requires FairPick(lists, picks, pick)
    ensures Recorded(picks + [pick], deck + [pick.card], credit[pick.card.id := (pick.who, pick.rank)])
  {
    forall j | 0 <= j < |deck| ensures deck[j].id != pick.card.id {
      assert picks[j] in picks && FairPick(lists, picks[..j], picks[j]);
      assert deck[j].key in Keys(picks);
      assert deck[j] in lists[picks[j].who] && pick.card in lists[pick.who];
    }
  }

  /** Cursors and forfeits agree with the draft without cursors. */
  ghost predicate Follows(lists: Lists, order: seq<string>, table: Table, cursors: map<string, nat>,
                          forfeits: map<string, nat>)
    requires Seated(lists, order)
  {
    forall p <- order ::
      && p in cursors && Passed(lists[p], cursors[p], Keys(table.deck))
      && p in forfeits && forfeits[p] == Forfeits(table, p)
  }

  lemma FollowsForfeit(lists: Lists, order: seq<string>, table: Table, cursors: map<string, nat>,
                       forfeits: map<string, nat>, p: string)
    requires Seated(lists, order) && Follows(lists, order, table, cursors, forfeits)
    requires p in order && Passed(lists[p], |lists[p]|, Keys(table.deck))
    ensures Follows(lists, order, table.(forfeits := table.forfeits[p := Forfeits(table, p) + 1]),
                    cursors[p := |lists[p]|], forfeits[p := forfeits[p] + 1])
  {
  }

  lemma FollowsPick(lists: Lists, order: seq<string>, table: Table, cursors: map<string, nat>,
                    forfeits: map<string, nat>, pick: Pick)
    requires Seated(lists, order) && Follows(lists, order, table, cursors, forfeits)
    requires pick.who in order && FairPick(lists, table.deck, pick)
    ensures Follows(lists, order, table.(deck := table.deck + [pick]), cursors[pick.who := pick.rank + 1], forfeits)
  {
    var after := table.deck + [pick];
    assert after[|table.deck|] == pick;
    assert Keys(table.deck) <= Keys(after) && pick.card.key in Keys(after);
  }

  /** The variables of one draft. `table` is the table of the draft without cursors it refines. */
  class Drafting {
    const lists: Lists
    const order: seq<string>
    ghost const catalog: map<nat, Card>
    var cursors: map<string, nat>
    var forfeits: map<string, nat>
    var taken: set<Key>
    var deck: seq<Card>
    var credit: map<nat, (string, nat)>
    ghost var table: Table

    ghost predicate Valid()
      reads this
    {
      && Seated(lists, order) && Catalogued(lists, catalog)
      && Follows(lists, order, table, cursors, forfeits) && Recorded(table.deck, deck, credit)
      && Fair(lists, table.deck) && taken == Keys(table.deck)
    }

    constructor (lists: Lists, order: seq<string>, ghost catalog: map<nat, Card>)
      requires Catalogued(lists, catalog)
      ensures Valid() && this.lists == lists && this.order == Filtered(order, lists) && table == Table([], map[])
    {
      this.lists, this.order, this.catalog := lists, Filtered(order, lists), catalog;
      cursors := map p | p in Filtered(order, lists) :: 0;
      forfeits := map p | p in Filtered(order, lists) :: 0;
      taken, deck, credit := {}, [], map[];
      table := Table([], map[]);
    }

    /** Move p's cursor past the cards already taken, to its best card or the end of its list. */
    method Advance(p: string) returns (i: nat)
      requires Valid() && p in order
      modifies this`cursors
      ensures Valid() && i == Best(lists[p], taken) && cursors == old(cursors)[p := i]
    {
      var cards := lists[p];
      i := cursors[p];
      while i < |cards| && cards[i].key in taken
        invariant Passed(cards, i, taken)
      {
        i := i + 1;
      }
      BestIs(cards, taken, i);
      cursors := cursors[p := i];
    }

    /** One turn: p picks its best card, or forfeits. */
    method TakeTurn(p: string) returns (picked: bool)
      requires Valid() && p in order
      modifies this
      ensures Valid() && table == Turn(lists, p, old(table))
      ensures picked ==> |deck| == |old(deck)| + 1
      ensures !picked ==> deck == old(deck) && taken == old(taken) && ListKeys(lists[p]) <= taken
    {
      var cards := lists[p];
      var i := Advance(p);
      table := Turn(lists, p, table);
      if i >= |cards| {
        FollowsForfeit(lists, order, old(table), cursors, forfeits, p);
        forfeits := forfeits[p := forfeits[p] + 1];
        return false;
      }
      var card := cards[i];
      ghost var pick := Pick(p, i, card);
      RecordedGrows(lists, catalog, old(table).deck, deck, credit, pick);
      FairGrows(lists, old(table).deck, pick);
      FollowsPick(lists, order, old(table), cursors, forfeits, pick);
      deck := deck + [card];
      credit := credit[card.id := (p, i)];
      taken := taken + {card.key};
      cursors := cursors[p := i + 1];
      return true;
    }

    /** The turn of the next participant in the rotation. */
    method TakeSeat(ghost round: nat, k: nat) returns (picked: bool)
      requires Valid() && k < |order| && table == Play(lists, order, round, k)
      modifies this
      ensures Valid() && table == Play(lists, order, round, k + 1)
      ensures picked ==> |deck| == |old(deck)| + 1
      ensures !picked ==>
                deck == old(deck) && (Spent(lists, order, old(taken), k) ==> Spent(lists, order, taken, k + 1))
    {
      PlayOn(lists, order, round, k);
      picked := TakeTurn(order[k]);
    }

    /** A rotation through the participants, cut short when the deck is full. */
    method Rotate(cap: int, ghost round: nat) returns (progressed: bool, ghost seat: nat)
      requires Valid() && table == Play(lists, order, round, 0) && |deck| < cap
      modifies this
      ensures Valid() && seat <= |order| && table == Play(lists, order, round, seat)
      ensures |old(deck)| <= |deck| <= cap && (|deck| < cap ==> seat == |order|)
      ensures progressed <==> |deck| > |old(deck)|
      ensures !progressed ==> seat == |order| && Spent(lists, order, taken, |order|)
    {
      progressed, seat := false, 0;
      var k := 0;
      while k < |order| && |deck| < cap
        invariant Valid() && seat == k <= |order| && table == Play(lists, order, round, k)
        invariant |old(deck)| <= |deck| <= cap && (progressed <==> |deck| > |old(deck)|)
        invariant !progressed ==> Spent(lists, order, taken, k)
      {
        var picked := TakeSeat(round, k);
        progressed := progressed || picked;
        k, seat := k + 1, k + 1;
      }
    }
  }

  /** Every trade of the first k participants is taken. */
  ghost predicate Spent(lists: Lists, order: seq<string>, taken: set<Key>, k: nat)
    requires Seated(lists, order)
  {
    forall i | 0 <= i < k && i < |order| :: ListKeys(lists[order[i]]) <= taken
  }

  lemma AllSpent(lists: Lists, order: seq<string>, taken: set<Key>)
    requires Seated(lists, order) && Spent(lists, order, taken, |order|)
    ensures AllKeys(lists, order) <= taken
  {
    forall p, card | p in order && card in lists[p] ensures card.key in taken {
      var i :| 0 <= i < |order| && order[i] == p;
      assert card.key in ListKeys(lists[order[i]]);
    }
  }

  lemma PlayOn(lists: Lists, order: seq<string>, round: nat, k: nat)
    requires Seated(lists, order) && k < |order|
    ensures Play(lists, order, round, k + 1) == Turn(lists, order[k], Play(lists, order, round, k))
  {
  }

  /** What a draft results in: deck and credits of the draft without cursors, as long as the limit allows. */
  ghost predicate Drafted(lists: Lists, order: seq<string>, limit: Option<int>, deck: seq<Card>,
                          credit: map<nat, (string, nat)>, round: nat, seat: nat)
    requires Seated(lists, order)
  {
    && seat <= |order| && Recorded(Play(lists, order, round, seat).deck, deck, credit)
    && |deck| == Clamped(limit, |AllKeys(lists, order)|)
  }

  /** The draft as a loop over cursors. `round` and `seat` say where it stopped; its deck, credits
      and forfeits are those of the draft without cursors at that point. */
  method DraftCore(lists: Lists, order: seq<string>, limit: Option<int>, ghost catalog: map<nat, Card>)
    returns (deck: seq<Card>, credit: map<nat, (string, nat)>, forfeits: map<string, nat>,
             ghost round: nat, ghost seat: nat)
    requires Catalogued(lists, catalog)
    ensures Drafted(lists, Filtered(order, lists), limit, deck, credit, round, seat)
    ensures InOrder(order, p => p in lists, Filtered(order, lists))
    ensures |deck| == Clamped(limit, |AllKeys(lists, Filtered(order, lists))|)
    ensures forall p <- Filtered(order, lists) ::
              p in forfeits && forfeits[p] == Forfeits(Play(lists, Filtered(order, lists), round, seat), p)
  {
    FilteredInOrder(order, lists);
    var draft := new Drafting(lists, order, catalog);
    var total := Total(lists, draft.order);
    var cap := if limit.None? || limit.value > total then total else limit.value;
    round, seat := 0, 0;
    while |draft.deck| < cap
      invariant fresh(draft) && draft.Valid()
      invariant seat <= |draft.order| && draft.table == Play(lists, draft.order, round, seat)
      invariant |draft.deck| < cap ==> seat == 0
      invariant |draft.deck| <= (if cap < 0 then 0 else cap)
      decreases cap - |draft.deck|
    {
      var progressed;
      progressed, seat := draft.Rotate(cap, round);
      if !progressed {
        AllSpent(lists, draft.order, draft.taken);
        break;
      }
      if |draft.deck| < cap {
        round, seat := round + 1, 0;
      }
    }
    DeckSize(lists, draft.order, round, seat, limit, cap);
    deck, credit, forfeits := draft.deck, draft.credit, draft.forfeits;
  }

  /** A draft that filled its cap, or took every trade, has exactly the limit's share of them. */
  lemma DeckSize(lists: Lists, order: seq<string>, round: nat, seat: nat, limit: Option<int>, cap: int)
    requires Seated(lists, order) && seat <= |order|
    requires cap == if limit.None? || limit.value > Total(lists, order) then Total(lists, order) else limit.value
    requires var deck := Play(lists, order, round, seat).deck;
             |deck| <= (if cap < 0 then 0 else cap) && (|deck| < cap ==> AllKeys(lists, order) <= Keys(deck))
    ensures |Play(lists, order, round, seat).deck| == Clamped(limit, |AllKeys(lists, order)|)
  {
    PlayIsFair(lists, order, round, seat);
    AtMostTotal(lists, order);
    CappedSize(Keys(Play(lists, order, round, seat).deck), AllKeys(lists, order), Total(lists, order), limit, cap);
  }

  lemma CappedSize(taken: set<Key>, all: set<Key>, total: nat, limit: Option<int>, cap: int)
    requires taken <= all && |all| <= total
    requires cap == if limit.None? || limit.value > total then total else limit.value
    requires |taken| <= (if cap < 0 then 0 else cap) && (|taken| < cap ==> all <= taken)
    ensures |taken| == Clamped(limit, |all|)
  {
    SubsetSize(taken, all);
    if |taken| < cap {
      assert taken == all;
    }
  }

  /** Of two drafts of the same lists, the one limited to fewer cards is the first cards of the other,
      with the same credits. */
  lemma LimitedIsPrefix(lists: Lists, order: seq<string>, limit: Option<int>, longer: Option<int>,
                        deck: seq<Card>, credit: map<nat, (string, nat)>, round: nat, seat: nat,
                        deck': seq<Card>, credit': map<nat, (string, nat)>, later: nat, laterSeat: nat)
    requires Seated(lists, order) && (longer.Some? ==> limit.Some? && limit.value <= longer.value)
    requires Drafted(lists, order, limit, deck, credit, round, seat)
    requires Drafted(lists, order, longer, deck', credit', later, laterSeat)
    ensures deck <= deck'
    ensures forall card <- deck :: card.id in credit && card.id in credit' && credit[card.id] == credit'[card.id]
  {
    ShorterIsPrefix(lists, order, round, seat, later, laterSeat);
    var picks, picks' := Play(lists, order, round, seat).deck, Play(lists, order, later, laterSeat).deck;
    forall j | 0 <= j < |deck|
      ensures deck[j] == deck'[j] && credit[deck[j].id] == credit'[deck[j].id]
    {
      assert picks[j] == picks'[j];
    }
  }

  /** Of two points of play the shorter deck is the start of the longer. */
  lemma ShorterIsPrefix(lists: Lists, order: seq<string>, round: nat, seat: nat, later: nat, laterSeat: nat)
    requires Seated(lists, order) && seat <= |order| && laterSeat <= |order|
    requires |Play(lists, order, round, seat).deck| <= |Play(lists, order, later, laterSeat).deck|
    ensures Play(lists, order, round, seat).deck <= Play(lists, order, later, laterSeat).deck
  {
    if Earlier(round, seat, later, laterSeat) {
      DeckGrows(lists, order, round, seat, later, laterSeat);
    } else {
      DeckGrows(lists, order, later, laterSeat, round, seat);
    }
  }
}
