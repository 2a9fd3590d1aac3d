/**
 Folding further arms' cards into an open grading session: a trade the session already has is
 credited to its card, the others are added, and the unanswered cards are reshuffled with them.
 */
module FitFold {
  import opened Wrappers

  /** A trade as its key: the partner's id, and what each side gives. */
  datatype Trade = Trade(partner: string, give: set<string>, receive: set<string>)

  datatype ArmCard = ArmCard(arm: string, trade: Trade, provenance: string)

  type Arms = map<string, string>

  /** A session's card; it stores its partner by name. */
  datatype Card = Card(id: nat, partnerName: string, give: set<string>, receive: set<string>,
                       answered: bool, position: int, arms: Arms)

  /** The partners, in the order the catalog lists them: ids and names. */
  type Names = seq<(string, string)>

  /** The name inverted: the last id with it, or the name itself. */
  function IdOf(names: Names, name: string): string {
    if names == [] then name
    else if names[|names| - 1].1 == name then names[|names| - 1].0
    else IdOf(names[..|names| - 1], name)
  }

  function NameOf(names: Names, id: string): Option<string> {
    if names == [] then None
    else if names[|names| - 1].0 == id then Some(names[|names| - 1].1)
    else NameOf(names[..|names| - 1], id)
  }

  ghost predicate DistinctNames(names: Names) {
    forall i, j | 0 <= i < j < |names| :: names[i].0 != names[j].0 && names[i].1 != names[j].1
  }

  function KeyOf(names: Names, card: Card): Trade {
    Trade(IdOf(names, card.partnerName), card.give, card.receive)
  }

  /** With distinct names, inverting a partner's name gives the partner. */
  lemma {:induction false} NamesInvert(names: Names, id: string)
    requires DistinctNames(names) && NameOf(names, id).Some?
    ensures IdOf(names, NameOf(names, id).value) == id
  {
    var head, last := names[..|names| - 1], names[|names| - 1];
    if last.0 != id {
      NamesInvert(head, id);
      NamedBy(head, id);
      var i :| 0 <= i < |head| && head[i] == (id, NameOf(head, id).value);
      assert names[i] == head[i];
    }
  }

  /** Without distinct names, inverting gives the partner back exactly when no later one has its name. */
  lemma {:induction false} InvertsExactly(names: Names, k: nat)
    requires k < |names| && forall i, j | 0 <= i < j < |names| :: names[i].0 != names[j].0
    ensures IdOf(names, names[k].1) == names[k].0 <==> forall j | k < j < |names| :: names[j].1 != names[k].1
  {
    var head, last := names[..|names| - 1], |names| - 1;
    if k < last && names[last].1 != names[k].1 {
      InvertsExactly(head, k);
      assert forall j | k < j < last :: head[j] == names[j];
    }
  }

  /** Of two partners of one name the first is not found again. */
  lemma InvertsWrong()
    ensures var names := [("u1", "Kim"), ("u2", "Kim")];
            NameOf(names, "u1") == Some("Kim") && IdOf(names, "Kim") == "u2"
  {
    var names := [("u1", "Kim"), ("u2", "Kim")];
    assert names[..1] == [("u1", "Kim")] && [("u1", "Kim")][..0] == [];
  }

  lemma {:induction false} NamedBy(names: Names, id: string)
    requires NameOf(names, id).Some?
    ensures exists i :: 0 <= i < |names| && names[i] == (id, NameOf(names, id).value)
  {
    if names[|names| - 1].0 == id {
      assert names[|names| - 1] == (id, NameOf(names, id).value);
    } else {
      NamedBy(names[..|names| - 1], id);
      var i :| 0 <= i < |names| - 1 && names[..|names| - 1][i] == (id, NameOf(names, id).value);
      assert names[i] == (id, NameOf(names, id).value);
    }
  }

  // ---- Crediting ----

  /** The arms of a card after the new cards of its trade: what an arm already had stays. */
  function Credited(arms: Arms, trade: Trade, cards: seq<ArmCard>): Arms {
    if cards == [] then arms
    else
      var before, last := Credited(arms, trade, cards[..|cards| - 1]), cards[|cards| - 1];
      if last.trade == trade && last.arm !in before then before[last.arm := last.provenance] else before
  }

  /** The first new card of a trade by an arm. */
  ghost predicate FirstBy(cards: seq<ArmCard>, trade: Trade, arm: string, i: nat) {
    && i < |cards| && cards[i].trade == trade && cards[i].arm == arm
    && forall j | 0 <= j < i :: !(cards[j].trade == trade && cards[j].arm == arm)
  }

  /** Crediting keeps every entry there was, and gives each other arm its first card's provenance. */
  lemma {:induction false} CreditedIs(arms: Arms, trade: Trade, cards: seq<ArmCard>)
    ensures forall arm <- arms :: arm in Credited(arms, trade, cards) && Credited(arms, trade, cards)[arm] == arms[arm]
    ensures forall arm :: arm in Credited(arms, trade, cards) && arm !in arms ==>
              exists i: nat :: FirstBy(cards, trade, arm, i) && Credited(arms, trade, cards)[arm] == cards[i].provenance
    ensures forall i | 0 <= i < |cards| && cards[i].trade == trade :: cards[i].arm in Credited(arms, trade, cards)
  {
    if cards != [] {
      var head, last := cards[..|cards| - 1], |cards| - 1;
      CreditedIs(arms, trade, head);
      var before, after := Credited(arms, trade, head), Credited(arms, trade, cards);
      forall i | 0 <= i < |cards| && cards[i].trade == trade ensures cards[i].arm in after {
        if i < last { assert head[i] == cards[i]; }
      }
      forall arm | arm in after && arm !in arms
        ensures exists i: nat :: FirstBy(cards, trade, arm, i) && after[arm] == cards[i].provenance
      {
        if arm in before {
          var i: nat :| FirstBy(head, trade, arm, i) && before[arm] == head[i].provenance;
          assert FirstBy(cards, trade, arm, i);
        } else {
          forall j | 0 <= j < last ensures !(cards[j].trade == trade && cards[j].arm == arm) {
            assert head[j] == cards[j];
          }
          assert FirstBy(cards, trade, arm, last);
        }
      }
    }
  }

  /** The trades the session does not have yet, in the order they first come. */
  function Fresh(known: set<Trade>, cards: seq<ArmCard>): seq<Trade> {
    if cards == [] then []
    else
      var before, trade := Fresh(known, cards[..|cards| - 1]), cards[|cards| - 1].trade;
      if trade in known || trade in before then before else before + [trade]
  }

  lemma {:induction false} FreshIs(known: set<Trade>, cards: seq<ArmCard>)
    ensures forall i, j | 0 <= i < j < |Fresh(known, cards)| :: Fresh(known, cards)[i] != Fresh(known, cards)[j]
    ensures forall t :: t in Fresh(known, cards) <==> t !in known && exists i :: 0 <= i < |cards| && cards[i].trade == t
  {
    if cards != [] {
      var head, last := cards[..|cards| - 1], |cards| - 1;
      FreshIs(known, head);
      forall t ensures t in Fresh(known, cards)
          <==> t !in known && exists i :: 0 <= i < |cards| && cards[i].trade == t {
        if t in Fresh(known, head) {
          var i :| 0 <= i < |head| && head[i].trade == t;
          assert cards[i].trade == t;
        }
        if i :| 0 <= i < |cards| && cards[i].trade == t {
          if i < last { assert head[i].trade == t; }
        }
      }
    }
  }

  function Keys(names: Names, cards: seq<Card>): seq<Trade> {
    seq(|cards|, i requires 0 <= i < |cards| => KeyOf(names, cards[i]))
  }

  function Known(names: Names, cards: seq<Card>): set<Trade> {
    set c | c in cards :: KeyOf(names, c)
  }

  ghost predicate DistinctKeys(names: Names, cards: seq<Card>) {
    forall i, j | 0 <= i < j < |cards| :: KeyOf(names, cards[i]) != KeyOf(names, cards[j])
  }

  ghost predicate Proposed(cards: seq<ArmCard>, t: Trade) {
    exists i :: 0 <= i < |cards| && cards[i].trade == t
  }

  /** A merge so far: new arms of the cards hit, the trades to add, and theirs. */
  datatype Merging = Merging(updates: map<Trade, Arms>, added: seq<Trade>, arms: map<Trade, Arms>)
  {
    function ArmsOf(byKey: map<Trade, Card>, t: Trade): Arms {
      if t in byKey then (if t in updates then updates[t] else byKey[t].arms)
      else if t in arms then arms[t] else map[]
    }

    ghost predicate Follows(byKey: map<Trade, Card>, cards: seq<ArmCard>) {
      added == Fresh(byKey.Keys, cards) && HitsFollow(byKey, cards) && AddedFollow() && ArmsFollow(byKey, cards)
    }

    ghost predicate HitsFollow(byKey: map<Trade, Card>, cards: seq<ArmCard>) {
      forall t :: t in updates <==> t in byKey && Proposed(cards, t)
    }

    ghost predicate AddedFollow() {
      forall t :: t in arms <==> t in added
    }

    ghost predicate ArmsFollow(byKey: map<Trade, Card>, cards: seq<ArmCard>) {
      forall t :: ArmsOf(byKey, t) == Credited(if t in byKey then byKey[t].arms else map[], t, cards)
    }
  }

  function SetDefault(arms: Arms, card: ArmCard): Arms {
    if card.arm in arms then arms else arms[card.arm := card.provenance]
  }

  lemma CreditedMore(arms: Arms, t: Trade, cards: seq<ArmCard>, i: nat)
    requires i < |cards|
    ensures Credited(arms, t, cards[..i + 1]) ==
            if cards[i].trade == t then SetDefault(Credited(arms, t, cards[..i]), cards[i])
                else Credited(arms, t, cards[..i])
  {
    assert cards[..i + 1][..i] == cards[..i];
  }

  lemma ProposedMore(cards: seq<ArmCard>, t: Trade, i: nat)
    requires i < |cards|
    ensures Proposed(cards[..i + 1], t) <==> Proposed(cards[..i], t) || cards[i].trade == t
  {
    if Proposed(cards[..i], t) {
      var j :| 0 <= j < i && cards[..i][j].trade == t;
      assert cards[..i + 1][j].trade == t;
    }
    assert cards[..i + 1][i] == cards[i];
  }

  lemma FreshMore(known: set<Trade>, cards: seq<ArmCard>, i: nat)
    requires i < |cards|
    ensures var before, t := Fresh(known, cards[..i]), cards[i].trade;
            Fresh(known, cards[..i + 1]) == if t in known || t in before then before else before + [t]
  {
    assert cards[..i + 1][..i] == cards[..i];
  }

  /** Crediting one new card. */
  function CreditOne(byKey: map<Trade, Card>, m: Merging, card: ArmCard): Merging {
    var t := card.trade;
    var arms := SetDefault(m.ArmsOf(byKey, t), card);
    if t in byKey then m.(updates := m.updates[t := arms])
    else m.(added := if t in m.arms then m.added else m.added + [t], arms := m.arms[t := arms])
  }

  lemma ArmsOne(byKey: map<Trade, Card>, m: Merging, card: ArmCard)
    ensures forall t :: CreditOne(byKey, m, card).ArmsOf(byKey, t) ==
                        if t == card.trade then SetDefault(m.ArmsOf(byKey, t), card) else m.ArmsOf(byKey, t)
  {
  }

  lemma HitsMore(byKey: map<Trade, Card>, cards: seq<ArmCard>, i: nat, m: Merging)
    requires i < |cards| && m.HitsFollow(byKey, cards[..i])
    ensures CreditOne(byKey, m, cards[i]).HitsFollow(byKey, cards[..i + 1])
  {
    var m' := CreditOne(byKey, m, cards[i]);
    forall t ensures t in m'.updates <==> t in byKey && Proposed(cards[..i + 1], t) { ProposedMore(cards, t, i); }
  }

  lemma ArmsMore(byKey: map<Trade, Card>, cards: seq<ArmCard>, i: nat, m: Merging)
    requires i < |cards| && m.ArmsFollow(byKey, cards[..i])
    ensures CreditOne(byKey, m, cards[i]).ArmsFollow(byKey, cards[..i + 1])
  {
    var m' := CreditOne(byKey, m, cards[i]);
    ArmsOne(byKey, m, cards[i]);
    forall t ensures m'.ArmsOf(byKey, t) == Credited(if t in byKey then byKey[t].arms else map[], t, cards[..i + 1]) {
      CreditedMore(if t in byKey then byKey[t].arms else map[], t, cards, i);
    }
  }

  lemma AddedMore(byKey: map<Trade, Card>, m: Merging, card: ArmCard)
    requires m.AddedFollow()
    ensures CreditOne(byKey, m, card).AddedFollow()
  {
  }

  lemma MergeOne(byKey: map<Trade, Card>, cards: seq<ArmCard>, i: nat, m: Merging)
    requires i < |cards| && m.Follows(byKey, cards[..i])
    ensures CreditOne(byKey, m, cards[i]).Follows(byKey, cards[..i + 1])
  {
    FreshMore(byKey.Keys, cards, i);
    FreshIs(byKey.Keys, cards[..i]);
    HitsMore(byKey, cards, i, m);
    AddedMore(byKey, m, cards[i]);
    ArmsMore(byKey, cards, i, m);
  }

  /** The cards by their key. */
  method ByKey(names: Names, existing: seq<Card>) returns (byKey: map<Trade, Card>)
    requires DistinctKeys(names, existing)
    ensures byKey.Keys == Known(names, existing)
    ensures forall c <- existing :: KeyOf(names, c) in byKey && byKey[KeyOf(names, c)] == c
  {
    byKey := map[];
    for i := 0 to |existing|
      invariant forall t <- byKey :: t in Known(names, existing)
      invariant forall j | 0 <= j < i ::
                  KeyOf(names, existing[j]) in byKey && byKey[KeyOf(names, existing[j])] == existing[j]
    {
      byKey := byKey[KeyOf(names, existing[i]) := existing[i]];
    }
  }

  /** Credit every new card: to the card that has its trade, or to the trade to be added. */
  method Merge(byKey: map<Trade, Card>, cards: seq<ArmCard>) returns (m: Merging)
    ensures m.Follows(byKey, cards)
  {
    m := Merging(map[], [], map[]);
    for i := 0 to |cards|
      invariant m.Follows(byKey, cards[..i])
    {
      MergeOne(byKey, cards, i, m);
      var c := cards[i];
      var arms := SetDefault(m.ArmsOf(byKey, c.trade), c);
      if c.trade in byKey {
        m := m.(updates := m.updates[c.trade := arms]);
      } else {
        m := m.(added := if c.trade in m.arms then m.added else m.added + [c.trade], arms := m.arms[c.trade := arms]);
      }
    }
    assert cards[..|cards|] == cards;
  }

  // ---- Positions ----

  ghost predicate Different(ids: seq<int>) {
    forall i, j | 0 <= i < j < |ids| :: ids[i] != ids[j]
  }

  /** The places from 1 to total that no answered card has. */
  function Free(total: nat, taken: set<int>): seq<int> {
    if total == 0 then [] else Free(total - 1, taken) + if total in taken then [] else [total]
  }

  lemma {:induction false} FreeIs(total: nat, taken: set<int>)
    ensures Different(Free(total, taken))
    ensures forall p :: p in Free(total, taken) <==> 1 <= p <= total && p !in taken
  {
    if total > 0 {
      FreeIs(total - 1, taken);
    }
  }

  ghost predicate Within(taken: set<int>, total: nat) {
    forall p <- taken :: 1 <= p <= total
  }

  lemma {:induction false} FreeSize(total: nat, taken: set<int>)
    requires Within(taken, total)
    ensures |Free(total, taken)| == total - |taken|
  {
    if total == 0 {
      assert forall p :: p !in taken;
      assert taken == {};
    } else {
      FreeSize(total - 1, taken - {total});
      SameFree(total - 1, taken, total);
    }
  }

  lemma {:induction false} SameFree(total: nat, taken: set<int>, p: int)
    requires p > total
    ensures Free(total, taken - {p}) == Free(total, taken)
  {
    if total > 0 {
      SameFree(total - 1, taken, p);
    }
  }

  ghost predicate Seated(cards: seq<Card>) {
    && (forall i, j | 0 <= i < j < |cards| :: cards[i].id != cards[j].id && cards[i].position != cards[j].position)
    && forall i | 0 <= i < |cards| :: 1 <= cards[i].position <= |cards|
  }

  function Taken(cards: seq<Card>): set<int> {
    set c | c in cards && c.answered :: c.position
  }

  function Moving(cards: seq<Card>): seq<nat> {
    if cards == [] then []
    else Moving(cards[..|cards| - 1]) + if cards[|cards| - 1].answered then [] else [cards[|cards| - 1].id]
  }

  ghost predicate MovesAt(cards: seq<Card>, i: nat, id: nat) {
    i < |cards| && !cards[i].answered && cards[i].id == id
  }

  lemma {:induction false} MovingIs(cards: seq<Card>, id: nat)
    ensures id in Moving(cards) <==> exists i :: MovesAt(cards, i, id)
  {
    if cards != [] {
      var head, last := cards[..|cards| - 1], |cards| - 1;
      MovingIs(head, id);
      if id in Moving(head) {
        var i: nat :| MovesAt(head, i, id);
        assert MovesAt(cards, i, id);
      }
      if i: nat :| MovesAt(cards, i, id) {
        assert i < last ==> MovesAt(head, i, id);
      }
      if id in Moving(cards) && id !in Moving(head) {
        assert MovesAt(cards, last, id);
      }
    }
  }

  ghost predicate ApartPositions(cards: seq<Card>) {
    forall i, j | 0 <= i < j < |cards| :: cards[i].position != cards[j].position
  }

  lemma TakenMore(head: seq<Card>, last: Card)
    requires ApartPositions(head + [last])
    ensures ApartPositions(head)
    ensures Taken(head + [last]) == Taken(head) + if last.answered then {last.position} else {}
    ensures last.position !in Taken(head)
  {
    var cards := head + [last];
    forall i, j | 0 <= i < j < |head| ensures head[i].position != head[j].position {
      assert cards[i].position != cards[j].position;
    }
    forall i | 0 <= i < |head| ensures head[i].position != last.position {
      assert cards[i].position != cards[|head|].position;
    }
  }

  lemma {:induction false} MovingSize(cards: seq<Card>)
    requires ApartPositions(cards)
    ensures |Moving(cards)| == |cards| - |Taken(cards)|
  {
    if cards == [] {
      assert Taken(cards) == {};
    } else {
      var head, last := cards[..|cards| - 1], cards[|cards| - 1];
      assert cards == head + [last];
      TakenMore(head, last);
      MovingSize(head);
    }
  }

  /** Slots paired with the free places in order. */
  function Dealt(slots: seq<nat>, free: seq<int>): map<nat, int>
    requires |slots| <= |free|
  {
    if slots == [] then map[]
    else Dealt(slots[..|slots| - 1], free)[slots[|slots| - 1] := free[|slots| - 1]]
  }

  ghost predicate DifferentIds(ids: seq<nat>) {
    forall i, j | 0 <= i < j < |ids| :: ids[i] != ids[j]
  }

  lemma {:induction false} DealtIs(slots: seq<nat>, free: seq<int>)
    requires |slots| <= |free| && DifferentIds(slots)
    ensures forall k | 0 <= k < |slots| :: slots[k] in Dealt(slots, free) && Dealt(slots, free)[slots[k]] == free[k]
  {
    if slots != [] {
      var head := slots[..|slots| - 1];
      DealtIs(head, free);
      forall k | 0 <= k < |head| ensures slots[k] in Dealt(slots, free) && Dealt(slots, free)[slots[k]] == free[k] {
        assert head[k] == slots[k];
      }
    }
  }

  // ---- The folded session ----

  /** What the fold needs of its callers: fresh ids, and any arrangement of the ids to be placed. */
  ghost predicate Arranged(existing: seq<Card>, newIds: seq<nat>, slots: seq<nat>) {
    && DifferentIds(newIds) && DifferentIds(slots) && |slots| == |Moving(existing)| + |newIds|
    && (forall i, j | 0 <= i < |existing| && 0 <= j < |newIds| :: existing[i].id != newIds[j])
    && forall id :: id in slots <==> id in Moving(existing) || id in newIds
  }

  /** A card of the session after the fold. */
  function Kept(names: Names, card: Card, cards: seq<ArmCard>, position: map<nat, int>): Card {
    card.(arms := Credited(card.arms, KeyOf(names, card), cards),
          position := if card.answered || card.id !in position then card.position else position[card.id])
  }

  function Added(names: Names, t: Trade, id: nat, cards: seq<ArmCard>, position: map<nat, int>): Card {
    Card(id, if NameOf(names, t.partner).Some? then NameOf(names, t.partner).value else "", t.give, t.receive, false,
         if id in position then position[id] else 0, Credited(map[], t, cards))
  }

  ghost predicate Folded(names: Names, existing: seq<Card>, cards: seq<ArmCard>, newIds: seq<nat>,
                         position: map<nat, int>, folded: seq<Card>) {
    var added := Fresh(Known(names, existing), cards);
    && |newIds| == |added| && |folded| == |existing| + |added|
    && (forall i | 0 <= i < |existing| :: folded[i] == Kept(names, existing[i], cards, position))
    && forall j | 0 <= j < |added| :: folded[|existing| + j] == Added(names, added[j], newIds[j], cards, position)
  }

  /** Deal the places no answered card has to the slots. */
  method Deal(existing: seq<Card>, slots: seq<nat>, total: nat) returns (position: map<nat, int>)
    requires |slots| <= |Free(total, Taken(existing))|
    ensures position == Dealt(slots, Free(total, Taken(existing)))
  {
    var taken := Taken(existing);
    var free: seq<int> := [];
    for p := 1 to total + 1
      invariant free == Free(p - 1, taken)
    {
      if p !in taken {
        free := free + [p];
      }
    }
    position := map[];
    for k := 0 to |slots|
      invariant position == Dealt(slots[..k], free)
    {
      assert slots[..k + 1][..k] == slots[..k];
      position := position[slots[k] := free[k]];
    }
    assert slots[..|slots|] == slots;
  }

  lemma EnoughPlaces(existing: seq<Card>, added: nat)
    requires Seated(existing)
    ensures |Free(|existing| + added, Taken(existing))| == |Moving(existing)| + added
  {
    FreeSize(|existing| + added, Taken(existing));
    MovingSize(existing);
  }

  /** Fold the new cards into the session. */
  method AddFitArms(names: Names, existing: seq<Card>, cards: seq<ArmCard>, newIds: seq<nat>, slots: seq<nat>)
    returns (folded: seq<Card>)
    requires Seated(existing) && DistinctKeys(names, existing) && Arranged(existing, newIds, slots)
    requires |newIds| == |Fresh(Known(names, existing), cards)|
    requires forall t <- Fresh(Known(names, existing), cards) :: NameOf(names, t.partner).Some?
    ensures IsFold(names, existing, cards, newIds, slots, folded)
  {
    EnoughPlaces(existing, |newIds|);
    var places := Deal(existing, slots, |existing| + |newIds|);
    folded := Build(names, existing, cards, newIds, places);
  }

  /** The session's cards, credited and placed, and the added ones. */
  method Build(names: Names, existing: seq<Card>, cards: seq<ArmCard>, newIds: seq<nat>, places: map<nat, int>)
    returns (folded: seq<Card>)
    requires DistinctKeys(names, existing) && |newIds| == |Fresh(Known(names, existing), cards)|
    ensures Folded(names, existing, cards, newIds, places, folded)
  {
    var byKey := ByKey(names, existing);
    var m := Merge(byKey, cards);
    AddedArms(byKey, cards, m);
    var kept := KeepAll(names, existing, cards, byKey, m, places);
    var added := AddAll(names, cards, newIds, byKey.Keys, m, places);
    folded := kept + added;
    Together(names, existing, cards, newIds, places, kept, added);
  }

  lemma Together(names: Names, existing: seq<Card>, cards: seq<ArmCard>, newIds: seq<nat>, places: map<nat, int>,
                 kept: seq<Card>, added: seq<Card>)
    requires var trades := Fresh(Known(names, existing), cards);
             && |newIds| == |trades| == |added| && |kept| == |existing|
             && (forall i | 0 <= i < |existing| :: kept[i] == Kept(names, existing[i], cards, places))
             && forall j | 0 <= j < |trades| :: added[j] == Added(names, trades[j], newIds[j], cards, places)
    ensures Folded(names, existing, cards, newIds, places, kept + added)
  {
  }

  lemma AddedArms(byKey: map<Trade, Card>, cards: seq<ArmCard>, m: Merging)
    requires m.Follows(byKey, cards)
    ensures forall t <- m.added :: t in m.arms && m.arms[t] == Credited(map[], t, cards)
  {
    FreshIs(byKey.Keys, cards);
    forall t <- m.added ensures m.arms[t] == Credited(map[], t, cards) {
      assert m.ArmsOf(byKey, t) == m.arms[t];
    }
  }

  /** The session's own cards, credited and moved. */
  method KeepAll(names: Names, existing: seq<Card>, cards: seq<ArmCard>, byKey: map<Trade, Card>, m: Merging,
                 places: map<nat, int>)
    returns (kept: seq<Card>)
    requires m.Follows(byKey, cards) && forall c <- existing :: KeyOf(names, c) in byKey && byKey[KeyOf(names, c)] == c
    ensures |kept| == |existing| && forall i | 0 <= i < |existing| :: kept[i] == Kept(names, existing[i], cards, places)
  {
    kept := [];
    for i := 0 to |existing|
      invariant |kept| == i && forall k | 0 <= k < i :: kept[k] == Kept(names, existing[k], cards, places)
    {
      var card := existing[i];
      assert byKey[KeyOf(names, card)] == card;
      var at := if card.answered || card.id !in places then card.position else places[card.id];
      kept := kept + [card.(arms := m.ArmsOf(byKey, KeyOf(names, card)), position := at)];
    }
  }

  /** The cards of the trades to add. */
  method AddAll(names: Names, cards: seq<ArmCard>, newIds: seq<nat>, known: set<Trade>, m: Merging,
                places: map<nat, int>)
    returns (added: seq<Card>)
    requires m.added == Fresh(known, cards) && |newIds| == |m.added|
    requires forall t <- m.added :: t in m.arms && m.arms[t] == Credited(map[], t, cards)
    ensures |added| == |m.added| && forall j | 0 <= j < |m.added| ::
              added[j] == Added(names, m.added[j], newIds[j], cards, places)
  {
    added := [];
    for j := 0 to |m.added|
      invariant |added| == j && forall k | 0 <= k < j :: added[k] == Added(names, m.added[k], newIds[k], cards, places)
    {
      var t := m.added[j];
      assert t in m.added;
      var name := NameOf(names, t.partner);
      added := added + [Card(newIds[j], if name.Some? then name.value else "", t.give, t.receive, false,
                             if newIds[j] in places then places[newIds[j]] else 0, m.arms[t])];
    }
  }

  function PlacesLeft(existing: seq<Card>, newIds: seq<nat>): seq<int> {
    Free(|existing| + |newIds|, Taken(existing))
  }

  /** A fold of a seated session. */
  ghost predicate IsFold(names: Names, existing: seq<Card>, cards: seq<ArmCard>, newIds: seq<nat>, slots: seq<nat>,
                         folded: seq<Card>) {
    && Seated(existing) && Arranged(existing, newIds, slots) && |slots| == |PlacesLeft(existing, newIds)|
    && Folded(names, existing, cards, newIds, Dealt(slots, PlacesLeft(existing, newIds)), folded)
  }

  /** Where a card sits: an answered one where it was, another at the place its slot was dealt. */
  ghost predicate SitsAt(card: Card, slots: seq<nat>, free: seq<int>, k: nat) {
    k < |slots| && k < |free| && slots[k] == card.id && card.position == free[k]
  }

  lemma Seat(names: Names, existing: seq<Card>, cards: seq<ArmCard>, newIds: seq<nat>, slots: seq<nat>,
             folded: seq<Card>, i: nat)
    requires IsFold(names, existing, cards, newIds, slots, folded) && i < |folded|
    ensures if i < |existing| && existing[i].answered
            then folded[i].answered && folded[i].position == existing[i].position
                && existing[i].position in Taken(existing)
            else !folded[i].answered && exists k :: SitsAt(folded[i], slots, PlacesLeft(existing, newIds), k)
  {
    var free := PlacesLeft(existing, newIds);
    if i < |existing| && existing[i].answered {
      assert existing[i] in existing;
    } else {
      DealtIs(slots, free);
      var id := folded[i].id;
      if i < |existing| {
        MovingIs(existing, id);
        assert MovesAt(existing, i, id);
      } else {
        assert folded[|existing| + (i - |existing|)].id == newIds[i - |existing|];
      }
      assert id in slots;
      var k :| 0 <= k < |slots| && slots[k] == id;
      assert SitsAt(folded[i], slots, free, k);
    }
  }

  lemma IdsDiffer(names: Names, existing: seq<Card>, cards: seq<ArmCard>, newIds: seq<nat>, slots: seq<nat>,
                  folded: seq<Card>, i: nat, j: nat)
    requires IsFold(names, existing, cards, newIds, slots, folded) && i < j < |folded|
    ensures folded[i].id != folded[j].id
  {
    if i >= |existing| {
      assert folded[|existing| + (i - |existing|)].id == newIds[i - |existing|];
    }
    if j >= |existing| {
      assert folded[|existing| + (j - |existing|)].id == newIds[j - |existing|];
    }
  }

  lemma PlacesDiffer(names: Names, existing: seq<Card>, cards: seq<ArmCard>, newIds: seq<nat>, slots: seq<nat>,
                     folded: seq<Card>, i: nat, j: nat)
    requires IsFold(names, existing, cards, newIds, slots, folded) && i < j < |folded|
    ensures folded[i].position != folded[j].position
  {
    var free := PlacesLeft(existing, newIds);
    FreeIs(|existing| + |newIds|, Taken(existing));
    Seat(names, existing, cards, newIds, slots, folded, i);
    Seat(names, existing, cards, newIds, slots, folded, j);
    IdsDiffer(names, existing, cards, newIds, slots, folded, i, j);
    if !folded[i].answered {
      var k: nat :| SitsAt(folded[i], slots, free, k);
      assert free[k] in free;
    }
    if !folded[j].answered {
      var k: nat :| SitsAt(folded[j], slots, free, k);
      assert free[k] in free;
    }
  }

  lemma PlaceInRange(names: Names, existing: seq<Card>, cards: seq<ArmCard>, newIds: seq<nat>, slots: seq<nat>,
                     folded: seq<Card>, i: nat)
    requires IsFold(names, existing, cards, newIds, slots, folded) && i < |folded|
    ensures 1 <= folded[i].position <= |folded|
  {
    var free := PlacesLeft(existing, newIds);
    FreeIs(|existing| + |newIds|, Taken(existing));
    Seat(names, existing, cards, newIds, slots, folded, i);
    if !folded[i].answered {
      var k: nat :| SitsAt(folded[i], slots, free, k);
      assert free[k] in free;
    }
  }

  lemma Occupant(names: Names, existing: seq<Card>, cards: seq<ArmCard>, newIds: seq<nat>, slots: seq<nat>,
                 folded: seq<Card>, p: int)
    returns (i: nat)
    requires IsFold(names, existing, cards, newIds, slots, folded) && 1 <= p <= |folded|
    ensures i < |folded| && folded[i].position == p
  {
    var free := PlacesLeft(existing, newIds);
    FreeIs(|existing| + |newIds|, Taken(existing));
    if p in Taken(existing) {
      var c :| c in existing && c.answered && c.position == p;
      i :| 0 <= i < |existing| && existing[i] == c;
    } else {
      var k :| 0 <= k < |free| && free[k] == p;
      DealtIs(slots, free);
      var id := slots[k];
      assert id in slots;
      if id in Moving(existing) {
        MovingIs(existing, id);
        i :| MovesAt(existing, i, id);
      } else {
        var j :| 0 <= j < |newIds| && newIds[j] == id;
        i := |existing| + j;
      }
    }
  }

  ghost predicate Occupied(cards: seq<Card>, p: int) {
    exists i :: 0 <= i < |cards| && cards[i].position == p
  }

  /** The fold seats every card: the places are 1 to the total, each once, and answered cards keep theirs. */
  lemma PlacesAreABijection(names: Names, existing: seq<Card>, cards: seq<ArmCard>, newIds: seq<nat>, slots: seq<nat>,
                            folded: seq<Card>)
    requires IsFold(names, existing, cards, newIds, slots, folded)
    ensures Seated(folded)
    ensures forall p | 1 <= p <= |folded| :: Occupied(folded, p)
    ensures forall i | 0 <= i < |existing| && existing[i].answered :: folded[i].position == existing[i].position
  {
    forall i | 0 <= i < |existing| && existing[i].answered ensures folded[i].position == existing[i].position {
      Seat(names, existing, cards, newIds, slots, folded, i);
    }
    forall i | 0 <= i < |folded| ensures 1 <= folded[i].position <= |folded| {
      PlaceInRange(names, existing, cards, newIds, slots, folded, i);
    }
    forall i, j | 0 <= i < j < |folded|
      ensures folded[i].id != folded[j].id && folded[i].position != folded[j].position {
      IdsDiffer(names, existing, cards, newIds, slots, folded, i, j);
      PlacesDiffer(names, existing, cards, newIds, slots, folded, i, j);
    }
    forall p | 1 <= p <= |folded| ensures Occupied(folded, p) {
      var i := Occupant(names, existing, cards, newIds, slots, folded, p);
    }
  }

  // ---- Trades ----

  ghost predicate PartnersNamed(names: Names, cards: seq<ArmCard>) {
    forall i | 0 <= i < |cards| :: NameOf(names, cards[i].trade.partner).Some?
  }

  /** The key of a folded card: its trade. */
  lemma FoldedKey(names: Names, existing: seq<Card>, cards: seq<ArmCard>, newIds: seq<nat>, slots: seq<nat>,
                  folded: seq<Card>, i: nat)
    requires IsFold(names, existing, cards, newIds, slots, folded) && i < |folded|
    requires DistinctNames(names) && PartnersNamed(names, cards)
    ensures var added := Fresh(Known(names, existing), cards);
            KeyOf(names, folded[i]) == if i < |existing| then KeyOf(names, existing[i]) else added[i - |existing|]
  {
    var added := Fresh(Known(names, existing), cards);
    if i >= |existing| {
      var j := i - |existing|;
      assert folded[|existing| + j]
             == Added(names, added[j], newIds[j], cards, Dealt(slots, PlacesLeft(existing, newIds)));
      FreshIs(Known(names, existing), cards);
      assert added[j] in added;
      var c :| 0 <= c < |cards| && cards[c].trade == added[j];
      NamesInvert(names, added[j].partner);
    }
  }

  /** No two cards of the folded session share a trade, by partner id or by partner name. */
  lemma TradesStayDistinct(names: Names, existing: seq<Card>, cards: seq<ArmCard>, newIds: seq<nat>, slots: seq<nat>,
                           folded: seq<Card>)
    requires IsFold(names, existing, cards, newIds, slots, folded)
    requires DistinctNames(names) && PartnersNamed(names, cards) && DistinctKeys(names, existing)
    ensures DistinctKeys(names, folded)
    ensures forall i, j | 0 <= i < j < |folded| ::
              folded[i].partnerName != folded[j].partnerName || folded[i].give != folded[j].give
                  || folded[i].receive != folded[j].receive
  {
    FreshIs(Known(names, existing), cards);
    var added := Fresh(Known(names, existing), cards);
    forall i, j | 0 <= i < j < |folded| ensures KeyOf(names, folded[i]) != KeyOf(names, folded[j]) {
      FoldedKey(names, existing, cards, newIds, slots, folded, i);
      FoldedKey(names, existing, cards, newIds, slots, folded, j);
      if i < |existing| <= j {
        assert existing[i] in existing && KeyOf(names, existing[i]) in Known(names, existing);
        assert added[j - |existing|] in added;
      }
    }
  }

  /** Each new card is credited to exactly one card of the folded session: the one of its trade. */
  lemma CreditedOnce(names: Names, existing: seq<Card>, cards: seq<ArmCard>, newIds: seq<nat>, slots: seq<nat>,
                     folded: seq<Card>, c: nat)
    requires IsFold(names, existing, cards, newIds, slots, folded) && c < |cards|
    requires DistinctNames(names) && PartnersNamed(names, cards) && DistinctKeys(names, existing)
    ensures exists i ::
              && 0 <= i < |folded| && KeyOf(names, folded[i]) == cards[c].trade && cards[c].arm in folded[i].arms
              && forall j | 0 <= j < |folded| && KeyOf(names, folded[j]) == cards[c].trade :: j == i
  {
    TradesStayDistinct(names, existing, cards, newIds, slots, folded);
    var i := CreditedAt(names, existing, cards, newIds, slots, folded, c);
    assert KeyOf(names, folded[i]) == cards[c].trade;
  }

  /** The card that a new card is credited to. */
  lemma CreditedAt(names: Names, existing: seq<Card>, cards: seq<ArmCard>, newIds: seq<nat>, slots: seq<nat>,
                   folded: seq<Card>, c: nat)
    returns (i: nat)
    requires IsFold(names, existing, cards, newIds, slots, folded) && c < |cards|
    requires DistinctNames(names) && PartnersNamed(names, cards)
    ensures i < |folded| && KeyOf(names, folded[i]) == cards[c].trade && cards[c].arm in folded[i].arms
  {
    var t, added := cards[c].trade, Fresh(Known(names, existing), cards);
    FreshIs(Known(names, existing), cards);
    if t in Known(names, existing) {
      i := KnownAt(names, existing, t);
      KeptCredits(names, existing, cards, newIds, slots, folded, c, i);
    } else {
      assert t in added;
      var j :| 0 <= j < |added| && added[j] == t;
      i := |existing| + j;
      AddedCredits(names, existing, cards, newIds, slots, folded, c, j);
    }
    FoldedKey(names, existing, cards, newIds, slots, folded, i);
  }

  lemma KnownAt(names: Names, existing: seq<Card>, t: Trade) returns (i: nat)
    requires t in Known(names, existing)
    ensures i < |existing| && KeyOf(names, existing[i]) == t
  {
    var card :| card in existing && KeyOf(names, card) == t;
    i :| 0 <= i < |existing| && existing[i] == card;
  }

  lemma KeptCredits(names: Names, existing: seq<Card>, cards: seq<ArmCard>, newIds: seq<nat>, slots: seq<nat>,
                    folded: seq<Card>, c: nat, i: nat)
    requires IsFold(names, existing, cards, newIds, slots, folded) && c < |cards|
    requires i < |existing| && KeyOf(names, existing[i]) == cards[c].trade
    ensures i < |folded| && cards[c].arm in folded[i].arms
  {
    CreditedIs(existing[i].arms, cards[c].trade, cards);
  }

  lemma AddedCredits(names: Names, existing: seq<Card>, cards: seq<ArmCard>, newIds: seq<nat>, slots: seq<nat>,
                     folded: seq<Card>, c: nat, j: nat)
    requires IsFold(names, existing, cards, newIds, slots, folded) && c < |cards|
    requires j < |Fresh(Known(names, existing), cards)| && Fresh(Known(names, existing), cards)[j] == cards[c].trade
    ensures |existing| + j < |folded| && cards[c].arm in folded[|existing| + j].arms
  {
    CreditedIs(map[], cards[c].trade, cards);
    assert folded[|existing| + j]
           == Added(names, cards[c].trade, newIds[j], cards, Dealt(slots, PlacesLeft(existing, newIds)));
  }
}
