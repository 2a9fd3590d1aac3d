/**
 From a computed fold to its writes: the fold of a session makes a plan the store accepts, and
 writing it leaves exactly the folded session.
 */
module FoldPlan {
  import opened FitFold
  import opened Store = FoldStore

  function RowOf(card: Card): Store.Row {
    Store.Row(card.position, card.answered, card.arms)
  }

  /** A session's cards as the store holds them. */
  function RowsOf(cards: seq<Card>): Store.Rows {
    if cards == [] then map[]
    else RowsOf(cards[..|cards| - 1])[cards[|cards| - 1].id := RowOf(cards[|cards| - 1])]
  }

  ghost predicate IdsApart(cards: seq<Card>) {
    forall i, j | 0 <= i < j < |cards| :: cards[i].id != cards[j].id
  }

  ghost predicate CardOf(cards: seq<Card>, id: nat, i: nat) {
    i < |cards| && cards[i].id == id
  }

  lemma {:induction false} RowsAt(cards: seq<Card>, i: nat)
    requires IdsApart(cards) && i < |cards|
    ensures cards[i].id in RowsOf(cards) && RowsOf(cards)[cards[i].id] == RowOf(cards[i])
  {
    if i < |cards| - 1 {
      RowsAt(cards[..|cards| - 1], i);
    }
  }

  lemma {:induction false} RowsFrom(cards: seq<Card>, id: nat)
    requires id in RowsOf(cards)
    ensures exists i :: CardOf(cards, id, i)
  {
    var last := |cards| - 1;
    if cards[last].id == id {
      assert CardOf(cards, id, last);
    } else {
      RowsFrom(cards[..last], id);
      var i: nat :| CardOf(cards[..last], id, i);
      assert CardOf(cards, id, i);
    }
  }

  /** The places of the moved cards: the unanswered ones of the session. */
  function PlacesOf(existing: seq<Card>, folded: seq<Card>): map<nat, int>
    requires |existing| <= |folded|
  {
    if existing == [] then map[]
    else
      var last := |existing| - 1;
      var before := PlacesOf(existing[..last], folded);
      if existing[last].answered then before else before[existing[last].id := folded[last].position]
  }

  lemma {:induction false} PlacesAt(existing: seq<Card>, folded: seq<Card>, i: nat)
    requires |existing| <= |folded| && IdsApart(existing) && i < |existing|
    ensures existing[i].id in PlacesOf(existing, folded) <==> !existing[i].answered
    ensures !existing[i].answered ==> PlacesOf(existing, folded)[existing[i].id] == folded[i].position
  {
    var last := |existing| - 1;
    if i < last {
      PlacesAt(existing[..last], folded, i);
    } else {
      PlacesMiss(existing[..last], folded, existing[i].id);
    }
  }

  lemma {:induction false} PlacesMiss(existing: seq<Card>, folded: seq<Card>, id: nat)
    requires |existing| <= |folded| && forall i | 0 <= i < |existing| :: existing[i].id != id
    ensures id !in PlacesOf(existing, folded)
  {
    if existing != [] {
      PlacesMiss(existing[..|existing| - 1], folded, id);
    }
  }

  lemma {:induction false} RowsMiss(cards: seq<Card>, id: nat)
    requires forall i | 0 <= i < |cards| :: cards[i].id != id
    ensures id !in RowsOf(cards)
  {
    if cards != [] {
      RowsMiss(cards[..|cards| - 1], id);
    }
  }

  lemma {:induction false} PlacesFrom(existing: seq<Card>, folded: seq<Card>, id: nat)
    requires |existing| <= |folded| && id in PlacesOf(existing, folded)
    ensures exists i: nat :: CardOf(existing, id, i) && !existing[i].answered
  {
    var last := |existing| - 1;
    if existing[last].id == id && !existing[last].answered {
      assert CardOf(existing, id, last);
    } else {
      PlacesFrom(existing[..last], folded, id);
      var i: nat :| CardOf(existing[..last], id, i) && !existing[..last][i].answered;
      assert CardOf(existing, id, i);
    }
  }

  /** The arms to write: those of the cards that some new card hits, and of no other need. */
  ghost predicate ArmsOf(existing: seq<Card>, folded: seq<Card>, arms: map<nat, map<string, string>>)
    requires |existing| <= |folded|
  {
    && (forall id <- arms :: exists i :: CardOf(existing, id, i))
    && forall i | 0 <= i < |existing| ::
         if existing[i].id in arms then arms[existing[i].id] == folded[i].arms else folded[i].arms == existing[i].arms
  }

  /** The computed fold is a plan the store accepts, and its writes leave the folded session. */
  lemma FoldIsWritten(names: Names, existing: seq<Card>, cards: seq<ArmCard>, newIds: seq<nat>, slots: seq<nat>,
                      folded: seq<Card>,
                      arms: map<nat, map<string, string>>)
    requires IsFold(names, existing, cards, newIds, slots, folded) && ArmsOf(existing, folded, arms)
    ensures var places, inserts := PlacesOf(existing, folded), RowsOf(folded[|existing|..]);
            && Store.Plan(RowsOf(existing), places, inserts)
            && Store.Folded(RowsOf(existing), places, arms, inserts) == RowsOf(folded)
  {
    PlacesAreABijection(names, existing, cards, newIds, slots, folded);
    SamePrefix(names, existing, cards, newIds, slots, folded);
    PlanHolds(existing, folded);
    WritesTo(existing, folded, arms);
  }

  /** The session's own cards come first, with their ids, the answered ones where they were. */
  ghost predicate Continues(existing: seq<Card>, folded: seq<Card>) {
    && |existing| <= |folded|
    && forall i | 0 <= i < |existing| ::
         && folded[i].id == existing[i].id && folded[i].answered == existing[i].answered
         && (existing[i].answered ==> folded[i].position == existing[i].position)
  }

  lemma SamePrefix(names: Names, existing: seq<Card>, cards: seq<ArmCard>, newIds: seq<nat>, slots: seq<nat>,
                   folded: seq<Card>)
    requires IsFold(names, existing, cards, newIds, slots, folded)
    ensures Continues(existing, folded)
  {
  }

  /** The card ends up at that position. */
  ghost predicate Ends(folded: seq<Card>, id: nat, position: int) {
    exists i: nat :: CardOf(folded, id, i) && folded[i].position == position
  }

  lemma EndsApart(folded: seq<Card>, a: nat, p: int, b: nat, q: int)
    requires Seated(folded) && Ends(folded, a, p) && Ends(folded, b, q)
    ensures p > 0 && (a != b ==> p != q)
  {
    var i: nat :| CardOf(folded, a, i) && folded[i].position == p;
    var j: nat :| CardOf(folded, b, j) && folded[j].position == q;
  }

  lemma RowEnds(existing: seq<Card>, folded: seq<Card>, id: nat)
    requires Seated(existing) && Continues(existing, folded) && id in RowsOf(existing)
    ensures RowsOf(existing)[id].position > 0
    ensures if id in PlacesOf(existing, folded) then Ends(folded, id, PlacesOf(existing, folded)[id])
            else Ends(folded, id, RowsOf(existing)[id].position)
  {
    RowsFrom(existing, id);
    var i: nat :| CardOf(existing, id, i);
    RowsAt(existing, i);
    PlacesAt(existing, folded, i);
    assert CardOf(folded, id, i);
  }

  lemma PlaceIsRow(existing: seq<Card>, folded: seq<Card>, id: nat)
    requires Seated(existing) && Continues(existing, folded) && id in PlacesOf(existing, folded)
    ensures id in RowsOf(existing)
  {
    PlacesFrom(existing, folded, id);
    var i: nat :| CardOf(existing, id, i) && !existing[i].answered;
    RowsAt(existing, i);
  }

  lemma AddedApart(existing: seq<Card>, folded: seq<Card>)
    requires Seated(folded) && |existing| <= |folded|
    ensures IdsApart(folded[|existing|..])
  {
    var added := folded[|existing|..];
    forall a, b | 0 <= a < b < |added| ensures added[a].id != added[b].id {
      assert folded[|existing| + a].id != folded[|existing| + b].id;
    }
  }

  lemma InsertEnds(existing: seq<Card>, folded: seq<Card>, id: nat)
    requires Seated(folded) && Continues(existing, folded) && id in RowsOf(folded[|existing|..])
    ensures id !in RowsOf(existing) && Ends(folded, id, RowsOf(folded[|existing|..])[id].position)
  {
    var added := folded[|existing|..];
    RowsFrom(added, id);
    var j: nat :| CardOf(added, id, j);
    AddedApart(existing, folded);
    RowsAt(added, j);
    assert CardOf(folded, id, |existing| + j);
    forall i | 0 <= i < |existing| ensures existing[i].id != id {
      assert folded[i].id != folded[|existing| + j].id;
    }
    RowsMiss(existing, id);
  }

  lemma PlanHolds(existing: seq<Card>, folded: seq<Card>)
    requires Seated(existing) && Seated(folded) && Continues(existing, folded)
    ensures Store.Plan(RowsOf(existing), PlacesOf(existing, folded), RowsOf(folded[|existing|..]))
  {
    var rows, places, inserts := RowsOf(existing), PlacesOf(existing, folded), RowsOf(folded[|existing|..]);
    forall id <- rows
      ensures rows[id].position > 0 && Ends(folded, id, if id in places then places[id] else rows[id].position)
    {
      RowEnds(existing, folded, id);
    }
    forall id <- places ensures id in rows && places[id] > 0 {
      PlaceIsRow(existing, folded, id);
      EndsApart(folded, id, places[id], id, places[id]);
    }
    forall id <- inserts ensures id !in rows && inserts[id].position > 0 && Ends(folded, id, inserts[id].position) {
      InsertEnds(existing, folded, id);
      EndsApart(folded, id, inserts[id].position, id, inserts[id].position);
    }
    forall a, b | a in places && b in places && a != b ensures places[a] != places[b] {
      EndsApart(folded, a, places[a], b, places[b]);
    }
    forall a, b | a in places && b in inserts ensures places[a] != inserts[b].position {
      EndsApart(folded, a, places[a], b, inserts[b].position);
    }
    forall a, b | a in inserts && b in inserts && a != b ensures inserts[a].position != inserts[b].position {
      EndsApart(folded, a, inserts[a].position, b, inserts[b].position);
    }
    forall a <- rows | a !in places
      ensures (forall b <- places :: rows[a].position != places[b]) && forall b <- inserts ::
                rows[a].position != inserts[b].position
    {
      forall b <- places ensures rows[a].position != places[b] { EndsApart(folded, a, rows[a].position, b, places[b]); }
      forall b <- inserts ensures rows[a].position != inserts[b].position {
        EndsApart(folded, a, rows[a].position, b, inserts[b].position);
      }
    }
  }

  // ---- A second fold from the same read ----

  lemma AddedRow(existing: seq<Card>, folded: seq<Card>, id: nat)
    requires Seated(folded) && Continues(existing, folded) && id in RowsOf(folded)
    ensures RowsOf(folded)[id].position > 0
    ensures (exists i: nat :: CardOf(existing, id, i) && RowsOf(folded)[id] == RowOf(folded[i]))
            || (exists k: nat :: k >= |existing| && CardOf(folded, id, k) && RowsOf(folded)[id] == RowOf(folded[k]))
  {
    RowsFrom(folded, id);
    var i: nat :| CardOf(folded, id, i);
    RowsAt(folded, i);
    if i < |existing| { assert CardOf(existing, id, i); }
  }

  /** The rows two folds of one read add, apart by id. */
  ghost predicate AddedDiffer(existing: seq<Card>, folded: seq<Card>, other: seq<Card>) {
    forall k, m | |existing| <= k < |folded| && |existing| <= m < |other| :: folded[k].id != other[m].id
  }

  /** Every row that the first fold added lies beyond the places of the second. */
  ghost predicate Beyond(existing: seq<Card>, folded: seq<Card>, other: seq<Card>) {
    forall k | |existing| <= k < |folded| :: folded[k].position > |other|
  }

  /** A place up to the second fold's total is that of a row it moves or adds, or of an answered one. */
  lemma PlaceOwner(existing: seq<Card>, other: seq<Card>, m: nat)
    requires Seated(existing) && Seated(other) && Continues(existing, other) && m < |other|
    ensures || (m < |existing| && existing[m].answered && other[m].position == existing[m].position)
            || (other[m].id in PlacesOf(existing, other) && PlacesOf(existing, other)[other[m].id] == other[m].position)
            || (other[m].id in RowsOf(other[|existing|..])
                && RowsOf(other[|existing|..])[other[m].id].position == other[m].position)
  {
    if m < |existing| {
      PlacesAt(existing, other, m);
    } else {
      AddedApart(existing, other);
      RowsAt(other[|existing|..], m - |existing|);
    }
  }

  lemma ClashesWith(existing: seq<Card>, folded: seq<Card>, other: seq<Card>, k: nat, m: nat)
    requires Seated(existing) && Seated(folded) && Seated(other) && Continues(existing, folded)
             && Continues(existing, other)
    requires |existing| <= k < |folded| && m < |other| && folded[k].position == other[m].position
    ensures !Store.Plan(RowsOf(folded), PlacesOf(existing, other), RowsOf(other[|existing|..]))
  {
    var id := folded[k].id;
    RowsAt(folded, k);
    forall i | 0 <= i < |existing| ensures existing[i].id != id { assert folded[i].id != folded[k].id; }
    PlacesMiss(existing, other, id);
    PlaceOwner(existing, other, m);
  }

  lemma RoomFor(existing: seq<Card>, folded: seq<Card>, other: seq<Card>)
    requires Seated(existing) && Seated(folded) && Seated(other) && Continues(existing, folded)
             && Continues(existing, other)
    requires AddedDiffer(existing, folded, other) && Beyond(existing, folded, other)
    ensures Store.Plan(RowsOf(folded), PlacesOf(existing, other), RowsOf(other[|existing|..]))
  {
    var rows, places, inserts := RowsOf(folded), PlacesOf(existing, other), RowsOf(other[|existing|..]);
    PlanHolds(existing, other);
    forall id <- rows ensures rows[id].position > 0 { AddedRow(existing, folded, id); }
    forall id <- places ensures id in rows {
      PlacesFrom(existing, other, id);
      var i: nat :| CardOf(existing, id, i) && !existing[i].answered;
      RowsAt(folded, i);
    }
    forall id <- inserts ensures id !in rows { InsertIsNew(existing, folded, other, id); }
    forall a <- rows | a !in places
      ensures (forall b <- places :: rows[a].position != places[b])
              && forall b <- inserts :: rows[a].position != inserts[b].position
    {
      StaysApart(existing, folded, other, a);
    }
  }

  lemma InsertIsNew(existing: seq<Card>, folded: seq<Card>, other: seq<Card>, id: nat)
    requires Seated(folded) && Seated(other) && Continues(existing, folded) && Continues(existing, other)
    requires AddedDiffer(existing, folded, other) && id in RowsOf(other[|existing|..])
    ensures id !in RowsOf(folded)
  {
    var added := other[|existing|..];
    RowsFrom(added, id);
    var j: nat :| CardOf(added, id, j);
    forall i | 0 <= i < |folded| ensures folded[i].id != id {
      if i < |existing| { assert other[i].id != other[|existing| + j].id; }
    }
    RowsMiss(folded, id);
  }

  lemma StaysApart(existing: seq<Card>, folded: seq<Card>, other: seq<Card>, a: nat)
    requires Seated(existing) && Seated(folded) && Seated(other) && Continues(existing, folded)
             && Continues(existing, other)
    requires Beyond(existing, folded, other) && a in RowsOf(folded) && a !in PlacesOf(existing, other)
    ensures forall b <- PlacesOf(existing, other) :: RowsOf(folded)[a].position != PlacesOf(existing, other)[b]
    ensures forall b <- RowsOf(other[|existing|..]) ::
              RowsOf(folded)[a].position != RowsOf(other[|existing|..])[b].position
  {
    AddedRow(existing, folded, a);
    var places, inserts := PlacesOf(existing, other), RowsOf(other[|existing|..]);
    forall b | b in places ensures Ends(other, b, places[b]) {
      PlaceIsRow(existing, other, b); RowEnds(existing, other, b);
    }
    forall b | b in inserts ensures Ends(other, b, inserts[b].position) { InsertEnds(existing, other, b); }
    if i: nat :| CardOf(existing, a, i) && RowsOf(folded)[a] == RowOf(folded[i]) {
      PlacesAt(existing, other, i);
      assert CardOf(other, a, i) && Ends(other, a, RowsOf(folded)[a].position);
      forall b | b in places ensures RowsOf(folded)[a].position != places[b] {
        EndsApart(other, a, RowsOf(folded)[a].position, b, places[b]);
      }
      forall b | b in inserts ensures RowsOf(folded)[a].position != inserts[b].position {
        InsertEnds(existing, other, b);
        RowsAt(existing, i);
        EndsApart(other, a, RowsOf(folded)[a].position, b, inserts[b].position);
      }
    } else {
      forall b, p | Ends(other, b, p) ensures p <= |other| {}
    }
  }

  /** Two folds computed from the same read: once the first is written, the second is a plan still iff every
      row the first added lies beyond the second's places; never when the second adds as many rows. Then the
      constraint on positions stops it. */
  lemma SecondFold(existing: seq<Card>, names: Names, cards: seq<ArmCard>, newIds: seq<nat>, slots: seq<nat>,
                   folded: seq<Card>,
                   names': Names, cards': seq<ArmCard>, newIds': seq<nat>, slots': seq<nat>, other: seq<Card>)
    requires IsFold(names, existing, cards, newIds, slots, folded)
             && IsFold(names', existing, cards', newIds', slots', other)
    requires AddedDiffer(existing, folded, other)
    ensures var places, inserts := PlacesOf(existing, other), RowsOf(other[|existing|..]);
            Store.Plan(RowsOf(folded), places, inserts) <==> Beyond(existing, folded, other)
    ensures |existing| < |folded| <= |other| ==> !Beyond(existing, folded, other)
  {
    PlacesAreABijection(names, existing, cards, newIds, slots, folded);
    PlacesAreABijection(names', existing, cards', newIds', slots', other);
    SamePrefix(names, existing, cards, newIds, slots, folded);
    SamePrefix(names', existing, cards', newIds', slots', other);
    if Beyond(existing, folded, other) {
      RoomFor(existing, folded, other);
    } else {
      var k: nat :| |existing| <= k < |folded| && folded[k].position <= |other|;
      assert Occupied(other, folded[k].position);
      var m: nat :| m < |other| && other[m].position == folded[k].position;
      ClashesWith(existing, folded, other, k, m);
    }
    if |existing| < |folded| <= |other| { assert folded[|existing|].position <= |folded|; }
  }

  lemma WritesTo(existing: seq<Card>, folded: seq<Card>, arms: map<nat, map<string, string>>)
    requires Seated(existing) && Seated(folded) && Continues(existing, folded) && ArmsOf(existing, folded, arms)
    ensures Store.Folded(RowsOf(existing), PlacesOf(existing, folded), arms, RowsOf(folded[|existing|..]))
              == RowsOf(folded)
  {
    var written, end :=
        Store.Folded(RowsOf(existing), PlacesOf(existing, folded), arms, RowsOf(folded[|existing|..])), RowsOf(folded);
    forall id | id in written ensures id in end { WrittenEnds(existing, folded, arms, id); }
    forall id | id in end ensures id in written && written[id] == end[id] {
      RowsFrom(folded, id);
      var i: nat :| CardOf(folded, id, i);
      RowsAt(folded, i);
      WrittenAt(existing, folded, arms, i);
    }
  }

  lemma WrittenEnds(existing: seq<Card>, folded: seq<Card>, arms: map<nat, map<string, string>>, id: nat)
    requires Seated(existing) && Seated(folded) && Continues(existing, folded)
    requires id in RowsOf(existing) || id in RowsOf(folded[|existing|..])
    ensures id in RowsOf(folded)
  {
    if id in RowsOf(existing) {
      RowsFrom(existing, id);
      var i: nat :| CardOf(existing, id, i);
      RowsAt(folded, i);
    } else {
      RowsFrom(folded[|existing|..], id);
      var j: nat :| CardOf(folded[|existing|..], id, j);
      RowsAt(folded, |existing| + j);
    }
  }

  lemma WrittenAt(existing: seq<Card>, folded: seq<Card>, arms: map<nat, map<string, string>>, i: nat)
    requires Seated(existing) && Seated(folded) && Continues(existing, folded) && ArmsOf(existing, folded, arms)
             && i < |folded|
    ensures var written :=
              Store.Folded(RowsOf(existing), PlacesOf(existing, folded), arms, RowsOf(folded[|existing|..]));
            folded[i].id in written && written[folded[i].id] == RowOf(folded[i])
  {
    var added, id := folded[|existing|..], folded[i].id;
    if i < |existing| {
      RowsAt(existing, i);
      PlacesAt(existing, folded, i);
    } else {
      AddedApart(existing, folded);
      RowsAt(added, i - |existing|);
      InsertEnds(existing, folded, id);
    }
  }
}
