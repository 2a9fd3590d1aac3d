/**
 The calibration lineup's slot matching: augmenting paths over mutable `owners` and `seen`,
 proved to fill as many slots as any assignment can.
 */
module FixedLineup {
  import opened Wrappers
  import opened FiniteSets

  /** One row per slot: the player standing in it, if any. */
  type Rows = seq<Option<string>>

  /** The slots to fill, the positions each kind of slot takes, and each candidate's positions. */
  datatype Board = Board(slots: seq<string>, eligibility: map<string, set<string>>,
                         candidates: map<string, set<string>>)
  {
    /** Every configured slot is one of the known kinds. */
    predicate Known() {
      forall slot <- slots :: slot in eligibility
    }

    /** The player has a position that the slot takes. */
    predicate Fits(index: nat, pid: string)
      requires Known() && index < |slots| && pid in candidates
    {
      candidates[pid] * eligibility[slots[index]] != {}
    }

    ghost function Neighbours(index: nat): set<string>
      requires Known() && index < |slots|
    {
      set pid | pid in candidates && Fits(index, pid)
    }

    /** Every placed player is a candidate eligible for the slot, and stands in one slot only. */
    ghost predicate Legal(rows: Rows)
      requires Known()
    {
      && |rows| == |slots|
      && (forall i | 0 <= i < |rows| && rows[i].Some? :: rows[i].value in candidates && Fits(i, rows[i].value))
      && (forall i, j | 0 <= i < |rows| && 0 <= j < |rows| && rows[i].Some? && rows[i] == rows[j] :: i == j)
    }

    /** A legal assignment that no other legal assignment beats. */
    ghost predicate Maximum(rows: Rows)
      requires Known()
    {
      && Legal(rows)
      && forall other: Rows | Legal(other) :: Filled(other) <= Filled(rows)
    }

    /** No legal assignment fills the slot together with all the slots of the set. */
    ghost predicate OutOfReach(index: nat, kept: set<nat>)
      requires Known()
    {
      forall other: Rows | Legal(other) :: !(kept + {index} <= FilledSlots(other))
    }

    /** Earlier slots come first: an empty slot cannot be filled unless a filled slot before it goes empty. */
    ghost predicate EarlierFirst(rows: Rows)
      requires Known() && |rows| == |slots|
    {
      forall index: nat | index < |rows| && rows[index].None? :: OutOfReach(index, FilledSlots(rows) * Below(index))
    }

    /** Every owned player holds a slot the player fits. */
    ghost predicate Placed(owners: map<string, nat>)
      requires Known()
    {
      forall pid <- owners :: owners[pid] < |slots| && pid in Neighbours(owners[pid])
    }

    /** Players no augmenting path can leave: each is owned, and the slot it holds reaches only
        players of the set. A failed search leaves such a set behind. */
    ghost predicate Sealed(owners: map<string, nat>, players: set<string>, within: set<string>)
      requires Known()
    {
      forall p <- players ::
        p in owners && owners[p] < |slots| && Neighbours(owners[p]) <= within
    }
  }

  lemma FitsWhen(board: Board, index: nat, pid: string)
    requires board.Known() && index < |board.slots| && pid in board.candidates
    ensures board.Fits(index, pid) <==>
            exists pos :: pos in board.candidates[pid] && pos in board.eligibility[board.slots[index]]
  {
    var both := board.candidates[pid] * board.eligibility[board.slots[index]];
    if board.Fits(index, pid) {
      var pos :| pos in both;
    }
    if pos :| pos in board.candidates[pid] && pos in board.eligibility[board.slots[index]] {
      assert pos in both;
    }
  }

  ghost function FilledSlots(rows: Rows): set<nat> {
    set i: nat | i < |rows| && rows[i].Some?
  }

  ghost function Filled(rows: Rows): nat {
    |FilledSlots(rows)|
  }

  /** Outside `off`, no two players hold the same slot. */
  ghost predicate DistinctOff(owners: map<string, nat>, off: set<string>) {
    forall p, q | p in owners && q in owners && p !in off && q !in off && owners[p] == owners[q] :: p == q
  }

  ghost function SlotsOff(owners: map<string, nat>, off: set<string>): set<nat> {
    set p | p in owners && p !in off :: owners[p]
  }

  ghost predicate SameOn(before: map<string, nat>, after: map<string, nat>, players: set<string>) {
    forall p <- players :: (p in before <==> p in after) && (p in before ==> before[p] == after[p])
  }

  /** Outside `off`, exactly the slot `index` became held; inside it nothing moved. */
  ghost predicate Gained(before: map<string, nat>, after: map<string, nat>, off: set<string>, index: nat) {
    && DistinctOff(after, off)
    && SlotsOff(after, off) == SlotsOff(before, off) + {index}
    && SameOn(before, after, off)
  }

  /** After `index` searches, of which `failed` failed: the others hold their slots, and the
      sealed players are all that the failed slots reach. */
  ghost predicate Certified(board: Board, owners: map<string, nat>, index: nat,
                            failed: set<nat>, sealed: set<string>)
    requires board.Known()
  {
    && index <= |board.slots|
    && SlotsOff(owners, {}) == Below(index) - failed && failed <= Below(index)
    && board.Sealed(owners, sealed, sealed)
    && forall f <- failed :: f < |board.slots| && board.Neighbours(f) <= sealed
  }

  class Matching {
    const board: Board
    const order: seq<string>
    var owners: map<string, nat>
    var seen: set<string>

    /** `order` lists every candidate, as the caller sorted them. */
    constructor (board: Board, order: seq<string>)
      requires board.Known() && forall pid :: pid in order <==> pid in board.candidates
      ensures this.board == board && this.order == order
      ensures owners == map[] && Ordered()
    {
      this.board, this.order := board, order;
      owners, seen := map[], {};
    }

    ghost predicate Ordered() {
      board.Known() && forall pid :: pid in order <==> pid in board.candidates
    }

    /** Find the slot a player, displacing owners along an augmenting path. Success adds exactly
        `index` to the held slots; failure changes nothing and leaves `seen` sealed. No path
        enters a set that is sealed already. */
    method Place(index: nat, ghost sealed: set<string>) returns (ok: bool)
      requires Ordered() && index < |board.slots|
      requires board.Placed(owners) && seen <= board.candidates.Keys
      requires DistinctOff(owners, seen) && index !in SlotsOff(owners, seen)
      requires board.Sealed(owners, sealed, sealed)
      modifies this`owners, this`seen
      ensures board.Placed(owners) && old(seen) <= seen <= board.candidates.Keys
      ensures !ok ==> owners == old(owners) && board.Neighbours(index) <= seen
      ensures !ok ==> board.Sealed(owners, seen - old(seen), seen)
      ensures ok ==> Gained(old(owners), owners, old(seen), index)
      ensures ok ==> SameOn(old(owners), owners, sealed) && !(board.Neighbours(index) <= sealed)
      decreases board.candidates.Keys - seen
    {
      for k := 0 to |order|
        invariant owners == old(owners) && old(seen) <= seen <= board.candidates.Keys
        invariant forall j | 0 <= j < k && order[j] in board.Neighbours(index) :: order[j] in seen
        invariant board.Sealed(owners, seen - old(seen), seen)
      {
        var pid := order[k];
        if pid in seen || !board.Fits(index, pid) {
          continue;
        }
        ghost var start := seen;
        seen := seen + {pid};
        var free := true;
        if pid in owners {
          free := Place(owners[pid], sealed);
        }
        if free {
          assert pid in board.Neighbours(index);
          Augmented(old(owners), owners, old(seen), start, pid, index);
          owners := owners[pid := index];
          return true;
        }
      }
      ok := false;
    }

    /** The whole matching: a legal assignment of maximum cardinality. */
    method Run() returns (rows: Rows)
      requires Ordered() && owners == map[]
      modifies this
      ensures board.Maximum(rows) && board.EarlierFirst(rows)
    {
      ghost var failed: set<nat> := {};
      ghost var sealed: set<string> := {};
      for index := 0 to |board.slots|
        invariant board.Placed(owners) && DistinctOff(owners, {})
        invariant Certified(board, owners, index, failed, sealed)
        invariant forall f <- failed :: board.OutOfReach(f, Below(f) - failed)
      {
        seen := {};
        ghost var was := owners;
        var ok := Place(index, sealed);
        if ok {
          CertificateSurvives(board, was, owners, index, failed, sealed);
        } else {
          CertificateGrows(board, owners, index, failed, sealed, seen);
          FailedIsOutOfReach(board, owners, index, failed, sealed + seen);
          forall f | f in failed + {index} ensures Below(f) - failed == Below(f) - (failed + {index}) {}
          failed := failed + {index};
          sealed := sealed + seen;
        }
      }
      rows := ToRows();
      Deficiency(board, owners, failed, sealed, rows);
      forall index: nat | index < |rows| && rows[index].None?
        ensures board.OutOfReach(index, FilledSlots(rows) * Below(index))
      {
        assert index in failed by { assert index !in FilledSlots(rows); }
        assert FilledSlots(rows) * Below(index) == Below(index) - failed;
      }
    }

    /** `owners` turned round: the row of each slot names the player that holds it. */
    method ToRows() returns (rows: Rows)
      requires Ordered() && board.Placed(owners) && DistinctOff(owners, {})
      ensures board.Legal(rows)
      ensures FilledSlots(rows) == SlotsOff(owners, {})
      ensures forall p <- owners :: rows[owners[p]] == Some(p)
    {
      var standing: map<nat, string> := map[];
      for k := 0 to |order|
        invariant forall i <- standing :: standing[i] in owners && owners[standing[i]] == i
        invariant forall p | p in order[..k] && p in owners :: owners[p] in standing
      {
        if order[k] in owners {
          standing := standing[owners[order[k]] := order[k]];
        }
      }
      assert order[..|order|] == order;
      rows := seq(|board.slots|, i requires 0 <= i < |board.slots| => if i in standing then Some(standing[i])
                  else None);
    }
  }

  method CountFilled(rows: Rows) returns (n: nat)
    ensures n == Filled(rows)
  {
    n := 0;
    for i := 0 to |rows|
      invariant n == Filled(rows[..i])
    {
      assert FilledSlots(rows[..i + 1]) == FilledSlots(rows[..i]) + if rows[i].Some? then {i} else {};
      if rows[i].Some? {
        n := n + 1;
      }
    }
    assert rows[..|rows|] == rows;
  }

  /** A team's assignment over a family of templates: the first template whose maximum matching
      is largest, so no legal assignment of any template fills more slots. */
  method BestAssignment(family: seq<seq<string>>, eligibility: map<string, set<string>>,
                        candidates: map<string, set<string>>, order: seq<string>)
    returns (best: Rows, chosen: nat)
    requires family != [] && forall pid :: pid in order <==> pid in candidates
    requires forall template <- family :: Board(template, eligibility, candidates).Known()
    ensures chosen < |family| && Board(family[chosen], eligibility, candidates).Maximum(best)
    ensures forall template, other | template in family && Board(template, eligibility, candidates).Legal(other) ::
              Filled(other) <= Filled(best)
    ensures forall j, other | 0 <= j < chosen && Board(family[j], eligibility, candidates).Legal(other) ::
              Filled(other) < Filled(best)
  {
    best, chosen := [], 0;
    var filled: nat := 0;
    for k := 0 to |family|
      invariant k > 0 ==>
                  && chosen < k && Board(family[chosen], eligibility, candidates).Maximum(best)
                  && filled == Filled(best)
      invariant forall j, other | 0 <= j < k && Board(family[j], eligibility, candidates).Legal(other) ::
                  Filled(other) <= filled
      invariant k > 0 ==> forall j, other | 0 <= j < chosen && Board(family[j], eligibility, candidates).Legal(other) ::
                  Filled(other) < filled
    {
      var board := Board(family[k], eligibility, candidates);
      var matching := new Matching(board, order);
      var rows := matching.Run();
      var n := CountFilled(rows);
      if k == 0 || n > filled {
        best, chosen, filled := rows, k, n;
      }
    }
  }

  /** Taking `pid` for `index`, once the slot `pid` held has been moved elsewhere. */
  lemma Augmented(before: map<string, nat>, displaced: map<string, nat>, seen: set<string>, start: set<string>,
                  pid: string, index: nat)
    requires seen <= start && pid !in start
    requires DistinctOff(before, seen) && index !in SlotsOff(before, seen)
    requires pid !in before ==> displaced == before
    requires pid in before ==> Gained(before, displaced, start + {pid}, before[pid])
    ensures Gained(before, displaced[pid := index], seen, index)
  {
    var after := displaced[pid := index];
    forall p | p in after && p !in seen && p != pid
      ensures after[p] in SlotsOff(before, seen)
    {
      if pid in before && p !in start {
        assert after[p] in SlotsOff(displaced, start + {pid});
      }
    }
    forall s | s in SlotsOff(before, seen)
      ensures s in SlotsOff(after, seen)
    {
      var p :| p in before && p !in seen && before[p] == s;
      if pid in before && p !in start {
        assert s in SlotsOff(displaced, start + {pid});
        var q :| q in displaced && q !in start + {pid} && displaced[q] == s;
        assert after[q] == s;
      } else {
        assert after[p] == s;
      }
    }
    assert after[pid] == index;
    forall p, q | p in after && q in after && p !in seen && q !in start && q != pid && after[p] == after[q]
      ensures p == q
    {
      if pid in before {
        assert displaced[q] in SlotsOff(before, start + {pid}) + {before[pid]};
      }
    }
  }

  /** A later augmentation leaves the sealed players where they were, so the certificate stands. */
  lemma CertificateSurvives(board: Board, before: map<string, nat>, after: map<string, nat>, index: nat,
                            failed: set<nat>, sealed: set<string>)
    requires board.Known() && index < |board.slots| && Certified(board, before, index, failed, sealed)
    requires Gained(before, after, {}, index) && SameOn(before, after, sealed)
    ensures Certified(board, after, index + 1, failed, sealed)
  {
  }

  lemma CertificateGrows(board: Board, owners: map<string, nat>, index: nat,
                         failed: set<nat>, sealed: set<string>, seen: set<string>)
    requires board.Known() && index < |board.slots| && Certified(board, owners, index, failed, sealed)
    requires board.Neighbours(index) <= seen && board.Sealed(owners, seen, seen)
    ensures Certified(board, owners, index + 1, failed + {index}, sealed + seen)
  {
  }

  /** A slot whose search failed: it and the slots the sealed players hold outnumber the players they reach. */
  lemma FailedIsOutOfReach(board: Board, owners: map<string, nat>, index: nat,
                           failed: set<nat>, sealed: set<string>)
    requires board.Known() && index < |board.slots| && DistinctOff(owners, {})
    requires Certified(board, owners, index, failed, sealed) && board.Neighbours(index) <= sealed
    ensures board.OutOfReach(index, Below(index) - failed)
  {
    var held := set p | p in sealed :: owners[p];
    InjectionBound(sealed, owners, held);
    forall s | s in held ensures s in Below(index) - failed && board.Neighbours(s) <= sealed {
      var p :| p in sealed && owners[p] == s;
      assert s in SlotsOff(owners, {});
    }
    var tight := held + {index};
    assert |tight| == |held| + 1;
    forall other: Rows | board.Legal(other) ensures !(Below(index) - failed + {index} <= FilledSlots(other)) {
      TightLeavesOne(board, tight, sealed, other);
    }
  }

  /** Slots that reach fewer players than they are cannot all be filled. */
  lemma TightLeavesOne(board: Board, tight: set<nat>, players: set<string>, other: Rows)
    requires board.Known() && board.Legal(other) && |tight| > |players|
    requires forall i <- tight :: i < |board.slots| && board.Neighbours(i) <= players
    ensures !(tight <= FilledSlots(other))
  {
    if tight <= FilledSlots(other) {
      var player := map i | i in tight :: other[i].value;
      forall i | i in tight ensures player[i] in players { assert player[i] in board.Neighbours(i); }
      InjectionBound(tight, player, players);
    }
  }

  /** The sealed players and the failed slots certify the deficiency: the failed slots and the
      slots the sealed players hold reach the sealed players alone, so every assignment leaves
      at least as many slots empty as searches failed. */
  lemma Deficiency(board: Board, owners: map<string, nat>, failed: set<nat>, sealed: set<string>, rows: Rows)
    requires board.Known() && DistinctOff(owners, {})
    requires Certified(board, owners, |board.slots|, failed, sealed)
    requires board.Legal(rows) && FilledSlots(rows) == SlotsOff(owners, {})
    ensures board.Maximum(rows)
  {
    var held := set p | p in sealed :: owners[p];
    InjectionBound(sealed, owners, held);
    var tight := failed + held;
    forall p | p in sealed
      ensures owners[p] !in failed && owners[p] in Below(|board.slots|)
    {
      assert owners[p] in SlotsOff(owners, {});
    }
    assert |tight| == |failed| + |held|;
    forall i: nat | i in tight
      ensures i < |board.slots| && board.Neighbours(i) <= sealed
    {
      if i in held { var p :| p in sealed && owners[p] == i; }
    }
    forall other: Rows | board.Legal(other)
      ensures Filled(other) <= |board.slots| - |tight| + |sealed|
    {
      TightBound(board, tight, sealed, other);
    }
    BelowSize(|board.slots|);
    assert |Below(|board.slots|) - failed| == |board.slots| - |failed|;
  }

  /** Slots that reach only `players` can be filled at most |players| times. */
  lemma TightBound(board: Board, tight: set<nat>, players: set<string>, other: Rows)
    requires board.Known() && board.Legal(other)
    requires forall i <- tight :: i < |board.slots| && board.Neighbours(i) <= players
    ensures Filled(other) <= |board.slots| - |tight| + |players|
  {
    var filled := FilledSlots(other);
    var inside := filled * tight;
    var player := map i | i in inside :: other[i].value;
    forall i | i in inside ensures player[i] in players {
      assert player[i] in board.Neighbours(i);
    }
    InjectionBound(inside, player, players);
    var all := Below(|board.slots|);
    assert filled - tight <= all - tight;
    SubsetSize(filled - tight, all - tight);
    BelowSize(|board.slots|);
    assert |all - tight| == |all| - |tight| by { assert all * tight == tight; }
    assert |filled| == |inside| + |filled - tight| by { assert filled == inside + (filled - tight); }
  }
}
