/**
 The provider's min/max position limits turned into a slot list: the limits are accepted only
 when fixed slots plus one flex class mean exactly the same line-ups.
 */
module ProviderCapture {
  import opened Wrappers
  import opened NativeLineup

  const MAX_STARTERS := 16
  const MAX_LIMIT := 100

  /** A position's limit as the provider writes it: "2", "1-3", or something else. */
  datatype Limit = Malformed | Range(lo: nat, hi: nat)

  datatype LimitRow = LimitRow(pos: string, limit: Limit)

  /** The known slots and the positions each takes, in the order they are searched. */
  type Eligibility = seq<(string, set<string>)>

  /** One known slot of each name, and a dedicated slot for each position. */
  ghost predicate Dedicates(eligibility: Eligibility, positions: set<string>) {
    && (forall i, j | 0 <= i < j < |eligibility| :: eligibility[i].0 != eligibility[j].0)
    && (forall p <- positions :: (p, {p}) in eligibility)
  }

  ghost predicate Takes(eligibility: Eligibility, slot: string, pos: string) {
    exists e :: e in eligibility && e.0 == slot && pos in e.1
  }

  /** Some line-up with these position counts gives every slot a position it takes. */
  ghost predicate Accepts(eligibility: Eligibility, slots: seq<string>, lineup: multiset<string>) {
    exists choice: seq<string> :: Chosen(eligibility, slots, choice) && multiset(choice) == lineup
  }

  ghost predicate Chosen(eligibility: Eligibility, slots: seq<string>, choice: seq<string>) {
    |choice| == |slots| && forall i | 0 <= i < |slots| :: Takes(eligibility, slots[i], choice[i])
  }

  /** The provider's own rule: every position within its limits, and the total started. */
  ghost predicate NativeLegal(bounds: seq<Bound>, total: int, lineup: multiset<string>) {
    && |lineup| == total
    && (forall p | p in lineup :: Listed(bounds, p))
    && (forall i | 0 <= i < |bounds| :: bounds[i].lo <= lineup[bounds[i].pos] <= bounds[i].hi)
  }

  predicate Supported(row: LimitRow, positions: set<string>, bounds: seq<Bound>) {
    && row.limit.Range? && row.limit.lo <= row.limit.hi <= MAX_LIMIT
    && (forall i | 0 <= i < |bounds| :: bounds[i].pos != row.pos)
    && (row.pos in positions || row.limit.hi == 0)
  }

  /** The limits of the first k rows that count: those of the priced positions, as read. */
  function Limits(rows: seq<LimitRow>, positions: set<string>, k: nat): seq<Bound>
    requires k <= |rows|
  {
    if k == 0 then []
    else
      var last := rows[k - 1];
      Limits(rows, positions, k - 1)
      + if last.pos in positions && last.limit.Range? then [Bound(last.pos, last.limit.lo, last.limit.hi)] else []
  }

  ghost predicate AllSupported(rows: seq<LimitRow>, positions: set<string>) {
    forall i | 0 <= i < |rows| :: SupportedAt(rows, positions, i)
  }

  ghost predicate SupportedAt(rows: seq<LimitRow>, positions: set<string>, i: nat)
    requires i < |rows|
  {
    Supported(rows[i], positions, Limits(rows, positions, i))
  }

  /** The priced positions among the first k rows that were read. */
  lemma {:induction false} LimitsHave(rows: seq<LimitRow>, positions: set<string>, k: nat, pos: string)
    requires k <= |rows|
    ensures (exists i :: 0 <= i < |Limits(rows, positions, k)| && Limits(rows, positions, k)[i].pos == pos) <==>
            exists j :: 0 <= j < k && rows[j].pos == pos && pos in positions && rows[j].limit.Range?
  {
    if k > 0 {
      LimitsHave(rows, positions, k - 1, pos);
      var before, all, last := Limits(rows, positions, k - 1), Limits(rows, positions, k), rows[k - 1];
      if last.pos == pos && pos in positions && last.limit.Range? {
        assert all[|all| - 1].pos == pos;
      }
      if i :| 0 <= i < |before| && before[i].pos == pos { assert all[i].pos == pos; }
      if i :| 0 <= i < |all| && all[i].pos == pos { assert i < |before| ==> before[i].pos == pos; }
    }
  }

  /** Every row's limit is a range that rises to the highest limit at most, no priced position comes twice, and a
      position without a price is limited to none. */
  ghost predicate WellLimited(rows: seq<LimitRow>, positions: set<string>) {
    && (forall row <- rows ::
          row.limit.Range? && row.limit.lo <= row.limit.hi < 101 && (row.pos !in positions ==> row.limit.hi < 1))
    && forall i, j | 0 <= i < j < |rows| && rows[i].pos == rows[j].pos :: rows[i].pos !in positions
  }

  lemma AllSupportedWhen(rows: seq<LimitRow>, positions: set<string>)
    ensures AllSupported(rows, positions) <==> WellLimited(rows, positions)
  {
    forall i, pos | 0 <= i < |rows| { LimitsHave(rows, positions, i, pos); }
    if AllSupported(rows, positions) {
      forall row | row in rows
        ensures row.limit.Range? && row.limit.lo <= row.limit.hi < 101 && (row.pos !in positions ==> row.limit.hi < 1) {
        var i: nat :| i < |rows| && rows[i] == row;
        assert SupportedAt(rows, positions, i);
      }
      forall i, j | 0 <= i < j < |rows| && rows[i].pos == rows[j].pos ensures rows[i].pos !in positions {
        assert SupportedAt(rows, positions, i) && SupportedAt(rows, positions, j);
      }
    }
    if WellLimited(rows, positions) {
      forall i | 0 <= i < |rows| ensures SupportedAt(rows, positions, i) { assert rows[i] in rows; }
    }
  }

  function Flexible(bounds: seq<Bound>): set<string> {
    set i | 0 <= i < |bounds| && bounds[i].hi > bounds[i].lo :: bounds[i].pos
  }

  ghost predicate Ranged(bounds: seq<Bound>, positions: set<string>) {
    && DistinctPositions(bounds)
    && forall i | 0 <= i < |bounds| :: 0 <= bounds[i].lo <= bounds[i].hi && bounds[i].pos in positions
  }

  /** Each flexible position has room for every flex slot. */
  predicate Roomy(bounds: seq<Bound>, extra: int) {
    forall i | 0 <= i < |bounds| && bounds[i].hi > bounds[i].lo :: bounds[i].hi - bounds[i].lo >= extra
  }

  /** The fixed slots, as counts: each position's low, and nothing else. */
  ghost predicate LowsOf(bounds: seq<Bound>, low: multiset<string>) {
    && (forall i | 0 <= i < |bounds| :: low[bounds[i].pos] == bounds[i].lo)
    && forall p <- low :: Listed(bounds, p)
  }

  /** The limits leave no slots over, or leave slots one known flex class can take. */
  ghost predicate FixedPlusFlex(bounds: seq<Bound>, total: nat, eligibility: Eligibility) {
    var extra := total - Sum(Lows(bounds));
    && extra >= 0
    && (extra > 0 ==>
          && Flexible(bounds) != {} && (forall b <- bounds | b.hi > b.lo :: b.hi - b.lo >= extra)
          && exists e :: e in eligibility && e.1 == Flexible(bounds))
  }

  /** The slot list, or None when the limits are not exactly fixed slots plus one flex class. */
  method MflSlots(total: nat, rows: seq<LimitRow>, positions: set<string>, eligibility: Eligibility)
    returns (r: Option<seq<string>>)
    requires Dedicates(eligibility, positions)
    ensures r.Some? <==>
              && total <= MAX_STARTERS && AllSupported(rows, positions)
              && FixedPlusFlex(Limits(rows, positions, |rows|), total, eligibility)
    ensures r.Some? ==> |r.value| == total
    ensures r.Some? ==> forall lineup: multiset<string> ::
              Accepts(eligibility, r.value, lineup) <==> NativeLegal(Limits(rows, positions, |rows|), total, lineup)
  {
    if total > MAX_STARTERS {
      return None;
    }
    var limits := ReadLimits(rows, positions);
    if limits.None? {
      return None;
    }
    var bounds := limits.value;
    var slots := Row(bounds, Lows(bounds));
    RowSize(bounds, Lows(bounds));
    var extra := total - |slots|;
    if extra < 0 {
      return None;
    }
    var flex := "";
    if extra > 0 {
      var flexible := Flexible(bounds);
      if flexible == {} || !Roomy(bounds, extra) {
        return None;
      }
      var found := Find(eligibility, flexible);
      if found.None? {
        return None;
      }
      flex := found.value;
    }
    r := Some(slots + Copies(flex, extra));
    forall lineup: multiset<string>
      ensures Accepts(eligibility, r.value, lineup) <==> NativeLegal(bounds, total, lineup)
    {
      ExactlyNative(bounds, slots, extra, eligibility, positions, flex, lineup);
    }
  }

  /** The limits of the priced positions, or None at the first row that is not supported. */
  method ReadLimits(rows: seq<LimitRow>, positions: set<string>) returns (r: Option<seq<Bound>>)
    ensures r.Some? <==> AllSupported(rows, positions)
    ensures r.Some? ==> r.value == Limits(rows, positions, |rows|) && Ranged(r.value, positions)
  {
    var bounds: seq<Bound> := [];
    for k := 0 to |rows|
      invariant bounds == Limits(rows, positions, k) && Ranged(bounds, positions)
      invariant forall i | 0 <= i < k :: SupportedAt(rows, positions, i)
    {
      assert SupportedAt(rows, positions, k) == Supported(rows[k], positions, bounds);
      if !Supported(rows[k], positions, bounds) {
        return None;
      }
      if rows[k].pos in positions {
        bounds := bounds + [Bound(rows[k].pos, rows[k].limit.lo, rows[k].limit.hi)];
      }
    }
    return Some(bounds);
  }

  /** The first known slot that takes exactly these positions. */
  method Find(eligibility: Eligibility, positions: set<string>) returns (slot: Option<string>)
    ensures slot.Some? ==> (slot.value, positions) in eligibility
    ensures slot.None? ==> forall e <- eligibility :: e.1 != positions
  {
    for k := 0 to |eligibility|
      invariant forall i | 0 <= i < k :: eligibility[i].1 != positions
    {
      if eligibility[k].1 == positions {
        return Some(eligibility[k].0);
      }
    }
    return None;
  }

  /** Dedicated slots for the lows, plus `extra` slots of the class of the positions with room
      for all of them, accept exactly the native line-ups. */
  lemma ExactlyNative(bounds: seq<Bound>, fixed: seq<string>, extra: nat, eligibility: Eligibility,
                      positions: set<string>, flex: string, lineup: multiset<string>)
    requires Dedicates(eligibility, positions) && Ranged(bounds, positions) && fixed == Row(bounds, Lows(bounds))
    requires extra > 0 ==> (flex, Flexible(bounds)) in eligibility && Roomy(bounds, extra)
    ensures Accepts(eligibility, fixed + Copies(flex, extra), lineup) <==> NativeLegal(bounds, |fixed| + extra, lineup)
  {
    RowIsLows(bounds, positions);
    FixedPositions(bounds, fixed, positions);
    if Accepts(eligibility, fixed + Copies(flex, extra), lineup) {
      AcceptedIsNative(bounds, fixed, extra, eligibility, positions, flex, lineup);
    }
    if NativeLegal(bounds, |fixed| + extra, lineup) {
      NativeIsAccepted(bounds, fixed, extra, eligibility, positions, flex, lineup);
    }
  }

  lemma RowIsLows(bounds: seq<Bound>, positions: set<string>)
    requires Ranged(bounds, positions)
    ensures LowsOf(bounds, multiset(Row(bounds, Lows(bounds))))
  {
    RowMultiset(bounds, Lows(bounds));
  }

  lemma AcceptedIsNative(bounds: seq<Bound>, fixed: seq<string>, extra: nat, eligibility: Eligibility,
                         positions: set<string>, flex: string, lineup: multiset<string>)
    requires Dedicates(eligibility, positions) && Ranged(bounds, positions) && LowsOf(bounds, multiset(fixed))
    requires forall slot <- fixed :: slot in positions
    requires extra > 0 ==> (flex, Flexible(bounds)) in eligibility && Roomy(bounds, extra)
    requires Accepts(eligibility, fixed + Copies(flex, extra), lineup)
    ensures NativeLegal(bounds, |fixed| + extra, lineup)
  {
    var choice: seq<string> :| Chosen(eligibility, fixed + Copies(flex, extra), choice) && multiset(choice) == lineup;
    ChosenSplits(eligibility, positions, fixed, flex, Flexible(bounds), extra, choice);
    var free := choice[|fixed|..];
    assert choice == fixed + free;
    NativeWhenFlexible(bounds, extra, multiset(fixed), multiset(free));
  }

  lemma FixedPositions(bounds: seq<Bound>, fixed: seq<string>, positions: set<string>)
    requires Ranged(bounds, positions) && LowsOf(bounds, multiset(fixed))
    ensures forall slot <- fixed :: slot in positions
  {
    forall slot | slot in fixed ensures slot in positions {
      assert slot in multiset(fixed);
      var i :| 0 <= i < |bounds| && bounds[i].pos == slot;
    }
  }

  lemma NativeIsAccepted(bounds: seq<Bound>, fixed: seq<string>, extra: nat, eligibility: Eligibility,
                         positions: set<string>, flex: string, lineup: multiset<string>)
    requires Dedicates(eligibility, positions) && Ranged(bounds, positions) && LowsOf(bounds, multiset(fixed))
    requires extra > 0 ==> (flex, Flexible(bounds)) in eligibility && Roomy(bounds, extra)
    requires NativeLegal(bounds, |fixed| + extra, lineup)
    ensures Accepts(eligibility, fixed + Copies(flex, extra), lineup)
  {
    FixedPositions(bounds, fixed, positions);
    var free := NativeSpare(bounds, extra, multiset(fixed), lineup);
    var choice := fixed + free;
    assert choice[..|fixed|] == fixed && choice[|fixed|..] == free;
    ChosenSplits(eligibility, positions, fixed, flex, Flexible(bounds), extra, choice);
  }

  /** What a native line-up holds over the lows, listed. */
  lemma NativeSpare(bounds: seq<Bound>, extra: nat, low: multiset<string>, lineup: multiset<string>)
    returns (free: seq<string>)
    requires LowsOf(bounds, low) && DistinctPositions(bounds) && (extra > 0 ==> Roomy(bounds, extra))
    requires forall i | 0 <= i < |bounds| :: bounds[i].lo <= bounds[i].hi
    requires NativeLegal(bounds, |low| + extra, lineup)
    ensures |free| == extra && low + multiset(free) == lineup
    ensures forall p <- free :: p in Flexible(bounds)
  {
    forall p ensures low[p] <= lineup[p] {
      if p in low {
        var i :| 0 <= i < |bounds| && bounds[i].pos == p;
      }
    }
    var spare := lineup - low;
    assert lineup == low + spare;
    assert |lineup| == |low| + |spare|;
    free := Enumerate(spare);
    NativeWhenFlexible(bounds, extra, low, spare);
    forall p | p in free ensures p in Flexible(bounds) { assert p in multiset(free); }
  }

  /** A choice for the fixed and the flex slots is the fixed positions themselves, then any
      positions of the class. */
  lemma ChosenSplits(eligibility: Eligibility, positions: set<string>, fixed: seq<string>, flex: string,
                     flexible: set<string>, extra: nat, choice: seq<string>)
    requires Dedicates(eligibility, positions) && forall slot <- fixed :: slot in positions
    requires extra > 0 ==> (flex, flexible) in eligibility
    ensures Chosen(eligibility, fixed + Copies(flex, extra), choice) <==>
            && |choice| == |fixed| + extra && choice[..|fixed|] == fixed
            && forall p <- choice[|fixed|..] :: p in flexible
  {
    var slots := fixed + Copies(flex, extra);
    if |choice| == |slots| {
      forall i | 0 <= i < |slots|
        ensures Takes(eligibility, slots[i], choice[i]) <==>
                if i < |fixed| then choice[i] == fixed[i] else choice[i] in flexible
      {
        if i < |fixed| {
          assert slots[i] == fixed[i];
          TakesExactly(eligibility, fixed[i], {fixed[i]}, choice[i]);
        } else {
          assert slots[i] == flex;
          TakesExactly(eligibility, flex, flexible, choice[i]);
        }
      }
      forall i | 0 <= i < extra ensures choice[|fixed|..][i] == choice[|fixed| + i] {}
      forall i | |fixed| <= i < |slots| ensures choice[i] in choice[|fixed|..] {
        assert choice[|fixed|..][i - |fixed|] == choice[i];
      }
    }
  }

  /** Over the lows, a native line-up adds flexible positions only, and any such addition is native. */
  lemma NativeWhenFlexible(bounds: seq<Bound>, extra: nat, low: multiset<string>, free: multiset<string>)
    requires LowsOf(bounds, low) && DistinctPositions(bounds)
    requires forall i | 0 <= i < |bounds| :: bounds[i].lo <= bounds[i].hi
    requires |free| == extra && (extra > 0 ==> Roomy(bounds, extra))
    ensures NativeLegal(bounds, |low| + extra, low + free) <==> forall p <- free :: p in Flexible(bounds)
  {
    if NativeLegal(bounds, |low| + extra, low + free) {
      forall p | p in free ensures p in Flexible(bounds) {
        assert p in low + free;
        var i :| 0 <= i < |bounds| && bounds[i].pos == p;
        assert (low + free)[p] == bounds[i].lo + free[p];
      }
    }
    if forall p <- free :: p in Flexible(bounds) {
      forall i | 0 <= i < |bounds| ensures bounds[i].lo <= (low + free)[bounds[i].pos] <= bounds[i].hi {
        AtMostAll(free, bounds[i].pos);
        assert (low + free)[bounds[i].pos] == bounds[i].lo + free[bounds[i].pos];
      }
      forall p | p in low + free ensures Listed(bounds, p) {}
    }
  }

  lemma AtMostAll(m: multiset<string>, p: string)
    ensures m[p] <= |m|
  {
    var others := m[p := 0];
    assert m == others[p := m[p]];
  }

  lemma TakesExactly(eligibility: Eligibility, slot: string, taken: set<string>, pos: string)
    requires forall i, j | 0 <= i < j < |eligibility| :: eligibility[i].0 != eligibility[j].0
    requires (slot, taken) in eligibility
    ensures Takes(eligibility, slot, pos) <==> pos in taken
  {
    if e :| e in eligibility && e.0 == slot && pos in e.1 {
      var i :| 0 <= i < |eligibility| && eligibility[i] == e;
      var j :| 0 <= j < |eligibility| && eligibility[j] == (slot, taken);
      assert i == j;
    }
  }

  lemma {:induction false} Enumerate(m: multiset<string>) returns (s: seq<string>)
    ensures multiset(s) == m && |s| == |m|
    decreases |m|
  {
    if m == multiset{} {
      s := [];
    } else {
      var p :| p in m;
      var rest := Enumerate(m - multiset{p});
      s := [p] + rest;
    }
  }
}
