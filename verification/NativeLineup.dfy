/**
 Native position ranges: the family of legal templates of a bounded count system, and the
 exact demand each group of positions makes on a roster.
 */
module NativeLineup {
  import opened Wrappers
  import opened FiniteSets

  const MAX_TOTAL := 32
  const MAX_POSITIONS := 9
  const MAX_VECTORS := 100000
  const MAX_TEMPLATES := 256

  datatype Bound = Bound(pos: string, lo: int, hi: int)

  datatype LineupError = InvalidLineup | FamilyTooLarge | InfeasibleLineup

  predicate DistinctPositions(bounds: seq<Bound>) {
    forall i, j | 0 <= i < j < |bounds| :: bounds[i].pos != bounds[j].pos
  }

  predicate Ranges(bounds: seq<Bound>) {
    forall b <- bounds :: 0 <= b.lo <= b.hi <= MAX_TOTAL
  }

  predicate WellFormed(bounds: seq<Bound>, total: int) {
    && bounds != [] && 1 <= total <= MAX_TOTAL
    && DistinctPositions(bounds) && |bounds| <= MAX_POSITIONS
    && Ranges(bounds)
  }

  ghost predicate Within(bounds: seq<Bound>, counts: seq<int>) {
    |counts| == |bounds| && forall i | 0 <= i < |counts| :: bounds[i].lo <= counts[i] <= bounds[i].hi
  }

  ghost predicate NonNegative(counts: seq<int>) {
    forall i | 0 <= i < |counts| :: counts[i] >= 0
  }

  function Sum(counts: seq<int>): int {
    if counts == [] then 0 else counts[0] + Sum(counts[1..])
  }

  /** The count vectors the native rules allow. */
  ghost predicate Feasible(bounds: seq<Bound>, total: int, counts: seq<int>) {
    Within(bounds, counts) && Sum(counts) == total
  }

  function Copies(pos: string, n: int): (s: seq<string>)
    ensures |s| == if n < 0 then 0 else n
    ensures forall i | 0 <= i < |s| :: s[i] == pos
  {
    if n <= 0 then [] else [pos] + Copies(pos, n - 1)
  }

  /** The template a count vector stands for. */
  function Row(bounds: seq<Bound>, counts: seq<int>): seq<string> {
    if bounds == [] || counts == [] then [] else Copies(bounds[0].pos, counts[0]) + Row(bounds[1..], counts[1..])
  }

  // ---- The Cartesian product, in the order it is walked ----

  function Vectors(bounds: seq<Bound>): seq<seq<int>>
    decreases bounds, 1
  {
    if bounds == [] then [[]] else From(bounds, bounds[0].lo)
  }

  /** The vectors whose first count is at least n. */
  function From(bounds: seq<Bound>, n: int): seq<seq<int>>
    requires bounds != []
    decreases bounds, 0, bounds[0].hi - n
  {
    if n > bounds[0].hi then [] else Prefixed(n, Vectors(bounds[1..])) + From(bounds, n + 1)
  }

  function Prefixed(n: int, vectors: seq<seq<int>>): (r: seq<seq<int>>)
    ensures |r| == |vectors| && forall i | 0 <= i < |r| :: r[i] == [n] + vectors[i]
  {
    seq(|vectors|, i requires 0 <= i < |vectors| => [n] + vectors[i])
  }

  function Volume(bounds: seq<Bound>): int {
    if bounds == [] then 1 else (bounds[0].hi - bounds[0].lo + 1) * Volume(bounds[1..])
  }

  lemma {:induction false} VectorsWithin(bounds: seq<Bound>, counts: seq<int>)
    ensures counts in Vectors(bounds) <==> Within(bounds, counts)
    decreases bounds, 1
  {
    if bounds == [] {
      assert Vectors(bounds) == [[]];
    } else {
      FromWithin(bounds, bounds[0].lo, counts);
    }
  }

  lemma {:induction false} FromWithin(bounds: seq<Bound>, n: int, counts: seq<int>)
    requires bounds != [] && n >= bounds[0].lo
    ensures counts in From(bounds, n) <==> Within(bounds, counts) && counts[0] >= n
    decreases bounds, 0, bounds[0].hi - n
  {
    if n <= bounds[0].hi {
      FromWithin(bounds, n + 1, counts);
      if counts != [] {
        VectorsWithin(bounds[1..], counts[1..]);
        PrefixedHas(n, Vectors(bounds[1..]), counts);
        WithinOn(bounds, counts);
      }
    }
  }

  lemma PrefixedHas(n: int, vectors: seq<seq<int>>, counts: seq<int>)
    requires counts != []
    ensures counts in Prefixed(n, vectors) <==> counts[0] == n && counts[1..] in vectors
  {
    assert counts == [counts[0]] + counts[1..];
    if counts[0] == n && counts[1..] in vectors {
      var i :| 0 <= i < |vectors| && vectors[i] == counts[1..];
      assert Prefixed(n, vectors)[i] == counts;
    }
  }

  lemma WithinOn(bounds: seq<Bound>, counts: seq<int>)
    requires bounds != [] && counts != []
    ensures Within(bounds, counts)
            <==> bounds[0].lo <= counts[0] <= bounds[0].hi && Within(bounds[1..], counts[1..])
  {
    if Within(bounds[1..], counts[1..]) && bounds[0].lo <= counts[0] <= bounds[0].hi {
      forall i | 0 <= i < |counts| ensures bounds[i].lo <= counts[i] <= bounds[i].hi {
        if i > 0 { assert counts[i] == counts[1..][i - 1]; }
      }
    }
    if Within(bounds, counts) {
      forall i | 0 <= i < |counts| - 1 ensures bounds[1..][i].lo <= counts[1..][i] <= bounds[1..][i].hi {}
    }
  }

  // ---- Each vector once, in lexicographic order ----

  predicate LexLess(a: seq<int>, b: seq<int>) {
    a != [] && b != [] && (a[0] < b[0] || (a[0] == b[0] && LexLess(a[1..], b[1..])))
  }

  ghost predicate Ordered(vectors: seq<seq<int>>) {
    forall i, j | 0 <= i < j < |vectors| :: LexLess(vectors[i], vectors[j])
  }

  lemma {:induction false} LexApart(a: seq<int>, b: seq<int>)
    requires LexLess(a, b)
    ensures a != b
  {
    if a[0] == b[0] {
      LexApart(a[1..], b[1..]);
    }
  }

  lemma OrderedBoth(a: seq<seq<int>>, b: seq<seq<int>>)
    requires Ordered(a) && Ordered(b) && forall v, w | v in a && w in b :: LexLess(v, w)
    ensures Ordered(a + b)
  {
  }

  lemma PrefixedOrdered(n: int, vectors: seq<seq<int>>)
    requires Ordered(vectors)
    ensures Ordered(Prefixed(n, vectors)) && forall v <- Prefixed(n, vectors) :: v != [] && v[0] == n
  {
    var r := Prefixed(n, vectors);
    forall i, j | 0 <= i < j < |r| ensures LexLess(r[i], r[j]) {
      assert r[i][1..] == vectors[i] && r[j][1..] == vectors[j];
    }
  }

  lemma {:induction false} VectorsOrdered(bounds: seq<Bound>)
    ensures Ordered(Vectors(bounds))
    decreases bounds, 1
  {
    if bounds != [] {
      FromOrdered(bounds, bounds[0].lo);
    }
  }

  lemma {:induction false} FromOrdered(bounds: seq<Bound>, n: int)
    requires bounds != []
    ensures Ordered(From(bounds, n)) && forall v <- From(bounds, n) :: v != [] && v[0] >= n
    decreases bounds, 0, bounds[0].hi - n
  {
    if n <= bounds[0].hi {
      var rest := Vectors(bounds[1..]);
      VectorsOrdered(bounds[1..]);
      PrefixedOrdered(n, rest);
      FromOrdered(bounds, n + 1);
      OrderedBoth(Prefixed(n, rest), From(bounds, n + 1));
    }
  }

  /** The volume is the number of vectors within the ranges. */
  lemma {:induction false} VolumeCounts(bounds: seq<Bound>)
    requires Ranges(bounds)
    ensures |Vectors(bounds)| == Volume(bounds)
    decreases bounds, 1
  {
    if bounds != [] {
      assert bounds[0] in bounds;
      forall b | b in bounds[1..] ensures b in bounds {}
      VolumeCounts(bounds[1..]);
      FromCounts(bounds, bounds[0].lo);
    }
  }

  lemma {:induction false} FromCounts(bounds: seq<Bound>, n: int)
    requires bounds != [] && n <= bounds[0].hi + 1
    ensures |From(bounds, n)| == (bounds[0].hi - n + 1) * |Vectors(bounds[1..])|
    decreases bounds[0].hi - n
  {
    var size := |Vectors(bounds[1..])|;
    if n <= bounds[0].hi {
      FromCounts(bounds, n + 1);
      Distributes(bounds[0].hi - n, size);
      assert |From(bounds, n)| == size + (bounds[0].hi - n) * size;
    }
  }

  lemma Distributes(k: int, size: int)
    ensures (k + 1) * size == size + k * size
  {
  }

  /** The vectors that add up to the total, in order. */
  function Summing(total: int, vectors: seq<seq<int>>): seq<seq<int>> {
    if vectors == [] then []
    else
      var last := vectors[|vectors| - 1];
      Summing(total, vectors[..|vectors| - 1]) + if Sum(last) == total then [last] else []
  }

  /** The feasible vectors, each once, in lexicographic order. */
  ghost predicate Listing(bounds: seq<Bound>, total: int, counts: seq<seq<int>>) {
    Ordered(counts) && forall v :: v in counts <==> Feasible(bounds, total, v)
  }

  /** The rows spell the vectors, one by one. */
  ghost predicate Spelled(bounds: seq<Bound>, counts: seq<seq<int>>, rows: seq<seq<string>>) {
    |rows| == |counts| && forall i | 0 <= i < |rows| :: rows[i] == Row(bounds, counts[i])
  }

  /** More than n vectors are feasible. */
  ghost predicate MoreThan(bounds: seq<Bound>, total: int, n: nat) {
    exists s: set<seq<int>> :: |s| > n && forall v <- s :: Feasible(bounds, total, v)
  }

  lemma {:induction false} SummingOrdered(total: int, vectors: seq<seq<int>>)
    requires Ordered(vectors)
    ensures Ordered(Summing(total, vectors))
    ensures forall v :: v in Summing(total, vectors) <==> v in vectors && Sum(v) == total
  {
    if vectors != [] {
      var n := |vectors| - 1;
      var init, last := vectors[..n], vectors[n];
      assert vectors == init + [last];
      SummingOrdered(total, init);
      forall v | v in Summing(total, init) ensures LexLess(v, last) { assert v in init; }
      OrderedBoth(Summing(total, init), [last]);
    }
  }

  lemma SummingLists(bounds: seq<Bound>, total: int)
    ensures Listing(bounds, total, Summing(total, Vectors(bounds)))
  {
    VectorsOrdered(bounds);
    SummingOrdered(total, Vectors(bounds));
    forall v ensures v in Summing(total, Vectors(bounds)) <==> Feasible(bounds, total, v) {
      VectorsWithin(bounds, v);
    }
  }

  lemma {:induction false} OrderedSize(vectors: seq<seq<int>>)
    requires Ordered(vectors)
    ensures |set v | v in vectors| == |vectors|
  {
    if vectors != [] {
      var n := |vectors| - 1;
      var init, last := vectors[..n], vectors[n];
      OrderedSize(init);
      forall v | v in init ensures v != last { LexApart(v, last); }
      assert (set v | v in vectors) == (set v | v in init) + {last} by { assert vectors == init + [last]; }
    }
  }

  lemma ListingCounts(bounds: seq<Bound>, total: int, counts: seq<seq<int>>, n: nat)
    requires Listing(bounds, total, counts)
    ensures MoreThan(bounds, total, n) <==> |counts| > n
  {
    OrderedSize(counts);
    var all := set v | v in counts;
    if s: set<seq<int>> :| |s| > n && forall v <- s :: Feasible(bounds, total, v) {
      SubsetSize(s, all);
    }
    assert forall v <- all :: Feasible(bounds, total, v);
  }

  lemma {:induction false} RowsSpell(bounds: seq<Bound>, total: int, vectors: seq<seq<int>>)
    ensures Spelled(bounds, Summing(total, vectors), Rows(bounds, total, vectors))
  {
    if vectors != [] {
      RowsSpell(bounds, total, vectors[..|vectors| - 1]);
    }
  }

  /** Different vectors of distinct positions spell different rows. */
  lemma RowsApart(bounds: seq<Bound>, a: seq<int>, b: seq<int>)
    requires DistinctPositions(bounds) && Ranges(bounds) && Within(bounds, a) && Within(bounds, b) && a != b
    ensures Row(bounds, a) != Row(bounds, b)
  {
    assert NonNegative(a) && NonNegative(b) by {
      forall i | 0 <= i < |bounds| ensures a[i] >= 0 && b[i] >= 0 { assert bounds[i] in bounds; }
    }
    RowMultiset(bounds, a);
    RowMultiset(bounds, b);
    var i :| 0 <= i < |a| && a[i] != b[i];
    assert multiset(Row(bounds, a))[bounds[i].pos] != multiset(Row(bounds, b))[bounds[i].pos];
  }

  /** The positions of a row come in the order of the bounds. */
  ghost predicate InBoundsOrder(bounds: seq<Bound>, row: seq<string>) {
    exists at :: Along(bounds, row, at)
  }

  ghost predicate Along(bounds: seq<Bound>, row: seq<string>, at: seq<nat>) {
    && |at| == |row| && (forall i | 0 <= i < |row| :: at[i] < |bounds| && row[i] == bounds[at[i]].pos)
    && forall i, j | 0 <= i < j < |at| :: at[i] <= at[j]
  }

  lemma {:induction false} RowInOrder(bounds: seq<Bound>, counts: seq<int>)
    ensures InBoundsOrder(bounds, Row(bounds, counts))
  {
    if bounds == [] || counts == [] {
      assert Along(bounds, [], []);
    } else {
      RowInOrder(bounds[1..], counts[1..]);
      var rest := Row(bounds[1..], counts[1..]);
      var at :| Along(bounds[1..], rest, at);
      var first := Copies(bounds[0].pos, counts[0]);
      var all: seq<nat> := seq(|first| + |at|, i requires 0 <= i < |first| + |at| =>
        if i < |first| then 0 else at[i - |first|] + 1);
      assert Along(bounds, first + rest, all);
    }
  }

  ghost predicate RowsOnce(rows: seq<seq<string>>) {
    forall i, j | 0 <= i < j < |rows| :: rows[i] != rows[j]
  }

  /** The rows as they come out: those of the feasible vectors, each once, in lexicographic order of the counts. */
  ghost predicate Family(bounds: seq<Bound>, total: int, rows: seq<seq<string>>) {
    && RowsOnce(rows) && (forall i | 0 <= i < |rows| :: InBoundsOrder(bounds, rows[i]))
    && exists counts :: Listing(bounds, total, counts) && Spelled(bounds, counts, rows)
  }

  lemma RowsAreFamily(bounds: seq<Bound>, total: int)
    requires WellFormed(bounds, total)
    ensures Family(bounds, total, Rows(bounds, total, Vectors(bounds)))
    ensures MoreThan(bounds, total, MAX_TEMPLATES) <==> |Rows(bounds, total, Vectors(bounds))| > MAX_TEMPLATES
  {
    var counts, rows := Summing(total, Vectors(bounds)), Rows(bounds, total, Vectors(bounds));
    SummingLists(bounds, total);
    RowsSpell(bounds, total, Vectors(bounds));
    ListingCounts(bounds, total, counts, MAX_TEMPLATES);
    forall i | 0 <= i < |rows| ensures InBoundsOrder(bounds, rows[i]) { RowInOrder(bounds, counts[i]); }
    forall i, j | 0 <= i < j < |rows| ensures rows[i] != rows[j] {
      assert counts[i] in counts && counts[j] in counts;
      LexApart(counts[i], counts[j]);
      RowsApart(bounds, counts[i], counts[j]);
    }
  }

  /** The rows of the vectors that add up to the total, in order. */
  function Rows(bounds: seq<Bound>, total: int, vectors: seq<seq<int>>): seq<seq<string>> {
    if vectors == [] then []
    else
      var last := vectors[|vectors| - 1];
      Rows(bounds, total, vectors[..|vectors| - 1]) + if Sum(last) == total then [Row(bounds, last)] else []
  }

  lemma {:induction false} RowsExactly(bounds: seq<Bound>, total: int, vectors: seq<seq<int>>, row: seq<string>)
    ensures row in Rows(bounds, total, vectors) <==>
            exists v :: v in vectors && Sum(v) == total && row == Row(bounds, v)
  {
    if vectors != [] {
      var init, last := vectors[..|vectors| - 1], vectors[|vectors| - 1];
      RowsExactly(bounds, total, init, row);
      assert vectors == init + [last];
      if row in Rows(bounds, total, init) {
        var v :| v in init && Sum(v) == total && row == Row(bounds, v);
        assert v in vectors;
      }
      if v :| v in vectors && Sum(v) == total && row == Row(bounds, v) {
        assert v in init || v == last;
      }
    }
  }

  /** The family of legal templates, or why there is none. */
  method Templates(bounds: seq<Bound>, total: int) returns (r: Result<seq<seq<string>>, LineupError>)
    ensures r == Err(InvalidLineup) <==> !WellFormed(bounds, total)
    ensures r == Err(InvalidLineup) <==>
              bounds == [] || total < 1 || total > 32 || |bounds| > 9
              || (exists i, j :: 0 <= i < j < |bounds| && bounds[i].pos == bounds[j].pos)
              || exists b :: b in bounds && (b.lo < 0 || b.hi < b.lo || b.hi > 32)
    ensures r.Ok? ==> 0 < |r.value| <= MAX_TEMPLATES && Volume(bounds) <= MAX_VECTORS
    ensures r.Ok? ==> r.value == Rows(bounds, total, Vectors(bounds))
    ensures r.Ok? ==> Family(bounds, total, r.value)
    ensures r.Ok? ==> forall row :: row in r.value <==> InFamily(bounds, total, row)
    ensures r == Err(InfeasibleLineup) <==>
              WellFormed(bounds, total) && Volume(bounds) <= MAX_VECTORS && Infeasible(bounds, total)
    ensures r == Err(FamilyTooLarge) <==>
              WellFormed(bounds, total) && (Volume(bounds) > MAX_VECTORS || MoreThan(bounds, total, MAX_TEMPLATES))
  {
    if !WellFormed(bounds, total) {
      return Err(InvalidLineup);
    }
    if Volume(bounds) > MAX_VECTORS {
      return Err(FamilyTooLarge);
    }
    RowsAreFamily(bounds, total);
    NoneFeasible(bounds, total);
    var vectors := Vectors(bounds);
    var rows: seq<seq<string>> := [];
    for k := 0 to |vectors|
      invariant rows == Rows(bounds, total, vectors[..k]) && |rows| <= MAX_TEMPLATES
    {
      assert vectors[..k + 1][..k] == vectors[..k];
      if Sum(vectors[k]) == total {
        rows := rows + [Row(bounds, vectors[k])];
        if |rows| > MAX_TEMPLATES {
          RowsGrow(bounds, total, vectors, k + 1);
          return Err(FamilyTooLarge);
        }
      }
    }
    assert vectors[..|vectors|] == vectors;
    if rows == [] {
      return Err(InfeasibleLineup);
    }
    return Ok(rows);
  }

  lemma NoneFeasible(bounds: seq<Bound>, total: int)
    ensures var rows := Rows(bounds, total, Vectors(bounds));
            && (forall row :: row in rows <==> InFamily(bounds, total, row))
            && (rows == [] <==> Infeasible(bounds, total))
  {
    var rows := Rows(bounds, total, Vectors(bounds));
    forall row ensures row in rows <==> InFamily(bounds, total, row) {
      FamilyRows(bounds, total, row);
    }
    if rows == [] {
      forall counts ensures !Feasible(bounds, total, counts) {
        assert Row(bounds, counts) !in rows;
      }
    } else {
      assert InFamily(bounds, total, rows[0]);
    }
  }

  ghost predicate Infeasible(bounds: seq<Bound>, total: int) {
    forall counts :: !Feasible(bounds, total, counts)
  }

  ghost predicate InFamily(bounds: seq<Bound>, total: int, row: seq<string>) {
    exists counts :: Feasible(bounds, total, counts) && row == Row(bounds, counts)
  }

  lemma FamilyRows(bounds: seq<Bound>, total: int, row: seq<string>)
    ensures row in Rows(bounds, total, Vectors(bounds)) <==> InFamily(bounds, total, row)
  {
    RowsExactly(bounds, total, Vectors(bounds), row);
    forall v ensures v in Vectors(bounds) <==> Within(bounds, v) { VectorsWithin(bounds, v); }
    if v :| v in Vectors(bounds) && Sum(v) == total && row == Row(bounds, v) {
      assert Feasible(bounds, total, v);
    }
  }

  lemma {:induction false} RowsGrow(bounds: seq<Bound>, total: int, vectors: seq<seq<int>>, k: nat)
    requires k <= |vectors|
    ensures |Rows(bounds, total, vectors[..k])| <= |Rows(bounds, total, vectors)|
    decreases |vectors|
  {
    if k < |vectors| {
      RowsGrow(bounds, total, vectors[..|vectors| - 1], k);
      assert vectors[..|vectors| - 1][..k] == vectors[..k];
    } else {
      assert vectors[..k] == vectors;
    }
  }

  // ---- Demands ----

  /** The part of a count vector that falls on the group (or, with `inside` false, off it). */
  function Weight(bounds: seq<Bound>, counts: seq<int>, group: set<string>, inside: bool): int
    requires |counts| == |bounds|
  {
    if bounds == [] then 0
    else (if (bounds[0].pos in group) == inside then counts[0] else 0)
         + Weight(bounds[1..], counts[1..], group, inside)
  }

  function Lows(bounds: seq<Bound>): (r: seq<int>)
    ensures |r| == |bounds| && forall i | 0 <= i < |r| :: r[i] == bounds[i].lo
  {
    seq(|bounds|, i requires 0 <= i < |bounds| => bounds[i].lo)
  }

  function Highs(bounds: seq<Bound>): (r: seq<int>)
    ensures |r| == |bounds| && forall i | 0 <= i < |r| :: r[i] == bounds[i].hi
  {
    seq(|bounds|, i requires 0 <= i < |bounds| => bounds[i].hi)
  }

  /** What the code computes for a group: its own lows, or what the others cannot take. */
  function Demand(bounds: seq<Bound>, total: int, group: set<string>): int {
    var own := Weight(bounds, Lows(bounds), group, true);
    var rest := total - Weight(bounds, Highs(bounds), group, false);
    if own > rest then own else rest
  }

  function Usable(bounds: seq<Bound>): set<string> {
    set b | b in bounds && b.hi != 0 :: b.pos
  }

  /** Every positive demand of a group of usable positions. */
  method Demands(bounds: seq<Bound>, total: int) returns (result: map<set<string>, int>)
    ensures forall group :: group in result <==>
              group <= Usable(bounds) && group != {} && Demand(bounds, total, group) > 0
    ensures forall group <- result :: result[group] == Demand(bounds, total, group)
  {
    result := map[];
    var groups := set group | group <= Usable(bounds) && group != {};
    ghost var all := groups;
    while groups != {}
      invariant groups <= all
      invariant forall group :: group in result <==> group in all - groups && Demand(bounds, total, group) > 0
      invariant forall group <- result :: result[group] == Demand(bounds, total, group)
      decreases groups
    {
      var group :| group in groups;
      groups := groups - {group};
      var demand := Demand(bounds, total, group);
      if demand > 0 {
        result := result[group := demand];
      }
    }
  }

  /** How many slots of a template take a position of the group. */
  function SlotsIn(row: seq<string>, group: set<string>): nat {
    if row == [] then 0 else (if row[0] in group then 1 else 0) + SlotsIn(row[1..], group)
  }

  lemma {:induction false} SlotsInConcat(a: seq<string>, b: seq<string>, group: set<string>)
    ensures SlotsIn(a + b, group) == SlotsIn(a, group) + SlotsIn(b, group)
  {
    if a == [] {
      assert a + b == b;
    } else {
      SlotsInConcat(a[1..], b, group);
      assert (a + b)[1..] == a[1..] + b;
    }
  }

  lemma {:induction false} SlotsInCopies(pos: string, n: int, group: set<string>)
    requires n >= 0
    ensures SlotsIn(Copies(pos, n), group) == if pos in group then n else 0
  {
    if n > 0 {
      SlotsInCopies(pos, n - 1, group);
      assert Copies(pos, n)[1..] == Copies(pos, n - 1);
    }
  }

  lemma {:induction false} SlotsInRow(bounds: seq<Bound>, counts: seq<int>, group: set<string>)
    requires |counts| == |bounds| && NonNegative(counts)
    ensures SlotsIn(Row(bounds, counts), group) == Weight(bounds, counts, group, true)
  {
    if bounds != [] {
      SlotsInConcat(Copies(bounds[0].pos, counts[0]), Row(bounds[1..], counts[1..]), group);
      SlotsInCopies(bounds[0].pos, counts[0], group);
      SlotsInRow(bounds[1..], counts[1..], group);
    }
  }

  lemma {:induction false} WeightsAddUp(bounds: seq<Bound>, counts: seq<int>, group: set<string>)
    requires |counts| == |bounds|
    ensures Weight(bounds, counts, group, true) + Weight(bounds, counts, group, false) == Sum(counts)
  {
    if bounds != [] {
      WeightsAddUp(bounds[1..], counts[1..], group);
    }
  }

  ghost predicate Below(a: seq<int>, b: seq<int>) {
    |a| == |b| && forall i | 0 <= i < |a| :: a[i] <= b[i]
  }

  lemma {:induction false} WeightMonotone(bounds: seq<Bound>, a: seq<int>, b: seq<int>, group: set<string>,
                                          inside: bool)
    requires |a| == |bounds| && Below(a, b)
    ensures Weight(bounds, a, group, inside) <= Weight(bounds, b, group, inside)
  {
    if bounds != [] {
      WeightMonotone(bounds[1..], a[1..], b[1..], group, inside);
    }
  }

  /** Any split of a total that each side's bounds allow is some vector's split. */
  lemma {:induction false} Fill(bounds: seq<Bound>, group: set<string>, on: int, off: int) returns (counts: seq<int>)
    requires forall b <- bounds :: b.lo <= b.hi
    requires Weight(bounds, Lows(bounds), group, true) <= on <= Weight(bounds, Highs(bounds), group, true)
    requires Weight(bounds, Lows(bounds), group, false) <= off <= Weight(bounds, Highs(bounds), group, false)
    ensures Within(bounds, counts)
    ensures Weight(bounds, counts, group, true) == on && Weight(bounds, counts, group, false) == off
  {
    if bounds == [] {
      counts := [];
    } else {
      var head, tail := bounds[0], bounds[1..];
      assert Lows(bounds)[1..] == Lows(tail) && Highs(bounds)[1..] == Highs(tail);
      var inside := head.pos in group;
      var spare := (if inside then on else off) - Weight(tail, Lows(tail), group, inside);
      assert Weight(bounds, Lows(bounds), group, inside) == head.lo + Weight(tail, Lows(tail), group, inside);
      assert Weight(bounds, Highs(bounds), group, inside) == head.hi + Weight(tail, Highs(tail), group, inside);
      assert Weight(bounds, Lows(bounds), group, !inside) == Weight(tail, Lows(tail), group, !inside);
      assert Weight(bounds, Highs(bounds), group, !inside) == Weight(tail, Highs(tail), group, !inside);
      WeightMonotone(tail, Lows(tail), Highs(tail), group, inside);
      var n := if spare < head.hi then spare else head.hi;
      var rest := Fill(tail, group, if inside then on - n else on, if inside then off else off - n);
      counts := [n] + rest;
      assert counts[1..] == rest;
      forall i | 0 <= i < |counts| ensures bounds[i].lo <= counts[i] <= bounds[i].hi {
        if i > 0 { assert bounds[i] == tail[i - 1] && counts[i] == rest[i - 1]; }
      }
    }
  }

  /** Some template exists exactly when the lows fit under the total and the highs reach it. */
  lemma FeasibleWhen(bounds: seq<Bound>, total: int)
    requires forall b <- bounds :: b.lo <= b.hi
    ensures (exists counts :: Feasible(bounds, total, counts)) <==> Sum(Lows(bounds)) <= total <= Sum(Highs(bounds))
  {
    WeightsAddUp(bounds, Lows(bounds), {});
    WeightsAddUp(bounds, Highs(bounds), {});
    forall counts: seq<int> | Within(bounds, counts) ensures Sum(Lows(bounds)) <= Sum(counts) <= Sum(Highs(bounds)) {
      SumWithin(bounds, counts);
    }
    if Sum(Lows(bounds)) <= total <= Sum(Highs(bounds)) {
      NothingInEmpty(bounds, Lows(bounds));
      NothingInEmpty(bounds, Highs(bounds));
      var counts := Fill(bounds, {}, 0, total);
      WeightsAddUp(bounds, counts, {});
      assert Feasible(bounds, total, counts);
    }
  }

  lemma {:induction false} NothingInEmpty(bounds: seq<Bound>, counts: seq<int>)
    requires |counts| == |bounds|
    ensures Weight(bounds, counts, {}, true) == 0
  {
    if bounds != [] {
      NothingInEmpty(bounds[1..], counts[1..]);
    }
  }

  lemma SumWithin(bounds: seq<Bound>, counts: seq<int>)
    requires Within(bounds, counts)
    ensures Sum(Lows(bounds)) <= Sum(counts) <= Sum(Highs(bounds))
  {
    WeightsAddUp(bounds, counts, {});
    WeightsAddUp(bounds, Lows(bounds), {});
    WeightsAddUp(bounds, Highs(bounds), {});
    WeightMonotone(bounds, Lows(bounds), counts, {}, true);
    WeightMonotone(bounds, Lows(bounds), counts, {}, false);
    WeightMonotone(bounds, counts, Highs(bounds), {}, true);
    WeightMonotone(bounds, counts, Highs(bounds), {}, false);
  }

  /** The demand is exactly the least number of the group's slots over the whole family. */
  lemma DemandIsLeast(bounds: seq<Bound>, total: int, group: set<string>)
    requires Ranges(bounds) && exists counts :: Feasible(bounds, total, counts)
    ensures forall row | InFamily(bounds, total, row) :: SlotsIn(row, group) >= Demand(bounds, total, group)
    ensures exists row | InFamily(bounds, total, row) :: SlotsIn(row, group) == Demand(bounds, total, group)
  {
    var lows, highs := Lows(bounds), Highs(bounds);
    forall row | InFamily(bounds, total, row) ensures SlotsIn(row, group) >= Demand(bounds, total, group) {
      var counts :| Feasible(bounds, total, counts) && row == Row(bounds, counts);
      SlotsInRow(bounds, counts, group);
      WeightsAddUp(bounds, counts, group);
      WeightMonotone(bounds, lows, counts, group, true);
      WeightMonotone(bounds, counts, highs, group, false);
    }
    var demand := Demand(bounds, total, group);
    FeasibleWhen(bounds, total);
    WeightsAddUp(bounds, lows, group);
    WeightsAddUp(bounds, highs, group);
    WeightMonotone(bounds, lows, highs, group, true);
    WeightMonotone(bounds, lows, highs, group, false);
    var counts := Fill(bounds, group, demand, total - demand);
    WeightsAddUp(bounds, counts, group);
    SlotsInRow(bounds, counts, group);
    assert InFamily(bounds, total, Row(bounds, counts));
  }

  // ---- Rosters of single-position players ----

  /** The players of the roster whose position is in the group. */
  function Available(bounds: seq<Bound>, roster: multiset<string>, group: set<string>): int {
    if bounds == [] then 0
    else (if bounds[0].pos in group then roster[bounds[0].pos] else 0) + Available(bounds[1..], roster, group)
  }

  /** Each slot of the row can be given its own player of its position. */
  ghost predicate Fills(roster: multiset<string>, row: seq<string>) {
    multiset(row) <= roster
  }

  ghost predicate MeetsDemands(bounds: seq<Bound>, total: int, roster: multiset<string>) {
    forall group | group <= Usable(bounds) && group != {} && Demand(bounds, total, group) > 0 ::
      Available(bounds, roster, group) >= Demand(bounds, total, group)
  }

  function Counts(bounds: seq<Bound>, roster: multiset<string>): (r: seq<int>)
    ensures |r| == |bounds| && forall i | 0 <= i < |r| :: r[i] == roster[bounds[i].pos]
  {
    seq(|bounds|, i requires 0 <= i < |bounds| => roster[bounds[i].pos])
  }

  lemma {:induction false} AvailableIsWeight(bounds: seq<Bound>, roster: multiset<string>, group: set<string>)
    ensures Available(bounds, roster, group) == Weight(bounds, Counts(bounds, roster), group, true)
  {
    if bounds != [] {
      AvailableIsWeight(bounds[1..], roster, group);
      assert Counts(bounds, roster)[1..] == Counts(bounds[1..], roster);
    }
  }

  ghost predicate Listed(bounds: seq<Bound>, p: string) {
    exists i :: 0 <= i < |bounds| && bounds[i].pos == p
  }

  lemma {:induction false} RowSize(bounds: seq<Bound>, counts: seq<int>)
    requires |counts| == |bounds| && NonNegative(counts)
    ensures |Row(bounds, counts)| == Sum(counts)
  {
    if bounds != [] {
      RowSize(bounds[1..], counts[1..]);
    }
  }

  lemma {:induction false} SlotsInIsMultiplicity(row: seq<string>, p: string)
    ensures multiset(row)[p] == SlotsIn(row, {p})
  {
    if row != [] {
      SlotsInIsMultiplicity(row[1..], p);
      assert row == [row[0]] + row[1..];
    }
  }

  /** With distinct positions, a row holds exactly counts[i] slots of position i, and no others. */
  lemma RowMultiset(bounds: seq<Bound>, counts: seq<int>)
    requires |counts| == |bounds| && DistinctPositions(bounds) && NonNegative(counts)
    ensures forall i | 0 <= i < |bounds| :: multiset(Row(bounds, counts))[bounds[i].pos] == counts[i]
    ensures forall p | p in multiset(Row(bounds, counts)) :: Listed(bounds, p)
  {
    var row := Row(bounds, counts);
    forall i | 0 <= i < |bounds| ensures multiset(row)[bounds[i].pos] == counts[i] {
      SlotsInIsMultiplicity(row, bounds[i].pos);
      SlotsInRow(bounds, counts, {bounds[i].pos});
      WeightOfOne(bounds, counts, i);
    }
    forall p | p in multiset(row) ensures Listed(bounds, p) {
      SlotsInIsMultiplicity(row, p);
      SlotsInRow(bounds, counts, {p});
      if !Listed(bounds, p) {
        WeightOfNone(bounds, counts, {p});
      }
    }
  }

  lemma FillsWhen(bounds: seq<Bound>, counts: seq<int>, roster: multiset<string>)
    requires |counts| == |bounds| && DistinctPositions(bounds) && NonNegative(counts)
    ensures Fills(roster, Row(bounds, counts)) <==> Below(counts, Counts(bounds, roster))
  {
    RowMultiset(bounds, counts);
    var row := multiset(Row(bounds, counts));
    if Below(counts, Counts(bounds, roster)) {
      forall p ensures row[p] <= roster[p] {
        if p in row {
          var i :| 0 <= i < |bounds| && bounds[i].pos == p;
        }
      }
    }
  }

  /** The demands are jointly sufficient: a roster fills some template completely exactly when
      it meets the demand of every group. */
  lemma DemandsSuffice(bounds: seq<Bound>, total: int, roster: multiset<string>)
    requires Ranges(bounds) && DistinctPositions(bounds) && exists counts :: Feasible(bounds, total, counts)
    ensures (exists row | InFamily(bounds, total, row) :: Fills(roster, row)) <==> MeetsDemands(bounds, total, roster)
  {
    if row :| InFamily(bounds, total, row) && Fills(roster, row) {
      var counts :| Feasible(bounds, total, counts) && row == Row(bounds, counts);
      FillsWhen(bounds, counts, roster);
      forall group ensures Available(bounds, roster, group) >= Demand(bounds, total, group) {
        DemandIsLeast(bounds, total, group);
        SlotsInRow(bounds, counts, group);
        AvailableIsWeight(bounds, roster, group);
        WeightMonotone(bounds, counts, Counts(bounds, roster), group, true);
      }
    }
    if MeetsDemands(bounds, total, roster) {
      var counts := FillFromRoster(bounds, total, roster);
      FillsWhen(bounds, counts, roster);
      assert InFamily(bounds, total, Row(bounds, counts));
    }
  }

  /** The bounds with each high cut to what the roster has. */
  function Capped(bounds: seq<Bound>, roster: multiset<string>): (r: seq<Bound>)
    ensures |r| == |bounds|
    ensures forall i | 0 <= i < |r| ::
              r[i] == Bound(bounds[i].pos, bounds[i].lo,
                            if roster[bounds[i].pos] < bounds[i].hi then roster[bounds[i].pos] else bounds[i].hi)
  {
    seq(|bounds|, i requires 0 <= i < |bounds| =>
        Bound(bounds[i].pos, bounds[i].lo,
              if roster[bounds[i].pos] < bounds[i].hi then roster[bounds[i].pos] else bounds[i].hi))
  }

  /** The positions the roster is short of. */
  function Scarce(bounds: seq<Bound>, roster: multiset<string>): set<string> {
    set b | b in bounds && roster[b.pos] < b.hi :: b.pos
  }

  lemma FillFromRoster(bounds: seq<Bound>, total: int, roster: multiset<string>) returns (counts: seq<int>)
    requires Ranges(bounds) && DistinctPositions(bounds) && exists counts :: Feasible(bounds, total, counts)
    requires MeetsDemands(bounds, total, roster)
    ensures Feasible(bounds, total, counts) && Below(counts, Counts(bounds, roster))
  {
    var capped := Capped(bounds, roster);
    forall i | 0 <= i < |bounds| ensures bounds[i].lo <= capped[i].hi {
      EachLowMet(bounds, total, roster, i);
    }
    CappedReaches(bounds, total, roster);
    FeasibleWhen(bounds, total);
    assert Lows(capped) == Lows(bounds);
    FeasibleWhen(capped, total);
    counts :| Feasible(capped, total, counts);
  }

  lemma EachLowMet(bounds: seq<Bound>, total: int, roster: multiset<string>, i: nat)
    requires Ranges(bounds) && DistinctPositions(bounds) && i < |bounds| && MeetsDemands(bounds, total, roster)
    ensures bounds[i].lo <= roster[bounds[i].pos]
  {
    if bounds[i].lo > 0 {
      var group := {bounds[i].pos};
      WeightOfOne(bounds, Lows(bounds), i);
      AvailableIsWeight(bounds, roster, group);
      WeightOfOne(bounds, Counts(bounds, roster), i);
      assert bounds[i] in bounds;
      assert group <= Usable(bounds);
    }
  }

  lemma {:induction false} WeightOfOne(bounds: seq<Bound>, counts: seq<int>, i: nat)
    requires |counts| == |bounds| && DistinctPositions(bounds) && i < |bounds|
    ensures Weight(bounds, counts, {bounds[i].pos}, true) == counts[i]
  {
    if i == 0 {
      WeightOfNone(bounds[1..], counts[1..], {bounds[0].pos});
    } else {
      WeightOfOne(bounds[1..], counts[1..], i - 1);
    }
  }

  lemma {:induction false} WeightOfNone(bounds: seq<Bound>, counts: seq<int>, group: set<string>)
    requires |counts| == |bounds| && forall i | 0 <= i < |bounds| :: bounds[i].pos !in group
    ensures Weight(bounds, counts, group, true) == 0
  {
    if bounds != [] {
      WeightOfNone(bounds[1..], counts[1..], group);
    }
  }

  /** The capped highs still reach the total: ask the demand of the scarce positions. */
  lemma CappedReaches(bounds: seq<Bound>, total: int, roster: multiset<string>)
    requires Ranges(bounds) && DistinctPositions(bounds) && exists counts :: Feasible(bounds, total, counts)
    requires MeetsDemands(bounds, total, roster)
    ensures total <= Sum(Highs(Capped(bounds, roster)))
  {
    var scarce, capped := Scarce(bounds, roster), Highs(Capped(bounds, roster));
    WeightsAddUp(bounds, capped, scarce);
    AvailableIsWeight(bounds, roster, scarce);
    forall i | 0 <= i < |bounds| ensures (bounds[i].pos in scarce) == (roster[bounds[i].pos] < bounds[i].hi) {
      assert bounds[i] in bounds;
      if bounds[i].pos in scarce {
        var b :| b in bounds && roster[b.pos] < b.hi && b.pos == bounds[i].pos;
        var j :| 0 <= j < |bounds| && bounds[j] == b;
        assert i == j;
      }
    }
    WeightAgrees(bounds, capped, Counts(bounds, roster), scarce, true);
    WeightAgrees(bounds, capped, Highs(bounds), scarce, false);
    assert scarce <= Usable(bounds) by {
      forall p | p in scarce ensures p in Usable(bounds) {
        var b :| b in bounds && roster[b.pos] < b.hi && b.pos == p;
      }
    }
    FeasibleWhen(bounds, total);
    WeightsAddUp(bounds, Highs(bounds), scarce);
    if scarce == {} {
      NothingInEmpty(bounds, Highs(bounds));
      NothingInEmpty(bounds, capped);
    } else {
      WeightNonnegative(bounds, Counts(bounds, roster), scarce);
    }
  }

  lemma {:induction false} WeightNonnegative(bounds: seq<Bound>, counts: seq<int>, group: set<string>)
    requires |counts| == |bounds| && NonNegative(counts)
    ensures Weight(bounds, counts, group, true) >= 0
  {
    if bounds != [] {
      WeightNonnegative(bounds[1..], counts[1..], group);
    }
  }

  lemma {:induction false} WeightAgrees(bounds: seq<Bound>, a: seq<int>, b: seq<int>, group: set<string>, inside: bool)
    requires |a| == |b| == |bounds|
    requires forall i | 0 <= i < |bounds| :: (bounds[i].pos in group) == inside ==> a[i] == b[i]
    ensures Weight(bounds, a, group, inside) == Weight(bounds, b, group, inside)
  {
    if bounds != [] {
      WeightAgrees(bounds[1..], a[1..], b[1..], group, inside);
    }
  }
}
