/**
 Blending a market board into the pool's values: the market's order is laid on the pool's own
 value curve, mixed in by a weight, and the top is anchored. Quarterbacks are then compressed
 under a cap. Values are exact reals; the final rounding is not modelled.
 */
module ConsensusBlend {
  const VALUE_MAX := 10000.0

  type Values = map<string, real>

  ghost predicate Distinct(keys: seq<string>) {
    forall i, j | 0 <= i < j < |keys| :: keys[i] != keys[j]
  }

  /** The keys by falling value. */
  ghost predicate Falling(values: Values, order: seq<string>) {
    && Distinct(order) && (forall k :: k in order <==> k in values)
    && forall i, j | 0 <= i < j < |order| :: values[order[i]] >= values[order[j]]
  }

  /** The matched players by falling market value, equal ones by falling pool value. */
  ghost predicate MarketOrder(values: Values, market: Values, matched: seq<string>) {
    && Distinct(matched) && (forall k <- matched :: k in values && k in market)
    && forall i, j | 0 <= i < j < |matched| ::
         || market[matched[i]] > market[matched[j]]
         || (market[matched[i]] == market[matched[j]] && values[matched[i]] >= values[matched[j]])
  }

  function Mix(weight: real, own: real, other: real): real {
    (1.0 - weight) * own + weight * other
  }

  /** Mixed values: the i-th matched player gets a share of the i-th value of the pool's curve. */
  ghost predicate Mixed(values: Values, matched: seq<string>, order: seq<string>, weight: real, mixed: Values) {
    && mixed.Keys == values.Keys && |matched| <= |order|
    && (forall k <- matched :: k in values) && (forall k <- order :: k in values)
    && (forall i | 0 <= i < |matched| :: mixed[matched[i]] == Mix(weight, values[matched[i]], values[order[i]]))
    && forall k <- values | k !in matched :: mixed[k] == values[k]
  }

  /** The largest value of the map. */
  ghost predicate IsMax(values: Values, max: real) {
    (exists k :: k in values && values[k] == max) && forall k <- values :: values[k] <= max
  }

  method Max(values: Values, order: seq<string>) returns (max: real)
    requires order != [] && forall k :: k in order <==> k in values
    ensures IsMax(values, max)
  {
    max := values[order[0]];
    for i := 1 to |order|
      invariant exists k :: k in values && values[k] == max
      invariant forall j | 0 <= j < i :: values[order[j]] <= max
    {
      if values[order[i]] > max {
        max := values[order[i]];
      }
    }
  }

  function Least(a: real, b: real): real {
    if a <= b then a else b
  }

  function Most(a: real, b: real): real {
    if a >= b then a else b
  }

  lemma MixBetween(weight: real, own: real, other: real, low: real, high: real)
    requires 0.0 <= weight <= 1.0 && low <= own <= high && low <= other <= high
    ensures low <= Mix(weight, own, other) <= high
  {
    MixMonotone(weight, low, own, low, other);
    MixMonotone(weight, own, high, other, high);
    assert Mix(weight, low, low) == low && Mix(weight, high, high) == high;
  }

  lemma MixMonotone(weight: real, own: real, own': real, other: real, other': real)
    requires 0.0 <= weight <= 1.0 && own <= own' && other <= other'
    ensures Mix(weight, own, other) <= Mix(weight, own', other')
  {
    Product(1.0 - weight, own' - own);
    Product(weight, other' - other);
  }

  lemma Product(x: real, y: real)
    requires x >= 0.0 && y >= 0.0
    ensures x * y >= 0.0
  {
  }

  lemma MatchedFew(values: Values, order: seq<string>, matched: seq<string>)
    requires Falling(values, order) && Distinct(matched) && forall k <- matched :: k in values
    ensures |matched| <= |order|
  {
    KeysBound(matched, order);
  }

  lemma Place(keys: seq<string>, k: string) returns (i: nat)
    requires k in keys
    ensures i < |keys| && keys[i] == k
  {
    i :| 0 <= i < |keys| && keys[i] == k;
  }

  lemma WithoutOne(keys: seq<string>, j: nat)
    requires j < |keys| && Distinct(keys)
    ensures var rest := keys[..j] + keys[j + 1..];
            Distinct(rest) && forall k :: k in rest <==> k in keys && k != keys[j]
  {
    var rest := keys[..j] + keys[j + 1..];
    forall k ensures k in rest <==> k in keys && k != keys[j] {
      if k in keys {
        var m := Place(keys, k);
        if m < j { assert rest[m] == k; } else if m > j { assert rest[m - 1] == k; }
      }
      if k in rest {
        var m := Place(rest, k);
        assert k == keys[if m < j then m else m + 1];
      }
    }
  }

  lemma {:induction false} KeysBound(some: seq<string>, all: seq<string>)
    requires Distinct(some) && Distinct(all) && forall k <- some :: k in all
    ensures |some| <= |all|
    decreases |some|
  {
    if some != [] {
      var last := some[|some| - 1];
      var j := Place(all, last);
      WithoutOne(all, j);
      forall k <- some[..|some| - 1] ensures k in all && k != last {
        assert k in some;
      }
      KeysBound(some[..|some| - 1], all[..j] + all[j + 1..]);
    }
  }

  lemma Ends(values: Values, order: seq<string>, i: nat)
    requires Falling(values, order) && i < |order|
    ensures values[order[|order| - 1]] <= values[order[i]] <= values[order[0]]
  {
  }

  /** Mixing stays within the pool's own range. */
  lemma MixedInRange(values: Values, matched: seq<string>, order: seq<string>, weight: real, mixed: Values, k: string)
    requires Falling(values, order) && Mixed(values, matched, order, weight, mixed) && 0.0 <= weight <= 1.0
             && k in values
    ensures values[order[|order| - 1]] <= mixed[k] <= values[order[0]]
  {
    var i := Place(order, k);
    Ends(values, order, i);
    if k in matched {
      var m := Place(matched, k);
      Ends(values, order, m);
      assert mixed[matched[m]] == Mix(weight, values[matched[m]], values[order[m]]);
      MixBetween(weight, values[k], values[order[m]], values[order[|order| - 1]], values[order[0]]);
    }
  }

  lemma MarketBefore(values: Values, market: Values, matched: seq<string>, i: nat, j: nat)
    requires MarketOrder(values, market, matched) && i < |matched| && j < |matched|
    requires market[matched[i]] >= market[matched[j]] && values[matched[i]] > values[matched[j]]
    ensures i < j
  {
  }

  /** Of two matched players, one at least as high in the market and in the pool stays at least as high. */
  lemma DominanceKept(values: Values, market: Values, matched: seq<string>, order: seq<string>, weight: real,
                      mixed: Values,
                      p: string, q: string)
    requires Falling(values, order) && MarketOrder(values, market, matched)
             && Mixed(values, matched, order, weight, mixed)
    requires 0.0 <= weight <= 1.0 && p in matched && q in matched && market[p] >= market[q] && values[p] > values[q]
    ensures mixed[p] >= mixed[q]
  {
    var i := Place(matched, p);
    var j := Place(matched, q);
    MarketBefore(values, market, matched, i, j);
    assert mixed[matched[i]] == Mix(weight, values[matched[i]], values[order[i]]);
    assert mixed[matched[j]] == Mix(weight, values[matched[j]], values[order[j]]);
    MixMonotone(weight, values[q], values[p], values[order[j]], values[order[i]]);
  }

  /** A board that matches the whole pool and orders it alike changes nothing. */
  lemma AgreeingBoard(values: Values, matched: seq<string>, weight: real, mixed: Values)
    requires Falling(values, matched) && Mixed(values, matched, matched, weight, mixed)
    ensures mixed == values
  {
    forall k | k in values ensures mixed[k] == values[k] {
      var i := Place(matched, k);
      assert Mix(weight, values[k], values[k]) == values[k];
    }
  }

  // ---- Totals ----

  function Sum(values: Values, keys: seq<string>): real
    requires forall k <- keys :: k in values
  {
    if keys == [] then 0.0 else Sum(values, keys[..|keys| - 1]) + values[keys[|keys| - 1]]
  }

  lemma {:induction false} SumWithout(values: Values, keys: seq<string>, j: nat)
    requires j < |keys| && forall k <- keys :: k in values
    ensures Sum(values, keys) == Sum(values, keys[..j] + keys[j + 1..]) + values[keys[j]]
  {
    var last := |keys| - 1;
    if j < last {
      SumWithout(values, keys[..last], j);
      assert (keys[..j] + keys[j + 1..])[..last - 1] == keys[..last][..j] + keys[..last][j + 1..];
    } else {
      assert keys[..j] + keys[j + 1..] == keys[..last];
    }
  }

  lemma FirstIn(keys: seq<string>)
    ensures keys != [] ==> keys[0] in keys
  {
  }

  lemma {:induction false} SumOfAll(values: Values, a: seq<string>, b: seq<string>)
    requires Distinct(a) && Distinct(b) && (forall k :: k in a <==> k in b) && forall k <- a :: k in values
    ensures Sum(values, a) == Sum(values, b)
    decreases |a|
  {
    if a == [] {
      FirstIn(b);
    } else {
      var head, last := a[..|a| - 1], a[|a| - 1];
      assert a == head + [last];
      assert last in a;
      var j := Place(b, last);
      WithoutOne(b, j);
      SumOfAll(values, head, b[..j] + b[j + 1..]);
      SumWithout(values, b, j);
    }
  }

  lemma MixAdds(weight: real, a: real, a': real, sum: real, b: real, b': real, sum': real, m: real, m': real,
                total: real)
    requires sum == a + a' && sum' == b + b' && total == m + m'
    requires m == Mix(weight, a, b) && m' == Mix(weight, a', b')
    ensures total == Mix(weight, sum, sum')
  {
  }

  lemma {:induction false} SumMixed(values: Values, mixed: Values, keys: seq<string>, others: seq<string>, weight: real)
    requires |keys| == |others| && (forall k <- keys :: k in values && k in mixed) && forall k <- others :: k in values
    requires forall i | 0 <= i < |keys| :: mixed[keys[i]] == Mix(weight, values[keys[i]], values[others[i]])
    ensures Sum(mixed, keys) == Mix(weight, Sum(values, keys), Sum(values, others))
  {
    if keys != [] {
      var last := |keys| - 1;
      assert forall i | 0 <= i < last :: keys[..last][i] == keys[i] && others[..last][i] == others[i];
      SumMixed(values, mixed, keys[..last], others[..last], weight);
      var v, o, m := values[keys[last]], values[others[last]], mixed[keys[last]];
      MixAdds(weight, Sum(values, keys[..last]), v, Sum(values, keys),
              Sum(values, others[..last]), o, Sum(values, others), Sum(mixed, keys[..last]), m, Sum(mixed, keys));
    }
  }

  /** When the board matches every player, mixing leaves the pool's total unchanged. */
  lemma TotalKept(values: Values, matched: seq<string>, order: seq<string>, weight: real, mixed: Values)
    requires Falling(values, order) && Distinct(matched) && (forall k :: k in matched <==> k in values)
    requires Mixed(values, matched, order, weight, mixed)
    ensures Sum(mixed, order) == Sum(values, order)
  {
    KeysBound(order, matched);
    SumMixed(values, mixed, matched, order, weight);
    SumOfAll(values, matched, order);
    SumOfAll(mixed, matched, order);
    assert Mix(weight, Sum(values, order), Sum(values, order)) == Sum(values, order);
  }

  // ---- The top anchor ----

  ghost predicate Scaled(values: Values, scale: real, scaled: Values) {
    scaled.Keys == values.Keys && forall k <- values :: scaled[k] == values[k] * scale
  }

  function Scale(values: Values, scale: real): Values {
    map k | k in values :: values[k] * scale
  }

  lemma ScaleTo(top: real, max: real, v: real)
    requires 0.0 < max < top && v <= max
    ensures top / max > 1.0 && v * (top / max) <= top && (v == max ==> v * (top / max) == top)
    ensures v >= 0.0 ==> v * (top / max) >= v
  {
    var scale := top / max;
    assert max * scale == top;
    Above(scale, top, max);
    Product(max - v, scale);
    assert (max - v) * scale == top - v * scale;
    if v >= 0.0 {
      Product(v, scale - 1.0);
      assert v * (scale - 1.0) == v * scale - v;
    }
  }

  lemma Distribute(a: real, b: real, c: real)
    ensures a * (b - c) == a * b - a * c
  {
  }

  lemma Above(scale: real, top: real, max: real)
    requires 0.0 < max < top && max * scale == top
    ensures scale > 1.0
  {
    if scale <= 1.0 {
      Product(max, 1.0 - scale);
      Distribute(max, 1.0, scale);
    }
  }

  lemma ScaledTo(mixed: Values, top: real, max: real, scale: real)
    requires IsMax(mixed, max) && 0.0 < max < top && scale == top / max
    ensures IsMax(Scale(mixed, scale), top)
    ensures forall k <- mixed | mixed[k] >= 0.0 :: Scale(mixed, scale)[k] >= mixed[k]
  {
    var scaled := Scale(mixed, scale);
    var best :| best in mixed && mixed[best] == max;
    forall k <- mixed ensures scaled[k] <= top && (mixed[k] >= 0.0 ==> scaled[k] >= mixed[k]) {
      ScaleTo(top, max, mixed[k]);
    }
    ScaleTo(top, max, max);
    assert best in scaled && scaled[best] == top;
  }

  /** The anchor lifts every value so that the top one is back at the pool's own top. */
  lemma Anchored(mixed: Values, top: real, max: real)
    requires IsMax(mixed, max) && 0.0 < max < top
    ensures IsMax(Scale(mixed, top / max), top)
    ensures forall k <- mixed | mixed[k] >= 0.0 :: Scale(mixed, top / max)[k] >= mixed[k]
  {
    ScaledTo(mixed, top, max, top / max);
  }

  /** Lay the matched players on the pool's curve, and mix. */
  method MixIn(values: Values, order: seq<string>, matched: seq<string>, weight: real) returns (mixed: Values)
    requires |matched| <= |order| && Distinct(matched)
    requires (forall k <- matched :: k in values) && forall k <- order :: k in values
    ensures Mixed(values, matched, order, weight, mixed)
  {
    mixed := values;
    for i := 0 to |matched|
      invariant Mixed(values, matched[..i], order, weight, mixed)
    {
      var share := Mix(weight, values[matched[i]], values[order[i]]);
      MixedOneMore(values, matched, order, weight, mixed, i, share);
      mixed := mixed[matched[i] := share];
    }
    assert matched[..|matched|] == matched;
  }

  lemma MixedOneMore(values: Values, matched: seq<string>, order: seq<string>, weight: real, mixed: Values, i: nat,
                     share: real)
    requires i < |matched| <= |order| && Distinct(matched)
    requires (forall k <- matched :: k in values) && forall k <- order :: k in values
    requires Mixed(values, matched[..i], order, weight, mixed)
             && share == Mix(weight, values[matched[i]], values[order[i]])
    ensures Mixed(values, matched[..i + 1], order, weight, mixed[matched[i] := share])
  {
    var after, head := mixed[matched[i] := share], matched[..i + 1];
    assert head == matched[..i] + [matched[i]];
    forall j | 0 <= j < |head| ensures after[head[j]] == Mix(weight, values[head[j]], values[order[j]]) {
      if j < i { assert matched[..i][j] == head[j]; }
    }
  }

  /** What the anchor makes of mixed values whose pool had that top. */
  ghost predicate AnchoredTo(mixed: Values, top: real, blended: Values) {
    && (blended == mixed || exists scale :: scale > 1.0 && Scaled(mixed, scale, blended))
    && (forall max | IsMax(mixed, max) && !(0.0 < max < top) :: blended == mixed)
    && forall max | IsMax(mixed, max) && max > 0.0 :: IsMax(blended, Most(max, top))
  }

  method Anchor(mixed: Values, order: seq<string>, top: real) returns (blended: Values)
    requires order != [] && forall k :: k in order <==> k in mixed
    ensures AnchoredTo(mixed, top, blended) && exists max :: IsMax(mixed, max)
    ensures forall k <- mixed | mixed[k] >= 0.0 :: k in blended && blended[k] >= mixed[k]
  {
    blended := mixed;
    var max := Max(mixed, order);
    OneMax(mixed, max);
    if 0.0 < max < top {
      Anchored(mixed, top, max);
      ScaleTo(top, max, max);
      blended := Scale(mixed, top / max);
      assert Scaled(mixed, top / max, blended);
    }
  }

  lemma OneMax(values: Values, max: real)
    requires IsMax(values, max)
    ensures forall other | IsMax(values, other) :: other == max
  {
  }

  /** A matched player moves towards its place on the curve by that share of the way: with no weight the
      pool stays as it is, and with all of it the matched players take the curve's first values. */
  ghost predicate Moves(values: Values, matched: seq<string>, order: seq<string>, weight: real, mixed: Values)
    requires |matched| <= |order| && forall k <- order :: k in values
    requires forall k <- matched :: k in values && k in mixed
  {
    && (forall i | 0 <= i < |matched| ::
          mixed[matched[i]] - values[matched[i]] == weight * (values[order[i]] - values[matched[i]]))
    && (weight == 0.0 ==> mixed == values)
    && (weight == 1.0 ==> forall i | 0 <= i < |matched| :: mixed[matched[i]] == values[order[i]])
  }

  lemma MixMoves(weight: real, own: real, other: real)
    ensures Mix(weight, own, other) - own == weight * (other - own)
  {
  }

  lemma WeightMoves(values: Values, matched: seq<string>, order: seq<string>, weight: real, mixed: Values)
    requires Mixed(values, matched, order, weight, mixed)
    ensures Moves(values, matched, order, weight, mixed)
  {
    forall i | 0 <= i < |matched|
      ensures mixed[matched[i]] - values[matched[i]] == weight * (values[order[i]] - values[matched[i]])
    {
      MixMoves(weight, values[matched[i]], values[order[i]]);
    }
    if weight == 0.0 {
      forall k <- values ensures mixed[k] == values[k] {
        if k in matched {
          var i :| 0 <= i < |matched| && matched[i] == k;
          assert mixed[k] == Mix(0.0, values[k], values[order[i]]);
        }
      }
    }
    if weight == 1.0 {
      forall i | 0 <= i < |matched| ensures mixed[matched[i]] == values[order[i]] {
        assert mixed[matched[i]] == Mix(1.0, values[matched[i]], values[order[i]]);
      }
    }
  }

  /** Blend the board in, and anchor the top. */
  method Blend(values: Values, order: seq<string>, matched: seq<string>, weight: real)
    returns (blended: Values, ghost mixed: Values)
    requires order != [] && Falling(values, order) && 0.0 <= weight <= 1.0
    requires Distinct(matched) && forall k <- matched :: k in values
    ensures Mixed(values, matched, order, weight, mixed) && Moves(values, matched, order, weight, mixed)
    ensures AnchoredTo(mixed, Least(values[order[0]], VALUE_MAX), blended)
    ensures forall k <- values | mixed[k] >= 0.0 :: k in blended && blended[k] >= mixed[k]
    ensures values[order[|order| - 1]] > 0.0 && values[order[0]] <= VALUE_MAX ==> IsMax(blended, values[order[0]])
  {
    MatchedFew(values, order, matched);
    var raw := MixIn(values, order, matched, weight);
    mixed := raw;
    WeightMoves(values, matched, order, weight, mixed);
    blended := Anchor(raw, order, Least(values[order[0]], VALUE_MAX));
    ghost var max :| IsMax(raw, max);
    if values[order[|order| - 1]] > 0.0 && values[order[0]] <= VALUE_MAX {
      TopKept(values, order, matched, weight, raw, max);
    }
  }

  /** For a pool of positive values within the ceiling, the blended top is the pool's own top. */
  lemma TopKept(values: Values, order: seq<string>, matched: seq<string>, weight: real, mixed: Values, max: real)
    requires order != [] && Falling(values, order) && 0.0 <= weight <= 1.0
             && Mixed(values, matched, order, weight, mixed)
    requires values[order[|order| - 1]] > 0.0 && values[order[0]] <= VALUE_MAX && IsMax(mixed, max)
    ensures max > 0.0 && Most(max, Least(values[order[0]], VALUE_MAX)) == values[order[0]]
  {
    var best :| best in mixed && mixed[best] == max;
    MixedInRange(values, matched, order, weight, mixed, best);
  }

  // ---- The quarterback cap ----

  datatype Cap = Cap(knee: real, cap: real)
  {
    /** Otherwise the values pass unchanged. */
    predicate Sane() {
      0.0 <= knee < cap < VALUE_MAX
    }

    function Slope(): real
      requires Sane()
    {
      (cap - knee) / (VALUE_MAX - knee)
    }

    function Compress(raw: real): real {
      if !Sane() then raw
      else
        var v := Least(raw, VALUE_MAX);
        if v > knee then knee + Times(v - knee, Slope()) else raw
    }
  }

  function Times(x: real, y: real): real {
    x * y
  }

  predicate Quarterback(positions: map<string, string>, k: string) {
    k in positions && positions[k] == "QB"
  }

  function CappedValue(values: Values, positions: map<string, string>, cap: Cap, k: string): real
    requires k in values
  {
    if Quarterback(positions, k) then cap.Compress(values[k]) else values[k]
  }

  function Capped(values: Values, positions: map<string, string>, cap: Cap): Values {
    map k | k in values :: CappedValue(values, positions, cap, k)
  }

  /** What becomes of a value: at or below the knee, or with a degenerate cap, nothing; above it, up to the
      ceiling, it goes as far towards the cap as it had gone towards the ceiling. */
  predicate Squeezed(knee: real, cap: real, v: real, w: real) {
    if v <= knee || knee < 0.0 || cap <= knee || VALUE_MAX <= cap then w == v
    else if v >= VALUE_MAX then w == cap
    else (w - knee) * (VALUE_MAX - knee) == (v - knee) * (cap - knee)
  }

  lemma CompressSqueezes(cap: Cap, v: real)
    ensures Squeezed(cap.knee, cap.cap, v, cap.Compress(v))
  {
    if cap.Sane() && v > cap.knee {
      CompressionIsStraight(cap, Least(v, VALUE_MAX));
    }
  }

  /** Compress the quarterbacks above the knee. The two knobs are ratings, either of which turns the
      compression off, and `seedValue` is the value a rating starts from. */
  method CompressQbs(values: Values, positions: map<string, string>, capElo: real, kneeElo: real,
                     seedValue: real -> real)
    returns (out: Values)
    ensures out == if capElo <= 0.0 || kneeElo <= 0.0 then values
                   else Capped(values, positions, Cap(seedValue(kneeElo), seedValue(capElo)))
    ensures out.Keys == values.Keys
    ensures forall k <- values | !(k in positions && positions[k] == "QB") :: out[k] == values[k]
    ensures capElo > 0.0 && kneeElo > 0.0 ==>
              forall k <- values | k in positions && positions[k] == "QB" ::
                && out[k] == Cap(seedValue(kneeElo), seedValue(capElo)).Compress(values[k])
                && Squeezed(seedValue(kneeElo), seedValue(capElo), values[k], out[k])
  {
    forall v { CompressSqueezes(Cap(seedValue(kneeElo), seedValue(capElo)), v); }
    if capElo <= 0.0 || kneeElo <= 0.0 {
      return values;
    }
    var cap := Cap(seedValue(kneeElo), seedValue(capElo));
    if !cap.Sane() {
      assert Capped(values, positions, cap) == values;
      return values;
    }
    out := CompressEach(values, positions, cap);
  }

  method CompressEach(values: Values, positions: map<string, string>, cap: Cap) returns (out: Values)
    requires cap.Sane()
    ensures out == Capped(values, positions, cap)
  {
    var slope := cap.Slope();
    out := values;
    var left := values.Keys;
    while left != {}
      invariant left <= values.Keys == out.Keys
      invariant forall k <- left :: out[k] == values[k]
      invariant forall k | k in values && k !in left :: out[k] == CappedValue(values, positions, cap, k)
      decreases |left|
    {
      var k :| k in left;
      left := left - {k};
      if Quarterback(positions, k) {
        var v := Least(values[k], VALUE_MAX);
        if v > cap.knee {
          out := out[k := cap.knee + Times(v - cap.knee, slope)];
        }
      }
    }
  }

  lemma SlopeBelowOne(cap: Cap)
    requires cap.Sane()
    ensures 0.0 < cap.Slope() < 1.0 && Times(VALUE_MAX - cap.knee, cap.Slope()) == cap.cap - cap.knee
  {
    Ratio(cap.cap - cap.knee, VALUE_MAX - cap.knee);
  }

  lemma Ratio(rise: real, width: real)
    requires 0.0 < rise < width
    ensures 0.0 < rise / width < 1.0 && Times(width, rise / width) == rise
  {
    var slope := rise / width;
    assert width * slope == rise;
    if slope <= 0.0 { Product(width, 0.0 - slope); Distribute(width, 0.0, slope); }
    if slope >= 1.0 { Product(width, slope - 1.0); Distribute(width, slope, 1.0); }
  }

  /** The cap is never exceeded and never raises a value, leaves values to the knee alone, keeps the
      order of any two, and keeps two values apart up to the ceiling. */
  lemma CompressionLaws(cap: Cap, a: real, b: real)
    requires cap.Sane()
    ensures cap.Compress(a) <= cap.cap && cap.Compress(a) <= a && (a <= cap.knee ==> cap.Compress(a) == a)
    ensures a <= b ==> cap.Compress(a) <= cap.Compress(b)
    ensures a < b <= VALUE_MAX ==> cap.Compress(a) < cap.Compress(b)
  {
    SlopeBelowOne(cap);
    if Least(a, VALUE_MAX) > cap.knee { Bend(cap, a); }
    if Least(b, VALUE_MAX) > cap.knee { Bend(cap, b); }
    if cap.knee < Least(a, VALUE_MAX) && a <= b {
      var x, y := Least(a, VALUE_MAX) - cap.knee, Least(b, VALUE_MAX) - cap.knee;
      Steeper(x, y, cap.Slope());
    }
  }

  /** The ceiling lands on the cap, and between knee and ceiling the line is straight: a value has gone
      as far towards the cap as it had towards the ceiling. */
  lemma CompressionIsStraight(cap: Cap, a: real)
    requires cap.Sane() && cap.knee <= a <= VALUE_MAX
    ensures cap.Compress(VALUE_MAX) == cap.cap
    ensures (cap.Compress(a) - cap.knee) * (VALUE_MAX - cap.knee) == (a - cap.knee) * (cap.cap - cap.knee)
  {
    SlopeBelowOne(cap);
    var slope, width := cap.Slope(), VALUE_MAX - cap.knee;
    if a == cap.knee {
      assert (cap.Compress(a) - cap.knee) == 0.0 && a - cap.knee == 0.0;
    } else {
      assert cap.Compress(a) - cap.knee == Times(a - cap.knee, slope);
    }
    Proportion(a - cap.knee, slope, width, cap.cap - cap.knee);
  }

  lemma Proportion(x: real, slope: real, width: real, rise: real)
    requires Times(width, slope) == rise
    ensures Times(x, slope) * width == x * rise
  {
    assert (x * slope) * width == x * (width * slope);
  }

  lemma Strict(x: real, y: real)
    requires x > 0.0 && y > 0.0
    ensures x * y > 0.0
  {
  }

  lemma Steeper(x: real, y: real, slope: real)
    requires x <= y && slope > 0.0
    ensures Times(x, slope) <= Times(y, slope) && (x < y ==> Times(x, slope) < Times(y, slope))
  {
    Product(y - x, slope);
    if x < y { Strict(y - x, slope); }
    Apart(y, x, slope);
  }

  lemma Apart(a: real, b: real, c: real)
    ensures (a - b) * c == a * c - b * c
  {
  }

  lemma Slanted(x: real, slope: real)
    requires 0.0 < x && 0.0 < slope < 1.0
    ensures 0.0 < Times(x, slope) < x
  {
    Strict(x, slope);
    Steeper(slope, 1.0, x);
    assert Times(slope, x) == Times(x, slope);
  }

  /** Past the knee, a compressed value lies between the knee and the cap, and below the value. */
  lemma Bend(cap: Cap, a: real)
    requires cap.Sane() && Least(a, VALUE_MAX) > cap.knee
    ensures cap.knee < cap.Compress(a) <= cap.cap && cap.Compress(a) <= a
  {
    SlopeBelowOne(cap);
    Slanted(Least(a, VALUE_MAX) - cap.knee, cap.Slope());
    Steeper(Least(a, VALUE_MAX) - cap.knee, VALUE_MAX - cap.knee, cap.Slope());
  }
}
