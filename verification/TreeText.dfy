/** A text of a tree from which the tree can be read back: a digest and a size as sharing asks for. */
module TreeText {
  import opened Json
  import opened Sharing

  function Strokes(n: nat): (r: string)
    ensures |r| == n
  {
    if n == 0 then "" else "1" + Strokes(n - 1)
  }

  /** Its length in strokes, then the string. */
  function OfString(s: string): string {
    Strokes(|s|) + "0" + s
  }

  function Of(v: Json): string {
    match v
    case Null => "n"
    case Bool(b) => if b then "t" else "f"
    case Num(numeral) => "#" + OfString(numeral)
    case Str(s) => "s" + OfString(s)
    case Arr(items) => "[" + OfItems(items)
    case Obj(fields) => "{" + OfFields(fields)
  }

  function OfItems(items: seq<Json>): string {
    if items == [] then "." else "+" + (Of(items[0]) + OfItems(items[1..]))
  }

  function OfFields(fields: seq<Field>): string {
    if fields == [] then "."
    else "+" + (OfString(fields[0].key) + (Of(fields[0].value) + OfFields(fields[1..])))
  }

  function OfScoped(scope: Scope, v: Json): string {
    OfString(scope.user) + (OfString(scope.job) + Of(v))
  }

  // ---- No text is the start of another ----

  lemma Behind(c: string, x: string, a: string)
    requires |c| == 1
    ensures (c + x) + a == c + (x + a) && ((c + x) + a)[0] == c[0] && ((c + x) + a)[1..] == x + a
  {
    assert (c + x) + a == c + (x + a);
  }

  lemma Joined(x: string, y: string, a: string)
    ensures (x + y) + a == x + (y + a)
  {
  }

  lemma {:induction false} StrokesApart(m: nat, s: string, n: nat, t: string)
    requires Strokes(m) + "0" + s == Strokes(n) + "0" + t
    ensures m == n && s == t
  {
    var left, right := Strokes(m) + "0" + s, Strokes(n) + "0" + t;
    if m == 0 {
      assert left[0] == '0' && right[0] == (if n == 0 then '0' else '1');
      assert left[1..] == s && right[1..] == t;
    } else {
      assert left[0] == '1' && right[0] == (if n == 0 then '0' else '1');
      assert left[1..] == Strokes(m - 1) + "0" + s && right[1..] == Strokes(n - 1) + "0" + t;
      StrokesApart(m - 1, s, n - 1, t);
    }
  }

  lemma StringsApart(s: string, a: string, t: string, b: string)
    requires OfString(s) + a == OfString(t) + b
    ensures s == t && a == b
  {
    assert OfString(s) + a == Strokes(|s|) + "0" + (s + a);
    assert OfString(t) + b == Strokes(|t|) + "0" + (t + b);
    StrokesApart(|s|, s + a, |t|, t + b);
    assert (s + a)[..|s|] == s && (t + b)[..|t|] == t;
    assert (s + a)[|s|..] == a && (t + b)[|t|..] == b;
  }

  lemma {:induction false} Apart(v: Json, a: string, w: Json, b: string)
    requires Of(v) + a == Of(w) + b
    ensures v == w && a == b
    decreases v
  {
    assert (Of(v) + a)[0] == Of(v)[0] && (Of(w) + b)[0] == Of(w)[0];
    match v {
      case Null => assert (Of(v) + a)[1..] == a && (Of(w) + b)[1..] == b;
      case Bool(_) => assert (Of(v) + a)[1..] == a && (Of(w) + b)[1..] == b;
      case Num(numeral) =>
        Behind("#", OfString(numeral), a);
        Behind("#", OfString(w.numeral), b);
        StringsApart(numeral, a, w.numeral, b);
      case Str(s) =>
        Behind("s", OfString(s), a);
        Behind("s", OfString(w.s), b);
        StringsApart(s, a, w.s, b);
      case Arr(items) =>
        Behind("[", OfItems(items), a);
        Behind("[", OfItems(w.items), b);
        ItemsApart(items, a, w.items, b);
      case Obj(fields) =>
        Behind("{", OfFields(fields), a);
        Behind("{", OfFields(w.fields), b);
        FieldsApart(fields, a, w.fields, b);
    }
  }

  lemma {:induction false} ItemsApart(v: seq<Json>, a: string, w: seq<Json>, b: string)
    requires OfItems(v) + a == OfItems(w) + b
    ensures v == w && a == b
    decreases v
  {
    assert (OfItems(v) + a)[0] == OfItems(v)[0] && (OfItems(w) + b)[0] == OfItems(w)[0];
    if v == [] {
      assert (OfItems(v) + a)[1..] == a && (OfItems(w) + b)[1..] == b;
    } else {
      Behind("+", Of(v[0]) + OfItems(v[1..]), a);
      Behind("+", Of(w[0]) + OfItems(w[1..]), b);
      Joined(Of(v[0]), OfItems(v[1..]), a);
      Joined(Of(w[0]), OfItems(w[1..]), b);
      Apart(v[0], OfItems(v[1..]) + a, w[0], OfItems(w[1..]) + b);
      ItemsApart(v[1..], a, w[1..], b);
      assert v == [v[0]] + v[1..] && w == [w[0]] + w[1..];
    }
  }

  lemma {:induction false} FieldsApart(v: seq<Field>, a: string, w: seq<Field>, b: string)
    requires OfFields(v) + a == OfFields(w) + b
    ensures v == w && a == b
    decreases v
  {
    assert (OfFields(v) + a)[0] == OfFields(v)[0] && (OfFields(w) + b)[0] == OfFields(w)[0];
    if v == [] {
      assert (OfFields(v) + a)[1..] == a && (OfFields(w) + b)[1..] == b;
    } else {
      var x, y := Of(v[0].value) + OfFields(v[1..]), Of(w[0].value) + OfFields(w[1..]);
      Behind("+", OfString(v[0].key) + x, a);
      Behind("+", OfString(w[0].key) + y, b);
      Joined(OfString(v[0].key), x, a);
      Joined(OfString(w[0].key), y, b);
      StringsApart(v[0].key, x + a, w[0].key, y + b);
      Joined(Of(v[0].value), OfFields(v[1..]), a);
      Joined(Of(w[0].value), OfFields(w[1..]), b);
      Apart(v[0].value, OfFields(v[1..]) + a, w[0].value, OfFields(w[1..]) + b);
      FieldsApart(v[1..], a, w[1..], b);
      assert v == [v[0]] + v[1..] && w == [w[0]] + w[1..];
    }
  }

  lemma ScopedApart(s: Scope, v: Json, t: Scope, w: Json)
    requires OfScoped(s, v) == OfScoped(t, w)
    ensures s == t && v == w
  {
    StringsApart(s.user, OfString(s.job) + Of(v), t.user, OfString(t.job) + Of(w));
    StringsApart(s.job, Of(v), t.job, Of(w));
    assert Of(v) + "" == Of(v) && Of(w) + "" == Of(w);
    Apart(v, "", w, "");
  }

  // ---- A tree's text is longer than its members' ----

  lemma {:induction false} ItemShorter(items: seq<Json>, i: nat)
    requires i < |items|
    ensures |Of(items[i])| < |OfItems(items)|
  {
    if i > 0 {
      ItemShorter(items[1..], i - 1);
    }
  }

  lemma {:induction false} FieldShorter(fields: seq<Field>, i: nat)
    requires i < |fields|
    ensures |Of(fields[i].value)| < |OfFields(fields)|
  {
    if i > 0 {
      FieldShorter(fields[1..], i - 1);
    }
  }

  /** The text itself as the digest, its length as the size. */
  const TEXT_CODEC := Codec(OfScoped, v => |Of(v)|)

  lemma TextIsSound()
    ensures TEXT_CODEC.Sound()
  {
    forall s, v, t, w | TEXT_CODEC.digest(s, v) == TEXT_CODEC.digest(t, w) ensures s == t && v == w {
      ScopedApart(s, v, t, w);
    }
    forall v, i | 0 <= i < Arity(v) ensures TEXT_CODEC.size(Kid(v, i)) < TEXT_CODEC.size(v) {
      if v.Arr? { ItemShorter(v.items, i); } else { FieldShorter(v.fields, i); }
    }
  }
}
