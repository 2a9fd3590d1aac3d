/**
 What a compacted tree means: references, their expansion, and when one tree stands for another.
 An object's fields are taken in key order, so equality of trees is equality of canonical text;
 the digest is an injective function of a scope and a tree.
 */
module Sharing {
  import opened Wrappers
  import opened Json

  const REFERENCE_KEY := "$deck_diagnostic_v1"
  const MIN_SHARED_BYTES: nat := 1024

  /** The user and the generation job a row belongs to. */
  datatype Scope = Scope(user: string, job: string)

  datatype Snapshot = Snapshot(scope: Scope, createdAt: string, payload: Json)

  type Snapshots = map<string, Snapshot>

  datatype ExpandError = Cyclic

  /** The canonical text, seen only through its hash and its length. */
  datatype Codec = Codec(digest: (Scope, Json) -> string, size: Json -> nat)
  {
    /** Equal hashes are equal scopes and trees, and a tree's text is longer than its members'. */
    ghost predicate Sound() {
      && (forall s, v, t, w :: digest(s, v) == digest(t, w) ==> s == t && v == w)
      && (forall v, i | 0 <= i < Arity(v) :: size(Kid(v, i)) < size(v))
    }

    function Ref(scope: Scope, value: Json): Json {
      Obj([Field(REFERENCE_KEY, Str(digest(scope, value)))])
    }
  }

  predicate Container(v: Json) {
    v.Arr? || v.Obj?
  }

  predicate IsReference(v: Json) {
    v.Obj? && |v.fields| == 1 && v.fields[0].key == REFERENCE_KEY && v.fields[0].value.Str?
  }

  function Arity(v: Json): nat {
    match v
    case Arr(items) => |items|
    case Obj(fields) => |fields|
    case _ => 0
  }

  function Kid(v: Json, i: nat): (kid: Json)
    requires i < Arity(v)
    ensures kid < v
  {
    if v.Arr? then v.items[i] else v.fields[i].value
  }

  predicate SameShape(v: Json, r: Json) {
    match v
    case Arr(items) => r.Arr? && |items| == |r.items|
    case Obj(fields) => r.Obj? && |fields| == |r.fields| && forall i | 0 <= i < |fields| ::
        fields[i].key == r.fields[i].key
    case _ => r == v
  }

  /** The tree with its members replaced. */
  function Rebuild(v: Json, kids: seq<Json>): (r: Json)
    requires Container(v) && |kids| == Arity(v)
    ensures SameShape(v, r) && forall i | 0 <= i < |kids| :: Kid(r, i) == kids[i]
  {
    if v.Arr? then Arr(kids)
    else Obj(seq(|kids|, i requires 0 <= i < |kids| => Field(v.fields[i].key, kids[i])))
  }

  lemma ShapeAndKids(v: Json, r: Json)
    requires SameShape(v, r) && forall i | 0 <= i < Arity(v) :: Kid(v, i) == Kid(r, i)
    ensures v == r
  {
    match v {
      case Arr(items) => forall i | 0 <= i < |items| ensures items[i] == r.items[i] { assert Kid(v, i) == Kid(r, i); }
      case Obj(fields) => forall i | 0 <= i < |fields|
        ensures fields[i] == r.fields[i] { assert Kid(v, i) == Kid(r, i); }
      case _ =>
    }
  }

  ghost predicate NoReference(v: Json) {
    !IsReference(v) && forall i | 0 <= i < Arity(v) :: NoReference(Kid(v, i))
  }

  // ---- Expansion ----

  function Missing(id: string): Json {
    Obj([Field("diagnostic_status", Str("expired_or_missing")), Field("snapshot_id", Str(id))])
  }

  function Expand(v: Json, shown: Snapshots, visiting: set<string>): Result<Json, ExpandError>
    decreases shown.Keys - visiting, v, 1, 0
  {
    if IsReference(v) then
      var id := v.fields[0].value.s;
      if id in visiting then Err(Cyclic)
      else if id !in shown then Ok(Missing(id))
      else Expand(shown[id].payload, shown, visiting + {id})
    else if Container(v) then
      var kids := ExpandKids(v, shown, visiting, Arity(v));
      if kids.Err? then Err(kids.error) else Ok(Rebuild(v, kids.value))
    else Ok(v)
  }

  function ExpandKids(v: Json, shown: Snapshots, visiting: set<string>, n: nat): (r: Result<seq<Json>, ExpandError>)
    requires n <= Arity(v)
    ensures r.Ok? ==> |r.value| == n
    decreases shown.Keys - visiting, v, 0, n
  {
    if n == 0 then Ok([])
    else
      var before := ExpandKids(v, shown, visiting, n - 1);
      if before.Err? then before
      else
        var last := Expand(Kid(v, n - 1), shown, visiting);
        if last.Err? then Err(last.error) else Ok(before.value + [last.value])
  }

  lemma {:induction false} KidsExpand(v: Json, shown: Snapshots, visiting: set<string>, n: nat)
    requires n <= Arity(v)
    ensures ExpandKids(v, shown, visiting, n).Ok? <==>
            forall i | 0 <= i < n :: Expand(Kid(v, i), shown, visiting).Ok?
    ensures ExpandKids(v, shown, visiting, n).Ok? ==>
              forall i | 0 <= i < n ::
                  ExpandKids(v, shown, visiting, n).value[i] == Expand(Kid(v, i), shown, visiting).value
  {
    if n > 0 {
      KidsExpand(v, shown, visiting, n - 1);
    }
  }

  ghost predicate ContainersOnly(shown: Snapshots) {
    forall id <- shown :: Container(shown[id].payload)
  }

  /** Expansion leaves no reference behind, whatever it was given. */
  lemma {:induction false} ExpandedHasNoReference(v: Json, shown: Snapshots, visiting: set<string>)
    requires ContainersOnly(shown) && Expand(v, shown, visiting).Ok?
    ensures NoReference(Expand(v, shown, visiting).value)
    ensures IsReference(v) || Container(v) ==> Container(Expand(v, shown, visiting).value)
    decreases shown.Keys - visiting, v
  {
    var w := Expand(v, shown, visiting).value;
    if IsReference(v) {
      var id := v.fields[0].value.s;
      if id in shown {
        ExpandedHasNoReference(shown[id].payload, shown, visiting + {id});
      } else {
        assert Kid(w, 0) == w.fields[0].value && Kid(w, 1) == w.fields[1].value;
      }
    } else if Container(v) {
      KidsExpand(v, shown, visiting, Arity(v));
      forall i | 0 <= i < Arity(w)
        ensures NoReference(Kid(w, i)) && (Kid(w, i).Str? ==> Kid(v, i).Str?)
      {
        ExpandedHasNoReference(Kid(v, i), shown, visiting);
      }
    }
  }

  // ---- Standing for a tree ----

  /** r stands for v: a reference to v's own snapshot, or v's shape with members that stand for
      its members. A reference already in the input stands for itself. */
  ghost predicate Stands(codec: Codec, scope: Scope, v: Json, r: Json, ids: set<string>)
    decreases v, 1
  {
    if IsReference(v) then r == v
    else if IsReference(r) then Container(v) && r == codec.Ref(scope, v) && codec.digest(scope, v) in ids
    else Body(codec, scope, v, r, ids)
  }

  ghost predicate Body(codec: Codec, scope: Scope, v: Json, r: Json, ids: set<string>)
    decreases v, 0
  {
    SameShape(v, r) && forall i | 0 <= i < Arity(v) :: Stands(codec, scope, Kid(v, i), Kid(r, i), ids)
  }

  lemma {:induction false} StandsForItself(codec: Codec, scope: Scope, v: Json, ids: set<string>)
    ensures Stands(codec, scope, v, v, ids)
  {
    forall i | 0 <= i < Arity(v) { StandsForItself(codec, scope, Kid(v, i), ids); }
  }

  /** More snapshots of the scope leave what stands standing. */
  lemma {:induction false} StandsMore(codec: Codec, scope: Scope, v: Json, r: Json, ids: set<string>, more: set<string>)
    requires Stands(codec, scope, v, r, ids)
    requires forall u | codec.digest(scope, u) in ids :: codec.digest(scope, u) in more
    ensures Stands(codec, scope, v, r, more)
  {
    if !IsReference(v) && !IsReference(r) {
      forall i | 0 <= i < Arity(v) { StandsMore(codec, scope, Kid(v, i), Kid(r, i), ids, more); }
    }
  }

  /** Each snapshot is the body of one tree of its scope, under that tree's digest. */
  ghost predicate Genuine(codec: Codec, snapshots: Snapshots, origin: map<string, Json>, ids: set<string>) {
    forall id <- snapshots ::
      && id in origin && id == codec.digest(snapshots[id].scope, origin[id])
      && Container(origin[id]) && !IsReference(origin[id])
      && !IsReference(snapshots[id].payload)
      && Body(codec, snapshots[id].scope, origin[id], snapshots[id].payload, ids)
  }

  /** What stands for a tree without references expands to it: no cycle and nothing missing,
      since every snapshot entered is of a longer text. */
  lemma {:induction false} StandsExpands(codec: Codec, scope: Scope, v: Json, r: Json, shown: Snapshots,
                                         origin: map<string, Json>, visiting: set<string>)
    requires codec.Sound() && NoReference(v) && Stands(codec, scope, v, r, shown.Keys)
    requires Genuine(codec, shown, origin, shown.Keys)
    requires forall id <- visiting :: id in origin && codec.size(origin[id]) > codec.size(v)
    ensures Expand(r, shown, visiting) == Ok(v)
    decreases v, 1
  {
    if IsReference(r) {
      var id := codec.digest(scope, v);
      assert codec.digest(shown[id].scope, origin[id]) == id;
      assert origin[id] == v && shown[id].scope == scope;
      BodyExpands(codec, scope, v, shown[id].payload, shown, origin, visiting + {id});
    } else {
      BodyExpands(codec, scope, v, r, shown, origin, visiting);
    }
  }

  lemma {:induction false} BodyExpands(codec: Codec, scope: Scope, v: Json, r: Json, shown: Snapshots,
                                       origin: map<string, Json>, visiting: set<string>)
    requires codec.Sound() && NoReference(v) && !IsReference(r) && Body(codec, scope, v, r, shown.Keys)
    requires Genuine(codec, shown, origin, shown.Keys)
    requires forall id <- visiting :: id in origin && codec.size(origin[id]) >= codec.size(v)
    ensures Expand(r, shown, visiting) == Ok(v)
    decreases v, 0
  {
    forall i | 0 <= i < Arity(v)
      ensures Expand(Kid(r, i), shown, visiting) == Ok(Kid(v, i))
    {
      StandsExpands(codec, scope, Kid(v, i), Kid(r, i), shown, origin, visiting);
    }
    KidsExpand(r, shown, visiting, Arity(r));
    if Container(v) {
      ShapeAndKids(v, Expand(r, shown, visiting).value);
    }
  }

  /** Every reference in a tree is a snapshot of the scope. */
  ghost predicate Resolves(v: Json, scope: Scope, snapshots: Snapshots) {
    if IsReference(v) then v.fields[0].value.s in snapshots && snapshots[v.fields[0].value.s].scope == scope
    else forall i | 0 <= i < Arity(v) :: Resolves(Kid(v, i), scope, snapshots)
  }

  lemma {:induction false} StandsResolves(codec: Codec, scope: Scope, v: Json, r: Json, snapshots: Snapshots,
                                          origin: map<string, Json>, ids: set<string>)
    requires codec.Sound() && NoReference(v) && Stands(codec, scope, v, r, snapshots.Keys)
    requires Genuine(codec, snapshots, origin, ids)
    ensures Resolves(r, scope, snapshots)
  {
    if IsReference(r) {
      var id := codec.digest(scope, v);
      assert codec.digest(snapshots[id].scope, origin[id]) == id;
    } else {
      forall i | 0 <= i < Arity(r) ensures Resolves(Kid(r, i), scope, snapshots) {
        StandsResolves(codec, scope, Kid(v, i), Kid(r, i), snapshots, origin, ids);
      }
    }
  }

  // ---- Where a tree is written out ----

  /** A place in the emitted payloads: a snapshot, and the way down from its root. */
  datatype Spot = Spot(id: string, path: seq<nat>)

  function NodeAt(v: Json, path: seq<nat>): Option<Json> {
    if path == [] then Some(v)
    else if path[0] < Arity(v) then NodeAt(Kid(v, path[0]), path[1..])
    else None
  }

  /** Every large tree written out under r, at that spot, is at its recorded home. */
  ghost predicate Homed(codec: Codec, scope: Scope, v: Json, r: Json, spot: Spot, home: map<(Scope, Json), Spot>)
    decreases v
  {
    Container(v) && !IsReference(v) && !IsReference(r) && SameShape(v, r) ==>
      && (codec.size(v) >= MIN_SHARED_BYTES ==> (scope, v) in home && home[(scope, v)] == spot)
      && forall i | 0 <= i < Arity(v) ::
           Homed(codec, scope, Kid(v, i), Kid(r, i), Spot(spot.id, spot.path + [i]), home)
  }

  /** The large trees written out in the snapshots of a scope are each written out once. */
  ghost predicate WrittenOnce(codec: Codec, snapshots: Snapshots) {
    forall a: Spot, b: Spot, x, y |
      && Written(snapshots, a, x) && Written(snapshots, b, y)
      && snapshots[a.id].scope == snapshots[b.id].scope
      && Expand(x, snapshots, {}) == Expand(y, snapshots, {})
      && Expand(x, snapshots, {}).Ok? && codec.size(Expand(x, snapshots, {}).value) >= MIN_SHARED_BYTES ::
      a == b
  }

  /** The node at the spot is a container written out there, not a reference. */
  ghost predicate Written(snapshots: Snapshots, spot: Spot, node: Json) {
    && spot.id in snapshots && NodeAt(snapshots[spot.id].payload, spot.path) == Some(node)
    && Container(node) && !IsReference(node)
  }

  lemma NothingBelow(r: Json, path: seq<nat>)
    requires IsReference(r) && path != []
    ensures NodeAt(r, path).Some? ==> NodeAt(r, path).value.Str?
  {
    if path[0] == 0 {
      assert Kid(r, 0).Str?;
      assert path[1..] == [] || NodeAt(Kid(r, 0), path[1..]).None?;
    }
  }

  /** The tree that the node written out at a spot was made of. */
  function OriginalAt(origin: map<string, Json>, spot: Spot): Option<Json> {
    if spot.id in origin then NodeAt(origin[spot.id], spot.path) else None
  }

  /** Every tree written out was made of a tree, and no two large ones of a scope of the same. */
  ghost predicate MadeOnce(codec: Codec, snapshots: Snapshots, origin: map<string, Json>) {
    && (forall a: Spot, x | Written(snapshots, a, x) :: OriginalAt(origin, a).Some?)
    && forall a: Spot, b: Spot, x, y |
         && Written(snapshots, a, x) && Written(snapshots, b, y)
         && snapshots[a.id].scope == snapshots[b.id].scope
         && OriginalAt(origin, a) == OriginalAt(origin, b)
         && OriginalAt(origin, a).Some? && codec.size(OriginalAt(origin, a).value) >= MIN_SHARED_BYTES ::
         a == b
  }

  /** Each snapshot is the body of the one tree its id is the digest of, and by these trees no large one of
      a scope is written out twice. */
  ghost predicate MadeOfEach(codec: Codec, snapshots: Snapshots) {
    exists origin :: Genuine(codec, snapshots, origin, snapshots.Keys) && MadeOnce(codec, snapshots, origin)
  }

  /** The node written out at a spot stands for the tree's node there, and is homed at the spot. */
  lemma {:induction false} HomedAt(codec: Codec, scope: Scope, v: Json, r: Json, id: string, down: seq<nat>,
                                   path: seq<nat>,
                                   ids: set<string>, home: map<(Scope, Json), Spot>)
    requires Stands(codec, scope, v, r, ids) && Homed(codec, scope, v, r, Spot(id, down), home)
    requires NodeAt(r, path).Some? && Container(NodeAt(r, path).value) && !IsReference(NodeAt(r, path).value)
    ensures NodeAt(v, path).Some?
    ensures var u := NodeAt(v, path).value;
            && (NoReference(v) ==> NoReference(u)) && Body(codec, scope, u, NodeAt(r, path).value, ids)
            && (codec.size(u) >= MIN_SHARED_BYTES ==> (scope, u) in home && home[(scope, u)] == Spot(id, down + path))
    decreases |path|
  {
    if path == [] {
      assert down + path == down;
    } else {
      assert !IsReference(r) by {
        if IsReference(r) { NothingBelow(r, path); }
      }
      var i := path[0];
      HomedAt(codec, scope, Kid(v, i), Kid(r, i), id, down + [i], path[1..], ids, home);
      assert down + [i] + path[1..] == down + path;
    }
  }

  /** A large tree written out anywhere is at its recorded home. */
  lemma WrittenAtHome(codec: Codec, snapshots: Snapshots, origin: map<string, Json>, home: map<(Scope, Json), Spot>,
                      a: Spot, x: Json)
    requires codec.Sound() && Genuine(codec, snapshots, origin, snapshots.Keys) && Written(snapshots, a, x)
    requires NoReference(origin[a.id])
    requires Homed(codec, snapshots[a.id].scope, origin[a.id], snapshots[a.id].payload, Spot(a.id, []), home)
    ensures Expand(x, snapshots, {}).Ok?
    ensures var w := Expand(x, snapshots, {}).value;
            codec.size(w) >= MIN_SHARED_BYTES ==>
              (snapshots[a.id].scope, w) in home && home[(snapshots[a.id].scope, w)] == a
  {
    var scope, v, r := snapshots[a.id].scope, origin[a.id], snapshots[a.id].payload;
    HomedAt(codec, scope, v, r, a.id, [], a.path, snapshots.Keys, home);
    var u := NodeAt(v, a.path).value;
    BodyExpands(codec, scope, u, x, snapshots, origin, {});
    assert [] + a.path == a.path;
  }

  lemma MadeAtHome(codec: Codec, snapshots: Snapshots, origin: map<string, Json>, home: map<(Scope, Json), Spot>,
                   a: Spot, x: Json)
    requires Genuine(codec, snapshots, origin, snapshots.Keys) && Written(snapshots, a, x)
    requires Homed(codec, snapshots[a.id].scope, origin[a.id], snapshots[a.id].payload, Spot(a.id, []), home)
    ensures OriginalAt(origin, a).Some?
    ensures var u := OriginalAt(origin, a).value;
            codec.size(u) >= MIN_SHARED_BYTES ==>
              (snapshots[a.id].scope, u) in home && home[(snapshots[a.id].scope, u)] == a
  {
    var scope, v, r := snapshots[a.id].scope, origin[a.id], snapshots[a.id].payload;
    HomedAt(codec, scope, v, r, a.id, [], a.path, snapshots.Keys, home);
    assert [] + a.path == a.path;
  }

  /** Whatever references the rows brought, no large tree is written out twice in a scope. */
  lemma OriginOnce(codec: Codec, snapshots: Snapshots, origin: map<string, Json>, home: map<(Scope, Json), Spot>)
    requires Genuine(codec, snapshots, origin, snapshots.Keys)
    requires forall id <- snapshots ::
               Homed(codec, snapshots[id].scope, origin[id], snapshots[id].payload, Spot(id, []), home)
    ensures MadeOnce(codec, snapshots, origin)
  {
    forall a: Spot, x | Written(snapshots, a, x)
      ensures OriginalAt(origin, a).Some?
      ensures var u := OriginalAt(origin, a).value;
              codec.size(u) >= MIN_SHARED_BYTES ==>
                (snapshots[a.id].scope, u) in home && home[(snapshots[a.id].scope, u)] == a
    {
      MadeAtHome(codec, snapshots, origin, home, a, x);
    }
  }

  lemma OnceEach(codec: Codec, snapshots: Snapshots, origin: map<string, Json>, home: map<(Scope, Json), Spot>)
    requires codec.Sound() && Genuine(codec, snapshots, origin, snapshots.Keys)
    requires forall id <- snapshots :: NoReference(origin[id])
    requires forall id <- snapshots ::
               Homed(codec, snapshots[id].scope, origin[id], snapshots[id].payload, Spot(id, []), home)
    ensures WrittenOnce(codec, snapshots)
  {
    forall a: Spot, x | Written(snapshots, a, x)
      ensures Expand(x, snapshots, {}).Ok?
      ensures var w := Expand(x, snapshots, {}).value;
              codec.size(w) >= MIN_SHARED_BYTES ==>
                (snapshots[a.id].scope, w) in home && home[(snapshots[a.id].scope, w)] == a
    {
      WrittenAtHome(codec, snapshots, origin, home, a, x);
    }
  }
}
