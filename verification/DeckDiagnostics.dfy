/**
 Hash-consing of a deck's debug fields: one pass counts the large trees, without descending
 twice into the same one; the next writes each shared or root tree out once, as a snapshot,
 and puts references in its other places.
 */
module DeckDiagnostics {
  import opened Wrappers
  import opened Json
  import opened Sharing

  const DIAGNOSTIC_KEYS := ["owner_request", "owner_experiment", "owner_generation", "roster_evaluation"]

  /** An impression row: its features are a JSON object, or Null when absent or malformed. */
  datatype Row = Row(scope: Scope, servedAt: string, features: Json)

  type Node = (Scope, Json)

  /** How a walk reached a tree: as a row's debug field, or as a member of a larger tree. */
  datatype Edge = RootEdge(row: nat, key: string) | KidEdge(scope: Scope, parent: Json, index: nat)

  predicate Tree(v: Json) {
    Container(v) && !IsReference(v)
  }

  predicate Large(codec: Codec, v: Json) {
    Tree(v) && codec.size(v) >= MIN_SHARED_BYTES
  }

  // ---- What the counts know ----

  /** Each edge walked to a large tree was counted, two edges to one tree twice. */
  ghost predicate Tallied(codec: Codec, counts: map<string, nat>, edges: map<Edge, Node>) {
    && (forall d <- counts :: counts[d] >= 1)
    && (forall e <- edges :: Large(codec, edges[e].1) && codec.digest(edges[e].0, edges[e].1) in counts)
    && (forall e, f | e in edges && f in edges && e != f && edges[e] == edges[f] ::
          counts[codec.digest(edges[e].0, edges[e].1)] >= 2)
    && (forall e <- edges :: e.KidEdge? ==> codec.digest(e.scope, e.parent) in counts)
  }

  function Id(codec: Codec, node: Node): string {
    codec.digest(node.0, node.1)
  }

  /** The edge leads where it says. */
  ghost predicate Leads(edge: Edge, node: Node) {
    edge.KidEdge? ==>
      edge.index < Arity(edge.parent) && node == (edge.scope, Kid(edge.parent, edge.index))
  }

  ghost predicate Led(codec: Codec, edges: map<Edge, Node>, id: string) {
    exists e :: e in edges && Id(codec, edges[e]) == id
  }

  ghost predicate LedTwice(codec: Codec, edges: map<Edge, Node>, id: string) {
    exists e, f :: e in edges && f in edges && e != f && Id(codec, edges[e]) == id && Id(codec, edges[f]) == id
  }

  /** Nothing is counted but the edges walked, which lead where they say. */
  ghost predicate Traced(codec: Codec, counts: map<string, nat>, edges: map<Edge, Node>) {
    && (forall e <- edges :: Leads(e, edges[e]))
    && (forall id {:trigger Led(codec, edges, id)} | id in counts :: Led(codec, edges, id))
    && (forall id {:trigger LedTwice(codec, edges, id)} | id in counts && counts[id] > 1 :: LedTwice(codec, edges, id))
  }

  /** Counting a tree by a new edge keeps that. */
  lemma TraceOne(codec: Codec, counts: map<string, nat>, edges: map<Edge, Node>, node: Node, edge: Edge)
    requires Traced(codec, counts, edges) && edge !in edges && Leads(edge, node)
    requires forall id <- counts :: counts[id] >= 1
    ensures var d := Id(codec, node);
            Traced(codec, counts[d := (if d in counts then counts[d] else 0) + 1], edges[edge := node])
  {
    var d, edges' := Id(codec, node), edges[edge := node];
    assert edge in edges' && Id(codec, edges'[edge]) == d;
    forall id | id in counts ensures Led(codec, edges', id) && (id == d ==> LedTwice(codec, edges', id)) {
      assert Led(codec, edges, id);
      var e :| e in edges && Id(codec, edges[e]) == id;
      assert e in edges' && e != edge && Id(codec, edges'[e]) == id;
    }
    forall id | id in counts && counts[id] > 1 ensures LedTwice(codec, edges', id) {
      assert LedTwice(codec, edges, id);
      var e, f :| e in edges && f in edges && e != f && Id(codec, edges[e]) == id && Id(codec, edges[f]) == id;
      assert e in edges' && f in edges' && Id(codec, edges'[e]) == id && Id(codec, edges'[f]) == id;
    }
  }

  /** The first n members of a tree, the large ones, were walked. */
  ghost predicate KidsWalked(codec: Codec, edges: map<Edge, Node>, scope: Scope, parent: Json, n: nat)
    requires n <= Arity(parent)
  {
    forall i | 0 <= i < n && Large(codec, Kid(parent, i)) ::
      KidEdge(scope, parent, i) in edges && edges[KidEdge(scope, parent, i)] == (scope, Kid(parent, i))
  }

  /** Every counted tree had all its members walked, though a repeated tree is not walked again. */
  ghost predicate Explored(codec: Codec, counts: map<string, nat>, edges: map<Edge, Node>, open: set<Node>) {
    forall scope, v {:trigger codec.digest(scope, v)} | codec.digest(scope, v) in counts && (scope, v) !in open ::
      KidsWalked(codec, edges, scope, v, Arity(v))
  }

  ghost predicate Extends<X, Y>(before: map<X, Y>, after: map<X, Y>) {
    forall x <- before :: x in after && after[x] == before[x]
  }

  /** Walking one edge: it, and members of trees not counted before, are all that is walked. */
  ghost predicate Walked(codec: Codec, counts: map<string, nat>, edges: map<Edge, Node>,
                         counts': map<string, nat>, edges': map<Edge, Node>, edge: Edge)
  {
    && Extends(edges, edges') && counts.Keys <= counts'.Keys
    && forall e <- edges' ::
         e in edges || e == edge || (e.KidEdge? && codec.digest(e.scope, e.parent) !in counts)
  }

  ghost predicate Fresh(codec: Codec, counts: map<string, nat>, edges: map<Edge, Node>, edge: Edge) {
    edge !in edges && (edge.KidEdge? ==> codec.digest(edge.scope, edge.parent) in counts)
  }

  /** Counting a large tree by a new edge. When it was not counted before, none of its members
      was walked by way of it. */
  lemma TallyOne(codec: Codec, counts: map<string, nat>, edges: map<Edge, Node>, node: Node, edge: Edge,
                 open: set<Node>)
    requires codec.Sound() && Tallied(codec, counts, edges) && Explored(codec, counts, edges, open)
    requires Large(codec, node.1) && Fresh(codec, counts, edges, edge)
    ensures var d := codec.digest(node.0, node.1);
            var n := (if d in counts then counts[d] else 0) + 1;
            && Tallied(codec, counts[d := n], edges[edge := node])
            && Walked(codec, counts, edges, counts[d := n], edges[edge := node], edge)
            && Explored(codec, counts[d := n], edges[edge := node], if n > 1 then open else open + {node})
            && (n == 1 ==> forall i | 0 <= i < Arity(node.1) :: KidEdge(node.0, node.1, i) !in edges[edge := node])
  {
    var d := codec.digest(node.0, node.1);
    var counts', edges' := counts[d := (if d in counts then counts[d] else 0) + 1], edges[edge := node];
    forall scope, v {:trigger codec.digest(scope, v)}
      | codec.digest(scope, v) in counts' && (scope, v) !in open && (d in counts || (scope, v) != node)
      ensures KidsWalked(codec, edges', scope, v, Arity(v))
    {
      assert codec.digest(scope, v) in counts;
      assert KidsWalked(codec, edges, scope, v, Arity(v));
    }
  }

  ghost predicate CountsRight(codec: Codec, counts: map<string, nat>, edges: map<Edge, Node>, open: set<Node>) {
    && codec.Sound() && Tallied(codec, counts, edges) && Explored(codec, counts, edges, open)
    && Traced(codec, counts, edges)
  }

  lemma CountOne(codec: Codec, counts: map<string, nat>, edges: map<Edge, Node>, counts': map<string, nat>,
                 edges': map<Edge, Node>, node: Node, edge: Edge, open: set<Node>)
    requires CountsRight(codec, counts, edges, open) && Large(codec, node.1) && Leads(edge, node)
    requires Fresh(codec, counts, edges, edge) && edges' == edges[edge := node]
    requires var d := Id(codec, node); counts' == counts[d := if d in counts then counts[d] + 1 else 1]
    ensures CountsRight(codec, counts', edges', if Id(codec, node) in counts then open else open + {node})
    ensures Walked(codec, counts, edges, counts', edges', edge)
    ensures Id(codec, node) !in counts ==>
              forall i | 0 <= i < Arity(node.1) :: KidEdge(node.0, node.1, i) !in edges'
  {
    TallyOne(codec, counts, edges, node, edge, open);
    TraceOne(codec, counts, edges, node, edge);
  }

  /** Once all its members are walked, a tree is no longer open. */
  lemma CloseNode(codec: Codec, counts: map<string, nat>, edges: map<Edge, Node>, node: Node, open: set<Node>)
    requires Explored(codec, counts, edges, open + {node}) && KidsWalked(codec, edges, node.0, node.1, Arity(node.1))
    ensures Explored(codec, counts, edges, open)
  {
    forall scope, v {:trigger codec.digest(scope, v)} | codec.digest(scope, v) in counts && (scope, v) !in open
      ensures KidsWalked(codec, edges, scope, v, Arity(v))
    {
      assert (scope, v) == node || (scope, v) !in open + {node};
    }
  }

  lemma WalkOn(codec: Codec, counts: map<string, nat>, edges: map<Edge, Node>, counts1: map<string, nat>,
               edges1: map<Edge, Node>,
               counts2: map<string, nat>, edges2: map<Edge, Node>, node: Node, edge: Edge, i: nat)
    requires i < Arity(node.1) && codec.digest(node.0, node.1) in counts1 && codec.digest(node.0, node.1) !in counts
    requires Walked(codec, counts, edges, counts1, edges1, edge) && KidsWalked(codec, edges1, node.0, node.1, i)
    requires forall j | i <= j < Arity(node.1) :: KidEdge(node.0, node.1, j) !in edges1
    requires Walked(codec, counts1, edges1, counts2, edges2, KidEdge(node.0, node.1, i))
    requires Large(codec, Kid(node.1, i)) ==>
               KidEdge(node.0, node.1, i) in edges2 && edges2[KidEdge(node.0, node.1, i)] == (node.0, Kid(node.1, i))
    ensures Walked(codec, counts, edges, counts2, edges2, edge) && KidsWalked(codec, edges2, node.0, node.1, i + 1)
    ensures forall j | i < j < Arity(node.1) :: KidEdge(node.0, node.1, j) !in edges2
  {
  }

  // ---- What packing knows ----

  /** The history of a packing: the edges taken, where each large tree was written out and by
      which edge it was reached, and the tree each snapshot was made of. */
  datatype Ledger = Ledger(entered: set<Edge>, home: map<Node, Spot>, via: map<Node, Edge>, origin: map<string, Json>)

  predicate Shared(codec: Codec, counts: map<string, nat>, scope: Scope, v: Json) {
    codec.digest(scope, v) in counts && counts[codec.digest(scope, v)] > 1
  }

  /** Every tree written out was reached by an edge that was counted. */
  ghost predicate Reached(edges: map<Edge, Node>, ledger: Ledger) {
    && ledger.via.Keys == ledger.home.Keys
    && (forall n <- ledger.home ::
          n in ledger.via && ledger.via[n] in ledger.entered && ledger.via[n] in edges && edges[ledger.via[n]] == n)
    && (forall e <- ledger.entered :: e.KidEdge? ==> (e.scope, e.parent) in ledger.home)
  }

  /** A shared tree or a root that was written out, and is not being written, has its snapshot. */
  ghost predicate Kept(codec: Codec, counts: map<string, nat>, snapshots: Snapshots, ledger: Ledger, open: set<Node>) {
    forall n <- ledger.home | n !in open && n in ledger.via ::
      Shared(codec, counts, n.0, n.1) || ledger.via[n].RootEdge? ==> codec.digest(n.0, n.1) in snapshots
  }

  /** A snapshot is of a debug tree, or of a tree counted more than once. */
  ghost predicate Earned(counts: map<string, nat>, snapshots: Snapshots, roots: set<string>) {
    forall id {:trigger EarnedBy(counts, id, roots)} | id in snapshots :: EarnedBy(counts, id, roots)
  }

  ghost predicate EarnedBy(counts: map<string, nat>, id: string, roots: set<string>) {
    id in roots || (id in counts && counts[id] > 1)
  }

  ghost predicate Sound(codec: Codec, snapshots: Snapshots, ledger: Ledger, clean: bool) {
    && Genuine(codec, snapshots, ledger.origin, snapshots.Keys) && ledger.origin.Keys == snapshots.Keys
    && (clean ==> forall id <- snapshots :: NoReference(ledger.origin[id]))
    && forall id <- snapshots ::
         Homed(codec, snapshots[id].scope, ledger.origin[id], snapshots[id].payload, Spot(id, []), ledger.home)
  }

  /** Packing by one edge only adds, and enters nothing but it and members of trees not yet written. */
  ghost predicate Grew(snapshots: Snapshots, ledger: Ledger, snapshots': Snapshots, ledger': Ledger, edge: Edge) {
    && Extends(snapshots, snapshots') && Extends(ledger.home, ledger'.home)
    && Extends(ledger.via, ledger'.via) && Extends(ledger.origin, ledger'.origin)
    && forall e <- ledger'.entered ::
         e in ledger.entered || e == edge || (e.KidEdge? && (e.scope, e.parent) !in ledger.home)
  }

  lemma {:induction false} HomedMore(codec: Codec, scope: Scope, v: Json, r: Json, spot: Spot,
                                     home: map<Node, Spot>, more: map<Node, Spot>)
    requires Homed(codec, scope, v, r, spot, home) && Extends(home, more)
    ensures Homed(codec, scope, v, r, spot, more)
    decreases v
  {
    if Tree(v) && !IsReference(r) && SameShape(v, r) {
      forall i | 0 <= i < Arity(v) {
        HomedMore(codec, scope, Kid(v, i), Kid(r, i), Spot(spot.id, spot.path + [i]), home, more);
      }
    }
  }

  /** The heart of it: when a new edge leads to a tree that was written out before, two edges
      lead to it, so it is shared, so it has its snapshot. */
  lemma WrittenBefore(codec: Codec, counts: map<string, nat>, edges: map<Edge, Node>, snapshots: Snapshots,
                      ledger: Ledger, open: set<Node>, node: Node, edge: Edge)
    requires Tallied(codec, counts, edges) && Reached(edges, ledger) && Kept(codec, counts, snapshots, ledger, open)
    requires edge in edges && edges[edge] == node && edge !in ledger.entered && node !in open
    requires node in ledger.home
    ensures Shared(codec, counts, node.0, node.1) && codec.digest(node.0, node.1) in snapshots
  {
    assert ledger.via[node] != edge && edges[ledger.via[node]] == edges[edge];
  }

  function Enter(ledger: Ledger, node: Node, edge: Edge, spot: Spot): Ledger {
    ledger.(entered := ledger.entered + {edge}, home := ledger.home[node := spot], via := ledger.via[node := edge])
  }

  lemma EnterKeeps(codec: Codec, counts: map<string, nat>, edges: map<Edge, Node>, snapshots: Snapshots, clean: bool,
                   ledger: Ledger, open: set<Node>, node: Node, edge: Edge, spot: Spot)
    requires Reached(edges, ledger) && Kept(codec, counts, snapshots, ledger, open)
             && Sound(codec, snapshots, ledger, clean)
    requires edge in edges && edges[edge] == node && node !in ledger.home
    requires edge.KidEdge? ==> (edge.scope, edge.parent) in ledger.home
    ensures var after := Enter(ledger, node, edge, spot);
            && Reached(edges, after) && Kept(codec, counts, snapshots, after, open + {node})
            && Sound(codec, snapshots, after, clean)
            && forall i | 0 <= i < Arity(node.1) :: KidEdge(node.0, node.1, i) !in after.entered
  {
    var after := Enter(ledger, node, edge, spot);
    forall id | id in snapshots
      ensures Homed(codec, snapshots[id].scope, ledger.origin[id], snapshots[id].payload, Spot(id, []), after.home)
    {
      HomedMore(codec, snapshots[id].scope, ledger.origin[id], snapshots[id].payload, Spot(id, []), ledger.home,
                after.home);
    }
  }

  /** The members packed so far stand for the tree's members, and each is homed below the spot. */
  ghost predicate KidsPacked(codec: Codec, scope: Scope, v: Json, kids: seq<Json>, snapshots: Snapshots,
                             spot: Spot, home: map<Node, Spot>)
    requires |kids| <= Arity(v)
  {
    forall i | 0 <= i < |kids| ::
      && Stands(codec, scope, Kid(v, i), kids[i], snapshots.Keys)
      && Homed(codec, scope, Kid(v, i), kids[i], Spot(spot.id, spot.path + [i]), home)
  }

  lemma KidsStay(codec: Codec, scope: Scope, v: Json, kids: seq<Json>, snapshots: Snapshots, ledger: Ledger,
                 snapshots': Snapshots, ledger': Ledger, spot: Spot)
    requires |kids| <= Arity(v) && KidsPacked(codec, scope, v, kids, snapshots, spot, ledger.home)
    requires Extends(snapshots, snapshots') && Extends(ledger.home, ledger'.home)
    ensures KidsPacked(codec, scope, v, kids, snapshots', spot, ledger'.home)
  {
    forall i | 0 <= i < |kids|
      ensures Stands(codec, scope, Kid(v, i), kids[i], snapshots'.Keys)
      ensures Homed(codec, scope, Kid(v, i), kids[i], Spot(spot.id, spot.path + [i]), ledger'.home)
    {
      StandsMore(codec, scope, Kid(v, i), kids[i], snapshots.Keys, snapshots'.Keys);
      HomedMore(codec, scope, Kid(v, i), kids[i], Spot(spot.id, spot.path + [i]), ledger.home, ledger'.home);
    }
  }

  /** A tree with its members packed is no reference, stands for the tree and is homed at its spot. */
  lemma PackedTree(codec: Codec, scope: Scope, v: Json, kids: seq<Json>, snapshots: Snapshots,
                   spot: Spot, home: map<Node, Spot>)
    requires Tree(v) && |kids| == Arity(v) && KidsPacked(codec, scope, v, kids, snapshots, spot, home)
    requires Large(codec, v) ==> (scope, v) in home && home[(scope, v)] == spot
    ensures var r := Rebuild(v, kids);
            && !IsReference(r) && Body(codec, scope, v, r, snapshots.Keys)
            && Homed(codec, scope, v, r, spot, home)
  {
    var r := Rebuild(v, kids);
    forall i | 0 <= i < Arity(v)
      ensures Stands(codec, scope, Kid(v, i), Kid(r, i), snapshots.Keys)
      ensures Homed(codec, scope, Kid(v, i), Kid(r, i), Spot(spot.id, spot.path + [i]), home)
      ensures Kid(r, i).Str? ==> Kid(v, i).Str?
    {
      assert Kid(r, i) == kids[i];
      OnlyStringsStandForStrings(codec, scope, Kid(v, i), kids[i], snapshots.Keys);
    }
  }

  lemma OnlyStringsStandForStrings(codec: Codec, scope: Scope, v: Json, r: Json, ids: set<string>)
    requires Stands(codec, scope, v, r, ids)
    ensures r.Str? ==> v.Str?
  {
    if !IsReference(v) && !IsReference(r) {
      assert SameShape(v, r);
    }
  }

  /** A tree below the sharing size, left as it is, is homed anywhere: it has no large part. */
  lemma {:induction false} SmallHomed(codec: Codec, scope: Scope, v: Json, spot: Spot, home: map<Node, Spot>)
    requires codec.Sound() && codec.size(v) < MIN_SHARED_BYTES
    ensures Homed(codec, scope, v, v, spot, home)
  {
    forall i | 0 <= i < Arity(v) { SmallHomed(codec, scope, Kid(v, i), Spot(spot.id, spot.path + [i]), home); }
  }

  /** A tree just written out makes a genuine snapshot. */
  lemma EmitSound(codec: Codec, snapshots: Snapshots, clean: bool, ledger: Ledger, node: Node, r: Json,
                  createdAt: string)
    requires codec.Sound() && Sound(codec, snapshots, ledger, clean)
    requires Tree(node.1) && !IsReference(r) && Body(codec, node.0, node.1, r, snapshots.Keys)
    requires Homed(codec, node.0, node.1, r, Spot(codec.digest(node.0, node.1), []), ledger.home)
    requires clean ==> NoReference(node.1)
    ensures var d := codec.digest(node.0, node.1);
            Sound(codec, snapshots[d := Snapshot(node.0, createdAt, r)], ledger.(origin := ledger.origin[d := node.1]),
                  clean)
  {
    var d := codec.digest(node.0, node.1);
    var snapshots' := snapshots[d := Snapshot(node.0, createdAt, r)];
    var origin := ledger.origin[d := node.1];
    forall id | id in snapshots'
      ensures Body(codec, snapshots'[id].scope, origin[id], snapshots'[id].payload, snapshots'.Keys)
    {
      BodyMore(codec, snapshots'[id].scope, origin[id], snapshots'[id].payload, snapshots.Keys, snapshots'.Keys);
    }
  }

  /** And storing it closes the tree. */
  lemma EmitKept(codec: Codec, counts: map<string, nat>, snapshots: Snapshots, ledger: Ledger, open: set<Node>,
                 node: Node, snapshot: Snapshot)
    requires Kept(codec, counts, snapshots, ledger, open + {node})
    ensures var d := codec.digest(node.0, node.1);
            Kept(codec, counts, snapshots[d := snapshot], ledger.(origin := ledger.origin[d := node.1]), open)
  {
  }

  lemma BodyMore(codec: Codec, scope: Scope, v: Json, r: Json, ids: set<string>, more: set<string>)
    requires Body(codec, scope, v, r, ids) && ids <= more
    ensures Body(codec, scope, v, r, more)
  {
    forall i | 0 <= i < Arity(v) { StandsMore(codec, scope, Kid(v, i), Kid(r, i), ids, more); }
  }

  lemma BodyStands(codec: Codec, scope: Scope, v: Json, r: Json, ids: set<string>)
    requires !IsReference(v) && !IsReference(r) && Body(codec, scope, v, r, ids)
    ensures Stands(codec, scope, v, r, ids)
  {
  }

  class Compactor {
    const codec: Codec
    var counts: map<string, nat>
    var snapshots: Snapshots
    ghost var edges: map<Edge, Node>
    ghost var ledger: Ledger
    // Whether the input has no reference of its own, and the digests of its debug trees.
    ghost const clean: bool
    ghost const roots: set<string>

    constructor (codec: Codec, ghost clean: bool, ghost roots: set<string>)
      ensures this.codec == codec && this.clean == clean && this.roots == roots
      ensures counts == map[] && snapshots == map[] && edges == map[] && ledger == Ledger({}, map[], map[], map[])
    {
      this.codec, this.clean, this.roots := codec, clean, roots;
      counts, snapshots, edges := map[], map[], map[];
      ledger := Ledger({}, map[], map[], map[]);
    }

    ghost predicate Counting(open: set<Node>)
      reads this
    {
      CountsRight(codec, counts, edges, open)
    }

    /** Count a large tree, and its members the first time it is met. */
    method Count(scope: Scope, value: Json, ghost edge: Edge, ghost open: set<Node>)
      requires Counting(open) && Fresh(codec, counts, edges, edge) && Leads(edge, (scope, value))
      modifies this`counts, this`edges
      ensures Counting(open)
      ensures Large(codec, value) ==> edge in edges
      ensures edge in edges ==> edges[edge] == (scope, value)
      ensures Walked(codec, old(counts), old(edges), counts, edges, edge)
      decreases codec.size(value), 1
    {
      if !Tree(value) || codec.size(value) < MIN_SHARED_BYTES {
        return;
      }
      var first := Tally(scope, value, edge, open);
      if first {
        CountMembers(scope, value, edge, open + {(scope, value)}, old(counts), old(edges));
        CloseNode(codec, counts, edges, (scope, value), open);
      }
    }

    /** Count a large tree itself, and tell whether it is met for the first time. */
    method Tally(scope: Scope, value: Json, ghost edge: Edge, ghost open: set<Node>) returns (first: bool)
      requires Counting(open) && Fresh(codec, counts, edges, edge) && Leads(edge, (scope, value))
      requires Large(codec, value)
      modifies this`counts, this`edges
      ensures Counting(if first then open + {(scope, value)} else open)
      ensures edge in edges && edges[edge] == (scope, value)
      ensures Walked(codec, old(counts), old(edges), counts, edges, edge) && codec.digest(scope, value) in counts
      ensures first <==> codec.digest(scope, value) !in old(counts)
      ensures first ==> forall i | 0 <= i < Arity(value) :: KidEdge(scope, value, i) !in edges
    {
      var d := codec.digest(scope, value);
      var n := (if d in counts then counts[d] else 0) + 1;
      counts := counts[d := n];
      edges := edges[edge := (scope, value)];
      first := n == 1;
      CountOne(codec, old(counts), old(edges), counts, edges, (scope, value), edge, open);
    }

    /** Count the members of a tree met for the first time. */
    method CountMembers(scope: Scope, value: Json, ghost edge: Edge, ghost open: set<Node>,
                        ghost counts0: map<string, nat>, ghost edges0: map<Edge, Node>)
      requires Counting(open) && Walked(codec, counts0, edges0, counts, edges, edge)
      requires codec.digest(scope, value) in counts && codec.digest(scope, value) !in counts0
      requires edge in edges && edges[edge] == (scope, value)
      requires forall j | 0 <= j < Arity(value) :: KidEdge(scope, value, j) !in edges
      modifies this`counts, this`edges
      ensures Counting(open) && Walked(codec, counts0, edges0, counts, edges, edge)
      ensures edge in edges && edges[edge] == (scope, value)
      ensures KidsWalked(codec, edges, scope, value, Arity(value))
      decreases codec.size(value), 0
    {
      ghost var node := (scope, value);
      for i := 0 to Arity(value)
        invariant Counting(open) && Walked(codec, counts0, edges0, counts, edges, edge)
        invariant codec.digest(scope, value) in counts && edge in edges && edges[edge] == node
        invariant KidsWalked(codec, edges, scope, value, i)
        invariant forall j | i <= j < Arity(value) :: KidEdge(scope, value, j) !in edges
      {
        ghost var counts1, edges1 := counts, edges;
        Count(scope, Kid(value, i), KidEdge(scope, value, i), open);
        WalkOn(codec, counts0, edges0, counts1, edges1, counts, edges, node, edge, i);
      }
    }

    ghost predicate Packing(open: set<Node>)
      reads this
    {
      && codec.Sound() && Tallied(codec, counts, edges) && Explored(codec, counts, edges, {})
      && Reached(edges, ledger) && Kept(codec, counts, snapshots, ledger, open)
      && Sound(codec, snapshots, ledger, clean) && Earned(counts, snapshots, roots)
    }

    /** The edge was counted and not yet taken. */
    ghost predicate Ready(scope: Scope, value: Json, edge: Edge)
      reads this
    {
      && edge in edges && edges[edge] == (scope, value) && edge !in ledger.entered
      && (edge.KidEdge? ==> (edge.scope, edge.parent) in ledger.home)
    }

    /** Pack a tree: a reference when it is shared or a root, storing its snapshot the first time;
        otherwise the tree itself, its members packed, when it is large. */
    method Pack(scope: Scope, createdAt: string, value: Json, root: bool,
                ghost edge: Edge, ghost spot: Spot, ghost open: set<Node>)
      returns (r: Json)
      requires Packing(open) && (clean ==> NoReference(value)) && root == edge.RootEdge?
      requires root ==> codec.digest(scope, value) in roots
      requires Large(codec, value) ==> Ready(scope, value, edge)
      requires forall node <- open :: codec.size(node.1) > codec.size(value)
      modifies this`snapshots, this`ledger
      ensures Packing(open) && Grew(old(snapshots), old(ledger), snapshots, ledger, edge)
      ensures Stands(codec, scope, value, r, snapshots.Keys) && Homed(codec, scope, value, r, spot, ledger.home)
      ensures root && Tree(value) ==> IsReference(r)
      decreases codec.size(value), 4
    {
      var shared := Shared(codec, counts, scope, value);
      if !Tree(value) {
        Itself(scope, value, spot);
        r := value;
      } else if (root || shared) && codec.digest(scope, value) in snapshots {
        ReferenceStands(scope, value, spot);
        r := codec.Ref(scope, value);
      } else if codec.size(value) < MIN_SHARED_BYTES && !root {
        Itself(scope, value, spot);
        r := value;
      } else if root || shared {
        r := PackSnapshot(scope, createdAt, value, edge, spot, open);
      } else {
        r := PackTree(scope, createdAt, value, edge, spot, open);
      }
    }

    /** Write a shared tree or a root out as a snapshot of its own, and refer to it. */
    method PackSnapshot(scope: Scope, createdAt: string, value: Json, ghost edge: Edge, ghost spot: Spot,
                        ghost open: set<Node>)
      returns (r: Json)
      requires Packing(open) && (clean ==> NoReference(value)) && Tree(value)
      requires Large(codec, value) ==> Ready(scope, value, edge)
      requires edge.RootEdge? || (Shared(codec, counts, scope, value) && Large(codec, value))
      requires edge.RootEdge? ==> codec.digest(scope, value) in roots
      requires codec.digest(scope, value) !in snapshots
      requires forall node <- open :: codec.size(node.1) > codec.size(value)
      modifies this`snapshots, this`ledger
      ensures Packing(open) && Grew(old(snapshots), old(ledger), snapshots, ledger, edge)
      ensures Stands(codec, scope, value, r, snapshots.Keys) && Homed(codec, scope, value, r, spot, ledger.home)
      ensures IsReference(r)
      decreases codec.size(value), 3
    {
      var d := codec.digest(scope, value);
      var packed := PackTree(scope, createdAt, value, edge, Spot(d, []), open);
      GrewEmit(old(snapshots), old(ledger), snapshots, ledger, edge, d, Snapshot(scope, createdAt, packed), value);
      Emit(scope, createdAt, value, packed, open);
      ReferenceStands(scope, value, spot);
      r := codec.Ref(scope, value);
    }

    /** Store the snapshot of a tree just written out. */
    method Emit(scope: Scope, createdAt: string, value: Json, packed: Json, ghost open: set<Node>)
      requires Packing(open + {(scope, value)}) && (clean ==> NoReference(value))
      requires EarnedBy(counts, codec.digest(scope, value), roots)
      requires Tree(value) && !IsReference(packed) && Body(codec, scope, value, packed, snapshots.Keys)
      requires Homed(codec, scope, value, packed, Spot(codec.digest(scope, value), []), ledger.home)
      modifies this`snapshots, this`ledger
      ensures Packing(open)
              && snapshots == old(snapshots)[codec.digest(scope, value) := Snapshot(scope, createdAt, packed)]
      ensures ledger == old(ledger).(origin := old(ledger).origin[codec.digest(scope, value) := value])
    {
      var d := codec.digest(scope, value);
      var snapshot := Snapshot(scope, createdAt, packed);
      EmitSound(codec, snapshots, clean, ledger, (scope, value), packed, createdAt);
      EmitKept(codec, counts, snapshots, ledger, open, (scope, value), snapshot);
      snapshots := snapshots[d := snapshot];
      ledger := ledger.(origin := ledger.origin[d := value]);
    }

    /** Count the debug fields of every row. */
    method CountRows(rows: seq<Row>)
      requires codec.Sound() && counts == map[] && edges == map[]
      modifies this`counts, this`edges
      ensures Counting({}) && RootsTrue(rows, edges)
      ensures RootsCounted(codec, rows, edges, |rows|, 0)
    {
      for i := 0 to |rows|
        invariant Counting({}) && RootsTrue(rows, edges)
        invariant Upto(edges.Keys, i, 0) && RootsCounted(codec, rows, edges, i, 0)
      {
        for k := 0 to |DIAGNOSTIC_KEYS|
          invariant Counting({}) && RootsTrue(rows, edges)
          invariant Upto(edges.Keys, i, k) && RootsCounted(codec, rows, edges, i, k)
        {
          var key := DIAGNOSTIC_KEYS[k];
          ghost var was := edges;
          if Root(rows[i], key).Some? {
            KeysDiffer(k);
            Count(rows[i].scope, Root(rows[i], key).value, RootEdge(i, key), {});
          }
          CountedOn(codec, rows, was, edges, i, k);
        }
        RowCounted(codec, rows, edges, i);
      }
    }

    /** A row's features, each of its debug trees packed. */
    method PackRow(rows: seq<Row>, i: nat) returns (features: Json)
      requires i < |rows| && Packing({}) && RootsCounted(codec, rows, edges, |rows|, 0)
      requires roots == RootIds(codec, rows)
      requires Upto(ledger.entered, i, 0) && (clean ==> NoReference(rows[i].features))
      modifies this`snapshots, this`ledger
      ensures Packing({}) && Extends(old(snapshots), snapshots) && Upto(ledger.entered, i + 1, 0)
      ensures Stands(codec, rows[i].scope, rows[i].features, features, snapshots.Keys)
      ensures RootsPacked(features) && OnlyDebugChanged(rows[i].features, features)
    {
      features := rows[i].features;
      var scope := rows[i].scope;
      StandsForItself(codec, scope, features, snapshots.Keys);
      if !features.Obj? || IsReference(features) {
        NoRoots(features);
        return;
      }
      var fields := features.fields;
      for k := 0 to |DIAGNOSTIC_KEYS|
        invariant Packing({}) && Extends(old(snapshots), snapshots) && Upto(ledger.entered, i, k)
        invariant HalfPacked(codec, rows[i], fields, k, snapshots.Keys)
      {
        fields := PackField(rows, i, k, fields);
      }
      features := Obj(fields);
      FieldsPacked(codec, rows[i], fields, snapshots.Keys);
    }

    /** Pack one debug field of a row, when it is a tree. */
    method PackField(rows: seq<Row>, i: nat, k: nat, before: seq<Field>) returns (fields: seq<Field>)
      requires i < |rows| && k < |DIAGNOSTIC_KEYS| && Packing({}) && RootsCounted(codec, rows, edges, |rows|, 0)
      requires roots == RootIds(codec, rows)
      requires Upto(ledger.entered, i, k) && HalfPacked(codec, rows[i], before, k, snapshots.Keys)
      requires clean ==> NoReference(rows[i].features)
      modifies this`snapshots, this`ledger
      ensures Packing({}) && Extends(old(snapshots), snapshots) && Upto(ledger.entered, i, k + 1)
      ensures HalfPacked(codec, rows[i], fields, k + 1, snapshots.Keys)
    {
      var key := DIAGNOSTIC_KEYS[k];
      var value := Get(before, key);
      KeysDiffer(k);
      if value.None? || !Tree(value.value) {
        KeyTaken(ledger.entered, ledger.entered, i, k);
        return before;
      }
      ghost var ids, entered := snapshots.Keys, ledger.entered;
      RootReady(codec, rows, edges, entered, i, k);
      RootClean(rows[i].features, key);
      RootListed(codec, rows, i, k);
      var r := Pack(rows[i].scope, rows[i].servedAt, value.value, true, RootEdge(i, key), Spot("", []), {});
      KeyTaken(entered, ledger.entered, i, k);
      PackedOn(codec, rows[i], before, k, ids, r, snapshots.Keys);
      return Put(before, key, r);
    }

    /** A leaf, a reference or a small tree is left as it is. */
    lemma Itself(scope: Scope, value: Json, spot: Spot)
      requires codec.Sound() && (Tree(value) ==> codec.size(value) < MIN_SHARED_BYTES)
      ensures Stands(codec, scope, value, value, snapshots.Keys) && Homed(codec, scope, value, value, spot, ledger.home)
    {
      StandsForItself(codec, scope, value, snapshots.Keys);
      if Tree(value) {
        SmallHomed(codec, scope, value, spot, ledger.home);
      }
    }

    lemma ReferenceStands(scope: Scope, value: Json, spot: Spot)
      requires Tree(value) && codec.digest(scope, value) in snapshots
      ensures IsReference(codec.Ref(scope, value))
      ensures Stands(codec, scope, value, codec.Ref(scope, value), snapshots.Keys)
      ensures Homed(codec, scope, value, codec.Ref(scope, value), spot, ledger.home)
    {
    }

    /** Write a tree out at a spot: each member packed in turn. */
    method PackTree(scope: Scope, createdAt: string, value: Json, ghost edge: Edge, ghost here: Spot,
                    ghost open: set<Node>)
      returns (packed: Json)
      requires Packing(open) && (clean ==> NoReference(value)) && Tree(value)
      requires Large(codec, value) ==> Ready(scope, value, edge)
      requires codec.size(value) < MIN_SHARED_BYTES ==> edge.RootEdge?
      requires forall node <- open :: codec.size(node.1) > codec.size(value)
      requires !((edge.RootEdge? || Shared(codec, counts, scope, value)) && codec.digest(scope, value) in snapshots)
      modifies this`snapshots, this`ledger
      ensures Packing(open + {(scope, value)}) && Grew(old(snapshots), old(ledger), snapshots, ledger, edge)
      ensures !IsReference(packed) && Body(codec, scope, value, packed, snapshots.Keys)
      ensures Stands(codec, scope, value, packed, snapshots.Keys)
      ensures Homed(codec, scope, value, packed, here, ledger.home)
      ensures !(edge.RootEdge? || Shared(codec, counts, scope, value)) ==> Kept(codec, counts, snapshots, ledger, open)
      decreases codec.size(value), 2
    {
      ghost var node := (scope, value);
      EnterTree(node, edge, here, open);
      ghost var snapshots1, ledger1 := snapshots, ledger;
      var kids := PackMembers(scope, createdAt, value, edge, here, open);
      packed := Rebuild(value, kids);
      PackedTree(codec, scope, value, kids, snapshots, here, ledger.home);
      BodyStands(codec, scope, value, packed, snapshots.Keys);
      GrewAfter(old(snapshots), old(ledger), snapshots1, ledger1, snapshots, ledger, edge, node);
      if !(edge.RootEdge? || Shared(codec, counts, scope, value)) {
        Unshared(codec, counts, snapshots, ledger, open, node);
      }
    }

    /** Pack the members of a tree being written out. */
    method PackMembers(scope: Scope, createdAt: string, value: Json, ghost edge: Edge, ghost here: Spot,
                       ghost open: set<Node>)
      returns (kids: seq<Json>)
      requires Packing(open + {(scope, value)}) && (clean ==> NoReference(value)) && Tree(value)
      requires Large(codec, value) ==>
                 Written((scope, value), edge, here, 0) && edge in edges && edges[edge] == (scope, value)
      requires forall node <- open :: codec.size(node.1) > codec.size(value)
      modifies this`snapshots, this`ledger
      ensures Packing(open + {(scope, value)}) && |kids| == Arity(value)
      ensures GrewBelow(old(snapshots), old(ledger), snapshots, ledger, (scope, value))
      ensures KidsPacked(codec, scope, value, kids, snapshots, here, ledger.home)
      decreases codec.size(value), 1
    {
      ghost var node := (scope, value);
      kids := [];
      for i := 0 to Arity(value)
        invariant Packing(open + {node}) && GrewBelow(old(snapshots), old(ledger), snapshots, ledger, node)
        invariant |kids| == i && KidsPacked(codec, scope, value, kids, snapshots, here, ledger.home)
        invariant Large(codec, value) ==> Written(node, edge, here, |kids|)
      {
        ghost var snapshots1, ledger1 := snapshots, ledger;
        kids := PackMember(scope, createdAt, value, kids, edge, here, open);
        GrewOn(old(snapshots), old(ledger), snapshots1, ledger1, snapshots, ledger, node, i);
      }
    }

    /** Pack the next member of a tree being written out. */
    method PackMember(scope: Scope, createdAt: string, value: Json, before: seq<Json>, ghost edge: Edge,
                      ghost here: Spot, ghost open: set<Node>)
      returns (kids: seq<Json>)
      requires Packing(open + {(scope, value)}) && (clean ==> NoReference(value)) && Tree(value)
               && |before| < Arity(value)
      requires Large(codec, value) ==>
                 Written((scope, value), edge, here, |before|) && edge in edges && edges[edge] == (scope, value)
      requires forall node <- open :: codec.size(node.1) > codec.size(value)
      requires KidsPacked(codec, scope, value, before, snapshots, here, ledger.home)
      modifies this`snapshots, this`ledger
      ensures Packing(open + {(scope, value)}) && |kids| == |before| + 1
      ensures Grew(old(snapshots), old(ledger), snapshots, ledger, KidEdge(scope, value, |before|))
      ensures KidsPacked(codec, scope, value, kids, snapshots, here, ledger.home)
      ensures Large(codec, value) ==> Written((scope, value), edge, here, |before| + 1)
      decreases codec.size(value), 0
    {
      var i := |before|;
      ghost var node := (scope, value);
      KidReady(node, edge, here, i);
      var kid := Pack(scope, createdAt, Kid(value, i), false, KidEdge(scope, value, i), Spot(here.id, here.path + [i]),
                      open + {node});
      KidsStay(codec, scope, value, before, old(snapshots), old(ledger), snapshots, ledger, here);
      kids := before + [kid];
    }

    /** Record that a large tree is being written out, at that spot and by that edge. */
    ghost method EnterTree(node: Node, edge: Edge, here: Spot, open: set<Node>)
      requires Packing(open) && node !in open
      requires Large(codec, node.1) ==> Ready(node.0, node.1, edge)
      requires !((edge.RootEdge? || Shared(codec, counts, node.0, node.1)) && codec.digest(node.0, node.1) in snapshots)
      modifies this`ledger
      ensures Packing(open + {node}) && Grew(snapshots, old(ledger), snapshots, ledger, edge)
      ensures Large(codec, node.1) ==> Written(node, edge, here, 0)
      ensures node !in old(ledger).home
    {
      if Large(codec, node.1) {
        if node in ledger.home {
          WrittenBefore(codec, counts, edges, snapshots, ledger, open, node, edge);
          assert false;
        }
        EnterKeeps(codec, counts, edges, snapshots, clean, ledger, open, node, edge, here);
        ledger := Enter(ledger, node, edge, here);
      }
    }

    lemma KidReady(node: Node, edge: Edge, here: Spot, i: nat)
      requires codec.Sound() && Tallied(codec, counts, edges) && Explored(codec, counts, edges, {})
      requires Tree(node.1) && i < Arity(node.1)
      requires Large(codec, node.1) ==> Written(node, edge, here, i) && edge in edges && edges[edge] == node
      ensures Large(codec, Kid(node.1, i)) ==> Ready(node.0, Kid(node.1, i), KidEdge(node.0, node.1, i))
    {
      if Large(codec, Kid(node.1, i)) {
        assert KidsWalked(codec, edges, node.0, node.1, Arity(node.1));
      }
    }

    /** While a large tree is written out: it is at its home, and its later members are not yet taken. */
    ghost predicate Written(node: Node, edge: Edge, here: Spot, i: nat)
      reads this
    {
      && node in ledger.home && ledger.home[node] == here
      && node in ledger.via && ledger.via[node] == edge
      && forall j | i <= j < Arity(node.1) :: KidEdge(node.0, node.1, j) !in ledger.entered
    }
  }

  /** A tree that is neither shared nor a root needs no snapshot. */
  lemma Unshared(codec: Codec, counts: map<string, nat>, snapshots: Snapshots, ledger: Ledger, open: set<Node>,
                 node: Node)
    requires Kept(codec, counts, snapshots, ledger, open + {node}) && !Shared(codec, counts, node.0, node.1)
    requires node in ledger.via ==> !ledger.via[node].RootEdge?
    ensures Kept(codec, counts, snapshots, ledger, open)
  {
  }

  /** Packing the members of a tree enters members of that tree, and of trees not yet written. */
  ghost predicate GrewBelow(snapshots: Snapshots, ledger: Ledger, snapshots': Snapshots, ledger': Ledger, node: Node) {
    && Extends(snapshots, snapshots') && Extends(ledger.home, ledger'.home)
    && Extends(ledger.via, ledger'.via) && Extends(ledger.origin, ledger'.origin)
    && forall e <- ledger'.entered ::
         e in ledger.entered || (e.KidEdge? && ((e.scope, e.parent) == node || (e.scope, e.parent) !in ledger.home))
  }

  lemma GrewOn(snapshots: Snapshots, ledger: Ledger, snapshots1: Snapshots, ledger1: Ledger,
               snapshots2: Snapshots, ledger2: Ledger, node: Node, i: nat)
    requires GrewBelow(snapshots, ledger, snapshots1, ledger1, node)
    requires Grew(snapshots1, ledger1, snapshots2, ledger2, KidEdge(node.0, node.1, i))
    ensures GrewBelow(snapshots, ledger, snapshots2, ledger2, node)
  {
  }

  lemma GrewEmit(snapshots: Snapshots, ledger: Ledger, snapshots': Snapshots, ledger': Ledger, edge: Edge,
                 d: string, snapshot: Snapshot, value: Json)
    requires Grew(snapshots, ledger, snapshots', ledger', edge) && d !in snapshots && d !in ledger.origin
    ensures Grew(snapshots, ledger, snapshots'[d := snapshot], ledger'.(origin := ledger'.origin[d := value]), edge)
  {
  }

  lemma GrewAfter(snapshots: Snapshots, ledger: Ledger, snapshots1: Snapshots, ledger1: Ledger,
                  snapshots2: Snapshots, ledger2: Ledger, edge: Edge, node: Node)
    requires Grew(snapshots, ledger, snapshots1, ledger1, edge) && node !in ledger.home
    requires GrewBelow(snapshots1, ledger1, snapshots2, ledger2, node)
    ensures Grew(snapshots, ledger, snapshots2, ledger2, edge)
  {
  }

  // ---- Rows ----

  /** The snapshots a reader is given for a row: those of its own user and job. */
  function OfScope(snapshots: Snapshots, scope: Scope): Snapshots {
    map id | id in snapshots && snapshots[id].scope == scope :: snapshots[id]
  }

  function Root(row: Row, key: string): Option<Json> {
    if row.features.Obj? then Get(row.features.fields, key) else None
  }

  /** A digest of the scope has its snapshot in the scope. */
  lemma InScope(codec: Codec, scope: Scope, snapshots: Snapshots, origin: map<string, Json>)
    requires codec.Sound() && Genuine(codec, snapshots, origin, snapshots.Keys)
    ensures forall u | codec.digest(scope, u) in snapshots :: codec.digest(scope, u) in OfScope(snapshots, scope)
  {
    forall u | codec.digest(scope, u) in snapshots ensures codec.digest(scope, u) in OfScope(snapshots, scope) {
      var id := codec.digest(scope, u);
      assert codec.digest(snapshots[id].scope, origin[id]) == id;
    }
  }

  lemma ScopeIsGenuine(codec: Codec, scope: Scope, snapshots: Snapshots, origin: map<string, Json>)
    requires codec.Sound() && Genuine(codec, snapshots, origin, snapshots.Keys)
    ensures Genuine(codec, OfScope(snapshots, scope), origin, OfScope(snapshots, scope).Keys)
  {
    var shown := OfScope(snapshots, scope);
    InScope(codec, scope, snapshots, origin);
    forall id | id in shown ensures Body(codec, scope, origin[id], shown[id].payload, shown.Keys) {
      forall i | 0 <= i < Arity(origin[id]) {
        StandsMore(codec, scope, Kid(origin[id], i), Kid(shown[id].payload, i), snapshots.Keys, shown.Keys);
      }
    }
  }

  /** What compaction leaves of a row expands to the original exactly when the original had no
      reference of its own. */
  lemma RoundTrip(codec: Codec, scope: Scope, v: Json, r: Json, snapshots: Snapshots, origin: map<string, Json>)
    requires codec.Sound() && Stands(codec, scope, v, r, snapshots.Keys)
    requires Genuine(codec, snapshots, origin, snapshots.Keys)
    ensures Expand(r, OfScope(snapshots, scope), {}) == Ok(v) <==> NoReference(v)
  {
    var shown := OfScope(snapshots, scope);
    InScope(codec, scope, snapshots, origin);
    ScopeIsGenuine(codec, scope, snapshots, origin);
    if NoReference(v) {
      StandsMore(codec, scope, v, r, snapshots.Keys, shown.Keys);
      StandsExpands(codec, scope, v, r, shown, origin, {});
    }
    forall id | id in shown ensures Container(shown[id].payload) {
      assert SameShape(origin[id], shown[id].payload);
    }
    if Expand(r, shown, {}) == Ok(v) {
      ExpandedHasNoReference(r, shown, {});
    }
  }

  /** A row that came with a reference of its own is read back with a gap in its place. */
  lemma ReferenceIsLost(id: string)
    ensures var features := Obj([Field("owner_request", Obj([Field(REFERENCE_KEY, Str(id))]))]);
            && !NoReference(features)
            && Expand(features, map[], {}) == Ok(Obj([Field("owner_request", Missing(id))]))
  {
    var reference := Obj([Field(REFERENCE_KEY, Str(id))]);
    var features := Obj([Field("owner_request", reference)]);
    assert Kid(features, 0) == reference && IsReference(reference) && !IsReference(features);
    assert Expand(reference, map[], {}) == Ok(Missing(id));
    var kids := ExpandKids(features, map[], {}, 1);
    KidsExpand(features, map[], {}, 1);
    assert kids.value == [Missing(id)];
    assert Rebuild(features, [Missing(id)]) == Obj([Field("owner_request", Missing(id))]);
  }

  /** Assigning a key changes its first field only. */
  lemma {:induction false} PutAt(fields: seq<Field>, key: string, value: Json) returns (j: nat)
    requires Get(fields, key).Some?
    ensures j < |fields| && fields[j] == Field(key, Get(fields, key).value)
    ensures forall i | 0 <= i < j :: fields[i].key != key
    ensures Put(fields, key, value) == fields[j := Field(key, value)]
  {
    if fields[0].key == key {
      j := 0;
    } else {
      var k := PutAt(fields[1..], key, value);
      j := k + 1;
      forall i | 0 <= i < j ensures fields[i].key != key {
        if i > 0 { assert fields[i] == fields[1..][i - 1]; }
      }
    }
  }

  /** Packing one debug field leaves the row's features standing for the original. */
  lemma PutStands(codec: Codec, scope: Scope, before: seq<Field>, fields: seq<Field>, key: string, r: Json,
                  ids: set<string>)
    requires Body(codec, scope, Obj(before), Obj(fields), ids)
    requires Get(fields, key).Some? && Get(fields, key) == Get(before, key)
    requires Stands(codec, scope, Get(before, key).value, r, ids)
    ensures Body(codec, scope, Obj(before), Obj(Put(fields, key, r)), ids)
  {
    var j := PutAt(fields, key, r);
    var k := PutAt(before, key, r);
    assert j == k;
    var v, after := Obj(before), Obj(Put(fields, key, r));
    forall i | 0 <= i < Arity(v) ensures Stands(codec, scope, Kid(v, i), Kid(after, i), ids) {
      assert Stands(codec, scope, Kid(v, i), Kid(Obj(fields), i), ids);
    }
  }

  /** The debug fields of the rows before (row, k) are counted or taken, and those from it on are not. */
  ghost predicate Upto(edges: set<Edge>, row: nat, k: nat)
    requires k <= |DIAGNOSTIC_KEYS|
  {
    forall e <- edges :: e.RootEdge? ==> e.row < row || (e.row == row && e.key in DIAGNOSTIC_KEYS[..k])
  }

  /** The digests of the debug trees. */
  ghost function RootIds(codec: Codec, rows: seq<Row>): set<string>
  {
    set i, j, id | 0 <= i < |rows| && 0 <= j < |DIAGNOSTIC_KEYS| && id in RootId(codec, rows[i], j) :: id
  }

  ghost function RootId(codec: Codec, row: Row, j: nat): set<string>
    requires j < |DIAGNOSTIC_KEYS|
  {
    var root := Root(row, DIAGNOSTIC_KEYS[j]);
    if root.Some? && Tree(root.value) then {codec.digest(row.scope, root.value)} else {}
  }

  lemma RootListed(codec: Codec, rows: seq<Row>, i: nat, j: nat)
    requires i < |rows| && j < |DIAGNOSTIC_KEYS|
    requires Root(rows[i], DIAGNOSTIC_KEYS[j]).Some? && Tree(Root(rows[i], DIAGNOSTIC_KEYS[j]).value)
    ensures codec.digest(rows[i].scope, Root(rows[i], DIAGNOSTIC_KEYS[j]).value) in RootIds(codec, rows)
  {
    assert codec.digest(rows[i].scope, Root(rows[i], DIAGNOSTIC_KEYS[j]).value) in RootId(codec, rows[i], j);
  }

  /** A root edge leads to the debug field it names. */
  ghost predicate RootsTrue(rows: seq<Row>, edges: map<Edge, Node>) {
    forall e <- edges | e.RootEdge? ::
      && e.row < |rows| && e.key in DIAGNOSTIC_KEYS && edges[e].0 == rows[e.row].scope
      && Root(rows[e.row], e.key) == Some(edges[e].1)
  }

  ghost predicate RootsCounted(codec: Codec, rows: seq<Row>, edges: map<Edge, Node>, row: nat, k: nat)
    requires k <= |DIAGNOSTIC_KEYS|
  {
    forall i, j | 0 <= i < |rows| && 0 <= j < |DIAGNOSTIC_KEYS| && (i < row || (i == row && j < k)) ::
      var key := DIAGNOSTIC_KEYS[j];
      Root(rows[i], key).Some? && Large(codec, Root(rows[i], key).value) ==>
        RootEdge(i, key) in edges && edges[RootEdge(i, key)] == (rows[i].scope, Root(rows[i], key).value)
  }

  lemma KeysDiffer(k: nat)
    requires k < |DIAGNOSTIC_KEYS|
    ensures DIAGNOSTIC_KEYS[k] !in DIAGNOSTIC_KEYS[..k] && DIAGNOSTIC_KEYS[k] != REFERENCE_KEY
  {
  }

  /** The first k debug fields of a row are packed, and the others are as they came. */
  ghost predicate HalfPacked(codec: Codec, row: Row, fields: seq<Field>, k: nat, ids: set<string>) {
    && row.features.Obj? && Body(codec, row.scope, row.features, Obj(fields), ids)
    && SameElsewhere(row.features.fields, fields)
    && forall j | 0 <= j < |DIAGNOSTIC_KEYS| ::
       PackedField(Get(row.features.fields, DIAGNOSTIC_KEYS[j]), Get(fields, DIAGNOSTIC_KEYS[j]), j < k)
  }

  /** Only debug fields changed. */
  ghost predicate SameElsewhere(before: seq<Field>, after: seq<Field>) {
    |before| == |after| && forall i | 0 <= i < |before| ::
      after[i].key == before[i].key && (before[i].key in DIAGNOSTIC_KEYS || after[i] == before[i])
  }

  predicate PackedField(before: Option<Json>, after: Option<Json>, done: bool) {
    if done then after.Some? && Container(after.value) ==> IsReference(after.value) else after == before
  }

  lemma KeyTaken(entered: set<Edge>, entered': set<Edge>, i: nat, k: nat)
    requires k < |DIAGNOSTIC_KEYS| && Upto(entered, i, k)
    requires forall e <- entered' :: e.RootEdge? ==> e in entered || e == RootEdge(i, DIAGNOSTIC_KEYS[k])
    ensures Upto(entered', i, k + 1)
  {
    assert DIAGNOSTIC_KEYS[..k + 1] == DIAGNOSTIC_KEYS[..k] + [DIAGNOSTIC_KEYS[k]];
  }

  lemma RootReady(codec: Codec, rows: seq<Row>, edges: map<Edge, Node>, entered: set<Edge>, i: nat, k: nat)
    requires i < |rows| && k < |DIAGNOSTIC_KEYS| && RootsCounted(codec, rows, edges, |rows|, 0) && Upto(entered, i, k)
    ensures var key := DIAGNOSTIC_KEYS[k];
            Root(rows[i], key).Some? && Large(codec, Root(rows[i], key).value) ==>
              && RootEdge(i, key) in edges && edges[RootEdge(i, key)] == (rows[i].scope, Root(rows[i], key).value)
              && RootEdge(i, key) !in entered
  {
    KeysDiffer(k);
  }

  lemma RootClean(features: Json, key: string)
    requires features.Obj? && Get(features.fields, key).Some?
    ensures NoReference(features) ==> NoReference(Get(features.fields, key).value)
  {
    GetField(features.fields, key);
    var i :| 0 <= i < |features.fields| && features.fields[i] == Field(key, Get(features.fields, key).value);
    assert Kid(features, i) == features.fields[i].value;
  }

  lemma PackedOn(codec: Codec, row: Row, fields: seq<Field>, k: nat, ids: set<string>, r: Json, ids': set<string>)
    requires k < |DIAGNOSTIC_KEYS| && HalfPacked(codec, row, fields, k, ids) && ids <= ids'
    requires var value := Get(fields, DIAGNOSTIC_KEYS[k]);
             value.Some? && Stands(codec, row.scope, value.value, r, ids') && IsReference(r)
    ensures HalfPacked(codec, row, Put(fields, DIAGNOSTIC_KEYS[k], r), k + 1, ids')
  {
    var key := DIAGNOSTIC_KEYS[k];
    BodyMore(codec, row.scope, row.features, Obj(fields), ids, ids');
    assert PackedField(Get(row.features.fields, key), Get(fields, key), false);
    PutStands(codec, row.scope, row.features.fields, fields, key, r, ids');
    var at := PutAt(fields, key, r);
    assert row.features.fields[at].key == key;
    forall j | 0 <= j < |DIAGNOSTIC_KEYS|
      ensures PackedField(Get(row.features.fields, DIAGNOSTIC_KEYS[j]), Get(Put(fields, key, r), DIAGNOSTIC_KEYS[j]),
                          j < k + 1)
    {
      assert PackedField(Get(row.features.fields, DIAGNOSTIC_KEYS[j]), Get(fields, DIAGNOSTIC_KEYS[j]), j < k);
      GetPut(fields, key, r, DIAGNOSTIC_KEYS[j]);
      DifferentKeys(j, k);
    }
  }

  lemma DifferentKeys(j: nat, k: nat)
    requires j < |DIAGNOSTIC_KEYS| && k < |DIAGNOSTIC_KEYS|
    ensures DIAGNOSTIC_KEYS[j] == DIAGNOSTIC_KEYS[k] ==> j == k
  {
  }

  /** Every debug tree of the row is a reference now, and the row stands for what it was. */
  lemma FieldsPacked(codec: Codec, row: Row, fields: seq<Field>, ids: set<string>)
    requires HalfPacked(codec, row, fields, |DIAGNOSTIC_KEYS|, ids) && !IsReference(row.features)
    ensures Stands(codec, row.scope, row.features, Obj(fields), ids)
    ensures RootsPacked(Obj(fields)) && SameElsewhere(row.features.fields, fields)
  {
    forall j | 0 <= j < |DIAGNOSTIC_KEYS|
      ensures var root := Get(fields, DIAGNOSTIC_KEYS[j]);
                root.Some? && Container(root.value) ==> IsReference(root.value)
    {
      assert PackedField(Get(row.features.fields, DIAGNOSTIC_KEYS[j]), Get(fields, DIAGNOSTIC_KEYS[j]), true);
    }
  }

  ghost predicate OnlyDebugChanged(before: Json, after: Json) {
    if before.Obj? then after.Obj? && SameElsewhere(before.fields, after.fields) else after == before
  }

  lemma NoRoots(features: Json)
    requires !features.Obj? || IsReference(features)
    ensures RootsPacked(features)
  {
    if features.Obj? {
      forall j | 0 <= j < |DIAGNOSTIC_KEYS| ensures Get(features.fields, DIAGNOSTIC_KEYS[j]).None? {
        KeysDiffer(j);
        assert Get(features.fields[1..], DIAGNOSTIC_KEYS[j]).None?;
      }
    }
  }

  /** No debug field holds a tree inline. */
  ghost predicate RootsPacked(features: Json) {
    features.Obj? ==>
      forall j | 0 <= j < |DIAGNOSTIC_KEYS| ::
        var root := Get(features.fields, DIAGNOSTIC_KEYS[j]);
        root.Some? && Container(root.value) ==> IsReference(root.value)
  }

  lemma CountedOn(codec: Codec, rows: seq<Row>, edges: map<Edge, Node>, edges': map<Edge, Node>, i: nat, k: nat)
    requires i < |rows| && k < |DIAGNOSTIC_KEYS|
    requires Upto(edges.Keys, i, k) && RootsCounted(codec, rows, edges, i, k) && Extends(edges, edges')
    requires forall e <- edges' :: e.RootEdge? ==> e in edges || e == RootEdge(i, DIAGNOSTIC_KEYS[k])
    requires var root := Root(rows[i], DIAGNOSTIC_KEYS[k]);
             root.Some? && Large(codec, root.value) ==>
               RootEdge(i, DIAGNOSTIC_KEYS[k]) in edges'
                   && edges'[RootEdge(i, DIAGNOSTIC_KEYS[k])] == (rows[i].scope, root.value)
    ensures Upto(edges'.Keys, i, k + 1) && RootsCounted(codec, rows, edges', i, k + 1)
  {
    assert DIAGNOSTIC_KEYS[..k + 1] == DIAGNOSTIC_KEYS[..k] + [DIAGNOSTIC_KEYS[k]];
  }

  lemma RowCounted(codec: Codec, rows: seq<Row>, edges: map<Edge, Node>, i: nat)
    requires i < |rows| && Upto(edges.Keys, i, |DIAGNOSTIC_KEYS|)
             && RootsCounted(codec, rows, edges, i, |DIAGNOSTIC_KEYS|)
    ensures Upto(edges.Keys, i + 1, 0) && RootsCounted(codec, rows, edges, i + 1, 0)
  {
  }

  /** What compaction made of one row. */
  ghost predicate RowPacked(codec: Codec, row: Row, out: Row, ids: set<string>) {
    && out.scope == row.scope && out.servedAt == row.servedAt
    && RootsPacked(out.features) && OnlyDebugChanged(row.features, out.features)
    && Stands(codec, row.scope, row.features, out.features, ids)
  }

  ghost predicate Clean(rows: seq<Row>) {
    forall i | 0 <= i < |rows| :: NoReference(rows[i].features)
  }

  /** A row's reader gets the original back exactly when it had no reference of its own, and
      then meets only snapshots of the row's own scope. */
  ghost predicate Readable(row: Row, out: Row, snapshots: Snapshots) {
    && (Expand(out.features, OfScope(snapshots, row.scope), {}) == Ok(row.features) <==> NoReference(row.features))
    && (NoReference(row.features) ==> Resolves(out.features, row.scope, snapshots))
  }

  // ---- No snapshot without need ----

  function RefTo(id: string): Json {
    Obj([Field(REFERENCE_KEY, Str(id))])
  }

  /** A debug field of some row is the reference to the snapshot. */
  ghost predicate OfDebugField(out: seq<Row>, id: string) {
    exists i, j :: 0 <= i < |out| && 0 <= j < |DIAGNOSTIC_KEYS| && Root(out[i], DIAGNOSTIC_KEYS[j]) == Some(RefTo(id))
  }

  ghost predicate RefersAt(snapshots: Snapshots, a: Spot, id: string) {
    a.id in snapshots && NodeAt(snapshots[a.id].payload, a.path) == Some(RefTo(id))
  }

  /** Two places of the snapshots' payloads refer to the snapshot. */
  ghost predicate Repeated(snapshots: Snapshots, id: string) {
    exists a, b :: a != b && RefersAt(snapshots, a, id) && RefersAt(snapshots, b, id)
  }

  ghost predicate OfLarge(codec: Codec, scope: Scope, id: string) {
    exists v :: id == codec.digest(scope, v) && Large(codec, v)
  }

  /** A tree has a snapshot only when it is a debug field, or is large and repeated. */
  ghost predicate NeededOnly(codec: Codec, out: seq<Row>, snapshots: Snapshots) {
    forall id <- snapshots ::
      OfDebugField(out, id) || (Repeated(snapshots, id) && OfLarge(codec, snapshots[id].scope, id))
  }

  /** The tree is written out at the spot. */
  ghost predicate PlacedAt(codec: Codec, snapshots: Snapshots, origin: map<string, Json>, node: Node, spot: Spot) {
    && spot.id in snapshots && snapshots[spot.id].scope == node.0 && OriginalAt(origin, spot) == Some(node.1)
    && var x := NodeAt(snapshots[spot.id].payload, spot.path);
    x.Some? && !IsReference(x.value) && Body(codec, node.0, node.1, x.value, snapshots.Keys)
  }

  /** What a compaction leaves to reason with once its rows are packed. */
  ghost predicate Compacted(codec: Codec, rows: seq<Row>, out: seq<Row>, snapshots: Snapshots,
                            origin: map<string, Json>, counts: map<string, nat>, edges: map<Edge, Node>)
  {
    && CountsRight(codec, counts, edges, {}) && RootsTrue(rows, edges)
    && Genuine(codec, snapshots, origin, snapshots.Keys) && MadeOnce(codec, snapshots, origin)
    && |out| == |rows| && forall i | 0 <= i < |rows| :: RowPacked(codec, rows[i], out[i], snapshots.Keys)
  }

  lemma {:induction false} NodeBelow(v: Json, path: seq<nat>, i: nat)
    requires NodeAt(v, path).Some? && i < Arity(NodeAt(v, path).value)
    ensures NodeAt(v, path + [i]) == Some(Kid(NodeAt(v, path).value, i))
    decreases |path|
  {
    if path != [] {
      NodeBelow(Kid(v, path[0]), path[1..], i);
      assert (path + [i])[1..] == path[1..] + [i];
    }
  }

  /** The first field of a key is at the same place before and after. */
  lemma {:induction false} SameField(before: seq<Field>, after: seq<Field>, key: string) returns (i: nat)
    requires SameShape(Obj(before), Obj(after)) && Get(before, key).Some?
    ensures i < |before| && before[i].key == key
    ensures Get(before, key) == Some(before[i].value) && Get(after, key) == Some(after[i].value)
  {
    if before[0].key == key {
      i := 0;
    } else {
      var k := SameField(before[1..], after[1..], key);
      i := k + 1;
    }
  }

  lemma RowBody(codec: Codec, row: Row, out: Row, ids: set<string>, j: nat)
    requires RowPacked(codec, row, out, ids) && j < |DIAGNOSTIC_KEYS| && Root(row, DIAGNOSTIC_KEYS[j]).Some?
    ensures Body(codec, row.scope, row.features, out.features, ids)
  {
    KeysDiffer(j);
    GetField(row.features.fields, DIAGNOSTIC_KEYS[j]);
    assert !IsReference(row.features) && !IsReference(out.features);
  }

  /** A debug tree of a row is a reference to its own snapshot afterwards. */
  lemma RootOut(codec: Codec, row: Row, out: Row, ids: set<string>, j: nat)
    requires RowPacked(codec, row, out, ids) && j < |DIAGNOSTIC_KEYS|
    requires Root(row, DIAGNOSTIC_KEYS[j]).Some? && Tree(Root(row, DIAGNOSTIC_KEYS[j]).value)
    ensures var v := Root(row, DIAGNOSTIC_KEYS[j]).value;
            Root(out, DIAGNOSTIC_KEYS[j]) == Some(codec.Ref(row.scope, v)) && codec.digest(row.scope, v) in ids
  {
    var key := DIAGNOSTIC_KEYS[j];
    KeysDiffer(j);
    RowBody(codec, row, out, ids, j);
    var i := SameField(row.features.fields, out.features.fields, key);
    TreeOut(codec, row.scope, Kid(row.features, i), Kid(out.features, i), ids);
  }

  lemma TreeOut(codec: Codec, scope: Scope, v: Json, w: Json, ids: set<string>)
    requires Tree(v) && Stands(codec, scope, v, w, ids) && (Container(w) ==> IsReference(w))
    ensures w == codec.Ref(scope, v) && codec.digest(scope, v) in ids
  {
    assert IsReference(w) || Body(codec, scope, v, w, ids);
  }

  /** A tree with its own snapshot is written out there. */
  lemma OwnPlace(codec: Codec, snapshots: Snapshots, origin: map<string, Json>, node: Node)
    requires codec.Sound() && Genuine(codec, snapshots, origin, snapshots.Keys) && Id(codec, node) in snapshots
    ensures PlacedAt(codec, snapshots, origin, node, Spot(Id(codec, node), []))
  {
    var id := Id(codec, node);
    assert codec.digest(snapshots[id].scope, origin[id]) == id;
  }

  /** A member of a tree that is written out: it is so too, just below or in its own snapshot. */
  lemma MemberPlaced(codec: Codec, snapshots: Snapshots, origin: map<string, Json>, node: Node, spot: Spot, i: nat)
    requires codec.Sound() && Genuine(codec, snapshots, origin, snapshots.Keys)
    requires PlacedAt(codec, snapshots, origin, node, spot) && i < Arity(node.1) && Tree(Kid(node.1, i))
    ensures var kid, below := (node.0, Kid(node.1, i)), Spot(spot.id, spot.path + [i]);
            || PlacedAt(codec, snapshots, origin, kid, below)
            || (Id(codec, kid) in snapshots && RefersAt(snapshots, below, Id(codec, kid)))
  {
    NodeBelow(origin[spot.id], spot.path, i);
    NodeBelow(snapshots[spot.id].payload, spot.path, i);
    var x := NodeAt(snapshots[spot.id].payload, spot.path).value;
    assert Stands(codec, node.0, Kid(node.1, i), Kid(x, i), snapshots.Keys);
  }

  ghost function Larger(codec: Codec, edges: map<Edge, Node>, e: Edge): set<Edge>
    requires e in edges
  {
    set f | f in edges && codec.size(edges[f].1) > codec.size(edges[e].1)
  }

  /** Every tree that was counted is written out. */
  lemma {:induction false} Placed(codec: Codec, rows: seq<Row>, out: seq<Row>, snapshots: Snapshots,
                                  origin: map<string, Json>, counts: map<string, nat>, edges: map<Edge, Node>,
                                  e: Edge)
    returns (spot: Spot)
    requires Compacted(codec, rows, out, snapshots, origin, counts, edges) && e in edges
    ensures PlacedAt(codec, snapshots, origin, edges[e], spot)
    decreases Larger(codec, edges, e)
  {
    var node := edges[e];
    match e {
      case RootEdge(i, key) =>
        var j :| 0 <= j < |DIAGNOSTIC_KEYS| && DIAGNOSTIC_KEYS[j] == key;
        RootOut(codec, rows[i], out[i], snapshots.Keys, j);
        spot := Spot(Id(codec, node), []);
        OwnPlace(codec, snapshots, origin, node);
      case KidEdge(scope, parent, i) =>
        var f := LeadsTo(codec, counts, edges, (scope, parent));
        assert Larger(codec, edges, f) < Larger(codec, edges, e) by { assert f in Larger(codec, edges, e); }
        var above := Placed(codec, rows, out, snapshots, origin, counts, edges, f);
        MemberPlaced(codec, snapshots, origin, (scope, parent), above, i);
        spot := Spot(above.id, above.path + [i]);
        if !PlacedAt(codec, snapshots, origin, node, spot) {
          spot := Spot(Id(codec, node), []);
          OwnPlace(codec, snapshots, origin, node);
        }
    }
  }

  lemma LeadsTo(codec: Codec, counts: map<string, nat>, edges: map<Edge, Node>, node: Node) returns (f: Edge)
    requires CountsRight(codec, counts, edges, {}) && Id(codec, node) in counts
    ensures f in edges && edges[f] == node
  {
    assert Led(codec, edges, Id(codec, node));
    f :| f in edges && Id(codec, edges[f]) == Id(codec, node);
  }

  /** The place is that of a member of the tree. */
  ghost predicate MemberAt(origin: map<string, Json>, a: Spot, parent: Json, index: nat) {
    && a.path != [] && a.path[|a.path| - 1] == index
    && OriginalAt(origin, Spot(a.id, a.path[..|a.path| - 1])) == Some(parent)
  }

  /** The place where the parent of a tree with its own snapshot refers to it. */
  lemma Referred(codec: Codec, rows: seq<Row>, out: seq<Row>, snapshots: Snapshots, origin: map<string, Json>,
                 counts: map<string, nat>, edges: map<Edge, Node>, e: Edge)
    returns (a: Spot)
    requires Compacted(codec, rows, out, snapshots, origin, counts, edges)
    requires e in edges && e.KidEdge? && Id(codec, edges[e]) in snapshots
    ensures RefersAt(snapshots, a, Id(codec, edges[e])) && MemberAt(origin, a, e.parent, e.index)
  {
    var node, parent := edges[e], (e.scope, e.parent);
    var f := LeadsTo(codec, counts, edges, parent);
    var above := Placed(codec, rows, out, snapshots, origin, counts, edges, f);
    MemberPlaced(codec, snapshots, origin, parent, above, e.index);
    a := Spot(above.id, above.path + [e.index]);
    assert a.path[..|a.path| - 1] == above.path;
    OwnPlace(codec, snapshots, origin, node);
    OncePlaced(codec, snapshots, origin, node, a, Spot(Id(codec, node), []));
  }

  lemma OncePlaced(codec: Codec, snapshots: Snapshots, origin: map<string, Json>, node: Node, a: Spot, b: Spot)
    requires MadeOnce(codec, snapshots, origin) && Large(codec, node.1) && a != b
    requires PlacedAt(codec, snapshots, origin, node, b)
    ensures !PlacedAt(codec, snapshots, origin, node, a)
  {
    if PlacedAt(codec, snapshots, origin, node, a) {
      var x, y := NodeAt(snapshots[a.id].payload, a.path).value, NodeAt(snapshots[b.id].payload, b.path).value;
      assert Written(snapshots, a, x) && Written(snapshots, b, y);
    }
  }

  lemma NoneWithoutNeed(codec: Codec, rows: seq<Row>, out: seq<Row>, snapshots: Snapshots, origin: map<string, Json>,
                        counts: map<string, nat>, edges: map<Edge, Node>)
    requires Compacted(codec, rows, out, snapshots, origin, counts, edges)
    requires Earned(counts, snapshots, RootIds(codec, rows))
    ensures NeededOnly(codec, out, snapshots)
  {
    forall id | id in snapshots
      ensures OfDebugField(out, id) || (Repeated(snapshots, id) && OfLarge(codec, snapshots[id].scope, id))
    {
      if id in RootIds(codec, rows) {
        RootNeeded(codec, rows, out, snapshots.Keys, id);
      } else {
        assert EarnedBy(counts, id, RootIds(codec, rows)) && LedTwice(codec, edges, id);
        var e, f :| e in edges && f in edges && e != f && Id(codec, edges[e]) == id && Id(codec, edges[f]) == id;
        NotRoot(codec, rows, edges, e);
        NotRoot(codec, rows, edges, f);
        ReferredTwice(codec, rows, out, snapshots, origin, counts, edges, e, f);
      }
    }
  }

  /** Members at two places of the trees walked are referred to from two places. */
  lemma ReferredTwice(codec: Codec, rows: seq<Row>, out: seq<Row>, snapshots: Snapshots, origin: map<string, Json>,
                      counts: map<string, nat>, edges: map<Edge, Node>, e: Edge, f: Edge)
    requires Compacted(codec, rows, out, snapshots, origin, counts, edges)
    requires e in edges && f in edges && e != f && e.KidEdge? && f.KidEdge? && edges[e] == edges[f]
    requires Id(codec, edges[e]) in snapshots
    ensures var id := Id(codec, edges[e]);
            Repeated(snapshots, id) && OfLarge(codec, snapshots[id].scope, id)
  {
    var a := Referred(codec, rows, out, snapshots, origin, counts, edges, e);
    var b := Referred(codec, rows, out, snapshots, origin, counts, edges, f);
    SameTree(codec, counts, edges, e, f);
    assert a != b;
    OwnPlace(codec, snapshots, origin, edges[e]);
  }

  lemma SameTree(codec: Codec, counts: map<string, nat>, edges: map<Edge, Node>, e: Edge, f: Edge)
    requires CountsRight(codec, counts, edges, {}) && e.KidEdge? && f.KidEdge?
    requires e in edges && f in edges && e != f && edges[e] == edges[f]
    ensures Large(codec, edges[e].1) && (e.parent != f.parent || e.index != f.index)
  {
    assert Leads(e, edges[e]) && Leads(f, edges[f]);
  }

  lemma RootNeeded(codec: Codec, rows: seq<Row>, out: seq<Row>, ids: set<string>, id: string)
    requires |out| == |rows| && forall i | 0 <= i < |rows| :: RowPacked(codec, rows[i], out[i], ids)
    requires id in RootIds(codec, rows)
    ensures OfDebugField(out, id)
  {
    var i: nat, j: nat :| i < |rows| && j < |DIAGNOSTIC_KEYS| && id in RootId(codec, rows[i], j);
    RootOut(codec, rows[i], out[i], ids, j);
  }

  lemma NotRoot(codec: Codec, rows: seq<Row>, edges: map<Edge, Node>, e: Edge)
    requires RootsTrue(rows, edges) && e in edges && Large(codec, edges[e].1)
    requires Id(codec, edges[e]) !in RootIds(codec, rows)
    ensures e.KidEdge?
  {
    if e.RootEdge? {
      var j :| 0 <= j < |DIAGNOSTIC_KEYS| && DIAGNOSTIC_KEYS[j] == e.key;
      RootListed(codec, rows, e.row, j);
    }
  }

  /** Compact the rows: the debug trees of each become references, and the snapshots let every
      row be read back. No large tree is written out twice in the snapshots of a scope, and none that occurs
      once has a snapshot of its own below a debug field. */
  method CompactRows(codec: Codec, rows: seq<Row>) returns (out: seq<Row>, snapshots: Snapshots)
    requires codec.Sound()
    ensures |out| == |rows|
    ensures forall i | 0 <= i < |rows| ::
              RowPacked(codec, rows[i], out[i], snapshots.Keys) && Readable(rows[i], out[i], snapshots)
    ensures MadeOfEach(codec, snapshots) && NeededOnly(codec, out, snapshots)
    ensures Clean(rows) ==> WrittenOnce(codec, snapshots)
    ensures Clean(rows) ==> forall id <- snapshots :: Resolves(snapshots[id].payload, snapshots[id].scope, snapshots)
  {
    var compactor := new Compactor(codec, Clean(rows), RootIds(codec, rows));
    compactor.CountRows(rows);
    ghost var counts, edges := compactor.counts, compactor.edges;
    out := [];
    for i := 0 to |rows|
      invariant compactor.codec == codec && compactor.clean == Clean(rows)
      invariant compactor.roots == RootIds(codec, rows) && compactor.counts == counts && compactor.edges == edges
      invariant compactor.Packing({}) && RootsCounted(codec, rows, compactor.edges, |rows|, 0)
      invariant Upto(compactor.ledger.entered, i, 0) && |out| == i
      invariant forall j | 0 <= j < i :: RowPacked(codec, rows[j], out[j], compactor.snapshots.Keys)
    {
      ghost var ids := compactor.snapshots.Keys;
      var features := compactor.PackRow(rows, i);
      var row := rows[i].(features := features);
      RowsStay(codec, rows, out, row, ids, compactor.snapshots.Keys);
      out := out + [row];
    }
    snapshots := compactor.snapshots;
    Finished(codec, rows, out, snapshots, compactor.ledger, counts, edges);
  }

  /** What the packing of all rows comes to. */
  lemma Finished(codec: Codec, rows: seq<Row>, out: seq<Row>, snapshots: Snapshots, ledger: Ledger,
                 counts: map<string, nat>, edges: map<Edge, Node>)
    requires CountsRight(codec, counts, edges, {}) && RootsTrue(rows, edges)
    requires Sound(codec, snapshots, ledger, Clean(rows)) && Earned(counts, snapshots, RootIds(codec, rows))
    requires |out| == |rows| && forall i | 0 <= i < |rows| :: RowPacked(codec, rows[i], out[i], snapshots.Keys)
    ensures forall i | 0 <= i < |rows| :: Readable(rows[i], out[i], snapshots)
    ensures MadeOfEach(codec, snapshots) && NeededOnly(codec, out, snapshots)
    ensures Clean(rows) ==> WrittenOnce(codec, snapshots)
    ensures Clean(rows) ==> forall id <- snapshots :: Resolves(snapshots[id].payload, snapshots[id].scope, snapshots)
  {
    var origin := ledger.origin;
    OriginOnce(codec, snapshots, origin, ledger.home);
    AllReadable(codec, rows, out, snapshots, origin);
    NoneWithoutNeed(codec, rows, out, snapshots, origin, counts, edges);
    if Clean(rows) {
      SnapshotsRead(codec, snapshots, ledger);
    }
  }

  lemma RowsStay(codec: Codec, rows: seq<Row>, out: seq<Row>, last: Row, ids: set<string>, more: set<string>)
    requires |out| < |rows| && ids <= more && RowPacked(codec, rows[|out|], last, more)
    requires forall j | 0 <= j < |out| :: RowPacked(codec, rows[j], out[j], ids)
    ensures forall j | 0 <= j < |out + [last]| :: RowPacked(codec, rows[j], (out + [last])[j], more)
  {
    forall j | 0 <= j < |out| ensures RowPacked(codec, rows[j], out[j], more) {
      StandsMore(codec, rows[j].scope, rows[j].features, out[j].features, ids, more);
    }
  }

  lemma AllReadable(codec: Codec, rows: seq<Row>, out: seq<Row>, snapshots: Snapshots, origin: map<string, Json>)
    requires codec.Sound() && Genuine(codec, snapshots, origin, snapshots.Keys) && |out| == |rows|
    requires forall i | 0 <= i < |rows| :: RowPacked(codec, rows[i], out[i], snapshots.Keys)
    ensures forall i | 0 <= i < |rows| :: Readable(rows[i], out[i], snapshots)
  {
    forall i | 0 <= i < |rows| ensures Readable(rows[i], out[i], snapshots) {
      RoundTrip(codec, rows[i].scope, rows[i].features, out[i].features, snapshots, origin);
      if NoReference(rows[i].features) {
        StandsResolves(codec, rows[i].scope, rows[i].features, out[i].features, snapshots, origin, snapshots.Keys);
      }
    }
  }

  lemma SnapshotsRead(codec: Codec, snapshots: Snapshots, ledger: Ledger)
    requires codec.Sound() && Sound(codec, snapshots, ledger, true)
    ensures WrittenOnce(codec, snapshots)
    ensures forall id <- snapshots :: Resolves(snapshots[id].payload, snapshots[id].scope, snapshots)
  {
    OnceEach(codec, snapshots, ledger.origin, ledger.home);
    forall id <- snapshots ensures Resolves(snapshots[id].payload, snapshots[id].scope, snapshots) {
      var scope, v, r := snapshots[id].scope, ledger.origin[id], snapshots[id].payload;
      forall i | 0 <= i < Arity(r) ensures Resolves(Kid(r, i), scope, snapshots) {
        StandsResolves(codec, scope, Kid(v, i), Kid(r, i), snapshots, ledger.origin, snapshots.Keys);
      }
    }
  }
}
