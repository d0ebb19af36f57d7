/** Node identifiers and reachability over a directed relation; shared by every graph walk. */
module Graph {

  /** A node id. The source uses strings; only equality is ever needed, so any type will do. */
  type NodeId(==, 0, !new)

  /** The id the source writes as the empty string. */
  const EMPTY_ID: NodeId

  ghost function Elems(s: seq<NodeId>): set<NodeId> {
    set x | x in s
  }

  ghost predicate NoDup(c: seq<NodeId>) {
    forall a, b :: 0 <= a < b < |c| ==> c[a] != c[b]
  }

  lemma ElemsAppend(a: seq<NodeId>, b: seq<NodeId>)
    ensures Elems(a + b) == Elems(a) + Elems(b)
  {
  }

  /** Neighbour lists; a node without an entry has none. */
  type Adjacency = map<NodeId, seq<NodeId>>

  function Succ(adj: Adjacency, v: NodeId): seq<NodeId> {
    if v in adj then adj[v] else []
  }

  datatype Edge = Edge(src: NodeId, dst: NodeId)

  type Relation = iset<Edge>

  ghost predicate Closed(r: Relation, s: iset<NodeId>) {
    forall e {:trigger e in r} :: e in r && e.src in s ==> e.dst in s
  }

  /** y belongs to every set that holds x and is closed under r: the same as a walk, see ReachIsWalk. */
  ghost predicate Reach(r: Relation, x: NodeId, y: NodeId) {
    forall s {:trigger Closed(r, s)} :: Closed(r, s) && x in s ==> y in s
  }

  ghost predicate Mutual(r: Relation, x: NodeId, y: NodeId) {
    Reach(r, x, y) && Reach(r, y, x)
  }

  /** p is the list of nodes visited after x on a walk from x to y. */
  ghost predicate Walk(r: Relation, x: NodeId, p: seq<NodeId>, y: NodeId) {
    if p == [] then x == y else Edge(x, p[0]) in r && Walk(r, p[0], p[1..], y)
  }

  lemma {:induction false} WalkStep(r: Relation, x: NodeId, p: seq<NodeId>, y: NodeId, z: NodeId)
    requires Walk(r, x, p, y) && Edge(y, z) in r
    ensures Walk(r, x, p + [z], z)
    decreases |p|
  {
    if p == [] {
      assert Walk(r, z, [z][1..], z);
    } else {
      WalkStep(r, p[0], p[1..], y, z);
      assert (p + [z])[1..] == p[1..] + [z];
    }
  }

  lemma {:induction false} WalkStaysIn(r: Relation, s: iset<NodeId>, x: NodeId, p: seq<NodeId>, y: NodeId)
    requires Closed(r, s) && x in s && Walk(r, x, p, y)
    ensures y in s
    decreases |p|
  {
    if p != [] {
      assert Edge(x, p[0]).dst in s;
      WalkStaysIn(r, s, p[0], p[1..], y);
    }
  }

  ghost predicate Walkable(r: Relation, x: NodeId, y: NodeId) {
    exists p :: Walk(r, x, p, y)
  }

  lemma ReachIsWalk(r: Relation, x: NodeId, y: NodeId)
    ensures Reach(r, x, y) <==> Walkable(r, x, y)
  {
    if Reach(r, x, y) {
      var s := iset z | Walkable(r, x, z);
      forall e | e in r && e.src in s
        ensures e.dst in s
      {
        var p :| Walk(r, x, p, e.src);
        assert e == Edge(e.src, e.dst);
        WalkStep(r, x, p, e.src, e.dst);
      }
      assert Walk(r, x, [], x);
      assert Closed(r, s);
    }
    if Walkable(r, x, y) {
      var p :| Walk(r, x, p, y);
      forall s | Closed(r, s) && x in s
        ensures y in s
      {
        WalkStaysIn(r, s, x, p, y);
      }
    }
  }

  lemma ReachEdge(r: Relation, x: NodeId, y: NodeId)
    requires Edge(x, y) in r
    ensures Reach(r, x, y)
  {
    forall s | Closed(r, s) && x in s
      ensures y in s
    {
      assert Edge(x, y).dst in s;
    }
  }

  lemma ReachTrans(r: Relation, x: NodeId, y: NodeId, z: NodeId)
    requires Reach(r, x, y) && Reach(r, y, z)
    ensures Reach(r, x, z)
  {
  }

  /** Dropping edges (self-loops never matter) can only lose reachability. */
  lemma ReachMono(r: Relation, q: Relation, x: NodeId, y: NodeId)
    requires Reach(r, x, y) && forall e :: e in r ==> e in q || e.src == e.dst
    ensures Reach(q, x, y)
  {
    forall s | Closed(q, s) && x in s
      ensures y in s
    {
      assert Closed(r, s);
    }
  }
}
