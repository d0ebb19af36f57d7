/** The path-compressing disjoint-set behind near-duplicate clustering. */
module UnionFind {
  import opened Graph

  type Parents = map<NodeId, NodeId>

  /** Following parents from x ends at root[x], and depth drops on the way. */
  ghost predicate Leads(parent: Parents, root: Parents, depth: map<NodeId, nat>, x: NodeId)
    requires root.Keys == parent.Keys && depth.Keys == parent.Keys && x in parent
  {
    && parent[x] in parent && root[x] in parent
    && parent[root[x]] == root[x] && root[parent[x]] == root[x] && root[root[x]] == root[x]
    && (parent[x] == x ==> root[x] == x)
    && (parent[x] != x ==> depth[parent[x]] < depth[x])
    && (root[x] != x ==> depth[root[x]] < depth[x])
  }

  /** parent is a forest over its keys, root gives every node's root, and depth is a measure that proves it. */
  ghost predicate Forest(parent: Parents, root: Parents, depth: map<NodeId, nat>) {
    && root.Keys == parent.Keys && depth.Keys == parent.Keys
    && forall x {:trigger Leads(parent, root, depth, x)} :: x in parent ==> Leads(parent, root, depth, x)
  }

  ghost predicate Symmetric(r: Relation) {
    forall e :: e in r ==> Edge(e.dst, e.src) in r
  }

  /** Equal roots mean connected, for the pairs united so far. */
  ghost predicate Agrees(root: Parents, joined: Relation) {
    && Symmetric(joined)
    && (forall e :: e in joined ==> e.src in root && e.dst in root)
    && (forall x, y :: x in root && y in root ==> (root[x] == root[y] <==> Reach(joined, x, y)))
  }

  // ---------- a new node ----------

  ghost function WithNode(root: Parents, x: NodeId): Parents {
    if x in root then root else root[x := x]
  }

  lemma NewNodeAgrees(root: Parents, joined: Relation, x: NodeId)
    requires Agrees(root, joined) && x !in root && x !in root.Values
    ensures Agrees(root[x := x], joined)
  {
    assert Closed(joined, iset{x});
    var known := iset y | y in root;
    assert Closed(joined, known);
    forall y | y in root
      ensures !Reach(joined, x, y) && !Reach(joined, y, x)
    {
      assert y in known && x !in known && y !in iset{x};
    }
  }

  // ---------- path compression ----------

  lemma Compress(parent: Parents, root: Parents, depth: map<NodeId, nat>, x: NodeId)
    requires Forest(parent, root, depth) && x in parent && root[x] != x
    ensures Forest(parent[x := root[x]], root, depth)
  {
    forall y | y in parent ensures Leads(parent[x := root[x]], root, depth, y) {
      assert Leads(parent, root, depth, y) && Leads(parent, root, depth, x);
      assert Leads(parent, root, depth, root[y]);
    }
  }

  lemma NewNodeForest(parent: Parents, root: Parents, depth: map<NodeId, nat>, x: NodeId)
    requires Forest(parent, root, depth) && x !in parent
    ensures Forest(parent[x := x], root[x := x], depth[x := 0]) && x !in root.Values
  {
    forall y | y in parent ensures Leads(parent[x := x], root[x := x], depth[x := 0], y) && root[y] != x {
      assert Leads(parent, root, depth, y);
    }
  }

  lemma RootFacts(parent: Parents, root: Parents, depth: map<NodeId, nat>, x: NodeId)
    requires Forest(parent, root, depth) && x in root
    ensures root.Keys == parent.Keys && depth.Keys == parent.Keys
    ensures root[x] in root && root[root[x]] == root[x]
  {
    assert Leads(parent, root, depth, x);
  }

  // ---------- linking two roots ----------

  ghost function LinkedRoot(root: Parents, ra: NodeId, rb: NodeId): Parents {
    map x | x in root :: if root[x] == ra then rb else root[x]
  }

  ghost function LinkedDepth(root: Parents, depth: map<NodeId, nat>, ra: NodeId, rb: NodeId): map<NodeId, nat>
    requires depth.Keys == root.Keys && rb in root
  {
    map x | x in root :: if root[x] == ra then depth[x] + depth[rb] + 1 else depth[x]
  }

  lemma Link(parent: Parents, root: Parents, depth: map<NodeId, nat>, ra: NodeId, rb: NodeId)
    requires Forest(parent, root, depth) && ra in parent && rb in parent
    requires root[ra] == ra && root[rb] == rb && ra != rb
    ensures Forest(parent[ra := rb], LinkedRoot(root, ra, rb), LinkedDepth(root, depth, ra, rb))
  {
    forall y | y in parent
      ensures Leads(parent[ra := rb], LinkedRoot(root, ra, rb), LinkedDepth(root, depth, ra, rb), y)
    {
      assert Leads(parent, root, depth, y) && Leads(parent, root, depth, rb);
      assert Leads(parent, root, depth, parent[y]) && Leads(parent, root, depth, root[y]);
    }
  }

  ghost function Joined(joined: Relation, a: NodeId, b: NodeId): Relation {
    joined + iset{Edge(a, b), Edge(b, a)}
  }

  lemma LinkAgrees(root: Parents, joined: Relation, a: NodeId, b: NodeId)
    requires Agrees(root, joined) && a in root && b in root
    ensures Agrees(LinkedRoot(root, root[a], root[b]), Joined(joined, a, b))
  {
    var r2, j2 := LinkedRoot(root, root[a], root[b]), Joined(joined, a, b);
    forall x, y | x in root && y in root
      ensures r2[x] == r2[y] <==> Reach(j2, x, y)
    {
      if r2[x] == r2[y] {
        LinkSound(root, joined, a, b, x, y);
      }
      if Reach(j2, x, y) {
        var s := iset z | z in root && r2[z] == r2[x];
        forall e | e in j2 && e.src in s
          ensures e.dst in s
        {
          if e in joined {
            ReachEdge(joined, e.src, e.dst);
          }
        }
        assert Closed(j2, s);
      }
    }
  }

  lemma LinkSound(root: Parents, joined: Relation, a: NodeId, b: NodeId, x: NodeId, y: NodeId)
    requires Agrees(root, joined) && a in root && b in root && x in root && y in root
    requires LinkedRoot(root, root[a], root[b])[x] == LinkedRoot(root, root[a], root[b])[y]
    ensures Reach(Joined(joined, a, b), x, y)
  {
    var j2 := Joined(joined, a, b);
    forall u, v | Reach(joined, u, v) ensures Reach(j2, u, v) {
      ReachMono(joined, j2, u, v);
    }
    ReachEdge(j2, a, b);
    ReachEdge(j2, b, a);
    if root[x] == root[y] {
    } else if root[x] == root[a] {
      ReachTrans(j2, x, a, b);
      ReachTrans(j2, x, b, y);
    } else {
      ReachTrans(j2, x, b, a);
      ReachTrans(j2, x, a, y);
    }
  }

  lemma SameAgrees(root: Parents, joined: Relation, a: NodeId, b: NodeId)
    requires Agrees(root, joined) && a in root && b in root && root[a] == root[b]
    ensures Agrees(root, Joined(joined, a, b))
  {
    LinkAgrees(root, joined, a, b);
    assert LinkedRoot(root, root[a], root[b]) == root;
  }

  // ---------- the class ----------

  class Sets {
    var parent: Parents
    ghost var root: Parents
    ghost var depth: map<NodeId, nat>
    ghost var joined: Relation

    ghost predicate Valid()
      reads this
    {
      Forest(parent, root, depth) && Agrees(root, joined)
    }

    constructor ()
      ensures Valid() && root == map[] && joined == iset{}
    {
      parent, root, depth, joined := map[], map[], map[], iset{};
    }

    /** Returns x's root, adding x as its own when unknown; no other node's root changes. */
    method Find(x: NodeId) returns (r: NodeId)
      requires Valid()
      modifies this`parent, this`root, this`depth
      ensures Valid() && root == WithNode(old(root), x) && r == root[x]
      ensures x in old(parent) ==> depth == old(depth)
      decreases if x in parent then depth[x] + 1 else 0
    {
      hide Agrees;
      if x !in parent {
        NewNodeForest(parent, root, depth, x);
        NewNodeAgrees(root, joined, x);
        parent, root, depth := parent[x := x], root[x := x], depth[x := 0];
        return x;
      }
      assert Leads(parent, root, depth, x);
      var p := parent[x];
      if p != x {
        var top := Find(p);
        assert Leads(parent, root, depth, x);
        Compress(parent, root, depth, x);
        parent := parent[x := top];
      }
      return parent[x];
    }

    method Union(a: NodeId, b: NodeId)
      requires Valid()
      modifies this
      ensures Valid() && root.Keys == old(root.Keys) + {a, b} && joined == Joined(old(joined), a, b)
    {
      hide Agrees;
      hide Forest;
      var ra := Find(a);
      var rb := Find(b);
      RootFacts(parent, root, depth, a);
      RootFacts(parent, root, depth, b);
      if ra != rb {
        Link(parent, root, depth, ra, rb);
        LinkAgrees(root, joined, a, b);
        parent, depth, root := parent[ra := rb], LinkedDepth(root, depth, ra, rb), LinkedRoot(root, ra, rb);
      } else {
        SameAgrees(root, joined, a, b);
      }
      joined := Joined(joined, a, b);
    }
  }
}
