/** Near-duplicate clusters: connected components of the similarity edges, with exact score bounds. */
module Duplicates {
  import opened Graph
  import opened UnionFind

  datatype CloneMember = CloneMember(nodeId: NodeId, symbolPath: string, filePath: string, lineStart: int)

  datatype SimilarEdge = SimilarEdge(src: CloneMember, dst: CloneMember, score: real)

  datatype Component = Component(ids: seq<NodeId>, minScore: real, maxScore: real)

  datatype NearCluster = NearCluster(size: nat, minScore: real, maxScore: real, members: seq<CloneMember>)

  // ---------- specification ----------

  ghost predicate IsEnd(edges: seq<SimilarEdge>, x: NodeId) {
    exists e :: e in edges && (x == e.src.nodeId || x == e.dst.nodeId)
  }

  /** The similarity relation, read in both directions. */
  ghost function Similar(edges: seq<SimilarEdge>): Relation {
    iset d: Edge | Touch(edges, d.src, d.dst)
  }

  ghost predicate Touch(edges: seq<SimilarEdge>, x: NodeId, y: NodeId) {
    exists e :: e in edges &&
        (Edge(x, y) == Edge(e.src.nodeId, e.dst.nodeId) || Edge(x, y) == Edge(e.dst.nodeId, e.src.nodeId))
  }

  /** The record kept for a node: the last one any edge gave. */
  ghost predicate LastRecord(edges: seq<SimilarEdge>, m: CloneMember) {
    exists i :: 0 <= i < |edges| && (m == edges[i].dst || (m == edges[i].src && edges[i].dst.nodeId != m.nodeId))
      && forall j :: i < j < |edges| ==> edges[j].src.nodeId != m.nodeId && edges[j].dst.nodeId != m.nodeId
  }

  ghost function Ids(members: seq<CloneMember>): set<NodeId> {
    set m | m in members :: m.nodeId
  }

  ghost predicate DistinctIds(members: seq<CloneMember>) {
    forall a, b :: 0 <= a < b < |members| ==> members[a].nodeId != members[b].nodeId
  }

  ghost predicate ExactBounds(edges: seq<SimilarEdge>, ids: set<NodeId>, lo: real, hi: real) {
    && (forall e :: e in edges && e.src.nodeId in ids ==> lo <= e.score <= hi)
    && (exists e :: e in edges && e.src.nodeId in ids && e.score == lo)
    && (exists e :: e in edges && e.src.nodeId in ids && e.score == hi)
  }

  ghost predicate GoodCluster(edges: seq<SimilarEdge>, c: NearCluster) {
    && c.size == |c.members| && DistinctIds(c.members) && c.members != []
    && (forall m :: m in c.members ==> LastRecord(edges, m))
    && ExactBounds(edges, Ids(c.members), c.minScore, c.maxScore)
  }

  /** Every endpoint is in a cluster; two nodes share one exactly when similarity edges connect them. */
  ghost predicate ConnectedComponents(edges: seq<SimilarEdge>, clusters: seq<NearCluster>) {
    && (forall x :: IsEnd(edges, x) <==> exists k :: 0 <= k < |clusters| && x in Ids(clusters[k].members))
    && (forall k, l, x, y :: 0 <= k < |clusters| && 0 <= l < |clusters|
          && x in Ids(clusters[k].members) && y in Ids(clusters[l].members)
          ==> (k == l <==> Reach(Similar(edges), x, y)))
  }

  // ---------- aggregation ----------

  /** What has been gathered for root r from the given edges. */
  ghost predicate Gathered(root: Parents, edges: seq<SimilarEdge>, r: NodeId, c: Component) {
    && NoDup(c.ids)
    && (forall x :: x in c.ids <==> IsEnd(edges, x) && x in root && root[x] == r)
    && c.ids != []
    && (forall e :: e in edges && e.src.nodeId in c.ids ==> c.minScore <= e.score <= c.maxScore)
    && (exists e :: e in edges && e.src.nodeId in c.ids && e.score == c.minScore)
    && (exists e :: e in edges && e.src.nodeId in c.ids && e.score == c.maxScore)
  }

  ghost predicate Aggregated(root: Parents, edges: seq<SimilarEdge>, byRoot: map<NodeId, Component>) {
    && (forall e :: e in edges ==> e.src.nodeId in root && root[e.src.nodeId] in byRoot)
    && (forall r :: r in byRoot ==> Gathered(root, edges, r, byRoot[r]))
  }

  /** Both ends of every edge have the same root. */
  ghost predicate EndsAgree(root: Parents, edges: seq<SimilarEdge>) {
    forall e :: e in edges ==>
      e.src.nodeId in root && e.dst.nodeId in root && root[e.src.nodeId] == root[e.dst.nodeId]
  }

  function Min(a: real, b: real): real {
    if b < a then b else a
  }

  function Max(a: real, b: real): real {
    if b > a then b else a
  }

  function AddId(ids: seq<NodeId>, seen: set<NodeId>, x: NodeId): seq<NodeId> {
    if x in seen then ids else ids + [x]
  }

  lemma IsEndStep(edges: seq<SimilarEdge>, e: SimilarEdge, x: NodeId)
    ensures IsEnd(edges + [e], x) <==> IsEnd(edges, x) || x == e.src.nodeId || x == e.dst.nodeId
  {
    if IsEnd(edges, x) {
      var d :| d in edges && (x == d.src.nodeId || x == d.dst.nodeId);
      assert d in edges + [e];
    }
    assert e in edges + [e];
  }

  /** The component an edge belongs to, before and after the edge is added. */
  ghost function Grown(byRoot: map<NodeId, Component>, seen: set<NodeId>, r: NodeId, e: SimilarEdge): Component {
    var c := if r in byRoot then byRoot[r] else Component([], e.score, e.score);
    Component(AddId(AddId(c.ids, seen, e.src.nodeId), seen + {e.src.nodeId}, e.dst.nodeId),
              Min(c.minScore, e.score), Max(c.maxScore, e.score))
  }

  lemma AddIdFacts(ids: seq<NodeId>, seen: set<NodeId>, x: NodeId)
    requires NoDup(ids) && (x in ids ==> x in seen)
    ensures NoDup(AddId(ids, seen, x))
    ensures forall y :: y in AddId(ids, seen, x) <==> y in ids || (y == x && x !in seen)
  {
  }

  ghost function IdsAt(byRoot: map<NodeId, Component>, r: NodeId): seq<NodeId> {
    if r in byRoot then byRoot[r].ids else []
  }

  lemma IdsAtRoot(root: Parents, edges: seq<SimilarEdge>, byRoot: map<NodeId, Component>, r: NodeId, x: NodeId)
    requires Aggregated(root, edges, byRoot) && EndsAgree(root, edges)
    ensures x in IdsAt(byRoot, r) <==> IsEnd(edges, x) && x in root && root[x] == r
  {
    if r !in byRoot && IsEnd(edges, x) && x in root && root[x] == r {
      var d :| d in edges && (x == d.src.nodeId || x == d.dst.nodeId);
    }
  }

  lemma GrownIds(root: Parents, edges: seq<SimilarEdge>, byRoot: map<NodeId, Component>, seen: set<NodeId>,
                 e: SimilarEdge)
    requires Aggregated(root, edges, byRoot) && EndsAgree(root, edges) && EndsAgree(root, [e])
    requires forall x :: x in seen <==> IsEnd(edges, x)
    ensures e.src.nodeId in root && NoDup(Grown(byRoot, seen, root[e.src.nodeId], e).ids)
    ensures forall x :: x in Grown(byRoot, seen, root[e.src.nodeId], e).ids <==>
              IsEnd(edges + [e], x) && x in root && root[x] == root[e.src.nodeId]
  {
    assert e in [e];
    var r := root[e.src.nodeId];
    var was := IdsAt(byRoot, r);
    assert NoDup(was) by {
      assert r in byRoot ==> Gathered(root, edges, r, byRoot[r]);
    }
    forall x
      ensures x in was <==> x in seen && x in root && root[x] == r
      ensures IsEnd(edges + [e], x) <==> x in seen || x == e.src.nodeId || x == e.dst.nodeId
    {
      IdsAtRoot(root, edges, byRoot, r, x);
      IsEndStep(edges, e, x);
    }
    hide Aggregated;
    hide EndsAgree;
    hide IsEnd;
    AddIdFacts(was, seen, e.src.nodeId);
    AddIdFacts(AddId(was, seen, e.src.nodeId), seen + {e.src.nodeId}, e.dst.nodeId);
  }

  lemma GrownGathered(root: Parents, edges: seq<SimilarEdge>, byRoot: map<NodeId, Component>, seen: set<NodeId>,
                      e: SimilarEdge)
    requires Aggregated(root, edges, byRoot) && EndsAgree(root, edges) && EndsAgree(root, [e])
    requires forall x :: x in seen <==> IsEnd(edges, x)
    ensures e.src.nodeId in root
    ensures Gathered(root, edges + [e], root[e.src.nodeId], Grown(byRoot, seen, root[e.src.nodeId], e))
  {
    GrownIds(root, edges, byRoot, seen, e);
    assert e in edges + [e];
    var r := root[e.src.nodeId];
    var c := Grown(byRoot, seen, r, e);
    IsEndStep(edges, e, e.src.nodeId);
    assert e.src.nodeId in c.ids;
    forall d | d in edges && d.src.nodeId in c.ids ensures r in byRoot && d.src.nodeId in byRoot[r].ids {
      assert IsEnd(edges, d.src.nodeId);
      IdsAtRoot(root, edges, byRoot, r, d.src.nodeId);
    }
    if r in byRoot {
      var was := byRoot[r];
      assert Gathered(root, edges, r, was);
      forall x | x in was.ids ensures x in c.ids {
        IsEndStep(edges, e, x);
      }
      var lo :| lo in edges && lo.src.nodeId in was.ids && lo.score == was.minScore;
      var hi :| hi in edges && hi.src.nodeId in was.ids && hi.score == was.maxScore;
      assert lo in edges + [e] && hi in edges + [e];
    }
  }

  lemma OthersGathered(root: Parents, edges: seq<SimilarEdge>, e: SimilarEdge, r: NodeId, c: Component)
    requires Gathered(root, edges, r, c) && EndsAgree(root, [e]) && e in [e] && root[e.src.nodeId] != r
    ensures Gathered(root, edges + [e], r, c)
  {
    assert e in edges + [e];
    forall x ensures IsEnd(edges + [e], x) && x in root && root[x] == r <==>
        IsEnd(edges, x) && x in root && root[x] == r {
      IsEndStep(edges, e, x);
    }
    var lo :| lo in edges && lo.src.nodeId in c.ids && lo.score == c.minScore;
    var hi :| hi in edges && hi.src.nodeId in c.ids && hi.score == c.maxScore;
    assert lo in edges + [e] && hi in edges + [e];
  }

  lemma AggregateStep(root: Parents, edges: seq<SimilarEdge>, byRoot: map<NodeId, Component>, seen: set<NodeId>,
                      e: SimilarEdge)
    requires Aggregated(root, edges, byRoot) && EndsAgree(root, edges) && EndsAgree(root, [e])
    requires forall x :: x in seen <==> IsEnd(edges, x)
    ensures e.src.nodeId in root
    ensures var r := root[e.src.nodeId]; Aggregated(root, edges + [e], byRoot[r := Grown(byRoot, seen, r, e)])
    ensures forall x :: x in seen + {e.src.nodeId, e.dst.nodeId} <==> IsEnd(edges + [e], x)
  {
    hide Gathered;
    hide IsEnd;
    assert e in [e];
    GrownGathered(root, edges, byRoot, seen, e);
    hide Grown;
    forall r | r in byRoot && r != root[e.src.nodeId] ensures Gathered(root, edges + [e], r, byRoot[r]) {
      OthersGathered(root, edges, e, r, byRoot[r]);
    }
    forall x ensures x in seen + {e.src.nodeId, e.dst.nodeId} <==> IsEnd(edges + [e], x) {
      IsEndStep(edges, e, x);
    }
  }

  lemma EndsAgreeSplit(root: Parents, edges: seq<SimilarEdge>, n: nat)
    requires EndsAgree(root, edges) && n < |edges|
    ensures EndsAgree(root, edges[..n]) && EndsAgree(root, [edges[n]])
    ensures edges[n].src.nodeId in root
  {
  }

  /** Folds one edge into its component: score bounds, then each end not seen before. */
  method Absorb(c0: Component, seen0: set<NodeId>, e: SimilarEdge) returns (c: Component, seen: set<NodeId>)
    ensures c.minScore == Min(c0.minScore, e.score) && c.maxScore == Max(c0.maxScore, e.score)
    ensures c.ids == AddId(AddId(c0.ids, seen0, e.src.nodeId), seen0 + {e.src.nodeId}, e.dst.nodeId)
    ensures seen == seen0 + {e.src.nodeId, e.dst.nodeId}
  {
    c, seen := c0, seen0;
    if e.score < c.minScore {
      c := c.(minScore := e.score);
    }
    if e.score > c.maxScore {
      c := c.(maxScore := e.score);
    }
    var ends := [e.src.nodeId, e.dst.nodeId];
    for i := 0 to 2
      invariant i == 0 ==> c.ids == c0.ids && seen == seen0
      invariant i == 1 ==> c.ids == AddId(c0.ids, seen0, e.src.nodeId) && seen == seen0 + {e.src.nodeId}
      invariant i == 2 ==> c.ids == AddId(AddId(c0.ids, seen0, e.src.nodeId), seen0 + {e.src.nodeId}, e.dst.nodeId)
                           && seen == seen0 + {e.src.nodeId, e.dst.nodeId}
      invariant c.minScore == Min(c0.minScore, e.score) && c.maxScore == Max(c0.maxScore, e.score)
    {
      if ends[i] !in seen {
        seen, c := seen + {ends[i]}, c.(ids := c.ids + [ends[i]]);
      }
    }
  }

  method AggregateComponents(uf: Sets, edges: seq<SimilarEdge>) returns (byRoot: map<NodeId, Component>)
    requires uf.Valid() && EndsAgree(uf.root, edges)
    modifies uf
    ensures uf.Valid() && uf.root == old(uf.root) && uf.joined == old(uf.joined)
    ensures Aggregated(uf.root, edges, byRoot)
  {
    byRoot := map[];
    var seen: set<NodeId> := {};
    assert Aggregated(uf.root, edges[..0], byRoot) && forall x :: !IsEnd(edges[..0], x);
    hide Sets.Valid;
    hide EndsAgree;
    hide Aggregated;
    hide IsEnd;
    for n := 0 to |edges|
      invariant uf.Valid() && uf.root == old(uf.root) && uf.joined == old(uf.joined)
      invariant Aggregated(uf.root, edges[..n], byRoot)
      invariant forall x :: x in seen <==> IsEnd(edges[..n], x)
    {
      var e := edges[n];
      assert edges[..n + 1] == edges[..n] + [e];
      EndsAgreeSplit(uf.root, edges, n);
      AggregateStep(uf.root, edges[..n], byRoot, seen, e);
      var r := uf.Find(e.src.nodeId);
      var c, seenNow := Absorb(if r in byRoot then byRoot[r] else Component([], e.score, e.score), seen, e);
      seen := seenNow;
      byRoot := byRoot[r := c];
    }
    assert edges[..|edges|] == edges;
  }

  // ---------- clusters ----------

  ghost predicate Recorded(edges: seq<SimilarEdge>, members: map<NodeId, CloneMember>) {
    && (forall x :: x in members <==> IsEnd(edges, x))
    && (forall x :: x in members ==> members[x].nodeId == x && LastRecord(edges, members[x]))
  }

  ghost function ToCluster(c: Component, members: map<NodeId, CloneMember>): NearCluster
    requires forall x :: x in c.ids ==> x in members
  {
    NearCluster(|c.ids|, c.minScore, c.maxScore, seq(|c.ids|, i requires 0 <= i < |c.ids| => members[c.ids[i]]))
  }

  ghost predicate FromRoots(byRoot: map<NodeId, Component>, members: map<NodeId, CloneMember>,
                            roots: seq<NodeId>, clusters: seq<NearCluster>) {
    && |roots| == |clusters| && NoDup(roots)
    && (forall k :: 0 <= k < |roots| ==> roots[k] in byRoot)
    && (forall r, x :: r in byRoot && x in byRoot[r].ids ==> x in members)
    && (forall k :: 0 <= k < |roots| ==> clusters[k] == ToCluster(byRoot[roots[k]], members))
  }

  lemma RootAdded(byRoot: map<NodeId, Component>, members: map<NodeId, CloneMember>, roots: seq<NodeId>,
                  clusters: seq<NearCluster>, r: NodeId)
    requires FromRoots(byRoot, members, roots, clusters) && r in byRoot && r !in roots
    ensures forall x :: x in byRoot[r].ids ==> x in members
    ensures FromRoots(byRoot, members, roots + [r], clusters + [ToCluster(byRoot[r], members)])
  {
  }

  method ClusterOf(c: Component, members: map<NodeId, CloneMember>) returns (k: NearCluster)
    requires forall x :: x in c.ids ==> x in members
    ensures k == ToCluster(c, members)
  {
    var cm: seq<CloneMember> := [];
    for i := 0 to |c.ids|
      invariant |cm| == i && forall a :: 0 <= a < i ==> cm[a] == members[c.ids[a]]
    {
      cm := cm + [members[c.ids[i]]];
    }
    k := NearCluster(|cm|, c.minScore, c.maxScore, cm);
  }

  method BuildClusters(byRoot: map<NodeId, Component>, members: map<NodeId, CloneMember>)
    returns (clusters: seq<NearCluster>, ghost roots: seq<NodeId>)
    requires forall r, x :: r in byRoot && x in byRoot[r].ids ==> x in members
    ensures |clusters| == |byRoot|
    ensures FromRoots(byRoot, members, roots, clusters)
    ensures forall r :: r in byRoot ==> r in roots
  {
    clusters, roots := [], [];
    var rest := byRoot.Keys;
    assert |byRoot.Keys| == |byRoot|;
    assert FromRoots(byRoot, members, roots, clusters);
    hide FromRoots, ToCluster;
    while rest != {}
      invariant rest <= byRoot.Keys && |clusters| + |rest| == |byRoot|
      invariant forall r :: r in byRoot ==> (r in roots <==> r !in rest)
      invariant FromRoots(byRoot, members, roots, clusters)
    {
      var r :| r in rest;
      RootAdded(byRoot, members, roots, clusters, r);
      var k := ClusterOf(byRoot[r], members);
      clusters, roots, rest := clusters + [k], roots + [r], rest - {r};
    }
  }

  lemma SimilarStep(edges: seq<SimilarEdge>, e: SimilarEdge)
    ensures Similar(edges + [e]) == Joined(Similar(edges), e.src.nodeId, e.dst.nodeId)
  {
    var es := edges + [e];
    assert e in es;
    forall d: Edge
      ensures d in Similar(es) <==> d in Joined(Similar(edges), e.src.nodeId, e.dst.nodeId)
    {
      if Touch(edges, d.src, d.dst) {
        var f :| f in edges && (d == Edge(f.src.nodeId, f.dst.nodeId) || d == Edge(f.dst.nodeId, f.src.nodeId));
        assert f in es;
      }
    }
  }

  lemma RecordStep(edges: seq<SimilarEdge>, members: map<NodeId, CloneMember>, e: SimilarEdge)
    requires Recorded(edges, members)
    ensures Recorded(edges + [e], members[e.src.nodeId := e.src][e.dst.nodeId := e.dst])
  {
    var es, m2 := edges + [e], members[e.src.nodeId := e.src][e.dst.nodeId := e.dst];
    forall x ensures x in m2 <==> IsEnd(es, x) {
      IsEndStep(edges, e, x);
    }
    forall x | x in m2 ensures m2[x].nodeId == x && LastRecord(es, m2[x]) {
      if x == e.src.nodeId || x == e.dst.nodeId {
        assert es[|edges|] == e;
      } else {
        RecordKept(edges, e, members[x]);
      }
    }
  }

  lemma RecordKept(edges: seq<SimilarEdge>, e: SimilarEdge, m: CloneMember)
    requires LastRecord(edges, m) && e.src.nodeId != m.nodeId && e.dst.nodeId != m.nodeId
    ensures LastRecord(edges + [e], m)
  {
    var i :| 0 <= i < |edges| && (m == edges[i].dst || (m == edges[i].src && edges[i].dst.nodeId != m.nodeId))
      && forall j :: i < j < |edges| ==> edges[j].src.nodeId != m.nodeId && edges[j].dst.nodeId != m.nodeId;
    assert (edges + [e])[i] == edges[i];
  }

  method ClusterEdges(edges: seq<SimilarEdge>) returns (clusters: seq<NearCluster>)
    ensures ConnectedComponents(edges, clusters)
    ensures forall k :: 0 <= k < |clusters| ==> GoodCluster(edges, clusters[k])
  {
    var uf := new Sets();
    var members: map<NodeId, CloneMember> := map[];
    assert Similar([]) == iset{};
    assert edges[..0] == [];
    assert Recorded(edges[..0], members);
    hide Sets.Valid;
    hide Recorded;
    hide Similar;
    for n := 0 to |edges|
      invariant uf.Valid() && fresh(uf) && uf.joined == Similar(edges[..n])
      invariant Recorded(edges[..n], members)
    {
      var e := edges[n];
      assert edges[..n + 1] == edges[..n] + [e];
      SimilarStep(edges[..n], e);
      RecordStep(edges[..n], members, e);
      members := members[e.src.nodeId := e.src][e.dst.nodeId := e.dst];
      uf.Union(e.src.nodeId, e.dst.nodeId);
    }
    assert edges[..|edges|] == edges;
    ValidEndsAgree(uf, edges);
    var byRoot := AggregateComponents(uf, edges);
    MembersKnown(uf.root, edges, byRoot, members);
    ghost var roots;
    clusters, roots := BuildClusters(byRoot, members);
    ValidAgrees(uf);
    ClustersRight(edges, uf.root, byRoot, members, roots, clusters);
  }

  lemma ValidAgrees(uf: Sets)
    requires uf.Valid()
    ensures Agrees(uf.root, uf.joined)
  {
  }

  lemma ValidEndsAgree(uf: Sets, edges: seq<SimilarEdge>)
    requires uf.Valid() && uf.joined == Similar(edges)
    ensures EndsAgree(uf.root, edges)
  {
    forall e | e in edges
      ensures e.src.nodeId in uf.root && e.dst.nodeId in uf.root && uf.root[e.src.nodeId] == uf.root[e.dst.nodeId]
    {
      assert Touch(edges, e.src.nodeId, e.dst.nodeId);
      var d := Edge(e.src.nodeId, e.dst.nodeId);
      assert d in uf.joined;
      ReachEdge(uf.joined, d.src, d.dst);
    }
  }

  lemma MembersKnown(root: Parents, edges: seq<SimilarEdge>, byRoot: map<NodeId, Component>, members: map<NodeId,
                     CloneMember>)
    requires Aggregated(root, edges, byRoot) && Recorded(edges, members)
    ensures forall r, x :: r in byRoot && x in byRoot[r].ids ==> x in members
  {
    forall r, x | r in byRoot && x in byRoot[r].ids ensures x in members {
      assert Gathered(root, edges, r, byRoot[r]);
    }
  }

  lemma ClusterIds(edges: seq<SimilarEdge>, members: map<NodeId, CloneMember>, c: Component)
    requires Recorded(edges, members) && forall x :: x in c.ids ==> x in members
    ensures forall x :: x in Ids(ToCluster(c, members).members) <==> x in c.ids
  {
    var cm := ToCluster(c, members).members;
    forall x ensures x in Ids(cm) <==> x in c.ids {
      if x in c.ids {
        var i :| 0 <= i < |c.ids| && c.ids[i] == x;
        assert cm[i] in cm && cm[i].nodeId == x;
      }
    }
  }

  lemma ClusterGood(root: Parents, edges: seq<SimilarEdge>, members: map<NodeId, CloneMember>, r: NodeId, c: Component)
    requires Recorded(edges, members) && Gathered(root, edges, r, c) && forall x :: x in c.ids ==> x in members
    ensures GoodCluster(edges, ToCluster(c, members))
  {
    hide LastRecord;
    ClusterIds(edges, members, c);
    var k := ToCluster(c, members);
    ClusterBounds(root, edges, r, c, Ids(k.members));
    ClusterMembers(edges, members, c);
    hide Recorded;
    hide Gathered;
    hide ExactBounds;
  }

  lemma ClusterMembers(edges: seq<SimilarEdge>, members: map<NodeId, CloneMember>, c: Component)
    requires Recorded(edges, members) && NoDup(c.ids) && c.ids != [] && forall x :: x in c.ids ==> x in members
    ensures var k := ToCluster(c, members);
            && k.size == |k.members| && k.members != [] && DistinctIds(k.members)
            && forall m :: m in k.members ==> LastRecord(edges, m)
  {
    hide LastRecord;
    hide IsEnd;
  }

  lemma ClusterBounds(root: Parents, edges: seq<SimilarEdge>, r: NodeId, c: Component, ids: set<NodeId>)
    requires Gathered(root, edges, r, c) && forall x :: x in ids <==> x in c.ids
    ensures ExactBounds(edges, ids, c.minScore, c.maxScore) && NoDup(c.ids) && c.ids != []
  {
  }

  lemma ClustersRight(edges: seq<SimilarEdge>, root: Parents, byRoot: map<NodeId, Component>,
                      members: map<NodeId, CloneMember>, roots: seq<NodeId>, clusters: seq<NearCluster>)
    requires Agrees(root, Similar(edges)) && Aggregated(root, edges, byRoot) && EndsAgree(root, edges)
    requires Recorded(edges, members) && FromRoots(byRoot, members, roots, clusters)
    requires forall r :: r in byRoot ==> r in roots
    ensures ConnectedComponents(edges, clusters)
    ensures forall k :: 0 <= k < |clusters| ==> GoodCluster(edges, clusters[k])
  {
    hide GoodCluster;
    forall k | 0 <= k < |clusters|
      ensures GoodCluster(edges, clusters[k])
      ensures forall x :: x in Ids(clusters[k].members) <==> IsEnd(edges, x) && x in root && root[x] == roots[k]
    {
      var c := byRoot[roots[k]];
      assert Gathered(root, edges, roots[k], c);
      ClusterGood(root, edges, members, roots[k], c);
      ClusterIds(edges, members, c);
    }
    hide Gathered;
    hide FromRoots;
    forall x | IsEnd(edges, x) ensures exists k :: 0 <= k < |clusters| && x in Ids(clusters[k].members) {
      var k := RootPosition(edges, root, byRoot, members, roots, clusters, x);
    }
    DistinctRoots(byRoot, members, roots, clusters);
  }

  lemma RootPosition(edges: seq<SimilarEdge>, root: Parents, byRoot: map<NodeId, Component>,
                     members: map<NodeId, CloneMember>, roots: seq<NodeId>, clusters: seq<NearCluster>, x: NodeId)
    returns (k: nat)
    requires Aggregated(root, edges, byRoot) && EndsAgree(root, edges) && FromRoots(byRoot, members, roots, clusters)
    requires (forall r :: r in byRoot ==> r in roots) && IsEnd(edges, x)
    ensures k < |clusters| && x in root && root[x] == roots[k]
  {
    var e :| e in edges && (x == e.src.nodeId || x == e.dst.nodeId);
    assert root[e.src.nodeId] in byRoot;
    k :| 0 <= k < |roots| && roots[k] == root[x];
  }

  lemma DistinctRoots(byRoot: map<NodeId, Component>, members: map<NodeId, CloneMember>,
                      roots: seq<NodeId>, clusters: seq<NearCluster>)
    requires FromRoots(byRoot, members, roots, clusters)
    ensures forall k, l :: 0 <= k < |clusters| && 0 <= l < |clusters| ==> (k == l <==> roots[k] == roots[l])
  {
  }
}
