/** The cycle gate: which strongly-connected components of the after-graph are net-new. */
module CycleGate {
  import opened Graph
  import opened Components

  datatype CycleMember = CycleMember(nodeId: NodeId, filePath: string, symbolPath: string)

  datatype CycleVerdict = CycleVerdict(pass: bool, newCycles: seq<seq<CycleMember>>)

  // ---------- specification ----------

  /** Two nodes that became mutually reachable, in a class the change set touches. */
  ghost predicate NewlyMutual(after: Relation, base: Relation, changed: set<NodeId>, x: NodeId, y: NodeId, z: NodeId) {
    x != y && Mutual(after, x, y) && z in changed && Mutual(after, x, z) && !Mutual(base, x, y)
  }

  ghost predicate Passes(after: Relation, base: Relation, changed: set<NodeId>) {
    forall x, y, z :: !NewlyMutual(after, base, changed, x, y, z)
  }

  ghost predicate IsClass(r: Relation, c: seq<NodeId>) {
    c != [] && NoDup(c) && forall x, y :: x in c ==> (y in c <==> Mutual(r, x, y))
  }

  /** A cycle (two or more nodes) of the after-graph that touches the change and was not one at base. */
  ghost predicate IsNewCycle(after: Relation, base: Relation, changed: set<NodeId>, c: seq<NodeId>) {
    && IsClass(after, c) && |c| >= 2
    && (exists z :: z in c && z in changed)
    && (exists x, y :: x in c && y in c && !Mutual(base, x, y))
  }

  /** Deleting edges can never fail the gate, whatever the change set. */
  lemma DeletionsPass(after: seq<Edge>, base: seq<Edge>, changed: set<NodeId>)
    requires forall e :: e in after ==> e in base
    ensures Passes(EdgeRel(after), EdgeRel(base), changed)
  {
    forall x, y | Mutual(EdgeRel(after), x, y)
      ensures Mutual(EdgeRel(base), x, y)
    {
      ReachMono(EdgeRel(after), EdgeRel(base), x, y);
      ReachMono(EdgeRel(after), EdgeRel(base), y, x);
    }
  }

  // ---------- facts about classes ----------

  lemma MovesOnlyByEdge(edges: seq<Edge>, x: NodeId, y: NodeId)
    requires x != y && Reach(EdgeRel(edges), x, y)
    ensures x in Endpoints(edges)
  {
    if x !in Endpoints(edges) {
      var s := iset{x};
      assert forall e :: e in EdgeRel(edges) ==> e.src in Endpoints(edges);
      assert Closed(EdgeRel(edges), s);
    }
  }

  lemma MutualClass(edges: seq<Edge>, sccs: seq<seq<NodeId>>, k: nat)
    requires Partition(edges, sccs) && ComponentsAreMutual(edges, sccs) && k < |sccs|
    ensures IsClass(EdgeRel(edges), sccs[k])
  {
    var r := EdgeRel(edges);
    forall x, y | x in sccs[k]
      ensures y in sccs[k] <==> Mutual(r, x, y)
    {
      if Mutual(r, x, y) && x != y {
        MovesOnlyByEdge(edges, y, x);
        var l :| 0 <= l < |sccs| && y in sccs[l];
      }
    }
  }

  lemma ClassOf(edges: seq<Edge>, sccs: seq<seq<NodeId>>, x: NodeId, y: NodeId) returns (k: nat)
    requires Partition(edges, sccs) && ComponentsAreMutual(edges, sccs)
    requires x != y && Mutual(EdgeRel(edges), x, y)
    ensures k < |sccs| && x in sccs[k] && y in sccs[k] && |sccs[k]| >= 2
  {
    MovesOnlyByEdge(edges, x, y);
    k :| 0 <= k < |sccs| && x in sccs[k];
    MutualClass(edges, sccs, k);
    var i :| 0 <= i < |sccs[k]| && sccs[k][i] == x;
    var j :| 0 <= j < |sccs[k]| && sccs[k][j] == y;
  }

  // ---------- the gate's helpers ----------

  /** idx names, for each node of a component of two or more, that component's position. */
  ghost predicate IndexOf(sccs: seq<seq<NodeId>>, n: nat, idx: map<NodeId, nat>) {
    && (forall x :: x in idx ==> idx[x] < n && idx[x] < |sccs| && |sccs[idx[x]]| >= 2 && x in sccs[idx[x]])
    && (forall i, x :: 0 <= i < n && i < |sccs| && |sccs[i]| >= 2 && x in sccs[i] ==> x in idx && idx[x] == i)
  }

  ghost predicate Separate(sccs: seq<seq<NodeId>>) {
    forall k, l, x :: 0 <= k < |sccs| && 0 <= l < |sccs| && x in sccs[k] && x in sccs[l] ==> k == l
  }

  method ComponentIndex(sccs: seq<seq<NodeId>>) returns (idx: map<NodeId, nat>)
    requires Separate(sccs)
    ensures IndexOf(sccs, |sccs|, idx)
  {
    idx := map[];
    for i := 0 to |sccs|
      invariant IndexOf(sccs, i, idx)
    {
      if |sccs[i]| >= 2 {
        ghost var before := idx;
        for a := 0 to |sccs[i]|
          invariant forall x :: x in idx <==> x in before || x in sccs[i][..a]
          invariant forall x :: x in idx ==> idx[x] == if x in sccs[i][..a] then i else before[x]
        {
          idx := idx[sccs[i][a] := i];
        }
        assert sccs[i][..|sccs[i]|] == sccs[i];
        assert forall x :: x in sccs[i] ==> x !in before;
      }
    }
  }

  ghost predicate SameBase(scc: seq<NodeId>, baseComp: map<NodeId, nat>) {
    forall x, y :: x in scc && y in scc ==> x in baseComp && y in baseComp && baseComp[x] == baseComp[y]
  }

  method ContainedInOneBaseSCC(scc: seq<NodeId>, baseComp: map<NodeId, nat>) returns (r: bool)
    requires scc != []
    ensures r <==> SameBase(scc, baseComp)
  {
    if scc[0] !in baseComp {
      return false;
    }
    var first := baseComp[scc[0]];
    for i := 1 to |scc|
      invariant forall a :: 0 <= a < i ==> scc[a] in baseComp && baseComp[scc[a]] == first
    {
      if scc[i] !in baseComp || baseComp[scc[i]] != first {
        return false;
      }
    }
    return true;
  }

  method TouchesChanged(scc: seq<NodeId>, changed: set<NodeId>) returns (r: bool)
    ensures r <==> exists z :: z in scc && z in changed
  {
    for i := 0 to |scc|
      invariant forall a :: 0 <= a < i ==> scc[a] !in changed
    {
      if scc[i] in changed {
        return true;
      }
    }
    return false;
  }

  /** One member a node: its stored row, or its id with nothing else. */
  ghost predicate Labels(c: seq<NodeId>, info: map<NodeId, CycleMember>, m: seq<CycleMember>) {
    && |m| == |c|
    && (forall i :: 0 <= i < |c| && c[i] in info ==> m[i] == info[c[i]])
    && (forall i :: 0 <= i < |c| && c[i] !in info ==> m[i] == CycleMember(c[i], "", ""))
  }

  method Members(scc: seq<NodeId>, info: map<NodeId, CycleMember>) returns (out: seq<CycleMember>)
    ensures Labels(scc, info, out)
  {
    out := [];
    for i := 0 to |scc|
      invariant Labels(scc[..i], info, out)
    {
      out := out + [if scc[i] in info then info[scc[i]] else CycleMember(scc[i], "", "")];
    }
  }

  /** Lying in one base component of two or more is being pairwise mutually reachable at base. */
  lemma SameBaseIsMutual(base: seq<Edge>, sccs: seq<seq<NodeId>>, idx: map<NodeId, nat>, c: seq<NodeId>)
    requires Partition(base, sccs) && ComponentsAreMutual(base, sccs) && IndexOf(sccs, |sccs|, idx)
    requires NoDup(c) && |c| >= 2
    ensures SameBase(c, idx) <==> forall x, y :: x in c && y in c ==> Mutual(EdgeRel(base), x, y)
  {
    if SameBase(c, idx) {
      forall x, y | x in c && y in c
        ensures Mutual(EdgeRel(base), x, y)
      {
        assert x in sccs[idx[x]] && y in sccs[idx[y]];
      }
    }
    if forall x, y :: x in c && y in c ==> Mutual(EdgeRel(base), x, y) {
      forall x, y | x in c && y in c
        ensures x in idx && y in idx && idx[x] == idx[y]
      {
        var u := if x == c[0] then c[1] else c[0];
        assert u in c && u != x;
        var k := ClassOf(base, sccs, x, u);
        assert x in idx && idx[x] == k;
        MutualClass(base, sccs, k);
        assert y in sccs[k];
        assert y in idx && idx[y] == k;
      }
    }
  }

  // ---------- the gate ----------

  /** The new cycles among the components, in order. */
  ghost function NewOnes(after: Relation, base: Relation, changed: set<NodeId>,
                         sccs: seq<seq<NodeId>>): seq<seq<NodeId>> {
    if sccs == [] then []
    else
      var n := |sccs| - 1;
      NewOnes(after, base, changed, sccs[..n]) + if IsNewCycle(after, base, changed, sccs[n]) then [sccs[n]] else []
  }

  lemma {:induction false} NewOnesMember(after: Relation, base: Relation, changed: set<NodeId>, sccs: seq<seq<NodeId>>,
                                         g: nat)
    returns (k: nat)
    requires g < |NewOnes(after, base, changed, sccs)|
    ensures k < |sccs| && NewOnes(after, base, changed, sccs)[g] == sccs[k] && IsNewCycle(after, base, changed, sccs[k])
  {
    hide IsNewCycle;
    var n := |sccs| - 1;
    if g < |NewOnes(after, base, changed, sccs[..n])| {
      k := NewOnesMember(after, base, changed, sccs[..n], g);
    } else {
      k := n;
    }
  }

  lemma {:induction false} NewOnesComplete(after: Relation, base: Relation, changed: set<NodeId>,
                                           sccs: seq<seq<NodeId>>, k: nat)
    requires k < |sccs| && IsNewCycle(after, base, changed, sccs[k])
    ensures sccs[k] in NewOnes(after, base, changed, sccs)
  {
    hide IsNewCycle;
    var n := |sccs| - 1;
    if k < n {
      NewOnesComplete(after, base, changed, sccs[..n], k);
    }
  }

  lemma {:induction false} NewOnesSeparate(after: Relation, base: Relation, changed: set<NodeId>,
                                           sccs: seq<seq<NodeId>>,
                                           g: nat, h: nat, x: NodeId)
    requires Separate(sccs) && g < h < |NewOnes(after, base, changed, sccs)|
    requires x in NewOnes(after, base, changed, sccs)[g]
    ensures x !in NewOnes(after, base, changed, sccs)[h]
  {
    hide IsNewCycle;
    var n := |sccs| - 1;
    var rest := NewOnes(after, base, changed, sccs[..n]);
    if h < |rest| {
      forall k, l, y | 0 <= k < n && 0 <= l < n && y in sccs[..n][k] && y in sccs[..n][l] ensures k == l {
        assert y in sccs[k] && y in sccs[l];
      }
      NewOnesSeparate(after, base, changed, sccs[..n], g, h, x);
    } else {
      var k := NewOnesMember(after, base, changed, sccs[..n], g);
      assert x in sccs[k];
    }
  }

  ghost predicate AllLabelled(groups: seq<seq<NodeId>>, info: map<NodeId, CycleMember>, cycles: seq<seq<CycleMember>>) {
    |cycles| == |groups| && forall g :: 0 <= g < |groups| ==> Labels(groups[g], info, cycles[g])
  }

  /** Every group is a new cycle, every newly mutual pair lies in one, and no node lies in two. */
  ghost predicate ExactlyNew(after: Relation, base: Relation, changed: set<NodeId>, groups: seq<seq<NodeId>>) {
    && (forall g :: 0 <= g < |groups| ==> IsNewCycle(after, base, changed, groups[g]))
    && (forall x, y, z :: NewlyMutual(after, base, changed, x, y, z) ==>
        exists g :: 0 <= g < |groups| && x in groups[g] && y in groups[g])
    && (forall g, h, x :: 0 <= g < h < |groups| && x in groups[g] ==> x !in groups[h])
  }

  method Evaluate(afterEdges: seq<Edge>, baseEdges: seq<Edge>, changedNodeIDs: seq<NodeId>, info: map<NodeId,
                  CycleMember>)
    returns (v: CycleVerdict, ghost groups: seq<seq<NodeId>>)
    ensures v.pass <==> Passes(EdgeRel(afterEdges), EdgeRel(baseEdges), Elems(changedNodeIDs))
    ensures v.pass <==> v.newCycles == []
    // the cycles reported are exactly the new ones, each once, and each with all its members
    ensures AllLabelled(groups, info, v.newCycles)
    ensures ExactlyNew(EdgeRel(afterEdges), EdgeRel(baseEdges), Elems(changedNodeIDs), groups)
  {
    var changed := set id | id in changedNodeIDs;
    assert changed == Elems(changedNodeIDs);
    hide *;
    ghost var A, B := EdgeRel(afterEdges), EdgeRel(baseEdges);
    var baseSccs := StronglyConnected(baseEdges);
    PartSeparate(baseEdges, baseSccs);
    var baseComp := ComponentIndex(baseSccs);
    var sccs := StronglyConnected(afterEdges);
    var cycles: seq<seq<CycleMember>> := [];
    groups := [];
    NoNewOnes(A, B, changed, sccs, info);
    for k := 0 to |sccs|
      invariant groups == NewOnes(A, B, changed, sccs[..k])
      invariant AllLabelled(groups, info, cycles)
    {
      var scc := sccs[k];
      NextNewOne(A, B, changed, sccs, k);
      NewCycleIff(afterEdges, sccs, baseEdges, baseSccs, baseComp, changed, k);
      if |scc| < 2 {
        continue;
      }
      var contained := ContainedInOneBaseSCC(scc, baseComp);
      if contained {
        continue;
      }
      var touches := TouchesChanged(scc, changed);
      if !touches {
        continue;
      }
      var m := Members(scc, info);
      OneMoreLabelled(groups, info, cycles, scc, m);
      cycles, groups := cycles + [m], groups + [scc];
    }
    v := CycleVerdict(cycles == [], cycles);
    assert sccs[..|sccs|] == sccs;
    GroupsDecide(afterEdges, B, changed, sccs, groups);
    SameLength(groups, info, cycles);
  }

  lemma PartSeparate(edges: seq<Edge>, sccs: seq<seq<NodeId>>)
    requires Partition(edges, sccs)
    ensures Separate(sccs)
  {
  }

  lemma NoNewOnes(after: Relation, base: Relation, changed: set<NodeId>, sccs: seq<seq<NodeId>>, info: map<NodeId,
                  CycleMember>)
    ensures NewOnes(after, base, changed, sccs[..0]) == [] && AllLabelled([], info, [])
  {
  }

  lemma OneMoreLabelled(groups: seq<seq<NodeId>>, info: map<NodeId, CycleMember>, cycles: seq<seq<CycleMember>>,
                        scc: seq<NodeId>, m: seq<CycleMember>)
    requires AllLabelled(groups, info, cycles) && Labels(scc, info, m)
    ensures AllLabelled(groups + [scc], info, cycles + [m])
  {
    hide Labels;
  }

  lemma SameLength(groups: seq<seq<NodeId>>, info: map<NodeId, CycleMember>, cycles: seq<seq<CycleMember>>)
    requires AllLabelled(groups, info, cycles)
    ensures |groups| == |cycles|
  {
  }

  lemma NextNewOne(after: Relation, base: Relation, changed: set<NodeId>, sccs: seq<seq<NodeId>>, k: nat)
    requires k < |sccs|
    ensures NewOnes(after, base, changed, sccs[..k + 1])
         == NewOnes(after, base, changed, sccs[..k]) + if IsNewCycle(after, base, changed,
             sccs[k]) then [sccs[k]] else []
  {
    hide IsNewCycle;
    assert sccs[..k + 1][..k] == sccs[..k];
  }

  /** The three tests of the loop decide whether a component is a new cycle. */
  lemma NewCycleIff(after: seq<Edge>, sccs: seq<seq<NodeId>>, base: seq<Edge>, baseSccs: seq<seq<NodeId>>,
                    baseComp: map<NodeId, nat>, changed: set<NodeId>, k: nat)
    requires Partition(after, sccs) && ComponentsAreMutual(after, sccs) && k < |sccs|
    requires Partition(base, baseSccs) && ComponentsAreMutual(base, baseSccs) && IndexOf(baseSccs, |baseSccs|, baseComp)
    ensures sccs[k] != []
    ensures IsNewCycle(EdgeRel(after), EdgeRel(base), changed, sccs[k]) <==>
              |sccs[k]| >= 2 && !SameBase(sccs[k], baseComp) && exists z :: z in sccs[k] && z in changed
  {
    MutualClass(after, sccs, k);
    assert sccs[k] != [] && NoDup(sccs[k]);
    hide Partition, ComponentsAreMutual, IsClass;
    if |sccs[k]| >= 2 {
      SameBaseIsMutual(base, baseSccs, baseComp, sccs[k]);
      hide SameBase, Mutual, IndexOf;
    }
  }

  lemma GroupsDecide(after: seq<Edge>, base: Relation, changed: set<NodeId>, sccs: seq<seq<NodeId>>,
                     groups: seq<seq<NodeId>>)
    requires Partition(after, sccs) && ComponentsAreMutual(after, sccs)
    requires groups == NewOnes(EdgeRel(after), base, changed, sccs)
    ensures groups == [] <==> Passes(EdgeRel(after), base, changed)
    ensures ExactlyNew(EdgeRel(after), base, changed, groups)
  {
    var A := EdgeRel(after);
    forall x, y, z | NewlyMutual(A, base, changed, x, y, z)
      ensures exists g :: 0 <= g < |groups| && x in groups[g] && y in groups[g]
    {
      var k := ClassOf(after, sccs, x, y);
      MutualClass(after, sccs, k);
      assert z in sccs[k];
      assert IsNewCycle(A, base, changed, sccs[k]);
      NewOnesComplete(A, base, changed, sccs, k);
    }
    hide IsNewCycle;
    forall g | 0 <= g < |groups| ensures IsNewCycle(A, base, changed, groups[g]) {
      var k := NewOnesMember(A, base, changed, sccs, g);
    }
    forall g, h, x | 0 <= g < h < |groups| && x in groups[g] ensures x !in groups[h] {
      NewOnesSeparate(A, base, changed, sccs, g, h, x);
    }
    if groups != [] {
      NewCycleFails(A, base, changed, groups[0]);
    }
  }

  lemma NewCycleFails(after: Relation, base: Relation, changed: set<NodeId>, c: seq<NodeId>)
    requires IsNewCycle(after, base, changed, c)
    ensures !Passes(after, base, changed)
  {
    var x, y :| x in c && y in c && !Mutual(base, x, y);
    var z :| z in c && z in changed;
    assert NewlyMutual(after, base, changed, x, y, z);
  }
}
