/** The iterative Tarjan of the cycle gate: the walk over its mutable state, and what it returns. */
module Components {
  import opened Graph
  import opened Tarjan

  // ---------- specification ----------

  ghost function EdgeRel(edges: seq<Edge>): Relation {
    iset e | e in edges
  }

  ghost function Endpoints(edges: seq<Edge>): set<NodeId> {
    (set e | e in edges :: e.src) + (set e | e in edges :: e.dst)
  }

  /** Every endpoint lies in exactly one component, at exactly one place, and nothing else does. */
  ghost predicate Partition(edges: seq<Edge>, sccs: seq<seq<NodeId>>) {
    && Nodes(sccs) == Endpoints(edges)
    && (forall x :: x in Endpoints(edges) <==> exists k :: 0 <= k < |sccs| && x in sccs[k])
    && (forall k :: 0 <= k < |sccs| ==> sccs[k] != [] && NoDup(sccs[k]))
    && (forall k, l, x :: 0 <= k < |sccs| && 0 <= l < |sccs| && x in sccs[k] && x in sccs[l] ==> k == l)
  }

  /** Two nodes share a component exactly when each reaches the other. */
  ghost predicate ComponentsAreMutual(edges: seq<Edge>, sccs: seq<seq<NodeId>>) {
    forall k, l, x, y :: 0 <= k < |sccs| && 0 <= l < |sccs| && x in sccs[k] && y in sccs[l]
      ==> (k == l <==> Mutual(EdgeRel(edges), x, y))
  }

  /** An edge leads to its own component or to one emitted earlier. */
  ghost predicate ReverseTopological(edges: seq<Edge>, sccs: seq<seq<NodeId>>) {
    forall k, l, x, y :: 0 <= k < |sccs| && 0 <= l < |sccs| && x in sccs[k] && y in sccs[l] && Edge(x, y) in edges
      ==> l <= k
  }

  // ---------- consequences of the Tarjan invariant ----------

  lemma {:induction false} NodesMember(sccs: seq<seq<NodeId>>, x: NodeId)
    ensures x in Nodes(sccs) <==> exists k :: 0 <= k < |sccs| && x in sccs[k]
  {
    if sccs != [] {
      var n := |sccs| - 1;
      NodesMember(sccs[..n], x);
      if x in Nodes(sccs[..n]) {
        var k :| 0 <= k < n && x in sccs[..n][k];
        assert x in sccs[k];
      } else if k :| 0 <= k < |sccs| && x in sccs[k] {
        assert k < n ==> x in sccs[..n][k];
      }
    }
  }

  /** Component k in the terms of the whole list. */
  lemma {:induction false} EmittedAt(adj: Adjacency, sccs: seq<seq<NodeId>>, k: nat)
    requires Emitted(adj, sccs) && k < |sccs|
    ensures sccs[k] != [] && NoDup(sccs[k]) && Elems(sccs[k]) !! Nodes(sccs[..k])
    ensures StronglyLinked(adj, sccs[k]) && SuccIn(adj, sccs[k], Nodes(sccs[..k + 1]))
  {
    var n := |sccs| - 1;
    if k < n {
      EmittedAt(adj, sccs[..n], k);
      assert sccs[..n][..k] == sccs[..k] && sccs[..n][..k + 1] == sccs[..k + 1];
    } else {
      assert sccs[..k + 1] == sccs;
    }
  }

  lemma {:induction false} PrefixClosed(adj: Adjacency, sccs: seq<seq<NodeId>>, k: nat)
    requires Emitted(adj, sccs) && k <= |sccs|
    ensures Closed(Arrows(adj), iset x | x in Nodes(sccs[..k]))
  {
    if k > 0 {
      PrefixClosed(adj, sccs, k - 1);
      EmittedAt(adj, sccs, k - 1);
      assert sccs[..k][..k - 1] == sccs[..k - 1] && sccs[..k][k - 1] == sccs[k - 1];
      var before := sccs[..k - 1];
      var s := iset x | x in Nodes(before);
      var t := iset x | x in Nodes(sccs[..k]);
      forall e | e in Arrows(adj) && e.src in t
        ensures e.dst in t
      {
        if e.src !in s {
          assert e.src in sccs[k - 1] && e.dst in Succ(adj, e.src);
        }
      }
    }
  }

  lemma InPrefix(sccs: seq<seq<NodeId>>, k: nat, l: nat, x: NodeId)
    requires l < k <= |sccs| && x in sccs[l]
    ensures x in Nodes(sccs[..k])
  {
    assert x in sccs[..k][l];
    NodesMember(sccs[..k], x);
  }

  lemma Disjoint(adj: Adjacency, sccs: seq<seq<NodeId>>, k: nat, l: nat, x: NodeId)
    requires Emitted(adj, sccs) && k < |sccs| && l < |sccs| && x in sccs[k] && x in sccs[l]
    ensures k == l
  {
    var a, b := if k < l then k else l, if k < l then l else k;
    if a < b {
      EmittedAt(adj, sccs, b);
      InPrefix(sccs, b, a, x);
    }
  }

  /** What is reached from component k was emitted no later than it. */
  lemma ReachGoesBack(adj: Adjacency, sccs: seq<seq<NodeId>>, k: nat, l: nat, x: NodeId, y: NodeId)
    requires Emitted(adj, sccs) && k < |sccs| && l < |sccs| && x in sccs[k] && y in sccs[l]
    requires Reach(Arrows(adj), x, y)
    ensures l <= k
  {
    PrefixClosed(adj, sccs, k + 1);
    InPrefix(sccs, k + 1, k, x);
    NodesMember(sccs[..k + 1], y);
    var m :| 0 <= m < k + 1 && y in sccs[..k + 1][m];
    Disjoint(adj, sccs, m, l, y);
  }

  ghost predicate AdjacencyOf(edges: seq<Edge>, adj: Adjacency) {
    forall x, y :: y in Succ(adj, x) <==> Edge(x, y) in edges && x != y
  }

  lemma SameReach(edges: seq<Edge>, adj: Adjacency, x: NodeId, y: NodeId)
    requires AdjacencyOf(edges, adj)
    ensures Reach(EdgeRel(edges), x, y) <==> Reach(Arrows(adj), x, y)
  {
    assert forall e :: e in EdgeRel(edges) && e.src != e.dst ==> e == Edge(e.src, e.dst);
    if Reach(EdgeRel(edges), x, y) {
      ReachMono(EdgeRel(edges), Arrows(adj), x, y);
    }
    if Reach(Arrows(adj), x, y) {
      ReachMono(Arrows(adj), EdgeRel(edges), x, y);
    }
  }

  lemma EmittedIsDecomposition(edges: seq<Edge>, adj: Adjacency, sccs: seq<seq<NodeId>>)
    requires AdjacencyOf(edges, adj) && Emitted(adj, sccs) && Nodes(sccs) == Endpoints(edges)
    ensures Partition(edges, sccs) && ComponentsAreMutual(edges, sccs) && ReverseTopological(edges, sccs)
  {
    forall x ensures x in Nodes(sccs) <==> exists k :: 0 <= k < |sccs| && x in sccs[k] {
      NodesMember(sccs, x);
    }
    forall k | 0 <= k < |sccs| ensures sccs[k] != [] && NoDup(sccs[k]) {
      EmittedAt(adj, sccs, k);
    }
    forall k, l, x | 0 <= k < |sccs| && 0 <= l < |sccs| && x in sccs[k] && x in sccs[l] ensures k == l {
      Disjoint(adj, sccs, k, l, x);
    }
    forall k, l, x, y | 0 <= k < |sccs| && 0 <= l < |sccs| && x in sccs[k] && y in sccs[l]
      ensures k == l <==> Mutual(EdgeRel(edges), x, y)
    {
      MutualIffSame(edges, adj, sccs, k, l, x, y);
    }
    forall k, l, x, y | 0 <= k < |sccs| && 0 <= l < |sccs| && x in sccs[k] && y in sccs[l] && Edge(x, y) in edges
      ensures l <= k
    {
      ReachEdge(EdgeRel(edges), x, y);
      SameReach(edges, adj, x, y);
      ReachGoesBack(adj, sccs, k, l, x, y);
    }
  }

  lemma MutualIffSame(edges: seq<Edge>, adj: Adjacency, sccs: seq<seq<NodeId>>, k: nat, l: nat, x: NodeId, y: NodeId)
    requires AdjacencyOf(edges, adj) && Emitted(adj, sccs)
    requires k < |sccs| && l < |sccs| && x in sccs[k] && y in sccs[l]
    ensures k == l <==> Mutual(EdgeRel(edges), x, y)
  {
    SameReach(edges, adj, x, y);
    SameReach(edges, adj, y, x);
    if k == l {
      EmittedAt(adj, sccs, k);
    }
    if Mutual(EdgeRel(edges), x, y) {
      ReachGoesBack(adj, sccs, k, l, x, y);
      ReachGoesBack(adj, sccs, l, k, y, x);
    }
  }

  // ---------- the walk ----------

  class Walker {
    const adj: Adjacency
    ghost const universe: set<NodeId>
    var index: map<NodeId, nat>
    var lowlink: map<NodeId, nat>
    var onStack: map<NodeId, bool>
    var stack: seq<NodeId>
    var next: nat
    var sccs: seq<seq<NodeId>>
    var call: seq<Frame>
    ghost var at: seq<nat>
    ghost var done: map<NodeId, nat>

    ghost function St(): State
      reads this
    {
      State(index, lowlink, next, stack, call, sccs, at, done)
    }

    ghost predicate Marks()
      reads this
    {
      forall w :: w in stack <==> w in onStack && onStack[w]
    }

    ghost predicate Valid()
      reads this
    {
      && Inv(adj, St())
      && Marks()
      && index.Keys <= universe
      && (forall x, y :: y in Succ(adj, x) ==> y in universe)
    }

    /** Adjacency entries the top frame has not read. */
    ghost function Unread(): int
      reads this
    {
      if call == [] then 0 else |Succ(adj, call[|call| - 1].node)| - call[|call| - 1].ei
    }

    constructor (adj: Adjacency, ghost universe: set<NodeId>)
      requires forall x, y :: y in Succ(adj, x) ==> y in universe
      ensures Valid() && call == [] && index == map[]
      ensures this.adj == adj && this.universe == universe
    {
      this.adj, this.universe := adj, universe;
      index, lowlink, onStack, done := map[], map[], map[], map[];
      stack, sccs, call, at := [], [], [], [];
      next := 0;
    }

    method PushNode(v: NodeId)
      requires Marks()
      modifies this
      ensures St() == Push(old(St()), v) && Marks()
    {
      index := index[v := next];
      lowlink := lowlink[v := next];
      next := next + 1;
      at := at + [|stack|];
      stack := stack + [v];
      onStack := onStack[v := true];
      call := call + [Frame(v, 0)];
      done := done[v := 0];
    }

    /** Pops the node stack down to v; what comes off is v's component. */
    method PopComponent(v: NodeId, ghost p: nat) returns (comp: seq<NodeId>)
      requires Marks() && NoDup(stack) && p < |stack| && stack[p] == v
      modifies this`stack, this`onStack
      ensures Marks() && stack == old(stack)[..p]
      ensures NoDup(comp) && Elems(comp) == Elems(old(stack)[p..])
    {
      comp := [];
      while true
        invariant p < |stack| <= |old(stack)| && stack == old(stack)[..|stack|] && Marks()
        invariant NoDup(comp) && Elems(comp) == Elems(old(stack)[|stack|..])
        decreases |stack|
      {
        var w := stack[|stack| - 1];
        PopOne(old(stack), |stack| - 1, comp);
        stack := stack[..|stack| - 1];
        onStack := onStack[w := false];
        comp := comp + [w];
        if w == v {
          break;
        }
      }
    }

    /** Reads the top frame's next adjacency entry. */
    method NextEntry() returns (v: NodeId, w: NodeId)
      requires HasNext(adj, St()) && Marks()
      modifies this`call, this`done
      ensures v == Top(old(St())) && w == NextSucc(adj, old(St()))
      ensures St() == Advance(old(St())) && Marks() && |call| == old(|call|) && Unread() == old(Unread()) - 1
    {
      var top := |call| - 1;
      v := call[top].node;
      w := adj[v][call[top].ei];
      call := call[top := Frame(v, call[top].ei + 1)];
      done := done[v := call[top].ei];
    }

    method ReadNext()
      requires Valid() && HasNext(adj, St())
      modifies this
      ensures Valid() && old(index.Keys) <= index.Keys
      ensures index.Keys == old(index.Keys) ==> |call| == old(|call|) && Unread() < old(Unread())
    {
      hide Inv, Shape, NoDup, Elems, Reach, Arrows;
      ghost var s := St();
      TopFacts(adj, s);
      var v, w := NextEntry();
      hide Advance, NextSucc;
      if w !in index {
        PushChild(adj, s);
        PushNode(w);
        assert St() == Push(Advance(s), w);
      } else if w in onStack && onStack[w] && index[w] < lowlink[v] {
        BackEdge(adj, s);
        lowlink := lowlink[v := index[w]];
        LowThenAdvance(s, v, s.index[w]);
      } else {
        AdvanceSeen(adj, s);
      }
    }

    method Leave()
      requires Valid() && Finished(adj, St())
      modifies this
      ensures Valid() && index == old(index) && |call| == old(|call|) - 1
    {
      hide Inv, Shape, NoDup, Elems, Reach, Arrows;
      ghost var s := St();
      TopFacts(adj, s);
      var v := call[|call| - 1].node;
      ghost var p := at[|at| - 1];
      ghost var root := lowlink[v] == index[v];
      var comp := [];
      if lowlink[v] == index[v] {
        comp := PopComponent(v, p);
        sccs := sccs + [comp];
      }
      call, at := call[..|call| - 1], at[..|at| - 1];
      LeaveKeepsInv(adj, s, comp);
      if |call| > 0 {
        var p := call[|call| - 1].node;
        if lowlink[v] < lowlink[p] {
          lowlink := lowlink[p := lowlink[v]];
        }
      }
      assert root ==> St() == Emit(s, comp);
      assert !root && s.low[v] < s.low[s.call[|s.call| - 2].node] ==>
          St() == Drop(SetLow(s, s.call[|s.call| - 2].node, s.low[v]));
    }

    method Explore(root: NodeId)
      requires Valid() && call == [] && root !in index && root in universe
      modifies this
      ensures Valid() && call == [] && root in index && old(index.Keys) <= index.Keys
    {
      hide Inv;
      PushRoot(adj, St(), root);
      PushNode(root);
      while |call| > 0
        invariant Valid() && root in index && old(index.Keys) <= index.Keys
        decreases universe - index.Keys, |call|, Unread()
      {
        hide Inv;
        ghost var seen := index.Keys;
        var f := call[|call| - 1];
        if f.ei < |Succ(adj, f.node)| {
          ReadNext();
          assert index.Keys != seen ==> universe - index.Keys < universe - seen;
        } else {
          Leave();
        }
      }
    }
  }

  lemma TopFacts(adj: Adjacency, s: State)
    requires Inv(adj, s) && s.call != []
    ensures s.low.Keys == s.index.Keys && |s.at| == |s.call| && Top(s) in s.index && NoDup(s.stack)
    ensures s.at[|s.at| - 1] < |s.stack| && s.stack[s.at[|s.at| - 1]] == Top(s)
    ensures |s.call| >= 2 ==> s.call[|s.call| - 2].node in s.index
    ensures Shape(s) && forall x :: x in s.stack ==> x in s.index
  {
  }

  lemma NotBottom(adj: Adjacency, s: State)
    requires Inv(adj, s) && s.call != [] && s.low[Top(s)] != s.index[Top(s)]
    ensures |s.call| >= 2 && s.low[Top(s)] < s.index[Top(s)]
  {
    LowAtMostIndex(adj, s, |s.at| - 1);
    if |s.call| == 1 {
      BottomIsRoot(adj, s);
    }
  }

  /** A root never lowers its caller's lowlink. */
  lemma RootKeepsLow(adj: Adjacency, s: State)
    requires Inv(adj, s) && |s.call| >= 2 && s.low[Top(s)] == s.index[Top(s)]
    ensures s.low[s.call[|s.call| - 2].node] <= s.low[Top(s)]
  {
    LowAtMostIndex(adj, s, |s.at| - 2);
    StackOrder(s, s.at[|s.at| - 2], s.at[|s.at| - 1]);
  }

  /** A finished root emits its component; any other finished node hands its lowlink to its caller. */
  lemma LeaveKeepsInv(adj: Adjacency, s: State, comp: seq<NodeId>)
    requires Inv(adj, s) && Finished(adj, s)
    requires s.low[Top(s)] == s.index[Top(s)] ==> IsComponent(s, comp)
    ensures s.low[Top(s)] == s.index[Top(s)] ==>
              && Inv(adj, Emit(s, comp))
              && (|s.call| >= 2 ==> s.low[s.call[|s.call| - 2].node] <= s.low[Top(s)])
    ensures s.low[Top(s)] != s.index[Top(s)] ==>
              && |s.call| >= 2
              && var p := s.call[|s.call| - 2].node;
                 if s.low[Top(s)] < s.low[p] then Inv(adj, Drop(SetLow(s, p, s.low[Top(s)]))) else Inv(adj, Drop(s))
  {
    hide Inv;
    TopFacts(adj, s);
    if s.low[Top(s)] == s.index[Top(s)] {
      EmitInv(adj, s, comp);
      if |s.call| >= 2 {
        RootKeepsLow(adj, s);
      }
    } else {
      NotBottom(adj, s);
      var v, p := Top(s), s.call[|s.call| - 2].node;
      if s.low[v] < s.low[p] {
        var m := CallerWitness(adj, s);
        Lower(adj, s, |s.at| - 2, m);
        Retire(adj, SetLow(s, p, s.low[v]));
      } else {
        Retire(adj, s);
      }
    }
  }

  lemma CallerWitness(adj: Adjacency, s: State) returns (m: nat)
    requires Inv(adj, s) && |s.call| >= 2 && s.low[Top(s)] < s.low[s.call[|s.call| - 2].node]
    ensures m <= s.at[|s.at| - 2] && s.index[s.stack[m]] == s.low[Top(s)] && s.at[|s.at| - 2] < s.at[|s.at| - 1]
    ensures Reach(Arrows(adj), s.call[|s.call| - 2].node, s.stack[m])
    ensures s.call[|s.call| - 2].node != Top(s)
  {
    var v, p, top := Top(s), s.call[|s.call| - 2].node, |s.at| - 1;
    assert HasWitness(adj, s, top);
    m :| LowWitness(adj, s, top, m);
    LowAtMostIndex(adj, s, top - 1);
    StackOrder(s, m, s.at[top - 1]);
    StackOrder(s, s.at[top - 1], s.at[top]);
    assert Reach(Arrows(adj), p, s.stack[s.at[top]]);
    ReachTrans(Arrows(adj), p, v, s.stack[m]);
  }

  lemma PushRoot(adj: Adjacency, s: State, v: NodeId)
    requires Inv(adj, s) && s.call == [] && v !in s.index
    ensures Inv(adj, Push(s, v))
  {
    PushInv(adj, s, v);
  }

  lemma PopOne(stack: seq<NodeId>, n: nat, comp: seq<NodeId>)
    requires n < |stack| && NoDup(comp) && Elems(comp) == Elems(stack[n + 1..])
    requires NoDup(stack)
    ensures NoDup(comp + [stack[n]]) && Elems(comp + [stack[n]]) == Elems(stack[n..])
  {
    ElemsAppend(comp, [stack[n]]);
    assert stack[n..] == [stack[n]] + stack[n + 1..];
    ElemsAppend([stack[n]], stack[n + 1..]);
    forall a | 0 <= a < |comp|
      ensures comp[a] != stack[n]
    {
      assert comp[a] in Elems(comp);
    }
  }

  lemma LowThenAdvance(s: State, v: NodeId, l: nat)
    requires s.call != []
    ensures Advance(SetLow(s, v, l)) == SetLow(Advance(s), v, l)
    ensures Advance(s).stack == s.stack && Advance(s).index == s.index && Advance(s).low == s.low
  {
  }

  lemma LowKeepsRest(adj: Adjacency, s: State, v: NodeId, l: nat)
    requires HasNext(adj, s)
    ensures var t := SetLow(s, v, l);
            && HasNext(adj, t) && NextSucc(adj, t) == NextSucc(adj, s) && t.stack == s.stack && t.index == s.index &&
                Top(t) == Top(s)
            && v in t.low && t.low[v] == l
  {
  }

  lemma BackTarget(adj: Adjacency, s: State) returns (i: nat)
    requires HasNext(adj, s) && NextSucc(adj, s) in s.stack && NextSucc(adj, s) in s.index && Top(s) in s.low
    requires s.index[NextSucc(adj, s)] < s.low[Top(s)]
    requires Inv(adj, s)
    ensures i < |s.stack| && s.stack[i] == NextSucc(adj, s) && i <= s.at[|s.at| - 1]
    ensures Reach(Arrows(adj), Top(s), s.stack[i])
  {
    hide Explored, LowBound, Down, Up, Emitted, Cover;
    i :| 0 <= i < |s.stack| && s.stack[i] == NextSucc(adj, s);
    LowAtMostIndex(adj, s, |s.at| - 1);
    StackOrder(s, i, s.at[|s.at| - 1]);
    assert Edge(Top(s), s.stack[i]) in Arrows(adj);
    ReachEdge(Arrows(adj), Top(s), s.stack[i]);
  }

  /** An edge back into the stack lowers the top node's lowlink. */
  lemma BackEdge(adj: Adjacency, s: State)
    requires HasNext(adj, s) && NextSucc(adj, s) in s.stack && NextSucc(adj, s) in s.index && Top(s) in s.low
    requires s.index[NextSucc(adj, s)] < s.low[Top(s)]
    requires Inv(adj, s)
    ensures Inv(adj, Advance(SetLow(s, Top(s), s.index[NextSucc(adj, s)])))
  {
    var i := BackTarget(adj, s);
    TopFacts(adj, s);
    LowKeepsRest(adj, s, Top(s), s.index[s.stack[i]]);
    hide Inv, Shape, Reach, Arrows, Succ, Nth, NoDup, SetLow, NextSucc, HasNext;
    Lower(adj, s, |s.at| - 1, i);
    AdvanceSeen(adj, SetLow(s, Top(s), s.index[s.stack[i]]));
  }

  // ---------- the whole of it ----------

  method BuildAdjacency(edges: seq<Edge>) returns (adj: Adjacency, nodeset: set<NodeId>)
    ensures nodeset == Endpoints(edges) && AdjacencyOf(edges, adj)
  {
    adj, nodeset := map[], {};
    for n := 0 to |edges|
      invariant nodeset == Endpoints(edges[..n]) && AdjacencyOf(edges[..n], adj)
    {
      var e := edges[n];
      assert edges[..n + 1] == edges[..n] + [e];
      nodeset := nodeset + {e.src, e.dst};
      if e.src != e.dst {
        adj := adj[e.src := Succ(adj, e.src) + [e.dst]];
      }
    }
    assert edges[..|edges|] == edges;
  }

  method ListNodes(nodeset: set<NodeId>) returns (nodes: seq<NodeId>)
    ensures Elems(nodes) == nodeset
  {
    nodes := [];
    var rest := nodeset;
    while rest != {}
      invariant Elems(nodes) + rest == nodeset
    {
      var n :| n in rest;
      ElemsAppend(nodes, [n]);
      nodes, rest := nodes + [n], rest - {n};
    }
  }

  method StronglyConnected(edges: seq<Edge>) returns (sccs: seq<seq<NodeId>>)
    ensures Partition(edges, sccs)
    ensures ComponentsAreMutual(edges, sccs)
    ensures ReverseTopological(edges, sccs)
  {
    hide Inv;
    var adj, nodeset := BuildAdjacency(edges);
    var nodes := ListNodes(nodeset);
    forall x, y | y in Succ(adj, x) ensures y in nodeset {
      assert Edge(x, y) in edges;
    }
    var w := new Walker(adj, nodeset);
    for n := 0 to |nodes|
      invariant w.Valid() && w.call == [] && w.adj == adj && w.universe == nodeset && fresh(w)
      invariant forall i :: 0 <= i < n ==> nodes[i] in w.index
    {
      hide Inv;
      assert nodes[n] in Elems(nodes);
      if nodes[n] !in w.index {
        w.Explore(nodes[n]);
      }
    }
    forall x | x in nodeset ensures x in w.index {
      assert x in Elems(nodes);
    }
    AllEmitted(adj, w.St());
    sccs := w.sccs;
    EmittedIsDecomposition(edges, adj, sccs);
  }

  lemma AllEmitted(adj: Adjacency, s: State)
    requires Inv(adj, s) && s.call == []
    ensures Emitted(adj, s.sccs) && Nodes(s.sccs) == s.index.Keys
  {
  }
}
