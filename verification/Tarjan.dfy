/**
 The state of the iterative Tarjan walk, the invariant it keeps, and one small lemma per
 invariant clause and step. The imperative walk itself is in module Components.
 */
module Tarjan {
  import opened Graph

  ghost function Nth(adj: Adjacency, v: NodeId, i: int): NodeId
    requires 0 <= i < |Succ(adj, v)|
  {
    Succ(adj, v)[i]
  }

  ghost function Arrows(adj: Adjacency): Relation {
    iset e: Edge | e.dst in Succ(adj, e.src)
  }

  datatype Frame = Frame(node: NodeId, ei: nat)

  /**
   The walk's variables. Two fields are for the proof only: at[k] is the position on the node
   stack of the k-th node of the call stack, and done[v] counts the adjacency entries of v read.
   */
  datatype State = State(
    index: map<NodeId, nat>,
    low: map<NodeId, nat>,
    next: nat,
    stack: seq<NodeId>,
    call: seq<Frame>,
    sccs: seq<seq<NodeId>>,
    at: seq<nat>,
    done: map<NodeId, nat>
  )

  /** Stack position i belongs to call level k: at or above it, and below the next level. */
  ghost predicate Owns(s: State, k: int, i: int) {
    && 0 <= k < |s.at| && s.at[k] <= i < |s.stack|
    && (k + 1 < |s.at| ==> i < s.at[k + 1])
  }

  // ---------- the invariant ----------

  ghost predicate Shape(s: State) {
    && s.low.Keys == s.index.Keys
    && s.done.Keys == s.index.Keys
    && (forall v :: v in s.index ==> s.index[v] < s.next)
    && (forall i :: 0 <= i < |s.stack| ==> s.stack[i] in s.index)
    && (forall i, j :: 0 <= i < j < |s.stack| ==> s.index[s.stack[i]] < s.index[s.stack[j]])
    && |s.at| == |s.call|
    && (forall k :: 0 <= k < |s.at| ==> s.at[k] < |s.stack| && s.call[k].node == s.stack[s.at[k]])
    && (forall j, k :: 0 <= j < k < |s.at| ==> s.at[j] < s.at[k])
    && (|s.at| == 0 ==> |s.stack| == 0)
    && (|s.at| > 0 ==> s.at[0] == 0)
  }

  ghost predicate Bounded(adj: Adjacency, s: State) {
    s.done.Keys == s.index.Keys && forall x :: x in s.done ==> s.done[x] <= |Succ(adj, x)|
  }

  ghost predicate Explored(adj: Adjacency, s: State)
    requires Shape(s)
  {
    && Bounded(adj, s)
    && (forall x, i {:trigger Nth(adj, x, i)} :: x in s.index && 0 <= i < s.done[x] ==> Nth(adj, x, i) in s.index)
    && (forall k :: 0 <= k < |s.call| ==> s.done[s.call[k].node] == s.call[k].ei)
    && (forall k, i {:trigger Owns(s, k, i)} :: Owns(s, k, i) && i != s.at[k] ==>
        s.done[s.stack[i]] == |Succ(adj, s.stack[i])|)
  }

  ghost predicate LowWitness(adj: Adjacency, s: State, k: nat, i: nat)
    requires Shape(s) && k < |s.at|
  {
    && i <= s.at[k]
    && s.index[s.stack[i]] == s.low[s.call[k].node]
    && Reach(Arrows(adj), s.call[k].node, s.stack[i])
  }

  ghost predicate HasWitness(adj: Adjacency, s: State, k: nat)
    requires Shape(s) && k < |s.at|
  {
    exists i :: LowWitness(adj, s, k, i)
  }

  /** Each call node's lowlink is the index of a stack node it reaches... */
  ghost predicate LowSound(adj: Adjacency, s: State)
    requires Shape(s)
  {
    forall k :: 0 <= k < |s.at| ==> HasWitness(adj, s, k)
  }

  /** ...and bounds every edge already read from the part of the stack it owns. */
  ghost predicate LowBound(adj: Adjacency, s: State)
    requires Shape(s) && Bounded(adj, s)
  {
    forall k, i, j {:trigger Owns(s, k, i), Nth(adj, s.stack[i], j)} :: Owns(s, k, i)
      && 0 <= j < s.done[s.stack[i]] && Nth(adj, s.stack[i], j) in s.stack
      ==> s.low[s.call[k].node] <= s.index[Nth(adj, s.stack[i], j)]
  }

  ghost predicate Down(adj: Adjacency, s: State)
    requires Shape(s)
  {
    forall k, i :: 0 <= k < |s.at| && s.at[k] <= i < |s.stack|
      ==> Reach(Arrows(adj), s.call[k].node, s.stack[i])
  }

  ghost predicate Up(adj: Adjacency, s: State)
    requires Shape(s)
  {
    forall k, i {:trigger Owns(s, k, i)} :: Owns(s, k, i) ==> Reach(Arrows(adj), s.stack[i], s.call[k].node)
  }

  ghost function Nodes(sccs: seq<seq<NodeId>>): set<NodeId> {
    if sccs == [] then {} else Nodes(sccs[..|sccs| - 1]) + Elems(sccs[|sccs| - 1])
  }

  ghost predicate StronglyLinked(adj: Adjacency, c: seq<NodeId>) {
    forall x, y :: x in c && y in c ==> Reach(Arrows(adj), x, y)
  }

  ghost predicate SuccIn(adj: Adjacency, c: seq<NodeId>, s: set<NodeId>) {
    forall x, y :: x in c && y in Succ(adj, x) ==> y in s
  }

  /** Components emitted so far: new each time, strongly linked, and closed with the earlier ones. */
  ghost predicate Emitted(adj: Adjacency, sccs: seq<seq<NodeId>>) {
    sccs != [] ==>
      var c := sccs[|sccs| - 1];
      && Emitted(adj, sccs[..|sccs| - 1])
      && c != [] && NoDup(c) && Elems(c) !! Nodes(sccs[..|sccs| - 1])
      && StronglyLinked(adj, c)
      && SuccIn(adj, c, Nodes(sccs))
  }

  ghost predicate Cover(s: State) {
    s.index.Keys == Elems(s.stack) + Nodes(s.sccs) && Elems(s.stack) !! Nodes(s.sccs)
  }

  ghost predicate Inv(adj: Adjacency, s: State) {
    && Shape(s)
    && Explored(adj, s)
    && LowSound(adj, s)
    && LowBound(adj, s)
    && Down(adj, s)
    && Up(adj, s)
    && Emitted(adj, s.sccs)
    && Cover(s)
  }

  // ---------- the steps ----------

  ghost function Push(s: State, v: NodeId): State {
    s.(index := s.index[v := s.next], low := s.low[v := s.next], next := s.next + 1,
       stack := s.stack + [v], call := s.call + [Frame(v, 0)],
       at := s.at + [|s.stack|], done := s.done[v := 0])
  }

  ghost function Top(s: State): NodeId
    requires s.call != []
  {
    s.call[|s.call| - 1].node
  }

  /** The next adjacency entry of the top node. */
  ghost function NextSucc(adj: Adjacency, s: State): NodeId
    requires s.call != [] && s.call[|s.call| - 1].ei < |Succ(adj, Top(s))|
  {
    Nth(adj, Top(s), s.call[|s.call| - 1].ei)
  }

  ghost predicate HasNext(adj: Adjacency, s: State) {
    s.call != [] && s.call[|s.call| - 1].ei < |Succ(adj, Top(s))|
  }

  ghost function Advance(s: State): State
    requires s.call != []
  {
    var f := s.call[|s.call| - 1];
    s.(call := s.call[|s.call| - 1 := f.(ei := f.ei + 1)], done := s.done[f.node := f.ei + 1])
  }

  ghost function SetLow(s: State, v: NodeId, l: nat): State {
    s.(low := s.low[v := l])
  }

  /** Take the top frame off the call stack. */
  ghost function Drop(s: State): State
    requires s.call != [] && |s.at| == |s.call|
  {
    s.(call := s.call[..|s.call| - 1], at := s.at[..|s.at| - 1])
  }

  /** The top node is a root: everything above it on the stack is its component. */
  ghost function Emit(s: State, c: seq<NodeId>): State
    requires Shape(s) && s.call != []
  {
    Drop(s).(stack := s.stack[..s.at[|s.at| - 1]], sccs := s.sccs + [c])
  }

  // ---------- small facts ----------

  /** Every stack position belongs to exactly one call level. */
  lemma {:induction false} Owner(s: State, i: nat, n: nat) returns (k: nat)
    requires Shape(s) && 0 < n <= |s.at| && i < |s.stack| && (n < |s.at| ==> i < s.at[n])
    ensures k < n && Owns(s, k, i)
  {
    if s.at[n - 1] <= i {
      k := n - 1;
    } else {
      k := Owner(s, i, n - 1);
    }
  }

  lemma StackOrder(s: State, i: nat, j: nat)
    requires Shape(s) && i < |s.stack| && j < |s.stack|
    ensures s.index[s.stack[i]] <= s.index[s.stack[j]] <==> i <= j
    ensures s.stack[i] == s.stack[j] ==> i == j
  {
  }

  lemma NodesAppend(sccs: seq<seq<NodeId>>, c: seq<NodeId>)
    ensures Nodes(sccs + [c]) == Nodes(sccs) + Elems(c)
  {
    assert (sccs + [c])[..|sccs|] == sccs;
  }

  // ---------- lowering a lowlink ----------

  lemma LowerShape(s: State, v: NodeId, l: nat)
    requires Shape(s) && v in s.low
    ensures Shape(SetLow(s, v, l))
  {
  }

  lemma LowerSound(adj: Adjacency, s: State, k: nat, i: nat)
    requires Shape(s) && LowSound(adj, s) && k < |s.at| && i <= s.at[k]
    requires Reach(Arrows(adj), s.call[k].node, s.stack[i]) && Shape(SetLow(s, s.call[k].node, s.index[s.stack[i]]))
    ensures LowSound(adj, SetLow(s, s.call[k].node, s.index[s.stack[i]]))
  {
    hide Reach, Arrows;
    var t := SetLow(s, s.call[k].node, s.index[s.stack[i]]);
    forall m | 0 <= m < |t.at|
      ensures HasWitness(adj, t, m)
    {
      if m == k {
        assert LowWitness(adj, t, k, i);
      } else {
        StackOrder(s, s.at[m], s.at[k]);
        assert HasWitness(adj, s, m);
        var w :| LowWitness(adj, s, m, w);
        assert LowWitness(adj, t, m, w);
      }
    }
  }

  lemma LowerLow(adj: Adjacency, s: State, k: nat, i: nat)
    requires Shape(s) && Bounded(adj, s) && LowSound(adj, s) && LowBound(adj, s)
    requires k < |s.at| && i <= s.at[k] && s.index[s.stack[i]] < s.low[s.call[k].node]
    requires Reach(Arrows(adj), s.call[k].node, s.stack[i])
    ensures var t := SetLow(s, s.call[k].node, s.index[s.stack[i]]);
            Shape(t) && LowSound(adj, t) && LowBound(adj, t)
  {
    LowerShape(s, s.call[k].node, s.index[s.stack[i]]);
    LowerSound(adj, s, k, i);
    NamesKnown(s);
    hide Shape, LowSound, Reach, Arrows;
    var t := SetLow(s, s.call[k].node, s.index[s.stack[i]]);
    forall m, a, j | Owns(t, m, a)
                     && 0 <= j < t.done[t.stack[a]] && Nth(adj, t.stack[a], j) in t.stack
      ensures t.low[t.call[m].node] <= t.index[Nth(adj, t.stack[a], j)]
    {
      assert Owns(s, m, a);
      assert s.low[s.call[m].node] <= s.index[Nth(adj, s.stack[a], j)];
    }
  }

  lemma LowerRest(adj: Adjacency, s: State, v: NodeId, l: nat)
    requires Shape(s) && Explored(adj, s) && Down(adj, s) && Up(adj, s) && Shape(SetLow(s, v, l))
    ensures Explored(adj, SetLow(s, v, l)) && Down(adj, SetLow(s, v, l)) && Up(adj, SetLow(s, v, l))
  {
    var t := SetLow(s, v, l);
    forall m, a | Owns(t, m, a)
      ensures Reach(Arrows(adj), t.stack[a], t.call[m].node)
      ensures a != t.at[m] ==> t.done[t.stack[a]] == |Succ(adj, t.stack[a])|
    {
      assert Owns(s, m, a);
    }
  }

  /** A call node's lowlink may drop to the index of any lower stack node it reaches. */
  lemma Lower(adj: Adjacency, s: State, k: nat, i: nat)
    requires Inv(adj, s) && k < |s.at| && i <= s.at[k]
    requires s.index[s.stack[i]] < s.low[s.call[k].node]
    requires Reach(Arrows(adj), s.call[k].node, s.stack[i])
    ensures Inv(adj, SetLow(s, s.call[k].node, s.index[s.stack[i]]))
  {
    LowerLow(adj, s, k, i);
    LowerRest(adj, s, s.call[k].node, s.index[s.stack[i]]);
  }

  // ---------- reading an adjacency entry ----------

  lemma AdvanceShape(adj: Adjacency, s: State)
    requires Shape(s) && Explored(adj, s) && HasNext(adj, s)
    ensures Shape(Advance(s)) && Bounded(adj, Advance(s))
    ensures Advance(s).at == s.at && Advance(s).stack == s.stack && Advance(s).index == s.index
    ensures forall k :: 0 <= k < |s.call| ==> Advance(s).call[k].node == s.call[k].node
  {
    assert s.done[Top(s)] == s.call[|s.call| - 1].ei;
  }

  lemma AdvanceReach(adj: Adjacency, s: State)
    requires Shape(s) && Explored(adj, s) && HasNext(adj, s) && Shape(Advance(s))
    requires LowSound(adj, s) && Down(adj, s) && Up(adj, s)
    ensures LowSound(adj, Advance(s)) && Down(adj, Advance(s)) && Up(adj, Advance(s))
  {
    AdvanceShape(adj, s);
    var t := Advance(s);
    forall k | 0 <= k < |t.at|
      ensures HasWitness(adj, t, k)
    {
      assert HasWitness(adj, s, k);
      var w :| LowWitness(adj, s, k, w);
      assert LowWitness(adj, t, k, w);
    }
    forall k, i | Owns(t, k, i)
      ensures Reach(Arrows(adj), t.stack[i], t.call[k].node)
    {
      assert Owns(s, k, i);
    }
  }

  lemma AdvanceLowBoundAt(adj: Adjacency, s: State, k: int, i: int, j: int)
    requires Shape(s) && Explored(adj, s) && HasNext(adj, s) && LowBound(adj, s)
    requires NextSucc(adj, s) in s.stack ==> s.low[Top(s)] <= s.index[NextSucc(adj, s)]
    requires Owns(s, k, i) && 0 <= j < |Succ(adj, s.stack[i])| && Nth(adj, s.stack[i], j) in s.stack
    requires j < s.done[s.stack[i]] || (s.stack[i] == Top(s) && j == s.call[|s.call| - 1].ei)
    ensures s.low[s.call[k].node] <= s.index[Nth(adj, s.stack[i], j)]
  {
    if j >= s.done[s.stack[i]] {
      StackOrder(s, i, s.at[|s.at| - 1]);
      assert k == |s.at| - 1;
    }
  }

  lemma AdvanceLowBound(adj: Adjacency, s: State)
    requires Shape(s) && Explored(adj, s) && HasNext(adj, s) && Shape(Advance(s)) && Bounded(adj, Advance(s))
    requires LowBound(adj, s)
    requires NextSucc(adj, s) in s.stack ==> s.low[Top(s)] <= s.index[NextSucc(adj, s)]
    ensures LowBound(adj, Advance(s))
  {
    AdvanceShape(adj, s);
    var t := Advance(s);
    forall k, i, j | Owns(t, k, i)
                     && 0 <= j < t.done[t.stack[i]] && Nth(adj, t.stack[i], j) in t.stack
      ensures t.low[t.call[k].node] <= t.index[Nth(adj, t.stack[i], j)]
    {
      AdvanceLowBoundAt(adj, s, k, i, j);
    }
  }

  /** The entry read leads to a node already seen. */
  lemma AdvanceSeen(adj: Adjacency, s: State)
    requires Inv(adj, s) && HasNext(adj, s) && NextSucc(adj, s) in s.index
    requires NextSucc(adj, s) in s.stack ==> s.low[Top(s)] <= s.index[NextSucc(adj, s)]
    ensures Inv(adj, Advance(s))
  {
    AdvanceShape(adj, s);
    AdvanceReach(adj, s);
    AdvanceLowBound(adj, s);
    AdvanceExplored(adj, s, NextSucc(adj, s));
  }

  /** Read entries lead to indexed nodes, the one just read possibly excepted. */
  ghost predicate ExploredBut(adj: Adjacency, s: State, w: NodeId)
    requires Shape(s)
  {
    && Bounded(adj, s)
    && (forall x, i {:trigger Nth(adj, x, i)} :: x in s.index && 0 <= i < s.done[x] ==>
        Nth(adj, x, i) in s.index || Nth(adj, x, i) == w)
    && (forall k :: 0 <= k < |s.call| ==> s.done[s.call[k].node] == s.call[k].ei)
    && (forall k, i {:trigger Owns(s, k, i)} :: Owns(s, k, i) && i != s.at[k] ==>
        s.done[s.stack[i]] == |Succ(adj, s.stack[i])|)
  }

  lemma AdvanceFrames(adj: Adjacency, s: State, k: nat)
    requires Shape(s) && Explored(adj, s) && HasNext(adj, s) && k < |s.call|
    ensures Advance(s).done[Advance(s).call[k].node] == Advance(s).call[k].ei
  {
    StackOrder(s, s.at[k], s.at[|s.at| - 1]);
  }

  lemma AdvanceOwned(adj: Adjacency, s: State, k: int, i: int)
    requires Shape(s) && Explored(adj, s) && HasNext(adj, s) && Owns(s, k, i) && i != s.at[k]
    ensures Advance(s).done[s.stack[i]] == |Succ(adj, s.stack[i])|
  {
    StackOrder(s, i, s.at[|s.at| - 1]);
  }

  lemma AdvanceRead(adj: Adjacency, s: State, x: NodeId, i: nat)
    requires Shape(s) && Explored(adj, s) && HasNext(adj, s) && x in s.index && i < Advance(s).done[x] <= |Succ(adj, x)|
    ensures Nth(adj, x, i) in s.index || Nth(adj, x, i) == NextSucc(adj, s)
  {
    assert s.done[Top(s)] == s.call[|s.call| - 1].ei;
  }

  lemma AdvanceExplored(adj: Adjacency, s: State, w: NodeId)
    requires Shape(s) && Explored(adj, s) && HasNext(adj, s) && w == NextSucc(adj, s) && Shape(Advance(s))
    ensures ExploredBut(adj, Advance(s), w)
  {
    AdvanceShape(adj, s);
    hide Shape, Explored;
    var t := Advance(s);
    forall x, i: nat | x in t.index && x in t.done && i < t.done[x]
      ensures Nth(adj, x, i) in t.index || Nth(adj, x, i) == w
    {
      AdvanceRead(adj, s, x, i);
    }
    forall k | 0 <= k < |t.call|
      ensures t.call[k].node in t.done && t.done[t.call[k].node] == t.call[k].ei
    {
      AdvanceCallKnown(adj, s, k);
      AdvanceFrames(adj, s, k);
    }
    forall k, i | Owns(t, k, i) && i != t.at[k]
      ensures t.stack[i] in t.done && t.done[t.stack[i]] == |Succ(adj, t.stack[i])|
    {
      AdvanceStackKnown(s, i);
      AdvanceOwned(adj, s, k, i);
    }
  }

  lemma AdvanceCallKnown(adj: Adjacency, s: State, k: nat)
    requires Shape(s) && Explored(adj, s) && HasNext(adj, s) && k < |s.call|
    ensures Advance(s).call[k].node in Advance(s).done
  {
  }

  lemma AdvanceStackKnown(s: State, i: nat)
    requires Shape(s) && s.call != [] && i < |s.stack|
    ensures s.stack[i] in Advance(s).done
  {
  }

  // ---------- pushing a node ----------

  lemma PushShape(s: State, v: NodeId)
    requires Shape(s) && v !in s.index
    ensures Shape(Push(s, v))
  {
  }

  lemma PushExplored(adj: Adjacency, s: State, v: NodeId)
    requires Shape(s) && v !in s.index && ExploredBut(adj, s, v)
    requires Shape(Push(s, v))
    ensures Explored(adj, Push(s, v))
  {
    var t := Push(s, v);
    NamesKnown(s);
    NamesKnown(t);
    forall k, i | Owns(t, k, i) && i != t.at[k] ensures Owns(s, k, i) && s.stack[i] != v && t.stack[i] == s.stack[i] {
      PushOwns(s, v, k, i);
    }
    hide Shape;
    forall k | 0 <= k < |t.call|
      ensures t.done[t.call[k].node] == t.call[k].ei
    {
      assert k < |s.call| ==> t.call[k] == s.call[k] && s.call[k].node != v;
    }
  }

  lemma PushLowSound(adj: Adjacency, s: State, v: NodeId)
    requires Shape(s) && v !in s.index && LowSound(adj, s) && Shape(Push(s, v))
    ensures LowSound(adj, Push(s, v))
  {
    var t := Push(s, v);
    forall k | 0 <= k < |t.at|
      ensures HasWitness(adj, t, k)
    {
      if k < |s.at| {
        assert HasWitness(adj, s, k);
        var w :| LowWitness(adj, s, k, w);
        assert LowWitness(adj, t, k, w);
      } else {
        assert LowWitness(adj, t, k, |s.stack|);
      }
    }
  }

  ghost predicate LowsBelowNext(s: State)
    requires Shape(s)
  {
    forall k :: 0 <= k < |s.at| ==> s.low[s.call[k].node] < s.next
  }

  lemma LowsAreIndexes(adj: Adjacency, s: State)
    requires Shape(s) && LowSound(adj, s)
    ensures LowsBelowNext(s)
  {
    forall k | 0 <= k < |s.at|
      ensures s.low[s.call[k].node] < s.next
    {
      assert HasWitness(adj, s, k);
      var m :| LowWitness(adj, s, k, m);
    }
  }

  lemma PushOwns(s: State, v: NodeId, k: int, i: int)
    requires Shape(s) && Owns(Push(s, v), k, i)
    ensures if i < |s.stack| then Owns(s, k, i) else k == |s.at|
  {
  }

  /** Every node on either stack has all its marks. */
  lemma NamesKnown(s: State)
    requires Shape(s)
    ensures |s.at| == |s.call| && s.low.Keys == s.index.Keys && s.done.Keys == s.index.Keys
    ensures forall i :: 0 <= i < |s.stack| ==> s.stack[i] in s.index
    ensures forall k :: 0 <= k < |s.call| ==> s.call[k].node in s.index
  {
  }

  lemma PushLowBoundAt(adj: Adjacency, s: State, v: NodeId, k: int, i: int, j: int)
    requires Shape(s) && Bounded(adj, s) && v !in s.index && LowsBelowNext(s) && LowBound(adj, s)
    requires Owns(s, k, i) && 0 <= j < s.done[s.stack[i]] &&
        (Nth(adj, s.stack[i], j) in s.stack || Nth(adj, s.stack[i], j) == v)
    ensures s.low[s.call[k].node] <= s.index[v := s.next][Nth(adj, s.stack[i], j)]
  {
  }

  lemma PushLowBound(adj: Adjacency, s: State, v: NodeId)
    requires Shape(s) && Bounded(adj, s) && v !in s.index && LowsBelowNext(s) && LowBound(adj, s)
    requires Shape(Push(s, v)) && Bounded(adj, Push(s, v))
    ensures LowBound(adj, Push(s, v))
  {
    var t := Push(s, v);
    NamesKnown(s);
    NamesKnown(t);
    hide Shape, LowsBelowNext;
    forall k, i, j | Owns(t, k, i)
                     && 0 <= j < t.done[t.stack[i]] && Nth(adj, t.stack[i], j) in t.stack
      ensures t.low[t.call[k].node] <= t.index[Nth(adj, t.stack[i], j)]
    {
      PushOwns(s, v, k, i);
      if i < |s.stack| {
        PushLowBoundAt(adj, s, v, k, i, j);
      }
    }
  }

  lemma PushReach(adj: Adjacency, s: State, v: NodeId)
    requires Shape(s) && v !in s.index && Down(adj, s) && Up(adj, s) && Shape(Push(s, v))
    requires s.call != [] ==> Edge(Top(s), v) in Arrows(adj)
    ensures Down(adj, Push(s, v)) && Up(adj, Push(s, v))
  {
    var t := Push(s, v);
    forall k, i | 0 <= k < |t.at| && t.at[k] <= i < |t.stack|
      ensures Reach(Arrows(adj), t.call[k].node, t.stack[i])
    {
      if k == |s.at| {
      } else if i == |s.stack| {
        var top := |s.at| - 1;
        assert Reach(Arrows(adj), s.call[k].node, s.stack[s.at[top]]);
        ReachEdge(Arrows(adj), Top(s), v);
        ReachTrans(Arrows(adj), s.call[k].node, Top(s), v);
      }
    }
    forall k, i | Owns(t, k, i)
      ensures Reach(Arrows(adj), t.stack[i], t.call[k].node)
    {
      if k == |s.at| {
      } else {
        assert Owns(s, k, i);
      }
    }
  }

  lemma PushCover(s: State, v: NodeId)
    requires Cover(s) && v !in s.index
    ensures Cover(Push(s, v))
  {
    ElemsAppend(s.stack, [v]);
  }

  lemma PushInv(adj: Adjacency, s: State, v: NodeId)
    requires Shape(s) && ExploredBut(adj, s, v) && LowSound(adj, s) && LowBound(adj, s)
    requires Down(adj, s) && Up(adj, s) && Emitted(adj, s.sccs) && Cover(s)
    requires v !in s.index && (s.call != [] ==> Edge(Top(s), v) in Arrows(adj))
    ensures Inv(adj, Push(s, v))
  {
    PushShape(s, v);
    PushExplored(adj, s, v);
    PushLowSound(adj, s, v);
    LowsAreIndexes(adj, s);
    PushLowBound(adj, s, v);
    PushReach(adj, s, v);
    PushCover(s, v);
  }

  /** The entry read leads to a new node, which is entered. */
  lemma PushChild(adj: Adjacency, s: State)
    requires Inv(adj, s) && HasNext(adj, s) && NextSucc(adj, s) !in s.index
    ensures Inv(adj, Push(Advance(s), NextSucc(adj, s)))
  {
    var w := NextSucc(adj, s);
    AdvanceShape(adj, s);
    AdvanceReach(adj, s);
    AdvanceLowBound(adj, s);
    AdvanceExplored(adj, s, w);
    assert Edge(Top(s), w) in Arrows(adj);
    PushInv(adj, Advance(s), w);
  }

  // ---------- leaving a node that is not a root ----------

  ghost predicate Finished(adj: Adjacency, s: State) {
    s.call != [] && s.call[|s.call| - 1].ei >= |Succ(adj, Top(s))|
  }

  lemma DropShape(s: State)
    requires Shape(s) && |s.call| >= 2
    ensures Shape(Drop(s))
  {
  }

  /** The part of the stack the dropped level owned falls to its caller. */
  lemma DropOwns(s: State, k: int, i: int)
    requires Shape(s) && |s.call| >= 2 && Owns(Drop(s), k, i)
    ensures Owns(s, k, i) || (k == |s.at| - 2 && Owns(s, |s.at| - 1, i))
  {
  }

  lemma DropExplored(adj: Adjacency, s: State)
    requires Shape(s) && Explored(adj, s) && Finished(adj, s) && |s.call| >= 2 && Shape(Drop(s))
    ensures Explored(adj, Drop(s))
  {
    var t := Drop(s);
    var top := |s.at| - 1;
    forall k, i | Owns(t, k, i) && i != t.at[k]
      ensures t.done[t.stack[i]] == |Succ(adj, t.stack[i])|
    {
      DropOwns(s, k, i);
    }
  }

  lemma DropLow(adj: Adjacency, s: State)
    requires Shape(s) && Bounded(adj, s) && LowSound(adj, s) && LowBound(adj, s)
    requires |s.call| >= 2 && Shape(Drop(s))
    requires s.low[s.call[|s.call| - 2].node] <= s.low[Top(s)]
    ensures LowSound(adj, Drop(s)) && LowBound(adj, Drop(s))
  {
    var t := Drop(s);
    forall k | 0 <= k < |t.at|
      ensures HasWitness(adj, t, k)
    {
      assert HasWitness(adj, s, k);
      var w :| LowWitness(adj, s, k, w);
      assert LowWitness(adj, t, k, w);
    }
    forall k, i, j | Owns(t, k, i)
                     && 0 <= j < t.done[t.stack[i]] && Nth(adj, t.stack[i], j) in t.stack
      ensures t.low[t.call[k].node] <= t.index[Nth(adj, t.stack[i], j)]
    {
      DropOwns(s, k, i);
    }
  }

  /** A node whose lowlink is below its index reaches its caller's level. */
  lemma ReachesCaller(adj: Adjacency, s: State, i: nat)
    requires Shape(s) && LowSound(adj, s) && Down(adj, s) && Up(adj, s)
    requires |s.call| >= 2 && s.low[Top(s)] < s.index[Top(s)]
    requires s.at[|s.at| - 1] <= i < |s.stack|
    ensures Reach(Arrows(adj), s.stack[i], s.call[|s.call| - 2].node)
  {
    var r, top := Arrows(adj), |s.at| - 1;
    var p := s.call[top - 1].node;
    assert HasWitness(adj, s, top);
    var m: nat :| LowWitness(adj, s, top, m);
    StackOrder(s, m, s.at[top]);
    var q := Owner(s, m, top);
    var g := s.call[q].node;
    assert Owns(s, top, i);
    ReachTrans(r, s.stack[i], Top(s), s.stack[m]);
    ReachTrans(r, s.stack[i], s.stack[m], g);
    assert s.at[q] <= s.at[top - 1];
    assert Reach(r, g, s.stack[s.at[top - 1]]);
    ReachTrans(r, s.stack[i], g, p);
  }

  lemma DropReach(adj: Adjacency, s: State)
    requires Shape(s) && LowSound(adj, s) && Down(adj, s) && Up(adj, s)
    requires |s.call| >= 2 && Shape(Drop(s)) && s.low[Top(s)] < s.index[Top(s)]
    ensures Down(adj, Drop(s)) && Up(adj, Drop(s))
  {
    var t := Drop(s);
    forall k, i | Owns(t, k, i)
      ensures Reach(Arrows(adj), t.stack[i], t.call[k].node)
    {
      DropOwns(s, k, i);
      if !Owns(s, k, i) {
        ReachesCaller(adj, s, i);
      }
    }
  }

  lemma Retire(adj: Adjacency, s: State)
    requires Inv(adj, s) && Finished(adj, s) && |s.call| >= 2 && s.low[Top(s)] < s.index[Top(s)]
    requires s.low[s.call[|s.call| - 2].node] <= s.low[Top(s)]
    ensures Inv(adj, Drop(s))
  {
    DropShape(s);
    DropExplored(adj, s);
    DropLow(adj, s);
    DropReach(adj, s);
  }

  /** The bottom call node is always a root. */
  lemma BottomIsRoot(adj: Adjacency, s: State)
    requires Inv(adj, s) && |s.call| == 1
    ensures s.low[Top(s)] == s.index[Top(s)]
  {
    assert HasWitness(adj, s, 0);
    var i :| LowWitness(adj, s, 0, i);
  }

  lemma LowAtMostIndex(adj: Adjacency, s: State, k: nat)
    requires Inv(adj, s) && k < |s.at|
    ensures s.low[s.call[k].node] <= s.index[s.call[k].node]
  {
    assert HasWitness(adj, s, k);
    var i :| LowWitness(adj, s, k, i);
    StackOrder(s, i, s.at[k]);
  }

  // ---------- leaving a root: its component is emitted ----------

  ghost predicate IsComponent(s: State, c: seq<NodeId>)
    requires Shape(s) && s.call != []
  {
    NoDup(c) && Elems(c) == Elems(s.stack[s.at[|s.at| - 1]..])
  }

  lemma EmitLinked(adj: Adjacency, s: State, c: seq<NodeId>)
    requires Shape(s) && Down(adj, s) && Up(adj, s) && s.call != [] && IsComponent(s, c)
    ensures c != [] && StronglyLinked(adj, c)
  {
    var top := |s.at| - 1;
    var r, v := Arrows(adj), Top(s);
    assert v in s.stack[s.at[top]..];
    assert v in Elems(c);
    forall x, y | x in c && y in c
      ensures Reach(r, x, y)
    {
      assert x in Elems(c) && y in Elems(c);
      var i :| s.at[top] <= i < |s.stack| && s.stack[i] == x;
      var j :| s.at[top] <= j < |s.stack| && s.stack[j] == y;
      assert Owns(s, top, i);
      ReachTrans(r, x, v, y);
    }
  }

  /** An edge from the root's part of the stack stays in it or leads to an emitted node. */
  lemma EdgeFromTop(adj: Adjacency, s: State, i: nat, j: nat)
    requires Shape(s) && Explored(adj, s) && LowBound(adj, s) && Finished(adj, s)
    requires s.low[Top(s)] == s.index[Top(s)]
    requires s.at[|s.at| - 1] <= i < |s.stack| && j < |Succ(adj, s.stack[i])|
    ensures Nth(adj, s.stack[i], j) in s.index
    ensures Nth(adj, s.stack[i], j) in s.stack ==> Nth(adj, s.stack[i], j) in s.stack[s.at[|s.at| - 1]..]
  {
    var top, y := |s.at| - 1, Nth(adj, s.stack[i], j);
    FullyRead(adj, s, i);
    if y in s.stack {
      var m :| 0 <= m < |s.stack| && s.stack[m] == y;
      assert Owns(s, top, i);
      StackOrder(s, s.at[top], m);
      assert s.stack[s.at[top]..][m - s.at[top]] == y;
    }
  }

  lemma EmitSucc(adj: Adjacency, s: State, c: seq<NodeId>, x: NodeId, y: NodeId)
    requires Shape(s) && Explored(adj, s) && LowBound(adj, s) && Cover(s)
    requires Finished(adj, s) && IsComponent(s, c) && s.low[Top(s)] == s.index[Top(s)]
    requires x in c && y in Succ(adj, x)
    ensures y in Nodes(s.sccs) + Elems(c)
  {
    var from := s.at[|s.at| - 1];
    assert x in Elems(c);
    var i: nat :| from <= i < |s.stack| && s.stack[i] == x;
    var j: nat :| j < |Succ(adj, x)| && Succ(adj, x)[j] == y;
    EdgeFromTop(adj, s, i, j);
    hide Shape, Explored, LowBound, Nodes, Succ;
    assert y in s.index.Keys;
    if y in s.stack {
      assert y in Elems(s.stack[from..]);
    }
  }

  lemma EmitSuccIn(adj: Adjacency, s: State, c: seq<NodeId>)
    requires Shape(s) && Explored(adj, s) && LowBound(adj, s) && Cover(s)
    requires Finished(adj, s) && IsComponent(s, c) && s.low[Top(s)] == s.index[Top(s)]
    ensures SuccIn(adj, c, Nodes(s.sccs) + Elems(c))
  {
    hide Shape, Explored, LowBound, Cover, Finished, IsComponent, Nodes, Elems, Succ;
    forall x, y | x in c && y in Succ(adj, x)
      ensures y in Nodes(s.sccs) + Elems(c)
    {
      EmitSucc(adj, s, c, x, y);
    }
  }

  lemma FullyRead(adj: Adjacency, s: State, i: nat)
    requires Shape(s) && Explored(adj, s) && Finished(adj, s) && s.at[|s.at| - 1] <= i < |s.stack|
    ensures s.done[s.stack[i]] == |Succ(adj, s.stack[i])|
  {
    assert Owns(s, |s.at| - 1, i);
  }

  lemma EmitShape(s: State, c: seq<NodeId>)
    requires Shape(s) && s.call != []
    ensures Shape(Emit(s, c))
  {
    var t := Emit(s, c);
    assert |t.at| > 0 ==> t.at[0] == s.at[0];
    forall k | 0 <= k < |t.at|
      ensures t.at[k] < |t.stack| && t.call[k].node == t.stack[t.at[k]]
    {
      assert s.at[k] < s.at[|s.at| - 1];
    }
  }

  lemma EmitExplored(adj: Adjacency, s: State, c: seq<NodeId>)
    requires Shape(s) && Explored(adj, s) && s.call != [] && Shape(Emit(s, c))
    ensures Explored(adj, Emit(s, c))
  {
    var t := Emit(s, c);
    NamesKnown(t);
    assert t.index == s.index && t.done == s.done;
    assert forall k :: 0 <= k < |t.call| ==> t.call[k] == s.call[k];
    hide Shape;
    forall k, i | Owns(t, k, i) && i != t.at[k]
      ensures t.done[t.stack[i]] == |Succ(adj, t.stack[i])|
    {
      assert Owns(s, k, i);
    }
  }

  lemma EmitLowSound(adj: Adjacency, s: State, c: seq<NodeId>)
    requires Shape(s) && LowSound(adj, s) && s.call != [] && Shape(Emit(s, c))
    ensures LowSound(adj, Emit(s, c))
  {
    var t := Emit(s, c);
    forall k | 0 <= k < |t.at|
      ensures HasWitness(adj, t, k)
    {
      assert HasWitness(adj, s, k);
      var w :| LowWitness(adj, s, k, w);
      assert LowWitness(adj, t, k, w);
    }
  }

  lemma EmitOwns(s: State, c: seq<NodeId>, k: int, i: int)
    requires Shape(s) && s.call != [] && Owns(Emit(s, c), k, i)
    ensures Owns(s, k, i) && Emit(s, c).stack[i] == s.stack[i] && Emit(s, c).call[k] == s.call[k]
    ensures forall w :: w in Emit(s, c).stack ==> w in s.stack
  {
  }

  lemma EmitLowBound(adj: Adjacency, s: State, c: seq<NodeId>)
    requires Shape(s) && Bounded(adj, s) && LowBound(adj, s)
    requires s.call != [] && Shape(Emit(s, c)) && Bounded(adj, Emit(s, c))
    ensures LowBound(adj, Emit(s, c))
  {
    var t := Emit(s, c);
    forall k, i, j | Owns(t, k, i)
                     && 0 <= j < t.done[t.stack[i]] && Nth(adj, t.stack[i], j) in t.stack
      ensures t.low[t.call[k].node] <= t.index[Nth(adj, t.stack[i], j)]
    {
      EmitOwns(s, c, k, i);
      assert s.low[s.call[k].node] <= s.index[Nth(adj, s.stack[i], j)];
    }
  }

  lemma EmitReach(adj: Adjacency, s: State, c: seq<NodeId>)
    requires Shape(s) && Down(adj, s) && Up(adj, s) && s.call != [] && Shape(Emit(s, c))
    ensures Down(adj, Emit(s, c)) && Up(adj, Emit(s, c))
  {
    var t := Emit(s, c);
    forall k, i | Owns(t, k, i)
      ensures Reach(Arrows(adj), t.stack[i], t.call[k].node)
    {
      assert Owns(s, k, i);
    }
  }

  lemma StackSplit(s: State, p: nat)
    requires Shape(s) && p <= |s.stack|
    ensures Elems(s.stack) == Elems(s.stack[..p]) + Elems(s.stack[p..])
    ensures Elems(s.stack[..p]) !! Elems(s.stack[p..])
  {
    ElemsAppend(s.stack[..p], s.stack[p..]);
    assert s.stack == s.stack[..p] + s.stack[p..];
    assert forall i, j :: 0 <= i < p <= j < |s.stack| ==> s.stack[i] != s.stack[j];
  }

  lemma EmitCover(s: State, c: seq<NodeId>)
    requires Shape(s) && Cover(s) && s.call != [] && IsComponent(s, c)
    ensures Cover(Emit(s, c)) && Elems(c) !! Nodes(s.sccs)
  {
    StackSplit(s, s.at[|s.at| - 1]);
    NodesAppend(s.sccs, c);
  }

  lemma EmitInv(adj: Adjacency, s: State, c: seq<NodeId>)
    requires Inv(adj, s) && Finished(adj, s) && IsComponent(s, c)
    requires s.low[Top(s)] == s.index[Top(s)]
    ensures Inv(adj, Emit(s, c))
  {
    EmitShape(s, c);
    EmitExplored(adj, s, c);
    EmitLowSound(adj, s, c);
    EmitLowBound(adj, s, c);
    EmitReach(adj, s, c);
    EmitCover(s, c);
    EmitLinked(adj, s, c);
    EmitSuccIn(adj, s, c);
    NodesAppend(s.sccs, c);
    assert (s.sccs + [c])[..|s.sccs|] == s.sccs;
  }
}
