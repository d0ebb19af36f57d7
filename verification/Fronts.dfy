/**
 The walk of the blast radius as a function of the edge store: the frontier of each hop, with every
 repetition the walk really has, what has been seen by then, and which nodes the hub gate flags.
 */
module Fronts {
  import opened Basics
  import opened Graph

  datatype Direction = Unset | Callers | Callees | Both

  /** The edge store as one direction of it is walked. A node it does not know has no neighbours. */
  datatype Net = Net(inbound: Adjacency, outbound: Adjacency, dir: Direction)

  ghost function Neighbours(g: Net, id: NodeId): seq<NodeId> {
    (if g.dir == Callers || g.dir == Both then Succ(g.inbound, id) else [])
    + (if g.dir == Callees || g.dir == Both then Succ(g.outbound, id) else [])
  }

  // ---------- distance ----------

  /** A positive hub threshold stops the walk from going through nodes of larger degree. */
  ghost predicate Open(g: Net, hub: int, id: NodeId) {
    hub <= 0 || |Neighbours(g, id)| <= hub
  }

  ghost function Step(g: Net, hub: int, s: set<NodeId>): set<NodeId> {
    set m, n | m in s && n in Neighbours(g, m) && Open(g, hub, m) :: n
  }

  /** The nodes within k hops of the seeds. */
  ghost function Ball(g: Net, hub: int, seeds: set<NodeId>, k: nat): set<NodeId> {
    if k == 0 then seeds else Ball(g, hub, seeds, k - 1) + Step(g, hub, Ball(g, hub, seeds, k - 1))
  }

  ghost function Near(g: Net, seeds: set<NodeId>, k: nat): set<NodeId> {
    Ball(g, 0, seeds, k)
  }

  /** d is the length of a shortest path from a seed to n. */
  ghost predicate IsDistance(g: Net, seeds: set<NodeId>, n: NodeId, d: nat) {
    n in Near(g, seeds, d) && (d > 0 ==> n !in Near(g, seeds, d - 1))
  }

  lemma {:induction false} BallGrows(g: Net, hub: int, seeds: set<NodeId>, k: nat, m: nat)
    requires k <= m
    ensures Ball(g, hub, seeds, k) <= Ball(g, hub, seeds, m)
    decreases m - k
  {
    if k < m {
      BallGrows(g, hub, seeds, k, m - 1);
    }
  }

  lemma NearGrows(g: Net, seeds: set<NodeId>, k: nat, m: nat)
    requires k <= m
    ensures Near(g, seeds, k) <= Near(g, seeds, m)
  {
    BallGrows(g, 0, seeds, k, m);
    hide Ball;
  }

  lemma StepMember(g: Net, hub: int, s: set<NodeId>, m: NodeId, n: NodeId)
    requires m in s && n in Neighbours(g, m) && Open(g, hub, m)
    ensures n in Step(g, hub, s)
  {
  }

  lemma {:induction false} GatedWithin(g: Net, hub: int, seeds: set<NodeId>, k: nat)
    ensures Ball(g, hub, seeds, k) <= Near(g, seeds, k)
  {
    if k > 0 {
      GatedWithin(g, hub, seeds, k - 1);
      forall n | n in Step(g, hub, Ball(g, hub, seeds, k - 1)) ensures n in Near(g, seeds, k) {
        var m :| m in Ball(g, hub, seeds, k - 1) && n in Neighbours(g, m) && Open(g, hub, m);
        StepMember(g, 0, Near(g, seeds, k - 1), m, n);
      }
    }
  }

  /** The nodes at distance exactly k. */
  ghost function Ring(g: Net, seeds: set<NodeId>, k: nat): set<NodeId> {
    if k == 0 then seeds else Near(g, seeds, k) - Near(g, seeds, k - 1)
  }

  /** Going one hop further only needs the last ring, or anything between it and the whole ball. */
  lemma RingSuffices(g: Net, seeds: set<NodeId>, k: nat, f: set<NodeId>)
    requires Ring(g, seeds, k) <= f <= Near(g, seeds, k)
    ensures Near(g, seeds, k + 1) == Near(g, seeds, k) + Step(g, 0, f)
  {
    var b := Near(g, seeds, k);
    forall n | n in Step(g, 0, b) ensures n in b + Step(g, 0, f) {
      var m :| m in b && n in Neighbours(g, m) && Open(g, 0, m);
      if m !in f {
        StepMember(g, 0, Near(g, seeds, k - 1), m, n);
      } else {
        StepMember(g, 0, f, m, n);
      }
    }
    forall n | n in Step(g, 0, f) ensures n in Step(g, 0, b) {
      var m :| m in f && n in Neighbours(g, m) && Open(g, 0, m);
      StepMember(g, 0, b, m, n);
    }
  }

  lemma {:induction false} ListSize(s: seq<NodeId>)
    requires NoDup(s)
    ensures |Elems(s)| == |s|
  {
    if s != [] {
      var n := |s| - 1;
      ListSize(s[..n]);
      assert s == s[..n] + [s[n]];
      ElemsAppend(s[..n], [s[n]]);
      assert s[n] !in s[..n] && Elems([s[n]]) == {s[n]};
    }
  }

  ghost function Links(g: Net): Relation {
    iset e: Edge | e.dst in Neighbours(g, e.src)
  }

  /** p leads from a seed to n in at most k steps. */
  ghost predicate ShortWalk(g: Net, seeds: set<NodeId>, k: nat, s: NodeId, p: seq<NodeId>, n: NodeId) {
    s in seeds && |p| <= k && Graph.Walk(Links(g), s, p, n)
  }

  lemma {:induction false} WalkStaysNear(g: Net, seeds: set<NodeId>, k: nat, x: NodeId, p: seq<NodeId>, n: NodeId)
    requires x in Near(g, seeds, k) && Graph.Walk(Links(g), x, p, n)
    ensures n in Near(g, seeds, k + |p|)
    decreases |p|
  {
    if p != [] {
      assert Edge(x, p[0]) in Links(g);
      StepMember(g, 0, Near(g, seeds, k), x, p[0]);
      WalkStaysNear(g, seeds, k + 1, p[0], p[1..], n);
    }
  }

  /** A node new at k hops is the neighbour of one within k - 1. */
  lemma LastHop(g: Net, seeds: set<NodeId>, k: nat, n: NodeId) returns (m: NodeId)
    requires k > 0 && n in Near(g, seeds, k) && n !in Near(g, seeds, k - 1)
    ensures m in Near(g, seeds, k - 1) && Edge(m, n) in Links(g)
  {
    m :| m in Near(g, seeds, k - 1) && n in Neighbours(g, m) && Open(g, 0, m);
  }

  ghost predicate HasShortWalk(g: Net, seeds: set<NodeId>, k: nat, n: NodeId) {
    exists s, p :: ShortWalk(g, seeds, k, s, p, n)
  }

  lemma {:induction false} NearHasWalk(g: Net, seeds: set<NodeId>, k: nat, n: NodeId)
    requires n in Near(g, seeds, k)
    ensures HasShortWalk(g, seeds, k, n)
  {
    if k == 0 {
      assert ShortWalk(g, seeds, k, n, [], n);
    } else {
      hide Near, Links;
      if n in Near(g, seeds, k - 1) {
        NearHasWalk(g, seeds, k - 1, n);
        var s, p :| ShortWalk(g, seeds, k - 1, s, p, n);
        assert ShortWalk(g, seeds, k, s, p, n);
      } else {
        var m := LastHop(g, seeds, k, n);
        NearHasWalk(g, seeds, k - 1, m);
        var s, p :| ShortWalk(g, seeds, k - 1, s, p, m);
        WalkStep(Links(g), s, p, m, n);
        assert ShortWalk(g, seeds, k, s, p + [n], n);
      }
    }
  }

  /** Being within k hops is having a walk of at most k steps from a seed. */
  lemma NearIsShortWalk(g: Net, seeds: set<NodeId>, k: nat, n: NodeId)
    ensures n in Near(g, seeds, k) <==> HasShortWalk(g, seeds, k, n)
  {
    assert Near(g, seeds, 0) == seeds;
    hide Near, Links;
    if n in Near(g, seeds, k) {
      NearHasWalk(g, seeds, k, n);
    }
    if HasShortWalk(g, seeds, k, n) {
      var s, p :| ShortWalk(g, seeds, k, s, p, n);
      WalkStaysNear(g, seeds, 0, s, p, n);
      NearGrows(g, seeds, |p|, k);
    }
  }

  // ---------- frontiers ----------

  ghost function Count(f: seq<NodeId>, id: NodeId): nat {
    if f == [] then 0 else Count(f[..|f| - 1], id) + if f[|f| - 1] == id then 1 else 0
  }

  lemma CountStep(f: seq<NodeId>, x: NodeId, id: NodeId)
    ensures Count(f + [x], id) == Count(f, id) + if x == id then 1 else 0
  {
    assert (f + [x])[..|f|] == f;
  }

  lemma {:induction false} CountMember(f: seq<NodeId>, id: NodeId)
    requires id in f
    ensures Count(f, id) > 0
  {
    if f[|f| - 1] != id {
      CountMember(f[..|f| - 1], id);
    }
  }

  ghost function Times(s: seq<NodeId>, c: nat): seq<NodeId> {
    if c == 0 then [] else Times(s, c - 1) + s
  }

  lemma {:induction false} TimesFacts(s: seq<NodeId>, c: nat)
    ensures |Times(s, c)| == c * |s| && (c > 0 ==> Elems(Times(s, c)) == Elems(s))
  {
    if c > 0 {
      TimesFacts(s, c - 1);
      ElemsAppend(Times(s, c - 1), s);
      assert c * |s| == (c - 1) * |s| + |s|;
    }
  }

  lemma {:induction false} CountAppend(a: seq<NodeId>, b: seq<NodeId>, id: NodeId)
    ensures Count(a + b, id) == Count(a, id) + Count(b, id)
  {
    if b == [] {
      assert a + b == a;
    } else {
      var n := |b| - 1;
      assert (a + b)[..|a + b| - 1] == a + b[..n];
      CountAppend(a, b[..n], id);
    }
  }

  lemma {:induction false} CountTimes(s: seq<NodeId>, c: nat, id: NodeId)
    ensures Count(Times(s, c), id) == c * Count(s, id)
  {
    if c > 0 {
      CountTimes(s, c - 1, id);
      CountAppend(Times(s, c - 1), s, id);
      assert c * Count(s, id) == (c - 1) * Count(s, id) + Count(s, id);
    }
  }

  lemma {:induction false} CountPositive(f: seq<NodeId>, id: NodeId)
    ensures Count(f, id) > 0 <==> id in f
  {
    if f != [] {
      var n := |f| - 1;
      CountPositive(f[..n], id);
      assert f == f[..n] + [f[n]];
    }
  }

  ghost function Inward(g: Net, id: NodeId): seq<NodeId> {
    if g.dir == Callers || g.dir == Both then Succ(g.inbound, id) else []
  }

  ghost function Outward(g: Net, id: NodeId): seq<NodeId> {
    if g.dir == Callees || g.dir == Both then Succ(g.outbound, id) else []
  }

  /** What is fetched for a frontier node: each direction's list, repeated once per occurrence of the node. */
  ghost function FetchedList(g: Net, f: seq<NodeId>, id: NodeId): seq<NodeId> {
    Times(Inward(g, id), Count(f, id)) + Times(Outward(g, id), Count(f, id))
  }

  lemma FetchedFacts(g: Net, f: seq<NodeId>, id: NodeId)
    ensures |FetchedList(g, f, id)| == Count(f, id) * |Neighbours(g, id)|
    ensures id in f ==> Elems(FetchedList(g, f, id)) == Elems(Neighbours(g, id))
    ensures forall n :: Count(FetchedList(g, f, id), n) == Count(f, id) * Count(Neighbours(g, id), n)
  {
    var a, b, c := Inward(g, id), Outward(g, id), Count(f, id);
    assert Neighbours(g, id) == a + b;
    CountPositive(f, id);
    TimesFacts(a, c);
    TimesFacts(b, c);
    ElemsAppend(Times(a, c), Times(b, c));
    ElemsAppend(a, b);
    assert c * |a| + c * |b| == c * (|a| + |b|);
    forall n ensures Count(FetchedList(g, f, id), n) == c * Count(Neighbours(g, id), n) {
      CountAppend(Times(a, c), Times(b, c), n);
      CountAppend(a, b, n);
      CountTimes(a, c, n);
      CountTimes(b, c, n);
      assert c * Count(a, n) + c * Count(b, n) == c * (Count(a, n) + Count(b, n));
    }
  }

  /** The gate compares the fetched list, repetitions and all, with the threshold. */
  ghost predicate Flagged(g: Net, hub: int, f: seq<NodeId>, id: NodeId) {
    hub > 0 && Count(f, id) * |Neighbours(g, id)| > hub
  }

  /** What the first i frontier nodes add to the next frontier. */
  ghost function Expand(g: Net, hub: int, f: seq<NodeId>, i: nat): seq<NodeId>
    requires i <= |f|
  {
    if i == 0 then [] else Expand(g, hub, f, i - 1) + Adds(g, hub, f, f[i - 1])
  }

  ghost function Adds(g: Net, hub: int, f: seq<NodeId>, id: NodeId): seq<NodeId> {
    if Flagged(g, hub, f, id) then [] else FetchedList(g, f, id)
  }

  lemma ExpandNext(g: Net, hub: int, f: seq<NodeId>, i: nat)
    requires 0 < i <= |f|
    ensures Expand(g, hub, f, i) == Expand(g, hub, f, i - 1) + Adds(g, hub, f, f[i - 1])
    ensures Elems(Expand(g, hub, f, i)) == Elems(Expand(g, hub, f, i - 1)) + Elems(Adds(g, hub, f, f[i - 1]))
  {
    hide Adds;
    ElemsAppend(Expand(g, hub, f, i - 1), Adds(g, hub, f, f[i - 1]));
  }

  ghost function FlagsIn(g: Net, hub: int, f: seq<NodeId>, i: nat): set<NodeId>
    requires i <= |f|
  {
    set j | 0 <= j < i && Flagged(g, hub, f, f[j]) :: f[j]
  }

  /** The seeds that are named, in order, each as often as given. */
  ghost function Named(seedIDs: seq<NodeId>): seq<NodeId> {
    if seedIDs == [] then []
    else Named(seedIDs[..|seedIDs| - 1]) + if seedIDs[|seedIDs| - 1] == EMPTY_ID then [] else [seedIDs[|seedIDs| - 1]]
  }

  ghost function Clean(seedIDs: seq<NodeId>): set<NodeId> {
    set id | id in seedIDs && id != EMPTY_ID
  }

  lemma {:induction false} NamedIds(seedIDs: seq<NodeId>)
    ensures Elems(Named(seedIDs)) == Clean(seedIDs)
    ensures forall n :: Count(Named(seedIDs), n) == if n == EMPTY_ID then 0 else Count(seedIDs, n)
  {
    if seedIDs != [] {
      var n := |seedIDs| - 1;
      NamedIds(seedIDs[..n]);
      assert seedIDs == seedIDs[..n] + [seedIDs[n]];
      ElemsAppend(Named(seedIDs[..n]), [seedIDs[n]]);
      assert Named(seedIDs[..n]) + [] == Named(seedIDs[..n]);
      forall x ensures Count(Named(seedIDs), x) == if x == EMPTY_ID then 0 else Count(seedIDs, x) {
        CountStep(Named(seedIDs[..n]), seedIDs[n], x);
        CountStep(seedIDs[..n], seedIDs[n], x);
      }
    }
  }

  /** The frontier of hop h. */
  ghost function Front(g: Net, hub: int, seedIDs: seq<NodeId>, h: nat): seq<NodeId> {
    if h == 0 then Named(seedIDs)
    else var f := Front(g, hub, seedIDs, h - 1); Expand(g, hub, f, |f|)
  }

  lemma FrontNext(g: Net, hub: int, seedIDs: seq<NodeId>, h: nat)
    ensures Front(g, hub, seedIDs, h) ==
        if h == 0 then Named(seedIDs)
        else var f := Front(g, hub, seedIDs, h - 1); Expand(g, hub, f, |f|)
  {
  }

  /** What the walk has met after k hops. */
  ghost function Seen(g: Net, hub: int, seedIDs: seq<NodeId>, k: nat): set<NodeId> {
    if k == 0 then Elems(Front(g, hub, seedIDs, 0)) else Seen(g, hub, seedIDs, k - 1) + Elems(Front(g, hub, seedIDs, k))
  }

  /** The nodes the gate flags in hops before k. */
  ghost function FlagsBelow(g: Net, hub: int, seedIDs: seq<NodeId>, k: nat): set<NodeId> {
    if k == 0 then {}
    else
      var f := Front(g, hub, seedIDs, k - 1);
      FlagsBelow(g, hub, seedIDs, k - 1) + FlagsIn(g, hub, f, |f|)
  }

  lemma SeenNext(g: Net, hub: int, seedIDs: seq<NodeId>, k: nat)
    ensures Seen(g, hub, seedIDs, k + 1) == Seen(g, hub, seedIDs, k) + Elems(Front(g, hub, seedIDs, k + 1))
    ensures var f := Front(g, hub, seedIDs, k);
            FlagsBelow(g, hub, seedIDs, k + 1) == FlagsBelow(g, hub, seedIDs, k) + FlagsIn(g, hub, f, |f|)
  {
    hide Front, FlagsIn;
  }

  /** The walk first meets n in hop d. */
  ghost predicate First(g: Net, hub: int, seedIDs: seq<NodeId>, n: NodeId, d: nat) {
    n in Seen(g, hub, seedIDs, d) && (d > 0 ==> n !in Seen(g, hub, seedIDs, d - 1))
  }

  lemma {:induction false} SeenGrows(g: Net, hub: int, seedIDs: seq<NodeId>, k: nat, m: nat)
    requires k <= m
    ensures Seen(g, hub, seedIDs, k) <= Seen(g, hub, seedIDs, m)
    ensures FlagsBelow(g, hub, seedIDs, k) <= FlagsBelow(g, hub, seedIDs, m)
    decreases m - k
  {
    hide Front, FlagsIn;
    if k < m {
      SeenGrows(g, hub, seedIDs, k, m - 1);
    }
  }

  lemma NothingToExpand(g: Net, hub: int)
    ensures Expand(g, hub, [], 0) == [] && FlagsIn(g, hub, [], 0) == {}
  {
  }

  /** Once a frontier is empty nothing more is met or flagged. */
  lemma {:induction false} EmptyFrontStops(g: Net, hub: int, seedIDs: seq<NodeId>, k: nat, m: nat)
    requires Front(g, hub, seedIDs, k) == [] && k <= m
    ensures Front(g, hub, seedIDs, m) == []
    ensures Seen(g, hub, seedIDs, m) == Seen(g, hub, seedIDs, k)
    ensures FlagsBelow(g, hub, seedIDs, m) == FlagsBelow(g, hub, seedIDs, k)
    decreases m - k
  {
    hide Front, Expand;
    if k < m {
      EmptyFrontStops(g, hub, seedIDs, k, m - 1);
      FrontNext(g, hub, seedIDs, m);
      NothingToExpand(g, hub);
    }
  }

  /** A node flagged before k is flagged in some hop. */
  lemma {:induction false} FlagsHop(g: Net, hub: int, seedIDs: seq<NodeId>, k: nat, n: NodeId)
    ensures n in FlagsBelow(g, hub, seedIDs, k) <==> FlaggedBefore(g, hub, seedIDs, k, n)
  {
    hide Front, FlagsIn, Flagged;
    if k > 0 {
      FlagsHop(g, hub, seedIDs, k - 1, n);
      FlagsInAll(g, hub, Front(g, hub, seedIDs, k - 1), n);
      FlaggedBeforeStep(g, hub, seedIDs, k, n);
      hide FlaggedBefore;
    }
  }

  ghost predicate FlaggedBefore(g: Net, hub: int, seedIDs: seq<NodeId>, k: nat, n: NodeId) {
    exists h: nat :: h < k && FlaggedIn(g, hub, seedIDs, h, n)
  }

  lemma FlaggedBeforeStep(g: Net, hub: int, seedIDs: seq<NodeId>, k: nat, n: NodeId)
    requires k > 0
    ensures FlaggedBefore(g, hub, seedIDs, k, n) <==>
        FlaggedBefore(g, hub, seedIDs, k - 1, n) || FlaggedIn(g, hub, seedIDs, k - 1, n)
  {
    hide FlaggedIn;
  }

  ghost predicate FlaggedIn(g: Net, hub: int, seedIDs: seq<NodeId>, h: nat, n: NodeId) {
    n in Front(g, hub, seedIDs, h) && Flagged(g, hub, Front(g, hub, seedIDs, h), n)
  }

  lemma FlagsInAll(g: Net, hub: int, f: seq<NodeId>, n: NodeId)
    ensures n in FlagsIn(g, hub, f, |f|) <==> n in f && Flagged(g, hub, f, n)
  {
    if n in f && Flagged(g, hub, f, n) {
      var j :| 0 <= j < |f| && f[j] == n;
    }
  }

  lemma {:induction false} FlagsSeen(g: Net, hub: int, seedIDs: seq<NodeId>, k: nat)
    ensures k > 0 ==> FlagsBelow(g, hub, seedIDs, k) <= Seen(g, hub, seedIDs, k - 1)
    ensures k == 0 ==> FlagsBelow(g, hub, seedIDs, k) == {}
  {
    if k > 0 {
      FlagsSeen(g, hub, seedIDs, k - 1);
      if k > 1 {
        SeenGrows(g, hub, seedIDs, k - 2, k - 1);
      }
    }
  }

  // ---------- the order in which nodes are met ----------

  /** The list with each node of ns that it lacks appended, in order. */
  ghost function AddAll(order: seq<NodeId>, ns: seq<NodeId>): seq<NodeId> {
    if ns == [] then order
    else
      var o := AddAll(order, ns[..|ns| - 1]);
      if ns[|ns| - 1] in o then o else o + [ns[|ns| - 1]]
  }

  lemma {:induction false} AddAllAppend(order: seq<NodeId>, a: seq<NodeId>, b: seq<NodeId>)
    ensures AddAll(order, a + b) == AddAll(AddAll(order, a), b)
    ensures AddAll(order, a) <= AddAll(order, a + b)
  {
    if b == [] {
      assert a + b == a;
    } else {
      var n := |b| - 1;
      AddAllAppend(order, a, b[..n]);
      assert (a + b)[..|a + b| - 1] == a + b[..n];
    }
  }

  /** All frontiers up to hop k, one after the other. */
  ghost function Trail(g: Net, hub: int, seedIDs: seq<NodeId>, k: nat): seq<NodeId> {
    if k == 0 then Front(g, hub, seedIDs, 0) else Trail(g, hub, seedIDs, k - 1) + Front(g, hub, seedIDs, k)
  }

  lemma {:induction false} TrailGrows(g: Net, hub: int, seedIDs: seq<NodeId>, k: nat, m: nat)
    requires k <= m
    ensures AddAll([], Trail(g, hub, seedIDs, k)) <= AddAll([], Trail(g, hub, seedIDs, m))
    ensures Front(g, hub, seedIDs, k) == [] ==> Trail(g, hub, seedIDs, k) == Trail(g, hub, seedIDs, m)
    decreases m - k
  {
    hide Front, AddAll;
    if k < m {
      TrailGrows(g, hub, seedIDs, k, m - 1);
      AddAllAppend([], Trail(g, hub, seedIDs, m - 1), Front(g, hub, seedIDs, m));
      if Front(g, hub, seedIDs, k) == [] {
        EmptyFrontStops(g, hub, seedIDs, k, m);
      }
    }
  }

  // ---------- how many copies of a node a frontier holds ----------

  ghost function Sum(s: set<NodeId>, w: NodeId -> nat): nat {
    if s == {} then 0 else var x :| x in s; w(x) + Sum(s - {x}, w)
  }

  lemma {:induction false} SumTake(s: set<NodeId>, w: NodeId -> nat, x: NodeId)
    requires x in s
    ensures Sum(s, w) == w(x) + Sum(s - {x}, w)
    decreases |s|
  {
    var y :| y in s && Sum(s, w) == w(y) + Sum(s - {y}, w);
    if y != x {
      SumTake(s - {y}, w, x);
      SumTake(s - {x}, w, y);
      assert s - {y} - {x} == s - {x} - {y};
    }
  }

  lemma {:induction false} SumSame(s: set<NodeId>, v: NodeId -> nat, w: NodeId -> nat)
    requires forall x :: x in s ==> v(x) == w(x)
    ensures Sum(s, v) == Sum(s, w)
    decreases |s|
  {
    if s != {} {
      var x :| x in s;
      SumTake(s, v, x);
      SumTake(s, w, x);
      SumSame(s - {x}, v, w);
    }
  }

  /** Nodes that weigh nothing do not matter. */
  lemma {:induction false} SumWithin(s: set<NodeId>, t: set<NodeId>, w: NodeId -> nat)
    requires s <= t && forall x :: x in t && x !in s ==> w(x) == 0
    ensures Sum(t, w) == Sum(s, w)
    decreases |t|
  {
    if s != t {
      var x :| x in t && x !in s;
      SumTake(t, w, x);
      SumWithin(s, t - {x}, w);
    }
  }

  ghost function SeqSum(f: seq<NodeId>, v: NodeId -> nat): nat {
    if f == [] then 0 else SeqSum(f[..|f| - 1], v) + v(f[|f| - 1])
  }

  lemma SumOneMore(s: set<NodeId>, a: NodeId -> nat, b: NodeId -> nat, y: NodeId, k: nat)
    requires y in s && b(y) == a(y) + k && forall x :: x in s && x != y ==> b(x) == a(x)
    ensures Sum(s, b) == Sum(s, a) + k
  {
    SumTake(s, a, y);
    SumTake(s, b, y);
    SumSame(s - {y}, a, b);
  }

  ghost function Weighted(f: seq<NodeId>, v: NodeId -> nat): NodeId -> nat {
    x => Count(f, x) * v(x)
  }

  /** Adding up along a list is adding up over its nodes, each as often as it occurs. */
  lemma {:induction false} SeqSumIsSum(f: seq<NodeId>, v: NodeId -> nat)
    ensures SeqSum(f, v) == Sum(Elems(f), Weighted(f, v))
  {
    if f != [] {
      var n := |f| - 1;
      var rest, y := f[..n], f[n];
      assert f == rest + [y];
      SeqSumIsSum(rest, v);
      var a, b := Weighted(rest, v), Weighted(f, v);
      hide Sum, Weighted, Count;
      forall x ensures b(x) == a(x) + if x == y then v(y) else 0 {
        WeightStep(rest, y, v, x);
      }
      ElemsAppend(rest, [y]);
      assert Elems(f) == Elems(rest) + {y};
      SumOneMore(Elems(f), a, b, y, v(y));
      WeightOutside(rest, v, y);
      SumWithin(Elems(rest), Elems(f), a);
    }
  }

  lemma WeightStep(f: seq<NodeId>, y: NodeId, v: NodeId -> nat, x: NodeId)
    ensures Weighted(f + [y], v)(x) == Weighted(f, v)(x) + if x == y then v(y) else 0
  {
    CountStep(f, y, x);
    hide Count;
    assert (Count(f, x) + 1) * v(x) == Count(f, x) * v(x) + v(x);
  }

  lemma WeightOutside(f: seq<NodeId>, v: NodeId -> nat, y: NodeId)
    ensures y !in f ==> Weighted(f, v)(y) == 0
  {
    CountPositive(f, y);
  }

  /**
   How many copies of n hop h has: a seed as often as it was given, then, since a list is fetched once per
   copy of its node and walked once per copy again, the square of a node's copies for each time it names n.
   */
  ghost function Copies(g: Net, hub: int, seedIDs: seq<NodeId>, h: nat, n: NodeId): nat
    decreases h, 0
  {
    if h == 0 then (if n == EMPTY_ID then 0 else Count(seedIDs, n))
    else Sum(Near(g, Clean(seedIDs), h - 1), Passes(g, hub, seedIDs, h - 1, n))
  }

  ghost function Passed(g: Net, hub: int, seedIDs: seq<NodeId>, h: nat, m: NodeId, n: NodeId): nat
    decreases h, 1
  {
    var c := Copies(g, hub, seedIDs, h, m);
    if hub > 0 && c * |Neighbours(g, m)| > hub then 0 else c * (c * Count(Neighbours(g, m), n))
  }

  ghost function Share(g: Net, hub: int, f: seq<NodeId>, m: NodeId, n: NodeId): nat {
    if Flagged(g, hub, f, m) then 0 else Count(f, m) * Count(Neighbours(g, m), n)
  }

  lemma {:induction false} ExpandCount(g: Net, hub: int, f: seq<NodeId>, i: nat, n: NodeId)
    requires i <= |f|
    ensures Count(Expand(g, hub, f, i), n) == SeqSum(f[..i], Shares(g, hub, f, n))
  {
    if i > 0 {
      ExpandCount(g, hub, f, i - 1, n);
      assert f[..i][..i - 1] == f[..i - 1];
      var m := f[i - 1];
      FetchedFacts(g, f, m);
      CountAppend(Expand(g, hub, f, i - 1), Adds(g, hub, f, m), n);
    }
  }

  lemma {:induction false} FrontNear(g: Net, hub: int, seedIDs: seq<NodeId>, h: nat)
    ensures Elems(Front(g, hub, seedIDs, h)) <= Ball(g, hub, Clean(seedIDs), h) <= Near(g, Clean(seedIDs), h)
  {
    GatedWithin(g, hub, Clean(seedIDs), h);
    if h == 0 {
      NamedIds(seedIDs);
    } else {
      FrontNear(g, hub, seedIDs, h - 1);
      var f := Front(g, hub, seedIDs, h - 1);
      ExpandWithin(g, hub, f, |f|, Ball(g, hub, Clean(seedIDs), h - 1));
    }
  }

  lemma {:induction false} ExpandWithin(g: Net, hub: int, f: seq<NodeId>, i: nat, s: set<NodeId>)
    requires i <= |f| && Elems(f) <= s
    ensures Elems(Expand(g, hub, f, i)) <= Step(g, hub, s)
  {
    hide Step, Adds;
    if i == 0 {
      assert Expand(g, hub, f, 0) == [];
    } else {
      hide Expand;
      ExpandWithin(g, hub, f, i - 1, s);
      ExpandNext(g, hub, f, i);
      assert f[i - 1] in Elems(f);
      AddsWithin(g, hub, f, f[i - 1], s);
    }
  }

  lemma AddsWithin(g: Net, hub: int, f: seq<NodeId>, m: NodeId, s: set<NodeId>)
    requires m in f && m in s
    ensures Elems(Adds(g, hub, f, m)) <= Step(g, hub, s)
  {
    if !Flagged(g, hub, f, m) {
      FetchedFacts(g, f, m);
      UnflaggedOpen(g, hub, f, m);
      hide FetchedList, Flagged;
      forall n | n in Elems(Neighbours(g, m)) ensures n in Step(g, hub, s) {
        StepMember(g, hub, s, m, n);
      }
    }
  }

  /** A true hub is flagged wherever it stands. */
  lemma UnflaggedOpen(g: Net, hub: int, f: seq<NodeId>, m: NodeId)
    requires m in f && !Flagged(g, hub, f, m)
    ensures Open(g, hub, m)
  {
    CountPositive(f, m);
    var c, d := Count(f, m), |Neighbours(g, m)|;
    assert c * d >= d;
  }

  ghost function Shares(g: Net, hub: int, f: seq<NodeId>, n: NodeId): NodeId -> nat {
    m => Share(g, hub, f, m, n)
  }

  /** The next frontier's copies, added up over any set that holds this frontier. */
  lemma ExpandSum(g: Net, hub: int, f: seq<NodeId>, n: NodeId, s: set<NodeId>)
    requires Elems(f) <= s
    ensures Count(Expand(g, hub, f, |f|), n) == Sum(s, Weighted(f, Shares(g, hub, f, n)))
  {
    var v := Shares(g, hub, f, n);
    ExpandCount(g, hub, f, |f|, n);
    assert f[..|f|] == f;
    hide Sum, Expand, Share;
    SeqSumIsSum(f, v);
    forall x | x in s && x !in Elems(f) ensures Weighted(f, v)(x) == 0 {
      WeightOutside(f, v, x);
    }
    SumWithin(Elems(f), s, Weighted(f, v));
  }

  ghost function Passes(g: Net, hub: int, seedIDs: seq<NodeId>, h: nat, n: NodeId): NodeId -> nat
    decreases h, 2
  {
    m => Passed(g, hub, seedIDs, h, m, n)
  }

  lemma PassesIsWeighted(g: Net, hub: int, seedIDs: seq<NodeId>, h: nat, n: NodeId, f: seq<NodeId>, x: NodeId)
    requires Copies(g, hub, seedIDs, h, x) == Count(f, x)
    ensures Passes(g, hub, seedIDs, h, n)(x) == Weighted(f, Shares(g, hub, f, n))(x)
  {
    hide Copies, Count, Neighbours;
  }

  lemma CopiesFirst(g: Net, hub: int, seedIDs: seq<NodeId>, n: NodeId)
    ensures Copies(g, hub, seedIDs, 0, n) == Count(Named(seedIDs), n)
  {
    NamedIds(seedIDs);
  }

  lemma CopiesNext(g: Net, hub: int, seedIDs: seq<NodeId>, h: nat, n: NodeId)
    requires h > 0
    ensures Copies(g, hub, seedIDs, h, n) == Sum(Near(g, Clean(seedIDs), h - 1), Passes(g, hub, seedIDs, h - 1, n))
  {
    hide Near, Passes, Sum;
  }

  /** The frontier holds exactly the copies the formula gives. */
  lemma {:induction false} CopiesAreCounts(g: Net, hub: int, seedIDs: seq<NodeId>, h: nat, n: NodeId)
    ensures Copies(g, hub, seedIDs, h, n) == Count(Front(g, hub, seedIDs, h), n)
    decreases h
  {
    hide *;
    FrontNext(g, hub, seedIDs, h);
    if h == 0 {
      CopiesFirst(g, hub, seedIDs, n);
    } else {
      var f := Front(g, hub, seedIDs, h - 1);
      var near := Near(g, Clean(seedIDs), h - 1);
      FrontNear(g, hub, seedIDs, h - 1);
      ExpandSum(g, hub, f, n, near);
      CopiesNext(g, hub, seedIDs, h, n);
      var w, p := Weighted(f, Shares(g, hub, f, n)), Passes(g, hub, seedIDs, h - 1, n);
      forall x ensures p(x) == w(x) {
        CopiesAreCounts(g, hub, seedIDs, h - 1, x);
        PassesIsWeighted(g, hub, seedIDs, h - 1, n, f, x);
      }
      SumSame(near, p, w);
    }
  }

  // ---------- what follows for the walk ----------

  /** A node met first in hop d stands in that frontier. */
  lemma FirstInFront(g: Net, hub: int, seedIDs: seq<NodeId>, n: NodeId, d: nat)
    requires First(g, hub, seedIDs, n, d)
    ensures n in Front(g, hub, seedIDs, d)
  {
    hide Front;
    assert n in Elems(Front(g, hub, seedIDs, d));
  }

  lemma {:induction false} ExpandHolds(g: Net, hub: int, f: seq<NodeId>, i: nat, j: nat)
    requires j < i <= |f|
    ensures Elems(Adds(g, hub, f, f[j])) <= Elems(Expand(g, hub, f, i))
  {
    hide Adds, Expand;
    ExpandNext(g, hub, f, i);
    if j < i - 1 {
      ExpandHolds(g, hub, f, i - 1, j);
    }
  }

  /** The neighbours of an unflagged frontier node all stand in the next frontier. */
  lemma NeighboursNext(g: Net, hub: int, seedIDs: seq<NodeId>, h: nat, m: NodeId, n: NodeId)
    requires m in Front(g, hub, seedIDs, h) && !FlaggedIn(g, hub, seedIDs, h, m) && n in Neighbours(g, m)
    ensures n in Seen(g, hub, seedIDs, h + 1)
  {
    var f := Front(g, hub, seedIDs, h);
    FrontNext(g, hub, seedIDs, h + 1);
    hide Front, Neighbours, Expand;
    var j :| 0 <= j < |f| && f[j] == m;
    ExpandHolds(g, hub, f, |f|, j);
    FetchedFacts(g, f, m);
    hide FetchedList;
    assert n in Elems(Neighbours(g, m));
    assert n in Elems(Front(g, hub, seedIDs, h + 1));
  }

  lemma AddsAll(g: Net, hub: int, f: seq<NodeId>, i: nat)
    requires 0 < i <= |f| && FlagsIn(g, hub, f, i) == {}
    ensures Elems(Adds(g, hub, f, f[i - 1])) == Elems(Neighbours(g, f[i - 1])) && FlagsIn(g, hub, f, i - 1) == {}
  {
    assert FlagsIn(g, hub, f, i - 1) <= FlagsIn(g, hub, f, i);
    hide FlagsIn, Flagged, FetchedList, Neighbours;
    FlagsInAt(g, hub, f, i, i - 1);
    FetchedFacts(g, f, f[i - 1]);
  }

  lemma FlagsInAt(g: Net, hub: int, f: seq<NodeId>, i: nat, j: nat)
    requires j < i <= |f|
    ensures Flagged(g, hub, f, f[j]) ==> f[j] in FlagsIn(g, hub, f, i)
  {
    hide Flagged;
  }

  lemma ElemsLast(f: seq<NodeId>, i: nat)
    requires 0 < i <= |f|
    ensures Elems(f[..i]) == Elems(f[..i - 1]) + {f[i - 1]}
  {
    assert f[..i] == f[..i - 1] + [f[i - 1]];
  }

  lemma {:induction false} ExpandAll(g: Net, hub: int, f: seq<NodeId>, i: nat)
    requires i <= |f| && FlagsIn(g, hub, f, i) == {}
    ensures Elems(Expand(g, hub, f, i)) == Step(g, 0, Elems(f[..i]))
  {
    hide FlagsIn, Adds, Step;
    if i == 0 {
      assert f[..0] == [] && Elems([]) == {} && Expand(g, hub, f, 0) == [];
      NoStep(g);
    } else {
      hide Expand, Elems;
      AddsAll(g, hub, f, i);
      ExpandAll(g, hub, f, i - 1);
      ExpandNext(g, hub, f, i);
      ElemsLast(f, i);
      StepAdd(g, Elems(f[..i - 1]), f[i - 1]);
    }
  }

  lemma NoStep(g: Net)
    ensures Step(g, 0, {}) == {}
  {
  }

  lemma StepAdd(g: Net, s: set<NodeId>, src: NodeId)
    ensures Step(g, 0, s + {src}) == Step(g, 0, s) + Elems(Neighbours(g, src))
  {
    forall n | n in Step(g, 0, s) + Elems(Neighbours(g, src)) ensures n in Step(g, 0, s + {src}) {
      if n in Step(g, 0, s) {
        var m :| m in s && n in Neighbours(g, m) && Open(g, 0, m);
        StepMember(g, 0, s + {src}, m, n);
      } else {
        StepMember(g, 0, s + {src}, src, n);
      }
    }
  }

  /** While nothing is flagged the walk has met exactly the nodes within so many hops. */
  lemma {:induction false} SeenIsNear(g: Net, hub: int, seedIDs: seq<NodeId>, k: nat)
    requires FlagsBelow(g, hub, seedIDs, k) == {}
    ensures Seen(g, hub, seedIDs, k) == Near(g, Clean(seedIDs), k)
    ensures Ring(g, Clean(seedIDs), k) <= Elems(Front(g, hub, seedIDs, k)) <= Near(g, Clean(seedIDs), k)
  {
    FrontNext(g, hub, seedIDs, k);
    hide Front, FlagsIn, Expand, Step;
    if k == 0 {
      NamedIds(seedIDs);
    } else {
      var f := Front(g, hub, seedIDs, k - 1);
      SeenIsNear(g, hub, seedIDs, k - 1);
      ExpandAll(g, hub, f, |f|);
      assert f[..|f|] == f;
      RingSuffices(g, Clean(seedIDs), k - 1, Elems(f));
      hide Near;
    }
  }

  /** Everything met is within so many hops, through no node of larger degree than the threshold. */
  lemma {:induction false} SeenInBall(g: Net, hub: int, seedIDs: seq<NodeId>, k: nat)
    ensures Seen(g, hub, seedIDs, k) <= Ball(g, hub, Clean(seedIDs), k)
  {
    FrontNear(g, hub, seedIDs, k);
    hide Front;
    if k > 0 {
      SeenInBall(g, hub, seedIDs, k - 1);
      BallGrows(g, hub, Clean(seedIDs), k - 1, k);
      hide Ball;
    }
  }

  lemma SeenInNear(g: Net, hub: int, seedIDs: seq<NodeId>, k: nat)
    ensures Seen(g, hub, seedIDs, k) <= Near(g, Clean(seedIDs), k)
  {
    hide Seen, Ball, Near;
    SeenInBall(g, hub, seedIDs, k);
    GatedWithin(g, hub, Clean(seedIDs), k);
  }
}
