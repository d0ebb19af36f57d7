/** The bounded breadth-first blast radius: depth, node and hub bounds. */
module BlastRadius {
  import opened Basics
  import opened Graph
  import opened Fronts

  datatype Options = Options(maxDepth: int, maxNodes: int, direction: Direction, hubDegree: int)

  const DEFAULT_MAX_DEPTH := 3
  const DEFAULT_MAX_NODES := 200
  const HARD_MAX_DEPTH := 10
  const HARD_MAX_NODES := 10000

  /** Defaults for unset bounds, hard caps for large ones. */
  function Applied(o: Options, defaultHub: int): (r: Options)
    ensures o.maxDepth <= 0 ==> r.maxDepth == 3
    ensures 1 <= o.maxDepth <= 10 ==> r.maxDepth == o.maxDepth
    ensures o.maxDepth > 10 ==> r.maxDepth == 10
    ensures o.maxNodes <= 0 ==> r.maxNodes == 200
    ensures 1 <= o.maxNodes <= 10000 ==> r.maxNodes == o.maxNodes
    ensures o.maxNodes > 10000 ==> r.maxNodes == 10000
    ensures o.direction == Unset ==> r.direction == Callers
    ensures o.direction != Unset ==> r.direction == o.direction
    ensures o.hubDegree == 0 ==> r.hubDegree == defaultHub
    ensures o.hubDegree != 0 ==> r.hubDegree == o.hubDegree
  {
    var depth := if o.maxDepth <= 0 then DEFAULT_MAX_DEPTH else o.maxDepth;
    var nodes := if o.maxNodes <= 0 then DEFAULT_MAX_NODES else o.maxNodes;
    Options(if depth > HARD_MAX_DEPTH then HARD_MAX_DEPTH else depth,
            if nodes > HARD_MAX_NODES then HARD_MAX_NODES else nodes,
            if o.direction == Unset then Callers else o.direction,
            if o.hubDegree == 0 then defaultHub else o.hubDegree)
  }

  // ---------- neighbour lookup ----------

  /** The lists fetched for a frontier. */
  ghost predicate Fetched(g: Net, f: seq<NodeId>, out: Adjacency) {
    forall id :: id in f ==> Succ(out, id) == FetchedList(g, f, id)
  }

  ghost predicate AppendedAt(m: Adjacency, f: seq<NodeId>, start: Adjacency, out: Adjacency, id: NodeId) {
    Succ(out, id) == Succ(start, id) + Times(Succ(m, id), Count(f, id))
  }

  lemma AppendAt(m: Adjacency, f: seq<NodeId>, start: Adjacency, out: Adjacency, src: NodeId, id: NodeId)
    requires AppendedAt(m, f, start, out, id)
    ensures AppendedAt(m, f + [src], start, out[src := Succ(out, src) + Succ(m, src)], id)
  {
    CountStep(f, src, id);
    hide Count;
    var a, b, c := Succ(start, id), Succ(m, id), Count(f, id);
    assert id == src ==> Times(b, c + 1) == Times(b, c) + b;
    hide Times;
    assert id == src ==> a + (Times(b, c) + b) == (a + Times(b, c)) + b;
  }

  /** out holds what start held and, for each occurrence in f, another copy of the list in m. */
  ghost predicate Appended(m: Adjacency, f: seq<NodeId>, start: Adjacency, out: Adjacency) {
    forall id {:trigger Succ(out, id)} :: AppendedAt(m, f, start, out, id)
  }

  lemma AppendStep(m: Adjacency, f: seq<NodeId>, start: Adjacency, out: Adjacency, src: NodeId)
    requires Appended(m, f, start, out)
    ensures Appended(m, f + [src], start, out[src := Succ(out, src) + Succ(m, src)])
  {
    var next := out[src := Succ(out, src) + Succ(m, src)];
    forall id ensures AppendedAt(m, f + [src], start, next, id) {
      assert Succ(out, id) == Succ(out, id);
      AppendAt(m, f, start, out, src, id);
    }
    hide AppendedAt;
  }

  method AppendNeighbours(m: Adjacency, f: seq<NodeId>, start: Adjacency) returns (out: Adjacency)
    ensures Appended(m, f, start, out)
  {
    out := start;
    assert f[..0] == [];
    assert forall id :: AppendedAt(m, f[..0], start, out, id);
    hide Appended;
    for n := 0 to |f|
      invariant Appended(m, f[..n], start, out)
    {
      assert f[..n + 1] == f[..n] + [f[n]];
      AppendStep(m, f[..n], start, out, f[n]);
      out := out[f[n] := Succ(out, f[n]) + Succ(m, f[n])];
    }
    assert f[..|f|] == f;
  }

  method ExpandPerSource(g: Net, f: seq<NodeId>) returns (out: Adjacency)
    ensures Fetched(g, f, out)
  {
    out := map[];
    if g.dir == Callers || g.dir == Both {
      out := AppendNeighbours(g.inbound, f, out);
    }
    ghost var inward := out;
    if g.dir == Callees || g.dir == Both {
      out := AppendNeighbours(g.outbound, f, out);
    }
    forall id ensures Succ(out, id) == FetchedList(g, f, id) {
      var c := Count(f, id);
      assert Times([], c) == [] by { TimesFacts([], c); }
      hide Times, Count;
      assert Succ(inward, id) == Times(Inward(g, id), c);
    }
  }

  // ---------- the walk ----------

  /** The list and the distance map agree; distances never decrease along the list, nor exceed d. */
  ghost predicate Listing(visited: map<NodeId, nat>, order: seq<NodeId>, d: nat) {
    && NoDup(order) && Elems(order) == visited.Keys
    && (forall i :: 0 <= i < |order| ==> order[i] in visited && visited[order[i]] <= d)
    && (forall i, j :: 0 <= i < j < |order| ==> visited[order[i]] <= visited[order[j]])
  }

  lemma ListingAdd(visited: map<NodeId, nat>, order: seq<NodeId>, d: nat, id: NodeId)
    requires Listing(visited, order, d) && id !in visited
    ensures Listing(visited[id := d], order + [id], d)
  {
    ElemsAppend(order, [id]);
    assert forall i :: 0 <= i < |order| ==> order[i] in visited.Keys;
  }

  lemma AddOne(order: seq<NodeId>, id: NodeId)
    ensures AddAll(order, [id]) == if id in order then order else order + [id]
  {
    assert [id][..0] == [] && AddAll(order, []) == order;
  }

  lemma SeedNext(seedIDs: seq<NodeId>, n: nat)
    requires n < |seedIDs|
    ensures var a, b, id := Named(seedIDs[..n]), Named(seedIDs[..n + 1]), seedIDs[n];
            && b == (if id == EMPTY_ID then a else a + [id])
            && Elems(b) == Elems(a) + (if id == EMPTY_ID then {} else {id})
            && AddAll([], b) == (if id == EMPTY_ID || id in AddAll([], a) then AddAll([], a) else AddAll([], a) + [id])
  {
    var a, id := Named(seedIDs[..n]), seedIDs[n];
    assert seedIDs[..n + 1][..n] == seedIDs[..n];
    assert a + [] == a;
    ElemsAppend(a, [id]);
    hide Named;
    assert Elems([id]) == {id};
    AddAllAppend([], a, [id]);
    AddOne(AddAll([], a), id);
  }

  lemma ListNext(order: seq<NodeId>, ns: seq<NodeId>, n: nat)
    requires n < |ns|
    ensures var a := AddAll(order, ns[..n]);
            AddAll(order, ns[..n + 1]) == (if ns[n] in a then a else a + [ns[n]]) && a <= AddAll(order, ns)
    ensures Elems(ns[..n + 1]) == Elems(ns[..n]) + {ns[n]} && ns[n] in Elems(ns)
  {
    assert ns[..n + 1] == ns[..n] + [ns[n]];
    AddAllAppend(order, ns[..n], [ns[n]]);
    assert ns == ns[..n] + ns[n..];
    AddAllAppend(order, ns[..n], ns[n..]);
    hide AddAll;
    AddOne(AddAll(order, ns[..n]), ns[n]);
  }

  /** Where queueing a list stands after its first n nodes. */
  ghost predicate Queued(visited0: map<NodeId, nat>, order0: seq<NodeId>, ns: seq<NodeId>, n: nat, d: nat,
                         visited: map<NodeId, nat>, order: seq<NodeId>) {
    && n <= |ns| && order == AddAll(order0, ns[..n]) && Extended(visited0, visited, Elems(ns), d)
    && visited.Keys == visited0.Keys + Elems(ns[..n])
  }

  lemma QueuedStep(visited0: map<NodeId, nat>, order0: seq<NodeId>, ns: seq<NodeId>, n: nat, d: nat,
                   before: map<NodeId, nat>, listed: seq<NodeId>, visited: map<NodeId, nat>, order: seq<NodeId>)
    requires Queued(visited0, order0, ns, n, d, before, listed) && n < |ns|
    requires visited == if ns[n] in before then before else before[ns[n] := d]
    requires order == if ns[n] in listed then listed else listed + [ns[n]]
    ensures Queued(visited0, order0, ns, n + 1, d, visited, order)
  {
    hide AddAll, Elems;
    ListNext(order0, ns, n);
    InElems(ns, n);
  }

  lemma InElems(ns: seq<NodeId>, n: nat)
    requires n < |ns|
    ensures ns[n] in Elems(ns)
  {
  }

  /** Refused at n: the rest, n itself for one, is not listed. */
  lemma QueuedPart(visited0: map<NodeId, nat>, order0: seq<NodeId>, ns: seq<NodeId>, n: nat, d: nat,
                   visited: map<NodeId, nat>, order: seq<NodeId>)
    requires Queued(visited0, order0, ns, n, d, visited, order) && n < |ns| && ns[n] !in visited
    ensures Extended(visited0, visited, Elems(ns), d) && !(Elems(ns) <= visited.Keys) && order <= AddAll(order0, ns)
  {
    hide AddAll, Elems, Extended;
    ListNext(order0, ns, n);
    InElems(ns, n);
  }

  lemma QueuedAll(visited0: map<NodeId, nat>, order0: seq<NodeId>, ns: seq<NodeId>, d: nat, visited: map<NodeId, nat>,
                  order: seq<NodeId>)
    requires Queued(visited0, order0, ns, |ns|, d, visited, order)
    ensures Extended(visited0, visited, Elems(ns), d) && visited.Keys == visited0.Keys + Elems(ns)
    ensures order == AddAll(order0, ns)
  {
    hide AddAll, Elems, Extended;
    assert ns[..|ns|] == ns;
  }

  /** Where seeding stands after the first n seeds. */
  ghost predicate Seeded(seedIDs: seq<NodeId>, n: nat, visited: map<NodeId, nat>, order: seq<NodeId>,
                         frontier: seq<NodeId>, truncated: bool) {
    n <= |seedIDs| && var named := Named(seedIDs[..n]);
    && (!truncated ==> frontier == named && visited.Keys == Elems(named) && order == AddAll([], named))
    && (truncated ==> visited.Keys < Elems(named) && order <= AddAll([], named))
  }

  lemma SeedStep(seedIDs: seq<NodeId>, n: nat, before: map<NodeId, nat>, listed: seq<NodeId>, queued: seq<NodeId>,
                 full: bool, visited: map<NodeId, nat>, order: seq<NodeId>, frontier: seq<NodeId>, truncated: bool,
                     ok: bool)
    requires Seeded(seedIDs, n, before, listed, queued, full) && n < |seedIDs|
    requires seedIDs[n] == EMPTY_ID ==>
        ok && visited == before && order == listed && frontier == queued && truncated == full
    requires seedIDs[n] != EMPTY_ID && ok ==>
        && visited == (if seedIDs[n] in before then before else before[seedIDs[n] := 0])
        && order == (if seedIDs[n] in listed then listed else listed + [seedIDs[n]])
        && frontier == queued + [seedIDs[n]] && truncated == full && (full ==> visited == before)
    requires !ok ==> visited == before && order == listed && truncated && seedIDs[n] !in before
    requires (seedIDs[n] in before <==> seedIDs[n] in listed)
    ensures Seeded(seedIDs, n + 1, visited, order, frontier, truncated)
  {
    hide Named, AddAll, Elems;
    SeedNext(seedIDs, n);
  }

  lemma ListedVisited(visited: map<NodeId, nat>, order: seq<NodeId>, id: NodeId)
    requires Elems(order) == visited.Keys
    ensures id in visited <==> id in order
  {
    assert id in Elems(order) <==> id in order;
  }

  class Search {
    const maxNodes: nat
    var visited: map<NodeId, nat>
    var order: seq<NodeId>
    var truncated: bool
    var hubs: set<NodeId>

    constructor (maxNodes: nat)
      ensures this.maxNodes == maxNodes && visited == map[] && order == [] && !truncated && hubs == {}
    {
      this.maxNodes := maxNodes;
      visited, order, truncated, hubs := map[], [], false, {};
    }

    ghost predicate Valid(d: nat)
      reads this
    {
      Listing(visited, order, d) && |order| <= maxNodes && (truncated ==> |order| == maxNodes) && hubs <= visited.Keys
    }

    lemma Parts(d: nat)
      requires Valid(d)
      ensures Listing(visited, order, d) && |order| <= maxNodes && (truncated ==> |order| == maxNodes) &&
          hubs <= visited.Keys
      ensures Elems(order) == visited.Keys && forall i :: 0 <= i < |order| ==> order[i] in visited
    {
    }

    method Enqueue(id: NodeId, dist: nat) returns (ok: bool)
      requires Valid(dist)
      modifies this`visited, this`order, this`truncated
      ensures Valid(dist)
      ensures ok ==> order == (if id in old(order) then old(order) else old(order) + [id])
      ensures ok ==> truncated == old(truncated)
                     && visited == (if id in old(visited) then old(visited) else old(visited)[id := dist])
      ensures !ok ==> truncated && id !in visited && visited == old(visited) && order == old(order)
      ensures old(truncated) ==> visited == old(visited)
    {
      if id in visited {
        assert id in Elems(order);
        return true;
      }
      assert id !in Elems(order);
      if |order| >= maxNodes {
        truncated := true;
        return false;
      }
      ListingAdd(visited, order, dist, id);
      visited := visited[id := dist];
      order := order + [id];
      return true;
    }

    /** Seeds enter at distance 0, in order, until the node bound is hit; a repeated seed is queued again. */
    method Seed(seedIDs: seq<NodeId>) returns (frontier: seq<NodeId>)
      requires visited == map[] && order == [] && !truncated && hubs == {}
      modifies this`visited, this`order, this`truncated
      ensures Valid(0) && Seeded(seedIDs, |seedIDs|, visited, order, frontier, truncated)
    {
      frontier := [];
      assert seedIDs[..0] == [];
      assert Valid(0) && Seeded(seedIDs, 0, visited, order, frontier, truncated);
      hide Search.Valid, Seeded;
      for n := 0 to |seedIDs|
        invariant Valid(0) && Seeded(seedIDs, n, visited, order, frontier, truncated)
      {
        var id := seedIDs[n];
        ghost var before, listed, queued, full := visited, order, frontier, truncated;
        Parts(0);
        var ok := true;
        if id != EMPTY_ID {
          ok := Enqueue(id, 0);
          if ok {
            frontier := frontier + [id];
          }
        }
        ListedVisited(before, listed, id);
        SeedStep(seedIDs, n, before, listed, queued, full, visited, order, frontier, truncated, ok);
      }
    }

    /** Enqueues a neighbour list at distance d; stops at the first one the node bound refuses. */
    method EnqueueAll(ns: seq<NodeId>, d: nat, next0: seq<NodeId>) returns (next: seq<NodeId>, ok: bool)
      requires Valid(d) && !truncated
      modifies this`visited, this`order, this`truncated
      ensures Valid(d) && Extended(old(visited), visited, Elems(ns), d)
      ensures ok ==> !truncated && visited.Keys == old(visited.Keys) + Elems(ns) && next == next0 + ns
      ensures !ok ==> truncated && !(Elems(ns) <= visited.Keys)
      ensures order <= AddAll(old(order), ns) && (ok ==> order == AddAll(old(order), ns))
    {
      ghost var visited0, order0 := visited, order;
      next := next0;
      assert ns[..0] == [];
      assert Queued(visited0, order0, ns, 0, d, visited, order);
      hide Search.Valid, Queued, Extended, Elems, AddAll;
      for n := 0 to |ns|
        invariant Valid(d) && !truncated && next == next0 + ns[..n]
        invariant Queued(visited0, order0, ns, n, d, visited, order)
      {
        ghost var before, listed := visited, order;
        ok := Enqueue(ns[n], d);
        if !ok {
          QueuedPart(visited0, order0, ns, n, d, visited, order);
          return;
        }
        QueuedStep(visited0, order0, ns, n, d, before, listed, visited, order);
        assert ns[..n + 1] == ns[..n] + [ns[n]];
        next := next + [ns[n]];
      }
      QueuedAll(visited0, order0, ns, d, visited, order);
      assert ns[..|ns|] == ns;
      ok := true;
    }

    /** One frontier node: flagged as a hub, or its neighbours listed as far as they fit. */
    method HopNode(g: Net, hub: int, frontier: seq<NodeId>, i: nat, perSrc: Adjacency, h: nat, next0: seq<NodeId>,
                   ghost start: map<NodeId, nat>, ghost order0: seq<NodeId>, ghost hubs0: set<NodeId>)
      returns (next: seq<NodeId>, ok: bool)
      requires Valid(h + 1) && !truncated &&
          HopState(g, hub, frontier, i, h, start, order0, hubs0, visited, order, next0, hubs)
      requires i < |frontier| && Elems(frontier) <= start.Keys && Fetched(g, frontier, perSrc)
      modifies this
      ensures Valid(h + 1)
      ensures ok ==> !truncated
      ensures ok ==> HopState(g, hub, frontier, i + 1, h, start, order0, hubs0, visited, order, next, hubs)
      ensures !ok ==> truncated && HopCut(g, hub, frontier, h, start, order0, hubs0, visited, order, hubs)
    {
      hide HopState, HopCut, Listing, Fetched, Flagged, FetchedList, Neighbours, Extended, Elems, Adds;
      var src := frontier[i];
      var ns := Succ(perSrc, src);
      GateTest(g, hub, frontier, perSrc, src);
      if hub > 0 && |ns| > hub {
        HopFlags(g, hub, frontier, i, h, start, order0, hubs0, visited, order, next0, hubs);
        hubs := hubs + {src};
        return next0, true;
      }
      ghost var before, listed := visited, order;
      next, ok := EnqueueAll(ns, h + 1, next0);
      HopLists(g, hub, frontier, i, h, start, order0, hubs0, before, listed, next0, visited, order, next, hubs, ok);
    }

    /** One hop: the fetched lists of every frontier node that is not flagged. */
    method Hop(g: Net, hub: int, frontier: seq<NodeId>, h: nat) returns (next: seq<NodeId>)
      requires Valid(h) && !truncated && Elems(frontier) <= visited.Keys
      modifies this
      ensures Valid(h + 1)
      ensures !truncated ==>
          HopState(g, hub, frontier, |frontier|, h, old(visited), old(order), old(hubs), visited, order, next, hubs)
      ensures truncated ==> HopCut(g, hub, frontier, h, old(visited), old(order), old(hubs), visited, order, hubs)
    {
      ghost var start, order0, hubs0 := visited, order, hubs;
      var perSrc := ExpandPerSource(g, frontier);
      next := [];
      HopStart(g, hub, frontier, h, start, order0, hubs0);
      ListingLater(visited, order, h);
      assert Valid(h + 1);
      hide Search.Valid, HopState, HopCut, Listing, Fetched, Elems;
      for i := 0 to |frontier|
        invariant Valid(h + 1) && !truncated
        invariant HopState(g, hub, frontier, i, h, start, order0, hubs0, visited, order, next, hubs)
      {
        var ok;
        next, ok := HopNode(g, hub, frontier, i, perSrc, h, next, start, order0, hubs0);
        if !ok {
          return;
        }
      }
    }
  }

  /** Comparing the fetched list with the threshold is the gate's test. */
  lemma GateTest(g: Net, hub: int, f: seq<NodeId>, perSrc: Adjacency, src: NodeId)
    requires Fetched(g, f, perSrc) && src in f
    ensures Succ(perSrc, src) == FetchedList(g, f, src)
    ensures Flagged(g, hub, f, src) <==> hub > 0 && |Succ(perSrc, src)| > hub
  {
    FetchedFacts(g, f, src);
    hide FetchedList, Neighbours;
  }

  /** Only nodes of ns were added to a, all at distance d; nothing else changed. */
  ghost predicate Extended(a: map<NodeId, nat>, b: map<NodeId, nat>, ns: set<NodeId>, d: nat) {
    && (forall n :: n in a ==> n in b && b[n] == a[n])
    && (forall n :: n in b && n !in a ==> n in ns && b[n] == d)
  }

  /** Where a hop stands after the first i frontier nodes. */
  ghost predicate HopState(g: Net, hub: int, f: seq<NodeId>, i: nat, h: nat, start: map<NodeId, nat>,
                           order0: seq<NodeId>, hubs0: set<NodeId>, visited: map<NodeId, nat>, order: seq<NodeId>,
                           next: seq<NodeId>, hubs: set<NodeId>) {
    && order == AddAll(order0, next)
    && i <= |f| && next == Expand(g, hub, f, i) && hubs == hubs0 + FlagsIn(g, hub, f, i)
    && Extended(start, visited, Elems(next), h + 1) && visited.Keys == start.Keys + Elems(next)
  }

  /** Where it stands when the node bound stops it at some frontier node. */
  ghost predicate HopCutAt(g: Net, hub: int, f: seq<NodeId>, i: nat, h: nat, start: map<NodeId, nat>,
                           order0: seq<NodeId>, hubs0: set<NodeId>, visited: map<NodeId, nat>, order: seq<NodeId>,
                           hubs: set<NodeId>) {
    && i < |f| && order <= AddAll(order0, Expand(g, hub, f, i + 1))
    && hubs == hubs0 + FlagsIn(g, hub, f, i)
    && Extended(start, visited, Elems(Expand(g, hub, f, i + 1)), h + 1)
    && !(Elems(Expand(g, hub, f, i + 1)) <= visited.Keys)
  }

  ghost predicate HopCut(g: Net, hub: int, f: seq<NodeId>, h: nat, start: map<NodeId, nat>,
                         order0: seq<NodeId>, hubs0: set<NodeId>, visited: map<NodeId, nat>, order: seq<NodeId>,
                         hubs: set<NodeId>) {
    exists i: nat :: HopCutAt(g, hub, f, i, h, start, order0, hubs0, visited, order, hubs)
  }

  lemma HopStart(g: Net, hub: int, f: seq<NodeId>, h: nat, start: map<NodeId, nat>, order0: seq<NodeId>,
                 hubs0: set<NodeId>)
    ensures HopState(g, hub, f, 0, h, start, order0, hubs0, start, order0, [], hubs0)
  {
    assert FlagsIn(g, hub, f, 0) == {};
  }

  lemma FlagsNext(g: Net, hub: int, f: seq<NodeId>, i: nat)
    requires i < |f|
    ensures FlagsIn(g, hub, f, i + 1) == FlagsIn(g, hub, f, i) + if Flagged(g, hub, f, f[i]) then {f[i]} else {}
  {
    hide Flagged;
  }

  lemma HopFlags(g: Net, hub: int, f: seq<NodeId>, i: nat, h: nat, start: map<NodeId, nat>, order0: seq<NodeId>,
                 hubs0: set<NodeId>, visited: map<NodeId, nat>, order: seq<NodeId>, next: seq<NodeId>,
                     hubs: set<NodeId>)
    requires HopState(g, hub, f, i, h, start, order0, hubs0, visited, order, next, hubs)
    requires i < |f| && Elems(f) <= start.Keys && Flagged(g, hub, f, f[i])
    ensures HopState(g, hub, f, i + 1, h, start, order0, hubs0, visited, order, next, hubs + {f[i]})
    ensures f[i] in visited
  {
    FlagsNext(g, hub, f, i);
    ExpandNext(g, hub, f, i + 1);
    hide FlagsIn, Flagged, FetchedList;
    assert f[i] in Elems(f);
  }

  lemma HopLists(g: Net, hub: int, f: seq<NodeId>, i: nat, h: nat, start: map<NodeId, nat>, order0: seq<NodeId>,
                 hubs0: set<NodeId>, before: map<NodeId, nat>, listed: seq<NodeId>, queued: seq<NodeId>,
                 visited: map<NodeId, nat>, order: seq<NodeId>, next: seq<NodeId>, hubs: set<NodeId>, ok: bool)
    requires HopState(g, hub, f, i, h, start, order0, hubs0, before, listed, queued, hubs)
    requires i < |f| && !Flagged(g, hub, f, f[i])
    requires order <= AddAll(listed, FetchedList(g, f, f[i])) &&
        (ok ==> order == AddAll(listed, FetchedList(g, f, f[i])))
    requires Extended(before, visited, Elems(FetchedList(g, f, f[i])), h + 1)
    requires ok ==> visited.Keys == before.Keys + Elems(FetchedList(g, f, f[i]))
    requires ok ==> next == queued + FetchedList(g, f, f[i])
    requires !ok ==> !(Elems(FetchedList(g, f, f[i])) <= visited.Keys)
    ensures ok ==> HopState(g, hub, f, i + 1, h, start, order0, hubs0, visited, order, next, hubs)
    ensures !ok ==> HopCut(g, hub, f, h, start, order0, hubs0, visited, order, hubs)
  {
    hide FlagsIn, FetchedList, Flagged, Expand, Elems, Adds, Extended;
    AddsUnflagged(g, hub, f, f[i]);
    FlagsNext(g, hub, f, i);
    ExpandNext(g, hub, f, i + 1);
    ExtendTwice(start, before, visited, Elems(queued), Elems(FetchedList(g, f, f[i])), h + 1);
    AddAllAppend(order0, queued, FetchedList(g, f, f[i]));
    hide AddAll;
    if !ok {
      assert HopCutAt(g, hub, f, i, h, start, order0, hubs0, visited, order, hubs);
    }
  }

  lemma AddsUnflagged(g: Net, hub: int, f: seq<NodeId>, m: NodeId)
    requires !Flagged(g, hub, f, m)
    ensures Adds(g, hub, f, m) == FetchedList(g, f, m)
  {
    hide Flagged, FetchedList;
  }

  lemma ExtendTwice(a: map<NodeId, nat>, b: map<NodeId, nat>, c: map<NodeId, nat>, s: set<NodeId>, t: set<NodeId>,
                    d: nat)
    requires Extended(a, b, s, d) && Extended(b, c, t, d)
    ensures Extended(a, c, s + t, d)
  {
  }

  lemma ListingLater(visited: map<NodeId, nat>, order: seq<NodeId>, h: nat)
    requires Listing(visited, order, h)
    ensures Listing(visited, order, h + 1) && forall n :: n in visited ==> visited[n] <= h
  {
    forall n | n in visited ensures visited[n] <= h {
      assert n in Elems(order);
    }
  }

  // ---------- where the walk stands ----------

  ghost predicate AllFirst(g: Net, hub: int, seedIDs: seq<NodeId>, visited: map<NodeId, nat>) {
    forall n :: n in visited ==> First(g, hub, seedIDs, n, visited[n])
  }

  /** Hop h is next: all that was met so far is listed, and flagged if it had to be. */
  ghost predicate Level(g: Net, hub: int, seedIDs: seq<NodeId>, visited: map<NodeId, nat>,
                        order: seq<NodeId>, hubs: set<NodeId>, h: nat) {
    && order == AddAll([], Trail(g, hub, seedIDs, h))
    && AllFirst(g, hub, seedIDs, visited)
    && visited.Keys == Seen(g, hub, seedIDs, h) && hubs == FlagsBelow(g, hub, seedIDs, h)
  }

  /** The node bound was hit while listing distance d: everything nearer is listed, something at d is not. */
  ghost predicate Cut(g: Net, hub: int, seedIDs: seq<NodeId>, visited: map<NodeId, nat>,
                      order: seq<NodeId>, hubs: set<NodeId>, d: nat) {
    && order <= AddAll([], Trail(g, hub, seedIDs, d))
    && AllFirst(g, hub, seedIDs, visited)
    && (d > 0 ==> Seen(g, hub, seedIDs, d - 1) <= visited.Keys)
    && visited.Keys < Seen(g, hub, seedIDs, d)
    && (d > 0 ==> FlagsBelow(g, hub, seedIDs, d - 1) <= hubs) && hubs <= FlagsBelow(g, hub, seedIDs, d)
  }

  lemma LevelNext(g: Net, hub: int, seedIDs: seq<NodeId>, h: nat, start: map<NodeId, nat>, order0: seq<NodeId>,
                  hubs0: set<NodeId>, visited: map<NodeId, nat>, order: seq<NodeId>, next: seq<NodeId>,
                      hubs: set<NodeId>)
    requires Level(g, hub, seedIDs, start, order0, hubs0, h)
    requires var f := Front(g, hub, seedIDs, h); HopState(g, hub, f, |f|, h, start, order0, hubs0, visited, order,
        next, hubs)
    ensures next == Front(g, hub, seedIDs, h + 1) && Level(g, hub, seedIDs, visited, order, hubs, h + 1)
  {
    hide Front, FlagsIn, Expand, Elems, Seen, FlagsBelow, AllFirst, Extended;
    FrontNext(g, hub, seedIDs, h + 1);
    SeenNext(g, hub, seedIDs, h);
    NewFirsts(g, hub, seedIDs, h, start, visited, Elems(next));
    TrailNext(g, hub, seedIDs, h);
    AddAllAppend([], Trail(g, hub, seedIDs, h), next);
    hide Trail, AddAll;
  }

  /** What a hop lists is met first in it. */
  lemma NewFirsts(g: Net, hub: int, seedIDs: seq<NodeId>, h: nat, start: map<NodeId, nat>, visited: map<NodeId, nat>,
                  met: set<NodeId>)
    requires AllFirst(g, hub, seedIDs, start) && start.Keys == Seen(g, hub, seedIDs, h)
    requires Extended(start, visited, met, h + 1) && met <= Elems(Front(g, hub, seedIDs, h + 1))
    ensures AllFirst(g, hub, seedIDs, visited) && start.Keys <= visited.Keys <= start.Keys + met
  {
    hide Front, Seen, Elems;
    SeenNext(g, hub, seedIDs, h);
    forall n | n in visited ensures First(g, hub, seedIDs, n, visited[n]) && n in start.Keys + met {
      assert n in start <==> n in start.Keys;
    }
  }

  lemma {:induction false} ExpandSplit(g: Net, hub: int, f: seq<NodeId>, i: nat, j: nat) returns (rest: seq<NodeId>)
    requires i <= j <= |f|
    ensures Expand(g, hub, f, j) == Expand(g, hub, f, i) + rest
    decreases j
  {
    hide Expand, Adds;
    if i == j {
      rest := [];
    } else {
      ExpandNext(g, hub, f, j);
      var less := ExpandSplit(g, hub, f, i, j - 1);
      rest := less + Adds(g, hub, f, f[j - 1]);
    }
  }

  lemma {:induction false} ExpandGrows(g: Net, hub: int, f: seq<NodeId>, i: nat, j: nat)
    requires i <= j <= |f|
    ensures Elems(Expand(g, hub, f, i)) <= Elems(Expand(g, hub, f, j))
    ensures FlagsIn(g, hub, f, i) <= FlagsIn(g, hub, f, j)
    decreases j - i
  {
    hide Expand, FlagsIn, Adds, Flagged, Elems;
    if i < j {
      ExpandNext(g, hub, f, i + 1);
      FlagsNext(g, hub, f, i);
      ExpandGrows(g, hub, f, i + 1, j);
    }
  }

  lemma TrailNext(g: Net, hub: int, seedIDs: seq<NodeId>, h: nat)
    ensures Trail(g, hub, seedIDs, h + 1) == Trail(g, hub, seedIDs, h) + Front(g, hub, seedIDs, h + 1)
  {
    hide Front;
  }

  lemma CutOrder(g: Net, hub: int, seedIDs: seq<NodeId>, h: nat, order0: seq<NodeId>, order: seq<NodeId>,
                 part: seq<NodeId>,
                 rest: seq<NodeId>)
    requires order0 == AddAll([], Trail(g, hub, seedIDs, h)) && order <= AddAll(order0, part)
    requires Front(g, hub, seedIDs, h + 1) == part + rest
    ensures order <= AddAll([], Trail(g, hub, seedIDs, h + 1))
  {
    TrailNext(g, hub, seedIDs, h);
    hide Trail, Front, AddAll;
    AddAllAppend(order0, part, rest);
    AddAllAppend([], Trail(g, hub, seedIDs, h), part + rest);
  }

  lemma CutNext(g: Net, hub: int, seedIDs: seq<NodeId>, h: nat, start: map<NodeId, nat>, order0: seq<NodeId>,
                hubs0: set<NodeId>, visited: map<NodeId, nat>, order: seq<NodeId>, hubs: set<NodeId>)
    requires Level(g, hub, seedIDs, start, order0, hubs0, h)
    requires HopCut(g, hub, Front(g, hub, seedIDs, h), h, start, order0, hubs0, visited, order, hubs)
    ensures Cut(g, hub, seedIDs, visited, order, hubs, h + 1)
  {
    hide Front, FlagsIn, Expand, Elems, Seen, FlagsBelow, AllFirst, Extended, Trail, AddAll;
    var f := Front(g, hub, seedIDs, h);
    FrontNext(g, hub, seedIDs, h + 1);
    SeenNext(g, hub, seedIDs, h);
    var i: nat :| HopCutAt(g, hub, f, i, h, start, order0, hubs0, visited, order, hubs);
    ExpandGrows(g, hub, f, i + 1, |f|);
    ExpandGrows(g, hub, f, i, |f|);
    NewFirsts(g, hub, seedIDs, h, start, visited, Elems(Expand(g, hub, f, i + 1)));
    var rest := ExpandSplit(g, hub, f, i + 1, |f|);
    CutOrder(g, hub, seedIDs, h, order0, order, Expand(g, hub, f, i + 1), rest);
  }

  lemma SeedsStart(g: Net, hub: int, seedIDs: seq<NodeId>, visited: map<NodeId, nat>, order: seq<NodeId>,
                   frontier: seq<NodeId>, truncated: bool)
    requires Listing(visited, order, 0) && Seeded(seedIDs, |seedIDs|, visited, order, frontier, truncated)
    ensures !truncated ==> frontier == Front(g, hub, seedIDs, 0)
    ensures truncated ==> Cut(g, hub, seedIDs, visited, order, {}, 0)
    ensures !truncated ==> Level(g, hub, seedIDs, visited, order, {}, 0)
  {
    assert seedIDs[..|seedIDs|] == seedIDs;
    forall n | n in visited ensures visited[n] == 0 {
      assert n in Elems(order);
    }
  }

  // ---------- the service call ----------

  datatype NodeMeta = NodeMeta(symbolPath: string, filePath: string, kind: string, lineStart: int, lineEnd: int)

  const NO_META := NodeMeta("", "", "", 0, 0)

  datatype Entry = Entry(nodeId: NodeId, distance: nat, meta: NodeMeta, isHub: bool, pending: bool)

  datatype Response = SeedNotFound | Response(entries: seq<Entry>, truncated: bool)

  ghost function Ids(entries: seq<Entry>): set<NodeId> {
    set e | e in entries :: e.nodeId
  }

  /** Each node once, nearest first, no more than the node bound. */
  ghost predicate Ordered(o: Options, entries: seq<Entry>) {
    && |entries| <= o.maxNodes
    && (forall i, j :: 0 <= i < j < |entries| ==> entries[i].nodeId != entries[j].nodeId)
    && (forall i, j :: 0 <= i < j < |entries| ==> entries[i].distance <= entries[j].distance)
  }

  /** Every listed node is within its distance of a seed, through no node of degree above the hub threshold. */
  ghost predicate RadiusSound(g: Net, o: Options, seeds: set<NodeId>, entries: seq<Entry>) {
    forall e :: e in entries ==> e.distance <= o.maxDepth && e.nodeId in Ball(g, o.hubDegree, seeds, e.distance)
  }

  ghost function Hubs(entries: seq<Entry>): set<NodeId> {
    set e | e in entries && e.isHub :: e.nodeId
  }

  /**
   With the gate as it is: each node is listed with the hop that first meets it, in the order met; the
   answer is cut short exactly when more is met than the node bound allows; uncut, it lists all that is
   met and flags exactly the nodes the gate stopped; cut while listing distance d, it lists and flags all
   of the hops before.
   */
  ghost predicate GatedExact(g: Net, o: Options, seedIDs: seq<NodeId>, entries: seq<Entry>, truncated: bool)
    requires 0 <= o.maxDepth && 0 <= o.maxNodes
  {
    && (forall e :: e in entries ==> First(g, o.hubDegree, seedIDs, e.nodeId, e.distance))
    && InOrder(entries, AddAll([], Trail(g, o.hubDegree, seedIDs, o.maxDepth)))
    && (truncated <==> |Seen(g, o.hubDegree, seedIDs, o.maxDepth)| > o.maxNodes)
    && (!truncated ==> Ids(entries) == Seen(g, o.hubDegree, seedIDs, o.maxDepth))
    && (!truncated ==> Hubs(entries) == FlagsBelow(g, o.hubDegree, seedIDs, o.maxDepth))
    && (truncated ==> |entries| == o.maxNodes)
    && (truncated ==> exists d: nat :: d <= o.maxDepth && CutAnswer(g, o.hubDegree, seedIDs, entries, d))
  }

  /** The entries name the front of the list, in its order. */
  ghost predicate InOrder(entries: seq<Entry>, ids: seq<NodeId>) {
    |entries| <= |ids| && forall i :: 0 <= i < |entries| ==> entries[i].nodeId == ids[i]
  }

  ghost predicate CutAnswer(g: Net, hub: int, seedIDs: seq<NodeId>, entries: seq<Entry>, d: nat) {
    && (d > 0 ==> Seen(g, hub, seedIDs, d - 1) <= Ids(entries))
    && Ids(entries) < Seen(g, hub, seedIDs, d)
    && (d > 0 ==> FlagsBelow(g, hub, seedIDs, d - 1) <= Hubs(entries)) &&
        Hubs(entries) <= FlagsBelow(g, hub, seedIDs, d)
  }

  /**
   Distances are shortest distances; the answer is cut short exactly when the ball does not fit the node
   bound; when not, it lists the whole ball; when so, it misses nothing nearer than what it lists.
   */
  ghost predicate RadiusExact(g: Net, maxDepth: nat, maxNodes: nat, seeds: set<NodeId>, entries: seq<Entry>,
                              truncated: bool) {
    && (forall e :: e in entries ==> IsDistance(g, seeds, e.nodeId, e.distance))
    && (truncated <==> |Near(g, seeds, maxDepth)| > maxNodes)
    && (!truncated ==> Ids(entries) == Near(g, seeds, maxDepth))
    && (truncated ==> |entries| == maxNodes)
    && (truncated ==> forall e, n, d: nat :: e in entries && d < e.distance && IsDistance(g, seeds, n, d) ==>
        n in Ids(entries))
  }

  function Hydrated(id: NodeId, distance: nat, hubs: set<NodeId>, nodes: map<NodeId, NodeMeta>): Entry {
    Entry(id, distance, if id in nodes then nodes[id] else NO_META, id in hubs, id !in nodes)
  }

  ghost predicate Listed(visited: map<NodeId, nat>, order: seq<NodeId>, hubs: set<NodeId>, nodes: map<NodeId,
                         NodeMeta>, entries: seq<Entry>) {
    && |entries| == |order|
    && (forall i :: 0 <= i < |order| ==> order[i] in visited)
    && (forall i :: 0 <= i < |order| ==> entries[i] == Hydrated(order[i], visited[order[i]], hubs, nodes))
  }

  lemma ListedIds(visited: map<NodeId, nat>, order: seq<NodeId>, hubs: set<NodeId>, nodes: map<NodeId, NodeMeta>,
                  entries: seq<Entry>)
    requires Listed(visited, order, hubs, nodes, entries) && Elems(order) == visited.Keys
    ensures Ids(entries) == visited.Keys && (hubs <= visited.Keys ==> Hubs(entries) == hubs)
    ensures forall e :: e in entries ==>
        e.nodeId in visited && e.distance == visited[e.nodeId] && (e.isHub <==> e.nodeId in hubs)
  {
    forall n | n in visited.Keys ensures n in Ids(entries) {
      assert n in Elems(order);
      var i :| 0 <= i < |order| && order[i] == n;
      assert entries[i] in entries;
    }
    forall n | n in hubs && hubs <= visited.Keys ensures n in Hubs(entries) {
      assert n in Elems(order);
      var i :| 0 <= i < |order| && order[i] == n;
      assert entries[i] in entries;
    }
  }

  /** The walk proper: seeds, then hops until the depth bound, an empty frontier or the node bound. */
  method Walk(g: Net, o: Options, seedIDs: seq<NodeId>) returns (s: Search, ghost hops: nat)
    requires 1 <= o.maxDepth && 1 <= o.maxNodes
    ensures fresh(s) && s.Valid(hops) && s.maxNodes == o.maxNodes && hops <= o.maxDepth
    ensures s.truncated ==> Cut(g, o.hubDegree, seedIDs, s.visited, s.order, s.hubs, hops)
    ensures !s.truncated ==> Level(g, o.hubDegree, seedIDs, s.visited, s.order, s.hubs, hops)
    ensures !s.truncated ==> hops == o.maxDepth || Front(g, o.hubDegree, seedIDs, hops) == []
  {
    hide *;
    s := new Search(o.maxNodes);
    var f := s.Seed(seedIDs);
    s.Parts(0);
    SeedsStart(g, o.hubDegree, seedIDs, s.visited, s.order, f, s.truncated);
    var hop := 0;
    while hop < o.maxDepth && f != [] && !s.truncated
      invariant s.Valid(hop) && fresh(s) && s.maxNodes == o.maxNodes && hop <= o.maxDepth
      invariant s.truncated ==> Cut(g, o.hubDegree, seedIDs, s.visited, s.order, s.hubs, hop)
      invariant !s.truncated ==> f == Front(g, o.hubDegree, seedIDs, hop)
      invariant !s.truncated ==> Level(g, o.hubDegree, seedIDs, s.visited, s.order, s.hubs, hop)
    {
      ghost var visited, order, hubs := s.visited, s.order, s.hubs;
      FrontListed(g, o.hubDegree, seedIDs, visited, order, hubs, hop);
      f := s.Hop(g, o.hubDegree, f, hop);
      if s.truncated {
        CutNext(g, o.hubDegree, seedIDs, hop, visited, order, hubs, s.visited, s.order, s.hubs);
      } else {
        LevelNext(g, o.hubDegree, seedIDs, hop, visited, order, hubs, s.visited, s.order, f, s.hubs);
      }
      hop := hop + 1;
    }
    hops := hop;
  }

  lemma FrontListed(g: Net, hub: int, seedIDs: seq<NodeId>, visited: map<NodeId, nat>, order: seq<NodeId>,
                    hubs: set<NodeId>, h: nat)
    requires Level(g, hub, seedIDs, visited, order, hubs, h)
    ensures Elems(Front(g, hub, seedIDs, h)) <= visited.Keys
  {
    hide Front, FlagsIn;
  }

  /** What an answer promises. */
  ghost predicate Answer(g: Net, o: Options, seedIDs: seq<NodeId>, nodes: map<NodeId, NodeMeta>, entries: seq<Entry>,
                         truncated: bool)
    requires 0 <= o.maxDepth && 0 <= o.maxNodes
  {
    && Ordered(o, entries)
    && GatedExact(g, o, seedIDs, entries, truncated)
    && RadiusSound(g, o, Clean(seedIDs), entries)
    && (o.hubDegree <= 0 ==> Hubs(entries) == {})
    && (Hubs(entries) == {} ==> RadiusExact(g, o.maxDepth, o.maxNodes, Clean(seedIDs), entries, truncated))
    && (forall e :: e in entries ==> e.pending == (e.nodeId !in nodes))
    && (forall e :: e in entries ==>
        e.meta == if e.nodeId in nodes then nodes[e.nodeId] else NodeMeta("", "", "", 0, 0))
  }

  method Of(inbound: Adjacency, outbound: Adjacency, nodes: map<NodeId, NodeMeta>, seedIDs: seq<NodeId>, opts: Options,
            defaultHub: int)
    returns (r: Response)
    ensures r.SeedNotFound? <==> Clean(seedIDs) != {} && Clean(seedIDs) !! nodes.Keys
    ensures r.Response? ==>
              var o := Applied(opts, defaultHub);
              Answer(Net(inbound, outbound, o.direction), o, seedIDs, nodes, r.entries, r.truncated)
  {
    var o := Applied(opts, defaultHub);
    var g := Net(inbound, outbound, o.direction);
    var clean := set id | id in seedIDs && id != EMPTY_ID;
    assert clean == Clean(seedIDs);
    if clean != {} && clean !! nodes.Keys {
      return SeedNotFound;
    }
    hide *;
    ghost var hops;
    var s;
    s, hops := Walk(g, o, seedIDs);
    s.Parts(hops);
    var entries := Hydrate(s.visited, s.order, s.hubs, nodes);
    Finish(g, o, seedIDs, s.visited, s.order, s.truncated, hops, s.hubs, nodes, entries);
    r := Response(entries, s.truncated);
  }

  method Hydrate(visited: map<NodeId, nat>, order: seq<NodeId>, hubs: set<NodeId>, nodes: map<NodeId, NodeMeta>)
    returns (entries: seq<Entry>)
    requires forall i :: 0 <= i < |order| ==> order[i] in visited
    ensures Listed(visited, order, hubs, nodes, entries)
  {
    entries := [];
    for i := 0 to |order|
      invariant Listed(visited, order[..i], hubs, nodes, entries)
    {
      var id := order[i];
      entries := entries + [Hydrated(id, visited[id], hubs, nodes)];
    }
    assert order[..|order|] == order;
  }

  lemma FinishListed(o: Options, visited: map<NodeId, nat>, order: seq<NodeId>, h: nat,
                     hubs: set<NodeId>, nodes: map<NodeId, NodeMeta>, entries: seq<Entry>)
    requires Listing(visited, order, h) && Listed(visited, order, hubs, nodes, entries)
    requires h <= o.maxDepth && |order| <= o.maxNodes
    ensures Ordered(o, entries) && (forall e :: e in entries ==> e.distance <= o.maxDepth)
    ensures |entries| == |order| && forall i :: 0 <= i < |order| ==> entries[i].nodeId == order[i]
    ensures forall e :: e in entries ==> e.pending == (e.nodeId !in nodes)
    ensures forall e :: e in entries ==>
        e.meta == if e.nodeId in nodes then nodes[e.nodeId] else NodeMeta("", "", "", 0, 0)
  {
    hide Elems;
    forall e | e in entries
      ensures e.distance <= o.maxDepth && e.pending == (e.nodeId !in nodes)
      ensures e.meta == if e.nodeId in nodes then nodes[e.nodeId] else NodeMeta("", "", "", 0, 0)
    {
      var i :| 0 <= i < |entries| && entries[i] == e;
      assert order[i] in visited;
    }
  }

  /** More was met than listed. */
  lemma CutSize(g: Net, hub: int, seedIDs: seq<NodeId>, visited: map<NodeId, nat>, hubs: set<NodeId>,
                order: seq<NodeId>, d: nat, maxDepth: nat)
    requires Cut(g, hub, seedIDs, visited, order, hubs, d) && Listing(visited, order, d) && d <= maxDepth
    ensures |Seen(g, hub, seedIDs, maxDepth)| > |order|
  {
    ListSize(order);
    SeenGrows(g, hub, seedIDs, d, maxDepth);
    hide Seen, FlagsBelow, First;
    var n :| n in Seen(g, hub, seedIDs, d) && n !in visited.Keys;
    SubsetSize(visited.Keys + {n}, Seen(g, hub, seedIDs, maxDepth));
  }

  lemma NamesInOrder(entries: seq<Entry>, order: seq<NodeId>, ids: seq<NodeId>)
    requires |entries| == |order| && forall i :: 0 <= i < |order| ==> entries[i].nodeId == order[i]
    ensures order <= ids ==> InOrder(entries, ids)
  {
  }

  lemma FinishGated(g: Net, o: Options, seedIDs: seq<NodeId>, visited: map<NodeId, nat>, order: seq<NodeId>,
                    truncated: bool, h: nat, hubs: set<NodeId>, entries: seq<Entry>)
    requires Listing(visited, order, h) && h <= o.maxDepth && 0 <= o.maxNodes && |order| <= o.maxNodes
    requires Ids(entries) == visited.Keys && Hubs(entries) == hubs && |entries| == |order|
    requires forall i :: 0 <= i < |order| ==> entries[i].nodeId == order[i]
    requires forall e :: e in entries ==> e.nodeId in visited && e.distance == visited[e.nodeId]
    requires truncated ==> |order| == o.maxNodes && Cut(g, o.hubDegree, seedIDs, visited, order, hubs, h)
    requires !truncated ==> Level(g, o.hubDegree, seedIDs, visited, order, hubs, h)
    requires !truncated ==> h == o.maxDepth || Front(g, o.hubDegree, seedIDs, h) == []
    ensures GatedExact(g, o, seedIDs, entries, truncated)
  {
    hide Trail, AddAll;
    ListSize(order);
    TrailGrows(g, o.hubDegree, seedIDs, h, o.maxDepth);
    NamesInOrder(entries, order, AddAll([], Trail(g, o.hubDegree, seedIDs, o.maxDepth)));
    hide InOrder;
    if truncated {
      CutSize(g, o.hubDegree, seedIDs, visited, hubs, order, h, o.maxDepth);
      hide Seen, FlagsBelow, First, Ids, Hubs;
      assert CutAnswer(g, o.hubDegree, seedIDs, entries, h);
    } else {
      if h < o.maxDepth {
        EmptyFrontStops(g, o.hubDegree, seedIDs, h, o.maxDepth);
      }
      hide Seen, FlagsBelow, First, Ids, Hubs, Front;
    }
  }

  lemma GatedSound(g: Net, o: Options, seedIDs: seq<NodeId>, entries: seq<Entry>)
    requires forall e :: e in entries ==>
        e.distance <= o.maxDepth && First(g, o.hubDegree, seedIDs, e.nodeId, e.distance)
    ensures RadiusSound(g, o, Clean(seedIDs), entries)
  {
    hide Ball;
    forall e | e in entries ensures e.nodeId in Ball(g, o.hubDegree, Clean(seedIDs), e.distance) {
      SeenInBall(g, o.hubDegree, seedIDs, e.distance);
      hide Seen;
    }
  }

  lemma {:induction false} NoGateNoFlags(g: Net, hub: int, seedIDs: seq<NodeId>, k: nat)
    requires hub <= 0
    ensures FlagsBelow(g, hub, seedIDs, k) == {}
  {
    hide Front;
    if k > 0 {
      NoGateNoFlags(g, hub, seedIDs, k - 1);
    }
  }

  /** Met first in hop d, with nothing flagged before, is being at distance d. */
  lemma FirstIsDistance(g: Net, hub: int, seedIDs: seq<NodeId>, n: NodeId, d: nat)
    requires FlagsBelow(g, hub, seedIDs, d) == {} && First(g, hub, seedIDs, n, d)
    ensures IsDistance(g, Clean(seedIDs), n, d)
  {
    hide Seen, Near, FlagsBelow, Front, Ring, Elems;
    SeenIsNear(g, hub, seedIDs, d);
    if d > 0 {
      SeenGrows(g, hub, seedIDs, d - 1, d);
      SeenIsNear(g, hub, seedIDs, d - 1);
    }
  }

  lemma UncutExact(g: Net, o: Options, seedIDs: seq<NodeId>, entries: seq<Entry>)
    requires 0 <= o.maxDepth && 0 <= o.maxNodes && GatedExact(g, o, seedIDs, entries, false) && Hubs(entries) == {}
    requires forall e :: e in entries ==> e.distance <= o.maxDepth
    ensures RadiusExact(g, o.maxDepth, o.maxNodes, Clean(seedIDs), entries, false)
  {
    hide Seen, Near, FlagsBelow, Front, Ring, First, IsDistance, Ids, Hubs;
    SeenIsNear(g, o.hubDegree, seedIDs, o.maxDepth);
    forall e | e in entries ensures IsDistance(g, Clean(seedIDs), e.nodeId, e.distance) {
      SeenGrows(g, o.hubDegree, seedIDs, e.distance, o.maxDepth);
      FirstIsDistance(g, o.hubDegree, seedIDs, e.nodeId, e.distance);
    }
  }

  /** A flagged node that is listed shows; so an answer that shows none was cut with none flagged before. */
  lemma CutExact(g: Net, o: Options, seedIDs: seq<NodeId>, entries: seq<Entry>)
    requires 0 <= o.maxDepth && 0 <= o.maxNodes && GatedExact(g, o, seedIDs, entries, true) && Hubs(entries) == {}
    requires forall e :: e in entries ==> e.distance <= o.maxDepth
    ensures RadiusExact(g, o.maxDepth, o.maxNodes, Clean(seedIDs), entries, true)
  {
    var hub, seeds := o.hubDegree, Clean(seedIDs);
    var d: nat :| d <= o.maxDepth && CutAnswer(g, hub, seedIDs, entries, d);
    SeenInNear(g, hub, seedIDs, o.maxDepth);
    hide Seen, Near, Ball, FlagsBelow, Front, Ring, First, IsDistance, Ids, Hubs;
    SubsetSize(Seen(g, hub, seedIDs, o.maxDepth), Near(g, seeds, o.maxDepth));
    CutDistances(g, o, seedIDs, entries, d);
    forall e, n, m: nat | e in entries && m < e.distance && IsDistance(g, seeds, n, m) ensures n in Ids(entries) {
      CutNearer(g, hub, seedIDs, entries, d, e, n, m);
    }
  }

  /** The walk's level when it was cut is exact up to the hop before. */
  lemma CutNearer(g: Net, hub: int, seedIDs: seq<NodeId>, entries: seq<Entry>, d: nat, e: Entry, n: NodeId, m: nat)
    requires CutAnswer(g, hub, seedIDs, entries, d) && Hubs(entries) == {} && e in entries
    requires First(g, hub, seedIDs, e.nodeId, e.distance) && m < e.distance && IsDistance(g, Clean(seedIDs), n, m)
    ensures n in Ids(entries)
  {
    hide Seen, Near, FlagsBelow, Front, Ring, First, Ids, Hubs, Elems;
    CutReach(g, hub, seedIDs, entries, d, e);
    SeenIsNear(g, hub, seedIDs, d - 1);
    NearGrows(g, Clean(seedIDs), m, d - 1);
  }

  lemma CutReach(g: Net, hub: int, seedIDs: seq<NodeId>, entries: seq<Entry>, d: nat, e: Entry)
    requires CutAnswer(g, hub, seedIDs, entries, d) && e in entries && First(g, hub, seedIDs, e.nodeId, e.distance)
    ensures e.distance <= d
  {
    hide Seen, FlagsBelow, Hubs;
    assert e.nodeId in Ids(entries);
    if e.distance > d {
      SeenGrows(g, hub, seedIDs, d, e.distance - 1);
    }
  }

  lemma CutDistances(g: Net, o: Options, seedIDs: seq<NodeId>, entries: seq<Entry>, d: nat)
    requires CutAnswer(g, o.hubDegree, seedIDs, entries, d) && Hubs(entries) == {}
    requires forall e :: e in entries ==> First(g, o.hubDegree, seedIDs, e.nodeId, e.distance)
    ensures forall e :: e in entries ==> IsDistance(g, Clean(seedIDs), e.nodeId, e.distance)
  {
    forall e | e in entries ensures IsDistance(g, Clean(seedIDs), e.nodeId, e.distance) {
      CutReach(g, o.hubDegree, seedIDs, entries, d, e);
      hide Seen, Near, Front, Ring, Ids, Hubs, IsDistance;
      CutDistance(g, o.hubDegree, seedIDs, e.nodeId, e.distance, d);
    }
  }

  /** A node met in the hop whose listing was cut is at that distance if nothing was flagged two hops before. */
  lemma CutDistance(g: Net, hub: int, seedIDs: seq<NodeId>, n: NodeId, m: nat, d: nat)
    requires m <= d && (d > 0 ==> FlagsBelow(g, hub, seedIDs, d - 1) == {}) && First(g, hub, seedIDs, n, m)
    ensures IsDistance(g, Clean(seedIDs), n, m)
  {
    hide Seen, Near, Ball, Front, Ring, FlagsBelow, Elems;
    if m < d {
      SeenGrows(g, hub, seedIDs, m, d - 1);
      FirstIsDistance(g, hub, seedIDs, n, m);
    } else if m == 0 {
      NoFlagsYet(g, hub, seedIDs);
      FirstIsDistance(g, hub, seedIDs, n, m);
    } else {
      SeenIsNear(g, hub, seedIDs, d - 1);
      SeenInNear(g, hub, seedIDs, d);
    }
  }

  lemma NoFlagsYet(g: Net, hub: int, seedIDs: seq<NodeId>)
    ensures FlagsBelow(g, hub, seedIDs, 0) == {}
  {
  }

  lemma Finish(g: Net, o: Options, seedIDs: seq<NodeId>, visited: map<NodeId, nat>, order: seq<NodeId>,
               truncated: bool, h: nat, hubs: set<NodeId>, nodes: map<NodeId, NodeMeta>, entries: seq<Entry>)
    requires Listing(visited, order, h) && Listed(visited, order, hubs, nodes, entries) && hubs <= visited.Keys
    requires h <= o.maxDepth && 0 <= o.maxNodes && |order| <= o.maxNodes
    requires truncated ==> |order| == o.maxNodes && Cut(g, o.hubDegree, seedIDs, visited, order, hubs, h)
    requires !truncated ==> Level(g, o.hubDegree, seedIDs, visited, order, hubs, h)
    requires !truncated ==> h == o.maxDepth || Front(g, o.hubDegree, seedIDs, h) == []
    ensures Answer(g, o, seedIDs, nodes, entries, truncated)
  {
    assert Elems(order) == visited.Keys && |entries| == |order|;
    assert hubs <= FlagsBelow(g, o.hubDegree, seedIDs, h);
    hide *;
    ListedIds(visited, order, hubs, nodes, entries);
    FinishListed(o, visited, order, h, hubs, nodes, entries);
    FinishGated(g, o, seedIDs, visited, order, truncated, h, hubs, entries);
    FinishAnswer(g, o, seedIDs, nodes, entries, truncated, h);
  }

  lemma FinishAnswer(g: Net, o: Options, seedIDs: seq<NodeId>, nodes: map<NodeId, NodeMeta>, entries: seq<Entry>,
                     truncated: bool, h: nat)
    requires 0 <= o.maxDepth && 0 <= o.maxNodes && Ordered(o, entries) && GatedExact(g, o, seedIDs, entries, truncated)
    requires forall e :: e in entries ==> e.distance <= o.maxDepth && e.pending == (e.nodeId !in nodes)
    requires forall e :: e in entries ==>
        e.meta == if e.nodeId in nodes then nodes[e.nodeId] else NodeMeta("", "", "", 0, 0)
    requires Hubs(entries) <= FlagsBelow(g, o.hubDegree, seedIDs, h)
    ensures Answer(g, o, seedIDs, nodes, entries, truncated)
  {
    hide Ordered, First, Seen, FlagsBelow, Ids, Hubs, CutAnswer, RadiusExact, RadiusSound;
    GatedSound(g, o, seedIDs, entries);
    if o.hubDegree <= 0 {
      NoGateNoFlags(g, o.hubDegree, seedIDs, h);
    }
    if Hubs(entries) == {} {
      if truncated {
        CutExact(g, o, seedIDs, entries);
      } else {
        UncutExact(g, o, seedIDs, entries);
      }
    }
  }

  // ---------- what the answer says about hubs ----------

  /** A flagged node's fetched list really was longer than the threshold in some hop. */
  lemma HubHasCopies(g: Net, o: Options, seedIDs: seq<NodeId>, nodes: map<NodeId, NodeMeta>, entries: seq<Entry>,
                     truncated: bool, e: Entry)
    requires 0 <= o.maxDepth && 0 <= o.maxNodes && Answer(g, o, seedIDs, nodes, entries, truncated)
    requires e in entries && e.isHub
    ensures o.hubDegree > 0
    ensures exists h: nat :: h < o.maxDepth && StoppedIn(g, o.hubDegree, seedIDs, h, e.nodeId)
  {
    hide Ordered, RadiusExact, RadiusSound, Seen, FlagsBelow, First;
    var hub := o.hubDegree;
    assert e.nodeId in Hubs(entries);
    if truncated {
      var d: nat :| d <= o.maxDepth && CutAnswer(g, hub, seedIDs, entries, d);
      SeenGrows(g, hub, seedIDs, d, o.maxDepth);
    }
    FlagsHop(g, hub, seedIDs, o.maxDepth, e.nodeId);
    hide FlaggedIn, Front;
    var h: nat :| h < o.maxDepth && FlaggedIn(g, hub, seedIDs, h, e.nodeId);
    FlagIsCopies(g, hub, seedIDs, h, e.nodeId);
  }

  /** The gate's test in hop h, in terms of the edge store alone. */
  ghost predicate StoppedIn(g: Net, hub: int, seedIDs: seq<NodeId>, h: nat, n: NodeId) {
    hub > 0 && Copies(g, hub, seedIDs, h, n) * |Neighbours(g, n)| > hub
  }

  lemma FlagIsCopies(g: Net, hub: int, seedIDs: seq<NodeId>, h: nat, n: NodeId)
    ensures FlaggedIn(g, hub, seedIDs, h, n) <==> StoppedIn(g, hub, seedIDs, h, n)
  {
    CopiesAreCounts(g, hub, seedIDs, h, n);
    CountPositive(Front(g, hub, seedIDs, h), n);
    hide Copies, Front, Count, Neighbours;
    var c, d := Count(Front(g, hub, seedIDs, h), n), |Neighbours(g, n)|;
    assert c == 0 ==> c * d == 0;
  }

  /** Uncut, a node is flagged exactly when the gate's test stops it in some hop before the depth bound. */
  lemma FlaggedExactly(g: Net, o: Options, seedIDs: seq<NodeId>, nodes: map<NodeId, NodeMeta>, entries: seq<Entry>,
                       e: Entry)
    requires 0 <= o.maxDepth && 0 <= o.maxNodes && Answer(g, o, seedIDs, nodes, entries, false) && e in entries
    ensures e.isHub <==> exists h: nat :: h < o.maxDepth && StoppedIn(g, o.hubDegree, seedIDs, h, e.nodeId)
  {
    if e.isHub {
      HubHasCopies(g, o, seedIDs, nodes, entries, false, e);
    } else {
      hide Ordered, RadiusExact, RadiusSound, Seen, FlagsBelow, First;
      NotAHub(o, entries, e);
      FlagsHop(g, o.hubDegree, seedIDs, o.maxDepth, e.nodeId);
      hide FlaggedIn, StoppedIn;
      forall h: nat | h < o.maxDepth ensures !StoppedIn(g, o.hubDegree, seedIDs, h, e.nodeId) {
        FlagIsCopies(g, o.hubDegree, seedIDs, h, e.nodeId);
      }
    }
  }

  lemma NotAHub(o: Options, entries: seq<Entry>, e: Entry)
    requires Ordered(o, entries) && e in entries && !e.isHub
    ensures e.nodeId !in Hubs(entries)
  {
    var i :| 0 <= i < |entries| && entries[i] == e;
    if e.nodeId in Hubs(entries) {
      var q :| q in entries && q.isHub && q.nodeId == e.nodeId;
      var j :| 0 <= j < |entries| && entries[j] == q;
    }
  }

  /** Where no frontier repeats a node, a node nearer than the depth bound is flagged exactly for its degree. */
  lemma DegreeDecides(g: Net, o: Options, seedIDs: seq<NodeId>, nodes: map<NodeId, NodeMeta>, entries: seq<Entry>,
                      e: Entry)
    requires 0 <= o.maxDepth && 0 <= o.maxNodes && Answer(g, o, seedIDs, nodes, entries, false)
    requires e in entries && e.distance < o.maxDepth && o.hubDegree > 0
    requires forall h: nat :: h < o.maxDepth ==> Copies(g, o.hubDegree, seedIDs, h, e.nodeId) <= 1
    ensures e.isHub <==> |Neighbours(g, e.nodeId)| > o.hubDegree
  {
    assert First(g, o.hubDegree, seedIDs, e.nodeId, e.distance);
    hide Answer, First, Copies, StoppedIn, Neighbours;
    FlaggedExactly(g, o, seedIDs, nodes, entries, e);
    if |Neighbours(g, e.nodeId)| > o.hubDegree {
      OneCopyStops(g, o.hubDegree, seedIDs, e.distance, e.nodeId);
    }
    forall h: nat | h < o.maxDepth && StoppedIn(g, o.hubDegree, seedIDs, h, e.nodeId)
      ensures |Neighbours(g, e.nodeId)| > o.hubDegree
    {
      StopsByDegree(g, o.hubDegree, seedIDs, h, e.nodeId);
    }
  }

  lemma OneCopyStops(g: Net, hub: int, seedIDs: seq<NodeId>, d: nat, n: NodeId)
    requires First(g, hub, seedIDs, n, d) && hub > 0 && |Neighbours(g, n)| > hub
    ensures StoppedIn(g, hub, seedIDs, d, n)
  {
    FirstInFront(g, hub, seedIDs, n, d);
    UnflaggedOpenAt(g, hub, Front(g, hub, seedIDs, d), n);
    hide Front, First, Neighbours, StoppedIn, Flagged;
    FlagIsCopies(g, hub, seedIDs, d, n);
  }

  lemma UnflaggedOpenAt(g: Net, hub: int, f: seq<NodeId>, n: NodeId)
    requires n in f && hub > 0 && |Neighbours(g, n)| > hub
    ensures Flagged(g, hub, f, n)
  {
    CountPositive(f, n);
    hide Count, Neighbours;
    var c, d := Count(f, n), |Neighbours(g, n)|;
    assert c * d >= d;
  }

  lemma StopsByDegree(g: Net, hub: int, seedIDs: seq<NodeId>, h: nat, n: NodeId)
    requires StoppedIn(g, hub, seedIDs, h, n) && Copies(g, hub, seedIDs, h, n) <= 1
    ensures |Neighbours(g, n)| > hub
  {
    hide Copies, Neighbours;
    var c, d := Copies(g, hub, seedIDs, h, n), |Neighbours(g, n)|;
    assert c == 0 || c == 1;
    assert c * d <= d;
  }

  /** Uncut, every neighbour of an unflagged node nearer than the depth bound is listed, at most one hop further. */
  lemma NeighboursListed(g: Net, o: Options, seedIDs: seq<NodeId>, nodes: map<NodeId, NodeMeta>, entries: seq<Entry>,
                         e: Entry,
                         n: NodeId)
    requires 0 <= o.maxDepth && 0 <= o.maxNodes && Answer(g, o, seedIDs, nodes, entries, false)
    requires e in entries && !e.isHub && e.distance < o.maxDepth && n in Neighbours(g, e.nodeId)
    ensures exists q :: q in entries && q.nodeId == n && q.distance <= e.distance + 1
  {
    var hub := o.hubDegree;
    hide Ordered, RadiusExact, RadiusSound, Seen, FlagsBelow, Front, Neighbours;
    NotAHub(o, entries, e);
    FlagsHop(g, hub, seedIDs, o.maxDepth, e.nodeId);
    FirstInFront(g, hub, seedIDs, e.nodeId, e.distance);
    assert !FlaggedIn(g, hub, seedIDs, e.distance, e.nodeId);
    NeighboursNext(g, hub, seedIDs, e.distance, e.nodeId, n);
    SeenGrows(g, hub, seedIDs, e.distance + 1, o.maxDepth);
    assert n in Ids(entries);
    var q :| q in entries && q.nodeId == n;
    if q.distance > e.distance + 1 {
      SeenGrows(g, hub, seedIDs, e.distance + 1, q.distance - 1);
    }
  }
}
