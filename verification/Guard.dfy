/** The scope guard: did a candidate change stay within the blast radius of its anchor? */
module Guard {
  import opened Basics
  import opened Graph
  import opened Overlay
  import Fronts
  import BlastRadius

  // ---------- what the candidate changed ----------

  /** The base knows a hash for the node and it is the candidate's: the only case that drops a node. */
  ghost predicate ProvenUnchanged(baseHash: Option<map<NodeId, string>>, n: OverlayNode) {
    && baseHash.Some? && n.contentHash.Some?
    && n.id in baseHash.value && baseHash.value[n.id] != "" && baseHash.value[n.id] == n.contentHash.value
  }

  ghost predicate Changed(files: seq<OverlayFile>, baseHash: Option<map<NodeId, string>>, id: NodeId) {
    exists n :: InOverlay(files, n) && n.id == id && !ProvenUnchanged(baseHash, n)
  }

  /** The base has no hash for the node, or one that is empty or not the candidate's. */
  ghost predicate HashDiffers(baseHash: Option<map<NodeId, string>>, n: OverlayNode) {
    || baseHash.None?
    || n.contentHash.None?
    || n.id !in baseHash.value
    || baseHash.value[n.id] == ""
    || baseHash.value[n.id] != n.contentHash.value
  }

  method ChangedNodeIDs(files: seq<OverlayFile>, baseHash: Option<map<NodeId, string>>) returns (ids: seq<NodeId>)
    ensures NoDup(ids) && forall id :: id in ids <==> Changed(files, baseHash, id)
    ensures forall n :: InOverlay(files, n) && HashDiffers(baseHash, n) ==> n.id in ids
    ensures forall n :: InOverlay(files, n) && n.id !in ids ==>
        && baseHash.Some? && n.contentHash.Some? && n.id in baseHash.value
        && baseHash.value[n.id] == n.contentHash.value && n.contentHash.value != ""
  {
    ids := [];
    for i := 0 to |files|
      invariant NoDup(ids)
      invariant forall id :: id in ids <==> Changed(files[..i], baseHash, id)
    {
      var f := files[i];
      ghost var before := ids;
      for j := 0 to |f.nodes|
        invariant NoDup(ids)
        invariant forall id :: id in ids <==>
          id in before || exists k :: 0 <= k < j && f.nodes[k].id == id && !ProvenUnchanged(baseHash, f.nodes[k])
      {
        var n := f.nodes[j];
        if n.id in ids {
          continue;
        }
        if baseHash.Some? && n.contentHash.Some? {
          var known := if n.id in baseHash.value then baseHash.value[n.id] else "";
          if known != "" && known == n.contentHash.value {
            continue;
          }
        }
        ids := ids + [n.id];
      }
      forall id ensures id in ids <==> Changed(files[..i + 1], baseHash, id) {
        OverlayStep(files, i);
      }
    }
    assert files[..|files|] == files;
  }

  // ---------- admission of new nodes ----------

  /** A resolved overlay edge with both ends named joins the two nodes, in either direction. */
  ghost predicate Joins(e: OverlayEdge, a: NodeId, b: NodeId) {
    e.resolved && e.src != EMPTY_ID && e.tgt != EMPTY_ID && ((a == e.src && b == e.tgt) || (a == e.tgt && b == e.src))
  }

  ghost predicate Wired(files: seq<OverlayFile>, a: NodeId, b: NodeId) {
    exists f, e :: f in files && e in f.edges && Joins(e, a, b)
  }

  ghost predicate Adjoins(files: seq<OverlayFile>, adj: Adjacency) {
    forall a, b :: b in Succ(adj, a) <==> Wired(files, a, b)
  }

  /** From the new node x, through new nodes p, a candidate edge finally leads into target. */
  ghost predicate Chain(files: seq<OverlayFile>, added: set<NodeId>, target: set<NodeId>, x: NodeId, p: seq<NodeId>) {
    && x in added
    && if p == [] then exists t :: t in target && Wired(files, x, t)
       else Wired(files, x, p[0]) && Chain(files, added, target, p[0], p[1..])
  }

  ghost predicate Chained(files: seq<OverlayFile>, added: set<NodeId>, target: set<NodeId>, x: NodeId) {
    exists p :: Chain(files, added, target, x, p)
  }

  ghost predicate Admits(files: seq<OverlayFile>, added: set<NodeId>, s: set<NodeId>) {
    forall n, m :: n in added && m in s && Wired(files, n, m) ==> n in s
  }

  lemma ChainExtend(files: seq<OverlayFile>, added: set<NodeId>, target: set<NodeId>, x: NodeId, m: NodeId)
    requires x in added && Wired(files, x, m) && (m in target || Chained(files, added, target, m))
    ensures Chained(files, added, target, x)
  {
    if m in target {
      assert Chain(files, added, target, x, []);
    } else {
      var p :| Chain(files, added, target, m, p);
      assert ([m] + p)[1..] == p;
      assert Chain(files, added, target, x, [m] + p);
    }
  }

  lemma {:induction false} ChainAdmitted(files: seq<OverlayFile>, added: set<NodeId>, target: set<NodeId>,
                                         s: set<NodeId>,
                                         x: NodeId, p: seq<NodeId>)
    requires target <= s && Admits(files, added, s) && Chain(files, added, target, x, p)
    ensures x in s
    decreases |p|
  {
    if p != [] {
      ChainAdmitted(files, added, target, s, p[0], p[1..]);
    }
  }

  /** The admitted set: the start, and the new nodes chained to it. */
  ghost predicate Admitted(files: seq<OverlayFile>, added: set<NodeId>, start: set<NodeId>, s: set<NodeId>) {
    forall n :: n in s <==> n in start || Chained(files, added, start, n)
  }

  /** It is the least set that holds the start and takes in every new node joined to a member. */
  lemma AdmittedIsLeast(files: seq<OverlayFile>, added: set<NodeId>, start: set<NodeId>, s: set<NodeId>,
                        other: set<NodeId>)
    requires Admitted(files, added, start, s)
    ensures start <= s && Admits(files, added, s)
    ensures start <= other && Admits(files, added, other) ==> s <= other
  {
    forall n, m | n in added && m in s && Wired(files, n, m) ensures n in s {
      ChainExtend(files, added, start, n, m);
    }
    if start <= other && Admits(files, added, other) {
      forall n | n in s ensures n in other {
        if n !in start {
          var p :| Chain(files, added, start, n, p);
          ChainAdmitted(files, added, start, other, n, p);
        }
      }
    }
  }

  lemma ClosedIsAdmitted(files: seq<OverlayFile>, added: set<NodeId>, start: set<NodeId>, s: set<NodeId>)
    requires start <= s && Admits(files, added, s) && forall n :: n in s ==>
        n in start || Chained(files, added, start, n)
    ensures Admitted(files, added, start, s)
  {
    forall n | Chained(files, added, start, n) ensures n in s {
      var p :| Chain(files, added, start, n, p);
      ChainAdmitted(files, added, start, s, n, p);
    }
  }

  /** More start, more admitted. */
  lemma {:induction false} ChainMono(files: seq<OverlayFile>, added: set<NodeId>, a: set<NodeId>, b: set<NodeId>,
                                     x: NodeId, p: seq<NodeId>)
    requires a <= b && Chain(files, added, a, x, p)
    ensures Chain(files, added, b, x, p)
    decreases |p|
  {
    if p != [] {
      ChainMono(files, added, a, b, p[0], p[1..]);
    }
  }

  ghost predicate JoinedBy(es: seq<OverlayEdge>, n: nat, a: NodeId, b: NodeId) {
    exists k :: 0 <= k < n <= |es| && Joins(es[k], a, b)
  }

  lemma JoinedStep(es: seq<OverlayEdge>, n: nat, a: NodeId, b: NodeId)
    requires n < |es|
    ensures JoinedBy(es, n + 1, a, b) <==> JoinedBy(es, n, a, b) || Joins(es[n], a, b)
  {
    if JoinedBy(es, n + 1, a, b) {
      var k :| 0 <= k < n + 1 && Joins(es[k], a, b);
      assert k < n || Joins(es[n], a, b);
    }
  }

  function WithWire(adj: Adjacency, e: OverlayEdge): Adjacency {
    if e.resolved && e.src != EMPTY_ID && e.tgt != EMPTY_ID then
      var out := adj[e.src := Succ(adj, e.src) + [e.tgt]];
      out[e.tgt := Succ(out, e.tgt) + [e.src]]
    else adj
  }

  lemma WireAdded(adj: Adjacency, e: OverlayEdge, a: NodeId, b: NodeId)
    ensures b in Succ(WithWire(adj, e), a) <==> b in Succ(adj, a) || Joins(e, a, b)
  {
  }

  method BuildWires(files: seq<OverlayFile>) returns (adj: Adjacency)
    ensures Adjoins(files, adj)
  {
    adj := map[];
    for i := 0 to |files|
      invariant Adjoins(files[..i], adj)
    {
      var es := files[i].edges;
      ghost var before := adj;
      for j := 0 to |es|
        invariant forall a, b :: b in Succ(adj, a) <==> b in Succ(before, a) || JoinedBy(es, j, a, b)
      {
        ghost var was := adj;
        var e := es[j];
        if e.resolved && e.src != EMPTY_ID && e.tgt != EMPTY_ID {
          adj := adj[e.src := Succ(adj, e.src) + [e.tgt]];
          adj := adj[e.tgt := Succ(adj, e.tgt) + [e.src]];
        }
        assert adj == WithWire(was, e);
        forall a, b ensures b in Succ(adj, a) <==> b in Succ(before, a) || JoinedBy(es, j + 1, a, b) {
          hide WithWire, Joins, JoinedBy, Succ;
          WireAdded(was, e, a, b);
          JoinedStep(es, j, a, b);
        }
      }
      forall a, b ensures b in Succ(adj, a) <==> Wired(files[..i + 1], a, b) {
        WiredStep(files, i, a, b);
      }
    }
    assert files[..|files|] == files;
  }

  lemma WiredStep(files: seq<OverlayFile>, i: nat, a: NodeId, b: NodeId)
    requires i < |files|
    ensures Wired(files[..i + 1], a, b) <==>
              Wired(files[..i], a, b) || JoinedBy(files[i].edges, |files[i].edges|, a, b)
  {
    assert files[..i + 1] == files[..i] + [files[i]];
    if Wired(files[..i], a, b) {
      var f, e :| f in files[..i] && e in f.edges && Joins(e, a, b);
      assert f in files[..i + 1];
    }
    if k :| 0 <= k < |files[i].edges| && Joins(files[i].edges[k], a, b) {
      assert files[i] in files[..i + 1] && files[i].edges[k] in files[i].edges;
    }
    if Wired(files[..i + 1], a, b) && !Wired(files[..i], a, b) {
      var f, e :| f in files[..i + 1] && e in f.edges && Joins(e, a, b);
      assert f == files[i];
      var k :| 0 <= k < |f.edges| && f.edges[k] == e;
    }
  }

  /** The repeat-until-stable loop; whatever order it visits nodes in, the result is the admitted set. */
  method AdmitNewWired(start: set<NodeId>, newNodes: set<NodeId>, files: seq<OverlayFile>)
    returns (allowed: set<NodeId>)
    ensures Admitted(files, newNodes, start, allowed)
  {
    allowed := start;
    if newNodes == {} {
      ClosedIsAdmitted(files, newNodes, start, allowed);
      return;
    }
    var adj := BuildWires(files);
    while true
      invariant start <= allowed && forall n :: n in allowed ==> n in start || Chained(files, newNodes, start, n)
      decreases newNodes - allowed
    {
      var grew := false;
      var rest := newNodes;
      ghost var before := allowed;
      while rest != {}
        invariant rest <= newNodes && before <= allowed
        invariant forall n :: n in allowed ==> n in start || Chained(files, newNodes, start, n)
        invariant grew ==> newNodes - allowed < newNodes - before
        invariant !grew ==> allowed == before
        invariant !grew ==> forall n, m :: n in newNodes && n !in rest && m in allowed && Wired(files, n, m) ==>
            n in allowed
      {
        hide Chained;
        hide Wired;
        var n :| n in rest;
        rest := rest - {n};
        if n !in allowed {
          var found, m := FindAllowed(Succ(adj, n), allowed);
          if found {
            ChainExtend(files, newNodes, start, n, m);
            allowed := allowed + {n};
            grew := true;
          }
        }
      }
      if !grew {
        ClosedIsAdmitted(files, newNodes, start, allowed);
        return;
      }
    }
  }

  method FindAllowed(ns: seq<NodeId>, allowed: set<NodeId>) returns (found: bool, m: NodeId)
    ensures found ==> m in ns && m in allowed
    ensures !found ==> forall x :: x in ns ==> x !in allowed
  {
    for i := 0 to |ns|
      invariant forall k :: 0 <= k < i ==> ns[k] !in allowed
    {
      if ns[i] in allowed {
        return true, ns[i];
      }
    }
    return false, EMPTY_ID;
  }

  // ---------- the check ----------

  datatype ScopeVerdict =
    | Rejected
    | ScopeVerdict(contained: bool, anchor: NodeId, offending: seq<NodeId>, truncated: bool)

  method NewNodes(changed: seq<NodeId>, base: set<NodeId>) returns (out: set<NodeId>)
    ensures out == Elems(changed) - base
  {
    out := {};
    for i := 0 to |changed|
      invariant out == Elems(changed[..i]) - base
    {
      assert changed[..i + 1] == changed[..i] + [changed[i]];
      ElemsAppend(changed[..i], [changed[i]]);
      if changed[i] !in base {
        out := out + {changed[i]};
      }
    }
    assert changed[..|changed|] == changed;
  }

  method Offending(changed: seq<NodeId>, allowed: set<NodeId>) returns (offending: seq<NodeId>)
    requires NoDup(changed)
    ensures NoDup(offending) && forall id :: id in offending <==> id in changed && id != EMPTY_ID && id !in allowed
  {
    offending := [];
    for i := 0 to |changed|
      invariant NoDup(offending)
      invariant forall id :: id in offending <==> id in changed[..i] && id != EMPTY_ID && id !in allowed
    {
      if changed[i] != EMPTY_ID && changed[i] !in allowed {
        offending := offending + [changed[i]];
      }
    }
    assert changed[..|changed|] == changed;
  }

  /** The candidate's new nodes: changed, and unknown to the base. */
  ghost predicate NewSet(files: seq<OverlayFile>, baseHash: Option<map<NodeId, string>>, base: set<NodeId>,
                         s: set<NodeId>) {
    forall id :: id in s <==> Changed(files, baseHash, id) && id !in base
  }

  /** Within reach of the anchor, or new and chained to such a node through new nodes. */
  ghost predicate InScope(files: seq<OverlayFile>, added: set<NodeId>, radius: set<NodeId>, id: NodeId) {
    id in radius || Chained(files, added, radius, id)
  }

  ghost predicate AllInScope(files: seq<OverlayFile>, baseHash: Option<map<NodeId, string>>, added: set<NodeId>,
                             radius: set<NodeId>) {
    forall id :: Changed(files, baseHash, id) && id != EMPTY_ID ==> InScope(files, added, radius, id)
  }

  lemma ScopeMono(files: seq<OverlayFile>, baseHash: Option<map<NodeId, string>>, added: set<NodeId>, a: set<NodeId>,
                  b: set<NodeId>)
    requires a <= b && AllInScope(files, baseHash, added, a)
    ensures AllInScope(files, baseHash, added, b)
  {
    forall id | Changed(files, baseHash, id) && id != EMPTY_ID ensures InScope(files, added, b, id) {
      assert InScope(files, added, a, id);
      if id !in a {
        var p :| Chain(files, added, a, id, p);
        ChainMono(files, added, a, b, id, p);
      }
    }
  }

  method Check(inbound: Adjacency, outbound: Adjacency, nodes: map<NodeId, BlastRadius.NodeMeta>, defaultHub: int,
               files: seq<OverlayFile>, baseHash: Option<map<NodeId, string>>, anchor: NodeId,
                   opts: BlastRadius.Options)
    returns (v: ScopeVerdict, ghost added: set<NodeId>, ghost entries: seq<BlastRadius.Entry>)
    ensures v.Rejected? <==> anchor == EMPTY_ID || anchor !in nodes
    ensures v.ScopeVerdict? ==>
              var o := BlastRadius.Applied(opts, defaultHub);
              var near := Fronts.Near(Fronts.Net(inbound, outbound, o.direction), {anchor}, o.maxDepth);
              var radius := BlastRadius.Ids(entries) + {anchor};
              && BlastRadius.Answer(Fronts.Net(inbound, outbound, o.direction), o, [anchor], nodes, entries,
                  v.truncated)
              && NewSet(files, baseHash, nodes.Keys, added)
              && (v.contained <==> v.offending == []) && v.anchor == anchor && NoDup(v.offending)
              && (forall id :: id in v.offending <==>
                  Changed(files, baseHash, id) && id != EMPTY_ID && !InScope(files, added, radius, id))
              // a node of the base, modified and outside the radius, always offends
              && (forall n :: Modified(files, baseHash, nodes.Keys, n) && n.id !in radius ==> n.id in v.offending)
              && radius <= near
              // a contained change is in scope of the true neighbourhood, cut short or hub-gated as the radius may be
              && (v.contained ==> AllInScope(files, baseHash, added, near))
              // and a complete radius makes that exact
              && (!v.truncated && BlastRadius.Hubs(entries) == {} ==>
                    (v.contained <==> AllInScope(files, baseHash, added, near)))
  {
    added, entries := {}, [];
    if anchor == EMPTY_ID {
      return Rejected, added, entries;
    }
    assert Fronts.Clean([anchor]) == {anchor};
    var o := BlastRadius.Applied(opts, defaultHub);
    ghost var g := Fronts.Net(inbound, outbound, o.direction);
    var resp := BlastRadius.Of(inbound, outbound, nodes, [anchor], opts, defaultHub);
    if resp.SeedNotFound? {
      return Rejected, added, entries;
    }
    hide *;
    entries := resp.entries;
    var start := {anchor} + set e | e in resp.entries :: e.nodeId;
    var changed := ChangedNodeIDs(files, baseHash);
    var newNodes := NewNodes(changed, nodes.Keys);
    added := newNodes;
    var allowed := AdmitNewWired(start, newNodes, files);
    var offending := Offending(changed, allowed);
    v := ScopeVerdict(offending == [], anchor, offending, resp.truncated);
    NewSetOf(files, baseHash, nodes.Keys, changed, newNodes);
    RadiusWithin(g, o, anchor, nodes, entries, v.truncated, start);
    Decide(files, baseHash, newNodes, start, allowed, changed, offending);
    ModifiedOffends(files, baseHash, nodes.Keys, newNodes, start, offending);
    ghost var near := Fronts.Near(g, {anchor}, o.maxDepth);
    if v.contained {
      ScopeMono(files, baseHash, newNodes, start, near);
    }
  }

  /** A named node of the base that the candidate holds with another content, or with one the base cannot confirm. */
  ghost predicate Modified(files: seq<OverlayFile>, baseHash: Option<map<NodeId, string>>, base: set<NodeId>,
                           n: OverlayNode) {
    InOverlay(files, n) && n.id in base && n.id != EMPTY_ID && HashDiffers(baseHash, n)
  }

  lemma ModifiedOffends(files: seq<OverlayFile>, baseHash: Option<map<NodeId, string>>, base: set<NodeId>,
                        added: set<NodeId>, radius: set<NodeId>, offending: seq<NodeId>)
    requires NewSet(files, baseHash, base, added)
    requires forall id :: id in offending <==>
        Changed(files, baseHash, id) && id != EMPTY_ID && !InScope(files, added, radius, id)
    ensures forall n :: Modified(files, baseHash, base, n) && n.id !in radius ==> n.id in offending
  {
    forall n | Modified(files, baseHash, base, n) && n.id !in radius
      ensures n.id in offending
    {
      assert Changed(files, baseHash, n.id);
      assert n.id !in added;
      assert forall p :: !Chain(files, added, radius, n.id, p);
    }
  }

  lemma NewSetOf(files: seq<OverlayFile>, baseHash: Option<map<NodeId, string>>, base: set<NodeId>,
                 changed: seq<NodeId>, s: set<NodeId>)
    requires (forall id :: id in changed <==> Changed(files, baseHash, id)) && s == Elems(changed) - base
    ensures NewSet(files, baseHash, base, s)
  {
    hide Changed;
  }

  lemma RadiusWithin(g: Fronts.Net, o: BlastRadius.Options, anchor: NodeId, nodes: map<NodeId, BlastRadius.NodeMeta>,
                     entries: seq<BlastRadius.Entry>, truncated: bool, start: set<NodeId>)
    requires 1 <= o.maxDepth && 1 <= o.maxNodes && BlastRadius.Answer(g, o, [anchor], nodes, entries, truncated)
    requires start == {anchor} + set e | e in entries :: e.nodeId
    requires Fronts.Clean([anchor]) == {anchor}
    ensures start == BlastRadius.Ids(entries) + {anchor} <= Fronts.Near(g, {anchor}, o.maxDepth)
    ensures !truncated && BlastRadius.Hubs(entries) == {} ==> start == Fronts.Near(g, {anchor}, o.maxDepth)
  {
    hide BlastRadius.GatedExact, BlastRadius.Ordered;
    forall e | e in entries ensures e.nodeId in Fronts.Near(g, {anchor}, o.maxDepth) {
      Fronts.GatedWithin(g, o.hubDegree, {anchor}, e.distance);
      Fronts.BallGrows(g, 0, {anchor}, e.distance, o.maxDepth);
    }
    Fronts.BallGrows(g, 0, {anchor}, 0, o.maxDepth);
    hide Fronts.Near, Fronts.Ball;
  }

  lemma Decide(files: seq<OverlayFile>, baseHash: Option<map<NodeId, string>>, added: set<NodeId>, start: set<NodeId>,
               allowed: set<NodeId>, changed: seq<NodeId>, offending: seq<NodeId>)
    requires Admitted(files, added, start, allowed) && forall id :: id in changed <==> Changed(files, baseHash, id)
    requires forall id :: id in offending <==> id in changed && id != EMPTY_ID && id !in allowed
    ensures forall id :: id in offending <==>
        Changed(files, baseHash, id) && id != EMPTY_ID && !InScope(files, added, start, id)
    ensures offending == [] <==> AllInScope(files, baseHash, added, start)
  {
    hide Changed;
    hide Chained;
    if offending != [] {
      assert offending[0] in offending;
    }
  }
}
