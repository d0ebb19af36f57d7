/** What one embedding batch decides about each of its refs, as functions of the refs and the outcomes. */
module EmbedBatch {
  import opened Graph
  import opened EmbedStore

  datatype PendingRef = PendingRef(node: NodeId, repo: Text, branch: Text, text: Text)

  function HashOf(model: Text, p: PendingRef): ContentHash {
    ContentHash(model, p.text)
  }

  function KeyOf(p: PendingRef): IndexKey {
    IndexKey(p.repo, p.branch, p.node)
  }

  function Flip(model: Text, p: PendingRef): ReadyRef {
    ReadyRef(p.node, HashOf(model, p))
  }

  /** The refs whose hash is in hs, in order. */
  ghost function Pick(model: Text, hs: iset<ContentHash>, ps: seq<PendingRef>): seq<PendingRef> {
    if ps == [] then []
    else
      var rest := Pick(model, hs, ps[..|ps| - 1]);
      if HashOf(model, ps[|ps| - 1]) in hs then rest + [ps[|ps| - 1]] else rest
  }

  ghost function FlipAll(model: Text, ps: seq<PendingRef>): seq<ReadyRef> {
    seq(|ps|, i requires 0 <= i < |ps| => Flip(model, ps[i]))
  }

  ghost function NodesOf(ps: seq<PendingRef>): seq<NodeId> {
    seq(|ps|, i requires 0 <= i < |ps| => ps[i].node)
  }

  ghost predicate DistinctNodes(ps: seq<PendingRef>) {
    forall a, b :: 0 <= a < b < |ps| ==> ps[a].node != ps[b].node
  }

  lemma PickNone(model: Text, hs: iset<ContentHash>)
    ensures Pick(model, hs, []) == []
  {
  }

  lemma PickStep(model: Text, hs: iset<ContentHash>, ps: seq<PendingRef>, p: PendingRef)
    ensures Pick(model, hs, ps + [p]) == Pick(model, hs, ps) + if HashOf(model, p) in hs then [p] else []
  {
    assert (ps + [p])[..|ps|] == ps;
  }

  lemma {:induction false} PickMember(model: Text, hs: iset<ContentHash>, ps: seq<PendingRef>, p: PendingRef)
    ensures p in Pick(model, hs, ps) <==> p in ps && HashOf(model, p) in hs
  {
    if ps != [] {
      PickMember(model, hs, ps[..|ps| - 1], p);
      assert ps == ps[..|ps| - 1] + [ps[|ps| - 1]];
    }
  }

  lemma {:induction false} PickDistinct(model: Text, hs: iset<ContentHash>, ps: seq<PendingRef>)
    requires DistinctNodes(ps)
    ensures DistinctNodes(Pick(model, hs, ps))
  {
    if ps != [] {
      var n := |ps| - 1;
      PickDistinct(model, hs, ps[..n]);
      var rest := Pick(model, hs, ps[..n]);
      forall a | 0 <= a < |rest| ensures rest[a].node != ps[n].node {
        assert rest[a] in rest;
        PickMember(model, hs, ps[..n], rest[a]);
        var i :| 0 <= i < n && ps[..n][i] == rest[a];
      }
    }
  }

  lemma NodesMember(ps: seq<PendingRef>, n: NodeId)
    ensures n in NodesOf(ps) <==> exists p :: p in ps && p.node == n
  {
    if p :| p in ps && p.node == n {
      var i :| 0 <= i < |ps| && ps[i] == p;
      assert NodesOf(ps)[i] == n;
    }
    if n in NodesOf(ps) {
      var i :| 0 <= i < |NodesOf(ps)| && NodesOf(ps)[i] == n;
      assert ps[i] in ps;
    }
  }

  /** Distinct texts, in first-seen order. */
  ghost function Unique(ps: seq<PendingRef>): seq<Text> {
    if ps == [] then []
    else
      var u := Unique(ps[..|ps| - 1]);
      if ps[|ps| - 1].text in u then u else u + [ps[|ps| - 1].text]
  }

  /** Each text to embed is asked for once, and nothing else is. */
  lemma {:induction false} UniqueFacts(ps: seq<PendingRef>)
    ensures forall a, b :: 0 <= a < b < |Unique(ps)| ==> Unique(ps)[a] != Unique(ps)[b]
    ensures forall t :: t in Unique(ps) <==> exists p :: p in ps && p.text == t
  {
    if ps != [] {
      var n := |ps| - 1;
      UniqueFacts(ps[..n]);
      assert ps == ps[..n] + [ps[n]];
      forall t ensures t in Unique(ps) <==> exists p :: p in ps && p.text == t {
        if p :| p in ps[..n] && p.text == t {
          assert p in ps;
        }
        assert ps[n] in ps;
      }
    }
  }

  // ---------- the batch's decision ----------

  /**
   What the embed stage reported: whether a permit was had, and for which hashes a non-empty vector came
   back or the text failed. A hash in neither set got nothing.
   */
  datatype Outcome = Outcome(permit: bool, got: iset<ContentHash>, broke: iset<ContentHash>)

  datatype Fate = ToReady | ToFailed | Untouched

  ghost function FateOf(model: Text, existing: iset<ContentHash>, o: Outcome, p: PendingRef): Fate {
    if HashOf(model, p) in existing then ToReady
    else if !o.permit then Untouched
    else if HashOf(model, p) in o.broke then ToFailed
    else if HashOf(model, p) in o.got then ToReady
    else Untouched
  }

  ghost function Missing(existing: iset<ContentHash>): iset<ContentHash> {
    iset h: ContentHash | h !in existing
  }

  /** The refs a batch flips: stored hits first, then fresh successes. */
  ghost function ReadyList(model: Text, existing: iset<ContentHash>, o: Outcome, ps: seq<PendingRef>): seq<PendingRef> {
    Pick(model, existing, ps) + if o.permit then Pick(model, o.got - o.broke,
        Pick(model, Missing(existing), ps)) else []
  }

  ghost function FailedList(model: Text, existing: iset<ContentHash>, o: Outcome,
                            ps: seq<PendingRef>): seq<PendingRef> {
    if o.permit then Pick(model, o.broke, Pick(model, Missing(existing), ps)) else []
  }

  /** Every ref of the batch has exactly one fate, and the lists carry exactly those fates, each ref once. */
  lemma FatesRespected(model: Text, existing: iset<ContentHash>, o: Outcome, ps: seq<PendingRef>)
    requires DistinctNodes(ps)
    ensures forall p :: p in ReadyList(model, existing, o, ps) <==> p in ps && FateOf(model, existing, o, p) == ToReady
    ensures forall p :: p in FailedList(model, existing, o, ps) <==>
        p in ps && FateOf(model, existing, o, p) == ToFailed
    ensures DistinctNodes(ReadyList(model, existing, o, ps)) && DistinctNodes(FailedList(model, existing, o, ps))
  {
    var misses := Pick(model, Missing(existing), ps);
    PickDistinct(model, existing, ps);
    PickDistinct(model, Missing(existing), ps);
    PickDistinct(model, o.got - o.broke, misses);
    PickDistinct(model, o.broke, misses);
    forall p
      ensures p in Pick(model, existing, ps) <==> p in ps && HashOf(model, p) in existing
      ensures p in Pick(model, o.got - o.broke, misses) <==>
          p in ps && HashOf(model, p) !in existing && HashOf(model, p) in o.got - o.broke
      ensures p in Pick(model, o.broke, misses) <==>
          p in ps && HashOf(model, p) !in existing && HashOf(model, p) in o.broke
    {
      PickMember(model, existing, ps, p);
      PickMember(model, Missing(existing), ps, p);
      PickMember(model, o.got - o.broke, misses, p);
      PickMember(model, o.broke, misses, p);
    }
    hide Pick;
    var a, b := Pick(model, existing, ps), Pick(model, o.got - o.broke, misses);
    forall i, j | 0 <= i < |a| && 0 <= j < |b| ensures a[i].node != b[j].node {
      assert a[i] in a && b[j] in b;
      var x :| 0 <= x < |ps| && ps[x] == a[i];
      var y :| 0 <= y < |ps| && ps[y] == b[j];
    }
  }

  /** Without a permit nothing is marked failed and only stored hits are flipped. */
  lemma NoPermitNoFailure(model: Text, existing: iset<ContentHash>, o: Outcome, ps: seq<PendingRef>)
    requires !o.permit
    ensures FailedList(model, existing, o, ps) == []
    ensures forall p :: p in ReadyList(model, existing, o, ps) <==> p in ps && HashOf(model, p) in existing
  {
    forall p ensures p in Pick(model, existing, ps) <==> p in ps && HashOf(model, p) in existing {
      PickMember(model, existing, ps, p);
    }
  }

  // ---------- batches of a pass ----------

  /** Consecutive slices of size, the last possibly shorter. */
  ghost function Slices(ps: seq<PendingRef>, size: nat): seq<seq<PendingRef>>
    requires size > 0
    decreases |ps|
  {
    if ps == [] then [] else if |ps| <= size then [ps] else [ps[..size]] + Slices(ps[size..], size)
  }

  ghost function Concat(bs: seq<seq<PendingRef>>): seq<PendingRef> {
    if bs == [] then [] else bs[0] + Concat(bs[1..])
  }

  /** A pass of limit batches covers everything fetched, in order, with at most limit of them. */
  lemma {:induction false} SlicesCover(ps: seq<PendingRef>, size: nat, limit: nat)
    requires size > 0 && |ps| <= limit * size
    ensures Concat(Slices(ps, size)) == ps && |Slices(ps, size)| <= limit
    ensures forall i :: 0 <= i < |Slices(ps, size)| ==> 0 < |Slices(ps, size)[i]| <= size
    decreases |ps|
  {
    if ps != [] && |ps| > size {
      assert limit * size == (limit - 1) * size + size;
      SlicesCover(ps[size..], size, limit - 1);
      var s := Slices(ps[size..], size);
      assert ([ps[..size]] + s)[1..] == s;
      assert ps == ps[..size] + ps[size..];
    } else if ps != [] {
      assert limit >= 1;
      assert [ps][1..] == [] && Concat([]) == [];
    }
  }
}
