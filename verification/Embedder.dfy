/** The embedding worker: classify, embed and persist over shared, in-place normalised vectors. */
module Embedder {
  import opened Graph
  import opened VecCodec
  import opened EmbedStore
  import opened EmbedBatch

  /** A vector as the worker holds it: a reference whose contents normalisation overwrites. */
  class Vector {
    var data: Vec

    constructor (d: Vec)
      ensures data == d
    {
      data := d;
    }
  }

  datatype EmbeddingRow = EmbeddingRow(node: NodeId, hash: ContentHash, vec: Vector)

  datatype VecKey = VecKey(repo: Text, branch: Text)

  function BatchOf(p: PendingRef): VecKey {
    VecKey(p.repo, p.branch)
  }

  /** Normalisation keeps the dimension. */
  ghost predicate KeepsLength(env: Env) {
    forall v {:trigger env.normalize(v)} :: |env.normalize(v)| == |v|
  }

  method L2Normalize(env: Env, v: Vector)
    modifies v
    ensures v.data == env.normalize(old(v.data))
  {
    v.data := env.normalize(v.data);
  }

  ghost function KeysOf(m: map<ContentHash, StoredRow>): iset<ContentHash> {
    iset h | h in m
  }

  /** The row a flipped ref is owed: its own node, its text's hash, the cached vector. */
  ghost function Owed(model: Text, inFlight: map<ContentHash, Vector>, p: PendingRef): EmbeddingRow
    requires HashOf(model, p) in inFlight
  {
    EmbeddingRow(p.node, HashOf(model, p), inFlight[HashOf(model, p)])
  }

  ghost predicate Owes(model: Text, flipped: seq<PendingRef>, inFlight: map<ContentHash, Vector>, k: VecKey,
                       r: EmbeddingRow)
    requires forall p :: p in flipped ==> HashOf(model, p) in inFlight
  {
    exists p :: p in flipped && BatchOf(p) == k && r == Owed(model, inFlight, p)
  }

  /** Flips and vector rows go together, one for one, under the ref's own repo and branch. */
  ghost predicate RowsTied(model: Text, flipped: seq<PendingRef>, readyRefs: seq<ReadyRef>,
                           inFlight: map<ContentHash, Vector>, batches: map<VecKey, seq<EmbeddingRow>>) {
    && readyRefs == FlipAll(model, flipped)
    && (forall p :: p in flipped ==> HashOf(model, p) in inFlight)
    && (forall p :: p in flipped ==> BatchOf(p) in batches && Owed(model, inFlight, p) in batches[BatchOf(p)])
    && (forall k, r :: k in batches && r in batches[k] ==> Owes(model, flipped, inFlight, k, r))
  }

  function WithRow(batches: map<VecKey, seq<EmbeddingRow>>, k: VecKey,
                   r: EmbeddingRow): map<VecKey, seq<EmbeddingRow>> {
    batches[k := (if k in batches then batches[k] else []) + [r]]
  }

  lemma RowAdded(model: Text, flipped: seq<PendingRef>, readyRefs: seq<ReadyRef>,
                 inFlight: map<ContentHash, Vector>, batches: map<VecKey, seq<EmbeddingRow>>, p: PendingRef)
    requires RowsTied(model, flipped, readyRefs, inFlight, batches) && HashOf(model, p) in inFlight
    ensures RowsTied(model, flipped + [p], readyRefs + [Flip(model, p)], inFlight,
        WithRow(batches, BatchOf(p), Owed(model, inFlight, p)))
  {
    var after := WithRow(batches, BatchOf(p), Owed(model, inFlight, p));
    forall k, r | k in after && r in after[k] ensures Owes(model, flipped + [p], inFlight, k, r) {
      if k in batches && r in batches[k] {
        assert Owes(model, flipped, inFlight, k, r);
        var q :| q in flipped && BatchOf(q) == k && r == Owed(model, inFlight, q);
        assert q in flipped + [p];
      } else {
        assert p in flipped + [p];
      }
    }
  }

  /** Caching a vector under a new hash leaves the rows as they were. */
  lemma CacheAdded(model: Text, flipped: seq<PendingRef>, readyRefs: seq<ReadyRef>,
                   inFlight: map<ContentHash, Vector>, batches: map<VecKey, seq<EmbeddingRow>>, h: ContentHash,
                       v: Vector)
    requires RowsTied(model, flipped, readyRefs, inFlight, batches) && h !in inFlight
    ensures RowsTied(model, flipped, readyRefs, inFlight[h := v], batches)
  {
    forall k, r | k in batches && r in batches[k] ensures Owes(model, flipped, inFlight[h := v], k, r) {
      assert Owes(model, flipped, inFlight, k, r);
      var q :| q in flipped && BatchOf(q) == k && r == Owed(model, inFlight, q);
      assert r == Owed(model, inFlight[h := v], q);
    }
  }

  ghost predicate CacheOk(env: Env, m: map<ContentHash, Vector>)
    reads m.Values
  {
    forall h :: h in m ==> m[h].data == Canonical(env, h) && m[h].data != []
  }

  /** Each slot, but for one, is raw or is the cached vector of its hash. */
  ghost predicate SlotsRaw(env: Env, model: Text, texts: seq<Text>, vecs: seq<Vector?>, m: map<ContentHash, Vector>,
                           but: int)
    reads vecs
  {
    && |vecs| == |texts|
    && forall s :: 0 <= s < |vecs| && s != but && vecs[s] != null ==> SlotRaw(env, model, texts[s], vecs[s], m)
  }

  ghost predicate SlotRaw(env: Env, model: Text, text: Text, v: Vector, m: map<ContentHash, Vector>)
    reads v
  {
    var h := ContentHash(model, text);
    if h in m then m[h] == v else v.data == env.embed(model, text)
  }

  lemma CacheGrows(env: Env, m: map<ContentHash, Vector>, h: ContentHash, v: Vector)
    requires CacheOk(env, m) && v.data == Canonical(env, h) && v.data != []
    ensures CacheOk(env, m[h := v])
  {
  }

  lemma SlotsRawGrow(env: Env, model: Text, texts: seq<Text>, vecs: seq<Vector?>, m: map<ContentHash, Vector>,
                     slot: nat)
    requires SlotsRaw(env, model, texts, vecs, m, slot) && slot < |vecs| && vecs[slot] != null
    requires forall s :: 0 <= s < |texts| && s != slot ==> texts[s] != texts[slot]
    ensures SlotsRaw(env, model, texts, vecs, m[ContentHash(model, texts[slot]) := vecs[slot]], -1)
  {
    var m2 := m[ContentHash(model, texts[slot]) := vecs[slot]];
    forall s | 0 <= s < |vecs| && vecs[s] != null ensures SlotRaw(env, model, texts[s], vecs[s], m2) {
      assert s != slot ==> SlotRaw(env, model, texts[s], vecs[s], m);
    }
  }

  class BatchJob {
    const model: Text
    var inFlight: map<ContentHash, Vector>
    var vecBatches: map<VecKey, seq<EmbeddingRow>>
    var needsEmbed: seq<PendingRef>
    var uniqueByHash: map<ContentHash, nat>
    var uniqueTexts: seq<Text>
    var uniqueVecs: seq<Vector?>
    var failedTexts: set<nat>
    var acquireErr: bool
    var inserts: seq<Insert>
    var readyRefs: seq<ReadyRef>
    var failed: seq<NodeId>
    ghost var flipped: seq<PendingRef>
    ghost var Repr: set<object>

    constructor (model: Text)
      ensures this.model == model && inFlight == map[] && vecBatches == map[] && needsEmbed == []
      ensures uniqueByHash == map[] && uniqueTexts == [] && uniqueVecs == [] && failedTexts == {} && !acquireErr
      ensures inserts == [] && readyRefs == [] && failed == [] && flipped == [] && Repr == {this}
    {
      this.model := model;
      inFlight, vecBatches, uniqueByHash := map[], map[], map[];
      needsEmbed, uniqueTexts, uniqueVecs, failedTexts, acquireErr := [], [], [], {}, false;
      inserts, readyRefs, failed, flipped, Repr := [], [], [], [], {this};
    }

    /** The job and the vectors in its hands are its own. */
    ghost predicate Owned()
      reads this`Repr, this`inFlight, this`uniqueVecs
    {
      && this in Repr
      && (forall h :: h in inFlight ==> inFlight[h] in Repr)
      && (forall s :: 0 <= s < |uniqueVecs| && uniqueVecs[s] != null ==> uniqueVecs[s] in Repr)
    }

    ghost predicate Tied()
      reads this`flipped, this`readyRefs, this`inFlight, this`vecBatches
    {
      RowsTied(model, flipped, readyRefs, inFlight, vecBatches)
    }

    /** Every cached vector is the normalised embedding of its text. */
    ghost predicate Cached(env: Env)
      reads this`inFlight, inFlight.Values
    {
      CacheOk(env, inFlight)
    }

    method EnqueueVec(p: PendingRef, hash: ContentHash, vec: Vector)
      modifies this`vecBatches
      ensures vecBatches == WithRow(old(vecBatches), BatchOf(p), EmbeddingRow(p.node, hash, vec))
    {
      var key := VecKey(p.repo, p.branch);
      var batch := if key in vecBatches then vecBatches[key] else [];
      vecBatches := vecBatches[key := batch + [EmbeddingRow(p.node, hash, vec)]];
    }

    method MarkReady(p: PendingRef, hash: ContentHash, vec: Vector)
      requires Tied() && hash == HashOf(model, p) && hash in inFlight && inFlight[hash] == vec
      modifies this`vecBatches, this`readyRefs, this`flipped
      ensures Tied() && flipped == old(flipped) + [p]
    {
      readyRefs := readyRefs + [ReadyRef(p.node, hash)];
      EnqueueVec(p, hash, vec);
      flipped := flipped + [p];
      RowAdded(model, old(flipped), old(readyRefs), inFlight, old(vecBatches), p);
    }

    /** A ref whose hash is cached or stored is flipped; any other waits for the embed stage. */
    method ClassifyOne(env: Env, p: PendingRef, existing: map<ContentHash, StoredRow>)
      requires Tied() && Cached(env) && Owned() && TableOk(env, existing) && forall h :: h in inFlight ==> h in existing
      modifies this`inFlight, this`vecBatches, this`readyRefs, this`flipped, this`needsEmbed, this`Repr
      ensures Tied() && Cached(env) && Owned() && forall h :: h in inFlight ==> h in existing
      ensures flipped == old(flipped) + if HashOf(model, p) in existing then [p] else []
      ensures needsEmbed == old(needsEmbed) + if HashOf(model, p) in existing then [] else [p]
      ensures old(Repr) <= Repr && fresh(Repr - old(Repr))
    {
      hide TableOk;
      hide RowsTied;
      hide Canonical;
      var h := HashOf(model, p);
      if h in inFlight {
        MarkReady(p, h, inFlight[h]);
      } else if h in existing {
        StoredIsCanonical(env, existing, h);
        var vec := new Vector(Unpack(existing[h]));
        CacheAdded(model, flipped, readyRefs, inFlight, vecBatches, h, vec);
        inFlight := inFlight[h := vec];
        Repr := Repr + {vec};
        MarkReady(p, h, vec);
      } else {
        needsEmbed := needsEmbed + [p];
      }
    }

    /** One slot per distinct text to embed. */
    ghost predicate Slotted()
      reads this`needsEmbed, this`uniqueByHash, this`uniqueTexts
    {
      SlotsOk(model, needsEmbed, uniqueByHash, uniqueTexts)
    }

    /** Each slot's vector is still the raw embedding, or is the one already normalised and cached. */
    ghost predicate RawOrCached(env: Env)
      reads this`inFlight, this`uniqueTexts, this`uniqueVecs, uniqueVecs
    {
      SlotsRaw(env, model, uniqueTexts, uniqueVecs, inFlight, -1)
    }

    ghost predicate Working(env: Env, start: map<ContentHash, Vector>)
      reads this, inFlight.Values, uniqueVecs
    {
      && Slotted() && Tied() && Cached(env) && RawOrCached(env)
      && Apart(model, uniqueTexts, uniqueVecs, inFlight)
      && InsertsMatch(env, inserts, inFlight.Keys, start.Keys)
    }

    /** One ref of the embed stage: failed, left alone, or flipped against its slot's vector. */
    method PersistOne(env: Env, p: PendingRef, ghost start: map<ContentHash, Vector>)
      requires KeepsLength(env) && Working(env, start) && p in needsEmbed
      modifies this`failed, this`inserts, this`inFlight, this`readyRefs, this`vecBatches, this`flipped, uniqueVecs
      ensures Working(env, start)
      ensures var h := HashOf(model, p); var o := Result(env);
              && failed == old(failed) + (if h in o.broke then [p.node] else [])
              && flipped == old(flipped) + (if h in o.got - o.broke then [p] else [])
    {
      var h := HashOf(model, p);
      var slot := uniqueByHash[h];
      SlotDecides(env, model, needsEmbed, uniqueByHash, uniqueTexts, uniqueVecs, failedTexts, h);
      if uniqueVecs[slot] != null {
        SlotEmptiness(env, slot);
      }
      hide Tied;
      hide Cached;
      hide RawOrCached;
      hide SlotsOk;
      hide Apart;
      hide InsertsMatch;
      hide KeepsLength;
      hide Got;
      hide Broke;
      if slot in failedTexts {
        failed := failed + [p.node];
        return;
      }
      var vec := uniqueVecs[slot];
      if vec == null || vec.data == [] {
        return;
      }
      FlipSlot(env, p, slot, start);
    }

    method FlipSlot(env: Env, p: PendingRef, slot: nat, ghost start: map<ContentHash, Vector>)
      requires KeepsLength(env) && Working(env, start) && slot < |uniqueTexts| == |uniqueVecs| &&
          uniqueTexts[slot] == p.text
      requires forall s :: 0 <= s < |uniqueTexts| && s != slot ==> uniqueTexts[s] != uniqueTexts[slot]
      requires uniqueVecs[slot] != null && uniqueVecs[slot].data != []
      modifies this`inserts, this`inFlight, this`readyRefs, this`vecBatches, this`flipped, uniqueVecs[slot]
      ensures Working(env, start) && flipped == old(flipped) + [p]
    {
      hide Tied;
      hide Cached;
      hide Slotted;
      hide Apart;
      hide InsertsMatch;
      hide KeepsLength;
      var h := HashOf(model, p);
      if h !in inFlight {
        NormalizeAndQueue(env, h, slot, start);
      }
      MarkReady(p, h, inFlight[h]);
    }

    /** Whether a slot's vector is empty does not depend on its having been normalised. */
    lemma SlotEmptiness(env: Env, slot: nat)
      requires KeepsLength(env) && Cached(env) && RawOrCached(env) && slot < |uniqueVecs| && uniqueVecs[slot] != null
      ensures uniqueVecs[slot].data == [] <==> env.embed(model, uniqueTexts[slot]) == []
    {
      var e := env.embed(model, uniqueTexts[slot]);
      assert |env.normalize(e)| == |e|;
      assert SlotRaw(env, model, uniqueTexts[slot], uniqueVecs[slot], inFlight);
    }

    /** First sight of a hash: its vector is normalised in place, queued for insertion and cached. */
    method NormalizeAndQueue(env: Env, h: ContentHash, slot: nat, ghost start: map<ContentHash, Vector>)
      requires KeepsLength(env) && Working(env, start) && h !in inFlight
      requires slot < |uniqueTexts| == |uniqueVecs| && h == ContentHash(model, uniqueTexts[slot])
      requires forall s :: 0 <= s < |uniqueTexts| && s != slot ==> uniqueTexts[s] != uniqueTexts[slot]
      requires uniqueVecs[slot] != null && uniqueVecs[slot].data != []
      modifies this`inserts, this`inFlight, uniqueVecs[slot]
      ensures Working(env, start) && h in inFlight && inFlight[h] == uniqueVecs[slot]
    {
      hide RowsTied;
      hide Slotted;
      hide KeepsLength;
      hide Apart;
      hide InsertsMatch;
      hide Encode;
      hide CacheOk;
      hide SlotsRaw;
      SlotStillRaw(env, slot);
      var vec := NormalizeSlot(env, slot);
      CanonicalRow(env, h, vec.data);
      hide RowOk;
      hide Canonical;
      ApartCached(model, uniqueTexts, uniqueVecs, inFlight, slot);
      InsertQueued(env, inserts, inFlight.Keys, start.Keys, Insert(h, Pack(vec.data)));
      CacheAdded(model, flipped, readyRefs, inFlight, vecBatches, h, vec);
      CacheGrows(env, inFlight, h, vec);
      SlotsRawGrow(env, model, uniqueTexts, uniqueVecs, inFlight, slot);
      inserts := inserts + [Insert(h, StoredRow(|vec.data|, Encode(vec.data)))];
      assert inFlight[h := vec].Keys == inFlight.Keys + {h};
      inFlight := inFlight[h := vec];
    }

    lemma SlotStillRaw(env: Env, slot: nat)
      requires RawOrCached(env) && slot < |uniqueVecs| && uniqueVecs[slot] != null
      requires ContentHash(model, uniqueTexts[slot]) !in inFlight
      ensures uniqueVecs[slot].data == env.embed(model, uniqueTexts[slot])
    {
      assert SlotRaw(env, model, uniqueTexts[slot], uniqueVecs[slot], inFlight);
    }

    /** Normalises one slot's vector in place; no cached vector and no other slot's is touched. */
    method NormalizeSlot(env: Env, slot: nat) returns (vec: Vector)
      requires Apart(model, uniqueTexts, uniqueVecs, inFlight) && slot < |uniqueVecs| && uniqueVecs[slot] != null
      requires ContentHash(model, uniqueTexts[slot]) !in inFlight && Cached(env) && RawOrCached(env)
      modifies uniqueVecs[slot]
      ensures vec == uniqueVecs[slot] && vec.data == env.normalize(old(uniqueVecs[slot].data))
      ensures Cached(env) && SlotsRaw(env, model, uniqueTexts, uniqueVecs, inFlight, slot)
    {
      ApartCached(model, uniqueTexts, uniqueVecs, inFlight, slot);
      hide Apart;
      hide Canonical;
      vec := uniqueVecs[slot];
      L2Normalize(env, vec);
      forall k | k in inFlight ensures inFlight[k].data == old(inFlight[k].data) {
      }
      forall s | 0 <= s < |uniqueVecs| && s != slot && uniqueVecs[s] != null
        ensures SlotRaw(env, model, uniqueTexts[s], uniqueVecs[s], inFlight)
      {
        assert old(SlotRaw(env, model, uniqueTexts[s], uniqueVecs[s], inFlight));
      }
    }

    ghost function Result(env: Env): Outcome
      reads this`acquireErr, this`uniqueTexts, this`uniqueVecs, this`failedTexts
      requires |uniqueVecs| == |uniqueTexts|
    {
      Outcome(!acquireErr, Got(env, model, uniqueTexts, uniqueVecs), Broke(model, uniqueTexts, failedTexts))
    }
  }

  /** No two slots share a vector, and a cached vector is shared only with its own slot. */
  ghost predicate Apart(model: Text, texts: seq<Text>, vecs: seq<Vector?>, inFlight: map<ContentHash, Vector>) {
    && |vecs| == |texts|
    && (forall s, t :: 0 <= s < t < |vecs| && vecs[s] != null ==> vecs[s] != vecs[t])
    && (forall h, s :: h in inFlight && 0 <= s < |vecs| && inFlight[h] == vecs[s] ==> h == ContentHash(model, texts[s]))
  }

  lemma ApartCached(model: Text, texts: seq<Text>, vecs: seq<Vector?>, inFlight: map<ContentHash, Vector>, slot: nat)
    requires Apart(model, texts, vecs, inFlight) && slot < |vecs| && vecs[slot] != null
    ensures Apart(model, texts, vecs, inFlight[ContentHash(model, texts[slot]) := vecs[slot]])
    ensures forall s :: 0 <= s < |vecs| && s != slot ==> vecs[s] != vecs[slot]
    ensures forall h :: h in inFlight && inFlight[h] == vecs[slot] ==> h == ContentHash(model, texts[slot])
  {
  }

  /** Exactly the hashes cached since start are queued for insertion, once each, packed. */
  ghost predicate InsertsMatch(env: Env, inserts: seq<Insert>, cached: set<ContentHash>, start: set<ContentHash>) {
    && start <= cached
    && (forall a, b :: 0 <= a < b < |inserts| ==> inserts[a].hash != inserts[b].hash)
    && (forall i :: i in inserts ==> RowOk(env, i.hash, i.row))
    && (forall h :: Inserted(inserts, h) <==> h in cached && h !in start)
  }

  lemma InsertQueued(env: Env, inserts: seq<Insert>, cached: set<ContentHash>, start: set<ContentHash>, i: Insert)
    requires InsertsMatch(env, inserts, cached, start) && i.hash !in cached && RowOk(env, i.hash, i.row)
    ensures InsertsMatch(env, inserts + [i], cached + {i.hash}, start)
  {
    hide RowOk;
    var all := inserts + [i];
    assert i in all;
    forall h ensures Inserted(all, h) <==> Inserted(inserts, h) || h == i.hash {
      if Inserted(inserts, h) {
        var k :| k in inserts && k.hash == h;
        assert k in all;
      }
    }
    forall a | 0 <= a < |inserts| ensures inserts[a].hash != i.hash {
      assert inserts[a] in inserts;
      assert Inserted(inserts, inserts[a].hash);
    }
  }

  ghost predicate SlotsOk(model: Text, needs: seq<PendingRef>, byHash: map<ContentHash, nat>, texts: seq<Text>) {
    && texts == Unique(needs)
    && (forall h :: h in byHash ==> byHash[h] < |texts| && h == ContentHash(model, texts[byHash[h]]))
    && (forall p :: p in needs ==> HashOf(model, p) in byHash)
  }

  /** The hashes whose text came back with a non-empty vector. */
  ghost function Got(env: Env, model: Text, texts: seq<Text>, vecs: seq<Vector?>): iset<ContentHash>
    requires |vecs| == |texts|
  {
    iset h: ContentHash | CameBack(env, model, texts, vecs, h)
  }

  ghost function Broke(model: Text, texts: seq<Text>, failed: set<nat>): iset<ContentHash> {
    iset h: ContentHash | FailedSlot(model, texts, failed, h)
  }

  ghost predicate CameBack(env: Env, model: Text, texts: seq<Text>, vecs: seq<Vector?>, h: ContentHash)
    requires |vecs| == |texts|
  {
    exists s :: 0 <= s < |texts| && h == ContentHash(model, texts[s]) && vecs[s] != null &&
        env.embed(model, texts[s]) != []
  }

  ghost predicate FailedSlot(model: Text, texts: seq<Text>, failed: set<nat>, h: ContentHash) {
    exists s :: s in failed && s < |texts| && h == ContentHash(model, texts[s])
  }

  /** The slot of a hash tells whether it failed or came back. */
  lemma SlotDecides(env: Env, model: Text, needs: seq<PendingRef>, byHash: map<ContentHash, nat>, texts: seq<Text>,
                    vecs: seq<Vector?>, failed: set<nat>, h: ContentHash)
    requires SlotsOk(model, needs, byHash, texts) && |vecs| == |texts| && h in byHash
    ensures byHash[h] < |texts| && h == ContentHash(model, texts[byHash[h]])
    ensures forall s :: 0 <= s < |texts| && s != byHash[h] ==> texts[s] != texts[byHash[h]]
    ensures h in Broke(model, texts, failed) <==> byHash[h] in failed
    ensures h in Got(env, model, texts, vecs) <==> vecs[byHash[h]] != null && env.embed(model, texts[byHash[h]]) != []
  {
    UniqueFacts(needs);
    assert forall s :: 0 <= s < |texts| && h == ContentHash(model, texts[s]) ==> s == byHash[h];
  }

  lemma CanonicalRow(env: Env, h: ContentHash, v: Vec)
    requires v == env.normalize(env.embed(h.model, h.text)) && env.embed(h.model, h.text) != [] && KeepsLength(env)
    ensures RowOk(env, h, Pack(v)) && v == Canonical(env, h) && v != []
  {
    assert |env.normalize(env.embed(h.model, h.text))| == |env.embed(h.model, h.text)|;
  }

  // ---------- classify ----------

  method Classify(env: Env, model: Text, pending: seq<PendingRef>, existing: map<ContentHash, StoredRow>)
    returns (job: BatchJob)
    requires TableOk(env, existing)
    ensures fresh(job.Repr) && job.Owned() && job.model == model
    ensures job.Tied() && job.Cached(env) && job.Slotted()
    ensures job.flipped == Pick(model, KeysOf(existing), pending)
    ensures job.needsEmbed == Pick(model, Missing(KeysOf(existing)), pending)
    ensures forall h :: h in job.inFlight ==> h in existing
    ensures forall t :: t in job.uniqueTexts ==> ContentHash(model, t) !in existing
    ensures job.inserts == [] && job.failed == [] && job.uniqueVecs == [] && job.failedTexts == {} && !job.acquireErr
  {
    hide *;
    job := new BatchJob(model);
    ghost var hits, misses := KeysOf(existing), Missing(KeysOf(existing));
    NewJobReady(env, job);
    PickNone(model, hits);
    PickNone(model, misses);
    assert pending[..0] == [];
    for i := 0 to |pending|
      invariant fresh(job) && fresh(job.Repr) && job.model == model
      invariant job.Tied() && job.Cached(env) && job.Owned()
      invariant job.flipped == Pick(model, hits, pending[..i]) && job.needsEmbed == Pick(model, misses, pending[..i])
      invariant forall h :: h in job.inFlight ==> h in existing
      invariant job.inserts == [] && job.failed == [] && job.uniqueVecs == [] && job.failedTexts == {} &&
          !job.acquireErr
      invariant job.uniqueByHash == map[] && job.uniqueTexts == []
    {
      HitOrMiss(model, existing, pending, i);
      job.ClassifyOne(env, pending[i], existing);
    }
    assert pending[..|pending|] == pending;
    Deduplicate(job);
    SlotTexts(job);
    OnlyMissesAsked(model, existing, pending, job.uniqueTexts);
  }

  lemma NewJobReady(env: Env, job: BatchJob)
    requires job.inFlight == map[] && job.vecBatches == map[] && job.readyRefs == [] && job.flipped == []
    requires job.uniqueVecs == [] && job.Repr == {job}
    ensures job.Tied() && job.Cached(env) && job.Owned()
  {
  }

  lemma SlotTexts(job: BatchJob)
    requires job.Slotted()
    ensures job.uniqueTexts == Unique(job.needsEmbed)
  {
  }

  lemma HitOrMiss(model: Text, existing: map<ContentHash, StoredRow>, ps: seq<PendingRef>, i: nat)
    requires i < |ps|
    ensures var hit := HashOf(model, ps[i]) in existing;
            && Pick(model, KeysOf(existing), ps[..i + 1]) == Pick(model, KeysOf(existing),
                ps[..i]) + (if hit then [ps[i]] else [])
            && Pick(model, Missing(KeysOf(existing)), ps[..i + 1]) == Pick(model, Missing(KeysOf(existing)),
                ps[..i]) + (if hit then [] else [ps[i]])
  {
    assert ps[..i + 1] == ps[..i] + [ps[i]];
    PickStep(model, KeysOf(existing), ps[..i], ps[i]);
    PickStep(model, Missing(KeysOf(existing)), ps[..i], ps[i]);
    hide Pick;
  }

  /** Only texts without a stored embedding are asked for, each once. */
  lemma OnlyMissesAsked(model: Text, existing: map<ContentHash, StoredRow>, pending: seq<PendingRef>, texts: seq<Text>)
    requires texts == Unique(Pick(model, Missing(KeysOf(existing)), pending))
    ensures forall t :: t in texts <==> ContentHash(model, t) !in existing && exists p :: p in pending && p.text == t
    ensures forall a, b :: 0 <= a < b < |texts| ==> texts[a] != texts[b]
  {
    var needs := Pick(model, Missing(KeysOf(existing)), pending);
    UniqueFacts(needs);
    forall t ensures t in texts <==> ContentHash(model, t) !in existing && exists p :: p in pending && p.text == t {
      if p :| p in needs && p.text == t {
        PickMember(model, Missing(KeysOf(existing)), pending, p);
      }
      if ContentHash(model, t) !in existing {
        forall p | p in pending && p.text == t ensures p in needs {
          PickMember(model, Missing(KeysOf(existing)), pending, p);
        }
      }
    }
  }

  lemma StoredIsCanonical(env: Env, table: map<ContentHash, StoredRow>, h: ContentHash)
    requires TableOk(env, table) && h in table
    ensures Unpack(table[h]) == Canonical(env, h) && Canonical(env, h) != []
  {
    Unpacks(Canonical(env, h));
  }

  /** One slot per distinct hash, first seen first. */
  method Deduplicate(job: BatchJob)
    requires job.uniqueByHash == map[] && job.uniqueTexts == []
    modifies job`uniqueByHash, job`uniqueTexts
    ensures job.Slotted()
  {
    assert job.needsEmbed[..0] == [];
    for i := 0 to |job.needsEmbed|
      invariant SlotsOk(job.model, job.needsEmbed[..i], job.uniqueByHash, job.uniqueTexts)
    {
      var p := job.needsEmbed[i];
      var h := HashOf(job.model, p);
      assert job.needsEmbed[..i + 1] == job.needsEmbed[..i] + [p] &&
          job.needsEmbed[..i + 1][..i] == job.needsEmbed[..i];
      SlotKnown(job.model, job.needsEmbed[..i], job.uniqueByHash, job.uniqueTexts, p);
      if h !in job.uniqueByHash {
        job.uniqueByHash := job.uniqueByHash[h := |job.uniqueTexts|];
        job.uniqueTexts := job.uniqueTexts + [p.text];
      }
    }
    assert job.needsEmbed[..|job.needsEmbed|] == job.needsEmbed;
  }

  lemma SlotKnown(model: Text, needs: seq<PendingRef>, byHash: map<ContentHash, nat>, texts: seq<Text>, p: PendingRef)
    requires SlotsOk(model, needs, byHash, texts)
    ensures HashOf(model, p) in byHash <==> p.text in texts
  {
    UniqueFacts(needs);
    if p.text in texts {
      var q :| q in needs && q.text == p.text;
      assert HashOf(model, q) == HashOf(model, p);
    }
  }

  // ---------- embed ----------

  /** What the provider says to one text: a vector, an error, or no vector and no error. */
  datatype Reply = Answers | Refuses | Silent

  /** Whether a batched call is offered, and how it ends. */
  datatype BatchCall = Unsupported | BatchFails | BatchReturns

  datatype Provider = Provider(batch: BatchCall, reply: Text -> Reply)

  /** What becomes of one of count texts: a failed batched call fails all, one that returns fails none. */
  ghost function Answer(pr: Provider, count: nat, t: Text): Reply {
    if count <= 1 || pr.batch.Unsupported? then pr.reply(t)
    else if pr.batch.BatchFails? then Refuses
    else if pr.reply(t).Answers? then Answers
    else Silent
  }

  /** A slot after the call: the raw embedding, a failure mark, or neither. */
  ghost predicate Told(env: Env, model: Text, t: Text, a: Reply, v: Vector?, marked: bool)
    reads v
  {
    && (v != null <==> a.Answers?)
    && (v != null ==> v.data == env.embed(model, t))
    && (marked <==> a.Refuses?)
  }

  /** One batched call, or one call per text. Vectors come back newly allocated. */
  method EmbedTexts(env: Env, model: Text, texts: seq<Text>, pr: Provider)
    returns (vecs: seq<Vector?>, failed: set<nat>)
    ensures |vecs| == |texts| && forall s :: s in failed ==> s < |texts|
    ensures forall s :: 0 <= s < |vecs| ==>
        Told(env, model, texts[s], Answer(pr, |texts|, texts[s]), vecs[s], s in failed)
    ensures forall s :: 0 <= s < |vecs| && vecs[s] != null ==> fresh(vecs[s])
    ensures forall s, t :: 0 <= s < t < |vecs| && vecs[s] != null ==> vecs[s] != vecs[t]
  {
    vecs, failed := [], {};
    var whole := pr.batch != Unsupported && |texts| > 1;
    if whole && pr.batch == BatchFails {
      vecs := seq(|texts|, i => null);
      for i := 0 to |texts|
        invariant forall s :: s in failed <==> 0 <= s < i
      {
        failed := failed + {i};
      }
      return;
    }
    for i := 0 to |texts|
      invariant |vecs| == i && forall s :: s in failed ==> s < i
      invariant forall s :: 0 <= s < i ==>
          Told(env, model, texts[s], Answer(pr, |texts|, texts[s]), vecs[s], s in failed)
      invariant forall s :: 0 <= s < i && vecs[s] != null ==> fresh(vecs[s])
      invariant forall s, t :: 0 <= s < t < i && vecs[s] != null ==> vecs[s] != vecs[t]
    {
      var r := pr.reply(texts[i]);
      if r == Answers {
        var v := new Vector(env.embed(model, texts[i]));
        vecs := vecs + [v];
      } else if r == Refuses && !whole {
        vecs, failed := vecs + [null], failed + {i};
      } else {
        vecs := vecs + [null];
      }
    }
  }

  /** What the embed stage comes to for these texts: without a permit nothing is asked. */
  ghost function Asked(env: Env, model: Text, texts: seq<Text>, permit: bool, pr: Provider): Outcome {
    if texts != [] && !permit then Outcome(false, iset{}, iset{})
    else Outcome(true,
        iset h: ContentHash | h.model == model && h.text in texts && env.embed(model, h.text) != [] &&
            Answer(pr, |texts|, h.text).Answers?,
        iset h: ContentHash | h.model == model && h.text in texts && Answer(pr, |texts|, h.text).Refuses?)
  }

  method EmbedJob(env: Env, job: BatchJob, permit: bool, pr: Provider)
    requires job.Tied() && job.Cached(env) && job.Slotted() && job.Owned() && job.inserts == []
    requires job.uniqueVecs == [] && job.failedTexts == {} && !job.acquireErr
    requires forall t :: t in job.uniqueTexts ==> ContentHash(job.model, t) !in job.inFlight
    modifies job`acquireErr, job`uniqueVecs, job`failedTexts, job`Repr
    ensures job.Working(env, job.inFlight) && job.Owned() && fresh(job.Repr - old(job.Repr)) &&
        old(job.Repr) <= job.Repr
    ensures |job.uniqueVecs| == |job.uniqueTexts| &&
        job.Result(env) == Asked(env, job.model, job.uniqueTexts, permit, pr)
  {
    hide Got, Broke, Asked, Answer, CacheOk, SlotsOk, RowsTied;
    if job.uniqueTexts == [] {
      ToldIsAsked(env, job.model, job.uniqueTexts, job.uniqueVecs, job.failedTexts, permit, pr);
      return;
    }
    if !permit {
      job.acquireErr := true;
      job.uniqueVecs := seq(|job.uniqueTexts|, i => null);
      NothingTold(env, job.model, job.uniqueTexts, job.uniqueVecs, pr);
      return;
    }
    var vecs, failed := EmbedTexts(env, job.model, job.uniqueTexts, pr);
    job.uniqueVecs, job.failedTexts := vecs, failed;
    job.Repr := job.Repr + set s | 0 <= s < |vecs| && vecs[s] != null :: vecs[s] as object;
    ToldIsAsked(env, job.model, job.uniqueTexts, vecs, failed, permit, pr);
  }

  lemma NothingTold(env: Env, model: Text, texts: seq<Text>, vecs: seq<Vector?>, pr: Provider)
    requires texts != [] && |vecs| == |texts| && forall s :: 0 <= s < |vecs| ==> vecs[s] == null
    ensures Outcome(false, Got(env, model, texts, vecs), Broke(model, texts, {})) ==
        Asked(env, model, texts, false, pr)
  {
  }

  lemma ToldIsAsked(env: Env, model: Text, texts: seq<Text>, vecs: seq<Vector?>, failed: set<nat>, permit: bool,
                    pr: Provider)
    requires |vecs| == |texts| && (forall s :: s in failed ==> s < |texts|) && (texts == [] || permit)
    requires forall s :: 0 <= s < |vecs| ==>
        Told(env, model, texts[s], Answer(pr, |texts|, texts[s]), vecs[s], s in failed)
    ensures Outcome(true, Got(env, model, texts, vecs), Broke(model, texts, failed)) ==
        Asked(env, model, texts, permit, pr)
  {
    hide Answer;
    var o := Asked(env, model, texts, permit, pr);
    forall h ensures h in Got(env, model, texts, vecs) <==> h in o.got {
      if h in o.got {
        var s :| 0 <= s < |texts| && texts[s] == h.text;
        assert Told(env, model, texts[s], Answer(pr, |texts|, texts[s]), vecs[s], s in failed);
      }
    }
    forall h ensures h in Broke(model, texts, failed) <==> h in o.broke {
      if h in o.broke {
        var s :| 0 <= s < |texts| && texts[s] == h.text;
        assert Told(env, model, texts[s], Answer(pr, |texts|, texts[s]), vecs[s], s in failed);
      }
    }
  }

  // ---------- the stores ----------

  /** The durable side; a transaction commits whole or not at all. */
  class Store {
    var db: Db

    method ApplyEmbedBatch(w: Writes, maxAttempts: int, commits: bool) returns (ok: bool)
      modifies this
      ensures ok == commits && db == if ok then Apply(old(db), w, maxAttempts) else old(db)
    {
      ok := commits;
      if ok {
        db := Apply(db, w, maxAttempts);
      }
    }
  }

  /** The vector index; an upsert that fails may have taken some of its rows. */
  class VecIndex {
    var rows: Index

    method UpsertEmbeddings(k: VecKey, batch: seq<EmbeddingRow>, accepts: bool, ghost all: iset<VecRow>)
      returns (ok: bool)
      requires forall r :: r in batch ==> VecRow(IndexKey(k.repo, k.branch, r.node), r.hash, r.vec.data) in all
      modifies this
      ensures Upserted(old(rows), rows, all)
      ensures ok == accepts && (ok ==> BucketLanded(k, batch, rows, all))
    {
      for i := 0 to |batch|
        invariant Upserted(old(rows), rows, all)
        invariant forall j :: 0 <= j < i ==> Landed(rows, all, IndexKey(k.repo, k.branch, batch[j].node))
      {
        var stops: bool := *;
        if !accepts && stops {
          return false;
        }
        var r := batch[i];
        ghost var v := VecRow(IndexKey(k.repo, k.branch, r.node), r.hash, r.vec.data);
        assert r in batch && v in all;
        rows := rows[IndexKey(k.repo, k.branch, r.node) := r.vec.data];
      }
      ok := accepts;
    }
  }

  /** The entry at k is one of the rows. */
  ghost predicate Landed(index: Index, rows: iset<VecRow>, k: IndexKey) {
    k in index && exists v :: v in rows && v.key == k && index[k] == v.vec
  }

  ghost predicate BucketLanded(b: VecKey, rows: seq<EmbeddingRow>, index: Index, all: iset<VecRow>) {
    forall r :: r in rows ==> Landed(index, all, IndexKey(b.repo, b.branch, r.node))
  }

  lemma LandedStays(a: Index, b: Index, rows: iset<VecRow>, k: IndexKey)
    requires Landed(a, rows, k) && Upserted(a, b, rows)
    ensures Landed(b, rows, k)
  {
  }

  lemma UpsertedTrans(a: Index, b: Index, c: Index, rows: iset<VecRow>)
    requires Upserted(a, b, rows) && Upserted(b, c, rows)
    ensures Upserted(a, c, rows)
  {
  }

  // ---------- persist ----------

  /** The refs fetched are the database's own, pending, and distinct. */
  ghost predicate PendingOk(db: Db, ps: seq<PendingRef>) {
    && DistinctNodes(ps)
    && (forall p :: p in ps ==> p.node in db.refs && db.refs[p.node].state.Pending?)
    && (forall p :: p in ps ==>
        db.refs[p.node].repo == p.repo && db.refs[p.node].branch == p.branch && db.refs[p.node].text == p.text)
  }

  ghost predicate Within(a: map<ContentHash, StoredRow>, b: map<ContentHash, StoredRow>) {
    forall h :: h in a ==> h in b && b[h] == a[h]
  }

  /** The vectors a batch owes its flipped refs: each the one its own text alone would give. */
  ghost function RowsOf(env: Env, model: Text, flipped: seq<PendingRef>): iset<VecRow> {
    iset v: VecRow | OwnRow(env, model, flipped, v)
  }

  ghost predicate OwnRow(env: Env, model: Text, flipped: seq<PendingRef>, v: VecRow) {
    exists p :: p in flipped && v == VecRow(KeyOf(p), HashOf(model, p), Canonical(env, HashOf(model, p)))
  }

  lemma FlipsOk(env: Env, db: Db, model: Text, existing: map<ContentHash, StoredRow>, ps: seq<PendingRef>,
                flipped: seq<PendingRef>,
                inserts: seq<Insert>, cached: set<ContentHash>, start: set<ContentHash>, failed: seq<NodeId>)
    requires PendingOk(db, ps) && Within(existing, db.table) && DistinctNodes(flipped) && forall p :: p in flipped ==>
        p in ps
    requires InsertsMatch(env, inserts, cached, start) && (forall h :: h in start ==> h in existing)
    requires forall p :: p in flipped ==> HashOf(model, p) in cached
    ensures WritesOk(env, db, Writes(inserts, FlipAll(model, flipped), failed))
    ensures RowsOk(env, db, Writes(inserts, FlipAll(model, flipped), failed), RowsOf(env, model, flipped))
  {
    hide RowOk;
    var ready := FlipAll(model, flipped);
    forall r | r in ready
      ensures r.node in db.refs && db.refs[r.node].state.Pending? && r.hash.text == db.refs[r.node].text
      ensures r.hash in db.table || Inserted(inserts, r.hash)
    {
      var i :| 0 <= i < |flipped| && ready[i] == r;
      assert flipped[i] in flipped;
    }
    forall v | v in RowsOf(env, model, flipped)
      ensures ReadyRef(v.key.node, v.hash) in ready && v.vec == Canonical(env, v.hash)
      ensures v.key.node in db.refs && db.refs[v.key.node].repo == v.key.repo &&
          db.refs[v.key.node].branch == v.key.branch
    {
      var p :| p in flipped && v == VecRow(KeyOf(p), HashOf(model, p), Canonical(env, HashOf(model, p)));
      var i :| 0 <= i < |flipped| && flipped[i] == p;
      assert ready[i] == ReadyRef(v.key.node, v.hash);
    }
  }

  /** Everything known of a job before persist: classified against existing, embedded with outcome o, unwritten. */
  ghost predicate Prepared(env: Env, job: BatchJob, existing: map<ContentHash, StoredRow>, ps: seq<PendingRef>,
                           o: Outcome)
    reads job, job.inFlight.Values, job.uniqueVecs
  {
    && |job.uniqueVecs| == |job.uniqueTexts| && job.Result(env) == o
    && job.Working(env, job.inFlight) && job.Owned() && job.inserts == [] && job.failed == []
    && job.flipped == Pick(job.model, KeysOf(existing), ps)
    && job.needsEmbed == Pick(job.model, Missing(KeysOf(existing)), ps)
    && (forall h :: h in job.inFlight ==> h in existing)
  }

  /** Turns the embed results into the batch's writes. */
  method BuildWrites(env: Env, job: BatchJob, ghost existing: map<ContentHash, StoredRow>, ghost ps: seq<PendingRef>,
                     ghost o: Outcome)
    requires KeepsLength(env) && Prepared(env, job, existing, ps, o)
    modifies job, job.uniqueVecs
    ensures job.Working(env, old(job.inFlight))
    ensures job.flipped == ReadyList(job.model, KeysOf(existing), o, ps)
    ensures job.failed == NodesOf(FailedList(job.model, KeysOf(existing), o, ps))
  {
    hide *;
    PreparedParts(env, job, existing, ps, o);
    ghost var start, hits := job.inFlight, job.flipped;
    var needs := job.needsEmbed;
    OutcomeLists(job, env, existing, ps, o, needs, 0);
    if !job.acquireErr {
      assert needs[..0] == [];
      for i := 0 to |needs|
        invariant job.Working(env, start) && |job.uniqueVecs| == |job.uniqueTexts|
        invariant job.needsEmbed == needs && job.Result(env) == o && job.uniqueVecs == old(job.uniqueVecs)
        invariant job.flipped == hits + Pick(job.model, o.got - o.broke, needs[..i])
        invariant job.failed == NodesOf(Pick(job.model, o.broke, needs[..i]))
      {
        OutcomeLists(job, env, existing, ps, o, needs, i);
        job.PersistOne(env, needs[i], start);
      }
      assert needs[..|needs|] == needs;
    }
  }

  lemma PreparedParts(env: Env, job: BatchJob, existing: map<ContentHash, StoredRow>, ps: seq<PendingRef>, o: Outcome)
    requires Prepared(env, job, existing, ps, o)
    ensures |job.uniqueVecs| == |job.uniqueTexts| && job.Result(env) == o
    ensures job.Working(env, job.inFlight) && job.inserts == [] && job.failed == []
    ensures job in job.Repr && forall v :: v in job.uniqueVecs && v != null ==> v in job.Repr
    ensures job.flipped == Pick(job.model, KeysOf(existing), ps) &&
        job.needsEmbed == Pick(job.model, Missing(KeysOf(existing)), ps)
    ensures forall h :: h in job.inFlight ==> h in existing
  {
  }

  /** How the lists grow by one ref, and what they come to at the ends. */
  lemma OutcomeLists(job: BatchJob, env: Env, existing: map<ContentHash, StoredRow>, ps: seq<PendingRef>, o: Outcome,
                     needs: seq<PendingRef>, i: nat)
    requires |job.uniqueVecs| == |job.uniqueTexts| && o == job.Result(env) && i <= |needs|
    requires needs == Pick(job.model, Missing(KeysOf(existing)), ps)
    ensures o.permit == !job.acquireErr && Pick(job.model, o.got - o.broke, []) == [] &&
        NodesOf(Pick(job.model, o.broke, [])) == []
    ensures i < |needs| ==>
              var h := HashOf(job.model, needs[i]);
              && Pick(job.model, o.got - o.broke, needs[..i + 1]) == Pick(job.model, o.got - o.broke,
                  needs[..i]) + (if h in o.got - o.broke then [needs[i]] else [])
              && NodesOf(Pick(job.model, o.broke, needs[..i + 1])) == NodesOf(Pick(job.model, o.broke,
                  needs[..i])) + (if h in o.broke then [needs[i].node] else [])
    ensures ReadyList(job.model, KeysOf(existing), o, ps) ==
              Pick(job.model, KeysOf(existing), ps) + if o.permit then Pick(job.model, o.got - o.broke, needs) else []
    ensures NodesOf(FailedList(job.model, KeysOf(existing), o, ps)) == if o.permit then NodesOf(Pick(job.model,
        o.broke, needs)) else []
  {
    hide Got;
    hide Broke;
    if i < |needs| {
      assert needs[..i + 1] == needs[..i] + [needs[i]];
      PickStep(job.model, o.got - o.broke, needs[..i], needs[i]);
      PickStep(job.model, o.broke, needs[..i], needs[i]);
    }
  }

  /** The row an index entry would be, read off a batch row. */
  ghost function AsRow(k: VecKey, r: EmbeddingRow): VecRow
    reads r.vec
  {
    VecRow(IndexKey(k.repo, k.branch, r.node), r.hash, r.vec.data)
  }

  lemma BatchRowsOwned(env: Env, job: BatchJob, k: VecKey, r: EmbeddingRow)
    requires job.Tied() && job.Cached(env) && k in job.vecBatches && r in job.vecBatches[k]
    ensures VecRow(IndexKey(k.repo, k.branch, r.node), r.hash, r.vec.data) in RowsOf(env, job.model, job.flipped)
  {
    assert Owes(job.model, job.flipped, job.inFlight, k, r);
    var p :| p in job.flipped && BatchOf(p) == k && r == Owed(job.model, job.inFlight, p);
    assert AsRow(k, r) == VecRow(KeyOf(p), HashOf(job.model, p), Canonical(env, HashOf(job.model, p)));
  }

  /** The ref's own entry holds the normalised embedding of its own text. */
  ghost predicate Indexed(env: Env, model: Text, index: Index, p: PendingRef) {
    KeyOf(p) in index && index[KeyOf(p)] == Canonical(env, HashOf(model, p))
  }

  /** Every flipped ref whose bucket the index takes is indexed. */
  ghost predicate AllIndexed(env: Env, model: Text, index: Index, flipped: seq<PendingRef>, accepts: VecKey -> bool) {
    forall p :: p in flipped && accepts(BatchOf(p)) ==> Indexed(env, model, index, p)
  }

  /** The entry of a flipped ref can come from its own row only. */
  lemma LandedIsIndexed(env: Env, model: Text, flipped: seq<PendingRef>, index: Index, p: PendingRef)
    requires DistinctNodes(flipped) && p in flipped && Landed(index, RowsOf(env, model, flipped), KeyOf(p))
    ensures Indexed(env, model, index, p)
  {
    hide Canonical;
    var v :| v in RowsOf(env, model, flipped) && v.key == KeyOf(p) && index[KeyOf(p)] == v.vec;
    var q :| q in flipped && v == VecRow(KeyOf(q), HashOf(model, q), Canonical(env, HashOf(model, q)));
    var a :| 0 <= a < |flipped| && flipped[a] == p;
    var b :| 0 <= b < |flipped| && flipped[b] == q;
  }

  lemma BucketsIndexed(env: Env, job: BatchJob, index: Index, accepts: VecKey -> bool)
    requires job.Tied() && DistinctNodes(job.flipped)
    requires forall b :: b in job.vecBatches && accepts(b) ==>
        BucketLanded(b, job.vecBatches[b], index, RowsOf(env, job.model, job.flipped))
    ensures AllIndexed(env, job.model, index, job.flipped, accepts)
  {
    hide RowsOf, Landed, Indexed;
    forall p | p in job.flipped && accepts(BatchOf(p)) ensures Indexed(env, job.model, index, p) {
      var b := BatchOf(p);
      assert b in job.vecBatches && Owed(job.model, job.inFlight, p) in job.vecBatches[b];
      assert KeyOf(p) == IndexKey(b.repo, b.branch, p.node);
      LandedIsIndexed(env, job.model, job.flipped, index, p);
    }
  }

  lemma BucketStays(b: VecKey, rows: seq<EmbeddingRow>, index: Index, index': Index, all: iset<VecRow>)
    requires BucketLanded(b, rows, index, all) && Upserted(index, index', all)
    ensures BucketLanded(b, rows, index', all)
  {
    hide Upserted, Landed;
    forall r | r in rows ensures Landed(index', all, IndexKey(b.repo, b.branch, r.node)) {
      LandedStays(index, index', all, IndexKey(b.repo, b.branch, r.node));
    }
  }

  /** Upserts every bucket of vectors; a refused one is passed over. */
  method UpsertAll(env: Env, job: BatchJob, index: VecIndex, accepts: VecKey -> bool)
    requires job.Tied() && job.Cached(env) && DistinctNodes(job.flipped)
    modifies index
    ensures Upserted(old(index.rows), index.rows, RowsOf(env, job.model, job.flipped))
    ensures AllIndexed(env, job.model, index.rows, job.flipped, accepts)
  {
    hide *;
    ghost var all := RowsOf(env, job.model, job.flipped);
    UpsertedNone(index.rows, all);
    var rest := job.vecBatches.Keys;
    while rest != {}
      invariant rest <= job.vecBatches.Keys && Upserted(old(index.rows), index.rows, all)
      invariant forall b :: b in job.vecBatches && b !in rest && accepts(b) ==>
          BucketLanded(b, job.vecBatches[b], index.rows, all)
    {
      var k :| k in rest;
      rest := rest - {k};
      forall r | r in job.vecBatches[k]
        ensures VecRow(IndexKey(k.repo, k.branch, r.node), r.hash, r.vec.data) in all
      {
        BatchRowsOwned(env, job, k, r);
      }
      ghost var before := index.rows;
      var _ := index.UpsertEmbeddings(k, job.vecBatches[k], accepts(k), all);
      UpsertedTrans(old(index.rows), before, index.rows, all);
      forall b | b in job.vecBatches && b !in rest && b != k && accepts(b)
        ensures BucketLanded(b, job.vecBatches[b], index.rows, all)
      {
        BucketStays(b, job.vecBatches[b], before, index.rows, all);
      }
    }
    BucketsIndexed(env, job, index.rows, accepts);
  }

  lemma UpsertedNone(index: Index, all: iset<VecRow>)
    ensures Upserted(index, index, all)
  {
  }

  /** Writes one batch: in one transaction, and then, only if it committed, to the index. */
  method Persist(env: Env, job: BatchJob, store: Store, index: VecIndex, maxAttempts: int, commits: bool,
                 accepts: VecKey -> bool, ghost existing: map<ContentHash, StoredRow>, ghost ps: seq<PendingRef>,
                 ghost o: Outcome)
    returns (ghost ready: seq<PendingRef>, ghost writes: Writes)
    requires KeepsLength(env) && Prepared(env, job, existing, ps, o)
    requires PendingOk(store.db, ps) && Within(existing, store.db.table)
    modifies job.Repr, store, index
    // the refs flipped and failed are exactly those with that fate, and each vector is its own text's
    ensures ready == ReadyList(job.model, KeysOf(existing), o, ps)
    ensures writes == Writes(writes.inserts, FlipAll(job.model, ready),
        NodesOf(FailedList(job.model, KeysOf(existing), o, ps)))
    ensures forall a, b :: 0 <= a < b < |writes.inserts| ==> writes.inserts[a].hash != writes.inserts[b].hash
    ensures PersistStep(env, old(World(store.db, index.rows)), World(store.db, index.rows), writes,
        RowsOf(env, job.model, ready), maxAttempts)
    // refused, the transaction leaves both stores alone; committed, every bucket the index takes is there
    ensures !commits ==> World(store.db, index.rows) == old(World(store.db, index.rows))
    ensures commits ==> store.db == Apply(old(store.db), writes, maxAttempts)
    ensures commits ==> AllIndexed(env, job.model, index.rows, ready, accepts)
  {
    hide *;
    PreparedParts(env, job, existing, ps, o);
    ghost var start := job.inFlight;
    BuildWrites(env, job, existing, ps, o);
    ready := job.flipped;
    WorkingParts(env, job, start);
    PendingDistinct(store.db, ps);
    FatesRespected(job.model, KeysOf(existing), o, ps);
    writes := Writes(job.inserts, job.readyRefs, job.failed);
    FlipsOk(env, store.db, job.model, existing, ps, job.flipped, job.inserts, job.inFlight.Keys, start.Keys,
        job.failed);
    ghost var before := World(store.db, index.rows);
    var ok := store.ApplyEmbedBatch(Writes(job.inserts, job.readyRefs, job.failed), maxAttempts, commits);
    if ok {
      UpsertAll(env, job, index, accepts);
    }
    PersistIsStep(env, before, World(store.db, index.rows), writes, RowsOf(env, job.model, ready), maxAttempts, ok);
  }

  lemma WorkingParts(env: Env, job: BatchJob, start: map<ContentHash, Vector>)
    requires job.Working(env, start)
    ensures job.Tied() && job.Cached(env) && InsertsMatch(env, job.inserts, job.inFlight.Keys, start.Keys)
    ensures forall a, b :: 0 <= a < b < |job.inserts| ==> job.inserts[a].hash != job.inserts[b].hash
    ensures job.readyRefs == FlipAll(job.model, job.flipped) && forall p :: p in job.flipped ==>
        HashOf(job.model, p) in job.inFlight
  {
  }

  lemma PendingDistinct(db: Db, ps: seq<PendingRef>)
    requires PendingOk(db, ps)
    ensures DistinctNodes(ps)
  {
  }

  lemma PersistIsStep(env: Env, w: World, w': World, writes: Writes, rows: iset<VecRow>, maxAttempts: int, ok: bool)
    requires WritesOk(env, w.db, writes) && RowsOk(env, w.db, writes, rows)
    requires if ok then w'.db == Apply(w.db, writes, maxAttempts) && Upserted(w.index, w'.index, rows) else w' == w
    ensures PersistStep(env, w, w', writes, rows, maxAttempts)
  {
  }
}
