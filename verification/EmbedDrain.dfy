/** A whole drain pass over disjoint batches, and the rebuild of the index after a restart. */
module EmbedDrain {
  import opened Graph
  import opened VecCodec
  import opened EmbedStore
  import opened EmbedBatch
  import opened Embedder

  // ---------- queries ----------

  /** Every pending ref is listed. */
  ghost predicate AllFetched(db: Db, ps: seq<PendingRef>) {
    forall n :: n in db.refs && db.refs[n].state.Pending? ==> exists i :: 0 <= i < |ps| && ps[i].node == n
  }

  /**
   How the world answers one batch: whether its lookup, its permit and its transaction are granted, what
   the provider says and which buckets the index takes.
   */
  datatype Replies = Replies(lookup: bool, permit: bool, provider: Provider, commit: bool, upsert: VecKey -> bool)

  /** What the embed stage reports for a batch looked up against existing. */
  ghost function OutcomeOf(env: Env, model: Text, existing: iset<ContentHash>, ps: seq<PendingRef>,
                           r: Replies): Outcome {
    Asked(env, model, Unique(Pick(model, Missing(existing), ps)), r.permit, r.provider)
  }

  /** How many provider calls' worth of texts the batch asks for. */
  ghost function AskedFor(model: Text, existing: iset<ContentHash>, ps: seq<PendingRef>): nat {
    |Unique(Pick(model, Missing(existing), ps))|
  }

  /** A ref's fate, read off the replies: stored hits are flipped, and nothing else happens without a permit. */
  lemma FateByReply(env: Env, model: Text, existing: iset<ContentHash>, ps: seq<PendingRef>, r: Replies, p: PendingRef)
    requires p in ps
    ensures var a := Answer(r.provider, AskedFor(model, existing, ps), p.text);
            FateOf(model, existing, OutcomeOf(env, model, existing, ps, r), p) ==
              if HashOf(model, p) in existing then ToReady
              else if !r.permit then Untouched
              else if a.Refuses? then ToFailed
              else if a.Answers? && env.embed(model, p.text) != [] then ToReady
              else Untouched
  {
    var needs := Pick(model, Missing(existing), ps);
    PickMember(model, Missing(existing), ps, p);
    UniqueFacts(needs);
    hide Answer, Pick, Unique;
    if HashOf(model, p) !in existing {
      assert p in needs && p.text in Unique(needs);
    }
  }

  /** The pending refs, or max of them. */
  method FetchPending(store: Store, max: nat, grant: bool) returns (ok: bool, ps: seq<PendingRef>)
    ensures ok == grant && PendingOk(store.db, ps) && |ps| <= max
    ensures ok ==> |ps| == max || AllFetched(store.db, ps)
    ensures !ok ==> ps == []
  {
    ok, ps := grant, [];
    if !ok {
      return;
    }
    var left := set n | n in store.db.refs && store.db.refs[n].state.Pending?;
    while left != {} && |ps| < max
      invariant PendingOk(store.db, ps) && |ps| <= max
      invariant forall n :: n in left ==> n in store.db.refs && store.db.refs[n].state.Pending?
      invariant forall p :: p in ps ==> p.node !in left
      invariant forall n :: n in store.db.refs && store.db.refs[n].state.Pending? ==>
          n in left || exists i :: 0 <= i < |ps| && ps[i].node == n
    {
      var n :| n in left;
      left := left - {n};
      var r := store.db.refs[n];
      ghost var before := ps;
      ps := ps + [PendingRef(n, r.repo, r.branch, r.text)];
      assert ps[|before|].node == n && forall i :: 0 <= i < |before| ==> ps[i] == before[i];
    }
  }

  /** Exactly the stored rows of the refs' hashes, or nothing if the lookup failed. */
  ghost predicate LookedUp(db: Db, model: Text, ps: seq<PendingRef>, grant: bool,
                           existing: map<ContentHash, StoredRow>) {
    && Within(existing, db.table)
    && (!grant ==> existing == map[])
    && (grant ==> forall p :: p in ps && HashOf(model, p) in db.table ==> HashOf(model, p) in existing)
    && (forall h :: h in existing ==> exists p :: p in ps && HashOf(model, p) == h)
  }

  method LookupExistingBatch(store: Store, model: Text, ps: seq<PendingRef>, grant: bool)
    returns (existing: map<ContentHash, StoredRow>)
    ensures LookedUp(store.db, model, ps, grant, existing)
  {
    var asked := set p | p in ps :: HashOf(model, p);
    existing := if grant then map h | h in asked && h in store.db.table :: store.db.table[h] else map[];
  }

  lemma LookedUpWithin(db: Db, model: Text, ps: seq<PendingRef>, grant: bool, existing: map<ContentHash, StoredRow>)
    requires LookedUp(db, model, ps, grant, existing)
    ensures Within(existing, db.table)
  {
  }

  // ---------- runs ----------

  ghost predicate RunFrom(env: Env, a: World, run: seq<World>, b: World) {
    IsRun(env, run) && run[0] == a && run[|run| - 1] == b
  }

  lemma RunStarts(env: Env, a: World)
    ensures RunFrom(env, a, [a], a)
  {
  }

  lemma RunExtends(env: Env, a: World, run: seq<World>, b: World, c: World)
    requires RunFrom(env, a, run, b) && Step(env, b, c)
    ensures RunFrom(env, a, run + [c], c)
  {
    hide Step;
  }

  lemma RunKeepsInv(env: Env, a: World, run: seq<World>, b: World)
    requires RunFrom(env, a, run, b) && Inv(env, a)
    ensures Inv(env, b)
  {
    EveryRun(env, run, |run| - 1);
  }

  // ---------- one pass ----------

  ghost predicate Classified(env: Env, model: Text, job: BatchJob, existing: map<ContentHash, StoredRow>,
                             ps: seq<PendingRef>)
    reads job, job.inFlight.Values
  {
    && job.model == model && job.Tied() && job.Cached(env) && job.Slotted() && job.Owned()
    && job.flipped == Pick(model, KeysOf(existing), ps) && job.needsEmbed == Pick(model, Missing(KeysOf(existing)), ps)
    && (forall h :: h in job.inFlight ==> h in existing) &&
        (forall t :: t in job.uniqueTexts ==> ContentHash(model, t) !in existing)
    && job.inserts == [] && job.failed == [] && job.uniqueVecs == [] && job.failedTexts == {} && !job.acquireErr
  }

  /** The job has been through the embed stage, and its slots hold what the replies said. */
  ghost predicate Embedded(env: Env, model: Text, job: BatchJob, existing: map<ContentHash, StoredRow>,
                           ps: seq<PendingRef>, r: Replies)
    reads job, job.inFlight.Values, job.uniqueVecs
  {
    Prepared(env, job, existing, ps, OutcomeOf(env, model, KeysOf(existing), ps, r))
  }

  lemma EmbeddedSo(env: Env, model: Text, job: BatchJob, existing: map<ContentHash, StoredRow>,
                           ps: seq<PendingRef>, r: Replies)
    requires job.model == model && |job.uniqueVecs| == |job.uniqueTexts|
    requires job.Result(env) == Asked(env, model, job.uniqueTexts, r.permit, r.provider)
    requires job.Working(env, job.inFlight) && job.Owned() && job.inserts == [] && job.failed == []
    requires job.flipped == Pick(job.model, KeysOf(existing), ps) &&
        job.needsEmbed == Pick(job.model, Missing(KeysOf(existing)), ps)
    requires forall h :: h in job.inFlight ==> h in existing
    requires job.uniqueTexts == Unique(job.needsEmbed)
    ensures Embedded(env, model, job, existing, ps, r)
  {
  }

  /** Slices of one pass have no ref in common. */
  ghost predicate DisjointSlices(slices: seq<seq<PendingRef>>) {
    forall i, j, p, q :: 0 <= i < j < |slices| && p in slices[i] && q in slices[j] ==> p.node != q.node
  }

  lemma {:induction false} ConcatMember(bs: seq<seq<PendingRef>>, i: nat, p: PendingRef)
    requires i < |bs| && p in bs[i]
    ensures p in Concat(bs)
  {
    if i > 0 {
      ConcatMember(bs[1..], i - 1, p);
    }
  }

  lemma PendingSplit(db: Db, a: seq<PendingRef>, b: seq<PendingRef>)
    requires PendingOk(db, a + b)
    ensures PendingOk(db, a) && PendingOk(db, b) && forall p, q :: p in a && q in b ==> p.node != q.node
  {
    assert forall i :: 0 <= i < |a| ==> (a + b)[i] == a[i];
    assert forall i :: 0 <= i < |b| ==> (a + b)[|a| + i] == b[i];
  }

  lemma {:induction false} SlicesDisjoint(bs: seq<seq<PendingRef>>, db: Db)
    requires PendingOk(db, Concat(bs))
    ensures DisjointSlices(bs) && forall i :: 0 <= i < |bs| ==> PendingOk(db, bs[i])
  {
    if bs != [] {
      PendingSplit(db, bs[0], Concat(bs[1..]));
      hide PendingOk;
      SlicesDisjoint(bs[1..], db);
      forall i, j, p, q | 0 <= i < j < |bs| && p in bs[i] && q in bs[j] ensures p.node != q.node {
        if i == 0 {
          ConcatMember(bs[1..], j - 1, q);
        } else {
          assert p in bs[1..][i - 1] && q in bs[1..][j - 1];
        }
      }
      forall i | 0 <= i < |bs| ensures PendingOk(db, bs[i]) {
        assert i > 0 ==> bs[i] == bs[1..][i - 1];
      }
    }
  }

  /** Writing one batch leaves the refs of a disjoint one as they were. */
  lemma OtherBatchStillPending(env: Env, w: World, w': World, writes: Writes, rows: iset<VecRow>, maxAttempts: int,
                               ps: seq<PendingRef>, qs: seq<PendingRef>, existing: map<ContentHash, StoredRow>)
    requires PersistStep(env, w, w', writes, rows, maxAttempts) && DbOk(env, w.db)
    requires PendingOk(w.db, qs) && Within(existing, w.db.table) &&
        (forall p, q :: p in ps && q in qs ==> p.node != q.node)
    requires forall r :: r in writes.ready ==> exists p :: p in ps && p.node == r.node
    requires forall n :: n in writes.failed ==> exists p :: p in ps && p.node == n
    ensures PendingOk(w'.db, qs) && Within(existing, w'.db.table)
  {
    if w' != w {
      ApplyTable(env, w.db, writes, maxAttempts);
      hide Apply;
      forall q | q in qs ensures q.node in w'.db.refs && w'.db.refs[q.node] == w.db.refs[q.node] {
        ApplyAt(w.db, writes, maxAttempts, q.node);
      }
    }
  }

  /** Classifies every slice before anything is embedded or written. */
  method ClassifyAll(env: Env, model: Text, store: Store, pending: seq<PendingRef>, batchSize: nat,
                     answers: nat -> Replies)
    returns (jobs: seq<BatchJob>, ghost slices: seq<seq<PendingRef>>, ghost found: seq<map<ContentHash, StoredRow>>,
        ghost used: set<object>)
    requires batchSize > 0 && TableOk(env, store.db.table)
    ensures slices == Slices(pending, batchSize) && |jobs| == |slices| == |found|
    // the jobs share neither state nor vectors
    ensures forall i, j :: 0 <= i < |jobs| && 0 <= j < |jobs| && i != j ==> jobs[i].Repr !! jobs[j].Repr
    ensures fresh(used) && forall k :: 0 <= k < |jobs| ==> jobs[k] in jobs[k].Repr && jobs[k].Repr <= used
    ensures forall k :: 0 <= k < |jobs| ==>
        Classified(env, model, jobs[k], found[k], slices[k]) &&
        LookedUp(store.db, model, slices[k], answers(k).lookup, found[k])
  {
    hide *;
    jobs, slices, found := [], [], [];
    used := {};
    var start := 0;
    assert pending[0..] == pending;
    while start < |pending|
      invariant start <= |pending| && slices + Slices(pending[start..], batchSize) == Slices(pending, batchSize)
      invariant |jobs| == |slices| == |found|
      invariant fresh(used) && forall k :: 0 <= k < |jobs| ==> jobs[k] in jobs[k].Repr && jobs[k].Repr <= used
      invariant forall i, j :: 0 <= i < |jobs| && 0 <= j < |jobs| && i != j ==> jobs[i].Repr !! jobs[j].Repr
      invariant forall k :: 0 <= k < |jobs| ==>
          Classified(env, model, jobs[k], found[k], slices[k]) &&
          LookedUp(store.db, model, slices[k], answers(k).lookup, found[k])
    {
      var end := if start + batchSize < |pending| then start + batchSize else |pending|;
      NextSlice(pending, start, batchSize, end, slices);
      var existing := LookupExistingBatch(store, model, pending[start..end], answers(|jobs|).lookup);
      LookedUpWithin(store.db, model, pending[start..end], answers(|jobs|).lookup, existing);
      WithinOk(env, existing, store.db.table);
      var job := Classify(env, model, pending[start..end], existing);
      JobClassified(env, model, job, existing, pending[start..end]);
      OwnedSelf(job);
      assert job.Repr !! used;
      jobs, slices, found := jobs + [job], slices + [pending[start..end]], found + [existing];
      used := used + job.Repr;
      start := end;
    }
    assert pending[start..] == [];
    NoSlices(batchSize);
  }

  lemma NoSlices(size: nat)
    requires size > 0
    ensures Slices([], size) == []
  {
  }

  lemma NextSlice(pending: seq<PendingRef>, start: nat, size: nat, end: nat, done: seq<seq<PendingRef>>)
    requires size > 0 && start < |pending| && end == if start + size < |pending| then start + size else |pending|
    ensures done + Slices(pending[start..], size) == done + [pending[start..end]] + Slices(pending[end..], size)
  {
    var rest := pending[start..];
    if |rest| > size {
      assert rest[..size] == pending[start..end] && rest[size..] == pending[end..];
    } else {
      assert rest == pending[start..end] && pending[end..] == [];
    }
  }

  lemma WithinOk(env: Env, a: map<ContentHash, StoredRow>, b: map<ContentHash, StoredRow>)
    requires Within(a, b) && TableOk(env, b)
    ensures TableOk(env, a)
  {
  }

  lemma JobClassified(env: Env, model: Text, job: BatchJob, existing: map<ContentHash, StoredRow>, ps: seq<PendingRef>)
    requires job.model == model && job.Tied() && job.Cached(env) && job.Slotted() && job.Owned()
    requires job.flipped == Pick(model, KeysOf(existing), ps) &&
        job.needsEmbed == Pick(model, Missing(KeysOf(existing)), ps)
    requires (forall h :: h in job.inFlight ==> h in existing) &&
        (forall t :: t in job.uniqueTexts ==> ContentHash(model, t) !in existing)
    requires job.inserts == [] && job.failed == [] && job.uniqueVecs == [] && job.failedTexts == {} && !job.acquireErr
    ensures Classified(env, model, job, existing, ps)
  {
  }

  lemma ClassifiedParts(env: Env, model: Text, job: BatchJob, existing: map<ContentHash, StoredRow>,
                        ps: seq<PendingRef>)
    requires Classified(env, model, job, existing, ps)
    ensures job.model == model && job.Tied() && job.Cached(env) && job.Slotted() && job.Owned() && job.uniqueVecs == []
    ensures job.inserts == [] && job.failed == [] && job.failedTexts == {} && !job.acquireErr
    ensures job.uniqueTexts == Unique(job.needsEmbed)
    ensures job.flipped == Pick(model, KeysOf(existing), ps) &&
        job.needsEmbed == Pick(model, Missing(KeysOf(existing)), ps)
    ensures (forall h :: h in job.inFlight ==> h in existing) &&
        (forall t :: t in job.uniqueTexts ==> ContentHash(job.model, t) !in job.inFlight)
  {
  }

  /** Runs the embed stage of every job; each touches its own job only. */
  method EmbedJobs(env: Env, model: Text, jobs: seq<BatchJob>, answers: nat -> Replies,
                   ghost slices: seq<seq<PendingRef>>,
                   ghost found: seq<map<ContentHash, StoredRow>>,
                   ghost used: set<object>)
    returns (ghost all: set<object>)
    requires |jobs| == |slices| == |found|
    requires forall i, j :: 0 <= i < |jobs| && 0 <= j < |jobs| && i != j ==> jobs[i].Repr !! jobs[j].Repr
    requires forall k :: 0 <= k < |jobs| ==>
        jobs[k] in jobs[k].Repr && jobs[k].Repr <= used && Classified(env, model, jobs[k], found[k], slices[k])
    modifies jobs
    ensures forall i, j :: 0 <= i < |jobs| && 0 <= j < |jobs| && i != j ==> jobs[i].Repr !! jobs[j].Repr
    ensures forall k :: 0 <= k < |jobs| ==>
        jobs[k].model == model && Embedded(env, model, jobs[k], found[k], slices[k], answers(k))
    ensures fresh(all - used) && forall k :: 0 <= k < |jobs| ==> jobs[k] in jobs[k].Repr && jobs[k].Repr <= all
  {
    hide *;
    all := used;
    for i := 0 to |jobs|
      invariant used <= all && fresh(all - used) && forall k :: 0 <= k < |jobs| ==>
          jobs[k] in jobs[k].Repr && jobs[k].Repr <= all
      invariant forall a, b :: 0 <= a < |jobs| && 0 <= b < |jobs| && a != b ==> jobs[a].Repr !! jobs[b].Repr
      invariant forall k :: i <= k < |jobs| ==> Classified(env, model, jobs[k], found[k], slices[k])
      invariant forall k :: 0 <= k < i ==>
          jobs[k].model == model && Embedded(env, model, jobs[k], found[k], slices[k], answers(k))
    {
      ClassifiedParts(env, model, jobs[i], found[i], slices[i]);
      forall k | 0 <= k < |jobs| && k != i ensures jobs[k] != jobs[i] {
        assert jobs[k].Repr !! jobs[i].Repr;
      }
      EmbedJob(env, jobs[i], answers(i).permit, answers(i).provider);
      all := all + jobs[i].Repr;
      EmbeddedSo(env, model, jobs[i], found[i], slices[i], answers(i));
    }
  }

  /** Ready to be written: prepared, its refs still pending, what it found still stored. */
  ghost predicate Waiting(env: Env, model: Text, db: Db, job: BatchJob, existing: map<ContentHash, StoredRow>,
                          ps: seq<PendingRef>, r: Replies)
    reads job, job.Repr
  {
    job.model == model && job.Owned() && Embedded(env, model, job, existing, ps, r) && PendingOk(db, ps) &&
        Within(existing, db.table)
  }

  /** A waiting job that lives in repr. */
  ghost predicate WaitingIn(env: Env, model: Text, db: Db, job: BatchJob, existing: map<ContentHash, StoredRow>,
                            ps: seq<PendingRef>, r: Replies, repr: set<object>)
    reads repr, job, job.Repr
  {
    job in repr && job.Repr == repr && Waiting(env, model, db, job, existing, ps, r)
  }

  ghost predicate PairwiseDisjoint(reprs: seq<set<object>>) {
    forall i, j :: 0 <= i < |reprs| && 0 <= j < |reprs| && i != j ==> reprs[i] !! reprs[j]
  }

  lemma RestDisjoint(reprs: seq<set<object>>, i: nat)
    requires PairwiseDisjoint(reprs) && i < |reprs|
    ensures forall k :: i < k < |reprs| ==> reprs[k] !! reprs[i]
  {
  }

  lemma ReprsApart(jobs: seq<BatchJob>, reprs: seq<set<object>>)
    requires |reprs| == |jobs| && forall k :: 0 <= k < |jobs| ==> reprs[k] == jobs[k].Repr
    requires forall i, j :: 0 <= i < |jobs| && 0 <= j < |jobs| && i != j ==> jobs[i].Repr !! jobs[j].Repr
    ensures PairwiseDisjoint(reprs)
  {
  }

  /** Writes every job in turn; the jobs of a pass do not disturb one another. */
  method PersistAll(env: Env, model: Text, jobs: seq<BatchJob>, store: Store, index: VecIndex, maxAttempts: int,
                    answers: nat -> Replies, ghost slices: seq<seq<PendingRef>>,
                    ghost found: seq<map<ContentHash, StoredRow>>, ghost reprs: seq<set<object>>,
                    ghost all: set<object>)
    returns (ghost run: seq<World>)
    requires |jobs| == |slices| == |found| == |reprs| && KeepsLength(env) && DisjointSlices(slices)
    requires PairwiseDisjoint(reprs)
    requires Inv(env, World(store.db, index.rows)) && store !in all && index !in all
    requires forall k :: 0 <= k < |jobs| ==>
        reprs[k] <= all && WaitingIn(env, model, store.db, jobs[k], found[k], slices[k], answers(k), reprs[k])
    modifies all, store, index
    ensures RunFrom(env, old(World(store.db, index.rows)), run, World(store.db, index.rows)) && |run| == |jobs| + 1
    // each step of the run writes one batch, in order
    ensures forall k :: 0 <= k < |jobs| ==>
        Wrote(env, model, run[k], run[k + 1], found[k], slices[k], answers(k), maxAttempts)
  {
    hide *;
    ghost var w0 := World(store.db, index.rows);
    run := [w0];
    RunStarts(env, w0);
    for i := 0 to |jobs|
      invariant forall k :: i <= k < |jobs| ==>
          WaitingIn(env, model, store.db, jobs[k], found[k], slices[k], answers(k), reprs[k])
      invariant RunFrom(env, w0, run, World(store.db, index.rows)) && |run| == i + 1 &&
          Inv(env, World(store.db, index.rows))
      invariant run[i] == World(store.db, index.rows)
      invariant forall k :: 0 <= k < i ==>
          Wrote(env, model, run[k], run[k + 1], found[k], slices[k], answers(k), maxAttempts)
    {
      ghost var before := World(store.db, index.rows);
      WaitingInParts(env, model, before.db, jobs[i], found[i], slices[i], answers(i), reprs[i]);
      RestDisjoint(reprs, i);
      forall k | i < k < |jobs| ensures jobs[k] in reprs[k] && jobs[k].Repr == reprs[k] {
        WaitingInParts(env, model, before.db, jobs[k], found[k], slices[k], answers(k), reprs[k]);
      }
      PersistNext(env, model, jobs[i], store, index, maxAttempts, answers(i), found[i], slices[i]);
      ghost var after := World(store.db, index.rows);
      RunExtends(env, w0, run, before, after);
      run := run + [after];
      forall k | i < k < |jobs|
        ensures WaitingIn(env, model, after.db, jobs[k], found[k], slices[k], answers(k), reprs[k])
      {
        assert WaitingIn(env, model, before.db, jobs[k], found[k], slices[k], answers(k), reprs[k]);
        StillWaiting(env, model, before, after, jobs[k], reprs[k], maxAttempts, answers, slices, found, i, k);
      }
    }
  }

  lemma WaitingInParts(env: Env, model: Text, db: Db, job: BatchJob, existing: map<ContentHash, StoredRow>,
                       ps: seq<PendingRef>, r: Replies, repr: set<object>)
    requires WaitingIn(env, model, db, job, existing, ps, r, repr)
    ensures job in repr && job.Repr == repr && Waiting(env, model, db, job, existing, ps, r) && PendingOk(db, ps)
  {
  }

  /** The refs a batch flips, given the replies. */
  ghost function ReadyOf(env: Env, model: Text, existing: map<ContentHash, StoredRow>, ps: seq<PendingRef>,
                         r: Replies): seq<PendingRef> {
    ReadyList(model, KeysOf(existing), OutcomeOf(env, model, KeysOf(existing), ps, r), ps)
  }

  ghost function FailedOf(env: Env, model: Text, existing: map<ContentHash, StoredRow>, ps: seq<PendingRef>,
                          r: Replies): seq<PendingRef> {
    FailedList(model, KeysOf(existing), OutcomeOf(env, model, KeysOf(existing), ps, r), ps)
  }

  /**
   One job's writes, as its replies decide them: refused, nothing; committed, its flips and failures in the
   database and, for every bucket taken, its vectors in the index.
   */
  ghost predicate Wrote(env: Env, model: Text, w: World, w': World, existing: map<ContentHash, StoredRow>,
                        ps: seq<PendingRef>, r: Replies, maxAttempts: int) {
    exists writes :: WroteAs(env, model, w, w', existing, ps, r, maxAttempts, writes)
  }

  ghost predicate WroteAs(env: Env, model: Text, w: World, w': World, existing: map<ContentHash, StoredRow>,
                          ps: seq<PendingRef>, r: Replies, maxAttempts: int, writes: Writes) {
    && writes.ready == FlipAll(model, ReadyOf(env, model, existing, ps, r))
    && writes.failed == NodesOf(FailedOf(env, model, existing, ps, r))
    && (forall a, b :: 0 <= a < b < |writes.inserts| ==> writes.inserts[a].hash != writes.inserts[b].hash)
    && PersistStep(env, w, w', writes, RowsOf(env, model, ReadyOf(env, model, existing, ps, r)), maxAttempts)
    && (!r.commit ==> w' == w)
    && (r.commit ==> w'.db == Apply(w.db, writes, maxAttempts))
    && (r.commit ==> AllIndexed(env, model, w'.index, ReadyOf(env, model, existing, ps, r), r.upsert))
  }

  method PersistNext(env: Env, model: Text, job: BatchJob, store: Store, index: VecIndex, maxAttempts: int, r: Replies,
                     ghost existing: map<ContentHash, StoredRow>, ghost ps: seq<PendingRef>)
    requires KeepsLength(env) && Inv(env, World(store.db, index.rows)) &&
        Waiting(env, model, store.db, job, existing, ps, r)
    modifies job.Repr, store, index
    ensures Inv(env, World(store.db, index.rows)) &&
        Step(env, old(World(store.db, index.rows)), World(store.db, index.rows))
    ensures Wrote(env, model, old(World(store.db, index.rows)), World(store.db, index.rows), existing, ps, r,
        maxAttempts)
  {
    hide *;
    ghost var before := World(store.db, index.rows);
    WaitingParts(env, model, store.db, job, existing, ps, r);
    ghost var o := OutcomeOf(env, model, KeysOf(existing), ps, r);
    ghost var ready, writes :=
      Persist(env, job, store, index, maxAttempts, r.commit, r.upsert, existing, ps, o);
    ghost var after := World(store.db, index.rows);
    PersistKeepsRefs(env, before, after, writes, RowsOf(env, model, ready), maxAttempts);
    StepOf(env, before, after, writes, RowsOf(env, model, ready), maxAttempts);
    WroteSo(env, model, before, after, existing, ps, r, maxAttempts, o, writes);
  }

  lemma WroteSo(env: Env, model: Text, w: World, w': World, existing: map<ContentHash, StoredRow>, ps: seq<PendingRef>,
                r: Replies, maxAttempts: int, o: Outcome, writes: Writes)
    requires o == OutcomeOf(env, model, KeysOf(existing), ps, r)
    requires writes.ready == FlipAll(model, ReadyList(model, KeysOf(existing), o, ps))
    requires writes.failed == NodesOf(FailedList(model, KeysOf(existing), o, ps))
    requires forall a, b :: 0 <= a < b < |writes.inserts| ==> writes.inserts[a].hash != writes.inserts[b].hash
    requires PersistStep(env, w, w', writes, RowsOf(env, model, ReadyList(model, KeysOf(existing), o, ps)), maxAttempts)
    requires !r.commit ==> w' == w
    requires r.commit ==> w'.db == Apply(w.db, writes, maxAttempts)
    requires r.commit ==> AllIndexed(env, model, w'.index, ReadyList(model, KeysOf(existing), o, ps), r.upsert)
    ensures Wrote(env, model, w, w', existing, ps, r, maxAttempts)
  {
    hide PersistStep, ReadyList, FailedList, OutcomeOf, Apply, AllIndexed, RowsOf;
    assert WroteAs(env, model, w, w', existing, ps, r, maxAttempts, writes);
  }

  lemma WaitingParts(env: Env, model: Text, db: Db, job: BatchJob, existing: map<ContentHash, StoredRow>,
                     ps: seq<PendingRef>, r: Replies)
    requires Waiting(env, model, db, job, existing, ps, r)
    ensures job.model == model && PendingOk(db, ps) && Within(existing, db.table)
    ensures Prepared(env, job, existing, ps, OutcomeOf(env, model, KeysOf(existing), ps, r))
  {
  }

  lemma StepOf(env: Env, w: World, w': World, writes: Writes, rows: iset<VecRow>, maxAttempts: int)
    requires PersistStep(env, w, w', writes, rows, maxAttempts)
    ensures Step(env, w, w')
  {
  }

  lemma StillWaiting(env: Env, model: Text, before: World, after: World, job: BatchJob, repr: set<object>,
                     maxAttempts: int, answers: nat -> Replies,
                     slices: seq<seq<PendingRef>>, found: seq<map<ContentHash, StoredRow>>, i: nat, k: nat)
    requires i < k < |slices| == |found| && DisjointSlices(slices) && Inv(env, before) &&
        PendingOk(before.db, slices[i])
    requires WaitingIn(env, model, before.db, job, found[k], slices[k], answers(k), repr)
    requires Wrote(env, model, before, after, found[i], slices[i], answers(i), maxAttempts)
    ensures WaitingIn(env, model, after.db, job, found[k], slices[k], answers(k), repr)
  {
    hide Embedded, OutcomeOf, AllIndexed;
    var writes :| WroteAs(env, model, before, after, found[i], slices[i], answers(i), maxAttempts, writes);
    var o := OutcomeOf(env, model, KeysOf(found[i]), slices[i], answers(i));
    FatesRespected(model, KeysOf(found[i]), o, slices[i]);
    var ready, failed := ReadyList(model, KeysOf(found[i]), o, slices[i]),
        FailedList(model, KeysOf(found[i]), o, slices[i]);
    hide ReadyList;
    hide FailedList;
    forall r | r in writes.ready ensures exists p :: p in slices[i] && p.node == r.node {
      var a :| 0 <= a < |ready| && writes.ready[a] == r;
      assert ready[a] in ready;
    }
    forall n | n in writes.failed ensures exists p :: p in slices[i] && p.node == n {
      NodesMember(failed, n);
    }
    hide NodesOf;
    hide FlipAll;
    OtherBatchStillPending(env, before, after, writes, RowsOf(env, model, ready), maxAttempts, slices[i], slices[k],
        found[k]);
  }

  // ---------- what a pass leaves in the index ----------

  ghost predicate TakesAll(r: Replies) {
    forall b :: r.upsert(b)
  }

  /** A flipped ref whose bucket the index took is ready and its entry is its stored embedding. */
  lemma FlipAgrees(env: Env, model: Text, w: World, w': World, existing: map<ContentHash, StoredRow>,
                   ps: seq<PendingRef>, r: Replies, maxAttempts: int, p: PendingRef)
    requires TableOk(env, w.db.table) && Wrote(env, model, w, w', existing, ps, r, maxAttempts)
    requires r.commit && p in ReadyOf(env, model, existing, ps, r) && r.upsert(BatchOf(p))
    ensures Agrees(w', KeyOf(p))
  {
    hide Apply, Pack, ReadyOf, FailedOf, InsertAll, Canonical;
    var ready := ReadyOf(env, model, existing, ps, r);
    var writes :| WroteAs(env, model, w, w', existing, ps, r, maxAttempts, writes);
    var i :| 0 <= i < |ready| && ready[i] == p;
    assert writes.ready[i] == ReadyRef(p.node, HashOf(model, p));
    var row := VecRow(KeyOf(p), HashOf(model, p), Canonical(env, HashOf(model, p)));
    assert OwnRow(env, model, ready, row) && row in RowsOf(env, model, ready);
    ApplyAt(w.db, writes, maxAttempts, p.node);
    ApplyTable(env, w.db, writes, maxAttempts);
    assert Indexed(env, model, w'.index, p);
    assert RowOk(env, HashOf(model, p), w'.db.table[HashOf(model, p)]);
  }

  /** Whatever is refused, a written batch leaves every entry that agreed agreeing. */
  lemma WroteKeepsAgreeing(env: Env, model: Text, w: World, w': World, existing: map<ContentHash, StoredRow>,
                           ps: seq<PendingRef>, r: Replies, maxAttempts: int, k: IndexKey)
    requires TableOk(env, w.db.table) && Wrote(env, model, w, w', existing, ps, r, maxAttempts) && Agrees(w, k)
    ensures Agrees(w', k)
  {
    hide Apply, Pack, ReadyOf, FailedOf, InsertAll, Canonical, RowsOf, AllIndexed;
    var writes :| WroteAs(env, model, w, w', existing, ps, r, maxAttempts, writes);
    var rows := RowsOf(env, model, ReadyOf(env, model, existing, ps, r));
    if r.commit {
      ApplyAt(w.db, writes, maxAttempts, k.node);
      StepOf(env, w, w', writes, rows, maxAttempts);
      assert k in w'.index && !Reset(w, w', k.node);
      hide WroteAs, PersistStep, Step;
      AgreesStep(env, w, w', k);
    }
  }

  /** k names a ready ref whose vector the index lacks or has wrong. */
  ghost predicate Lacks(w: World, k: IndexKey) {
    ReadyKey(w.db, k) && !Agrees(w, k)
  }

  /** With every upsert taken, a written batch leaves no ready ref lacking that was not lacking before. */
  lemma WroteAddsNoLack(env: Env, model: Text, w: World, w': World, existing: map<ContentHash, StoredRow>,
                        ps: seq<PendingRef>, r: Replies, maxAttempts: int, k: IndexKey)
    requires TableOk(env, w.db.table) && Wrote(env, model, w, w', existing, ps, r, maxAttempts)
    requires TakesAll(r) && Lacks(w', k)
    ensures Lacks(w, k)
  {
    hide Apply, Pack, ReadyOf, FailedOf, InsertAll, Canonical, AllIndexed, Agrees, TableOk, RowOk;
    var ready := ReadyOf(env, model, existing, ps, r);
    var writes :| WroteAs(env, model, w, w', existing, ps, r, maxAttempts, writes);
    if ReadyKey(w.db, k) {
      if Agrees(w, k) {
        WroteKeepsAgreeing(env, model, w, w', existing, ps, r, maxAttempts, k);
      }
    } else {
      assert r.commit;
      ApplyAt(w.db, writes, maxAttempts, k.node);
      assert Flips(writes, k.node);
      var i :| 0 <= i < |writes.ready| && writes.ready[i].node == k.node;
      var p := ready[i];
      var row := VecRow(KeyOf(p), HashOf(model, p), Canonical(env, HashOf(model, p)));
      assert OwnRow(env, model, ready, row) && row in RowsOf(env, model, ready);
      assert KeyOf(p) == k && r.upsert(BatchOf(p));
      FlipAgrees(env, model, w, w', existing, ps, r, maxAttempts, p);
    }
  }

  /** One batch a step, each written as its replies decide. */
  ghost predicate Passed(env: Env, model: Text, run: seq<World>, found: seq<map<ContentHash, StoredRow>>,
                         batches: seq<seq<PendingRef>>, answers: nat -> Replies, maxAttempts: int) {
    && |run| == |batches| + 1 && |found| == |batches|
    && forall k :: 0 <= k < |batches| ==>
         Wrote(env, model, run[k], run[k + 1], found[k], batches[k], answers(k), maxAttempts)
  }

  lemma PassedStep(env: Env, model: Text, run: seq<World>, found: seq<map<ContentHash, StoredRow>>,
                   batches: seq<seq<PendingRef>>, answers: nat -> Replies, maxAttempts: int, k: nat)
    requires IsRun(env, run) && Inv(env, run[0]) && Passed(env, model, run, found, batches, answers, maxAttempts)
    requires k < |run| - 1
    ensures k < |batches| && |run| == |batches| + 1 && |found| == |batches| && TableOk(env, run[k].db.table)
    ensures Wrote(env, model, run[k], run[k + 1], found[k], batches[k], answers(k), maxAttempts)
  {
    hide Wrote, Step;
    EveryRun(env, run, k);
  }

  /** What a pass indexes stays indexed to its end. */
  lemma {:induction false} PassKeepsAgreeing(env: Env, model: Text, run: seq<World>,
                                             found: seq<map<ContentHash, StoredRow>>, batches: seq<seq<PendingRef>>,
                                             answers: nat -> Replies, maxAttempts: int, j: nat, i: nat, k: IndexKey)
    requires IsRun(env, run) && Inv(env, run[0]) && Passed(env, model, run, found, batches, answers, maxAttempts)
    requires j <= i < |run| && Agrees(run[j], k)
    ensures Agrees(run[i], k)
  {
    hide Agrees, IsRun, Inv, Passed, Wrote;
    if i > j {
      PassKeepsAgreeing(env, model, run, found, batches, answers, maxAttempts, j, i - 1, k);
      PassedStep(env, model, run, found, batches, answers, maxAttempts, i - 1);
      WroteKeepsAgreeing(env, model, run[i - 1], run[i], found[i - 1], batches[i - 1], answers(i - 1), maxAttempts, k);
    }
  }

  /** Every ref a committed batch of the pass flipped agrees at its end, if its bucket was taken. */
  lemma PassIndexes(env: Env, model: Text, run: seq<World>, found: seq<map<ContentHash, StoredRow>>,
                    batches: seq<seq<PendingRef>>, answers: nat -> Replies, maxAttempts: int, k: nat, p: PendingRef)
    requires IsRun(env, run) && Inv(env, run[0]) && Passed(env, model, run, found, batches, answers, maxAttempts)
    requires k < |batches| && answers(k).commit && answers(k).upsert(BatchOf(p))
    requires |found| == |batches| && p in ReadyOf(env, model, found[k], batches[k], answers(k))
    ensures Agrees(run[|run| - 1], KeyOf(p))
  {
    hide Agrees, IsRun, Inv, ReadyOf;
    PassedStep(env, model, run, found, batches, answers, maxAttempts, k);
    hide Passed, Wrote;
    FlipAgrees(env, model, run[k], run[k + 1], found[k], batches[k], answers(k), maxAttempts, p);
    PassKeepsAgreeing(env, model, run, found, batches, answers, maxAttempts, k + 1, |run| - 1, KeyOf(p));
  }

  lemma {:induction false} PassAddsNoLack(env: Env, model: Text, run: seq<World>,
                                          found: seq<map<ContentHash, StoredRow>>, batches: seq<seq<PendingRef>>,
                                          answers: nat -> Replies, maxAttempts: int, i: nat, k: IndexKey)
    requires IsRun(env, run) && Inv(env, run[0]) && Passed(env, model, run, found, batches, answers, maxAttempts)
    requires i < |run| && Lacks(run[i], k) && forall b :: 0 <= b < i ==> TakesAll(answers(b))
    ensures Lacks(run[0], k)
  {
    hide Lacks, IsRun, Inv, TakesAll, Passed, Wrote;
    if i > 0 {
      PassedStep(env, model, run, found, batches, answers, maxAttempts, i - 1);
      WroteAddsNoLack(env, model, run[i - 1], run[i], found[i - 1], batches[i - 1], answers(i - 1), maxAttempts, k);
      PassAddsNoLack(env, model, run, found, batches, answers, maxAttempts, i - 1, k);
    }
  }

  ghost predicate HasPending(db: Db) {
    exists n :: n in db.refs && db.refs[n].state.Pending?
  }

  /** One drain pass, given how everything outside answers: a run of persist steps, one a batch. */
  method DrainPass(env: Env, model: Text, store: Store, index: VecIndex, limit: nat, batchSize: nat, maxAttempts: int,
                   paused: bool, fetches: bool, cancelled: bool, answers: nat -> Replies)
    returns (full: bool, ghost stopped: bool, ghost run: seq<World>, ghost batches: seq<seq<PendingRef>>,
        ghost found: seq<map<ContentHash, StoredRow>>)
    requires KeepsLength(env) && batchSize > 0 && limit > 0 && Inv(env, World(store.db, index.rows))
    modifies store, index
    ensures RunFrom(env, old(World(store.db, index.rows)), run, World(store.db, index.rows)) && |run| <= limit + 1
    ensures Inv(env, World(store.db, index.rows))
    // the batches are slices of what was pending, disjoint, at most limit of them, none larger than batchSize
    ensures PendingOk(old(store.db), Concat(batches)) && |batches| <= limit && DisjointSlices(batches)
    ensures forall i :: 0 <= i < |batches| ==> 0 < |batches[i]| <= batchSize
    // it stops early exactly when paused, unable to fetch, or cancelled with something fetched; then nothing
    // is written
    ensures stopped <==> paused || !fetches || (cancelled && HasPending(old(store.db)))
    ensures stopped ==> run == [old(World(store.db, index.rows))]
    ensures full <==> !stopped && |Concat(batches)| == limit * batchSize
    // otherwise every batch is looked up in what was stored at the start and written as its replies decide,
    // and a haul that was not full was everything
    ensures !stopped ==> Passed(env, model, run, found, batches, answers, maxAttempts)
    ensures !stopped ==> AllLookedUp(old(store.db), model, found, batches, answers)
    ensures !stopped && !full ==> AllFetched(old(store.db), Concat(batches))
    // a flipped ref whose bucket was taken agrees at the end; with every upsert taken no ready ref goes
    // missing, so that an index that lacked none lacks none
    ensures !stopped ==> FlippedAgree(env, model, World(store.db, index.rows), found, batches, answers)
    ensures (forall k :: TakesAll(answers(k))) ==>
        NoneLost(old(World(store.db, index.rows)), World(store.db, index.rows))
  {
    hide *;
    ghost var w0 := World(store.db, index.rows);
    run, batches, found, stopped := [w0], [], [], true;
    RunStarts(env, w0);
    NothingFetched(env, model, w0, answers, maxAttempts);
    assert limit * batchSize > 0;
    if paused {
      return false, stopped, run, batches, found;
    }
    var ok, pending := FetchPending(store, limit * batchSize, fetches);
    if !ok {
      return false, stopped, run, batches, found;
    }
    FetchedSome(store.db, pending, limit * batchSize);
    if pending == [] {
      return false, false, run, batches, found;
    }
    InvTable(env, w0);
    full := |pending| == limit * batchSize;
    var jobs;
    ghost var slices, used;
    jobs, slices, found, used := ClassifyAll(env, model, store, pending, batchSize, answers);
    batches := slices;
    SlicesCover(pending, batchSize, limit);
    SlicesDisjoint(slices, store.db);
    ghost var all := EmbedJobs(env, model, jobs, answers, slices, found, used);
    if cancelled {
      return false, stopped, run, batches, found;
    }
    stopped := false;
    ghost var reprs := seq(|jobs|, k requires 0 <= k < |jobs| reads jobs => jobs[k].Repr);
    ReprsApart(jobs, reprs);
    forall k | 0 <= k < |jobs|
      ensures WaitingIn(env, model, store.db, jobs[k], found[k], slices[k], answers(k), reprs[k])
    {
      LookedUpWithin(store.db, model, slices[k], answers(k).lookup, found[k]);
      NowWaiting(env, model, store.db, jobs[k], found[k], slices[k], answers(k));
    }
    LookedUpSo(store.db, model, found, batches, answers);
    run := PersistAll(env, model, jobs, store, index, maxAttempts, answers, slices, found, reprs, all);
    RunKeepsInv(env, w0, run, World(store.db, index.rows));
    PassEnds(env, model, w0, World(store.db, index.rows), run, found, batches, answers, maxAttempts);
  }

  ghost predicate AllLookedUp(db: Db, model: Text, found: seq<map<ContentHash, StoredRow>>,
                              batches: seq<seq<PendingRef>>, answers: nat -> Replies) {
    |found| == |batches| && forall k :: 0 <= k < |batches| ==>
      LookedUp(db, model, batches[k], answers(k).lookup, found[k])
  }

  lemma LookedUpSo(db: Db, model: Text, found: seq<map<ContentHash, StoredRow>>, batches: seq<seq<PendingRef>>,
                   answers: nat -> Replies)
    requires |found| == |batches| && forall k :: 0 <= k < |batches| ==>
        LookedUp(db, model, batches[k], answers(k).lookup, found[k])
    ensures AllLookedUp(db, model, found, batches, answers)
  {
  }

  /** Every ready ref the index now lacks it lacked before: a complete index stays complete. */
  ghost predicate NoneLost(w: World, w': World) {
    (forall k :: Lacks(w', k) ==> Lacks(w, k)) && (Complete(w) ==> Complete(w'))
  }

  lemma StillComplete(w: World, w': World)
    requires forall k :: Lacks(w', k) ==> Lacks(w, k)
    ensures Complete(w) ==> Complete(w')
  {
    hide Agrees, ReadyKey;
    if Complete(w) {
      forall k | ReadyKey(w'.db, k) ensures Agrees(w', k) {
        assert Lacks(w', k) ==> Lacks(w, k);
      }
    }
  }

  /** Each ref that a committed batch flipped, its bucket taken, agrees in w. */
  ghost predicate FlippedAgree(env: Env, model: Text, w: World, found: seq<map<ContentHash, StoredRow>>,
                               batches: seq<seq<PendingRef>>, answers: nat -> Replies) {
    && |found| == |batches|
    && forall k, p :: 0 <= k < |batches| && p in ReadyOf(env, model, found[k], batches[k], answers(k)) ==>
         (answers(k).commit && answers(k).upsert(BatchOf(p)) ==> Agrees(w, KeyOf(p)))
  }

  lemma NothingFetched(env: Env, model: Text, w: World, answers: nat -> Replies, maxAttempts: int)
    ensures Concat([]) == [] && PendingOk(w.db, []) && DisjointSlices([])
    ensures Passed(env, model, [w], [], [], answers, maxAttempts) && FlippedAgree(env, model, w, [], [], answers)
    ensures AllLookedUp(w.db, model, [], [], answers) && NoneLost(w, w)
  {
  }

  lemma InvTable(env: Env, w: World)
    requires Inv(env, w)
    ensures TableOk(env, w.db.table)
  {
  }

  lemma FetchedSome(db: Db, ps: seq<PendingRef>, max: nat)
    requires PendingOk(db, ps) && max > 0 && (|ps| == max || AllFetched(db, ps))
    ensures ps == [] <==> !HasPending(db)
  {
    if ps != [] {
      assert ps[0] in ps;
    }
  }

  lemma PassEnds(env: Env, model: Text, w: World, w': World, run: seq<World>, found: seq<map<ContentHash, StoredRow>>,
                 batches: seq<seq<PendingRef>>, answers: nat -> Replies, maxAttempts: int)
    requires RunFrom(env, w, run, w') && Inv(env, w) && |run| == |batches| + 1 && |found| == |batches|
    requires forall k :: 0 <= k < |batches| ==>
        Wrote(env, model, run[k], run[k + 1], found[k], batches[k], answers(k), maxAttempts)
    ensures Passed(env, model, run, found, batches, answers, maxAttempts)
    ensures FlippedAgree(env, model, w', found, batches, answers)
    ensures (forall k :: TakesAll(answers(k))) ==> NoneLost(w, w')
  {
    hide Wrote, IsRun, Inv, Complete, Agrees, ReadyOf, TakesAll, Lacks;
    forall k, p | 0 <= k < |batches| && answers(k).commit && answers(k).upsert(BatchOf(p)) &&
        p in ReadyOf(env, model, found[k], batches[k], answers(k))
      ensures Agrees(w', KeyOf(p))
    {
      PassIndexes(env, model, run, found, batches, answers, maxAttempts, k, p);
    }
    if forall k :: TakesAll(answers(k)) {
      forall k | Lacks(w', k) ensures Lacks(w, k) {
        PassAddsNoLack(env, model, run, found, batches, answers, maxAttempts, |run| - 1, k);
      }
      StillComplete(w, w');
    }
  }

  lemma OwnedSelf(job: BatchJob)
    requires job.Owned()
    ensures job in job.Repr
  {
  }

  lemma NowWaiting(env: Env, model: Text, db: Db, job: BatchJob, existing: map<ContentHash, StoredRow>,
                   ps: seq<PendingRef>, r: Replies)
    requires job.model == model && Embedded(env, model, job, existing, ps, r) && PendingOk(db, ps) &&
        Within(existing, db.table)
    ensures WaitingIn(env, model, db, job, existing, ps, r, job.Repr)
  {
  }

  // ---------- rehydration ----------

  ghost function ReadyRows(db: Db): iset<VecRow> {
    iset v: VecRow | ReadyRow(db, v)
  }

  /** Every bucketed row is a ready ref's stored vector... */
  ghost predicate BucketsSound(db: Db, buckets: map<VecKey, seq<EmbeddingRow>>)
    reads set k, i | k in buckets && 0 <= i < |buckets[k]| :: buckets[k][i].vec
  {
    && (forall k :: k in buckets ==> buckets[k] != [])
    && forall k, i :: k in buckets && 0 <= i < |buckets[k]| ==> AsRow(k, buckets[k][i]) in ReadyRows(db)
  }

  /** ...and every ready ref with a non-empty vector, but for those left to load, is bucketed. */
  ghost predicate BucketsFull(db: Db, buckets: map<VecKey, seq<EmbeddingRow>>, left: set<NodeId>) {
    forall k :: ReadyKey(db, k) && k.node !in left && db.refs[k.node].state.hash in db.table &&
        Unpack(db.table[db.refs[k.node].state.hash]) != []
      ==> VecKey(k.repo, k.branch) in buckets && exists r :: r in buckets[VecKey(k.repo, k.branch)] && r.node == k.node
  }

  lemma BucketFilled(db: Db, buckets: map<VecKey, seq<EmbeddingRow>>, left: set<NodeId>, n: NodeId, r: EmbeddingRow)
    requires BucketsFull(db, buckets, left) && n in db.refs && r.node == n
    ensures BucketsFull(db, WithRow(buckets, VecKey(db.refs[n].repo, db.refs[n].branch), r), left - {n})
  {
    var after := WithRow(buckets, VecKey(db.refs[n].repo, db.refs[n].branch), r);
    forall k | ReadyKey(db, k) && k.node !in left - {n} && db.refs[k.node].state.hash in db.table &&
        Unpack(db.table[db.refs[k.node].state.hash]) != []
      ensures VecKey(k.repo, k.branch) in after
      ensures exists q: EmbeddingRow :: q in after[VecKey(k.repo, k.branch)] && q.node == k.node
    {
      var b := VecKey(k.repo, k.branch);
      if k.node == n {
        assert r in after[b];
      } else {
        var q :| q in buckets[b] && q.node == k.node;
        assert q in after[b];
      }
    }
  }

  method LoadBuckets(store: Store) returns (buckets: map<VecKey, seq<EmbeddingRow>>)
    ensures BucketsSound(store.db, buckets) && BucketsFull(store.db, buckets, {})
  {
    buckets := map[];
    var left := store.db.refs.Keys;
    hide ReadyRow;
    hide Decode;
    while left != {}
      invariant left <= store.db.refs.Keys && BucketsSound(store.db, buckets) && BucketsFull(store.db, buckets, left)
    {
      var n :| n in left;
      var ref := store.db.refs[n];
      if ref.state.Ready? && ref.state.hash in store.db.table {
        var row := store.db.table[ref.state.hash];
        var vec := new Vector(Decode(row.bytes, row.dim));
        if vec.data != [] {
          var r := EmbeddingRow(n, ref.state.hash, vec);
          var k := VecKey(ref.repo, ref.branch);
          BucketFilled(store.db, buckets, left, n, r);
          LoadedRow(store.db, n, vec.data);
          hide BucketsFull;
          assert AsRow(k, r) in ReadyRows(store.db);
          buckets := WithRow(buckets, k, r);
        }
      }
      left := left - {n};
    }
  }

  lemma LoadedRow(db: Db, n: NodeId, v: Vec)
    requires n in db.refs && db.refs[n].state.Ready? && db.refs[n].state.hash in db.table
    requires v == Unpack(db.table[db.refs[n].state.hash]) && v != []
    ensures ReadyRow(db, VecRow(IndexKey(db.refs[n].repo, db.refs[n].branch, n), db.refs[n].state.hash, v))
  {
  }

  /** The index takes the bucket of every ready ref with a vector. */
  ghost predicate AllTaken(db: Db, accepts: VecKey -> bool) {
    forall v :: v in ReadyRows(db) ==> accepts(VecKey(v.key.repo, v.key.branch))
  }

  /** Rebuilds the index from the durable rows; stops at the first bucket the index refuses. */
  method RehydrateVectors(store: Store, index: VecIndex, loads: bool, accepts: VecKey -> bool, ghost env: Env)
    returns (ok: bool)
    modifies index
    ensures RehydrateStep(old(World(store.db, index.rows)), World(store.db, index.rows))
    ensures ok <==> loads && AllTaken(store.db, accepts)
    ensures !loads ==> index.rows == old(index.rows)
    ensures ok && DbOk(env, store.db) ==> Complete(World(store.db, index.rows))
  {
    if !loads {
      return false;
    }
    var buckets := LoadBuckets(store);
    ghost var all, db := ReadyRows(store.db), store.db;
    var rest := buckets.Keys;
    hide ReadyRow;
    hide BucketsFull;
    hide BucketLanded;
    hide Landed;
    hide AllTaken;
    while rest != {}
      invariant rest <= buckets.Keys && Upserted(old(index.rows), index.rows, all) && BucketsSound(store.db, buckets)
      invariant forall b :: b in buckets && b !in rest ==>
          accepts(b) && BucketLanded(b, buckets[b], index.rows, all)
    {
      var b :| b in rest;
      rest := rest - {b};
      forall r | r in buckets[b] ensures AsRow(b, r) in all {
        var i :| 0 <= i < |buckets[b]| && buckets[b][i] == r;
      }
      if !accepts(b) {
        RefusedBucket(store.db, buckets, b, accepts);
      }
      ghost var before := index.rows;
      hide ReadyRows;
      hide BucketsSound;
      ok := index.UpsertEmbeddings(b, buckets[b], accepts(b), all);
      UpsertedTrans(old(index.rows), before, index.rows, all);
      if !ok {
        return false;
      }
      forall c | c in buckets && c !in rest && c != b ensures BucketLanded(c, buckets[c], index.rows, all) {
        BucketStays(c, buckets[c], before, index.rows, all);
      }
    }
    ok := true;
    AllBucketsTaken(store.db, buckets, accepts);
    if DbOk(env, store.db) {
      NowComplete(env, World(store.db, index.rows), buckets);
    }
  }

  lemma RefusedBucket(db: Db, buckets: map<VecKey, seq<EmbeddingRow>>, b: VecKey, accepts: VecKey -> bool)
    requires BucketsSound(db, buckets) && b in buckets && !accepts(b)
    ensures !AllTaken(db, accepts)
  {
    assert AsRow(b, buckets[b][0]) in ReadyRows(db);
  }

  lemma AllBucketsTaken(db: Db, buckets: map<VecKey, seq<EmbeddingRow>>, accepts: VecKey -> bool)
    requires BucketsFull(db, buckets, {}) && forall b :: b in buckets ==> accepts(b)
    ensures AllTaken(db, accepts)
  {
    forall v | v in ReadyRows(db) ensures accepts(VecKey(v.key.repo, v.key.branch)) {
      assert ReadyRow(db, v) && VecKey(v.key.repo, v.key.branch) in buckets;
    }
  }

  lemma NowComplete(env: Env, w: World, buckets: map<VecKey, seq<EmbeddingRow>>)
    requires DbOk(env, w.db) && BucketsFull(w.db, buckets, {})
    requires forall b :: b in buckets ==> BucketLanded(b, buckets[b], w.index, ReadyRows(w.db))
    ensures Complete(w)
  {
    forall k | ReadyKey(w.db, k) ensures Agrees(w, k) {
      var h := w.db.refs[k.node].state.hash;
      StoredIsCanonical(env, w.db.table, h);
      var b := VecKey(k.repo, k.branch);
      assert b in buckets;
      var r :| r in buckets[b] && r.node == k.node;
      assert k == IndexKey(b.repo, b.branch, r.node);
      assert Landed(w.index, ReadyRows(w.db), k);
      var v :| v in ReadyRows(w.db) && v.key == k && w.index[k] == v.vec;
      ReadyRowStored(env, w.db, v);
    }
  }
}
