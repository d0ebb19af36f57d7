/**
 Drains and promotions side by side. A batch is fetched, looked up and written at three different times,
 and a promotion may queue its refs again in between; the store's update flips a ref by its node id alone
 (internal/infrastructure/sqlite/embedding_refs_repo.go).
 */
module EmbedRace {
  import opened Basics
  import opened Graph
  import opened VecCodec
  import opened EmbedStore

  /** What led from one world to the next. A batch names the worlds it was fetched from and looked up in. */
  datatype Label =
    | Wrote(fetch: nat, lookup: nat, ok: bool, writes: Writes, rows: iset<VecRow>, maxAttempts: int)
    | Otherwise

  ghost predicate OtherStep(w: World, w': World) {
    RehydrateStep(w, w') || RestartStep(w, w') || exists queued :: EnqueueStep(w, w', queued)
  }

  /** A hash flipped to was stored when it was looked up, or is inserted by the batch. */
  ghost predicate LookedUp(db: Db, w: Writes) {
    forall r :: r in w.ready ==> r.hash in db.table || Inserted(w.inserts, r.hash)
  }

  ghost predicate RaceStep(env: Env, run: seq<World>, j: nat, l: Label)
    requires j + 1 < |run|
  {
    match l
    case Otherwise => OtherStep(run[j], run[j + 1])
    case Wrote(fetch, lookup, ok, writes, rows, m) =>
      && fetch <= lookup <= j
      && FetchedFrom(run[fetch].db, writes) && LookedUp(run[lookup].db, writes) && DistinctFlips(writes.ready)
      && (forall i :: i in writes.inserts ==> RowOk(env, i.hash, i.row)) && RowsOk(env, run[fetch].db, writes, rows)
      // there is one drain worker and its batches share no ref, so nobody else flips the batch's refs meanwhile
      && (forall r :: r in writes.ready ==> NeverFlipped(run, fetch, j, r.node))
      && if ok then run[j + 1].db == Apply(run[j].db, writes, m) && Upserted(run[j].index, run[j + 1].index, rows)
         else run[j + 1] == run[j]
  }

  ghost predicate IsRace(env: Env, run: seq<World>, labels: seq<Label>) {
    |run| == |labels| + 1 && forall j :: 0 <= j < |labels| ==> RaceStep(env, run, j, labels[j])
  }

  /** Table right, index made of stored embeddings, and nothing stored before ever changed. */
  ghost predicate StoredSince(env: Env, run: seq<World>, c: nat, i: nat)
    requires c <= i < |run|
  {
    && TableOk(env, run[i].db.table) && IndexOk(env, run[i])
    && forall h :: h in run[c].db.table ==> h in run[i].db.table && run[i].db.table[h] == run[c].db.table[h]
  }

  ghost predicate TableKept(w: World, w': World) {
    forall h :: h in w.db.table ==> h in w'.db.table && w'.db.table[h] == w.db.table[h]
  }

  lemma OtherKeepsStored(env: Env, w: World, w': World)
    requires TableOk(env, w.db.table) && IndexOk(env, w) && OtherStep(w, w')
    ensures TableOk(env, w'.db.table) && IndexOk(env, w') && TableKept(w, w')
  {
    hide RowOk;
    forall k | k in w'.index ensures SomeStored(env, w'.db.table, w'.index[k]) {
      if !(k in w.index && w'.index[k] == w.index[k]) {
        var v :| v in (iset v: VecRow | ReadyRow(w.db, v)) && v.key == k && w'.index[k] == v.vec;
        ReadyRowStored(env, w.db, v);
      }
    }
  }

  lemma {:induction false} StoredThroughout(env: Env, run: seq<World>, labels: seq<Label>, c: nat, i: nat)
    requires IsRace(env, run, labels) && c <= i < |run| && TableOk(env, run[0].db.table) && IndexOk(env, run[0])
    ensures StoredSince(env, run, c, i)
    decreases i, 0
  {
    if i > 0 {
      StoredThroughout(env, run, labels, if c < i then c else i - 1, i - 1);
      assert RaceStep(env, run, i - 1, labels[i - 1]);
      match labels[i - 1]
      case Otherwise => OtherKeepsStored(env, run[i - 1], run[i]);
      case Wrote(fetch, lookup, ok, writes, rows, m) =>
        BatchStillOk(env, run, labels, i - 1);
        PersistKeeps(env, run[i - 1], run[i], writes, rows, m);
    }
  }

  /** What the batch found stored is still stored when it is written. */
  lemma {:induction false} BatchStillOk(env: Env, run: seq<World>, labels: seq<Label>, j: nat)
    requires IsRace(env, run, labels) && j < |labels| && labels[j].Wrote? && TableOk(env, run[0].db.table) &&
        IndexOk(env, run[0])
    ensures BatchOk(env, run[j].db, labels[j].writes)
    decreases j, 1
  {
    assert RaceStep(env, run, j, labels[j]);
    StoredThroughout(env, run, labels, labels[j].lookup, j);
  }

  /** Some ref was queued again with another text between the batch's fetch and its write, and is flipped. */
  ghost predicate FlipsOldText(run: seq<World>, j: nat, l: Label) {
    && l.Wrote? && l.ok && l.fetch <= j < |run|
    && exists r :: r in l.writes.ready && r.node in run[l.fetch].db.refs && r.node in run[j].db.refs
                   && run[l.fetch].db.refs[r.node].text != run[j].db.refs[r.node].text
  }

  lemma FetchIsPast(env: Env, run: seq<World>, labels: seq<Label>, j: nat)
    requires IsRace(env, run, labels) && j < |labels|
    ensures RaceStep(env, run, j, labels[j]) && (labels[j].Wrote? ==> labels[j].fetch <= j)
  {
  }

  lemma RefsStep(env: Env, run: seq<World>, labels: seq<Label>, j: nat)
    requires IsRace(env, run, labels) && j < |labels| && Inv(env, run[0]) && RefsOk(run[j].db)
    ensures RefsOk(run[j + 1].db) <==> !FlipsOldText(run, j, labels[j])
  {
    FetchIsPast(env, run, labels, j);
    StoredThroughout(env, run, labels, j, j);
    match labels[j]
    case Otherwise =>
      OtherKeepsRefs(run[j], run[j + 1]);
    case Wrote(fetch, lookup, ok, writes, rows, m) =>
      BatchStillOk(env, run, labels, j);
      if ok {
        RefsRightExactly(env, run[j].db, writes, m);
        MisflipIsOldText(run[fetch].db, run[j].db, writes);
      }
      hide Apply, RefsOk, FetchedFrom;
  }

  lemma OtherKeepsRefs(w: World, w': World)
    requires OtherStep(w, w') && RefsOk(w.db)
    ensures RefsOk(w'.db)
  {
    if queued :| EnqueueStep(w, w', queued) {
      assert forall n :: n in w'.db.refs && w'.db.refs[n].state.Ready? ==> n !in queued;
    }
  }

  lemma MisflipIsOldText(fetched: Db, db: Db, w: Writes)
    requires FetchedFrom(fetched, w)
    ensures Misflips(db, w) <==>
      exists r :: r in w.ready && r.node in fetched.refs && r.node in db.refs &&
          fetched.refs[r.node].text != db.refs[r.node].text
  {
    if Misflips(db, w) {
      var r :| r in w.ready && r.node in db.refs && r.hash.text != db.refs[r.node].text;
      assert fetched.refs[r.node].text != db.refs[r.node].text;
    }
  }

  ghost predicate RefsOkUpTo(run: seq<World>, i: nat) {
    i < |run| && forall j :: 0 <= j <= i ==> RefsOk(run[j].db)
  }

  ghost predicate Timely(run: seq<World>, labels: seq<Label>, i: nat) {
    forall j :: 0 <= j < i && j < |labels| ==> !FlipsOldText(run, j, labels[j])
  }

  /**
   In every run of drains and promotions side by side, every ready ref has pointed at its own text's
   embedding all along exactly when no batch flipped a ref that was queued again, with another text,
   between its fetch and its write.
   */
  lemma {:induction false} RefsRightWhenTimely(env: Env, run: seq<World>, labels: seq<Label>, i: nat)
    requires IsRace(env, run, labels) && i < |run| && Inv(env, run[0])
    ensures RefsOkUpTo(run, i) <==> Timely(run, labels, i)
  {
    RaceLength(env, run, labels);
    hide Timely, FlipsOldText, IsRace, RefsOk, RefsOkUpTo, Inv;
    if i == 0 {
      TimelyAtFirst(env, run, labels);
    } else {
      RefsRightWhenTimely(env, run, labels, i - 1);
      TimelyStep(run, labels, i - 1);
      RefsOkUpToStep(run, i);
      if RefsOk(run[i - 1].db) {
        RefsStep(env, run, labels, i - 1);
      }
    }
  }

  lemma RaceLength(env: Env, run: seq<World>, labels: seq<Label>)
    requires IsRace(env, run, labels)
    ensures |run| == |labels| + 1
  {
  }

  lemma TimelyAtFirst(env: Env, run: seq<World>, labels: seq<Label>)
    requires run != [] && Inv(env, run[0])
    ensures RefsOkUpTo(run, 0) && Timely(run, labels, 0)
  {
  }

  lemma RefsOkUpToStep(run: seq<World>, i: nat)
    requires 0 < i < |run|
    ensures RefsOkUpTo(run, i) <==> RefsOkUpTo(run, i - 1) && RefsOk(run[i].db)
    ensures RefsOkUpTo(run, i - 1) ==> RefsOk(run[i - 1].db)
  {
    hide RefsOk;
  }

  lemma TimelyStep(run: seq<World>, labels: seq<Label>, j: nat)
    requires j < |labels|
    ensures Timely(run, labels, j + 1) <==> Timely(run, labels, j) && !FlipsOldText(run, j, labels[j])
  {
    hide FlipsOldText;
  }

  // ---------- the whole index ----------

  /** The ref changed its repo or branch between the two. */
  ghost predicate Moved(before: Db, now: Db, n: NodeId) {
    n in before.refs && n in now.refs &&
        (before.refs[n].repo != now.refs[n].repo || before.refs[n].branch != now.refs[n].branch)
  }

  /** A vector of the batch reaches the index under the repo or branch its ref had at the fetch and has left since. */
  ghost predicate Misfiles(run: seq<World>, j: nat, l: Label) {
    && l.Wrote? && l.ok && l.fetch <= j && j + 1 < |run|
    && exists v :: v in l.rows && v.key in run[j + 1].index && Moved(run[l.fetch].db, run[j].db, v.key.node)
  }

  ghost predicate Spoils(run: seq<World>, j: nat, l: Label) {
    j + 1 < |run| && (ResetsIndexed(run[j], run[j + 1]) || Misfiles(run, j, l))
  }

  lemma {:induction false} RefsNeverVanish(env: Env, run: seq<World>, labels: seq<Label>, f: nat, i: nat, n: NodeId)
    requires IsRace(env, run, labels) && f <= i < |run| && n in run[f].db.refs
    ensures n in run[i].db.refs
  {
    if f < i {
      RefsNeverVanish(env, run, labels, f, i - 1, n);
      FetchIsPast(env, run, labels, i - 1);
      if labels[i - 1].Wrote? {
        ApplyAt(run[i - 1].db, labels[i - 1].writes, labels[i - 1].maxAttempts, n);
      }
      hide Apply;
    }
  }

  lemma {:induction false} StillNotReady(run: seq<World>, f: nat, i: nat, n: NodeId)
    requires f <= i < |run| && !IsReady(run[f], n) && NeverFlipped(run, f, i, n)
    ensures !IsReady(run[i], n)
  {
    if f < i {
      StillNotReady(run, f, i - 1, n);
      assert !Flipped(run[i - 1], run[i], n);
    }
  }

  /** A batch's refs have no vector in an index that agrees. */
  lemma FlippedNotIndexed(env: Env, run: seq<World>, labels: seq<Label>, j: nat, k: IndexKey)
    requires IsRace(env, run, labels) && j < |labels| && labels[j].Wrote? && AllAgree(run[j]) &&
        Flips(labels[j].writes, k.node)
    ensures k !in run[j].index
  {
    FetchIsPast(env, run, labels, j);
    var q :| q in labels[j].writes.ready && q.node == k.node;
    StillNotReady(run, labels[j].fetch, j, k.node);
    AgreesMeansReady(run[j], k);
  }

  /** Step j of the race commits a batch. */
  ghost predicate Commits(env: Env, run: seq<World>, labels: seq<Label>, j: nat) {
    IsRace(env, run, labels) && j < |labels| && labels[j].Wrote? && labels[j].ok && Inv(env, run[0])
  }

  /** One of its vectors is what the index holds next. */
  ghost predicate Lands(run: seq<World>, j: nat, rows: iset<VecRow>, v: VecRow) {
    j + 1 < |run| && v in rows && v.key in run[j + 1].index && run[j + 1].index[v.key] == v.vec
  }

  /** An entry of another ref stays right when a batch is written. */
  lemma OthersStay(env: Env, run: seq<World>, labels: seq<Label>, j: nat, k: IndexKey)
    requires Commits(env, run, labels, j) && AllAgree(run[j])
    requires k in run[j + 1].index && !Flips(labels[j].writes, k.node)
    ensures Agrees(run[j + 1], k) && !Reset(run[j], run[j + 1], k.node)
  {
    FetchIsPast(env, run, labels, j);
    StoredThroughout(env, run, labels, j, j);
    BatchStillOk(env, run, labels, j);
    var l := labels[j];
    hide IsRace, TableOk, Pack;
    forall v | v in l.rows ensures v.key != k {
      assert ReadyRef(v.key.node, v.hash) in l.writes.ready;
    }
    assert k in run[j].index && run[j + 1].index[k] == run[j].index[k];
    ApplyAt(run[j].db, l.writes, l.maxAttempts, k.node);
    ApplyTable(env, run[j].db, l.writes, l.maxAttempts);
  }

  /** A vector the batch writes agrees exactly when its ref has not moved since the fetch. */
  lemma LandedAgrees(env: Env, run: seq<World>, labels: seq<Label>, j: nat, v: VecRow)
    requires Commits(env, run, labels, j) && Lands(run, j, labels[j].rows, v)
    ensures labels[j].fetch <= j
    ensures Agrees(run[j + 1], v.key) <==> !Moved(run[labels[j].fetch].db, run[j].db, v.key.node)
    ensures !Reset(run[j], run[j + 1], v.key.node)
  {
    FetchIsPast(env, run, labels, j);
    var l := labels[j];
    var n := v.key.node;
    StoredThroughout(env, run, labels, j, j);
    BatchStillOk(env, run, labels, j);
    RefsNeverVanish(env, run, labels, l.fetch, j, n);
    ApplyAt(run[j].db, l.writes, l.maxAttempts, n);
    ApplyTable(env, run[j].db, l.writes, l.maxAttempts);
    assert ReadyRef(n, v.hash) in l.writes.ready;
    hide IsRace, Apply;
    assert RowOk(env, v.hash, run[j + 1].db.table[v.hash]);
  }

  /** What a key of a flipped ref holds after the write is one of the batch's vectors. */
  lemma LandedFrom(env: Env, run: seq<World>, labels: seq<Label>, j: nat, k: IndexKey) returns (v: VecRow)
    requires Commits(env, run, labels, j) && AllAgree(run[j])
    requires k in run[j + 1].index && Flips(labels[j].writes, k.node)
    ensures Lands(run, j, labels[j].rows, v) && v.key == k
  {
    FetchIsPast(env, run, labels, j);
    FlippedNotIndexed(env, run, labels, j, k);
    v :| v in labels[j].rows && v.key == k && run[j + 1].index[k] == v.vec;
  }

  lemma WriteAgrees(env: Env, run: seq<World>, labels: seq<Label>, j: nat)
    requires Commits(env, run, labels, j) && AllAgree(run[j])
    ensures AllAgree(run[j + 1]) <==> !Misfiles(run, j, labels[j])
    ensures !ResetsIndexed(run[j], run[j + 1])
  {
    var l := labels[j];
    FetchIsPast(env, run, labels, j);
    assert |run| == |labels| + 1;
    hide Commits, IsRace, Inv, RaceStep, Agrees, Moved, Reset;
    forall k | k in run[j + 1].index
      ensures !Reset(run[j], run[j + 1], k.node)
      ensures Agrees(run[j + 1], k) ||
          (exists v :: v in l.rows && v.key == k && Moved(run[l.fetch].db, run[j].db, v.key.node))
    {
      if Flips(l.writes, k.node) {
        var v := LandedFrom(env, run, labels, j, k);
        LandedAgrees(env, run, labels, j, v);
      } else {
        OthersStay(env, run, labels, j, k);
      }
    }
    if Misfiles(run, j, l) {
      var v :| v in l.rows && v.key in run[j + 1].index && Moved(run[l.fetch].db, run[j].db, v.key.node);
      RowIsFlip(env, run, labels, j, v);
      var u := LandedFrom(env, run, labels, j, v.key);
      LandedAgrees(env, run, labels, j, u);
    }
  }

  lemma RowIsFlip(env: Env, run: seq<World>, labels: seq<Label>, j: nat, v: VecRow)
    requires IsRace(env, run, labels) && j < |labels| && labels[j].Wrote? && v in labels[j].rows
    ensures Flips(labels[j].writes, v.key.node)
  {
    FetchIsPast(env, run, labels, j);
    assert ReadyRef(v.key.node, v.hash) in labels[j].writes.ready;
  }

  lemma AgreeStep(env: Env, run: seq<World>, labels: seq<Label>, j: nat)
    requires IsRace(env, run, labels) && j < |labels| && Inv(env, run[0]) && AllAgree(run[j])
    ensures AllAgree(run[j + 1]) <==> !Spoils(run, j, labels[j])
  {
    FetchIsPast(env, run, labels, j);
    StoredThroughout(env, run, labels, j, j);
    hide IsRace, Inv, AllAgree, ResetsIndexed, Misfiles, Reset;
    if labels[j].Wrote? && labels[j].ok {
      WriteAgrees(env, run, labels, j);
    } else if labels[j].Wrote? {
      NothingReset(run[j]);
      NoWriteNoMisfile(run, j, labels[j]);
    } else {
      assert Step(env, run[j], run[j + 1]);
      AllAgreeStep(env, run[j], run[j + 1]);
      NoWriteNoMisfile(run, j, labels[j]);
    }
  }

  lemma NothingReset(w: World)
    ensures !ResetsIndexed(w, w)
  {
  }

  lemma NoWriteNoMisfile(run: seq<World>, j: nat, l: Label)
    requires !(l.Wrote? && l.ok)
    ensures !Misfiles(run, j, l)
  {
  }

  ghost predicate AgreeUpTo(run: seq<World>, i: nat) {
    i < |run| && forall j :: 0 <= j <= i ==> AllAgree(run[j])
  }

  ghost predicate Unspoiled(run: seq<World>, labels: seq<Label>, i: nat) {
    forall j :: 0 <= j < i && j < |labels| ==> !Spoils(run, j, labels[j])
  }

  lemma UpToFirst(run: seq<World>, labels: seq<Label>)
    requires run != [] && AllAgree(run[0])
    ensures AgreeUpTo(run, 0) && Unspoiled(run, labels, 0)
  {
  }

  lemma UpToStep(run: seq<World>, labels: seq<Label>, i: nat)
    requires 0 < i < |run| && i <= |labels|
    ensures AgreeUpTo(run, i) <==> AgreeUpTo(run, i - 1) && AllAgree(run[i])
    ensures AgreeUpTo(run, i - 1) ==> AllAgree(run[i - 1])
    ensures Unspoiled(run, labels, i) <==> Unspoiled(run, labels, i - 1) && !Spoils(run, i - 1, labels[i - 1])
  {
    hide AllAgree, Spoils;
  }

  /**
   In every run of drains and promotions side by side the whole index has agreed with the table all along
   exactly when no step reset the ref of an indexed vector and left it there, and no vector was written
   under a repo or branch its ref had left since the fetch.
   */
  lemma {:induction false} IndexAgreesWhenUnspoiled(env: Env, run: seq<World>, labels: seq<Label>, i: nat)
    requires IsRace(env, run, labels) && i < |run| && Inv(env, run[0]) && AllAgree(run[0])
    ensures AgreeUpTo(run, i) <==> Unspoiled(run, labels, i)
  {
    hide IsRace, Inv, AllAgree, Spoils, AgreeUpTo, Unspoiled;
    RaceLength(env, run, labels);
    if i == 0 {
      UpToFirst(run, labels);
    } else {
      IndexAgreesWhenUnspoiled(env, run, labels, i - 1);
      UpToStep(run, labels, i);
      if AllAgree(run[i - 1]) {
        AgreeStep(env, run, labels, i - 1);
      }
    }
  }

  /** A promotion changes a fetched ref's text before its batch is written: it ends ready with the old vector. */
  lemma OldTextFlipped(env: Env, n: NodeId, h: ContentHash, newText: Text, repo: Text, branch: Text)
    returns (run: seq<World>, labels: seq<Label>)
    requires newText != h.text && Canonical(env, h) != []
    ensures IsRace(env, run, labels) && Inv(env, run[0]) && !RefsOk(run[|run| - 1].db)
  {
    var w0 := World(Db(map[n := Ref(repo, branch, h.text, Pending(0))], map[]), map[]);
    var w1 := w0.(db := w0.db.(refs := map[n := Ref(repo, branch, newText, Pending(0))]));
    var writes := Writes([Insert(h, Pack(Canonical(env, h)))], [ReadyRef(n, h)], []);
    var w2 := World(Apply(w1.db, writes, 1), map[]);
    run, labels := [w0, w1, w2], [Otherwise, Wrote(0, 0, true, writes, iset{}, 1)];
    assert EnqueueStep(w0, w1, {n});
    assert writes.ready[0] == ReadyRef(n, h) && writes.inserts[0].hash == h;
    assert Inserted(writes.inserts, h);
    ApplyAt(w1.db, writes, 1, n);
    hide Apply, Pack;
    assert OtherStep(w0, w1);
    assert RaceStep(env, run, 0, labels[0]);
    assert RaceStep(env, run, 1, labels[1]);
    assert w2.db.refs[n].state == Ready(h) && w2.db.refs[n].text == newText;
  }
}
