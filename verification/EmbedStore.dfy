/**
 The durable side of embedding (the ref rows and the content-addressed table), the in-memory vector
 index beside it, and what holds of both over every run.
 */
module EmbedStore {
  import opened Basics
  import opened Graph
  import opened VecCodec

  /** Model ids, texts, repo and branch names: compared for equality only. */
  type Text(==, 0, !new)

  /** The model's raw embedding of a text, and normalisation: any two functions will do. */
  datatype Env = Env(embed: (Text, Text) -> Vec, normalize: Vec -> Vec)

  /** A content hash stands for what it hashes: hashes are taken to be injective. */
  datatype ContentHash = ContentHash(model: Text, text: Text)

  datatype StoredRow = StoredRow(dim: nat, bytes: seq<Byte>)

  datatype RefState = Pending(attempts: nat) | Ready(hash: ContentHash) | Failed

  datatype Ref = Ref(repo: Text, branch: Text, text: Text, state: RefState)

  datatype Db = Db(refs: map<NodeId, Ref>, table: map<ContentHash, StoredRow>)

  datatype IndexKey = IndexKey(repo: Text, branch: Text, node: NodeId)

  type Index = map<IndexKey, Vec>

  datatype World = World(db: Db, index: Index)

  function Pack(v: Vec): StoredRow {
    StoredRow(|v|, Encode(v))
  }

  function Unpack(r: StoredRow): Vec {
    Decode(r.bytes, r.dim)
  }

  lemma Unpacks(v: Vec)
    ensures Unpack(Pack(v)) == v
  {
    RoundTrip(v, 0);
  }

  /** What a text's vector has to be: its own embedding, normalised once. */
  function Canonical(env: Env, h: ContentHash): Vec {
    env.normalize(env.embed(h.model, h.text))
  }

  ghost predicate RowOk(env: Env, h: ContentHash, r: StoredRow) {
    r == Pack(Canonical(env, h)) && Canonical(env, h) != []
  }

  ghost predicate TableOk(env: Env, table: map<ContentHash, StoredRow>) {
    forall h :: h in table ==> RowOk(env, h, table[h])
  }

  ghost predicate RefsOk(db: Db) {
    forall n :: n in db.refs && db.refs[n].state.Ready? ==>
      db.refs[n].state.hash in db.table && db.refs[n].state.hash.text == db.refs[n].text
  }

  ghost predicate DbOk(env: Env, db: Db) {
    TableOk(env, db.table) && RefsOk(db)
  }

  /** k names a ref that is durably ready. */
  ghost predicate ReadyKey(db: Db, k: IndexKey) {
    k.node in db.refs && db.refs[k.node].repo == k.repo && db.refs[k.node].branch == k.branch &&
        db.refs[k.node].state.Ready?
  }

  /** The index entry k belongs to a durably ready ref and is its stored embedding. */
  ghost predicate Agrees(w: World, k: IndexKey) {
    && k in w.index && ReadyKey(w.db, k) && w.db.refs[k.node].state.hash in w.db.table
    && w.db.table[w.db.refs[k.node].state.hash] == Pack(w.index[k])
  }

  /** The vector is the normalised embedding of a text whose hash is stored. */
  ghost predicate SomeStored(env: Env, table: map<ContentHash, StoredRow>, v: Vec) {
    exists h :: h in table && v == Canonical(env, h)
  }

  ghost predicate IndexOk(env: Env, w: World) {
    forall k :: k in w.index ==> SomeStored(env, w.db.table, w.index[k])
  }

  ghost predicate Inv(env: Env, w: World) {
    DbOk(env, w.db) && IndexOk(env, w)
  }

  /** Every ready ref is indexed with its stored embedding. */
  ghost predicate Complete(w: World) {
    forall k :: ReadyKey(w.db, k) ==> Agrees(w, k)
  }

  // ---------- one batch transaction ----------

  datatype Insert = Insert(hash: ContentHash, row: StoredRow)

  datatype ReadyRef = ReadyRef(node: NodeId, hash: ContentHash)

  datatype Writes = Writes(inserts: seq<Insert>, ready: seq<ReadyRef>, failed: seq<NodeId>)

  datatype VecRow = VecRow(key: IndexKey, hash: ContentHash, vec: Vec)

  /** Insert unless present. */
  function InsertAll(table: map<ContentHash, StoredRow>, ins: seq<Insert>): map<ContentHash, StoredRow> {
    if ins == [] then table
    else
      var t := InsertAll(table, ins[..|ins| - 1]);
      var i := ins[|ins| - 1];
      if i.hash in t then t else t[i.hash := i.row]
  }

  function MarkReady(refs: map<NodeId, Ref>, ready: seq<ReadyRef>): map<NodeId, Ref> {
    if ready == [] then refs
    else
      var m := MarkReady(refs, ready[..|ready| - 1]);
      var r := ready[|ready| - 1];
      if r.node in m then m[r.node := m[r.node].(state := Ready(r.hash))] else m
  }

  /** One more attempt; at the limit the ref is given up. Only pending refs change. */
  function Bump(r: Ref, maxAttempts: int): Ref {
    if !r.state.Pending? then r
    else if r.state.attempts + 1 >= maxAttempts then r.(state := Failed)
    else r.(state := Pending(r.state.attempts + 1))
  }

  function MarkFailed(refs: map<NodeId, Ref>, failed: seq<NodeId>, maxAttempts: int): map<NodeId, Ref> {
    if failed == [] then refs
    else
      var m := MarkFailed(refs, failed[..|failed| - 1], maxAttempts);
      var n := failed[|failed| - 1];
      if n in m then m[n := Bump(m[n], maxAttempts)] else m
  }

  /** The whole batch, all or nothing. */
  function Apply(db: Db, w: Writes, maxAttempts: int): Db {
    Db(MarkFailed(MarkReady(db.refs, w.ready), w.failed, if maxAttempts < 1 then 1 else maxAttempts),
        InsertAll(db.table, w.inserts))
  }

  ghost predicate Inserted(ins: seq<Insert>, h: ContentHash) {
    exists i :: i in ins && i.hash == h
  }

  ghost predicate DistinctFlips(ready: seq<ReadyRef>) {
    forall a, b :: 0 <= a < b < |ready| ==> ready[a].node != ready[b].node
  }

  /** All the store relies on: right rows, each ref flipped once, each hash stored or being stored. */
  ghost predicate BatchOk(env: Env, db: Db, w: Writes) {
    && (forall i :: i in w.inserts ==> RowOk(env, i.hash, i.row))
    && (forall r :: r in w.ready ==> r.hash in db.table || Inserted(w.inserts, r.hash))
    && DistinctFlips(w.ready)
  }

  /** The refs a batch flips are pending, with the text the hash was taken of: so they were when fetched. */
  ghost predicate FetchedFrom(db: Db, w: Writes) {
    forall r :: r in w.ready ==>
        r.node in db.refs && db.refs[r.node].state.Pending? && r.hash.text == db.refs[r.node].text
  }

  /** Some ref is flipped against the hash of another text than its own. */
  ghost predicate Misflips(db: Db, w: Writes) {
    exists r :: r in w.ready && r.node in db.refs && r.hash.text != db.refs[r.node].text
  }

  ghost predicate WritesOk(env: Env, db: Db, w: Writes) {
    BatchOk(env, db, w) && FetchedFrom(db, w)
  }

  /** The batch's vectors: each for a ref it flips, and canonical. */
  ghost predicate RowsCanonical(env: Env, w: Writes, rows: iset<VecRow>) {
    forall v :: v in rows ==> ReadyRef(v.key.node, v.hash) in w.ready && v.vec == Canonical(env, v.hash)
  }

  /** They are filed under the ref's own repo and branch. */
  ghost predicate RowsOk(env: Env, db: Db, w: Writes, rows: iset<VecRow>) {
    && RowsCanonical(env, w, rows)
    && forall v :: v in rows ==>
         v.key.node in db.refs && db.refs[v.key.node].repo == v.key.repo && db.refs[v.key.node].branch == v.key.branch
  }

  lemma {:induction false} InsertAllOk(env: Env, table: map<ContentHash, StoredRow>, ins: seq<Insert>)
    requires TableOk(env, table) && forall i :: i in ins ==> RowOk(env, i.hash, i.row)
    ensures TableOk(env, InsertAll(table, ins))
    ensures forall h :: h in InsertAll(table, ins) <==> h in table || Inserted(ins, h)
    ensures forall h :: h in table ==> InsertAll(table, ins)[h] == table[h]
  {
    hide RowOk;
    if ins != [] {
      var n := |ins| - 1;
      InsertAllOk(env, table, ins[..n]);
      forall h ensures Inserted(ins, h) <==> Inserted(ins[..n], h) || h == ins[n].hash {
        if Inserted(ins[..n], h) {
          var i :| i in ins[..n] && i.hash == h;
          assert i in ins;
        }
        if Inserted(ins, h) && h != ins[n].hash {
          var i :| i in ins && i.hash == h;
          assert i in ins[..n];
        }
      }
    }
  }

  /** Ready marks exactly the listed refs, with their hash, and changes nothing else of them. */
  lemma {:induction false} MarkReadyAt(refs: map<NodeId, Ref>, ready: seq<ReadyRef>, n: NodeId)
    requires DistinctFlips(ready)
    ensures MarkReady(refs, ready).Keys == refs.Keys
    ensures forall r :: r in ready && r.node == n && n in refs ==>
        MarkReady(refs, ready)[n] == refs[n].(state := Ready(r.hash))
    ensures n in refs && (forall r :: r in ready ==> r.node != n) ==> MarkReady(refs, ready)[n] == refs[n]
  {
    if ready != [] {
      var k := |ready| - 1;
      MarkReadyAt(refs, ready[..k], n);
      assert ready == ready[..k] + [ready[k]];
    }
  }

  lemma {:induction false} MarkFailedAt(refs: map<NodeId, Ref>, failed: seq<NodeId>, maxAttempts: int, n: NodeId)
    ensures MarkFailed(refs, failed, maxAttempts).Keys == refs.Keys
    ensures n in refs ==> var r := MarkFailed(refs, failed, maxAttempts)[n];
              && r.repo == refs[n].repo && r.branch == refs[n].branch && r.text == refs[n].text
              && (!refs[n].state.Pending? ==> r == refs[n]) && (refs[n].state.Pending? ==> !r.state.Ready?)
              && (n !in failed ==> r == refs[n])
  {
    if failed != [] {
      var k := |failed| - 1;
      MarkFailedAt(refs, failed[..k], maxAttempts, n);
    }
  }

  ghost predicate Flips(w: Writes, n: NodeId) {
    exists q :: q in w.ready && q.node == n
  }

  /** What a batch does to one ref, whatever its state: the store's update asks for the node only. */
  lemma ApplyAt(db: Db, w: Writes, maxAttempts: int, n: NodeId)
    requires DistinctFlips(w.ready)
    ensures Apply(db, w, maxAttempts).refs.Keys == db.refs.Keys
    ensures n in db.refs ==> var r := Apply(db, w, maxAttempts).refs[n];
              && r.repo == db.refs[n].repo && r.branch == db.refs[n].branch && r.text == db.refs[n].text
              && (forall q :: q in w.ready && q.node == n ==> r.state == Ready(q.hash))
              && (!Flips(w, n) ==>
                  (db.refs[n].state.Ready? <==> r.state.Ready?) &&
                  (r.state.Ready? || n !in w.failed ==> r == db.refs[n]))
  {
    MarkReadyAt(db.refs, w.ready, n);
    MarkFailedAt(MarkReady(db.refs, w.ready), w.failed, if maxAttempts < 1 then 1 else maxAttempts, n);
    hide MarkReady, MarkFailed, InsertAll;
  }

  /** One more failed attempt gives a pending ref up at the limit, and the least limit is one. */
  lemma {:induction false} MarkFailedOnce(refs: map<NodeId, Ref>, failed: seq<NodeId>, limit: int, n: NodeId)
    requires n in refs && refs[n].state.Pending? && n in failed
    requires forall a, b :: 0 <= a < b < |failed| ==> failed[a] != failed[b]
    ensures n in MarkFailed(refs, failed, limit)
    ensures MarkFailed(refs, failed, limit)[n].state ==
              if refs[n].state.attempts + 1 >= limit then Failed else Pending(refs[n].state.attempts + 1)
  {
    var k := |failed| - 1;
    MarkFailedAt(refs, failed[..k], limit, n);
    if n in failed[..k] {
      MarkFailedOnce(refs, failed[..k], limit, n);
    }
  }

  /** What a batch does to a ref whose text failed: it is given up at the limit, and tried again below it. */
  lemma FailedAt(db: Db, w: Writes, maxAttempts: int, n: NodeId)
    requires DistinctFlips(w.ready) && n in db.refs && db.refs[n].state.Pending? && !Flips(w, n)
    requires n in w.failed && forall a, b :: 0 <= a < b < |w.failed| ==> w.failed[a] != w.failed[b]
    ensures n in Apply(db, w, maxAttempts).refs
    ensures var tries := db.refs[n].state.attempts + 1;
            var s := Apply(db, w, maxAttempts).refs[n].state;
            s == if tries < maxAttempts then Pending(tries) else Failed
  {
    MarkReadyAt(db.refs, w.ready, n);
    hide MarkReady, InsertAll;
    MarkFailedOnce(MarkReady(db.refs, w.ready), w.failed, if maxAttempts < 1 then 1 else maxAttempts, n);
    hide MarkFailed;
  }

  /** A batch that fails the one ref. */
  function Failing(n: NodeId): Writes {
    Writes([], [], [n])
  }

  ghost function FailedTimes(db: Db, n: NodeId, maxAttempts: int, k: nat): Db {
    if k == 0 then db else Apply(FailedTimes(db, n, maxAttempts, k - 1), Failing(n), maxAttempts)
  }

  /** Failing k times in a row, a new ref is pending with k attempts until k reaches the limit, then failed for good. */
  lemma {:induction false} GivenUpAtLimit(db: Db, n: NodeId, maxAttempts: int, k: nat)
    requires n in db.refs && db.refs[n].state == Pending(0) && k > 0
    ensures n in FailedTimes(db, n, maxAttempts, k).refs
    ensures FailedTimes(db, n, maxAttempts, k).refs[n].state == if k < maxAttempts then Pending(k) else Failed
  {
    var before := FailedTimes(db, n, maxAttempts, k - 1);
    if k > 1 {
      GivenUpAtLimit(db, n, maxAttempts, k - 1);
    }
    ApplyAt(before, Failing(n), maxAttempts, n);
    if before.refs[n].state.Pending? {
      FailedAt(before, Failing(n), maxAttempts, n);
    } else {
      MarkFailedAt(before.refs, [n], if maxAttempts < 1 then 1 else maxAttempts, n);
    }
  }

  /** Stored rows are never overwritten, and every hash flipped to is stored. */
  lemma ApplyTable(env: Env, db: Db, w: Writes, maxAttempts: int)
    requires TableOk(env, db.table) && BatchOk(env, db, w)
    ensures TableOk(env, Apply(db, w, maxAttempts).table)
    ensures forall h :: h in db.table ==>
        h in Apply(db, w, maxAttempts).table && Apply(db, w, maxAttempts).table[h] == db.table[h]
    ensures forall r :: r in w.ready ==> r.hash in Apply(db, w, maxAttempts).table
  {
    InsertAllOk(env, db.table, w.inserts);
    hide RowOk, InsertAll, MarkReady, MarkFailed;
  }

  /** The ready refs are right after a batch exactly when it flipped none against another text's hash. */
  lemma RefsRightExactly(env: Env, db: Db, w: Writes, maxAttempts: int)
    requires DbOk(env, db) && BatchOk(env, db, w)
    ensures RefsOk(Apply(db, w, maxAttempts)) <==> !Misflips(db, w)
  {
    ApplyTable(env, db, w, maxAttempts);
    hide RowOk, Apply, TableOk;
    var d := Apply(db, w, maxAttempts);
    if Misflips(db, w) {
      var r :| r in w.ready && r.node in db.refs && r.hash.text != db.refs[r.node].text;
      ApplyAt(db, w, maxAttempts, r.node);
    } else {
      forall n | n in d.refs && d.refs[n].state.Ready?
        ensures d.refs[n].state.hash in d.table && d.refs[n].state.hash.text == d.refs[n].text
      {
        ApplyAt(db, w, maxAttempts, n);
        if Flips(w, n) {
          var q :| q in w.ready && q.node == n;
        }
      }
    }
  }

  lemma ApplyDbOk(env: Env, db: Db, w: Writes, maxAttempts: int)
    requires DbOk(env, db) && BatchOk(env, db, w) && !Misflips(db, w)
    ensures DbOk(env, Apply(db, w, maxAttempts))
  {
    ApplyTable(env, db, w, maxAttempts);
    RefsRightExactly(env, db, w, maxAttempts);
  }

  // ---------- steps ----------

  /** Some of the rows were upserted, possibly not all, and nothing else changed. */
  ghost predicate Upserted(before: Index, after: Index, rows: iset<VecRow>) {
    && before.Keys <= after.Keys
    && forall k :: k in after ==>
        (k in before && after[k] == before[k]) || (exists v :: v in rows && v.key == k && after[k] == v.vec)
  }

  /** A batch is written, fully or not at all; vectors go to the index only if it was. */
  ghost predicate Written(w: World, w': World, writes: Writes, rows: iset<VecRow>, maxAttempts: int) {
    w' == w || (w'.db == Apply(w.db, writes, maxAttempts) && Upserted(w.index, w'.index, rows))
  }

  /** A batch written with its refs as they were fetched. */
  ghost predicate PersistStep(env: Env, w: World, w': World, writes: Writes, rows: iset<VecRow>, maxAttempts: int) {
    WritesOk(env, w.db, writes) && RowsOk(env, w.db, writes, rows) && Written(w, w', writes, rows, maxAttempts)
  }

  /** The rows a rehydrate loads: ready refs joined with their stored embedding, empty ones skipped. */
  ghost predicate ReadyRow(db: Db, v: VecRow) {
    && ReadyKey(db, v.key) && v.hash == db.refs[v.key.node].state.hash && v.hash in db.table
    && v.vec == Unpack(db.table[v.hash]) && v.vec != []
  }

  ghost predicate RehydrateStep(w: World, w': World) {
    w'.db == w.db && Upserted(w.index, w'.index, iset v: VecRow | ReadyRow(w.db, v))
  }

  /** A restart keeps the durable state and any part of the index. */
  ghost predicate RestartStep(w: World, w': World) {
    w'.db == w.db && forall k :: k in w'.index ==> k in w.index && w'.index[k] == w.index[k]
  }

  /** Promotion queues the refs of its nodes: new ones, and known ones again whatever they were. */
  ghost predicate EnqueueStep(w: World, w': World, queued: set<NodeId>) {
    && w'.index == w.index && w'.db.table == w.db.table && w'.db.refs.Keys == w.db.refs.Keys + queued
    && (forall n :: n in queued ==> w'.db.refs[n].state.Pending?)
    && (forall n :: n in w.db.refs && n !in queued ==> w'.db.refs[n] == w.db.refs[n])
  }

  ghost predicate Step(env: Env, w: World, w': World) {
    || (exists writes, rows, m :: PersistStep(env, w, w', writes, rows, m))
    || RehydrateStep(w, w')
    || RestartStep(w, w')
    || (exists queued :: EnqueueStep(w, w', queued))
  }

  /** Whatever became of its refs since, a batch keeps the table right and the index made of stored embeddings. */
  lemma PersistKeeps(env: Env, w: World, w': World, writes: Writes, rows: iset<VecRow>, maxAttempts: int)
    requires TableOk(env, w.db.table) && IndexOk(env, w)
    requires BatchOk(env, w.db, writes) && RowsCanonical(env, writes, rows) && Written(w, w', writes, rows, maxAttempts)
    ensures TableOk(env, w'.db.table) && IndexOk(env, w')
    ensures forall h :: h in w.db.table ==> h in w'.db.table && w'.db.table[h] == w.db.table[h]
  {
    hide Apply, Encode, RowOk, Canonical;
    if w' != w {
      ApplyTable(env, w.db, writes, maxAttempts);
      forall k | k in w'.index ensures SomeStored(env, w'.db.table, w'.index[k]) {
        if k in w.index && w'.index[k] == w.index[k] {
          var h :| h in w.db.table && w.index[k] == Canonical(env, h);
          assert h in w'.db.table;
        } else {
          var v :| v in rows && v.key == k && w'.index[k] == v.vec;
          assert ReadyRef(k.node, v.hash) in writes.ready;
          assert v.hash in w'.db.table;
        }
      }
    }
  }

  lemma PersistKeepsRefs(env: Env, w: World, w': World, writes: Writes, rows: iset<VecRow>, maxAttempts: int)
    requires Inv(env, w) && PersistStep(env, w, w', writes, rows, maxAttempts)
    ensures Inv(env, w')
  {
    hide IndexOk, TableOk, RefsOk;
    PersistKeeps(env, w, w', writes, rows, maxAttempts);
    if w' != w {
      ApplyDbOk(env, w.db, writes, maxAttempts);
    }
  }

  lemma ReadyRowStored(env: Env, db: Db, v: VecRow)
    requires TableOk(env, db.table) && ReadyRow(db, v)
    ensures v.vec == Canonical(env, v.hash) && db.table[v.hash] == Pack(v.vec) && SomeStored(env, db.table, v.vec)
  {
    assert RowOk(env, v.hash, db.table[v.hash]);
    Unpacks(Canonical(env, v.hash));
  }

  lemma RehydrateKeeps(env: Env, w: World, w': World)
    requires Inv(env, w) && RehydrateStep(w, w')
    ensures Inv(env, w')
  {
    forall k | k in w'.index ensures SomeStored(env, w'.db.table, w'.index[k]) {
      if !(k in w.index && w'.index[k] == w.index[k]) {
        var v :| v in (iset v: VecRow | ReadyRow(w.db, v)) && v.key == k && w'.index[k] == v.vec;
        ReadyRowStored(env, w.db, v);
      }
    }
  }

  lemma EnqueueKeeps(env: Env, w: World, w': World, queued: set<NodeId>)
    requires Inv(env, w) && EnqueueStep(w, w', queued)
    ensures Inv(env, w')
  {
    hide RowOk, SomeStored;
    forall n | n in w'.db.refs && w'.db.refs[n].state.Ready?
      ensures w'.db.refs[n].state.hash in w'.db.table && w'.db.refs[n].state.hash.text == w'.db.refs[n].text
    {
      assert n !in queued;
    }
  }

  lemma StepKeeps(env: Env, w: World, w': World)
    requires Inv(env, w) && Step(env, w, w')
    ensures Inv(env, w')
  {
    if writes, rows, m :| PersistStep(env, w, w', writes, rows, m) {
      PersistKeepsRefs(env, w, w', writes, rows, m);
    } else if RehydrateStep(w, w') {
      RehydrateKeeps(env, w, w');
    } else if queued :| EnqueueStep(w, w', queued) {
      EnqueueKeeps(env, w, w', queued);
    }
  }

  // ---------- every run ----------

  ghost predicate IsRun(env: Env, run: seq<World>) {
    run != [] && forall j :: 0 < j < |run| ==> Step(env, run[j - 1], run[j])
  }

  /**
   In every run, whatever fails, restarts or is queued again, the durable rows are right and every indexed
   vector is the normalised embedding of some stored text.
   */
  lemma {:induction false} EveryRun(env: Env, run: seq<World>, i: nat)
    requires IsRun(env, run) && i < |run| && Inv(env, run[0])
    ensures Inv(env, run[i])
  {
    hide Inv;
    hide Step;
    if i > 0 {
      EveryRun(env, run, i - 1);
      StepKeeps(env, run[i - 1], run[i]);
    }
  }

  /** A ready ref is reset to pending: its file was promoted again. */
  ghost predicate Reset(w: World, w': World, n: NodeId) {
    n in w.db.refs && w.db.refs[n].state.Ready? && n in w'.db.refs && !w'.db.refs[n].state.Ready?
  }

  ghost predicate Flipped(w: World, w': World, n: NodeId) {
    !(n in w.db.refs && w.db.refs[n].state.Ready?) && n in w'.db.refs && w'.db.refs[n].state.Ready?
  }

  /** Whatever a step writes to the index agrees with the table, and only for a ready ref. */
  lemma WrittenAgrees(env: Env, w: World, w': World, k: IndexKey)
    requires TableOk(env, w.db.table) && Step(env, w, w') && k in w'.index &&
        !(k in w.index && w'.index[k] == w.index[k])
    ensures Agrees(w', k)
  {
    hide Apply, Encode;
    if writes, rows, m :| PersistStep(env, w, w', writes, rows, m) {
      var v: VecRow :| v in rows && v.key == k && w'.index[k] == v.vec;
      assert ReadyRef(k.node, v.hash) in writes.ready;
      ApplyAt(w.db, writes, m, k.node);
      ApplyTable(env, w.db, writes, m);
      assert RowOk(env, v.hash, w'.db.table[v.hash]);
    } else if RehydrateStep(w, w') {
      var v :| v in (iset v: VecRow | ReadyRow(w.db, v)) && v.key == k && w'.index[k] == v.vec;
      ReadyRowStored(env, w.db, v);
    }
  }

  /** A step keeps the row of a ref that stays ready. */
  lemma ReadyStays(env: Env, w: World, w': World, n: NodeId)
    requires TableOk(env, w.db.table) && Step(env, w, w') && !Reset(w, w', n)
    requires n in w.db.refs && w.db.refs[n].state.Ready? && w.db.refs[n].state.hash in w.db.table
    ensures n in w'.db.refs && w'.db.refs[n] == w.db.refs[n]
    ensures w.db.refs[n].state.hash in w'.db.table &&
        w'.db.table[w.db.refs[n].state.hash] == w.db.table[w.db.refs[n].state.hash]
  {
    hide Apply, Encode, RowOk, IndexOk;
    if writes, rows, m :| PersistStep(env, w, w', writes, rows, m) {
      if w' != w {
        ApplyAt(w.db, writes, m, n);
        ApplyTable(env, w.db, writes, m);
      }
    } else if queued :| EnqueueStep(w, w', queued) {
      assert n !in queued;
    }
  }

  lemma AgreesStep(env: Env, w: World, w': World, k: IndexKey)
    requires TableOk(env, w.db.table) && Step(env, w, w') && Agrees(w, k) && k in w'.index && !Reset(w, w', k.node)
    ensures Agrees(w', k)
  {
    if k in w.index && w'.index[k] == w.index[k] {
      ReadyStays(env, w, w', k.node);
    } else {
      WrittenAgrees(env, w, w', k);
    }
  }

  ghost predicate NeverReset(run: seq<World>, j: nat, i: nat, n: NodeId) {
    j <= i < |run| && forall m :: j < m <= i ==> !Reset(run[m - 1], run[m], n)
  }

  ghost predicate NeverFlipped(run: seq<World>, j: nat, i: nat, n: NodeId) {
    j <= i < |run| && forall m :: j < m <= i ==> !Flipped(run[m - 1], run[m], n)
  }

  /**
   An entry that agreed at j and was not dropped since still agrees if its ref was not reset since; and,
   until the ref is flipped again, only then.
   */
  lemma {:induction false} AgreesUntilReset(env: Env, run: seq<World>, j: nat, i: nat, k: IndexKey)
    requires IsRun(env, run) && Inv(env, run[0]) && j <= i < |run| && Agrees(run[j], k)
    requires forall m :: j <= m <= i ==> k in run[m].index
    ensures NeverReset(run, j, i, k.node) ==> Agrees(run[i], k)
    ensures NeverFlipped(run, j, i, k.node) ==> (Agrees(run[i], k) <==> NeverReset(run, j, i, k.node))
  {
    hide IsRun, Inv, Agrees, NeverReset, NeverFlipped;
    if NeverReset(run, j, i, k.node) {
      AgreesIfNeverReset(env, run, j, i, k);
    } else if NeverFlipped(run, j, i, k.node) {
      ResetStaysPending(run, j, i, k.node);
      AgreesMeansReady(run[i], k);
    }
  }

  ghost predicate IsReady(w: World, n: NodeId) { n in w.db.refs && w.db.refs[n].state.Ready? }

  lemma AgreesMeansReady(w: World, k: IndexKey)
    ensures Agrees(w, k) ==> IsReady(w, k.node)
  {
  }

  lemma {:induction false} AgreesIfNeverReset(env: Env, run: seq<World>, j: nat, i: nat, k: IndexKey)
    requires IsRun(env, run) && Inv(env, run[0]) && j <= i < |run| && Agrees(run[j], k) && NeverReset(run, j, i, k.node)
    requires forall m :: j <= m <= i ==> k in run[m].index
    ensures Agrees(run[i], k)
  {
    hide Step, Agrees, TableOk, IndexOk;
    if i > j {
      NeverStep(run, j, i, k.node);
      AgreesIfNeverReset(env, run, j, i - 1, k);
      EveryRun(env, run, i - 1);
      AgreesStep(env, run[i - 1], run[i], k);
    }
  }

  lemma {:induction false} ResetStaysPending(run: seq<World>, j: nat, i: nat, n: NodeId)
    requires j <= i < |run| && !NeverReset(run, j, i, n) && NeverFlipped(run, j, i, n)
    ensures !IsReady(run[i], n)
  {
    if i > j {
      NeverStep(run, j, i, n);
      hide NeverReset, NeverFlipped;
      if !Reset(run[i - 1], run[i], n) {
        ResetStaysPending(run, j, i - 1, n);
      }
    }
  }

  lemma NeverStep(run: seq<World>, j: nat, i: nat, n: NodeId)
    requires j < i < |run|
    ensures NeverReset(run, j, i, n) <==> NeverReset(run, j, i - 1, n) && !Reset(run[i - 1], run[i], n)
    ensures NeverFlipped(run, j, i, n) <==> NeverFlipped(run, j, i - 1, n) && !Flipped(run[i - 1], run[i], n)
  {
    hide Reset, Flipped;
  }

  // ---------- the whole index, in every state of a run ----------

  /** Every indexed vector belongs to a durably ready ref and is its stored embedding. */
  ghost predicate AllAgree(w: World) {
    forall k :: k in w.index ==> Agrees(w, k)
  }

  /** A step that resets the ref of an indexed vector and leaves the vector there. */
  ghost predicate ResetsIndexed(w: World, w': World) {
    exists k :: k in w.index && k in w'.index && Reset(w, w', k.node)
  }

  lemma AllAgreeStep(env: Env, w: World, w': World)
    requires TableOk(env, w.db.table) && Step(env, w, w') && AllAgree(w)
    ensures AllAgree(w') <==> !ResetsIndexed(w, w')
  {
    hide Step, Pack, TableOk;
    if ResetsIndexed(w, w') {
      var k :| k in w.index && k in w'.index && Reset(w, w', k.node);
      assert !Agrees(w', k);
    } else {
      forall k | k in w'.index ensures Agrees(w', k) {
        if k in w.index {
          AgreesStep(env, w, w', k);
        } else {
          WrittenAgrees(env, w, w', k);
        }
      }
    }
  }

  /**
   In every run the whole index has agreed with the table all along exactly when no step reset the ref of
   an indexed vector and left it indexed: drains, failures, restarts and rehydrations never break it.
   */
  lemma {:induction false} IndexAgreesExactly(env: Env, run: seq<World>, i: nat)
    requires IsRun(env, run) && i < |run| && Inv(env, run[0]) && AllAgree(run[0])
    ensures (forall j :: 0 <= j <= i ==> AllAgree(run[j])) <==>
        (forall m :: 0 < m <= i ==> !ResetsIndexed(run[m - 1], run[m]))
  {
    hide IsRun, Inv, AllAgree, ResetsIndexed;
    if i > 0 {
      IndexAgreesExactly(env, run, i - 1);
      if AllAgree(run[i - 1]) {
        RunAgreesStep(env, run, i);
      }
    }
  }

  lemma RunAgreesStep(env: Env, run: seq<World>, i: nat)
    requires IsRun(env, run) && 0 < i < |run| && Inv(env, run[0]) && AllAgree(run[i - 1])
    ensures AllAgree(run[i]) <==> !ResetsIndexed(run[i - 1], run[i])
  {
    hide Step, AllAgree, ResetsIndexed;
    EveryRun(env, run, i - 1);
    AllAgreeStep(env, run[i - 1], run[i]);
  }

  /** Promoting an indexed node again leaves its vector in the index while its ref is pending. */
  lemma ResetLeavesEntry(w: World, k: IndexKey) returns (w': World)
    requires Agrees(w, k)
    ensures EnqueueStep(w, w', {k.node}) && k in w'.index && !Agrees(w', k)
  {
    var r := w.db.refs[k.node];
    w' := w.(db := w.db.(refs := w.db.refs[k.node := r.(state := Pending(0))]));
    assert w'.db.refs.Keys == w.db.refs.Keys + {k.node};
  }

  /** After a complete rehydration the index holds exactly the ready refs iff it held no entry of another. */
  lemma ExactAfterRehydrate(w: World, w': World)
    requires RehydrateStep(w, w') && Complete(w')
    ensures (forall k :: k in w'.index <==> ReadyKey(w'.db, k)) <==> (forall k :: k in w.index ==> ReadyKey(w.db, k))
  {
    hide Pack, Unpack;
    forall k | k in w'.index ensures ReadyKey(w'.db, k) || k in w.index {
    }
  }

  /**
   Dedup is invisible: at every point of every run a ready ref's stored bytes decode to the normalised
   embedding of its own text, and so does its index entry whenever that agrees.
   */
  lemma DedupInvisible(env: Env, run: seq<World>, i: nat, n: NodeId)
    requires IsRun(env, run) && i < |run| && Inv(env, run[0])
    requires n in run[i].db.refs && run[i].db.refs[n].state.Ready?
    ensures var r := run[i].db.refs[n];
            var own := env.normalize(env.embed(r.state.hash.model, r.text));
            var k := IndexKey(r.repo, r.branch, n);
            && r.state.hash in run[i].db.table && Unpack(run[i].db.table[r.state.hash]) == own
            && (k in run[i].index ==> (Agrees(run[i], k) <==> run[i].index[k] == own))
  {
    EveryRun(env, run, i);
    hide Step, Pack, Unpack;
    var w, r := run[i], run[i].db.refs[n];
    var k := IndexKey(r.repo, r.branch, n);
    assert RowOk(env, r.state.hash, w.db.table[r.state.hash]);
    Unpacks(Canonical(env, r.state.hash));
    if k in w.index {
      Unpacks(w.index[k]);
    }
  }
}
