/**
 Saves, deletions and any number of promotions interleaved step by step. A promotion takes a snapshot of
 its branch, commits it, and then unstages the paths one by one (internal/application/promoter.go); the
 steps of different promotions, and of saves, mix in any order.
 */
module PromotionRace {
  import opened Basics
  import opened Staging

  /** A promotion under way: its snapshot, and whether its transaction has committed. */
  datatype Batch = Batch(snap: Files, committed: bool)

  datatype Sys = Sys(files: St, open: map<nat, Batch>)

  datatype Action =
    | SaveDone(k: Key, parsed: Option<Parsed>)
    | DeleteDone(k: Key)
    | TakeSnapshot(p: nat, repo: Name, branch: Name)
    | Store(p: nat, ok: bool)
    | UnstagePath(p: nat, k: Key)
    | Finish(p: nat)

  predicate Enabled(s: Sys, a: Action) {
    match a
    case SaveDone(_, _) => true
    case DeleteDone(_) => true
    case TakeSnapshot(p, _, _) => p !in s.open
    case Store(p, _) => p in s.open && !s.open[p].committed
    case UnstagePath(p, k) => p in s.open && s.open[p].committed && k in s.open[p].snap
    case Finish(p) => p in s.open
  }

  ghost function Next(s: Sys, a: Action): Sys
    requires Enabled(s, a)
  {
    match a
    case SaveDone(k, parsed) => s.(files := After(s.files, Save(k, parsed)))
    case DeleteDone(k) => s.(files := After(s.files, Delete(k)))
    case TakeSnapshot(p, repo, branch) => s.(open := s.open[p := Batch(OnBranch(s.files.staged, repo, branch), false)])
    case Store(p, ok) =>
      if ok then Sys(Committed(s.files, s.open[p].snap), s.open[p := s.open[p].(committed := true)]) else s
    case UnstagePath(p, k) => s.(files := s.files.(staged := s.files.staged - {k}))
    case Finish(p) => s.(open := s.open - {p})
  }

  // ---------- what each step does to the view ----------

  /** What the file should show after the action, if it showed v before. */
  function Written(v: Parsed, a: Action, k: Key): Parsed {
    if a.SaveDone? && a.k == k && a.parsed.Some? then a.parsed.value
    else if a.DeleteDone? && a.k == k then TOMBSTONE
    else v
  }

  function LastWritten(v: Parsed, acts: seq<Action>, k: Key): Parsed {
    if acts == [] then v else Written(LastWritten(v, acts[..|acts| - 1], k), acts[|acts| - 1], k)
  }

  ghost function StoredView(s: St, k: Key): Parsed {
    if k in s.durable then s.durable[k] else TOMBSTONE
  }

  /**
   The two ways a promotion can hurt: it commits an old snapshot over a file that nobody has staged any
   more, or it unstages a file that has since been saved with contents the store does not hold.
   */
  ghost predicate Clobbers(s: Sys, a: Action, k: Key) {
    || (a.Store? && a.ok && a.p in s.open && k in s.open[a.p].snap && k !in s.files.staged
        && s.open[a.p].snap[k] != View(s.files, k))
    || (a.UnstagePath? && a.k == k && k in s.files.staged && s.files.staged[k] != StoredView(s.files, k))
  }

  lemma StepShows(s: Sys, a: Action, k: Key)
    requires Enabled(s, a)
    ensures View(Next(s, a).files, k) == Written(View(s.files, k), a, k) <==> !Clobbers(s, a, k)
  {
  }

  // ---------- every interleaving ----------

  ghost predicate IsRun(run: seq<Sys>, acts: seq<Action>) {
    && |run| == |acts| + 1
    && forall j :: 0 <= j < |acts| ==> Enabled(run[j], acts[j]) && run[j + 1] == Next(run[j], acts[j])
  }

  /** Every file shows its last write after j actions. */
  ghost predicate AllRight(run: seq<Sys>, acts: seq<Action>, j: nat)
    requires j < |run| == |acts| + 1
  {
    forall k :: View(run[j].files, k) == LastWritten(View(run[0].files, k), acts[..j], k)
  }

  ghost predicate NoClobber(s: Sys, a: Action) {
    forall k :: !Clobbers(s, a, k)
  }

  lemma RightStep(run: seq<Sys>, acts: seq<Action>, j: nat)
    requires IsRun(run, acts) && j < |acts| && AllRight(run, acts, j)
    ensures AllRight(run, acts, j + 1) <==> NoClobber(run[j], acts[j])
  {
    assert run[j + 1] == Next(run[j], acts[j]);
    assert acts[..j + 1][..j] == acts[..j];
    var n := j + 1;
    forall k ensures View(run[n].files, k) == LastWritten(View(run[0].files, k), acts[..n], k) <==>
        !Clobbers(run[j], acts[j], k) {
      StepShows(run[j], acts[j], k);
      hide View, Next, Clobbers;
    }
    hide View, Next, Clobbers, LastWritten;
  }

  /**
   For every interleaving of saves, deletions and promotions: the view has been every file's last write
   all along exactly when no commit and no unstaging clobbered a file.
   */
  lemma {:induction false} RightExactlyWithoutClobber(run: seq<Sys>, acts: seq<Action>, i: nat)
    requires IsRun(run, acts) && i <= |acts|
    ensures (forall j :: 0 <= j <= i ==> AllRight(run, acts, j)) <==>
        (forall j :: 0 <= j < i ==> NoClobber(run[j], acts[j]))
  {
    if i == 0 {
      assert acts[..0] == [];
    } else {
      RightExactlyWithoutClobber(run, acts, i - 1);
      hide AllRight, NoClobber, IsRun;
      if AllRight(run, acts, i - 1) {
        RightStep(run, acts, i - 1);
      }
    }
  }

  // ---------- what a promotion may store ----------

  ghost predicate Did(acts: seq<Action>, a: Action, from: nat, to: nat) {
    exists m :: from < m < to && m < |acts| && acts[m] == a
  }

  /** Promotion p took its snapshot at j: the whole of its branch's staging then, and nothing else. */
  ghost predicate TakenAt(run: seq<Sys>, acts: seq<Action>, j: nat, b: Batch, p: nat) {
    && j < |acts| && j < |run| && acts[j].TakeSnapshot? && acts[j].p == p
    && forall k :: (k in b.snap <==> k.repo == acts[j].repo && k.branch == acts[j].branch && k in run[j].files.staged)
                   && (k in b.snap && k in run[j].files.staged ==> b.snap[k] == run[j].files.staged[k])
  }

  /** As above, and it counts as committed exactly when it was stored since. */
  ghost predicate Taken(run: seq<Sys>, acts: seq<Action>, j: nat, i: nat, b: Batch, p: nat) {
    j < i && TakenAt(run, acts, j, b, p) && (b.committed <==> Did(acts, Store(p, true), j, i))
  }

  lemma DidStep(acts: seq<Action>, a: Action, from: nat, to: nat)
    requires from < to < |acts|
    ensures Did(acts, a, from, to + 1) <==> Did(acts, a, from, to) || acts[to] == a
  {
    if Did(acts, a, from, to) {
      var m :| from < m < to && m < |acts| && acts[m] == a;
      assert from < m < to + 1;
    }
  }

  lemma BatchStep(s: Sys, a: Action, p: nat)
    requires Enabled(s, a) && p in Next(s, a).open
    ensures a.TakeSnapshot? && a.p == p <==> p !in s.open
    ensures p in s.open ==> Next(s, a).open[p].snap == s.open[p].snap
    ensures p in s.open ==> (Next(s, a).open[p].committed <==> s.open[p].committed || a == Store(p, true))
  {
  }

  /** In every run each promotion under way holds what its branch had staged when it began. */
  lemma {:induction false} SnapshotTaken(run: seq<Sys>, acts: seq<Action>, i: nat, p: nat) returns (j: nat)
    requires IsRun(run, acts) && run[0].open == map[] && i < |run| && p in run[i].open
    ensures Taken(run, acts, j, i, run[i].open[p], p)
  {
    var n := i - 1;
    assert Enabled(run[n], acts[n]) && run[n + 1] == Next(run[n], acts[n]);
    BatchStep(run[n], acts[n], p);
    if p in run[n].open {
      j := SnapshotTaken(run, acts, n, p);
      DidStep(acts, Store(p, true), j, n);
      hide Did, Next, Enabled;
    } else {
      j := n;
      assert !Did(acts, Store(p, true), n, i);
    }
  }

  /** The file was staged, with contents v, when a promotion of its own branch began that was stored before i. */
  ghost predicate StagedThenStored(run: seq<Sys>, acts: seq<Action>, i: nat, k: Key, v: Parsed) {
    exists j: nat, p: nat :: StoredFrom(run, acts, j, p, i, k, v)
  }

  ghost predicate StoredFrom(run: seq<Sys>, acts: seq<Action>, j: nat, p: nat, i: nat, k: Key, v: Parsed) {
    && j < |run| && j < |acts| && acts[j] == TakeSnapshot(p, k.repo, k.branch) && Did(acts, Store(p, true), j, i)
    && k in run[j].files.staged && run[j].files.staged[k] == v
  }

  lemma StoredFromLater(run: seq<Sys>, acts: seq<Action>, i: nat, k: Key, v: Parsed)
    requires i < |acts| && StagedThenStored(run, acts, i, k, v)
    ensures StagedThenStored(run, acts, i + 1, k, v)
  {
    var j: nat, p: nat :| StoredFrom(run, acts, j, p, i, k, v);
    if j < i {
      DidStep(acts, Store(p, true), j, i);
    }
    assert StoredFrom(run, acts, j, p, i + 1, k, v);
  }

  lemma DurableStep(s: Sys, a: Action, k: Key)
    requires Enabled(s, a)
    ensures var t := Next(s, a).files.durable;
            if a.Store? && a.ok && k in s.open[a.p].snap then k in t && t[k] == s.open[a.p].snap[k]
            else (k in t <==> k in s.files.durable) && (k in t ==> t[k] == s.files.durable[k])
  {
  }

  /**
   In every interleaving whatever the store holds of a file was there at the start, or was staged for the
   file when a promotion of its own branch began. Nothing stored is ever lost.
   */
  lemma {:induction false} StoredWasStaged(run: seq<Sys>, acts: seq<Action>, i: nat, k: Key)
    requires IsRun(run, acts) && run[0].open == map[] && i < |run|
    ensures k in run[0].files.durable ==> k in run[i].files.durable
    ensures k in run[i].files.durable ==>
              || (k in run[0].files.durable && run[i].files.durable[k] == run[0].files.durable[k])
              || StagedThenStored(run, acts, i, k, run[i].files.durable[k])
  {
    hide Did, StagedThenStored, TakenAt;
    if i > 0 {
      var n := i - 1;
      assert Enabled(run[n], acts[n]) && run[n + 1] == Next(run[n], acts[n]);
      StoredWasStaged(run, acts, n, k);
      DurableStep(run[n], acts[n], k);
      hide Next;
      var a := acts[n];
      if a.Store? && a.ok && k in run[n].open[a.p].snap {
        var j := SnapshotTaken(run, acts, n, a.p);
        NowStored(run, acts, j, n, a.p, run[n].open[a.p], k);
      } else if k in run[n].files.durable && StagedThenStored(run, acts, n, k, run[n].files.durable[k]) {
        StoredFromLater(run, acts, n, k, run[n].files.durable[k]);
      }
    }
  }

  lemma NowStored(run: seq<Sys>, acts: seq<Action>, j: nat, n: nat, p: nat, b: Batch, k: Key)
    requires Taken(run, acts, j, n, b, p) && n < |acts| && acts[n] == Store(p, true) && k in b.snap
    ensures StagedThenStored(run, acts, n + 1, k, b.snap[k])
  {
    DidStep(acts, Store(p, true), j, n);
    hide Did;
    assert StoredFrom(run, acts, j, p, n + 1, k, b.snap[k]);
  }

  // ---------- promotions one at a time ----------

  ghost predicate OneAtATime(run: seq<Sys>, acts: seq<Action>) {
    IsRun(run, acts) && run[0].open == map[] && forall j :: 0 <= j < |acts| && acts[j].TakeSnapshot? ==>
        run[j].open == map[]
  }

  /** A snapshotted file stays staged until the commit, and is stored as snapshotted from then on. */
  ghost predicate Held(s: Sys, p: nat)
    requires p in s.open
  {
    forall k :: k in s.open[p].snap ==>
      if s.open[p].committed then k in s.files.durable &&
          s.files.durable[k] == s.open[p].snap[k] else k in s.files.staged
  }

  ghost predicate Alone(s: Sys) {
    (forall p, q :: p in s.open && q in s.open ==> p == q) && forall p :: p in s.open ==> Held(s, p)
  }

  lemma AloneStep(s: Sys, a: Action)
    requires Alone(s) && Enabled(s, a) && (a.TakeSnapshot? ==> s.open == map[])
    ensures Alone(Next(s, a))
  {
    var t := Next(s, a);
    forall p | p in t.open ensures Held(t, p) {
      if p in s.open {
        assert Held(s, p);
        if a.Store? || a.UnstagePath? {
          assert a.p == p;
        }
      }
    }
  }

  lemma {:induction false} AloneThroughout(run: seq<Sys>, acts: seq<Action>, i: nat)
    requires OneAtATime(run, acts) && i < |run|
    ensures Alone(run[i])
  {
    if i > 0 {
      AloneThroughout(run, acts, i - 1);
      assert run[i - 1 + 1] == Next(run[i - 1], acts[i - 1]);
      AloneStep(run[i - 1], acts[i - 1]);
    }
  }

  /** The path is unstaged although it was saved, with other contents, since the snapshot. */
  ghost predicate DropsNewerSave(s: Sys, a: Action) {
    && a.UnstagePath? && a.p in s.open && a.k in s.open[a.p].snap
    && a.k in s.files.staged && s.files.staged[a.k] != s.open[a.p].snap[a.k]
  }

  lemma AloneClobbers(s: Sys, a: Action)
    requires Alone(s) && Enabled(s, a)
    ensures NoClobber(s, a) <==> !DropsNewerSave(s, a)
  {
    if a.UnstagePath? {
      assert Held(s, a.p);
      assert Clobbers(s, a, a.k) <==> DropsNewerSave(s, a);
    } else if a.Store? {
      assert Held(s, a.p);
    }
  }

  /**
   With promotions one at a time only the unstaging can hurt: the view has been right all along exactly
   when every path was unstaged with the contents its snapshot holds.
   */
  lemma OneAtATimeExactly(run: seq<Sys>, acts: seq<Action>, i: nat)
    requires OneAtATime(run, acts) && i <= |acts|
    ensures (forall j :: 0 <= j <= i ==> AllRight(run, acts, j)) <==>
        (forall j :: 0 <= j < i ==> !DropsNewerSave(run[j], acts[j]))
  {
    RightExactlyWithoutClobber(run, acts, i);
    forall j | 0 <= j < i ensures NoClobber(run[j], acts[j]) <==> !DropsNewerSave(run[j], acts[j]) {
      AloneThroughout(run, acts, j);
      hide Alone, NoClobber, DropsNewerSave;
      AloneClobbers(run[j], acts[j]);
    }
    hide AllRight, NoClobber, DropsNewerSave;
  }

  // ---------- two promotions at once ----------

  ghost predicate Moves(s: Sys, a: Action, s': Sys) { Enabled(s, a) && s' == Next(s, a) }

  /** One file, v on top of what is stored, and the promotions under way. */
  function OneFile(k: Key, staged: Option<Parsed>, durable: Option<Parsed>, open: map<nat, Batch>): Sys {
    Sys(St(if staged.Some? then map[k := staged.value] else map[],
        if durable.Some? then map[k := durable.value] else map[]), open)
  }

  lemma SnapshotOfOne(k: Key, v: Parsed)
    ensures OnBranch(map[k := v], k.repo, k.branch) == map[k := v]
  {
  }

  lemma FirstHalf(k: Key, v1: Parsed, v2: Parsed)
    ensures var b1, b2 := Batch(map[k := v1], false), Batch(map[k := v2], false);
            && Moves(OneFile(k, Some(v1), None, map[]), TakeSnapshot(0, k.repo, k.branch),
                OneFile(k, Some(v1), None, map[0 := b1]))
            && Moves(OneFile(k, Some(v1), None, map[0 := b1]), SaveDone(k, Some(v2)),
                OneFile(k, Some(v2), None, map[0 := b1]))
            && Moves(OneFile(k, Some(v2), None, map[0 := b1]), TakeSnapshot(1, k.repo, k.branch),
                     OneFile(k, Some(v2), None, map[0 := b1, 1 := b2]))
  {
    SnapshotOfOne(k, v1);
    SnapshotOfOne(k, v2);
  }

  lemma SecondHalf(k: Key, v1: Parsed, v2: Parsed)
    ensures var b1, b2, done := Batch(map[k := v1], false), Batch(map[k := v2], false), Batch(map[k := v2], true);
            var s3 := OneFile(k, Some(v2), None, map[0 := b1, 1 := b2]);
            var s4 := OneFile(k, Some(v2), Some(v2), map[0 := b1, 1 := done]);
            var s5 := OneFile(k, None, Some(v2), map[0 := b1, 1 := done]);
            var s6 := OneFile(k, None, Some(v1), map[0 := b1.(committed := true), 1 := done]);
            Moves(s3, Store(1, true), s4) && Moves(s4, UnstagePath(1, k), s5) && Moves(s5, Store(0, true), s6)
  {
  }

  /**
   A promotion overtaken by another of the same branch stores its old snapshot last: v2 was saved last and
   promoted, and v1 is what is seen.
   */
  lemma OvertakenPromotion(k: Key, v1: Parsed, v2: Parsed) returns (run: seq<Sys>, acts: seq<Action>)
    requires v1 != v2
    ensures IsRun(run, acts) && !AllRight(run, acts, |acts|)
  {
    FirstHalf(k, v1, v2);
    SecondHalf(k, v1, v2);
    var b1, b2, done := Batch(map[k := v1], false), Batch(map[k := v2], false), Batch(map[k := v2], true);
    var end := OneFile(k, None, Some(v1), map[0 := b1.(committed := true), 1 := done]);
    assert View(end.files, k) == v1;
    hide OneFile, Enabled, Next;
    acts := [TakeSnapshot(0, k.repo, k.branch), SaveDone(k, Some(v2)), TakeSnapshot(1, k.repo, k.branch),
             Store(1, true), UnstagePath(1, k), Store(0, true)];
    run := [OneFile(k, Some(v1), None, map[]), OneFile(k, Some(v1), None, map[0 := b1]),
            OneFile(k, Some(v2), None, map[0 := b1]), OneFile(k, Some(v2), None, map[0 := b1, 1 := b2]),
            OneFile(k, Some(v2), Some(v2), map[0 := b1, 1 := done]),
                OneFile(k, None, Some(v2), map[0 := b1, 1 := done]), end];
    assert forall j :: 0 <= j < 6 ==> Moves(run[j], acts[j], run[j + 1]);
    LastSaveWins(View(run[0].files, k), acts, k, v2);
    assert acts[..6] == acts;
  }

  lemma LastSaveWins(v: Parsed, acts: seq<Action>, k: Key, w: Parsed)
    requires |acts| == 6 && acts[1] == SaveDone(k, Some(w))
    requires forall i :: 2 <= i < 6 ==> !acts[i].SaveDone? && !acts[i].DeleteDone?
    ensures LastWritten(v, acts, k) == w
  {
    assert acts[..5][..4] == acts[..4] && acts[..4][..3] == acts[..3] && acts[..3][..2] == acts[..2];
    assert acts[..2][..1] == acts[..1];
    var a := LastWritten(v, acts[..1], k);
    assert LastWritten(v, acts[..2], k) == w;
    assert LastWritten(v, acts[..3], k) == w;
    assert LastWritten(v, acts[..4], k) == w;
    assert LastWritten(v, acts[..5], k) == w;
  }
}
