/**
 Saves, branch switches and reconciles interleaved step by step. Each thread runs the source's sequence;
 the steps of different threads mix in any order. A save may stage in one step (Stage) or, as the source
 does, compare the generation first (Check) and write under the lock later (Write). Step j of a run
 happens at time j.
 */
module BranchSwitch {
  import opened Basics
  import opened Staging

  datatype Thread =
    | SaveStart(key: Key)                                   // about to wait for the gate
    | SaveThrough(key: Key)                                 // gate was open
    | SaveRead(key: Key, g: nat, readAt: nat)               // generation read; parsing
    | SaveChecked(key: Key, readAt: nat, checkAt: nat)      // guard passed, not yet written
    | SwitchStart(repo: Name, branch: Name)
    | SwitchBumped(repo: Name, branch: Name, bumpAt: nat)
    | SwitchPaused(repo: Name, branch: Name, bumpAt: nat)
    | SwitchCleared(repo: Name, branch: Name, bumpAt: nat)  // draining
    | ReconcileStart(repo: Name, branch: Name)
    | ReconcileBumped(repo: Name, branch: Name, bumpAt: nat)
    | Done

  datatype Bumped = Bumped(at: nat, gen: nat)

  datatype Cleared = Cleared(repo: Name, branch: Name, bumpAt: nat)

  /** Staged entries remember when their save read the generation; bumps and clears are remembered too. */
  datatype Sys = Sys(
    now: nat,
    gen: nat,
    paused: bool,
    staged: map<Key, nat>,
    threads: map<nat, Thread>,
    bumps: set<Bumped>,
    clears: set<Cleared>
  )

  const INIT := Sys(0, 0, false, map[], map[], {}, {})

  datatype Action =
    | Spawn(t: nat, start: Thread)
    | Pass(t: nat)
    | ReadGen(t: nat)
    | GiveUp(t: nat)
    | Stage(t: nat)
    | Bump(t: nat)
    | Pause(t: nat)
    | Clear(t: nat)
    | Resume(t: nat)
    | Unstage(key: Key)
    | Check(t: nat)
    | Write(t: nat)

  predicate At(s: Sys, t: nat) {
    t in s.threads
  }

  predicate Enabled(s: Sys, a: Action) {
    match a
    case Spawn(t, start) => !At(s, t) && (start.SaveStart? || start.SwitchStart? || start.ReconcileStart?)
    case Pass(t) => At(s, t) && s.threads[t].SaveStart? && !s.paused
    case ReadGen(t) => At(s, t) && s.threads[t].SaveThrough?
    case GiveUp(t) => At(s, t) && s.threads[t].SaveRead?
    case Stage(t) => At(s, t) && s.threads[t].SaveRead?
    case Bump(t) => At(s, t) && (s.threads[t].SwitchStart? || s.threads[t].ReconcileStart?)
    case Pause(t) => At(s, t) && s.threads[t].SwitchBumped?
    case Clear(t) => At(s, t) && (s.threads[t].SwitchPaused? || s.threads[t].ReconcileBumped?)
    case Resume(t) => At(s, t) && s.threads[t].SwitchCleared?
    case Unstage(key) => key in s.staged
    case Check(t) => At(s, t) && s.threads[t].SaveRead? && s.threads[t].g == s.gen
    case Write(t) => At(s, t) && s.threads[t].SaveChecked?
  }

  function Next(s: Sys, a: Action): Sys
    requires Enabled(s, a)
  {
    var n := s.(now := s.now + 1);
    match a
    case Spawn(t, start) => n.(threads := s.threads[t := start])
    case Pass(t) => n.(threads := s.threads[t := SaveThrough(s.threads[t].key)])
    case ReadGen(t) => n.(threads := s.threads[t := SaveRead(s.threads[t].key, s.gen, s.now)])
    case GiveUp(t) => n.(threads := s.threads[t := Done])
    case Stage(t) =>
      var th := s.threads[t];
      n.(threads := s.threads[t := Done], staged := if th.g == s.gen then s.staged[th.key := th.readAt] else s.staged)
    case Bump(t) =>
      var th := s.threads[t];
      n.(gen := s.gen + 1, bumps := s.bumps + {Bumped(s.now, s.gen + 1)},
         threads := s.threads[t := if th.SwitchStart? then SwitchBumped(th.repo, th.branch,
             s.now) else ReconcileBumped(th.repo, th.branch, s.now)])
    case Pause(t) =>
      var th := s.threads[t];
      n.(paused := true, threads := s.threads[t := SwitchPaused(th.repo, th.branch, th.bumpAt)])
    case Clear(t) =>
      var th := s.threads[t];
      n.(staged := map k | k in s.staged && !(k.repo == th.repo && k.branch == th.branch) :: s.staged[k],
         clears := s.clears + {Cleared(th.repo, th.branch, th.bumpAt)},
         threads := s.threads[t := if th.SwitchPaused? then SwitchCleared(th.repo, th.branch, th.bumpAt) else Done])
    case Resume(t) => n.(paused := false, threads := s.threads[t := Done])
    case Unstage(key) => n.(staged := s.staged - {key})
    case Check(t) => n.(threads := s.threads[t := SaveChecked(s.threads[t].key, s.threads[t].readAt, s.now)])
    case Write(t) => n.(threads := s.threads[t := Done], staged := s.staged[s.threads[t].key := s.threads[t].readAt])
  }

  // ---------- what is promised ----------

  /** No staged entry of a cleared branch comes from a save that read the generation before that switch's bump. */
  ghost predicate NothingStale(s: Sys) {
    forall k, c :: k in s.staged && c in s.clears && c.repo == k.repo && c.branch == k.branch ==> c.bumpAt < s.staged[k]
  }

  ghost predicate Active(th: Thread) {
    th.SwitchPaused? || th.SwitchCleared?
  }

  /** The gate is shut only while some switch is between its pause and its resume. */
  ghost predicate ShutOnlyWhileSwitching(s: Sys) {
    s.paused ==> exists t :: At(s, t) && Active(s.threads[t])
  }

  // ---------- the invariant ----------

  ghost predicate KnownBump(s: Sys, at: nat) {
    exists b :: b in s.bumps && b.at == at
  }

  predicate HasBump(th: Thread) {
    th.SwitchBumped? || th.SwitchPaused? || th.SwitchCleared? || th.ReconcileBumped?
  }

  /** A save can still notice every bump since its read until it checks; past its check it had missed none by then. */
  ghost predicate ThreadOk(s: Sys, th: Thread) {
    && (th.SaveRead? ==> th.readAt < s.now && th.g <= s.gen && forall b :: b in s.bumps && b.at >= th.readAt ==>
        b.gen > th.g)
    && (th.SaveChecked? ==> th.readAt < th.checkAt < s.now && forall b :: b in s.bumps && b.at >= th.readAt ==>
        b.at > th.checkAt)
    && (HasBump(th) ==> KnownBump(s, th.bumpAt))
  }

  ghost predicate BumpsOk(s: Sys) {
    && (forall b :: b in s.bumps ==> b.at < s.now && b.gen <= s.gen)
    && (forall c :: c in s.clears ==> KnownBump(s, c.bumpAt))
  }

  ghost predicate Inv(s: Sys) {
    BumpsOk(s) && (forall t :: t in s.threads ==> ThreadOk(s, s.threads[t])) && ShutOnlyWhileSwitching(s)
  }

  lemma ThreadKept(s: Sys, a: Action, th: Thread)
    requires BumpsOk(s) && Enabled(s, a) && ThreadOk(s, th)
    ensures ThreadOk(Next(s, a), th)
  {
    if HasBump(th) {
      var b :| b in s.bumps && b.at == th.bumpAt;
      assert b in Next(s, a).bumps;
    }
  }

  /** A thread that moves keeps the invariant. */
  lemma ThreadMoved(s: Sys, a: Action, t: nat)
    requires BumpsOk(s) && Enabled(s, a) && t in Next(s, a).threads
    requires t in s.threads ==> ThreadOk(s, s.threads[t]) && s.threads[t] != Next(s, a).threads[t]
    ensures ThreadOk(Next(s, a), Next(s, a).threads[t])
  {
    var s' := Next(s, a);
    if a.Bump? {
      assert Bumped(s.now, s.gen + 1) in s'.bumps;
    } else {
      assert s'.bumps == s.bumps;
    }
  }

  lemma ThreadsKept(s: Sys, a: Action)
    requires Inv(s) && Enabled(s, a)
    ensures forall t :: t in Next(s, a).threads ==> ThreadOk(Next(s, a), Next(s, a).threads[t])
  {
    forall t | t in Next(s, a).threads ensures ThreadOk(Next(s, a), Next(s, a).threads[t]) {
      if t in s.threads && s.threads[t] == Next(s, a).threads[t] {
        ThreadKept(s, a, s.threads[t]);
      } else {
        ThreadMoved(s, a, t);
      }
    }
  }

  lemma BumpsKept(s: Sys, a: Action)
    requires Inv(s) && Enabled(s, a)
    ensures BumpsOk(Next(s, a))
  {
    var s' := Next(s, a);
    forall c | c in s'.clears ensures KnownBump(s', c.bumpAt) {
      assert KnownBump(s, c.bumpAt) by {
        if c !in s.clears {
          assert ThreadOk(s, s.threads[a.t]);
        }
      }
      var b :| b in s.bumps && b.at == c.bumpAt;
      assert b in s'.bumps;
    }
  }

  lemma GateKept(s: Sys, a: Action)
    requires ShutOnlyWhileSwitching(s) && Enabled(s, a)
    ensures ShutOnlyWhileSwitching(Next(s, a))
  {
    var s' := Next(s, a);
    if s'.paused {
      if a.Pause? {
        assert At(s', a.t) && Active(s'.threads[a.t]);
      } else {
        var t :| At(s, t) && Active(s.threads[t]);
        assert At(s', t) && Active(s'.threads[t]);
      }
    }
  }

  /** The write a of a save whose branch was cleared by someone whose bump the save's guard came too early to see. */
  ghost predicate LateWrite(s: Sys, a: Action) {
    && a.Write? && At(s, a.t) && s.threads[a.t].SaveChecked?
    && exists c :: c in s.clears && c.repo == s.threads[a.t].key.repo && c.branch == s.threads[a.t].key.branch &&
        c.bumpAt > s.threads[a.t].checkAt
  }

  /** One step: from a state with nothing stale only a late write makes something stale, and it always does. */
  lemma StaleExactlyByLateWrite(s: Sys, a: Action)
    requires Inv(s) && NothingStale(s) && Enabled(s, a)
    ensures NothingStale(Next(s, a)) <==> !LateWrite(s, a)
  {
    hide ShutOnlyWhileSwitching;
    var s' := Next(s, a);
    if a.Stage? {
      if s.threads[a.t].g == s.gen {
        StagedIsFresh(s, a);
      }
    } else if a.Write? {
      var th := s.threads[a.t];
      assert ThreadOk(s, th);
      assert s'.staged[th.key] == th.readAt;
      forall c | c in s.clears ensures c.bumpAt >= th.readAt <==> c.bumpAt > th.checkAt {
        assert KnownBump(s, c.bumpAt);
      }
    }
  }

  lemma StagedIsFresh(s: Sys, a: Action)
    requires Inv(s) && a.Stage? && Enabled(s, a) && s.threads[a.t].g == s.gen
    ensures forall c :: c in s.clears ==> c.bumpAt < s.threads[a.t].readAt
  {
    assert ThreadOk(s, s.threads[a.t]);
    forall c | c in s.clears ensures c.bumpAt < s.threads[a.t].readAt {
      assert KnownBump(s, c.bumpAt);
    }
  }

  // ---------- runs ----------

  ghost predicate IsRun(run: seq<Sys>, acts: seq<Action>) {
    && |run| == |acts| + 1 && run[0] == INIT
    && forall j :: 0 <= j < |acts| ==> Enabled(run[j], acts[j]) && run[j + 1] == Next(run[j], acts[j])
  }

  lemma RunStep(run: seq<Sys>, acts: seq<Action>, i: nat)
    requires IsRun(run, acts) && i < |acts|
    ensures Enabled(run[i], acts[i]) && run[i + 1] == Next(run[i], acts[i])
  {
  }

  /** In every interleaving, Stage torn or not, the gate is shut only while a switch is active. */
  lemma {:induction false} EveryInterleaving(run: seq<Sys>, acts: seq<Action>, i: nat)
    requires IsRun(run, acts) && i < |run|
    ensures Inv(run[i]) && ShutOnlyWhileSwitching(run[i])
  {
    if i > 0 {
      EveryInterleaving(run, acts, i - 1);
      RunStep(run, acts, i - 1);
      var s, a := run[i - 1], acts[i - 1];
      ThreadsKept(s, a);
      BumpsKept(s, a);
      GateKept(s, a);
      hide ThreadOk, BumpsOk, ShutOnlyWhileSwitching, Enabled, Next;
    }
  }

  // ---------- what the threads say about the actions ----------

  predicate IsSave(th: Thread) {
    th.SaveStart? || th.SaveThrough? || th.SaveRead? || th.SaveChecked?
  }

  /** th is what became of the thread spawned as start. */
  predicate Became(start: Thread, th: Thread) {
    || th.Done?
    || (start.SaveStart? && IsSave(th) && th.key == start.key)
    || ((start.SwitchStart? || start.ReconcileStart?) && !IsSave(th) && th.repo == start.repo &&
        th.branch == start.branch)
  }

  /** A thread's times name its own actions, each taken once, and it stays on the branch it was spawned for. */
  ghost predicate Recorded(acts: seq<Action>, i: nat, t: nat, th: Thread) {
    && i <= |acts|
    && (th.SaveChecked? ==> th.checkAt < i && acts[th.checkAt] == Check(t))
    && (HasBump(th) ==> th.bumpAt < i && acts[th.bumpAt] == Bump(t))
    && (forall c :: 0 <= c < i && acts[c] == Check(t) ==> th.Done? || (th.SaveChecked? && th.checkAt == c))
    && (forall b :: 0 <= b < i && acts[b] == Bump(t) ==> th.Done? || (HasBump(th) && th.bumpAt == b))
    && (exists p :: 0 <= p < i && acts[p].Spawn? && acts[p].t == t)
    && (forall p :: 0 <= p < i && acts[p].Spawn? && acts[p].t == t ==> Became(acts[p].start, th))
  }

  /** A clear on record is the clear of a thread on that branch, bumped at that time. */
  ghost predicate ClearedBy(run: seq<Sys>, acts: seq<Action>, e: nat, c: Cleared) {
    && e < |acts| < |run| && acts[e].Clear? && At(run[e], acts[e].t) && HasBump(run[e].threads[acts[e].t])
    && c == Cleared(run[e].threads[acts[e].t].repo, run[e].threads[acts[e].t].branch, run[e].threads[acts[e].t].bumpAt)
  }

  /** Everyone who was spawned is still known. */
  ghost predicate Known(s: Sys, acts: seq<Action>, i: nat) {
    i <= |acts| && forall j :: 0 <= j < i && (acts[j].Spawn? || acts[j].Check? || acts[j].Bump?) ==>
        acts[j].t in s.threads
  }

  ghost predicate AllRecorded(s: Sys, acts: seq<Action>, i: nat) {
    forall t :: t in s.threads ==> Recorded(acts, i, t, s.threads[t])
  }

  ghost predicate WasCleared(run: seq<Sys>, acts: seq<Action>, i: nat, c: Cleared) {
    exists e: nat :: e < i && ClearedBy(run, acts, e, c)
  }

  ghost predicate ClearsRecorded(run: seq<Sys>, acts: seq<Action>, i: nat)
    requires i < |run|
  {
    forall c :: c in run[i].clears <==> WasCleared(run, acts, i, c)
  }

  ghost predicate History(run: seq<Sys>, acts: seq<Action>, i: nat)
    requires i < |run|
  {
    run[i].now == i && Known(run[i], acts, i) && AllRecorded(run[i], acts, i) && ClearsRecorded(run, acts, i)
  }

  /** What one step may do to a thread. */
  ghost predicate Onward(now: nat, a: Action, t: nat, th: Thread, th': Thread) {
    && !(a.Spawn? && a.t == t)
    && (a == Check(t) ==> th.SaveRead? && th'.SaveChecked? && th'.checkAt == now)
    && (a == Bump(t) ==> !th.Done? && !HasBump(th) && HasBump(th') && th'.bumpAt == now)
    && (a != Check(t) && th'.SaveChecked? ==> th' == th)
    && (a != Bump(t) && HasBump(th') ==> HasBump(th) && th'.bumpAt == th.bumpAt)
    && (th.Done? ==> th'.Done?)
    && (th.SaveChecked? ==> th' == th || th'.Done?)
    && (HasBump(th) ==> th'.Done? || (HasBump(th') && th'.bumpAt == th.bumpAt))
    && (forall start :: Became(start, th) ==> Became(start, th'))
  }

  lemma StepsOnward(s: Sys, a: Action, t: nat)
    requires Enabled(s, a) && t in s.threads
    ensures t in Next(s, a).threads && Onward(s.now, a, t, s.threads[t], Next(s, a).threads[t])
  {
  }

  lemma RecordedOnward(acts: seq<Action>, i: nat, t: nat, th: Thread, th': Thread)
    requires i < |acts| && Recorded(acts, i, t, th) && Onward(i, acts[i], t, th, th')
    ensures Recorded(acts, i + 1, t, th')
  {
    hide Became, HasBump;
    var p :| 0 <= p < i && acts[p].Spawn? && acts[p].t == t;
    assert 0 <= p < i + 1;
  }

  lemma RecordedSpawn(s: Sys, acts: seq<Action>, i: nat, t: nat)
    requires i < |acts| && Known(s, acts, i) && Enabled(s, acts[i]) && t !in s.threads && t in Next(s, acts[i]).threads
    ensures Recorded(acts, i + 1, t, Next(s, acts[i]).threads[t])
  {
    assert acts[i].Spawn? && acts[i].t == t;
  }

  lemma RecordedStep(s: Sys, acts: seq<Action>, i: nat)
    requires i < |acts| && s.now == i && Known(s, acts, i) && AllRecorded(s, acts, i) && Enabled(s, acts[i])
    ensures AllRecorded(Next(s, acts[i]), acts, i + 1)
  {
    hide Recorded, Onward, Enabled, Next;
    var s' := Next(s, acts[i]);
    forall t | t in s'.threads ensures Recorded(acts, i + 1, t, s'.threads[t]) {
      if t in s.threads {
        StepsOnward(s, acts[i], t);
        RecordedOnward(acts, i, t, s.threads[t], s'.threads[t]);
      } else {
        RecordedSpawn(s, acts, i, t);
      }
    }
  }

  lemma KnownStep(s: Sys, acts: seq<Action>, i: nat)
    requires i < |acts| && s.now == i && Known(s, acts, i) && Enabled(s, acts[i])
    ensures Known(Next(s, acts[i]), acts, i + 1) && Next(s, acts[i]).now == i + 1
  {
  }

  lemma ClearsStep(run: seq<Sys>, acts: seq<Action>, i: nat)
    requires IsRun(run, acts) && i < |acts| && ClearsRecorded(run, acts, i)
    ensures ClearsRecorded(run, acts, i + 1)
  {
    RunStep(run, acts, i);
    var n := i + 1;
    forall c ensures c in run[n].clears <==> WasCleared(run, acts, n, c) {
      assert c in run[n].clears <==> c in run[i].clears || ClearedBy(run, acts, i, c);
      hide ClearedBy, Next, Enabled;
    }
  }

  lemma HistoryAtFirst(run: seq<Sys>, acts: seq<Action>)
    requires IsRun(run, acts)
    ensures History(run, acts, 0)
  {
  }

  lemma {:induction false} HistoryHolds(run: seq<Sys>, acts: seq<Action>, i: nat)
    requires IsRun(run, acts) && i < |run|
    ensures History(run, acts, i)
  {
    hide Known, AllRecorded, ClearsRecorded, Enabled, Next;
    if i == 0 {
      HistoryAtFirst(run, acts);
    } else {
      RunStep(run, acts, i - 1);
      hide IsRun;
      HistoryHolds(run, acts, i - 1);
      KnownStep(run[i - 1], acts, i - 1);
      RecordedStep(run[i - 1], acts, i - 1);
      ClearsStep(run, acts, i - 1);
    }
  }

  // ---------- when a torn Stage is safe ----------

  /** t was spawned to save a file of the branch that u was spawned to leave. */
  ghost predicate SameBranch(acts: seq<Action>, n: nat, t: nat, u: nat) {
    exists p, q {:trigger acts[p], acts[q]} :: 0 <= p < n <= |acts| && 0 <= q < n && Targets(acts[p], t, acts[q], u)
  }

  predicate Targets(a: Action, t: nat, b: Action, u: nat) {
    && a.Spawn? && a.t == t && a.start.SaveStart?
    && b.Spawn? && b.t == u && (b.start.SwitchStart? || b.start.ReconcileStart?)
    && a.start.key.repo == b.start.repo && a.start.key.branch == b.start.branch
  }

  /** A save checks at c; a switch or reconcile of its branch bumps at b and clears at e; the save writes at w. */
  ghost predicate Overtaken(acts: seq<Action>, c: nat, b: nat, e: nat, w: nat) {
    && c < b < e < w < |acts|
    && acts[w].Write? && acts[c] == Check(acts[w].t)
    && acts[e].Clear? && acts[b] == Bump(acts[e].t)
    && SameBranch(acts, w, acts[w].t, acts[e].t)
  }

  ghost predicate OvertakenBefore(acts: seq<Action>, i: nat) {
    exists c: nat, b: nat, e: nat, w: nat :: w < i && Overtaken(acts, c, b, e, w)
  }

  /** The clear of a branch by u, seen from the actions. */
  lemma ClearIsBumped(run: seq<Sys>, acts: seq<Action>, i: nat, cl: Cleared) returns (e: nat, q: nat)
    requires IsRun(run, acts) && i < |run| && cl in run[i].clears
    ensures e < i && acts[e].Clear? && cl.bumpAt < e && acts[cl.bumpAt] == Bump(acts[e].t)
    ensures q < e && acts[q].Spawn? && acts[q].t == acts[e].t &&
        (acts[q].start.SwitchStart? || acts[q].start.ReconcileStart?)
    ensures acts[q].start.repo == cl.repo && acts[q].start.branch == cl.branch
  {
    e := ClearFound(run, acts, i, cl);
    hide IsRun, Recorded;
    var th := run[e].threads[acts[e].t];
    ThreadRecorded(run, acts, e, acts[e].t);
    q := BumpRecorded(acts, e, acts[e].t, th);
    SpawnsStart(run, acts, q);
  }

  lemma ClearFound(run: seq<Sys>, acts: seq<Action>, i: nat, cl: Cleared) returns (e: nat)
    requires IsRun(run, acts) && i < |run| && cl in run[i].clears
    ensures e < i && ClearedBy(run, acts, e, cl)
  {
    HistoryHolds(run, acts, i);
    hide IsRun, Known, AllRecorded, ClearedBy;
    e :| e < i && ClearedBy(run, acts, e, cl);
  }

  lemma ThreadRecorded(run: seq<Sys>, acts: seq<Action>, i: nat, t: nat)
    requires IsRun(run, acts) && i < |run| && At(run[i], t)
    ensures Recorded(acts, i, t, run[i].threads[t])
  {
    HistoryHolds(run, acts, i);
    hide IsRun, Recorded, Known, ClearsRecorded;
  }

  lemma BumpRecorded(acts: seq<Action>, e: nat, t: nat, th: Thread) returns (q: nat)
    requires Recorded(acts, e, t, th) && HasBump(th)
    ensures th.bumpAt < e && acts[th.bumpAt] == Bump(t)
    ensures q < e && acts[q].Spawn? && acts[q].t == t && Became(acts[q].start, th)
  {
    q :| q < e && acts[q].Spawn? && acts[q].t == t;
    hide Became;
  }

  lemma SpawnsStart(run: seq<Sys>, acts: seq<Action>, q: nat)
    requires IsRun(run, acts) && q < |acts| && acts[q].Spawn?
    ensures acts[q].start.SaveStart? || acts[q].start.SwitchStart? || acts[q].start.ReconcileStart?
  {
    RunStep(run, acts, q);
  }

  lemma LateWriteIsOvertaken(run: seq<Sys>, acts: seq<Action>, w: nat)
    requires IsRun(run, acts) && w < |acts| && LateWrite(run[w], acts[w])
    ensures exists c: nat, b: nat, e: nat :: Overtaken(acts, c, b, e, w)
  {
    var t := acts[w].t;
    var th := run[w].threads[t];
    ThreadRecorded(run, acts, w, t);
    var cl :| cl in run[w].clears && cl.repo == th.key.repo && cl.branch == th.key.branch && cl.bumpAt > th.checkAt;
    var e, q := ClearIsBumped(run, acts, w, cl);
    var p: nat :| p < w && acts[p].Spawn? && acts[p].t == t;
    SpawnsStart(run, acts, p);
    hide IsRun, Next, Enabled;
    assert Became(acts[p].start, th);
    assert Targets(acts[p], t, acts[q], acts[e].t);
    assert Overtaken(acts, th.checkAt, cl.bumpAt, e, w);
  }

  /** The save at its write, seen from the actions. */
  lemma WriterKnown(run: seq<Sys>, acts: seq<Action>, c: nat, p: nat, w: nat)
    requires IsRun(run, acts) && c < w < |acts| && acts[w].Write? && acts[c] == Check(acts[w].t)
    requires p < w && acts[p].Spawn? && acts[p].t == acts[w].t && acts[p].start.SaveStart?
    ensures At(run[w], acts[w].t) && run[w].threads[acts[w].t].SaveChecked? && run[w].threads[acts[w].t].checkAt == c
    ensures run[w].threads[acts[w].t].key == acts[p].start.key
  {
    RunStep(run, acts, w);
    ThreadRecorded(run, acts, w, acts[w].t);
    hide IsRun;
    assert Became(acts[p].start, run[w].threads[acts[w].t]);
  }

  /** The switch or reconcile at its clear, seen from the actions. */
  lemma ClearerKnown(run: seq<Sys>, acts: seq<Action>, b: nat, q: nat, e: nat)
    requires IsRun(run, acts) && b < e < |acts| && acts[e].Clear? && acts[b] == Bump(acts[e].t)
    requires q < e && acts[q].Spawn? && acts[q].t == acts[e].t &&
        (acts[q].start.SwitchStart? || acts[q].start.ReconcileStart?)
    ensures ClearedBy(run, acts, e, Cleared(acts[q].start.repo, acts[q].start.branch, b))
  {
    RunStep(run, acts, e);
    ThreadRecorded(run, acts, e, acts[e].t);
    assert Became(acts[q].start, run[e].threads[acts[e].t]);
  }

  lemma OvertakenIsLateWrite(run: seq<Sys>, acts: seq<Action>, c: nat, b: nat, e: nat, w: nat)
    requires IsRun(run, acts) && Overtaken(acts, c, b, e, w)
    ensures LateWrite(run[w], acts[w])
  {
    var t, u := acts[w].t, acts[e].t;
    var p: nat, q: nat :| p < w <= |acts| && q < w && Targets(acts[p], t, acts[q], u);
    WriterKnown(run, acts, c, p, w);
    RunStep(run, acts, e);
    SpawnedBefore(run, acts, q, e, w);
    ClearerKnown(run, acts, b, q, e);
    HistoryHolds(run, acts, w);
    hide IsRun, ClearedBy, Next, Enabled, Known, AllRecorded;
    assert Cleared(acts[q].start.repo, acts[q].start.branch, b) in run[w].clears;
  }

  /** A thread at work was spawned before. */
  lemma SpawnedBefore(run: seq<Sys>, acts: seq<Action>, q: nat, e: nat, w: nat)
    requires IsRun(run, acts) && q < w <= |acts| && e < w && acts[q].Spawn? && At(run[e], acts[q].t)
    ensures q < e
  {
    if q >= e {
      StillThere(run, acts, e, q, acts[q].t);
      RunStep(run, acts, q);
      assert false;
    }
  }

  lemma {:induction false} StillThere(run: seq<Sys>, acts: seq<Action>, e: nat, q: nat, t: nat)
    requires IsRun(run, acts) && e <= q < |run| && At(run[e], t)
    ensures At(run[q], t)
  {
    if e < q {
      StillThere(run, acts, e, q - 1, t);
      RunStep(run, acts, q - 1);
    }
  }

  /**
   * For every run of the code as written: nothing stale has ever been staged exactly when no save was
   * overtaken, between its check and its write, by the bump and the clear of its own branch.
   */
  lemma {:induction false} StaleExactlyWhenOvertaken(run: seq<Sys>, acts: seq<Action>, i: nat)
    requires IsRun(run, acts) && i < |run|
    ensures (forall j :: 0 <= j <= i ==> NothingStale(run[j])) <==> !OvertakenBefore(acts, i)
  {
    RunLength(run, acts);
    hide NothingStale, LateWrite, OvertakenBefore, IsRun;
    if i == 0 {
      NothingStaleAtFirst(run, acts);
    } else {
      StaleExactlyWhenOvertaken(run, acts, i - 1);
      StaleStep(run, acts, i - 1);
      OvertakenStep(run, acts, i - 1);
    }
  }

  lemma NothingStaleAtFirst(run: seq<Sys>, acts: seq<Action>)
    requires IsRun(run, acts)
    ensures run != [] && NothingStale(run[0]) && !OvertakenBefore(acts, 0)
  {
  }

  lemma RunLength(run: seq<Sys>, acts: seq<Action>)
    requires IsRun(run, acts)
    ensures |run| == |acts| + 1
  {
  }

  lemma StaleStep(run: seq<Sys>, acts: seq<Action>, w: nat)
    requires IsRun(run, acts) && w < |acts|
    ensures NothingStale(run[w]) ==> (NothingStale(run[w + 1]) <==> !LateWrite(run[w], acts[w]))
  {
    EveryInterleaving(run, acts, w);
    RunStep(run, acts, w);
    hide IsRun, Inv, NothingStale, LateWrite, Enabled, Next;
    if NothingStale(run[w]) {
      StaleExactlyByLateWrite(run[w], acts[w]);
    }
  }

  lemma OvertakenStep(run: seq<Sys>, acts: seq<Action>, w: nat)
    requires IsRun(run, acts) && w < |acts|
    ensures OvertakenBefore(acts, w + 1) <==> OvertakenBefore(acts, w) || LateWrite(run[w], acts[w])
  {
    if LateWrite(run[w], acts[w]) {
      LateWriteIsOvertaken(run, acts, w);
      var c: nat, b: nat, e: nat :| Overtaken(acts, c, b, e, w);
    }
    if OvertakenBefore(acts, w + 1) {
      var c: nat, b: nat, e: nat, v: nat :| v < w + 1 && Overtaken(acts, c, b, e, v);
      if v == w {
        OvertakenIsLateWrite(run, acts, c, b, e, w);
      }
    }
    hide LateWrite, Overtaken;
  }

  /** With the guarded Stage as one step nothing stale is ever staged. */
  lemma OneStepStageIsSafe(run: seq<Sys>, acts: seq<Action>, i: nat)
    requires IsRun(run, acts) && i < |run| && forall j :: 0 <= j < |acts| ==> !acts[j].Write?
    ensures NothingStale(run[i])
  {
    StaleExactlyWhenOvertaken(run, acts, i);
    assert !OvertakenBefore(acts, i);
  }

  // ---------- what is staged, and the gate, action by action ----------

  /** What an action does to the staged entry of a file. */
  datatype Effect = Keep | Put(readAt: nat) | Drop

  /** A stage or write of a save of k puts its own entry; an unstage of k, or a clear of k's branch, drops it. */
  ghost function EffectOn(s: Sys, a: Action, k: Key): Effect
    requires Enabled(s, a)
  {
    match a
    case Stage(t) => if s.threads[t].key == k && s.threads[t].g == s.gen then Put(s.threads[t].readAt) else Keep
    case Write(t) => if s.threads[t].key == k then Put(s.threads[t].readAt) else Keep
    case Unstage(key) => if key == k then Drop else Keep
    case Clear(t) => if s.threads[t].repo == k.repo && s.threads[t].branch == k.branch then Drop else Keep
    case _ => Keep
  }

  ghost function Entry(s: Sys, k: Key): Option<nat> {
    if k in s.staged then Some(s.staged[k]) else None
  }

  lemma StepEffect(s: Sys, a: Action, k: Key)
    requires Enabled(s, a)
    ensures match EffectOn(s, a, k)
            case Keep => Entry(Next(s, a), k) == Entry(s, k)
            case Put(r) => Entry(Next(s, a), k) == Some(r)
            case Drop => Entry(Next(s, a), k) == None
  {
  }

  /** The entry the actions before i leave for k. */
  ghost function LastEffect(run: seq<Sys>, acts: seq<Action>, i: nat, k: Key): Option<nat>
    requires IsRun(run, acts) && i <= |acts|
  {
    if i == 0 then None
    else match EffectOn(run[i - 1], acts[i - 1], k)
         case Keep => LastEffect(run, acts, i - 1, k)
         case Put(r) => Some(r)
         case Drop => None
  }

  /** In every run a file's staged entry is what the last action on it left: nothing else adds, changes or drops it. */
  lemma {:induction false} StagedIsLastEffect(run: seq<Sys>, acts: seq<Action>, i: nat, k: Key)
    requires IsRun(run, acts) && i <= |acts|
    ensures Entry(run[i], k) == LastEffect(run, acts, i, k)
  {
    if i > 0 {
      StagedIsLastEffect(run, acts, i - 1, k);
      RunStep(run, acts, i - 1);
      StepEffect(run[i - 1], acts[i - 1], k);
      hide Next, Enabled, Entry, EffectOn;
    }
  }

  /** A clear leaves exactly the keys the staging area's own Clear leaves. */
  lemma ClearIsWithout(s: Sys, t: nat, files: Files)
    requires Enabled(s, Clear(t)) && files.Keys == s.staged.Keys
    ensures Next(s, Clear(t)).staged.Keys == Without(files, s.threads[t].repo, s.threads[t].branch).Keys
  {
  }

  function BumpCount(acts: seq<Action>): nat {
    if acts == [] then 0 else BumpCount(acts[..|acts| - 1]) + if acts[|acts| - 1].Bump? then 1 else 0
  }

  /** The last pause or resume was a pause. */
  predicate LastPaused(acts: seq<Action>) {
    if acts == [] then false
    else if acts[|acts| - 1].Pause? then true
    else if acts[|acts| - 1].Resume? then false
    else LastPaused(acts[..|acts| - 1])
  }

  /** The generation counts the bumps, and the gate is shut exactly when the last pause or resume was a pause. */
  lemma {:induction false} GateIsHistory(run: seq<Sys>, acts: seq<Action>, i: nat)
    requires IsRun(run, acts) && i <= |acts|
    ensures run[i].gen == BumpCount(acts[..i]) && (run[i].paused <==> LastPaused(acts[..i]))
  {
    if i > 0 {
      GateIsHistory(run, acts, i - 1);
      RunStep(run, acts, i - 1);
      assert acts[..i][..i - 1] == acts[..i - 1];
    }
  }

  /** No save comes through a shut gate. */
  lemma PassesOpenGate(run: seq<Sys>, acts: seq<Action>, j: nat)
    requires IsRun(run, acts) && j < |acts| && acts[j].Pass?
    ensures !LastPaused(acts[..j])
  {
    GateIsHistory(run, acts, j);
    RunStep(run, acts, j);
  }

  ghost predicate Did(acts: seq<Action>, a: Action, from: int, to: int) {
    exists j :: from < j < to && 0 <= j < |acts| && acts[j] == a
  }

  /** The steps a thread has behind it, in the source's order. */
  ghost predicate InTurn(acts: seq<Action>, i: nat, t: nat, th: Thread) {
    && (th.SaveThrough? ==> Did(acts, Pass(t), -1, i))
    && (th.SaveRead? || th.SaveChecked? ==>
          th.readAt < i <= |acts| && acts[th.readAt] == ReadGen(t) && Did(acts, Pass(t), -1, th.readAt))
    && (th.SaveChecked? ==> th.readAt < th.checkAt < i && acts[th.checkAt] == Check(t))
    && (HasBump(th) ==> th.bumpAt < i <= |acts| && acts[th.bumpAt] == Bump(t))
    && (th.SwitchPaused? || th.SwitchCleared? ==> Did(acts, Pause(t), th.bumpAt, i))
    && (th.SwitchCleared? ==> Did(acts, Clear(t), th.bumpAt, i))
  }

  lemma DidStays(acts: seq<Action>, a: Action, from: int, i: nat)
    ensures Did(acts, a, from, i) ==> Did(acts, a, from, i + 1)
    ensures from < i < |acts| && acts[i] == a ==> Did(acts, a, from, i + 1)
  {
    if Did(acts, a, from, i) {
      var j :| from < j < i && 0 <= j < |acts| && acts[j] == a;
      assert from < j < i + 1;
    }
  }

  lemma InTurnStep(s: Sys, acts: seq<Action>, i: nat, t: nat)
    requires i < |acts| && s.now == i && Enabled(s, acts[i]) && t in s.threads && InTurn(acts, i, t, s.threads[t])
    ensures t in Next(s, acts[i]).threads && InTurn(acts, i + 1, t, Next(s, acts[i]).threads[t])
  {
    hide Did;
    var th := s.threads[t];
    DidStays(acts, Pass(t), -1, i);
    if HasBump(th) {
      DidStays(acts, Pause(t), th.bumpAt, i);
      DidStays(acts, Clear(t), th.bumpAt, i);
    }
  }

  lemma {:induction false} ThreadsInTurn(run: seq<Sys>, acts: seq<Action>, i: nat, t: nat)
    requires IsRun(run, acts) && i <= |acts| && At(run[i], t)
    ensures InTurn(acts, i, t, run[i].threads[t])
  {
    hide Known, AllRecorded, ClearsRecorded, InTurn, Enabled, Next;
    if i > 0 {
      RunStep(run, acts, i - 1);
      hide IsRun;
      HistoryHolds(run, acts, i - 1);
      if At(run[i - 1], t) {
        ThreadsInTurn(run, acts, i - 1, t);
        InTurnStep(run[i - 1], acts, i - 1, t);
      } else {
        SpawnInTurn(run[i - 1], acts, i - 1, t);
      }
    }
  }

  lemma SpawnInTurn(s: Sys, acts: seq<Action>, i: nat, t: nat)
    requires i < |acts| && Enabled(s, acts[i]) && t !in s.threads && t in Next(s, acts[i]).threads
    ensures InTurn(acts, i + 1, t, Next(s, acts[i]).threads[t])
  {
    assert acts[i].Spawn? && acts[i].t == t;
    hide Did;
  }

  /** Every write of a save comes after it passed the gate, read the generation and checked it, in that order. */
  lemma WritesInTurn(run: seq<Sys>, acts: seq<Action>, w: nat)
    requires IsRun(run, acts) && w < |acts| && acts[w].Write?
    ensures exists r: nat, c: nat :: r < c < w && acts[r] == ReadGen(acts[w].t) && acts[c] == Check(acts[w].t)
                                     && Did(acts, Pass(acts[w].t), -1, r)
  {
    RunStep(run, acts, w);
    ThreadsInTurn(run, acts, w, acts[w].t);
    var th := run[w].threads[acts[w].t];
    assert acts[th.readAt] == ReadGen(acts[w].t) && acts[th.checkAt] == Check(acts[w].t);
  }

  /** Every resume of a switch comes after it bumped, and then paused and cleared. */
  lemma SwitchInTurn(run: seq<Sys>, acts: seq<Action>, r: nat)
    requires IsRun(run, acts) && r < |acts| && acts[r].Resume?
    ensures exists b: nat :: b < r && acts[b] == Bump(acts[r].t) && Did(acts, Pause(acts[r].t), b, r)
                             && Did(acts, Clear(acts[r].t), b, r)
  {
    RunStep(run, acts, r);
    ThreadsInTurn(run, acts, r, acts[r].t);
    assert acts[run[r].threads[acts[r].t].bumpAt] == Bump(acts[r].t);
  }

  /** The state while a lone save has come as far as th, and nothing else has happened. */
  function Saving(now: nat, th: Thread): Sys { Sys(now, 0, false, map[], map[0 := th], {}, {}) }

  /** The state once that save is past its guard and a switch has come as far as th. */
  function Switching(key: Key, now: nat, gen: nat, paused: bool, th: Thread, bumps: set<Bumped>): Sys {
    Sys(now, gen, paused, map[], map[0 := SaveChecked(key, 2, 3), 1 := th], bumps, {})
  }

  ghost predicate Moves(s: Sys, a: Action, s': Sys) { Enabled(s, a) && s' == Next(s, a) }

  lemma TornSave(key: Key)
    ensures Moves(INIT, Spawn(0, SaveStart(key)), Saving(1, SaveStart(key)))
    ensures Moves(Saving(1, SaveStart(key)), Pass(0), Saving(2, SaveThrough(key)))
    ensures Moves(Saving(2, SaveThrough(key)), ReadGen(0), Saving(3, SaveRead(key, 0, 2)))
    ensures Moves(Saving(3, SaveRead(key, 0, 2)), Check(0), Saving(4, SaveChecked(key, 2, 3)))
  {
    assert forall th: Thread :: map[0 := th][0] == th;
    assert forall x: Thread, y: Thread {:trigger map[0 := x], map[0 := y]} :: map[0 := x][0 := y] == map[0 := y];
  }

  lemma TornSwitch(key: Key)
    ensures var start := SwitchStart(key.repo, key.branch);
            var bumped := SwitchBumped(key.repo, key.branch, 5);
            var paused := SwitchPaused(key.repo, key.branch, 5);
            && Moves(Saving(4, SaveChecked(key, 2, 3)), Spawn(1, start), Switching(key, 5, 0, false, start, {}))
            && Moves(Switching(key, 5, 0, false, start, {}), Bump(1),
                Switching(key, 6, 1, false, bumped, {Bumped(5, 1)}))
            && Moves(Switching(key, 6, 1, false, bumped, {Bumped(5, 1)}), Pause(1),
                Switching(key, 7, 1, true, paused, {Bumped(5, 1)}))
  {
  }

  lemma TornEnd(key: Key) returns (s8: Sys, s9: Sys)
    ensures Moves(Switching(key, 7, 1, true, SwitchPaused(key.repo, key.branch, 5), {Bumped(5, 1)}), Clear(1), s8)
    ensures Moves(s8, Write(0), s9) && !NothingStale(s9)
  {
    var s7 := Switching(key, 7, 1, true, SwitchPaused(key.repo, key.branch, 5), {Bumped(5, 1)});
    s8 := Next(s7, Clear(1));
    s9 := Next(s8, Write(0));
    assert key in s9.staged && s9.staged[key] == 2;
    assert Cleared(key.repo, key.branch, 5) in s9.clears;
  }

  /** Split between guard and write, Stage lets a save from before the switch land after the clear. */
  lemma StageTorn(key: Key) returns (run: seq<Sys>, acts: seq<Action>)
    ensures IsRun(run, acts) && !NothingStale(run[|run| - 1])
  {
    TornSave(key);
    TornSwitch(key);
    var s8, s9 := TornEnd(key);
    hide NothingStale, Saving, Switching, Enabled, Next;
    var start := SwitchStart(key.repo, key.branch);
    acts := [Spawn(0, SaveStart(key)), Pass(0), ReadGen(0), Check(0), Spawn(1, start), Bump(1), Pause(1), Clear(1),
        Write(0)];
    run := [INIT, Saving(1, SaveStart(key)), Saving(2, SaveThrough(key)), Saving(3, SaveRead(key, 0, 2)),
        Saving(4, SaveChecked(key, 2, 3)),
            Switching(key, 5, 0, false, start, {}),
            Switching(key, 6, 1, false, SwitchBumped(key.repo, key.branch, 5), {Bumped(5, 1)}),
            Switching(key, 7, 1, true, SwitchPaused(key.repo, key.branch, 5), {Bumped(5, 1)}), s8, s9];
    assert forall j :: 0 <= j < 9 ==> Moves(run[j], acts[j], run[j + 1]);
  }
}
