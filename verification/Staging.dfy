/** The staging overlay, its gate, the ingester that fills it and the promoter that drains it. */
module Staging {
  import opened Basics

  /** Repo ids, branch names and paths: compared for equality only. */
  type Name(==, 0, !new)

  /** What parsing a file yields: nodes, edges, unresolved calls, imports. */
  type Parsed(==, 0, !new)

  /** The empty parse result, staged as a tombstone for a deleted file. */
  const TOMBSTONE: Parsed

  datatype Key = Key(repo: Name, branch: Name, path: Name)

  type Files = map<Key, Parsed>

  ghost predicate On(k: Key, repo: Name, branch: Name) {
    k.repo == repo && k.branch == branch
  }

  /** Without the files of one branch. */
  ghost function Without(m: Files, repo: Name, branch: Name): Files {
    map k | k in m && !On(k, repo, branch) :: m[k]
  }

  // ---------- the overlay and its gate ----------

  class Gate {
    var gen: nat
    var paused: bool

    constructor ()
      ensures gen == 0 && !paused
    {
      gen, paused := 0, false;
    }

    method BumpGeneration() returns (g: nat)
      modifies this`gen
      ensures gen == old(gen) + 1 && g == gen
    {
      gen := gen + 1;
      g := gen;
    }

    method Pause()
      modifies this`paused
      ensures paused
    {
      paused := true;
    }

    method Resume()
      modifies this`paused
      ensures !paused
    {
      paused := false;
    }

    /** The whole quiescence sequence: whatever draining says, the gate ends open and the branch is empty. */
    method BranchSwitch(area: Area, repo: Name, prevBranch: Name, drainOk: bool) returns (ok: bool)
      modifies this, area
      ensures !paused && gen == old(gen) + 1 && ok == drainOk
      ensures area.entries == Without(old(area.entries), repo, prevBranch)
    {
      var _ := BumpGeneration();
      Pause();
      area.Clear(repo, prevBranch);
      ok := drainOk;
      Resume();
    }
  }

  class Area {
    var entries: Files

    constructor ()
      ensures entries == map[]
    {
      entries := map[];
    }

    /** Overwrites the file's entry, unless a generation guard is stale. */
    method Stage(k: Key, f: Parsed, guard: Option<nat>, gate: Gate) returns (ok: bool)
      modifies this
      ensures ok <==> guard.None? || guard.value == gate.gen
      ensures entries == if ok then old(entries)[k := f] else old(entries)
    {
      if guard.Some? && guard.value != gate.gen {
        return false;
      }
      entries := entries[k := f];
      return true;
    }

    method DeleteStagedFile(k: Key)
      modifies this
      ensures entries == old(entries) - {k}
    {
      entries := entries - {k};
    }

    method Clear(repo: Name, branch: Name)
      modifies this
      ensures entries == Without(old(entries), repo, branch)
    {
      var rest := entries.Keys;
      while rest != {}
        invariant rest <= old(entries).Keys
        invariant forall k :: k in entries <==> k in old(entries) && (k in rest || !On(k, repo, branch))
        invariant forall k :: k in entries ==> entries[k] == old(entries)[k]
      {
        var k :| k in rest;
        rest := rest - {k};
        if k.repo == repo && k.branch == branch {
          entries := entries - {k};
        }
      }
    }

    /** The staged files of one branch, by path. */
    method Snapshot(repo: Name, branch: Name) returns (snap: map<Name, Parsed>)
      ensures forall p :: p in snap <==> Key(repo, branch, p) in entries
      ensures forall p :: p in snap ==> snap[p] == entries[Key(repo, branch, p)]
    {
      snap := map[];
      var rest := entries.Keys;
      while rest != {}
        invariant rest <= entries.Keys
        invariant forall p :: p in snap <==> Key(repo, branch, p) in entries && Key(repo, branch, p) !in rest
        invariant forall p :: p in snap ==> snap[p] == entries[Key(repo, branch, p)]
      {
        var k :| k in rest;
        rest := rest - {k};
        if k.repo == repo && k.branch == branch {
          assert k == Key(repo, branch, k.path);
          snap := snap[k.path := entries[k]];
        }
      }
    }
  }

  // ---------- the view, and what the operations do to it ----------

  datatype St = St(staged: Files, durable: Files)

  /** Overlay first, then the store; a file neither knows has nothing in it. */
  ghost function View(s: St, k: Key): Parsed {
    if k in s.staged then s.staged[k] else if k in s.durable then s.durable[k] else TOMBSTONE
  }

  datatype Event =
    | Save(k: Key, parsed: Option<Parsed>)
    | Delete(k: Key)
    | Promote(repo: Name, branch: Name, ok: bool)

  ghost function OnBranch(m: Files, repo: Name, branch: Name): Files {
    map k | k in m && On(k, repo, branch) :: m[k]
  }

  /** The promotion transaction: per-file replace of everything staged on the branch. */
  ghost function Promoted(s: St, repo: Name, branch: Name): St {
    St(Without(s.staged, repo, branch), s.durable + OnBranch(s.staged, repo, branch))
  }

  ghost function After(s: St, e: Event): St {
    match e
    case Save(k, parsed) => if parsed.Some? then s.(staged := s.staged[k := parsed.value]) else s
    case Delete(k) => s.(staged := s.staged[k := TOMBSTONE])
    case Promote(repo, branch, ok) => if ok then Promoted(s, repo, branch) else s
  }

  ghost function Run(s: St, es: seq<Event>): St {
    if es == [] then s else After(Run(s, es[..|es| - 1]), es[|es| - 1])
  }

  /** The last successfully parsed save or tombstone for k, or what was there before. */
  ghost function LastWrite(before: Parsed, es: seq<Event>, k: Key): Parsed {
    if es == [] then before
    else
      var e := es[|es| - 1];
      if e.Save? && e.k == k && e.parsed.Some? then e.parsed.value
      else if e.Delete? && e.k == k then TOMBSTONE
      else LastWrite(before, es[..|es| - 1], k)
  }

  /** A promotion changes where files are, never what is seen, and a good one empties the branch's staging. */
  lemma PromotionInvisible(s: St, repo: Name, branch: Name, ok: bool, k: Key)
    ensures View(After(s, Promote(repo, branch, ok)), k) == View(s, k)
    ensures ok ==> (k in After(s, Promote(repo, branch, ok)).staged <==> k in s.staged && !On(k, repo, branch))
    ensures !ok ==> After(s, Promote(repo, branch, ok)) == s
  {
  }

  /** In every run the view of every file is its last write, whatever was promoted in between or failed to be. */
  lemma {:induction false} ViewIsLastWrite(s: St, es: seq<Event>, k: Key)
    ensures View(Run(s, es), k) == LastWrite(View(s, k), es, k)
  {
    if es != [] {
      var n := |es| - 1;
      ViewIsLastWrite(s, es[..n], k);
      match es[n]
      case Save(k', parsed) =>
      case Delete(k') =>
      case Promote(repo, branch, ok) =>
        PromotionInvisible(Run(s, es[..n]), repo, branch, ok, k);
    }
  }

  // ---------- a promotion in its three parts ----------

  /** The transaction commits, in state s, a snapshot taken earlier. */
  ghost function Committed(s: St, snap: Files): St {
    s.(durable := s.durable + snap)
  }

  /** Snapshot taken in s; es1 happens before the commit and es2 between the commit and the unstaging. */
  ghost function TornPromoted(s: St, es1: seq<Event>, es2: seq<Event>, repo: Name, branch: Name): St {
    var snap := OnBranch(s.staged, repo, branch);
    var t := Run(Committed(Run(s, es1), snap), es2);
    t.(staged := t.staged - snap.Keys)
  }

  predicate IsGood(e: Event, repo: Name, branch: Name) {
    e == Promote(repo, branch, true)
  }

  /** Where the last good promotion of the branch stands in es. */
  ghost function LastGood(es: seq<Event>, repo: Name, branch: Name): Option<nat> {
    if es == [] then None
    else if IsGood(es[|es| - 1], repo, branch) then Some(|es| - 1)
    else LastGood(es[..|es| - 1], repo, branch)
  }

  lemma {:induction false} LastGoodBound(es: seq<Event>, repo: Name, branch: Name)
    ensures LastGood(es, repo, branch).Some? ==> LastGood(es, repo, branch).value < |es|
    ensures LastGood(es, repo, branch).None? <==> forall e :: e in es ==> !IsGood(e, repo, branch)
  {
    if es != [] {
      var n := |es| - 1;
      LastGoodBound(es[..n], repo, branch);
      assert es == es[..n] + [es[n]];
    }
  }

  /**
   What a snapshotted file, v in the snapshot, shows once it is unstaged: the snapshot's contents, or, if
   another promotion of the branch fell between commit and unstaging, what was seen when the last one did.
   */
  ghost function Shown(s: St, es1: seq<Event>, es2: seq<Event>, repo: Name, branch: Name, k: Key, v: Parsed): Parsed {
    var g := LastGood(es2, repo, branch);
    if g.None? || g.value > |es2| then v
    else LastWrite(if k in Run(s, es1).staged then LastWrite(v, es1, k) else v, es2[..g.value], k)
  }

  /** A stored file changes only with a good promotion of its branch, which stores what is then seen. */
  lemma {:induction false} StoredIsLastPromoted(s: St, es: seq<Event>, k: Key)
    requires k in s.durable
    ensures k in Run(s, es).durable
    ensures var g := LastGood(es, k.repo, k.branch);
            Run(s, es).durable[k] == if g.Some? && g.value <= |es| then View(Run(s, es[..g.value]), k) else s.durable[k]
  {
    if es != [] {
      var n := |es| - 1;
      StoredIsLastPromoted(s, es[..n], k);
      LastGoodBound(es[..n], k.repo, k.branch);
      var g := LastGood(es[..n], k.repo, k.branch);
      assert g.Some? ==> es[..n][..g.value] == es[..g.value];
      StoredStep(Run(s, es[..n]), es[n], k);
    }
  }

  lemma StoredStep(s: St, e: Event, k: Key)
    requires k in s.durable
    ensures k in After(s, e).durable
    ensures After(s, e).durable[k] == if IsGood(e, k.repo, k.branch) then View(s, k) else s.durable[k]
  {
  }

  /** The two states hold the same for k. */
  ghost predicate SameAt(a: St, b: St, k: Key) {
    && (k in a.staged <==> k in b.staged) && (k in a.staged ==> a.staged[k] == b.staged[k])
    && (k in a.durable <==> k in b.durable) && (k in a.durable ==> a.durable[k] == b.durable[k])
  }

  lemma {:induction false} RunSameAt(a: St, b: St, es: seq<Event>, k: Key)
    requires SameAt(a, b, k)
    ensures SameAt(Run(a, es), Run(b, es), k)
  {
    if es != [] {
      RunSameAt(a, b, es[..|es| - 1], k);
    }
  }

  lemma {:induction false} LastWriteAppend(v: Parsed, es1: seq<Event>, es2: seq<Event>, k: Key)
    ensures LastWrite(v, es1 + es2, k) == LastWrite(LastWrite(v, es1, k), es2, k)
  {
    if es2 == [] {
      assert es1 + es2 == es1;
    } else {
      var n := |es2| - 1;
      LastWriteAppend(v, es1, es2[..n], k);
      assert (es1 + es2)[..|es1 + es2| - 1] == es1 + es2[..n];
    }
  }

  lemma TornOutsideSnapshot(s: St, es1: seq<Event>, es2: seq<Event>, repo: Name, branch: Name, k: Key)
    requires !(k in s.staged && On(k, repo, branch))
    ensures View(TornPromoted(s, es1, es2, repo, branch), k) == LastWrite(View(s, k), es1 + es2, k)
  {
    var snap := OnBranch(s.staged, repo, branch);
    assert k !in snap;
    RunSameAt(Committed(Run(s, es1), snap), Run(s, es1), es2, k);
    ViewIsLastWrite(s, es1, k);
    ViewIsLastWrite(Run(s, es1), es2, k);
    LastWriteAppend(View(s, k), es1, es2, k);
  }

  lemma TornInSnapshot(s: St, es1: seq<Event>, es2: seq<Event>, k: Key)
    requires k in s.staged
    ensures View(TornPromoted(s, es1, es2, k.repo, k.branch), k) == Shown(s, es1, es2, k.repo, k.branch, k, s.staged[k])
  {
    var snap := OnBranch(s.staged, k.repo, k.branch);
    assert k in snap;
    var c := Committed(Run(s, es1), snap);
    StoredIsLastPromoted(c, es2, k);
    ViewIsLastWrite(s, es1, k);
    var g := LastGood(es2, k.repo, k.branch);
    if g.Some? && g.value <= |es2| {
      ViewIsLastWrite(c, es2[..g.value], k);
    }
    hide Run, LastWrite, LastGood;
  }

  /**
   Whatever happens between the three parts, the view of a file is right afterwards exactly when the file
   was not in the snapshot or its last write is what it shows.
   */
  lemma TornPromotionKeepsView(s: St, es1: seq<Event>, es2: seq<Event>, repo: Name, branch: Name, k: Key)
    ensures View(TornPromoted(s, es1, es2, repo, branch), k) == LastWrite(View(s, k), es1 + es2, k)
            <==> !(k in s.staged && On(k, repo, branch))
                 || LastWrite(s.staged[k], es1 + es2, k) == Shown(s, es1, es2, repo, branch, k, s.staged[k])
  {
    hide Run, LastWrite, LastGood, Shown, TornPromoted;
    if k in s.staged && On(k, repo, branch) {
      TornInSnapshot(s, es1, es2, k);
    } else {
      TornOutsideSnapshot(s, es1, es2, repo, branch, k);
    }
  }

  /** With no other good promotion of the branch before the unstaging: exactly when the last write is the snapshot's. */
  lemma LoneTornPromotion(s: St, es1: seq<Event>, es2: seq<Event>, repo: Name, branch: Name, k: Key)
    requires forall e :: e in es2 ==> !IsGood(e, repo, branch)
    ensures View(TornPromoted(s, es1, es2, repo, branch), k) == LastWrite(View(s, k), es1 + es2, k)
            <==> !(k in s.staged && On(k, repo, branch)) || LastWrite(s.staged[k], es1 + es2, k) == s.staged[k]
  {
    LastGoodBound(es2, repo, branch);
    TornPromotionKeepsView(s, es1, es2, repo, branch, k);
  }

  /** So one save between snapshot and unstaging loses its contents. */
  lemma TornPromotionLosesSave(k: Key, first: Parsed, second: Parsed)
    requires first != second
    ensures var s := St(map[k := first], map[]);
            var save := [Save(k, Some(second))];
            && View(TornPromoted(s, save, [], k.repo, k.branch), k) == first != LastWrite(first, save, k)
            && View(TornPromoted(s, [], save, k.repo, k.branch), k) == first
  {
    var s := St(map[k := first], map[]);
    var save := [Save(k, Some(second))];
    assert save[..0] == [];
    TornInSnapshot(s, save, [], k);
    TornInSnapshot(s, [], save, k);
    LastGoodBound([], k.repo, k.branch);
    LastGoodBound(save, k.repo, k.branch);
  }

  /**
   Writing the snapshot's contents back does not help once another promotion has overlapped: v1 is in the
   snapshot and is the last write, and v2, promoted in between, is what is seen.
   */
  lemma OverlapShowsOldWrite(k: Key, v1: Parsed, v2: Parsed)
    requires v1 != v2
    ensures var s := St(map[k := v1], map[]);
            var es2 := [Save(k, Some(v2)), Promote(k.repo, k.branch, true), Save(k, Some(v1))];
            LastWrite(v1, es2, k) == v1 && View(TornPromoted(s, [], es2, k.repo, k.branch), k) == v2
  {
    var s := St(map[k := v1], map[]);
    var save, again := Save(k, Some(v2)), Save(k, Some(v1));
    var promote := Promote(k.repo, k.branch, true);
    var es2 := [save, promote, again];
    assert es2[..2] == [save, promote] && [save, promote][..1] == [save] && es2[..1] == [save];
    assert LastGood([save, promote], k.repo, k.branch) == Some(1);
    assert LastGood(es2, k.repo, k.branch) == Some(1);
    assert LastWrite(v1, [save], k) == v2;
    assert Run(s, []) == s && LastWrite(v1, [], k) == v1;
    TornInSnapshot(s, [], es2, k);
  }

  // ---------- the ingester and the promoter ----------

  class PromotionStore {
    var files: Files

    /** One transaction over the batch: all of it, or nothing when the store refuses. */
    method Commit(batch: seq<(Key, Parsed)>, accepts: bool) returns (ok: bool)
      modifies this
      ensures ok == accepts && files == if accepts then old(files) + BatchMap(batch) else old(files)
    {
      ok := accepts;
      if ok {
        var before := files;
        assert batch[..0] == [];
        for i := 0 to |batch|
          invariant files == before + BatchMap(batch[..i])
        {
          assert batch[..i + 1][..i] == batch[..i];
          files := files[batch[i].0 := batch[i].1];
        }
        assert batch[..|batch|] == batch;
      }
    }
  }

  ghost function BatchMap(batch: seq<(Key, Parsed)>): Files {
    if batch == [] then map[] else BatchMap(batch[..|batch| - 1])[batch[|batch| - 1].0 := batch[|batch| - 1].1]
  }

  ghost function State(area: Area, store: PromotionStore): St
    reads area, store
  {
    St(area.entries, store.files)
  }

  class Ingester {
    const area: Area
    const gate: Gate

    constructor (area: Area, gate: Gate)
      ensures this.area == area && this.gate == gate
    {
      this.area, this.gate := area, gate;
    }

    /** parsed is what the parser returns for the bytes saved, None on a parse error. */
    method SaveFile(k: Key, parsed: Option<Parsed>, store: PromotionStore)
      modifies area
      ensures State(area, store) == After(old(State(area, store)), Save(k, parsed))
    {
      var gen := gate.gen;
      FinishSave(k, parsed, gen, store);
    }

    /** The rest of a save that read generation gen before parsing: a generation gone stale meanwhile drops it. */
    method FinishSave(k: Key, parsed: Option<Parsed>, gen: nat, store: PromotionStore)
      modifies area
      ensures State(area, store) ==
              if gen == gate.gen then After(old(State(area, store)), Save(k, parsed)) else old(State(area, store))
    {
      if parsed.Some? {
        var _ := area.Stage(k, parsed.value, Some(gen), gate);
      }
    }

    method DeleteFile(k: Key, store: PromotionStore)
      modifies area
      ensures State(area, store) == After(old(State(area, store)), Delete(k))
    {
      var gen := gate.gen;
      var _ := area.Stage(k, TOMBSTONE, Some(gen), gate);
    }
  }

  lemma {:induction false} BatchMapFacts(batch: seq<(Key, Parsed)>)
    requires forall a, b :: 0 <= a < b < |batch| ==> batch[a].0 != batch[b].0
    ensures forall k :: k in BatchMap(batch) <==> exists i :: 0 <= i < |batch| && batch[i].0 == k
    ensures forall i :: 0 <= i < |batch| ==> batch[i].0 in BatchMap(batch) && BatchMap(batch)[batch[i].0] == batch[i].1
  {
    if batch != [] {
      var n := |batch| - 1;
      BatchMapFacts(batch[..n]);
      assert forall i :: 0 <= i < n ==> batch[..n][i] == batch[i];
      forall k | k in BatchMap(batch[..n]) ensures exists i :: 0 <= i < n && batch[i].0 == k {
        var i :| 0 <= i < n && batch[..n][i].0 == k;
        assert batch[i].0 == k;
      }
    }
  }

  /** Flushes a branch's staged files in one transaction; only a committed batch is unstaged. */
  method PromoteBranch(area: Area, store: PromotionStore, repo: Name, branch: Name, accepts: bool) returns (ok: bool)
    modifies area, store
    ensures ok == accepts && State(area, store) == After(old(State(area, store)), Promote(repo, branch, accepts))
  {
    hide BatchMap;
    hide BatchFor;
    var snap := area.Snapshot(repo, branch);
    var batch := BuildBatch(repo, branch, snap);
    ok := store.Commit(batch, accepts);
    if !ok {
      return;
    }
    ghost var staged := area.entries;
    Unstage(area, batch);
    BatchKeysDistinct(repo, branch, snap, batch);
    BatchMapFacts(batch);
    BatchIsBranch(staged, repo, branch, snap, batch);
  }

  /** Removes a committed batch's paths from staging, one by one. */
  method Unstage(area: Area, batch: seq<(Key, Parsed)>)
    modifies area
    ensures area.entries == old(area.entries) - (set j | 0 <= j < |batch| :: batch[j].0)
  {
    for i := 0 to |batch|
      invariant area.entries == old(area.entries) - (set j | 0 <= j < i :: batch[j].0)
    {
      area.DeleteStagedFile(batch[i].0);
    }
  }

  ghost predicate BatchFor(repo: Name, branch: Name, snap: map<Name, Parsed>, batch: seq<(Key, Parsed)>) {
    && (forall a, b :: 0 <= a < b < |batch| ==> batch[a].0 != batch[b].0)
    && (forall i :: 0 <= i < |batch| ==>
        On(batch[i].0, repo, branch) && batch[i].0.path in snap && batch[i].1 == snap[batch[i].0.path])
    && (forall p :: p in snap ==> exists i :: 0 <= i < |batch| && batch[i].0 == Key(repo, branch, p))
  }

  lemma BatchKeysDistinct(repo: Name, branch: Name, snap: map<Name, Parsed>, batch: seq<(Key, Parsed)>)
    requires BatchFor(repo, branch, snap, batch)
    ensures forall a, b :: 0 <= a < b < |batch| ==> batch[a].0 != batch[b].0
  {
  }

  method BuildBatch(repo: Name, branch: Name, snap: map<Name, Parsed>) returns (batch: seq<(Key, Parsed)>)
    ensures BatchFor(repo, branch, snap, batch)
  {
    batch := [];
    var rest := snap.Keys;
    while rest != {}
      invariant rest <= snap.Keys
      invariant forall a, b :: 0 <= a < b < |batch| ==> batch[a].0 != batch[b].0
      invariant forall i :: 0 <= i < |batch| ==>
        On(batch[i].0, repo, branch) && batch[i].0.path in snap && batch[i].0.path !in rest &&
            batch[i].1 == snap[batch[i].0.path]
      invariant forall p :: p in snap && p !in rest ==>
          exists i :: 0 <= i < |batch| && batch[i].0 == Key(repo, branch, p)
    {
      var p :| p in rest;
      rest := rest - {p};
      ghost var before := batch;
      batch := batch + [(Key(repo, branch, p), snap[p])];
      forall q | q in snap && q !in rest ensures exists i :: 0 <= i < |batch| && batch[i].0 == Key(repo, branch, q) {
        if q == p {
          assert batch[|before|].0 == Key(repo, branch, q);
        } else {
          var i :| 0 <= i < |before| && before[i].0 == Key(repo, branch, q);
          assert batch[i].0 == Key(repo, branch, q);
        }
      }
    }
  }

  lemma BatchIsBranch(staged: Files, repo: Name, branch: Name, snap: map<Name, Parsed>, batch: seq<(Key, Parsed)>)
    requires BatchFor(repo, branch, snap, batch)
    requires forall p :: p in snap <==> Key(repo, branch, p) in staged
    requires forall p :: p in snap ==> snap[p] == staged[Key(repo, branch, p)]
    requires forall k :: k in BatchMap(batch) <==> exists i :: 0 <= i < |batch| && batch[i].0 == k
    requires forall i :: 0 <= i < |batch| ==> batch[i].0 in BatchMap(batch) && BatchMap(batch)[batch[i].0] == batch[i].1
    ensures BatchMap(batch) == OnBranch(staged, repo, branch)
    ensures staged - (set j | 0 <= j < |batch| :: batch[j].0) == Without(staged, repo, branch)
  {
    hide BatchMap;
    forall k ensures k in BatchMap(batch) <==> k in staged && On(k, repo, branch) {
      if k in BatchMap(batch) {
        var i :| 0 <= i < |batch| && batch[i].0 == k;
        assert k == Key(repo, branch, k.path);
      }
      if k in staged && On(k, repo, branch) {
        assert k == Key(repo, branch, k.path) && k.path in snap;
      }
    }
    forall k | k in BatchMap(batch) ensures BatchMap(batch)[k] == staged[k] {
      var i :| 0 <= i < |batch| && batch[i].0 == k;
      assert k == Key(repo, branch, k.path);
    }
  }

  /**
   A working tree found on another branch: the old branch's staging is dropped and saves in flight are
   invalidated, even when recording the new branch fails. cur is None for a read failure or detached HEAD.
   */
  method Reconcile(area: Area, gate: Gate, repo: Name, cur: Option<Name>, active: Name, setOk: bool)
    returns (switched: Option<Name>, nowActive: Name)
    modifies area, gate`gen
    ensures cur.None? || cur.value == active ==>
              switched.None? && nowActive == active && gate.gen == old(gate.gen) && area.entries == old(area.entries)
    ensures cur.Some? && cur.value != active ==>
              && gate.gen == old(gate.gen) + 1 && area.entries == Without(old(area.entries), repo, active)
              && (if setOk then switched == cur && nowActive == cur.value else switched.None? && nowActive == active)
  {
    switched, nowActive := None, active;
    if cur.None? || cur.value == active {
      return;
    }
    var _ := gate.BumpGeneration();
    area.Clear(repo, active);
    if setOk {
      switched, nowActive := cur, cur.value;
    }
  }
}
