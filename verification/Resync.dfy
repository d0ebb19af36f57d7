/** Startup resync: replaying missed commits through save and promote. */
module Resync {
  import opened Basics
  import opened Staging

  /** File contents at a commit; equality is all git needs to see a change. */
  type Content(==, 0, !new)

  type Tree = map<Name, Content>

  /** The repo and branch resynced, and a parser that never fails. */
  datatype Target = Target(repo: Name, branch: Name, parse: Content -> Parsed)

  function KeyOf(t: Target, p: Name): Key {
    Key(t.repo, t.branch, p)
  }

  ghost predicate ChangedIn(prev: Tree, cur: Tree, p: Name) {
    (p in prev || p in cur) && !(p in prev && p in cur && prev[p] == cur[p])
  }

  /** What replaying a commit saves: changed files that can be read; deletions are skipped. */
  ghost function Saves(t: Target, prev: Tree, cur: Tree): Files {
    map p | p in cur && ChangedIn(prev, cur, p) :: KeyOf(t, p) := t.parse(cur[p])
  }

  lemma SavesAt(t: Target, prev: Tree, cur: Tree, k: Key)
    ensures k in Saves(t, prev, cur) <==> On(k, t.repo, t.branch) && k.path in cur && ChangedIn(prev, cur, k.path)
    ensures k in Saves(t, prev, cur) ==> Saves(t, prev, cur)[k] == t.parse(cur[k.path])
  {
    if On(k, t.repo, t.branch) {
      assert k == KeyOf(t, k.path);
    }
  }

  /** The store after commits 1 to n of a linear history have been replayed on top of d. */
  ghost function Replayed(t: Target, d: Files, history: seq<Tree>, n: nat): Files
    requires n < |history|
  {
    if n == 0 then d else Replayed(t, d, history, n - 1) + Saves(t, history[n - 1], history[n])
  }

  ghost predicate AgreesWith(t: Target, d: Files, tree: Tree) {
    forall p :: p in tree ==> KeyOf(t, p) in d && d[KeyOf(t, p)] == t.parse(tree[p])
  }

  /** The last commit up to n that has the file, if any. */
  ghost predicate LastSeen(history: seq<Tree>, n: nat, p: Name, i: nat)
    requires n < |history|
  {
    i <= n && p in history[i] && forall j :: i < j <= n ==> p !in history[j]
  }

  lemma ReplayedStep(t: Target, d: Files, history: seq<Tree>, n: nat, k: Key)
    requires 0 < n < |history|
    ensures var saves := Saves(t, history[n - 1], history[n]);
            var before := Replayed(t, d, history, n - 1);
            var after := Replayed(t, d, history, n);
            && (k in after <==> k in before || k in saves)
            && (k in after ==> after[k] == if k in saves then saves[k] else before[k])
  {
    hide Saves;
  }

  /** Every file some commit has ends up as the last such commit left it. */
  lemma {:induction false} ReplayedSeen(t: Target, d: Files, history: seq<Tree>, n: nat, p: Name, i: nat)
    requires n < |history| && AgreesWith(t, d, history[0]) && LastSeen(history, n, p, i)
    ensures KeyOf(t, p) in Replayed(t, d, history, n)
    ensures Replayed(t, d, history, n)[KeyOf(t, p)] == t.parse(history[i][p])
  {
    if n > 0 {
      var k := KeyOf(t, p);
      SavesAt(t, history[n - 1], history[n], k);
      ReplayedStep(t, d, history, n, k);
      hide Saves, Replayed, AgreesWith;
      if i < n {
        ReplayedSeen(t, d, history, n - 1, p, i);
      } else if p in history[n - 1] {
        ReplayedSeen(t, d, history, n - 1, p, n - 1);
      }
    }
  }

  /** A file no commit has is untouched. */
  lemma {:induction false} ReplayedUnseen(t: Target, d: Files, history: seq<Tree>, n: nat, p: Name)
    requires n < |history| && forall i :: 0 <= i <= n ==> p !in history[i]
    ensures KeyOf(t, p) in Replayed(t, d, history, n) <==> KeyOf(t, p) in d
    ensures KeyOf(t, p) in d ==> Replayed(t, d, history, n)[KeyOf(t, p)] == d[KeyOf(t, p)]
  {
    if n > 0 {
      ReplayedUnseen(t, d, history, n - 1, p);
      SavesAt(t, history[n - 1], history[n], KeyOf(t, p));
      ReplayedStep(t, d, history, n, KeyOf(t, p));
      hide Saves, Replayed;
    }
  }

  /** A file every commit has with the same contents is untouched. */
  lemma {:induction false} ReplayedUnchanged(t: Target, d: Files, history: seq<Tree>, n: nat, p: Name)
    requires n < |history| && p in history[0] && forall i :: 0 <= i <= n ==>
        p in history[i] && history[i][p] == history[0][p]
    ensures KeyOf(t, p) in Replayed(t, d, history, n) <==> KeyOf(t, p) in d
    ensures KeyOf(t, p) in d ==> Replayed(t, d, history, n)[KeyOf(t, p)] == d[KeyOf(t, p)]
  {
    if n > 0 {
      ReplayedUnchanged(t, d, history, n - 1, p);
      SavesAt(t, history[n - 1], history[n], KeyOf(t, p));
      ReplayedStep(t, d, history, n, KeyOf(t, p));
      hide Saves, Replayed;
    }
  }

  /** Other branches and repos are untouched. */
  lemma {:induction false} ReplayedElsewhere(t: Target, d: Files, history: seq<Tree>, n: nat, k: Key)
    requires n < |history| && !On(k, t.repo, t.branch)
    ensures k in Replayed(t, d, history, n) <==> k in d
    ensures k in d ==> Replayed(t, d, history, n)[k] == d[k]
  {
    if n > 0 {
      ReplayedElsewhere(t, d, history, n - 1, k);
      SavesAt(t, history[n - 1], history[n], k);
      ReplayedStep(t, d, history, n, k);
      hide Saves, Replayed;
    }
  }

  /** After the replay the store agrees with HEAD on every path HEAD has. */
  lemma AgreesAtHead(t: Target, d: Files, history: seq<Tree>)
    requires history != [] && AgreesWith(t, d, history[0])
    ensures AgreesWith(t, Replayed(t, d, history, |history| - 1), history[|history| - 1])
  {
    var n := |history| - 1;
    forall p | p in history[n]
      ensures KeyOf(t, p) in Replayed(t, d, history, n) &&
          Replayed(t, d, history, n)[KeyOf(t, p)] == t.parse(history[n][p])
    {
      ReplayedSeen(t, d, history, n, p, n);
    }
  }

  /** A path deleted by HEAD keeps what the last commit that had it held: the replay never removes it. */
  lemma DeletedPathSurvives(t: Target, d: Files, history: seq<Tree>, p: Name, i: nat)
    requires history != [] && AgreesWith(t, d, history[0])
    requires p !in history[|history| - 1] && LastSeen(history, |history| - 1, p, i)
    ensures KeyOf(t, p) in Replayed(t, d, history, |history| - 1)
    ensures Replayed(t, d, history, |history| - 1)[KeyOf(t, p)] == t.parse(history[i][p])
  {
    hide AgreesWith, Replayed;
    ReplayedSeen(t, d, history, |history| - 1, p, i);
  }

  ghost predicate SomeCommitHas(history: seq<Tree>, n: nat, p: Name)
    requires n < |history|
  {
    exists i :: 0 <= i <= n && p in history[i]
  }

  lemma {:induction false} LastCommitThatHas(history: seq<Tree>, n: nat, p: Name) returns (i: nat)
    requires n < |history| && SomeCommitHas(history, n, p)
    ensures LastSeen(history, n, p, i)
  {
    if p in history[n] {
      i := n;
    } else {
      i := LastCommitThatHas(history, n - 1, p);
    }
  }

  /** The store holds a path exactly when it held it before or some replayed commit has it. */
  lemma ReplayedHolds(t: Target, d: Files, history: seq<Tree>, n: nat, p: Name)
    requires n < |history| && AgreesWith(t, d, history[0])
    ensures KeyOf(t, p) in Replayed(t, d, history, n) <==> KeyOf(t, p) in d || SomeCommitHas(history, n, p)
  {
    hide Replayed, AgreesWith;
    if SomeCommitHas(history, n, p) {
      var i := LastCommitThatHas(history, n, p);
      ReplayedSeen(t, d, history, n, p, i);
    } else {
      ReplayedUnseen(t, d, history, n, p);
    }
  }

  /**
   The replayed store mirrors HEAD at a path, holding it exactly if HEAD does, if and only if HEAD has
   the path or neither the old store nor any commit of the range ever had it: only deletions are lost.
   */
  lemma MirrorsHeadExactly(t: Target, d: Files, history: seq<Tree>, p: Name)
    requires history != [] && AgreesWith(t, d, history[0])
    ensures var n := |history| - 1;
            (KeyOf(t, p) in Replayed(t, d, history, n) <==> p in history[n])
            <==> (p in history[n] || (KeyOf(t, p) !in d && !SomeCommitHas(history, n, p)))
  {
    ReplayedHolds(t, d, history, |history| - 1, p);
    hide Replayed, AgreesWith;
  }

  /** One commit that deletes the one file: the replay leaves it in the store. */
  lemma DeletionIsLost(t: Target, p: Name, c: Content)
    ensures var d: Files := map[KeyOf(t, p) := t.parse(c)];
            var history: seq<Tree> := [map[p := c], map[]];
            AgreesWith(t, d, history[0]) && p !in history[1]
            && KeyOf(t, p) in Replayed(t, d, history, 1) && Replayed(t, d, history, 1)[KeyOf(t, p)] == t.parse(c)
  {
    var d: Files := map[KeyOf(t, p) := t.parse(c)];
    var history: seq<Tree> := [map[p := c], map[]];
    assert LastSeen(history, 1, p, 0);
    ReplayedSeen(t, d, history, 1, p, 0);
  }

  // ---------- the replay ----------

  method ListChanged(prev: Tree, cur: Tree) returns (files: seq<Name>)
    ensures forall p :: p in files <==> ChangedIn(prev, cur, p)
  {
    files := [];
    var rest := prev.Keys + cur.Keys;
    while rest != {}
      invariant rest <= prev.Keys + cur.Keys
      invariant forall p :: p in files <==> ChangedIn(prev, cur, p) && p !in rest
    {
      var p :| p in rest;
      rest := rest - {p};
      if p !in prev || p !in cur || prev[p] != cur[p] {
        files := files + [p];
      }
    }
  }

  /** Staged on the branch: nothing but what replaying this commit would save anyway. */
  ghost predicate OnlyFrom(staged: Files, t: Target, saves: Files) {
    forall k :: k in staged && On(k, t.repo, t.branch) ==> k in saves && staged[k] == saves[k]
  }

  /** Saves the commit's readable changes and promotes; a failed promotion leaves them staged. */
  method ReplayCommit(t: Target, ing: Ingester, store: PromotionStore, prev: Tree, cur: Tree, accepts: bool)
    returns (ok: bool)
    requires OnlyFrom(ing.area.entries, t, Saves(t, prev, cur))
    modifies ing.area, store
    ensures ok == accepts
    ensures store.files == if ok then old(store.files) + Saves(t, prev, cur) else old(store.files)
    ensures OnBranch(ing.area.entries, t.repo, t.branch) == if ok then map[] else Saves(t, prev, cur)
    ensures Without(ing.area.entries, t.repo, t.branch) == old(Without(ing.area.entries, t.repo, t.branch))
  {
    var files := ListChanged(prev, cur);
    ghost var saves := Saves(t, prev, cur);
    hide Saves;
    for i := 0 to |files|
      invariant OnlyFrom(ing.area.entries, t, saves) && store.files == old(store.files)
      invariant forall p :: p in files[..i] && p in cur ==> KeyOf(t, p) in ing.area.entries
      invariant Without(ing.area.entries, t.repo, t.branch) == old(Without(ing.area.entries, t.repo, t.branch))
    {
      var f := files[i];
      assert files[..i + 1] == files[..i] + [f];
      assert f in files;
      if f in cur {
        SavesAt(t, prev, cur, KeyOf(t, f));
        ing.SaveFile(KeyOf(t, f), Some(t.parse(cur[f])), store);
      }
    }
    assert files[..|files|] == files;
    forall k | k in saves ensures k in ing.area.entries && On(k, t.repo, t.branch) {
      SavesAt(t, prev, cur, k);
      assert k == KeyOf(t, k.path);
    }
    assert OnBranch(ing.area.entries, t.repo, t.branch) == saves;
    ok := PromoteBranch(ing.area, store, t.repo, t.branch, accepts);
  }

  /**
   Replays the commits after last, stopping at a failed promotion. last is where the store stands: the
   last promoted commit. Staging may hold what an earlier, interrupted replay of the next commit left.
   */
  method ResyncRepo(t: Target, ing: Ingester, store: PromotionStore, history: seq<Tree>, last: nat,
                    accepts: nat -> bool, ghost d: Files)
    returns (reached: nat, ok: bool)
    requires last < |history| && store.files == Replayed(t, d, history, last)
    requires if last + 1 < |history| then OnlyFrom(ing.area.entries, t, Saves(t, history[last], history[last + 1]))
             else OnlyFrom(ing.area.entries, t, map[])
    modifies ing.area, store
    ensures last <= reached < |history| && (ok <==> reached == |history| - 1)
    // it stops at the first commit whose promotion the store refuses, and only there
    ensures forall i :: last < i <= reached ==> accepts(i)
    ensures !ok ==> !accepts(reached + 1)
    // wherever it stops, the store is the one an uninterrupted replay would have there, so it can be resumed
    ensures store.files == Replayed(t, d, history, reached)
    ensures if reached + 1 < |history| then OnlyFrom(ing.area.entries, t,
        Saves(t, history[reached], history[reached + 1]))
            else OnlyFrom(ing.area.entries, t, map[])
  {
    reached := last;
    hide Saves;
    while reached + 1 < |history|
      invariant last <= reached < |history| && store.files == Replayed(t, d, history, reached)
      invariant forall i :: last < i <= reached ==> accepts(i)
      invariant if reached + 1 < |history| then OnlyFrom(ing.area.entries, t,
          Saves(t, history[reached], history[reached + 1]))
                else OnlyFrom(ing.area.entries, t, map[])
      decreases |history| - reached
    {
      var good := ReplayCommit(t, ing, store, history[reached], history[reached + 1], accepts(reached + 1));
      StagedOnBranch(ing.area.entries, t);
      if !good {
        return reached, false;
      }
      reached := reached + 1;
    }
    ok := true;
  }

  lemma StagedOnBranch(staged: Files, t: Target)
    ensures forall k :: k in OnBranch(staged, t.repo, t.branch) <==> k in staged && On(k, t.repo, t.branch)
    ensures forall k :: k in OnBranch(staged, t.repo, t.branch) ==> OnBranch(staged, t.repo, t.branch)[k] == staged[k]
  {
  }

  /** Stopped and resumed, its staging lost or not, a replay reaches the store it would have reached at once. */
  method InterruptedReplay(t: Target, ing: Ingester, store: PromotionStore, history: seq<Tree>, restart: bool,
                           first: nat -> bool, second: nat -> bool)
    returns (firstStop: nat, ok: bool)
    requires history != [] && AgreesWith(t, store.files, history[0]) && OnlyFrom(ing.area.entries, t, map[])
    modifies ing.area, store
    // it ends at HEAD exactly when the store accepts everything at once, or all that is left the second time
    ensures ok <==>
        (forall i :: 0 < i < |history| ==> first(i)) || (forall i :: firstStop < i < |history| ==> second(i))
    ensures firstStop < |history| && (forall i :: 0 < i <= firstStop ==> first(i))
    ensures firstStop + 1 < |history| ==> !first(firstStop + 1)
    ensures ok ==> store.files == Replayed(t, old(store.files), history, |history| - 1)
    ensures ok ==> AgreesWith(t, store.files, history[|history| - 1])
  {
    ghost var d := store.files;
    hide Saves;
    var stop, good := ResyncRepo(t, ing, store, history, 0, first, d);
    firstStop, ok := stop, good;
    if !good {
      if restart {
        ing.area.Clear(t.repo, t.branch);
      }
      var end, done := ResyncRepo(t, ing, store, history, stop, second, d);
      ok := done;
    }
    if ok {
      AgreesAtHead(t, d, history);
    }
  }
}
