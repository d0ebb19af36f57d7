/** The net-new exact-clone gate (internal/application/diffgate/clonegate.go). */
module CloneGate {
  import opened Basics
  import opened Graph
  import opened Overlay

  /** A base node as the store's content-hash lookup returns it; the store keys nodes by id. */
  datatype BaseNode = BaseNode(path: string, name: string, kind: string, contentHash: string)

  datatype NodeRef = NodeRef(id: NodeId, node: BaseNode)

  type Base = map<NodeId, BaseNode>

  datatype CloneMember = CloneMember(id: NodeId, path: string, name: string)

  datatype CloneGroup = CloneGroup(contentHash: string, members: seq<CloneMember>)

  datatype CloneVerdict = CloneVerdict(pass: bool, checked: bool, newClones: seq<CloneGroup>)

  const EXCLUDED_KINDS: seq<string> := ["package", "chunk", "file", "module", "field", "import"]

  // ---------- clone groups before and after the change ----------

  /** A node counts for `h` if that is its hash, it is not empty, and its kind has a body to clone. */
  predicate Holds(kind: string, contentHash: string, h: string) {
    contentHash == h && h != "" && kind !in EXCLUDED_KINDS
  }

  /** Which nodes count, with the kinds left out named one by one. */
  lemma WhoHolds(kind: string, contentHash: string, h: string)
    ensures kind in {"package", "chunk", "file", "module", "field", "import"} ==> !Holds(kind, contentHash, h)
    ensures kind !in {"package", "chunk", "file", "module", "field", "import"} ==>
              (Holds(kind, contentHash, h) <==> contentHash == h && h != "")
  {
    assert EXCLUDED_KINDS[0] == "package" && EXCLUDED_KINDS[1] == "chunk" && EXCLUDED_KINDS[2] == "file" &&
        EXCLUDED_KINDS[3] == "module" && EXCLUDED_KINDS[4] == "field" && EXCLUDED_KINDS[5] == "import";
  }

  ghost predicate OverlayHolds(n: OverlayNode, h: string) {
    n.contentHash.Some? && Holds(n.kind, n.contentHash.value, h)
  }

  ghost predicate BaseHolds(b: BaseNode, h: string) {
    Holds(b.kind, b.contentHash, h)
  }

  ghost function OverlayIds(files: seq<OverlayFile>, h: string): set<NodeId> {
    set f, n | f in files && n in f.nodes && OverlayHolds(n, h) :: n.id
  }

  ghost function BaseIds(base: Base, h: string): set<NodeId> {
    set id | id in base && BaseHolds(base[id], h)
  }

  /** The base nodes the change leaves standing: those in files it did not touch. */
  ghost function Standing(base: Base, touched: set<string>): Base {
    map id | id in base && base[id].path !in touched :: base[id]
  }

  /** The nodes with content `h` once the change is in. */
  ghost function AfterIds(base: Base, touched: set<string>, files: seq<OverlayFile>, h: string): set<NodeId> {
    OverlayIds(files, h) + BaseIds(Standing(base, touched), h)
  }

  ghost predicate NewClone(base: Base, touched: set<string>, files: seq<OverlayFile>, h: string) {
    |AfterIds(base, touched, files, h)| >= 2 && |BaseIds(base, h)| < 2
  }

  lemma StandingSubset(base: Base, touched: set<string>, h: string)
    ensures BaseIds(Standing(base, touched), h) <= BaseIds(base, h)
  {}

  /** Looking only at the overlay's hashes is complete. */
  lemma NewCloneInOverlay(base: Base, touched: set<string>, files: seq<OverlayFile>, h: string)
    requires NewClone(base, touched, files, h)
    ensures OverlayIds(files, h) != {}
  {
    StandingSubset(base, touched, h);
    SubsetSize(BaseIds(Standing(base, touched), h), BaseIds(base, h));
    assert OverlayIds(files, h) == {} ==> AfterIds(base, touched, files, h) == BaseIds(Standing(base, touched), h);
  }

  // ---------- the gate ----------

  /** The fields shown for a member: those of the standing base node, else of an overlay node. */
  ghost predicate Shows(base: Base, touched: set<string>, files: seq<OverlayFile>, h: string, m: CloneMember) {
    if m.id in BaseIds(Standing(base, touched), h) then m == CloneMember(m.id, base[m.id].path, base[m.id].name)
    else exists n :: InOverlay(files, n) && OverlayHolds(n, h) && m == MemberOf(n)
  }

  ghost function MemberOf(n: OverlayNode): CloneMember { CloneMember(n.id, n.path, n.name) }

  /** A reported group lists each after-state holder of its hash once, and nobody else. */
  ghost predicate GoodGroup(base: Base, touched: set<string>, files: seq<OverlayFile>, g: CloneGroup) {
    && (forall i, j :: 0 <= i < j < |g.members| ==> g.members[i].id != g.members[j].id)
    && (forall id :: id in AfterIds(base, touched, files, g.contentHash) <==>
        exists i :: 0 <= i < |g.members| && g.members[i].id == id)
    && (forall i :: 0 <= i < |g.members| ==> Shows(base, touched, files, g.contentHash, g.members[i]))
  }

  method NodesByContentHash(base: Base, h: string) returns (rows: seq<NodeRef>)
    ensures forall i, j :: 0 <= i < j < |rows| ==> rows[i].id != rows[j].id
    ensures RowsOf(base, h, rows)
    ensures |rows| == |BaseIds(base, h)|
  {
    rows := [];
    var left := base.Keys;
    ghost var done: set<NodeId> := {};
    while left != {}
      invariant left <= base.Keys
      invariant done == BaseIds(base, h) - left && |rows| == |done|
      invariant forall i, j :: 0 <= i < j < |rows| ==> rows[i].id != rows[j].id
      invariant forall r :: r in rows <==> r.id in done && r.node == base[r.id]
    {
      var id :| id in left;
      left := left - {id};
      if Holds(base[id].kind, base[id].contentHash, h) {
        rows := rows + [NodeRef(id, base[id])];
        done := done + {id};
      }
    }
  }

  function Appended(byHash: map<string, seq<CloneMember>>, h: string, m: CloneMember): map<string, seq<CloneMember>> {
    byHash[h := (if h in byHash then byHash[h] else []) + [m]]
  }

  /** `byHash` groups the eligible overlay nodes of `files`, and of the part of a file read so far, by content hash. */
  ghost predicate GroupedUpTo(files: seq<OverlayFile>, nodes: seq<OverlayNode>, byHash: map<string, seq<CloneMember>>) {
    && (forall h, m :: h in byHash && m in byHash[h] ==>
          exists n :: (InOverlay(files, n) || n in nodes) && OverlayHolds(n, h) && m == MemberOf(n))
    && (forall n, h :: (InOverlay(files, n) || n in nodes) && OverlayHolds(n, h) ==>
        h in byHash && MemberOf(n) in byHash[h])
  }

  lemma GroupNode(files: seq<OverlayFile>, nodes: seq<OverlayNode>, byHash: map<string, seq<CloneMember>>,
                  n: OverlayNode)
    requires GroupedUpTo(files, nodes, byHash)
    ensures if n.contentHash.Some? && OverlayHolds(n, n.contentHash.value)
            then GroupedUpTo(files, nodes + [n], Appended(byHash, n.contentHash.value, MemberOf(n)))
            else GroupedUpTo(files, nodes + [n], byHash)
  {
    var all := nodes + [n];
    assert n in all;
    if n.contentHash.Some? && OverlayHolds(n, n.contentHash.value) {
      var g := n.contentHash.value;
      var byHash' := Appended(byHash, g, MemberOf(n));
      forall h, m | h in byHash' && m in byHash'[h]
        ensures exists k :: (InOverlay(files, k) || k in all) && OverlayHolds(k, h) && m == MemberOf(k)
      {
        if h != g || m != MemberOf(n) {
          assert h in byHash && m in byHash[h];
          var k :| (InOverlay(files, k) || k in nodes) && OverlayHolds(k, h) && m == MemberOf(k);
          assert InOverlay(files, k) || k in all;
        }
      }
    } else {
      forall h, m | h in byHash && m in byHash[h]
        ensures exists k :: (InOverlay(files, k) || k in all) && OverlayHolds(k, h) && m == MemberOf(k)
      {
        var k :| (InOverlay(files, k) || k in nodes) && OverlayHolds(k, h) && m == MemberOf(k);
        assert InOverlay(files, k) || k in all;
      }
    }
  }

  lemma GroupFile(files: seq<OverlayFile>, i: nat, byHash: map<string, seq<CloneMember>>)
    requires i < |files| && GroupedUpTo(files[..i], files[i].nodes, byHash)
    ensures GroupedUpTo(files[..i + 1], [], byHash)
  {
    OverlayStep(files, i);
    forall h, m | h in byHash && m in byHash[h]
      ensures exists k :: (InOverlay(files[..i + 1], k) || k in []) && OverlayHolds(k, h) && m == MemberOf(k)
    {
      var k :| (InOverlay(files[..i], k) || k in files[i].nodes) && OverlayHolds(k, h) && m == MemberOf(k);
      assert InOverlay(files[..i + 1], k);
    }
  }

  method GroupOverlay(files: seq<OverlayFile>) returns (byHash: map<string, seq<CloneMember>>)
    ensures GroupedUpTo(files, [], byHash)
  {
    byHash := map[];
    for i := 0 to |files|
      invariant GroupedUpTo(files[..i], [], byHash)
    {
      var nodes := files[i].nodes;
      assert nodes[..0] == [];
      for j := 0 to |nodes|
        invariant GroupedUpTo(files[..i], nodes[..j], byHash)
      {
        var n := nodes[j];
        GroupNode(files[..i], nodes[..j], byHash, n);
        assert nodes[..j + 1] == nodes[..j] + [n];
        if n.contentHash.None? { continue; }
        if n.kind in EXCLUDED_KINDS { continue; }
        var h := n.contentHash.value;
        if h == "" { continue; }
        byHash := Appended(byHash, h, CloneMember(n.id, n.path, n.name));
      }
      assert nodes[..|nodes|] == nodes;
      GroupFile(files, i, byHash);
    }
    assert files[..|files|] == files;
  }

  // ---------- the members of one group ----------

  ghost predicate Named(m: CloneMember, r: NodeRef) { m == CloneMember(r.id, r.node.path, r.node.name) }

  /** `members` after the overlay members and the first rows: the rows win. */
  ghost predicate Merged(overlay: seq<CloneMember>, rows: seq<NodeRef>, touched: set<string>, members: map<NodeId,
                         CloneMember>) {
    && (forall m :: m in overlay ==> m.id in members)
    && (forall r :: r in rows && r.node.path !in touched ==> r.id in members && Named(members[r.id], r))
    && (forall id :: id in members ==> members[id].id == id)
    && (forall id :: id in members ==>
        members[id] in overlay || exists r :: r in rows && r.node.path !in touched && r.id == id)
  }

  method MergeMembers(overlay: seq<CloneMember>, rows: seq<NodeRef>, touched: set<string>)
    returns (members: map<NodeId, CloneMember>)
    requires forall i, j :: 0 <= i < j < |rows| ==> rows[i].id != rows[j].id
    ensures Merged(overlay, rows, touched, members)
  {
    members := map[];
    for i := 0 to |overlay|
      invariant Merged(overlay[..i], [], touched, members)
    {
      assert overlay[..i + 1] == overlay[..i] + [overlay[i]];
      members := members[overlay[i].id := overlay[i]];
    }
    assert overlay[..|overlay|] == overlay;
    assert rows[..0] == [];
    for i := 0 to |rows|
      invariant Merged(overlay, rows[..i], touched, members)
    {
      var b := rows[i];
      assert rows[..i + 1] == rows[..i] + [b];
      if b.node.path in touched { continue; }
      members := members[b.id := CloneMember(b.id, b.node.path, b.node.name)];
    }
    assert rows[..|rows|] == rows;
  }

  method ListMembers(members: map<NodeId, CloneMember>) returns (out: seq<CloneMember>)
    requires forall id :: id in members ==> members[id].id == id
    ensures forall i, j :: 0 <= i < j < |out| ==> out[i].id != out[j].id
    ensures forall m :: m in out <==> m.id in members && members[m.id] == m
  {
    out := [];
    var left := members.Keys;
    while left != {}
      invariant left <= members.Keys
      invariant forall i, j :: 0 <= i < j < |out| ==> out[i].id != out[j].id
      invariant forall m :: m in out <==> m.id in members.Keys - left && members[m.id] == m
    {
      var id :| id in left;
      left := left - {id};
      out := out + [members[id]];
    }
  }

  ghost predicate RowsOf(base: Base, h: string, rows: seq<NodeRef>) {
    forall r :: r in rows <==> r.id in BaseIds(base, h) && r.node == base[r.id]
  }

  lemma MergedStanding(base: Base, touched: set<string>, h: string, overlay: seq<CloneMember>, rows: seq<NodeRef>,
                       members: map<NodeId, CloneMember>, id: NodeId)
    requires RowsOf(base, h, rows) && Merged(overlay, rows, touched, members)
    ensures id in BaseIds(Standing(base, touched), h) ==>
        id in members && members[id] == CloneMember(id, base[id].path, base[id].name)
    ensures id in members && id !in BaseIds(Standing(base, touched), h) ==> members[id] in overlay
  {
    if id in BaseIds(Standing(base, touched), h) {
      assert NodeRef(id, base[id]) in rows;
    }
    assert forall r :: r in rows && r.node.path !in touched ==> r.id in BaseIds(Standing(base, touched), h);
  }

  lemma GroupedIds(files: seq<OverlayFile>, byHash: map<string, seq<CloneMember>>, h: string)
    requires GroupedUpTo(files, [], byHash) && h in byHash
    ensures forall id :: id in OverlayIds(files, h) <==> exists m :: m in byHash[h] && m.id == id
  {
    forall id | id in OverlayIds(files, h) ensures exists m :: m in byHash[h] && m.id == id {
      var f, n :| f in files && n in f.nodes && OverlayHolds(n, h) && n.id == id;
      assert InOverlay(files, n);
      assert MemberOf(n) in byHash[h];
    }
    forall m | m in byHash[h] ensures m.id in OverlayIds(files, h) {
      var n :| (InOverlay(files, n) || n in []) && OverlayHolds(n, h) && m == MemberOf(n);
      var f :| f in files && n in f.nodes;
    }
  }

  /** The merged ids are the after-state's holders of `h`, and each member shows the right fields. */
  lemma MergedIsAfter(base: Base, touched: set<string>, files: seq<OverlayFile>, byHash: map<string, seq<CloneMember>>,
                      h: string, rows: seq<NodeRef>, members: map<NodeId, CloneMember>)
    requires GroupedUpTo(files, [], byHash) && h in byHash
    requires RowsOf(base, h, rows)
    requires Merged(byHash[h], rows, touched, members)
    ensures members.Keys == AfterIds(base, touched, files, h)
    ensures forall id :: id in members ==> Shows(base, touched, files, h, members[id])
  {
    GroupedIds(files, byHash, h);
    hide RowsOf, OverlayIds, BaseIds, Standing;
    forall id ensures id in members <==> id in AfterIds(base, touched, files, h) {
      MergedStanding(base, touched, h, byHash[h], rows, members, id);
    }
    forall id | id in members ensures Shows(base, touched, files, h, members[id]) {
      MergedStanding(base, touched, h, byHash[h], rows, members, id);
    }
  }

  lemma GroupIsGood(base: Base, touched: set<string>, files: seq<OverlayFile>, members: map<NodeId, CloneMember>,
                    g: CloneGroup)
    requires members.Keys == AfterIds(base, touched, files, g.contentHash)
    requires forall id :: id in members ==>
        members[id].id == id && Shows(base, touched, files, g.contentHash, members[id])
    requires forall i, j :: 0 <= i < j < |g.members| ==> g.members[i].id != g.members[j].id
    requires forall m :: m in g.members <==> m.id in members && members[m.id] == m
    ensures GoodGroup(base, touched, files, g)
  {
    hide AfterIds, Shows;
    forall id | id in members ensures exists i :: 0 <= i < |g.members| && g.members[i].id == id {
      assert members[id] in g.members;
    }
  }

  // ---------- the verdict ----------

  ghost predicate Reported(groups: seq<CloneGroup>, h: string) {
    exists i :: 0 <= i < |groups| && groups[i].contentHash == h
  }

  /** The groups reported are the new clones among the hashes in `seen`, each once and in full. */
  ghost predicate GroupsRight(base: Base, touched: set<string>, files: seq<OverlayFile>, seen: set<string>,
                              groups: seq<CloneGroup>) {
    && (forall i, j :: 0 <= i < j < |groups| ==> groups[i].contentHash != groups[j].contentHash)
    && (forall h :: Reported(groups, h) <==> h in seen && NewClone(base, touched, files, h))
    && (forall i :: 0 <= i < |groups| ==> GoodGroup(base, touched, files, groups[i]))
  }

  /** The gate's promise, over every content hash there is. */
  ghost predicate Right(base: Base, touched: set<string>, files: seq<OverlayFile>, v: CloneVerdict) {
    && v.checked
    && (v.pass <==> forall h :: !NewClone(base, touched, files, h))
    && (forall i, j :: 0 <= i < j < |v.newClones| ==> v.newClones[i].contentHash != v.newClones[j].contentHash)
    && (forall h :: Reported(v.newClones, h) <==> NewClone(base, touched, files, h))
    && (forall i :: 0 <= i < |v.newClones| ==> GoodGroup(base, touched, files, v.newClones[i]))
  }

  lemma GroupsExtend(base: Base, touched: set<string>, files: seq<OverlayFile>, seen: set<string>,
                     groups: seq<CloneGroup>, h: string, g: CloneGroup)
    requires GroupsRight(base, touched, files, seen, groups) && h !in seen
    ensures !NewClone(base, touched, files, h) ==> GroupsRight(base, touched, files, seen + {h}, groups)
    ensures NewClone(base, touched, files, h) && g.contentHash == h && GoodGroup(base, touched, files, g) ==>
              GroupsRight(base, touched, files, seen + {h}, groups + [g])
  {
    hide NewClone, GoodGroup;
    if NewClone(base, touched, files, h) && g.contentHash == h && GoodGroup(base, touched, files, g) {
      var all := groups + [g];
      assert !Reported(groups, h);
      assert all[|groups|].contentHash == h;
      forall k ensures Reported(all, k) <==> Reported(groups, k) || k == h {
        if Reported(groups, k) {
          var i :| 0 <= i < |groups| && groups[i].contentHash == k;
          assert all[i].contentHash == k;
        }
      }
    }
  }

  lemma NewCloneGrouped(base: Base, touched: set<string>, files: seq<OverlayFile>, byHash: map<string,
                        seq<CloneMember>>, h: string)
    requires GroupedUpTo(files, [], byHash) && NewClone(base, touched, files, h)
    ensures h in byHash
  {
    NewCloneInOverlay(base, touched, files, h);
    hide NewClone;
    var f, n :| f in files && n in f.nodes && OverlayHolds(n, h);
    assert InOverlay(files, n);
  }

  lemma VerdictRight(base: Base, touched: set<string>, files: seq<OverlayFile>, byHash: map<string, seq<CloneMember>>,
                     groups: seq<CloneGroup>)
    requires GroupedUpTo(files, [], byHash)
    requires GroupsRight(base, touched, files, byHash.Keys, groups)
    ensures Right(base, touched, files, CloneVerdict(groups == [], true, groups))
  {
    hide GoodGroup, NewClone, GroupedUpTo;
    forall h | NewClone(base, touched, files, h) ensures h in byHash {
      NewCloneGrouped(base, touched, files, byHash, h);
    }
    if groups != [] {
      assert Reported(groups, groups[0].contentHash);
    }
  }

  method Evaluate(base: Option<Base>, changedFiles: seq<string>, files: seq<OverlayFile>) returns (v: CloneVerdict)
    ensures base.None? ==> v == CloneVerdict(false, false, [])
    ensures base.Some? ==> Right(base.value, (set f | f in changedFiles), files, v)
  {
    hide GroupsRight, GroupedUpTo, GoodGroup, Right, Merged, Shows, BaseIds, AfterIds, RowsOf;
    if base.None? {
      return CloneVerdict(false, false, []);
    }
    var touched := set f | f in changedFiles;
    var byHash := GroupOverlay(files);
    var groups: seq<CloneGroup> := [];
    var left := byHash.Keys;
    NoGroups(base.value, touched, files);
    assert byHash.Keys - left == {};
    while left != {}
      invariant left <= byHash.Keys
      invariant GroupsRight(base.value, touched, files, byHash.Keys - left, groups)
    {
      var h :| h in left;
      var baseNodes := NodesByContentHash(base.value, h);
      var baseCount := |baseNodes|;
      var members := MergeMembers(byHash[h], baseNodes, touched);
      MergedIsAfter(base.value, touched, files, byHash, h, baseNodes, members);
      MergedKeys(byHash[h], baseNodes, touched, members);
      var listed := ListMembers(members);
      var g := CloneGroup(h, listed);
      GroupIsGood(base.value, touched, files, members, g);
      GroupsExtend(base.value, touched, files, byHash.Keys - left, groups, h, g);
      assert byHash.Keys - (left - {h}) == byHash.Keys - left + {h};
      assert |members| == |members.Keys|;
      if |members| >= 2 && baseCount < 2 {
        groups := groups + [g];
      }
      left := left - {h};
    }
    assert byHash.Keys - left == byHash.Keys;
    VerdictRight(base.value, touched, files, byHash, groups);
    return CloneVerdict(groups == [], true, groups);
  }

  lemma NoGroups(base: Base, touched: set<string>, files: seq<OverlayFile>)
    ensures GroupsRight(base, touched, files, {}, [])
  {}

  lemma MergedKeys(overlay: seq<CloneMember>, rows: seq<NodeRef>, touched: set<string>, members: map<NodeId,
                   CloneMember>)
    requires Merged(overlay, rows, touched, members)
    ensures forall id :: id in members ==> members[id].id == id
  {}

  // ---------- what the rule lets through ----------

  /** A change that leaves no hash with more holders than it had cannot fail the gate. */
  lemma NoGrowthPasses(base: Base, touched: set<string>, files: seq<OverlayFile>, v: CloneVerdict)
    requires Right(base, touched, files, v)
    requires forall h :: |AfterIds(base, touched, files, h)| <= |BaseIds(base, h)|
    ensures v.pass
  {}

  /**
   * Every overlay holder of `h` is the new home of a base node that held `h` in
   * a touched file (itself, when it did not move), no two sharing one.
   */
  ghost predicate OnlyMoves(base: Base, touched: set<string>, files: seq<OverlayFile>, moved: map<NodeId, NodeId>,
                            h: string) {
    && (forall a, b :: a in moved && b in moved && moved[a] == moved[b] ==> a == b)
    && (forall id :: id in OverlayIds(files, h) ==>
          id in moved && moved[id] in BaseIds(base, h) && moved[id] !in BaseIds(Standing(base, touched), h))
  }

  lemma MovesAreNotNew(base: Base, touched: set<string>, files: seq<OverlayFile>, moved: map<NodeId, NodeId>, h: string)
    requires OnlyMoves(base, touched, files, moved, h)
    ensures |AfterIds(base, touched, files, h)| <= |BaseIds(base, h)|
  {
    StandingSubset(base, touched, h);
    hide OverlayIds, BaseIds, Standing;
    var standing := BaseIds(Standing(base, touched), h);
    InjectionSize(OverlayIds(files, h), moved, BaseIds(base, h) - standing);
    assert BaseIds(base, h) == standing + (BaseIds(base, h) - standing);
    UnionSize(OverlayIds(files, h), standing);
  }

  /** Moving members between files, or adding copies to a group that had two already, passes. */
  lemma MovesAndThirdCopiesPass(base: Base, touched: set<string>, files: seq<OverlayFile>, moved: map<NodeId, NodeId>,
                                v: CloneVerdict)
    requires Right(base, touched, files, v)
    requires forall h :: |BaseIds(base, h)| >= 2 || OnlyMoves(base, touched, files, moved, h)
    ensures v.pass
  {
    hide OnlyMoves, BaseIds, AfterIds;
    forall h ensures !NewClone(base, touched, files, h) {
      if |BaseIds(base, h)| < 2 {
        MovesAreNotNew(base, touched, files, moved, h);
      }
    }
  }

  lemma UnionSize<T>(a: set<T>, b: set<T>)
    ensures |a + b| <= |a| + |b|
  {
    assert a + b == a + (b - a);
    SubsetSize(b - a, b);
  }

  lemma {:induction false} InjectionSize(a: set<NodeId>, f: map<NodeId, NodeId>, b: set<NodeId>)
    requires forall x :: x in a ==> x in f && f[x] in b
    requires forall x, y :: x in f && y in f && f[x] == f[y] ==> x == y
    ensures |a| <= |b|
  {
    if a != {} {
      var x :| x in a;
      InjectionSize(a - {x}, f, b - {f[x]});
    }
  }
}
