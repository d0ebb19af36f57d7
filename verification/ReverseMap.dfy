/** From changed nodes back to the tests that reach them (internal/application/coverage/reversemap.go). */
module ReverseMap {
  import opened Basics
  import opened Graph

  datatype Info = Info(kind: string, name: string, path: string)

  /** The reader's answers: who calls a node, and the stored row of each caller. */
  datatype Inbound = Inbound(callers: map<NodeId, seq<NodeId>>, info: NodeId -> Info)

  datatype TestRef = TestRef(id: NodeId, name: string, path: string)

  const DEFAULT_MAX_NODES: nat := 5000

  /** The cap a ReverseMap is built with: a non-positive option leaves the default. */
  function MaxNodes(option: int): (r: nat)
    ensures option > 0 ==> r == option
    ensures option <= 0 ==> r == 5000
  {
    if option > 0 then option else DEFAULT_MAX_NODES
  }

  // ---------- test entrypoints ----------

  const TEST_PREFIXES: seq<string> := ["Test", "Benchmark", "Fuzz", "Example"]

  predicate HasSuffix(s: string, t: string) { |t| <= |s| && s[|s| - |t|..] == t }

  /** The part of a path after its last slash or backslash. */
  function BaseName(path: string): (r: string)
    ensures HasSuffix(path, r) && '/' !in r && '\\' !in r
    ensures |r| < |path| ==> path[|path| - |r| - 1] in ['/', '\\']
  {
    if path == "" then ""
    else if path[|path| - 1] in ['/', '\\'] then ""
    else BaseName(path[..|path| - 1]) + [path[|path| - 1]]
  }

  predicate IsTestFile(path: string) {
    var base := BaseName(path);
    path != "" &&
    (|| HasSuffix(base, "_test.go")
     || ("test_" <= base && HasSuffix(base, ".py"))
     || HasSuffix(base, "_test.py")
     || HasSuffix(base, ".test.ts") || HasSuffix(base, ".test.tsx")
     || HasSuffix(base, ".test.js") || HasSuffix(base, ".test.jsx")
     || HasSuffix(base, ".spec.ts") || HasSuffix(base, ".spec.tsx")
     || HasSuffix(base, ".spec.js") || HasSuffix(base, ".spec.jsx"))
  }

  /** `base` is what follows the last separator of `path`, or all of it if there is none. */
  ghost predicate LastPart(path: string, base: string) {
    && HasSuffix(path, base) && NoSeparator(base)
    && (|base| < |path| ==> path[|path| - |base| - 1] in ['/', '\\'])
  }

  lemma SuffixChars(s: string, t: string)
    requires HasSuffix(s, t)
    ensures forall i :: 0 <= i < |t| ==> t[i] == s[|s| - |t| + i]
  {
  }

  ghost predicate NoSeparator(t: string) {
    forall i :: 0 <= i < |t| ==> t[i] != '/' && t[i] != '\\'
  }

  /** A separator-free ending of the path is no longer than its last part. */
  lemma EndsInside(path: string, base: string, t: string)
    requires LastPart(path, base) && NoSeparator(t) && HasSuffix(path, t)
    ensures |t| <= |base|
  {
    SuffixChars(path, t);
  }

  /** So an ending of the last part is the same as an ending of the whole path. */
  lemma SuffixOfBase(path: string, base: string, t: string)
    requires LastPart(path, base) && NoSeparator(t)
    ensures HasSuffix(base, t) <==> HasSuffix(path, t)
  {
    if HasSuffix(path, t) {
      EndsInside(path, base, t);
    }
    if |t| <= |base| {
      assert base[|base| - |t|..] == path[|path| - |t|..];
    }
  }

  /** The last part of a path is one string, and `BaseName` finds it. */
  lemma OneLastPart(path: string, base: string)
    requires LastPart(path, base)
    ensures base == BaseName(path)
  {
    var b := BaseName(path);
    EndsInside(path, base, b);
    EndsInside(path, b, base);
  }

  /** A test file by the look of its whole path, except that pytest's `test_` must start its last part. */
  ghost predicate LooksLikeTest(path: string, base: string) {
    || HasSuffix(path, "_test.go") || HasSuffix(path, "_test.py")
    || ("test_" <= base && HasSuffix(path, ".py"))
    || HasSuffix(path, ".test.ts") || HasSuffix(path, ".test.tsx")
    || HasSuffix(path, ".test.js") || HasSuffix(path, ".test.jsx")
    || HasSuffix(path, ".spec.ts") || HasSuffix(path, ".spec.tsx")
    || HasSuffix(path, ".spec.js") || HasSuffix(path, ".spec.jsx")
  }

  lemma TestFileRule(path: string, base: string)
    requires LastPart(path, base)
    ensures IsTestFile(path) <==> LooksLikeTest(path, base)
  {
    hide HasSuffix, LastPart, BaseName;
    OneLastPart(path, base);
    SuffixOfBase(path, base, "_test.go");
    SuffixOfBase(path, base, "_test.py");
    SuffixOfBase(path, base, ".py");
    SuffixOfBase(path, base, ".test.ts");
    SuffixOfBase(path, base, ".test.tsx");
    SuffixOfBase(path, base, ".test.js");
    SuffixOfBase(path, base, ".test.jsx");
    SuffixOfBase(path, base, ".spec.ts");
    SuffixOfBase(path, base, ".spec.tsx");
    SuffixOfBase(path, base, ".spec.js");
    SuffixOfBase(path, base, ".spec.jsx");
    EmptyPath(path, base);
  }

  lemma EmptyPath(path: string, base: string)
    ensures path == "" ==> !LooksLikeTest(path, base)
  {
  }

  predicate IsGoTestNameFrom(name: string, i: nat)
    requires i <= |TEST_PREFIXES|
    decreases |TEST_PREFIXES| - i
  {
    if i == |TEST_PREFIXES| then false
    else
      var prefix := TEST_PREFIXES[i];
      if !(prefix <= name) then IsGoTestNameFrom(name, i + 1)
      else
        var rest := name[|prefix|..];
        rest == "" || !('a' <= rest[0] <= 'z')
  }

  predicate IsGoTestName(name: string) { IsGoTestNameFrom(name, 0) }

  predicate IsTestEntrypoint(ref: Info) {
    ref.kind == "function" && IsTestFile(ref.path) && IsGoTestName(ref.name)
  }

  predicate NameFits(name: string, prefix: string) {
    prefix <= name && (|name| == |prefix| || !('a' <= name[|prefix|] <= 'z'))
  }

  lemma {:induction false} NameRuleFrom(name: string, i: nat)
    requires i <= |TEST_PREFIXES|
    ensures IsGoTestNameFrom(name, i) <==> exists j :: i <= j < |TEST_PREFIXES| && NameFits(name, TEST_PREFIXES[j])
    decreases |TEST_PREFIXES| - i
  {
    if i < |TEST_PREFIXES| {
      NameRuleFrom(name, i + 1);
      if TEST_PREFIXES[i] <= name {
        assert name[|TEST_PREFIXES[i]|..] == "" <==> |name| == |TEST_PREFIXES[i]|;
        forall j | i < j < |TEST_PREFIXES| ensures !(TEST_PREFIXES[j] <= name) {
          assert TEST_PREFIXES[i][0] != TEST_PREFIXES[j][0];
        }
      }
    }
  }

  /** Stopping at the first matching prefix loses nothing: the name fits some prefix, by go test's own rule. */
  lemma GoTestNameRule(name: string)
    ensures IsGoTestName(name) <==> exists i :: 0 <= i < |TEST_PREFIXES| && NameFits(name, TEST_PREFIXES[i])
  {
    NameRuleFrom(name, 0);
  }

  /** An entrypoint is a function in a test file whose name go test would run. */
  lemma EntrypointRule(ref: Info, base: string)
    requires LastPart(ref.path, base)
    ensures IsTestEntrypoint(ref) <==>
        ref.kind == "function" && LooksLikeTest(ref.path, base) &&
        (NameFits(ref.name, "Test") || NameFits(ref.name, "Benchmark") || NameFits(ref.name, "Fuzz") ||
         NameFits(ref.name, "Example"))
  {
    hide LooksLikeTest, IsTestFile, IsGoTestName, NameFits, LastPart;
    TestFileRule(ref.path, base);
    GoTestNameRule(ref.name);
    assert TEST_PREFIXES[0] == "Test" && TEST_PREFIXES[1] == "Benchmark" && TEST_PREFIXES[2] == "Fuzz" &&
        TEST_PREFIXES[3] == "Example" && |TEST_PREFIXES| == 4;
  }

  // ---------- what it means to cover ----------

  function Callers(inb: Inbound, x: NodeId): seq<NodeId> {
    if x in inb.callers then inb.callers[x] else []
  }

  ghost predicate Calls(inb: Inbound, c: NodeId, x: NodeId) {
    c != EMPTY_ID && x in inb.callers && c in inb.callers[x]
  }

  /** A test that is not itself one of the nodes asked about. */
  predicate OtherTest(inb: Inbound, seeds: set<NodeId>, x: NodeId) {
    x !in seeds && IsTestEntrypoint(inb.info(x))
  }

  /** A call path, listed from a seed back to the test, with no other test inside it. */
  ghost predicate CallPath(inb: Inbound, seeds: set<NodeId>, p: seq<NodeId>) {
    && |p| > 1
    && p[0] in seeds
    && (forall i :: 0 < i < |p| ==> Calls(inb, p[i], p[i - 1]))
    && (forall i :: 0 < i < |p| - 1 ==> !OtherTest(inb, seeds, p[i]))
    && OtherTest(inb, seeds, p[|p| - 1])
  }

  ghost predicate Covers(inb: Inbound, seeds: set<NodeId>, t: NodeId) {
    exists p :: CallPath(inb, seeds, p) && p[|p| - 1] == t
  }

  // ---------- the same as reachability over the steps the walk may take ----------

  ghost function Steps(inb: Inbound, seeds: set<NodeId>): Relation {
    iset e: Edge | !OtherTest(inb, seeds, e.src) && Calls(inb, e.dst, e.src)
  }

  ghost predicate Reached(inb: Inbound, seeds: set<NodeId>, x: NodeId) {
    exists s :: s in seeds && Reach(Steps(inb, seeds), s, x)
  }

  ghost predicate Linked(r: Relation, q: seq<NodeId>) {
    forall i :: 0 < i < |q| ==> Edge(q[i - 1], q[i]) in r
  }

  lemma {:induction false} WalkIsLinked(r: Relation, q: seq<NodeId>)
    requires q != []
    ensures Walk(r, q[0], q[1..], q[|q| - 1]) <==> Linked(r, q)
    decreases |q|
  {
    if |q| > 1 {
      WalkIsLinked(r, q[1..]);
      if Linked(r, q[1..]) && Edge(q[0], q[1]) in r {
        forall i | 0 < i < |q| ensures Edge(q[i - 1], q[i]) in r {
          if i > 1 { assert Edge(q[1..][i - 1 - 1], q[1..][i - 1]) in r; }
        }
      }
    }
  }

  lemma PathIsLinked(inb: Inbound, seeds: set<NodeId>, p: seq<NodeId>)
    requires CallPath(inb, seeds, p)
    ensures |p| > 1 && p[0] in seeds && OtherTest(inb, seeds, p[|p| - 1]) && Linked(Steps(inb, seeds), p)
  {
    hide IsTestEntrypoint;
    forall i | 0 < i < |p| ensures Edge(p[i - 1], p[i]) in Steps(inb, seeds) {
      assert !OtherTest(inb, seeds, p[i - 1]);
    }
  }

  lemma PathReaches(inb: Inbound, seeds: set<NodeId>, p: seq<NodeId>)
    requires CallPath(inb, seeds, p)
    ensures Reached(inb, seeds, p[|p| - 1])
  {
    var r := Steps(inb, seeds);
    PathIsLinked(inb, seeds, p);
    hide OtherTest, Steps, Calls, Reach;
    WalkIsLinked(r, p);
    ReachIsWalk(r, p[0], p[|p| - 1]);
  }

  lemma LinkedIsPath(inb: Inbound, seeds: set<NodeId>, p: seq<NodeId>)
    requires Linked(Steps(inb, seeds), p) && p != [] && p[0] in seeds && OtherTest(inb, seeds, p[|p| - 1])
    ensures CallPath(inb, seeds, p)
  {
    hide IsTestEntrypoint, Calls;
    forall i | 0 < i < |p| - 1 ensures !OtherTest(inb, seeds, p[i]) {
      assert Edge(p[i + 1 - 1], p[i + 1]) in Steps(inb, seeds);
    }
  }

  lemma ReachedByPath(inb: Inbound, seeds: set<NodeId>, t: NodeId)
    requires Reached(inb, seeds, t) && OtherTest(inb, seeds, t)
    ensures Covers(inb, seeds, t)
  {
    hide IsTestEntrypoint, OtherTest, Calls, Linked, CallPath;
    var r := Steps(inb, seeds);
    var s :| s in seeds && Reach(r, s, t);
    ReachIsWalk(r, s, t);
    var q :| Walk(r, s, q, t);
    var p := [s] + q;
    assert p[1..] == q;
    WalkEnd(r, s, q, t);
    WalkIsLinked(r, p);
    LinkedIsPath(inb, seeds, p);
  }

  lemma {:induction false} WalkEnd(r: Relation, x: NodeId, q: seq<NodeId>, y: NodeId)
    requires Walk(r, x, q, y)
    ensures ([x] + q)[|q|] == y
    decreases |q|
  {
    if q != [] {
      WalkEnd(r, q[0], q[1..], y);
    }
  }

  lemma CoversIsReached(inb: Inbound, seeds: set<NodeId>, t: NodeId)
    ensures Covers(inb, seeds, t) <==> Reached(inb, seeds, t) && OtherTest(inb, seeds, t)
  {
    if Covers(inb, seeds, t) {
      var p :| CallPath(inb, seeds, p) && p[|p| - 1] == t;
      PathReaches(inb, seeds, p);
    }
    if Reached(inb, seeds, t) && OtherTest(inb, seeds, t) {
      ReachedByPath(inb, seeds, t);
    }
  }

  // ---------- the same, level by level ----------

  /** The nodes within l calls of a seed, counting no call of a test other than a seed. */
  ghost function Level(inb: Inbound, seeds: set<NodeId>, l: nat): set<NodeId> {
    if l == 0 then seeds
    else
      var near := Level(inb, seeds, l - 1);
      near + set x, c | x in near && !OtherTest(inb, seeds, x) && x in inb.callers && c in inb.callers[x] &&
        c != EMPTY_ID :: c
  }

  lemma LevelStep(inb: Inbound, seeds: set<NodeId>, l: nat, c: NodeId)
    ensures c in Level(inb, seeds, l + 1) <==> c in Level(inb, seeds, l) || CalledWithin(inb, seeds, l, c)
  {
    hide OtherTest;
  }

  ghost predicate CalledWithin(inb: Inbound, seeds: set<NodeId>, l: nat, c: NodeId) {
    exists x :: x in Level(inb, seeds, l) && Edge(x, c) in Steps(inb, seeds)
  }

  lemma {:induction false} LevelMono(inb: Inbound, seeds: set<NodeId>, l: nat, m: nat)
    requires l <= m
    ensures Level(inb, seeds, l) <= Level(inb, seeds, m)
    decreases m
  {
    if l < m {
      LevelMono(inb, seeds, l, m - 1);
    }
  }

  ghost predicate LinkedTo(r: Relation, seeds: set<NodeId>, p: seq<NodeId>, l: nat, x: NodeId) {
    0 < |p| <= l + 1 && Linked(r, p) && p[0] in seeds && p[|p| - 1] == x
  }

  lemma {:induction false} LevelIsLinked(inb: Inbound, seeds: set<NodeId>, l: nat, x: NodeId)
    ensures x in Level(inb, seeds, l) <==> exists p :: LinkedTo(Steps(inb, seeds), seeds, p, l, x)
  {
    hide Steps, Level;
    var r := Steps(inb, seeds);
    if l == 0 {
      LevelZero(inb, seeds);
      assert x in seeds ==> LinkedTo(r, seeds, [x], 0, x);
    } else {
      LevelStep(inb, seeds, l - 1, x);
      if x in Level(inb, seeds, l - 1) {
        LevelIsLinked(inb, seeds, l - 1, x);
        var p :| LinkedTo(r, seeds, p, l - 1, x);
        assert LinkedTo(r, seeds, p, l, x);
      } else if CalledWithin(inb, seeds, l - 1, x) {
        var y :| y in Level(inb, seeds, l - 1) && Edge(y, x) in r;
        LevelIsLinked(inb, seeds, l - 1, y);
        var p :| LinkedTo(r, seeds, p, l - 1, y);
        assert LinkedTo(r, seeds, p + [x], l, x);
      }
      if p :| LinkedTo(r, seeds, p, l, x) {
        LinkedInLevel(inb, seeds, p, l, x);
      }
    }
  }

  lemma LevelZero(inb: Inbound, seeds: set<NodeId>)
    ensures Level(inb, seeds, 0) == seeds
  {
  }

  lemma {:induction false} LinkedInLevel(inb: Inbound, seeds: set<NodeId>, p: seq<NodeId>, l: nat, x: NodeId)
    requires LinkedTo(Steps(inb, seeds), seeds, p, l, x)
    ensures x in Level(inb, seeds, l)
    decreases |p|
  {
    hide Steps, Level;
    if |p| == 1 {
      LevelZero(inb, seeds);
      LevelMono(inb, seeds, 0, l);
    } else {
      var q := p[..|p| - 1];
      var y := q[|q| - 1];
      assert Edge(p[|p| - 1 - 1], p[|p| - 1]) in Steps(inb, seeds);
      assert LinkedTo(Steps(inb, seeds), seeds, q, l - 1, y);
      LinkedInLevel(inb, seeds, q, l - 1, y);
      assert CalledWithin(inb, seeds, l - 1, x);
      LevelStep(inb, seeds, l - 1, x);
    }
  }

  ghost predicate CoversWithin(inb: Inbound, seeds: set<NodeId>, t: NodeId, l: nat) {
    exists p :: |p| > 0 && CallPath(inb, seeds, p) && p[|p| - 1] == t && |p| <= l + 1
  }

  /** The tests of level l are those with a call path of at most l calls to a seed. */
  lemma LevelCovers(inb: Inbound, seeds: set<NodeId>, l: nat, t: NodeId)
    ensures CoversWithin(inb, seeds, t, l) <==> t in Level(inb, seeds, l) && OtherTest(inb, seeds, t)
  {
    hide OtherTest, Steps, Level, Linked, CallPath;
    LevelIsLinked(inb, seeds, l, t);
    if CoversWithin(inb, seeds, t, l) {
      var p :| |p| > 0 && CallPath(inb, seeds, p) && p[|p| - 1] == t && |p| <= l + 1;
      PathIsLinked(inb, seeds, p);
      assert LinkedTo(Steps(inb, seeds), seeds, p, l, t);
    } else if t in Level(inb, seeds, l) && OtherTest(inb, seeds, t) {
      var p :| LinkedTo(Steps(inb, seeds), seeds, p, l, t);
      LinkedIsPath(inb, seeds, p);
    }
  }

  // ---------- asking about several nodes at once ----------

  ghost predicate ReachedFrom(inb: Inbound, s: NodeId, x: NodeId) { Reached(inb, {s}, x) }

  ghost predicate ReachedFromSome(inb: Inbound, seeds: set<NodeId>, x: NodeId) {
    exists s :: s in seeds && ReachedFrom(inb, s, x)
  }

  /** A step of the shared walk is a step of some single-seed walk. */
  lemma StepFromOne(inb: Inbound, seeds: set<NodeId>, from: NodeId, e: Edge) returns (from': NodeId)
    requires from in seeds && ReachedFrom(inb, from, e.src) && e in Steps(inb, seeds)
    ensures from' in seeds && ReachedFrom(inb, from', e.dst)
  {
    hide IsTestEntrypoint, Calls;
    from' := if e.src in seeds then e.src else from;
    var r := Steps(inb, {from'});
    assert Reach(r, from', e.src);
    assert e in r && e == Edge(e.src, e.dst);
    ReachEdge(r, e.src, e.dst);
    ReachTrans(r, from', e.src, e.dst);
  }

  lemma ReachedFromOne(inb: Inbound, seeds: set<NodeId>, t: NodeId)
    requires Reached(inb, seeds, t)
    ensures ReachedFromSome(inb, seeds, t)
  {
    var r := Steps(inb, seeds);
    var s :| s in seeds && Reach(r, s, t);
    var all := iset x | ReachedFromSome(inb, seeds, x);
    assert s in all by {
      assert Reach(Steps(inb, {s}), s, s);
      assert ReachedFrom(inb, s, s);
    }
    hide ReachedFrom, Steps;
    forall e | e in r && e.src in all ensures e.dst in all {
      var from :| from in seeds && ReachedFrom(inb, from, e.src);
      var from' := StepFromOne(inb, seeds, from, e);
    }
    assert Closed(r, all);
  }

  lemma ReachedFromMore(inb: Inbound, seeds: set<NodeId>, s: NodeId, t: NodeId)
    requires s in seeds && Reached(inb, {s}, t)
    ensures Reached(inb, seeds, t)
  {
    hide IsTestEntrypoint, Calls, Reach;
    ReachMono(Steps(inb, {s}), Steps(inb, seeds), s, t);
  }

  /** One walk for all seeds finds what the single walks find, less the seeds themselves. */
  lemma ManySeeds(inb: Inbound, seeds: set<NodeId>, t: NodeId)
    ensures Covers(inb, seeds, t) <==> t !in seeds && exists s :: s in seeds && Covers(inb, {s}, t)
  {
    CoversIsReached(inb, seeds, t);
    if Covers(inb, seeds, t) {
      ReachedFromOne(inb, seeds, t);
      var s :| s in seeds && ReachedFrom(inb, s, t);
      CoversIsReached(inb, {s}, t);
    }
    if s :| s in seeds && Covers(inb, {s}, t) {
      CoversIsReached(inb, {s}, t);
      ReachedFromMore(inb, seeds, s, t);
    }
  }

  /** The multi-seed answer is the union of the single ones exactly when no seed is a test covering another seed. */
  lemma UnionLaw(inb: Inbound, seeds: set<NodeId>)
    ensures (forall t :: Covers(inb, seeds, t) <==> exists s :: s in seeds && Covers(inb, {s}, t))
       <==> (forall s, t :: s in seeds && t in seeds ==> !Covers(inb, {s}, t))
    ensures (forall s :: s in seeds ==> !IsTestEntrypoint(inb.info(s)))
        ==> (forall t :: Covers(inb, seeds, t) <==> exists s :: s in seeds && Covers(inb, {s}, t))
  {
    forall t ensures Covers(inb, seeds, t) <==> t !in seeds && exists s :: s in seeds && Covers(inb, {s}, t) {
      ManySeeds(inb, seeds, t);
    }
    forall s, t | Covers(inb, {s}, t) ensures IsTestEntrypoint(inb.info(t)) {
      CoversIsReached(inb, {s}, t);
    }
  }

  /** Two seeds, one a test that calls the other: its single answer lists the test, the shared one does not. */
  lemma UnionFails(info: NodeId -> Info, node: NodeId, test: NodeId)
    requires node != test && test != EMPTY_ID && IsTestEntrypoint(info(test))
    ensures var inb := Inbound(map[node := [test]], info);
            Covers(inb, {node}, test) && !Covers(inb, {node, test}, test)
  {
    var inb := Inbound(map[node := [test]], info);
    assert CallPath(inb, {node}, [node, test]);
  }

  // ---------- the walk ----------

  ghost predicate AllCallersIn(inb: Inbound, x: NodeId, visited: set<NodeId>) {
    forall c :: Calls(inb, c, x) ==> c in visited
  }

  ghost predicate Pending(a: seq<NodeId>, b: seq<NodeId>, x: NodeId) { x in a || x in b }

  /** The nodes seen: reached, and either a test, or waiting, or with all its callers seen. */
  ghost predicate Sound(inb: Inbound, seeds: set<NodeId>, visited: set<NodeId>, todo: seq<NodeId>, next: seq<NodeId>) {
    && seeds <= visited
    && (forall x :: x in visited ==> Reached(inb, seeds, x))
    && (forall x :: Pending(todo, next, x) ==> x in visited && !OtherTest(inb, seeds, x))
    && (forall x :: x in visited && !OtherTest(inb, seeds, x) && !Pending(todo, next, x) ==>
        AllCallersIn(inb, x, visited))
  }

  /** The tests listed: each test seen that is not a seed, once, with its stored name and file. */
  ghost predicate Listed(inb: Inbound, seeds: set<NodeId>, visited: set<NodeId>, tests: seq<TestRef>) {
    && (forall i, j :: 0 <= i < j < |tests| ==> tests[i].id != tests[j].id)
    && (forall r :: r in tests <==>
          r.id in visited && OtherTest(inb, seeds, r.id) && r.name == inb.info(r.id).name &&
              r.path == inb.info(r.id).path)
  }

  function RefOf(inb: Inbound, id: NodeId): TestRef { TestRef(id, inb.info(id).name, inb.info(id).path) }

  lemma ReachedCaller(inb: Inbound, seeds: set<NodeId>, x: NodeId, c: NodeId)
    requires Reached(inb, seeds, x) && !OtherTest(inb, seeds, x) && Calls(inb, c, x)
    ensures Reached(inb, seeds, c)
  {
    hide OtherTest, Calls;
    var r := Steps(inb, seeds);
    var s :| s in seeds && Reach(r, s, x);
    assert Edge(x, c) in r;
    ReachEdge(r, x, c);
    ReachTrans(r, s, x, c);
  }

  lemma SeenAnother(inb: Inbound, seeds: set<NodeId>, visited: set<NodeId>, todo: seq<NodeId>, next: seq<NodeId>,
                    x: NodeId, c: NodeId)
    requires Sound(inb, seeds, visited, todo, next)
    requires x in todo && Calls(inb, c, x) && c !in visited
    ensures Sound(inb, seeds, visited + {c}, todo, if OtherTest(inb, seeds, c) then next else next + [c])
  {
    hide OtherTest, Calls, Reached;
    assert Pending(todo, next, x);
    ReachedCaller(inb, seeds, x, c);
    var next' := if OtherTest(inb, seeds, c) then next else next + [c];
    assert forall y :: Pending(todo, next', y) <==> Pending(todo, next, y) || (y == c && !OtherTest(inb, seeds, c));
  }

  lemma ListedAnother(inb: Inbound, seeds: set<NodeId>, visited: set<NodeId>, tests: seq<TestRef>, c: NodeId)
    requires Listed(inb, seeds, visited, tests) && c !in visited
    ensures Listed(inb, seeds, visited + {c}, if OtherTest(inb, seeds, c) then tests + [RefOf(inb, c)] else tests)
  {
    hide OtherTest;
  }

  /** A node whose callers have all been looked at leaves the list of nodes to do. */
  lemma NodeDone(inb: Inbound, seeds: set<NodeId>, visited: set<NodeId>, todo: seq<NodeId>, next: seq<NodeId>)
    requires todo != [] && Sound(inb, seeds, visited, todo, next) && AllCallersIn(inb, todo[0], visited)
    ensures Sound(inb, seeds, visited, todo[1..], next)
  {
    hide OtherTest, Calls, Reached, AllCallersIn;
    forall x | Pending(todo, next, x) && !Pending(todo[1..], next, x) ensures x == todo[0] {
      assert todo == [todo[0]] + todo[1..];
    }
    forall x | Pending(todo[1..], next, x) ensures Pending(todo, next, x) {}
  }

  lemma LevelDone(inb: Inbound, seeds: set<NodeId>, visited: set<NodeId>, next: seq<NodeId>)
    requires Sound(inb, seeds, visited, [], next)
    ensures Sound(inb, seeds, visited, next, [])
  {
    hide OtherTest, AllCallersIn, Reached;
    assert forall x :: Pending([], next, x) <==> Pending(next, [], x);
  }

  lemma SeenAllCallers(inb: Inbound, seeds: set<NodeId>, visited: set<NodeId>, x: NodeId, c: NodeId)
    requires Sound(inb, seeds, visited, [], []) && x in visited && !OtherTest(inb, seeds, x) && Calls(inb, c, x)
    ensures c in visited
  {
    hide OtherTest, Calls, Reached;
    assert !Pending([], [], x);
    assert AllCallersIn(inb, x, visited);
  }

  /** With nothing left to do, everything reachable has been seen. */
  lemma NothingLeft(inb: Inbound, seeds: set<NodeId>, visited: set<NodeId>, x: NodeId)
    requires Sound(inb, seeds, visited, [], []) && Reached(inb, seeds, x)
    ensures x in visited
  {
    hide OtherTest, Calls, AllCallersIn;
    var r := Steps(inb, seeds);
    var s :| s in seeds && Reach(r, s, x);
    var all := iset y | y in visited;
    forall e | e in r && e.src in all ensures e.dst in all {
      SeenAllCallers(inb, seeds, visited, e.src, e.dst);
    }
    assert Closed(r, all);
    assert s in all;
    assert x in all;
  }

  /** Every listed test covers a seed, and is shown with its stored name and file, once. */
  ghost predicate Correct(inb: Inbound, seeds: set<NodeId>, tests: seq<TestRef>) {
    && (forall i, j :: 0 <= i < j < |tests| ==> tests[i].id != tests[j].id)
    && (forall i :: 0 <= i < |tests| ==> Covers(inb, seeds, tests[i].id) && tests[i] == RefOf(inb, tests[i].id))
  }

  ghost predicate Complete(inb: Inbound, seeds: set<NodeId>, tests: seq<TestRef>) {
    forall t :: Covers(inb, seeds, t) ==> RefOf(inb, t) in tests
  }

  lemma WalkCorrect(inb: Inbound, seeds: set<NodeId>, visited: set<NodeId>, todo: seq<NodeId>, tests: seq<TestRef>)
    requires Sound(inb, seeds, visited, todo, []) && Listed(inb, seeds, visited, tests)
    ensures Correct(inb, seeds, tests)
    ensures todo == [] ==> Complete(inb, seeds, tests)
  {
    hide OtherTest, AllCallersIn, Reached, Covers;
    forall i | 0 <= i < |tests| ensures Covers(inb, seeds, tests[i].id) && tests[i] == RefOf(inb, tests[i].id) {
      assert tests[i] in tests;
      CoversIsReached(inb, seeds, tests[i].id);
    }
    if todo == [] {
      forall t | Covers(inb, seeds, t) ensures RefOf(inb, t) in tests {
        CoversIsReached(inb, seeds, t);
        NothingLeft(inb, seeds, visited, t);
      }
    }
  }

  /** The non-empty ids asked about. */
  ghost function SeedSet(ids: seq<NodeId>): set<NodeId> { (set id | id in ids) - {EMPTY_ID} }

  method Seeds(ids: seq<NodeId>) returns (visited: set<NodeId>, frontier: seq<NodeId>)
    ensures visited == SeedSet(ids)
    ensures forall x :: x in frontier <==> x in visited
  {
    visited, frontier := {}, [];
    for i := 0 to |ids|
      invariant visited == SeedSet(ids[..i])
      invariant forall x :: x in frontier <==> x in visited
    {
      assert ids[..i + 1] == ids[..i] + [ids[i]];
      if ids[i] == EMPTY_ID { continue; }
      if ids[i] !in visited {
        visited, frontier := visited + {ids[i]}, frontier + [ids[i]];
      }
    }
    assert ids[..|ids|] == ids;
  }

  lemma SeedsSound(inb: Inbound, seeds: set<NodeId>, frontier: seq<NodeId>)
    requires forall x :: x in frontier <==> x in seeds
    ensures Sound(inb, seeds, seeds, frontier, []) && Listed(inb, seeds, seeds, [])
  {
    forall x | x in seeds ensures Reached(inb, seeds, x) {
      assert Reach(Steps(inb, seeds), x, x);
    }
  }

  /** Tests were listed after those there were, none of them seen before. */
  ghost predicate AddedTo(tests0: seq<TestRef>, tests: seq<TestRef>, visited0: set<NodeId>) {
    tests0 <= tests && forall i :: |tests0| <= i < |tests| ==> tests[i].id !in visited0
  }

  method VisitCallers(inb: Inbound, ghost seeds: set<NodeId>, ghost todo: seq<NodeId>, x: NodeId,
                      visited0: set<NodeId>, next0: seq<NodeId>, tests0: seq<TestRef>)
    returns (visited: set<NodeId>, next: seq<NodeId>, tests: seq<TestRef>)
    requires todo != [] && todo[0] == x
    requires Sound(inb, seeds, visited0, todo, next0) && Listed(inb, seeds, visited0, tests0)
    ensures Sound(inb, seeds, visited, todo[1..], next) && Listed(inb, seeds, visited, tests)
    ensures visited0 <= visited && |next| - |next0| <= |visited| - |visited0|
    ensures AllCallersIn(inb, x, visited) && forall c :: c in visited && c !in visited0 ==> Calls(inb, c, x)
    ensures AddedTo(tests0, tests, visited0)
  {
    hide Sound, Listed, OtherTest;
    visited, next, tests := visited0, next0, tests0;
    var cs := Callers(inb, x);
    for i := 0 to |cs|
      invariant Sound(inb, seeds, visited, todo, next) && Listed(inb, seeds, visited, tests)
      invariant visited0 <= visited && |next| - |next0| <= |visited| - |visited0|
      invariant AddedTo(tests0, tests, visited0) && forall c :: c in visited && c !in visited0 ==> Calls(inb, c, x)
      invariant forall j :: 0 <= j < i && cs[j] != EMPTY_ID ==> cs[j] in visited
    {
      var c := cs[i];
      if c == EMPTY_ID { continue; }
      if c in visited { continue; }
      SeenAnother(inb, seeds, visited, todo, next, x, c);
      ListedAnother(inb, seeds, visited, tests, c);
      NotASeed(inb, seeds, visited, todo, next, c);
      visited := visited + {c};
      if IsTestEntrypoint(inb.info(c)) { // seen for the first time, so not listed yet
        tests := tests + [RefOf(inb, c)];
        continue;
      }
      next := next + [c];
    }
    assert AllCallersIn(inb, x, visited);
    NodeDone(inb, seeds, visited, todo, next);
  }

  lemma NotASeed(inb: Inbound, seeds: set<NodeId>, visited: set<NodeId>, todo: seq<NodeId>, next: seq<NodeId>,
                 c: NodeId)
    requires Sound(inb, seeds, visited, todo, next) && c !in visited
    ensures OtherTest(inb, seeds, c) <==> IsTestEntrypoint(inb.info(c))
  {}

  ghost predicate CallsSome(inb: Inbound, c: NodeId, frontier: seq<NodeId>) {
    exists i :: 0 <= i < |frontier| && Calls(inb, c, frontier[i])
  }

  lemma CallersStay(inb: Inbound, x: NodeId, a: set<NodeId>, b: set<NodeId>)
    requires AllCallersIn(inb, x, a) && a <= b
    ensures AllCallersIn(inb, x, b)
  {
  }

  method VisitLevel(inb: Inbound, ghost seeds: set<NodeId>, frontier: seq<NodeId>, visited0: set<NodeId>,
                    tests0: seq<TestRef>)
    returns (visited: set<NodeId>, next: seq<NodeId>, tests: seq<TestRef>)
    requires Sound(inb, seeds, visited0, frontier, []) && Listed(inb, seeds, visited0, tests0)
    ensures Sound(inb, seeds, visited, next, []) && Listed(inb, seeds, visited, tests)
    ensures visited0 <= visited && |next| <= |visited| - |visited0|
    ensures forall x :: x in frontier ==> AllCallersIn(inb, x, visited)
    ensures forall c :: c in visited && c !in visited0 ==> CallsSome(inb, c, frontier)
    ensures AddedTo(tests0, tests, visited0)
  {
    hide Sound, Listed, OtherTest, Calls, AllCallersIn;
    visited, next, tests := visited0, [], tests0;
    assert frontier[0..] == frontier;
    for i := 0 to |frontier|
      invariant Sound(inb, seeds, visited, frontier[i..], next) && Listed(inb, seeds, visited, tests)
      invariant visited0 <= visited && |next| <= |visited| - |visited0|
      invariant forall j :: 0 <= j < i ==> AllCallersIn(inb, frontier[j], visited)
      invariant forall c :: c in visited && c !in visited0 ==> CallsSome(inb, c, frontier)
      invariant AddedTo(tests0, tests, visited0)
    {
      assert frontier[i..][1..] == frontier[i + 1..];
      ghost var before := visited;
      visited, next, tests := VisitCallers(inb, seeds, frontier[i..], frontier[i], visited, next, tests);
      forall j | 0 <= j < i ensures AllCallersIn(inb, frontier[j], visited) {
        CallersStay(inb, frontier[j], before, visited);
      }
      assert forall c :: Calls(inb, c, frontier[i]) ==> CallsSome(inb, c, frontier);
    }
    assert frontier[|frontier|..] == [];
    LevelDone(inb, seeds, visited, next);
  }

  /** Fewer than cap nodes can be reached at all. */
  ghost predicate SmallRegion(inb: Inbound, seeds: set<NodeId>, cap: nat) {
    exists region: set<NodeId> :: Contains(inb, seeds, region) && |region| < cap
  }

  ghost predicate Contains(inb: Inbound, seeds: set<NodeId>, region: set<NodeId>) {
    forall x :: Reached(inb, seeds, x) ==> x in region
  }

  lemma SmallRegionFits(inb: Inbound, seeds: set<NodeId>, visited: set<NodeId>, todo: seq<NodeId>, cap: nat)
    requires Sound(inb, seeds, visited, todo, []) && SmallRegion(inb, seeds, cap)
    ensures |visited| < cap
  {
    hide Reached;
    var region :| Contains(inb, seeds, region) && |region| < cap;
    assert visited <= region;
    SubsetSize(visited, region);
  }

  /** One pass over the frontier is one more level. */
  lemma NextLevel(inb: Inbound, seeds: set<NodeId>, l: nat, frontier: seq<NodeId>, visited: set<NodeId>)
    requires Sound(inb, seeds, Level(inb, seeds, l), frontier, []) && Level(inb, seeds, l) <= visited
    requires forall x :: x in frontier ==> AllCallersIn(inb, x, visited)
    requires forall c :: c in visited && c !in Level(inb, seeds, l) ==> CallsSome(inb, c, frontier)
    ensures visited == Level(inb, seeds, l + 1)
  {
    hide OtherTest, Calls, Reached, Level;
    var near := Level(inb, seeds, l);
    forall c ensures c in visited <==> c in Level(inb, seeds, l + 1) {
      LevelStep(inb, seeds, l, c);
      if c in visited && c !in near {
        var i :| 0 <= i < |frontier| && Calls(inb, c, frontier[i]);
        assert Pending(frontier, [], frontier[i]);
        assert Edge(frontier[i], c) in Steps(inb, seeds);
      } else if CalledWithin(inb, seeds, l, c) {
        var x :| x in near && Edge(x, c) in Steps(inb, seeds);
        assert Pending(frontier, [], x) <==> x in frontier;
      }
    }
  }

  lemma LastLevel(inb: Inbound, seeds: set<NodeId>, l: nat)
    requires Sound(inb, seeds, Level(inb, seeds, l), [], [])
    ensures Level(inb, seeds, l + 1) == Level(inb, seeds, l)
  {
    hide Sound, Level, AllCallersIn;
    NoneCalls(inb);
    NextLevel(inb, seeds, l, [], Level(inb, seeds, l));
  }

  lemma NoneCalls(inb: Inbound)
    ensures forall c :: !CallsSome(inb, c, [])
  {
  }

  /** Tests are listed nearest first. */
  ghost predicate NearestFirst(inb: Inbound, seeds: set<NodeId>, tests: seq<TestRef>) {
    forall i, j, l: nat :: 0 <= i < j < |tests| && tests[j].id in Level(inb, seeds, l) ==>
      tests[i].id in Level(inb, seeds, l)
  }

  lemma StillNearestFirst(inb: Inbound, seeds: set<NodeId>, l: nat, tests0: seq<TestRef>, tests: seq<TestRef>)
    requires NearestFirst(inb, seeds, tests0) && AddedTo(tests0, tests, Level(inb, seeds, l))
    requires Listed(inb, seeds, Level(inb, seeds, l + 1), tests)
    ensures NearestFirst(inb, seeds, tests)
  {
    hide OtherTest, Level;
    forall i, j, m: nat | 0 <= i < j < |tests| && tests[j].id in Level(inb, seeds, m)
      ensures tests[i].id in Level(inb, seeds, m)
    {
      if j < |tests0| {
        assert tests0[i] == tests[i] && tests0[j] == tests[j];
      } else {
        if m <= l {
          LevelMono(inb, seeds, m, l);
        } else {
          LevelMono(inb, seeds, l + 1, m);
        }
        assert tests[i] in tests;
      }
    }
  }

  /** The walk stops at the first level that fills the cap, or when a level adds nothing. */
  ghost predicate StopsAt(inb: Inbound, seeds: set<NodeId>, cap: nat, depth: nat) {
    && (forall l :: 0 <= l < depth ==> |Level(inb, seeds, l)| < cap)
    && (|Level(inb, seeds, depth)| < cap ==> Level(inb, seeds, depth + 1) == Level(inb, seeds, depth))
  }

  /**
   * The tests found are exactly those within the depth the walk stops at, nearest first; that is every
   * covering test unless the cap cut the walk short, which it does not in a region smaller than it.
   */
  method TestsCoveringAny(inb: Inbound, seedIds: seq<NodeId>, option: int)
    returns (tests: seq<TestRef>, ghost depth: nat)
    ensures StopsAt(inb, SeedSet(seedIds), MaxNodes(option), depth)
    ensures Listed(inb, SeedSet(seedIds), Level(inb, SeedSet(seedIds), depth), tests)
    ensures NearestFirst(inb, SeedSet(seedIds), tests)
    ensures Correct(inb, SeedSet(seedIds), tests)
    ensures |Level(inb, SeedSet(seedIds), depth)| < MaxNodes(option) ==> Complete(inb, SeedSet(seedIds), tests)
    ensures SmallRegion(inb, SeedSet(seedIds), MaxNodes(option)) ==> Complete(inb, SeedSet(seedIds), tests)
  {
    hide *;
    var maxNodes := MaxNodes(option);
    var visited, frontier := Seeds(seedIds);
    ghost var seeds := SeedSet(seedIds);
    tests, depth := [], 0;
    SeedsSound(inb, seeds, frontier);
    LevelZero(inb, seeds);
    NothingListed(inb, seeds);
    while frontier != [] && |visited| < maxNodes
      invariant Sound(inb, seeds, visited, frontier, []) && Listed(inb, seeds, visited, tests)
      invariant visited == Level(inb, seeds, depth) && NearestFirst(inb, seeds, tests)
      invariant forall l :: 0 <= l < depth ==> |Level(inb, seeds, l)| < maxNodes
      decreases if |visited| < maxNodes then maxNodes - |visited| else 0, |frontier|
    {
      ghost var listed := tests;
      var next;
      visited, next, tests := VisitLevel(inb, seeds, frontier, visited, tests);
      NextLevel(inb, seeds, depth, frontier, visited);
      StillNearestFirst(inb, seeds, depth, listed, tests);
      frontier, depth := next, depth + 1;
    }
    if frontier == [] {
      LastLevel(inb, seeds, depth);
    }
    WalkStops(inb, seeds, maxNodes, depth);
    WalkCorrect(inb, seeds, visited, frontier, tests);
    if SmallRegion(inb, seeds, maxNodes) {
      SmallRegionFits(inb, seeds, visited, frontier, maxNodes);
    }
  }

  lemma NothingListed(inb: Inbound, seeds: set<NodeId>)
    ensures NearestFirst(inb, seeds, [])
  {
  }

  lemma WalkStops(inb: Inbound, seeds: set<NodeId>, cap: nat, depth: nat)
    requires forall l :: 0 <= l < depth ==> |Level(inb, seeds, l)| < cap
    requires |Level(inb, seeds, depth)| < cap ==> Level(inb, seeds, depth + 1) == Level(inb, seeds, depth)
    ensures StopsAt(inb, seeds, cap, depth)
  {
  }
}
