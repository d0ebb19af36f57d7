/**
 * The brace scanner that lifts a JSON object out of a model's reply
 * (internal/application/review/parse.go). Text is a sequence of bytes, as in
 * the source, so a multi-byte character is just bytes of 128 and above.
 */
module JsonScan {
  import opened Basics

  type Text = seq<Byte>

  const OPEN: Byte := 123
  const CLOSE: Byte := 125
  const QUOTE: Byte := 34
  const BACKSLASH: Byte := 92

  // ---- What "balanced" means, without a scanner --------------------------

  /** One unit inside a string literal: a byte, or a backslash and the byte it protects. */
  datatype Piece = Raw(b: Byte) | Escape(e: Byte)

  /** A text cut at its string literals. A backslash outside a literal is an ordinary byte. */
  datatype Chunk = Bare(b: Byte) | Literal(pieces: seq<Piece>)

  predicate PieceOk(p: Piece) {
    p.Raw? ==> p.b != QUOTE && p.b != BACKSLASH
  }

  predicate PiecesOk(ps: seq<Piece>) {
    forall i :: 0 <= i < |ps| ==> PieceOk(ps[i])
  }

  predicate ChunkOk(c: Chunk) {
    match c
    case Bare(b) => b != QUOTE
    case Literal(ps) => PiecesOk(ps)
  }

  predicate ChunksOk(cs: seq<Chunk>) {
    forall i :: 0 <= i < |cs| ==> ChunkOk(cs[i])
  }

  function PieceText(p: Piece): Text {
    if p.Raw? then [p.b] else [BACKSLASH, p.e]
  }

  function PiecesText(ps: seq<Piece>): Text {
    if ps == [] then [] else PiecesText(ps[..|ps| - 1]) + PieceText(ps[|ps| - 1])
  }

  function ChunkText(c: Chunk): Text {
    match c
    case Bare(b) => [b]
    case Literal(ps) => [QUOTE] + PiecesText(ps) + [QUOTE]
  }

  function ChunksText(cs: seq<Chunk>): Text {
    if cs == [] then [] else ChunksText(cs[..|cs| - 1]) + ChunkText(cs[|cs| - 1])
  }

  function Weight(c: Chunk): int {
    if c == Bare(OPEN) then 1 else if c == Bare(CLOSE) then -1 else 0
  }

  /** Opening braces minus closing braces, string literals not counted. */
  function Excess(cs: seq<Chunk>): int {
    if cs == [] then 0 else Excess(cs[..|cs| - 1]) + Weight(cs[|cs| - 1])
  }

  /** `t` is a whole number of chunks with as many opening as closing braces. */
  ghost predicate Balanced(t: Text) {
    exists cs: seq<Chunk> :: ChunksOk(cs) && ChunksText(cs) == t && Excess(cs) == 0
  }

  /** `r` is the shortest balanced non-empty prefix of `t`, or empty when `t` has none. */
  ghost predicate ShortestBalanced(t: Text, r: Text) {
    if r == [] then forall k :: 0 < k <= |t| ==> !Balanced(t[..k])
    else r <= t && Balanced(r) && forall k :: 0 < k < |r| ==> !Balanced(t[..k])
  }

  ghost predicate FirstAt(s: Text, start: nat) {
    start < |s| && s[start] == OPEN && forall i :: 0 <= i < start ==> s[i] != OPEN
  }

  /** What the scanner promises of its answer `r` for the reply `s`. */
  ghost predicate Extracted(s: Text, r: Text) {
    if OPEN in s then exists start: nat :: FirstAt(s, start) && ShortestBalanced(s[start..], r)
    else r == []
  }

  // ---- The scanner's state, and how it relates to chunks ------------------

  datatype Scan = Scan(depth: int, inString: bool, escaped: bool)

  function Step(st: Scan, c: Byte): Scan {
    if st.escaped then st.(escaped := false)
    else if c == BACKSLASH && st.inString then st.(escaped := true)
    else if c == QUOTE then st.(inString := !st.inString)
    else if st.inString then st
    else if c == OPEN then st.(depth := st.depth + 1)
    else if c == CLOSE then st.(depth := st.depth - 1)
    else st
  }

  function After(st: Scan, t: Text): Scan {
    if t == [] then st else Step(After(st, t[..|t| - 1]), t[|t| - 1])
  }

  const START := Scan(0, false, false)

  function Outside(d: int): Scan { Scan(d, false, false) }

  lemma {:induction false} AfterAppend(st: Scan, a: Text, b: Text)
    ensures After(st, a + b) == After(After(st, a), b)
  {
    if b == [] {
      assert a + b == a;
    } else {
      AfterAppend(st, a, b[..|b| - 1]);
      assert (a + b)[..|a + b| - 1] == a + b[..|b| - 1];
    }
  }

  lemma AfterNone(st: Scan)
    ensures After(st, []) == st
  {}

  lemma AfterOne(st: Scan, c: Byte)
    ensures After(st, [c]) == Step(st, c)
  {
    assert [c][..0] == [];
    assert After(st, []) == st;
  }

  lemma AfterTwo(st: Scan, c: Byte, d: Byte)
    ensures After(st, [c, d]) == Step(Step(st, c), d)
  {
    assert [c, d] == [c] + [d];
    AfterAppend(st, [c], [d]);
    AfterOne(st, c);
    AfterOne(Step(st, c), d);
  }

  lemma {:induction false} PiecesKeepState(d: int, ps: seq<Piece>)
    requires PiecesOk(ps)
    ensures After(Scan(d, true, false), PiecesText(ps)) == Scan(d, true, false)
  {
    if ps != [] {
      var p := ps[|ps| - 1];
      PiecesKeepState(d, ps[..|ps| - 1]);
      AfterAppend(Scan(d, true, false), PiecesText(ps[..|ps| - 1]), PieceText(p));
      if p.Raw? {
        AfterOne(Scan(d, true, false), p.b);
      } else {
        AfterTwo(Scan(d, true, false), BACKSLASH, p.e);
      }
    }
  }

  lemma ChunkMoves(d: int, c: Chunk)
    requires ChunkOk(c)
    ensures After(Outside(d), ChunkText(c)) == Outside(d + Weight(c))
  {
    match c
    case Bare(b) => AfterOne(Outside(d), b);
    case Literal(ps) =>
      PiecesKeepState(d, ps);
      AfterAppend(Outside(d), [QUOTE] + PiecesText(ps), [QUOTE]);
      AfterAppend(Outside(d), [QUOTE], PiecesText(ps));
      AfterOne(Outside(d), QUOTE);
      AfterOne(Scan(d, true, false), QUOTE);
  }

  /** Reading whole chunks moves the depth by exactly their excess. */
  lemma {:induction false} ChunksMove(d: int, cs: seq<Chunk>)
    requires ChunksOk(cs)
    ensures After(Outside(d), ChunksText(cs)) == Outside(d + Excess(cs))
  {
    hide After, ChunkText;
    assert After(Outside(d), []) == Outside(d) by { AfterNone(Outside(d)); }
    if cs != [] {
      var rest, c := cs[..|cs| - 1], cs[|cs| - 1];
      ChunksMove(d, rest);
      AfterAppend(Outside(d), ChunksText(rest), ChunkText(c));
      ChunkMoves(d + Excess(rest), c);
    }
  }

  /** The text read so far: closed chunks, then whatever of a literal is still open. */
  function OpenText(a: Text, b: Text, inString: bool, escaped: bool): Text {
    if escaped then a + [QUOTE] + b + [BACKSLASH] else if inString then a + [QUOTE] + b else a
  }

  /** What a scanner state says about the text read so far. */
  ghost predicate Explains(cs: seq<Chunk>, ps: seq<Piece>, t: Text, st: Scan) {
    && ChunksOk(cs)
    && PiecesOk(ps)
    && Excess(cs) == st.depth
    && (st.escaped ==> st.inString)
    && t == OpenText(ChunksText(cs), PiecesText(ps), st.inString, st.escaped)
  }

  lemma SnocChunk(cs: seq<Chunk>, c: Chunk)
    requires ChunksOk(cs) && ChunkOk(c)
    ensures ChunksOk(cs + [c])
    ensures ChunksText(cs + [c]) == ChunksText(cs) + ChunkText(c)
    ensures Excess(cs + [c]) == Excess(cs) + Weight(c)
  {
    assert (cs + [c])[..|cs|] == cs;
  }

  lemma SnocPiece(ps: seq<Piece>, p: Piece)
    requires PiecesOk(ps) && PieceOk(p)
    ensures PiecesOk(ps + [p])
    ensures PiecesText(ps + [p]) == PiecesText(ps) + PieceText(p)
  {
    assert (ps + [p])[..|ps|] == ps;
  }

  lemma ExplainInside(cs: seq<Chunk>, ps: seq<Piece>, t: Text, st: Scan, c: Byte)
    returns (cs': seq<Chunk>, ps': seq<Piece>)
    requires Explains(cs, ps, t, st) && st.inString
    ensures Explains(cs', ps', t + [c], Step(st, c))
  {
    hide PiecesText, ChunksText, Excess, PiecesOk, ChunksOk;
    cs', ps' := cs, ps;
    var a, b := ChunksText(cs), PiecesText(ps);
    if st.escaped {
      SnocPiece(ps, Escape(c));
      ps' := ps + [Escape(c)];
      assert t + [c] == a + [QUOTE] + (b + [BACKSLASH, c]);
    } else if c == BACKSLASH {
    } else if c == QUOTE {
      SnocChunk(cs, Literal(ps));
      cs', ps' := cs + [Literal(ps)], [];
      PiecesNone();
      assert t + [c] == a + ([QUOTE] + b + [QUOTE]);
    } else {
      SnocPiece(ps, Raw(c));
      ps' := ps + [Raw(c)];
      assert t + [c] == a + [QUOTE] + (b + [c]);
    }
  }

  lemma PiecesNone()
    ensures PiecesOk([]) && PiecesText([]) == []
  {}

  lemma ExplainOutside(cs: seq<Chunk>, ps: seq<Piece>, t: Text, st: Scan, c: Byte)
    returns (cs': seq<Chunk>, ps': seq<Piece>)
    requires Explains(cs, ps, t, st) && !st.inString
    ensures Explains(cs', ps', t + [c], Step(st, c))
  {
    hide PiecesText, ChunksText, Excess, PiecesOk, ChunksOk;
    cs', ps' := cs, [];
    PiecesNone();
    if c == QUOTE {
      assert t + [c] == ChunksText(cs) + [QUOTE] + [];
    } else {
      SnocChunk(cs, Bare(c));
      cs' := cs + [Bare(c)];
    }
  }

  lemma {:induction false} Explained(t: Text) returns (cs: seq<Chunk>, ps: seq<Piece>)
    ensures Explains(cs, ps, t, After(START, t))
  {
    if t == [] {
      cs, ps := [], [];
    } else {
      var last := |t| - 1;
      assert t == t[..last] + [t[last]];
      cs, ps := Explained(t[..last]);
      var st := After(START, t[..last]);
      if st.inString {
        cs, ps := ExplainInside(cs, ps, t[..last], st, t[last]);
      } else {
        cs, ps := ExplainOutside(cs, ps, t[..last], st, t[last]);
      }
    }
  }

  /** A text balances exactly when the scanner ends on it outside every string at depth zero. */
  lemma BalancedIffBackAtStart(t: Text)
    ensures Balanced(t) <==> After(START, t) == START
  {
    hide After, ChunksText, Excess, PiecesText;
    assert START == Outside(0);
    if Balanced(t) {
      var cs: seq<Chunk> :| ChunksOk(cs) && ChunksText(cs) == t && Excess(cs) == 0;
      ChunksMove(0, cs);
    }
    if After(START, t) == START {
      var cs, ps := Explained(t);
    }
  }

  // ---- The scanner -------------------------------------------------------

  method IndexByte(s: Text, c: Byte) returns (i: int)
    ensures i < 0 ==> c !in s
    ensures i >= 0 ==> i < |s| && s[i] == c && forall j :: 0 <= j < i ==> s[j] != c
  {
    i := 0;
    while i < |s|
      invariant 0 <= i <= |s| && forall j :: 0 <= j < i ==> s[j] != c
    {
      if s[i] == c { return; }
      i := i + 1;
    }
    i := -1;
  }

  /** While the depth is positive the text read so far is not balanced, so the scan goes on. */
  ghost predicate Pending(t: Text, i: nat, st: Scan) {
    && i <= |t|
    && After(START, t[..i]) == st
    && (st.escaped ==> st.inString)
    && (i > 0 ==> st.depth > 0)
    && forall k :: 0 < k <= i ==> !Balanced(t[..k])
  }

  lemma PendingStep(t: Text, i: nat, st: Scan)
    requires Pending(t, i, st) && i < |t| && t[0] == OPEN
    ensures After(START, t[..i + 1]) == Step(st, t[i])
    ensures Step(st, t[i]).depth >= 0
    ensures Step(st, t[i]).depth == 0 ==> t[i] == CLOSE && st == Outside(1) && Balanced(t[..i + 1])
    ensures Step(st, t[i]).depth != 0 ==> Pending(t, i + 1, Step(st, t[i]))
  {
    assert t[..i + 1][..i] == t[..i];
    BalancedIffBackAtStart(t[..i + 1]);
  }

  lemma PendingStart(t: Text)
    ensures Pending(t, 0, START)
  {
    assert t[..0] == [];
  }

  lemma PendingAtEnd(t: Text, i: nat, st: Scan)
    requires Pending(t, i, st) && (i == |t| || Balanced(t[..i + 1]))
    ensures ShortestBalanced(t, if i == |t| then [] else t[..i + 1])
  {
    if i < |t| {
      forall k | 0 < k < i + 1 ensures !Balanced(t[..k]) {}
    }
  }

  method ExtractJSONObject(s: Text) returns (r: Text)
    ensures Extracted(s, r)
  {
    hide Pending, After, ShortestBalanced, Balanced;
    var start := IndexByte(s, OPEN);
    if start < 0 {
      return [];
    }
    assert FirstAt(s, start);
    ghost var t := s[start..];
    PendingStart(t);
    var depth, inString, escaped := 0, false, false;
    var i := start;
    while i < |s|
      invariant start <= i <= |s|
      invariant Pending(t, i - start, Scan(depth, inString, escaped))
    {
      var c := s[i];
      PendingStep(t, i - start, Scan(depth, inString, escaped));
      if escaped {
        escaped := false;
      } else if c == BACKSLASH && inString {
        escaped := true;
      } else if c == QUOTE {
        inString := !inString;
      } else if inString {
      } else if c == OPEN {
        depth := depth + 1;
      } else if c == CLOSE {
        depth := depth - 1;
        if depth == 0 {
          assert s[start..i + 1] == t[..i - start + 1];
          PendingAtEnd(t, i - start, Scan(1, inString, escaped));
          return s[start..i + 1];
        }
      }
      i := i + 1;
    }
    PendingAtEnd(t, i - start, Scan(depth, inString, escaped));
    return [];
  }

  // ---- The JSON grammar of RFC 8259, sections 2 to 7 ----------------------

  predicate IsWs(b: Byte) { b == 0x20 || b == 0x09 || b == 0x0A || b == 0x0D }
  predicate IsDigit(b: Byte) { 0x30 <= b <= 0x39 }
  predicate IsHex(b: Byte) { IsDigit(b) || 0x41 <= b <= 0x46 || 0x61 <= b <= 0x66 }

  type Space = t: Text | forall i :: 0 <= i < |t| ==> IsWs(t[i])
  type Digits = t: Text | |t| > 0 && (forall i :: 0 <= i < |t| ==> IsDigit(t[i])) witness [0x30]
  type Hex4 = t: Text | |t| == 4 && (forall i :: 0 <= i < |t| ==> IsHex(t[i])) witness [0x30, 0x30, 0x30, 0x30]

  /** Any byte a string may hold as it is; bytes from 128 up carry multi-byte characters. */
  type Unescaped = b: Byte | b >= 0x20 && b != QUOTE && b != BACKSLASH witness 0x20
  /** The bytes of the two-character escapes: quote, backslash, solidus, b, f, n, r, t. */
  type Short = b: Byte | b in {0x22, 0x5C, 0x2F, 0x62, 0x66, 0x6E, 0x72, 0x74} witness 0x22

  datatype Char = Plain(b: Unescaped) | ShortEscape(e: Short) | CodeUnit(hex: Hex4)

  datatype Frac = NoFrac | Frac(digits: Digits)
  datatype Sign = Unsigned | Plus | Minus
  datatype Exp = NoExp | Exp(upper: bool, sign: Sign, digits: Digits)
  /** `whole` has no leading zero unless it is the single digit zero. */
  type IntPart = t: Digits | t[0] == 0x30 ==> |t| == 1 witness [0x30]
  datatype Number = Number(minus: bool, whole: IntPart, frac: Frac, exp: Exp)

  datatype Value =
    | False | Null | True
    | Num(n: Number)
    | Str(chars: seq<Char>)
    | Arr(pad: Space, items: Items)
    | Obj(pad: Space, members: Members)

  /** Array elements, each with its surrounding white space. */
  datatype Items = NoItems | Item(before: Space, v: Value, after: Space, rest: Items)

  datatype Members =
    | NoMembers
    | Member(before: Space, key: seq<Char>, gap: Space, lead: Space, v: Value, after: Space, rest: Members)

  function CharText(c: Char): Text {
    match c
    case Plain(b) => [b]
    case ShortEscape(e) => [BACKSLASH, e]
    case CodeUnit(h) => [BACKSLASH, 0x75] + h
  }

  function CharsText(cs: seq<Char>): Text {
    if cs == [] then [] else CharText(cs[0]) + CharsText(cs[1..])
  }

  function StringText(cs: seq<Char>): Text { [QUOTE] + CharsText(cs) + [QUOTE] }

  function SignText(s: Sign): Text {
    match s case Unsigned => [] case Plus => [0x2B] case Minus => [0x2D]
  }

  function FracText(f: Frac): Text {
    match f case NoFrac => [] case Frac(d) => [0x2E] + d
  }

  function ExpText(e: Exp): Text {
    match e case NoExp => [] case Exp(upper, sign, d) => [if upper then 0x45 else 0x65] + SignText(sign) + d
  }

  function NumberText(n: Number): Text {
    (if n.minus then [0x2D] else []) + n.whole + FracText(n.frac) + ExpText(n.exp)
  }

  function Print(v: Value): Text {
    match v
    case False => [0x66, 0x61, 0x6C, 0x73, 0x65]
    case Null => [0x6E, 0x75, 0x6C, 0x6C]
    case True => [0x74, 0x72, 0x75, 0x65]
    case Num(n) => NumberText(n)
    case Str(cs) => StringText(cs)
    case Arr(pad, items) => [0x5B] + (pad + PrintItems(items)) + [0x5D]
    case Obj(pad, members) => [OPEN] + (pad + PrintMembers(members)) + [CLOSE]
  }

  function Comma(last: bool): Text { if last then [] else [0x2C] }

  function PrintItems(items: Items): Text {
    match items
    case NoItems => []
    case Item(before, v, after, rest) => before + Print(v) + after + Comma(rest.NoItems?) + PrintItems(rest)
  }

  function PrintMembers(ms: Members): Text {
    match ms
    case NoMembers => []
    case Member(before, key, gap, lead, v, after, rest) =>
      before + StringText(key) + gap + [0x3A] + lead + Print(v) + after + Comma(rest.NoMembers?) + PrintMembers(rest)
  }

  // ---- Printed values are level, so an object ends at its own brace -------

  /** Reading `t` from outside a string comes back to where it began and never dips below. */
  ghost predicate Level(t: Text) {
    && (forall d: int :: After(Outside(d), t) == Outside(d))
    && (forall d: int, k: nat :: k <= |t| ==> After(Outside(d), t[..k]).depth >= d)
  }

  lemma LevelConcat(a: Text, b: Text)
    requires Level(a) && Level(b)
    ensures Level(a + b)
  {
    forall d: int ensures After(Outside(d), a + b) == Outside(d) {
      AfterAppend(Outside(d), a, b);
    }
    forall d: int, k: nat | k <= |a + b| ensures After(Outside(d), (a + b)[..k]).depth >= d {
      if k <= |a| {
        assert (a + b)[..k] == a[..k];
      } else {
        assert (a + b)[..k] == a + b[..k - |a|];
        AfterAppend(Outside(d), a, b[..k - |a|]);
      }
    }
  }

  /** Neither brace nor quote. */
  predicate Inert(t: Text) {
    forall i :: 0 <= i < |t| ==> t[i] != OPEN && t[i] != CLOSE && t[i] != QUOTE
  }

  lemma {:induction false} InertLevel(t: Text)
    requires Inert(t)
    ensures Level(t)
  {
    if t == [] {
      assert forall k: nat :: k <= |t| ==> t[..k] == [];
    } else {
      var last := |t| - 1;
      InertLevel(t[..last]);
      forall d: int, k: nat | k <= |t| ensures After(Outside(d), t[..k]).depth >= d {
        if k <= last { assert t[..k] == t[..last][..k]; } else { assert t[..k] == t; }
      }
    }
  }

  /** Reading `t` from inside a string stays inside it. */
  ghost predicate Within(t: Text) {
    && (forall d: int :: After(Scan(d, true, false), t) == Scan(d, true, false))
    && (forall d: int, k: nat :: k <= |t| ==> After(Scan(d, true, false), t[..k]).depth == d)
  }

  lemma WithinConcat(a: Text, b: Text)
    requires Within(a) && Within(b)
    ensures Within(a + b)
  {
    forall d: int ensures After(Scan(d, true, false), a + b) == Scan(d, true, false) {
      AfterAppend(Scan(d, true, false), a, b);
    }
    forall d: int, k: nat | k <= |a + b| ensures After(Scan(d, true, false), (a + b)[..k]).depth == d {
      if k <= |a| {
        assert (a + b)[..k] == a[..k];
      } else {
        assert (a + b)[..k] == a + b[..k - |a|];
        AfterAppend(Scan(d, true, false), a, b[..k - |a|]);
      }
    }
  }

  lemma WithinEmpty()
    ensures Within([])
  {
    var none: Text := [];
    assert forall k: nat :: k <= |none| ==> none[..k] == [];
  }

  lemma WithinByte(b: Byte)
    requires b != QUOTE && b != BACKSLASH
    ensures Within([b])
  {
    forall d: int, k: nat | k <= 1
      ensures After(Scan(d, true, false), [b][..k]).depth == d
      ensures After(Scan(d, true, false), [b]) == Scan(d, true, false)
    {
      AfterOne(Scan(d, true, false), b);
      assert [b][..k] == if k == 0 then [] else [b];
    }
  }

  lemma WithinEscape(e: Byte)
    ensures Within([BACKSLASH, e])
  {
    var t := [BACKSLASH, e];
    forall d: int, k: nat | k <= 2
      ensures After(Scan(d, true, false), t[..k]).depth == d
      ensures After(Scan(d, true, false), t) == Scan(d, true, false)
    {
      AfterOne(Scan(d, true, false), BACKSLASH);
      AfterTwo(Scan(d, true, false), BACKSLASH, e);
      assert t[..k] == if k == 0 then [] else if k == 1 then [BACKSLASH] else t;
    }
  }

  lemma {:induction false} WithinPlain(t: Text)
    requires forall i :: 0 <= i < |t| ==> t[i] != QUOTE && t[i] != BACKSLASH
    ensures Within(t)
  {
    if t == [] {
      WithinEmpty();
    } else {
      assert t == [t[0]] + t[1..];
      WithinByte(t[0]);
      WithinPlain(t[1..]);
      WithinConcat([t[0]], t[1..]);
    }
  }

  lemma {:induction false} CharsWithin(cs: seq<Char>)
    ensures Within(CharsText(cs))
  {
    if cs == [] {
      WithinEmpty();
    } else {
      match cs[0] {
        case Plain(b) => WithinByte(b);
        case ShortEscape(e) => WithinEscape(e);
        case CodeUnit(h) =>
          WithinEscape(0x75);
          WithinPlain(h);
          WithinConcat([BACKSLASH, 0x75], h);
      }
      CharsWithin(cs[1..]);
      WithinConcat(CharText(cs[0]), CharsText(cs[1..]));
    }
  }

  lemma StringLevel(cs: seq<Char>)
    ensures Level(StringText(cs))
  {
    var body := CharsText(cs);
    var t := StringText(cs);
    CharsWithin(cs);
    forall d: int, k: nat | k <= |t|
      ensures After(Outside(d), t[..k]).depth >= d
      ensures After(Outside(d), t) == Outside(d)
    {
      AfterOne(Outside(d), QUOTE);
      AfterOne(Scan(d, true, false), QUOTE);
      AfterAppend(Outside(d), [QUOTE], body);
      AfterAppend(Outside(d), [QUOTE] + body, [QUOTE]);
      if k == 0 {
        assert t[..k] == [];
      } else if k <= |body| + 1 {
        assert t[..k] == [QUOTE] + body[..k - 1];
        AfterAppend(Outside(d), [QUOTE], body[..k - 1]);
      } else {
        assert t[..k] == t;
      }
    }
  }

  lemma NumberLevel(n: Number)
    ensures Level(NumberText(n))
  {
    assert Inert(n.whole) && Inert(FracText(n.frac)) && Inert(ExpText(n.exp));
    hide FracText, ExpText;
    InertLevel(NumberText(n));
  }

  /** Between an object's first and last byte the scanner is at least one level deep. */
  lemma Braced(t: Text)
    requires Level(t)
    ensures Level([OPEN] + t + [CLOSE])
    ensures forall k: nat :: 0 < k < |t| + 2 ==> After(START, ([OPEN] + t + [CLOSE])[..k]).depth > 0
  {
    var whole := [OPEN] + t + [CLOSE];
    forall d: int, k: nat | k <= |whole|
      ensures After(Outside(d), whole) == Outside(d)
      ensures After(Outside(d), whole[..k]).depth >= if 0 < k < |whole| then d + 1 else d
    {
      AfterOne(Outside(d), OPEN);
      AfterOne(Outside(d + 1), CLOSE);
      AfterAppend(Outside(d), [OPEN], t);
      AfterAppend(Outside(d), [OPEN] + t, [CLOSE]);
      if k == 0 {
        assert whole[..k] == [];
      } else if k < |whole| {
        assert whole[..k] == [OPEN] + t[..k - 1];
        AfterAppend(Outside(d), [OPEN], t[..k - 1]);
      } else {
        assert whole[..k] == whole;
      }
    }
    assert START == Outside(0);
  }

  lemma Around(before: Text, t: Text, after: Text)
    requires Inert(before) && Level(t) && Inert(after)
    ensures Level(before + t + after)
  {
    InertLevel(before);
    InertLevel(after);
    LevelConcat(before, t);
    LevelConcat(before + t, after);
  }

  lemma {:induction false} ValueLevel(v: Value)
    ensures Level(Print(v))
    decreases v
  {
    hide Level;
    match v
    case False => InertLevel(Print(v));
    case Null => InertLevel(Print(v));
    case True => InertLevel(Print(v));
    case Num(n) => NumberLevel(n);
    case Str(cs) => StringLevel(cs);
    case Arr(pad, items) =>
      ItemsLevel(items);
      InertLevel(pad);
      LevelConcat(pad, PrintItems(items));
      Around([0x5B], pad + PrintItems(items), [0x5D]);
    case Obj(pad, members) =>
      MembersLevel(members);
      InertLevel(pad);
      LevelConcat(pad, PrintMembers(members));
      Braced(pad + PrintMembers(members));
  }

  lemma {:induction false} ItemsLevel(items: Items)
    ensures Level(PrintItems(items))
    decreases items
  {
    hide Level;
    match items
    case NoItems => InertLevel([]);
    case Item(before, v, after, rest) =>
      ValueLevel(v);
      ItemsLevel(rest);
      var tail := after + Comma(rest.NoItems?);
      Around(before, Print(v), tail);
      LevelConcat(before + Print(v) + tail, PrintItems(rest));
      assert PrintItems(items) == before + Print(v) + tail + PrintItems(rest);
  }

  lemma {:induction false} MembersLevel(ms: Members)
    ensures Level(PrintMembers(ms))
    decreases ms
  {
    hide Level, StringText;
    match ms
    case NoMembers => InertLevel([]);
    case Member(before, key, gap, lead, v, after, rest) =>
      ValueLevel(v);
      MembersLevel(rest);
      MemberLevel(before, key, gap, lead, Print(v), after + Comma(rest.NoMembers?));
      JoinMember(before, StringText(key), gap, lead, Print(v), after, Comma(rest.NoMembers?), PrintMembers(rest));
      LevelConcat(before + StringText(key) + gap + [0x3A] + lead + Print(v) + (after + Comma(rest.NoMembers?)),
          PrintMembers(rest));
  }

  lemma JoinMember(a: Text, b: Text, c: Text, d: Text, e: Text, f: Text, g: Text, h: Text)
    ensures a + b + c + [0x3A] + d + e + f + g + h == a + b + c + [0x3A] + d + e + (f + g) + h
  {
    var x := a + b + c + [0x3A] + d + e;
    assert x + f + g == x + (f + g);
  }

  lemma MemberLevel(before: Space, key: seq<Char>, gap: Space, lead: Space, value: Text, tail: Text)
    requires Level(value) && Inert(tail)
    ensures Level(before + StringText(key) + gap + [0x3A] + lead + value + tail)
  {
    hide Level, StringText;
    StringLevel(key);
    Around(before, StringText(key), gap);
    InertLevel([0x3A]);
    InertLevel(lead);
    InertLevel(tail);
    var head := before + StringText(key) + gap;
    LevelConcat(head, [0x3A]);
    LevelConcat(head + [0x3A], lead);
    LevelConcat(head + [0x3A] + lead, value);
    LevelConcat(head + [0x3A] + lead + value, tail);
  }

  lemma ShortestIsUnique(t: Text, r: Text, q: Text)
    requires ShortestBalanced(t, r) && ShortestBalanced(t, q)
    ensures r == q
  {
    assert r != [] ==> r == t[..|r|];
    assert q != [] ==> q == t[..|q|];
  }

  /** The contract leaves one answer. */
  lemma ExtractedIsUnique(s: Text, r: Text, q: Text)
    requires Extracted(s, r) && Extracted(s, q)
    ensures r == q
  {
    if OPEN in s {
      var i: nat :| FirstAt(s, i) && ShortestBalanced(s[i..], r);
      var j: nat :| FirstAt(s, j) && ShortestBalanced(s[j..], q);
      ShortestIsUnique(s[i..], r, q);
    }
  }

  lemma ObjectText(o: Value) returns (body: Text)
    requires o.Obj?
    ensures Level(body) && Print(o) == [OPEN] + body + [CLOSE]
  {
    hide Level;
    body := o.pad + PrintMembers(o.members);
    MembersLevel(o.members);
    InertLevel(o.pad);
    LevelConcat(o.pad, PrintMembers(o.members));
  }

  lemma BracedIsShortest(body: Text, suffix: Text)
    requires Level(body)
    ensures ShortestBalanced([OPEN] + body + [CLOSE] + suffix, [OPEN] + body + [CLOSE])
  {
    var whole := [OPEN] + body + [CLOSE];
    var t := whole + suffix;
    Braced(body);
    assert START == Outside(0);
    BalancedIffBackAtStart(whole);
    hide After, Balanced;
    assert t[..|whole|] == whole;
    forall k: nat | 0 < k < |whole| ensures !Balanced(t[..k]) {
      assert t[..k] == whole[..k];
      BalancedIffBackAtStart(whole[..k]);
    }
  }

  /** Every printed object comes back exactly, whatever prose stands around it. */
  lemma ObjectComesBack(prefix: Text, o: Value, suffix: Text, r: Text)
    requires o.Obj? && OPEN !in prefix
    requires Extracted(prefix + Print(o) + suffix, r)
    ensures r == Print(o)
  {
    hide Print, Level, ShortestBalanced;
    var s, t := prefix + Print(o) + suffix, Print(o) + suffix;
    var body := ObjectText(o);
    assert s == prefix + t;
    assert FirstAt(s, |prefix|);
    assert s[|prefix|..] == t;
    BracedIsShortest(body, suffix);
    ExtractedIsUnique(s, r, Print(o));
  }

  /** An empty answer means exactly that nothing from the first opening brace on balances. */
  lemma EmptyMeansNoneBalances(s: Text, r: Text)
    requires Extracted(s, r)
    ensures r == [] <==>
        forall start: nat, k :: FirstAt(s, start) && 0 < k <= |s| - start ==> !Balanced(s[start..][..k])
  {
    if OPEN in s {
      var i: nat :| FirstAt(s, i) && ShortestBalanced(s[i..], r);
      if r != [] {
        assert s[i..][..|r|] == r;
        assert FirstAt(s, i) && 0 < |r| <= |s| - i;
      }
    }
  }
}
