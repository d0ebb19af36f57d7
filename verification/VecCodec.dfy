/** The little-endian float32 wire codec, over 32-bit patterns. */
module VecCodec {
  import opened Basics

  newtype Word = w: int | 0 <= w < 0x1_0000_0000

  type Vec = seq<Word>

  /** Byte k of a word, least significant first. */
  function ByteOf(w: Word, k: int): Byte
    requires 0 <= k < 4
  {
    if k == 0 then (w % 0x100) as Byte
    else if k == 1 then (w / 0x100 % 0x100) as Byte
    else if k == 2 then (w / 0x100 / 0x100 % 0x100) as Byte
    else (w / 0x100 / 0x100 / 0x100) as Byte
  }

  function WordOf(b0: Byte, b1: Byte, b2: Byte, b3: Byte): Word {
    (b0 as int + 0x100 * (b1 as int + 0x100 * (b2 as int + 0x100 * b3 as int))) as Word
  }

  lemma WordBytes(w: Word)
    ensures WordOf(ByteOf(w, 0), ByteOf(w, 1), ByteOf(w, 2), ByteOf(w, 3)) == w
  {
  }

  lemma LowByte(r: int, q: int)
    requires 0 <= r < 0x100 && 0 <= q
    ensures (r + 0x100 * q) % 0x100 == r && (r + 0x100 * q) / 0x100 == q
  {
  }

  lemma BytesWord(b0: Byte, b1: Byte, b2: Byte, b3: Byte)
    ensures var w := WordOf(b0, b1, b2, b3);
            ByteOf(w, 0) == b0 && ByteOf(w, 1) == b1 && ByteOf(w, 2) == b2 && ByteOf(w, 3) == b3
  {
    LowByte(b0 as int, b1 as int + 0x100 * (b2 as int + 0x100 * b3 as int));
    LowByte(b1 as int, b2 as int + 0x100 * b3 as int);
    LowByte(b2 as int, b3 as int);
  }

  /** Element i of vec is spelled at its place in blob. */
  ghost predicate SpelledAt(vec: Vec, blob: seq<Byte>, i: int)
    requires 0 <= i < |vec| && |blob| == 4 * |vec|
  {
    && blob[4 * i] == ByteOf(vec[i], 0) && blob[4 * i + 1] == ByteOf(vec[i], 1)
    && blob[4 * i + 2] == ByteOf(vec[i], 2) && blob[4 * i + 3] == ByteOf(vec[i], 3)
  }

  function Encode(vec: Vec): seq<Byte> {
    if vec == [] then []
    else Encode(vec[..|vec| - 1]) + [ByteOf(vec[|vec| - 1], 0), ByteOf(vec[|vec| - 1], 1),
                                     ByteOf(vec[|vec| - 1], 2), ByteOf(vec[|vec| - 1], 3)]
  }

  /** The first dim elements, or as many as the blob holds. */
  function Decode(blob: seq<Byte>, dim: nat): Vec {
    var n := if |blob| / 4 < dim then |blob| / 4 else dim;
    seq(n, i requires 0 <= i < n => WordOf(blob[4 * i], blob[4 * i + 1], blob[4 * i + 2], blob[4 * i + 3]))
  }

  lemma {:induction false} EncodeAt(vec: Vec, i: nat)
    ensures |Encode(vec)| == 4 * |vec|
    ensures i < |vec| ==> SpelledAt(vec, Encode(vec), i)
  {
    hide ByteOf;
    if vec != [] {
      var n := |vec| - 1;
      EncodeAt(vec[..n], i);
      if i < n {
        assert SpelledAt(vec[..n], Encode(vec[..n]), i);
      }
    }
  }

  /** Decoding an encoded vector gives it back bit for bit; asking for fewer elements gives its front. */
  lemma RoundTrip(vec: Vec, dim: nat)
    requires dim <= |vec|
    ensures Decode(Encode(vec), dim) == vec[..dim]
    ensures Decode(Encode(vec), |vec|) == vec
  {
    EncodeAt(vec, 0);
    forall i | 0 <= i < |vec| ensures SpelledAt(vec, Encode(vec), i) {
      EncodeAt(vec, i);
    }
    FrontDecodes(vec, Encode(vec), dim);
    FrontDecodes(vec, Encode(vec), |vec|);
    assert vec[..|vec|] == vec;
  }

  lemma FrontDecodes(vec: Vec, blob: seq<Byte>, dim: nat)
    requires dim <= |vec| && |blob| == 4 * |vec| && forall i :: 0 <= i < |vec| ==> SpelledAt(vec, blob, i)
    ensures Decode(blob, dim) == vec[..dim]
  {
    hide ByteOf;
    hide WordOf;
    forall i | 0 <= i < dim ensures Decode(blob, dim)[i] == vec[i] {
      WordBytes(vec[i]);
      assert SpelledAt(vec, blob, i);
    }
  }

  /** The number four bytes spell, least significant first. */
  ghost function Spelled(b0: Byte, b1: Byte, b2: Byte, b3: Byte): int {
    b0 as int + 0x100 * b1 as int + 0x1_0000 * b2 as int + 0x100_0000 * b3 as int
  }

  /** The encoding of a vector spells its elements, in order, as little-endian numbers. */
  lemma EncodedIsLittleEndian(vec: Vec, i: nat)
    requires i < |vec|
    ensures var blob := Encode(vec);
            && |blob| == 4 * |vec|
            && Spelled(blob[4 * i], blob[4 * i + 1], blob[4 * i + 2], blob[4 * i + 3]) == vec[i] as int
  {
    EncodeAt(vec, i);
    WordBytes(vec[i]);
    hide ByteOf, Encode;
  }

  /** Decoding reads them so, up to the dimension asked for or the last whole word. */
  lemma DecodedIsLittleEndian(blob: seq<Byte>, dim: nat, i: nat)
    ensures |Decode(blob, dim)| <= dim && 4 * |Decode(blob, dim)| <= |blob|
    ensures |Decode(blob, dim)| == dim || |blob| < 4 * |Decode(blob, dim)| + 4
    ensures i < |Decode(blob, dim)| ==>
              Decode(blob, dim)[i] as int == Spelled(blob[4 * i], blob[4 * i + 1], blob[4 * i + 2], blob[4 * i + 3])
  {
  }

  lemma DecodeLast(blob: seq<Byte>, n: nat)
    requires 4 * n + 4 <= |blob|
    ensures Decode(blob, n + 1) == Decode(blob,
        n) + [WordOf(blob[4 * n], blob[4 * n + 1], blob[4 * n + 2], blob[4 * n + 3])]
  {
    hide WordOf;
  }

  lemma EncodeLast(v: Vec, w: Word)
    ensures Encode(v + [w]) == Encode(v) + [ByteOf(w, 0), ByteOf(w, 1), ByteOf(w, 2), ByteOf(w, 3)]
  {
    hide ByteOf;
    assert (v + [w])[..|v|] == v;
  }

  /** Encoding what was decoded gives back the whole words of the blob. */
  lemma {:induction false} ReEncode(blob: seq<Byte>, dim: nat)
    requires 4 * dim <= |blob|
    ensures Encode(Decode(blob, dim)) == blob[..4 * dim]
    decreases dim
  {
    if dim > 0 {
      hide *;
      var n := dim - 1;
      var w := WordOf(blob[4 * n], blob[4 * n + 1], blob[4 * n + 2], blob[4 * n + 3]);
      ReEncode(blob, n);
      DecodeLast(blob, n);
      EncodeLast(Decode(blob, n), w);
      BytesWord(blob[4 * n], blob[4 * n + 1], blob[4 * n + 2], blob[4 * n + 3]);
      NextFour(blob, 4 * n);
    }
  }

  lemma NextFour(blob: seq<Byte>, k: nat)
    requires k + 4 <= |blob|
    ensures blob[..k + 4] == blob[..k] + [blob[k], blob[k + 1], blob[k + 2], blob[k + 3]]
  {
  }

  method EncodeFloat32LE(vec: array<Word>) returns (out: array<Byte>)
    ensures fresh(out) && out[..] == Encode(vec[..])
  {
    hide ByteOf;
    out := new Byte[4 * vec.Length](_ => 0);
    for i := 0 to vec.Length
      invariant out[..4 * i] == Encode(vec[..i])
    {
      var f := vec[i];
      out[4 * i], out[4 * i + 1], out[4 * i + 2], out[4 * i + 3] := ByteOf(f, 0), ByteOf(f, 1), ByteOf(f, 2),
          ByteOf(f, 3);
      assert vec[..i + 1][..i] == vec[..i];
      assert out[..4 * (i + 1)] == out[..4 * i] + [ByteOf(f, 0), ByteOf(f, 1), ByteOf(f, 2), ByteOf(f, 3)];
    }
    assert vec[..vec.Length] == vec[..];
  }

  method DecodeFloat32LE(blob: array<Byte>, dim: nat) returns (out: array<Word>)
    ensures fresh(out) && out[..] == Decode(blob[..], dim)
  {
    hide WordOf;
    var have := blob.Length / 4;
    var n := if have < dim then have else dim;
    out := new Word[n](_ => 0);
    for i := 0 to n
      invariant forall k :: 0 <= k < i ==>
          out[k] == WordOf(blob[4 * k], blob[4 * k + 1], blob[4 * k + 2], blob[4 * k + 3])
    {
      out[i] := WordOf(blob[4 * i], blob[4 * i + 1], blob[4 * i + 2], blob[4 * i + 3]);
    }
  }
}
