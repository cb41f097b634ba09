/** Length-prefixed chunks, the building block of every signed message. */
module Chunks {
  import opened ByteStrings
  import opened Wrappers

  /** The bytes of an ASCII literal. */
  function Ascii(s: string): (b: bytes)
    ensures |b| == |s| && forall i :: 0 <= i < |s| ==> b[i] == s[i] as int % 256
  {
    seq(|s|, i requires 0 <= i < |s| => s[i] as int % 256)
  }

  /** Lengths beyond u32 are written as u32::MAX. */
  function LengthPrefix(n: nat): nat {
    if n < U32_LIMIT then n else U32_LIMIT - 1
  }

  function Chunk(value: bytes): (b: bytes)
    ensures |b| == 4 + |value|
  {
    BE(LengthPrefix(|value|), 4) + value
  }

  /** Four length bytes, highest first, and the value. */
  lemma ChunkLayout(value: bytes)
    ensures var n := if |value| < 0x1_0000_0000 then |value| else 0xffff_ffff;
      && Chunk(value)[4..] == value
      && forall i :: 0 <= i < 4 ==> Chunk(value)[3 - i] == Digit(n, i)
  {
    hide BE, Digit;
    forall i | 0 <= i < 4 ensures Chunk(value)[3 - i] == Digit(LengthPrefix(|value|), i) {
      Digits(LengthPrefix(|value|), 4, i);
    }
  }

  method AppendChunk(out: bytes, value: bytes) returns (r: bytes)
    ensures r == out + Chunk(value)
  {
    r := out + BE(LengthPrefix(|value|), 4);
    r := r + value;
    assert out + BE(LengthPrefix(|value|), 4) + value == out + Chunk(value);
  }

  function Concat(values: seq<bytes>): bytes {
    if values == [] then [] else Chunk(values[0]) + Concat(values[1..])
  }

  predicate Fits(values: seq<bytes>) {
    forall i :: 0 <= i < |values| ==> |values[i]| < U32_LIMIT
  }

  /** A first chunk of encodable length can be read off unambiguously. */
  lemma FirstChunk(v: bytes, w: bytes, x: bytes, y: bytes)
    requires |v| < U32_LIMIT && |w| < U32_LIMIT
    requires Chunk(v) + x == Chunk(w) + y
    ensures v == w && x == y
  {
    Widths();
    assert (Chunk(v) + x)[..4] == BE(|v|, 4);
    assert (Chunk(w) + y)[..4] == BE(|w|, 4);
    BEInjective(|v|, |w|, 4);
    assert (Chunk(v) + x)[4..4 + |v|] == v && (Chunk(w) + y)[4..4 + |w|] == w;
    assert (Chunk(v) + x)[4 + |v|..] == x && (Chunk(w) + y)[4 + |w|..] == y;
  }

  /** Chunk lists are uniquely decodable, whatever their number. */
  lemma {:induction false} ConcatInjective(a: seq<bytes>, b: seq<bytes>)
    requires Fits(a) && Fits(b) && Concat(a) == Concat(b)
    ensures a == b
    decreases |a|
  {
    if a != [] && b != [] {
      FirstChunk(a[0], b[0], Concat(a[1..]), Concat(b[1..]));
      ConcatInjective(a[1..], b[1..]);
      assert a == [a[0]] + a[1..] && b == [b[0]] + b[1..];
    }
  }

  /** Messages with different encodable first chunks differ. */
  lemma TagsSeparate(t: bytes, u: bytes, a: seq<bytes>, b: seq<bytes>)
    requires |t| < U32_LIMIT && |u| < U32_LIMIT && t != u
    ensures Concat([t] + a) != Concat([u] + b)
  {
    assert ([t] + a)[1..] == a && ([u] + b)[1..] == b;
    if Concat([t] + a) == Concat([u] + b) {
      FirstChunk(t, u, Concat(a), Concat(b));
    }
  }

  lemma {:induction false} ConcatSum(a: seq<bytes>, b: seq<bytes>)
    ensures Concat(a + b) == Concat(a) + Concat(b)
  {
    if a == [] {
      assert a + b == b;
    } else {
      assert (a + b)[1..] == a[1..] + b;
      ConcatSum(a[1..], b);
    }
  }

  /** One more chunk at the end, as the source's buffers grow. */
  lemma ConcatAppend(a: seq<bytes>, v: bytes)
    ensures Concat(a + [v]) == Concat(a) + Chunk(v)
  {
    ConcatSum(a, [v]);
    assert [v][1..] == [];
    assert Concat([v]) == Chunk(v) + [];
  }

  /** Reading a chunk list back. */
  function Parse(b: bytes): Option<seq<bytes>>
    decreases |b|
  {
    if b == [] then Some([])
    else if |b| < 4 || 4 + FromBE(b[..4]) > |b| then None
    else
      var n := 4 + FromBE(b[..4]);
      match Parse(b[n..])
      case None => None
      case Some(rest) => Some([b[4..n]] + rest)
  }

  lemma {:induction false} ParseConcat(values: seq<bytes>)
    requires Fits(values)
    ensures Parse(Concat(values)) == Some(values)
  {
    if values != [] {
      var v, rest := values[0], Concat(values[1..]);
      ParseConcat(values[1..]);
      ParseFirst(v, rest);
      assert values == [v] + values[1..];
    }
  }

  lemma ParseFirst(v: bytes, rest: bytes)
    requires |v| < U32_LIMIT && Parse(rest).Some?
    ensures Parse(Chunk(v) + rest) == Some([v] + Parse(rest).value)
  {
    hide BE, FromBE;
    var b := Chunk(v) + rest;
    Widths();
    BERoundTrip(|v|, 4);
    assert b[..4] == BE(|v|, 4) && b[4..4 + |v|] == v && b[4 + |v|..] == rest;
  }

  // ---- Two's complement ----

  predicate IsI64(x: int) {
    -0x8000_0000_0000_0000 <= x < 0x8000_0000_0000_0000
  }

  function Unsigned(x: int): (n: nat)
    requires IsI64(x)
    ensures n < U64_LIMIT
  {
    if x >= 0 then x else x + U64_LIMIT
  }

  lemma I64BytesInjective(x: int, y: int)
    requires IsI64(x) && IsI64(y) && BE(Unsigned(x), 8) == BE(Unsigned(y), 8)
    ensures x == y
  {
    Widths();
    BEInjective(Unsigned(x), Unsigned(y), 8);
  }

  function Signed(n: nat): int {
    if n < 0x8000_0000_0000_0000 then n else n - U64_LIMIT
  }

  lemma I64RoundTrip(x: int)
    requires IsI64(x)
    ensures Signed(FromBE(BE(Unsigned(x), 8))) == x
  {
    Widths();
    BERoundTrip(Unsigned(x), 8);
  }
}
