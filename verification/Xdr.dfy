/**
 The XDR primitives of RFC 4506 that the authorization preimage is built from: an encoder and a
 strict decoder for each, inverse in both directions.
 */
module Xdr {
  import opened Bytes

  /** What a decoder returns: a value and the bytes after it, or a refusal. */
  datatype Parsed<+T> = Bad | Got(value: T, rest: seq<byte>)

  /** Variable-length data carries a 32-bit length (sections 4.10, 4.11 and 4.13). */
  type VarOpaque = s: seq<byte> | |s| < 0x1_0000_0000

  /** Unsigned integer (section 4.2): four bytes, most significant first. */
  function EncU32(n: u32): (r: seq<byte>)
    ensures |r| == 4
  {
    [n / 256 / 256 / 256, n / 256 / 256 % 256, n / 256 % 256, n % 256]
  }

  /** One step of reading a big-endian number. */
  function Shift(high: nat, low: byte): (n: nat)
    ensures n / 256 == high && n % 256 == low
  {
    high * 256 + low
  }

  function DecU32(b: seq<byte>): (r: Parsed<u32>)
    ensures r.Got? ==> |r.rest| < |b|
  {
    if |b| < 4 then Bad
    else
      var n2 := Shift(b[0], b[1]);
      var n3 := Shift(n2, b[2]);
      Got(Shift(n3, b[3]), b[4..])
  }

  lemma DecEncU32(n: u32, rest: seq<byte>)
    ensures DecU32(EncU32(n) + rest) == Got(n, rest)
  {
    assert (EncU32(n) + rest)[4..] == rest;
  }

  /** Unsigned hyper integer (section 4.5). */
  function EncU64(n: u64): (r: seq<byte>)
    ensures |r| == 8
  {
    EncU32(n / 0x1_0000_0000) + EncU32(n % 0x1_0000_0000)
  }

  function Join(hi: u32, lo: u32): (n: u64)
    ensures n / 0x1_0000_0000 == hi && n % 0x1_0000_0000 == lo
  {
    hi * 0x1_0000_0000 + lo
  }

  function DecU64(b: seq<byte>): (r: Parsed<u64>)
    ensures r.Got? ==> |r.rest| < |b|
  {
    match DecU32(b)
    case Bad => Bad
    case Got(hi, b1) =>
      match DecU32(b1)
      case Bad => Bad
      case Got(lo, b2) =>
        Got(Join(hi, lo), b2)
  }

  lemma DecEncU64(n: u64, rest: seq<byte>)
    ensures DecU64(EncU64(n) + rest) == Got(n, rest)
  {
    hide EncU32, DecU32;
    var hi, lo := n / 0x1_0000_0000, n % 0x1_0000_0000;
    assert EncU64(n) + rest == EncU32(hi) + (EncU32(lo) + rest);
    DecEncU32(hi, EncU32(lo) + rest);
    DecEncU32(lo, rest);
  }

  /** Integer (section 4.1): two's complement. */
  function EncI32(n: i32): (r: seq<byte>)
    ensures |r| == 4
  {
    EncU32(if n < 0 then n + 0x1_0000_0000 else n)
  }

  function DecI32(b: seq<byte>): (r: Parsed<i32>)
    ensures r.Got? ==> |r.rest| < |b|
  {
    match DecU32(b)
    case Bad => Bad
    case Got(u, b1) => Got(if u >= 0x8000_0000 then u - 0x1_0000_0000 else u, b1)
  }

  lemma DecEncI32(n: i32, rest: seq<byte>)
    ensures DecI32(EncI32(n) + rest) == Got(n, rest)
  {
    DecEncU32(if n < 0 then n + 0x1_0000_0000 else n, rest);
  }

  /** Hyper integer (section 4.5): two's complement. */
  function EncI64(n: i64): (r: seq<byte>)
    ensures |r| == 8
  {
    EncU64(if n < 0 then n + 0x1_0000_0000_0000_0000 else n)
  }

  function DecI64(b: seq<byte>): (r: Parsed<i64>)
    ensures r.Got? ==> |r.rest| < |b|
  {
    match DecU64(b)
    case Bad => Bad
    case Got(u, b1) =>
      Got(if u >= 0x8000_0000_0000_0000 then u - 0x1_0000_0000_0000_0000 else u, b1)
  }

  lemma DecEncI64(n: i64, rest: seq<byte>)
    ensures DecI64(EncI64(n) + rest) == Got(n, rest)
  {
    DecEncU64(if n < 0 then n + 0x1_0000_0000_0000_0000 else n, rest);
  }

  /** Fixed-length opaque data of 32 bytes (section 4.9): already a multiple of four. */
  function DecDigest(b: seq<byte>): (r: Parsed<Digest>)
    ensures r.Got? ==> |r.rest| < |b|
  {
    if |b| < 32 then Bad else Got(b[..32], b[32..])
  }

  lemma DecEncDigest(d: Digest, rest: seq<byte>)
    ensures DecDigest(d + rest) == Got(d, rest)
  {
    assert (d + rest)[..32] == d && (d + rest)[32..] == rest;
  }

  /** The residual bytes that make a length a multiple of four (section 3). */
  function Pad(n: nat): (p: nat)
    ensures p < 4 && (n + p) % 4 == 0
  {
    (4 - n % 4) % 4
  }

  /** Variable-length opaque data and strings (sections 4.10 and 4.11): length, bytes, zero padding. */
  function EncOpaque(s: VarOpaque): (r: seq<byte>)
    ensures |r| == 4 + |s| + Pad(|s|)
  {
    EncU32(|s|) + s + Zeros(Pad(|s|))
  }

  function DecOpaque(b: seq<byte>): (r: Parsed<VarOpaque>)
    ensures r.Got? ==> |r.rest| < |b|
  {
    match DecU32(b)
    case Bad => Bad
    case Got(n, b1) =>
      var end := n + Pad(n);
      if |b1| < end || b1[n..end] != Zeros(Pad(n)) then Bad
      else Got(b1[..n], b1[end..])
  }

  lemma DecEncOpaque(s: VarOpaque, rest: seq<byte>)
    ensures DecOpaque(EncOpaque(s) + rest) == Got(s, rest)
  {
    var n, pad := |s|, Zeros(Pad(|s|));
    var b1 := s + pad + rest;
    assert EncOpaque(s) + rest == EncU32(n) + b1;
    DecEncU32(n, b1);
    assert b1[..n] == s && b1[n..n + |pad|] == pad && b1[n + |pad|..] == rest;
  }

  // ---- Each decoder accepts only the encoding of the value it returns ------------------------

  lemma DecU32Sound(b: seq<byte>)
    ensures var r := DecU32(b); r.Got? ==> b == EncU32(r.value) + r.rest
  {
  }

  lemma DecU64Sound(b: seq<byte>)
    ensures var r := DecU64(b); r.Got? ==> b == EncU64(r.value) + r.rest
  {
    hide EncU32, DecU32;
    DecU32Sound(b);
    var hi := DecU32(b);
    if hi.Got? {
      DecU32Sound(hi.rest);
      var lo := DecU32(hi.rest);
      if lo.Got? {
        assert EncU32(hi.value) + (EncU32(lo.value) + lo.rest) == (EncU32(hi.value) + EncU32(lo.value)) + lo.rest;
      }
    }
  }

  lemma DecI32Sound(b: seq<byte>)
    ensures var r := DecI32(b); r.Got? ==> b == EncI32(r.value) + r.rest
  {
    hide EncU32, DecU32;
    DecU32Sound(b);
  }

  lemma DecI64Sound(b: seq<byte>)
    ensures var r := DecI64(b); r.Got? ==> b == EncI64(r.value) + r.rest
  {
    hide EncU64, DecU64;
    DecU64Sound(b);
  }

  lemma DecOpaqueSound(b: seq<byte>)
    ensures var r := DecOpaque(b); r.Got? ==> b == EncOpaque(r.value) + r.rest
  {
    hide EncU32, DecU32;
    DecU32Sound(b);
    var n := DecU32(b);
    var r := DecOpaque(b);
    if r.Got? {
      var end := n.value + Pad(n.value);
      var b1 := n.rest;
      assert b1 == b1[..n.value] + b1[n.value..end] + b1[end..];
      assert EncOpaque(r.value) + r.rest == EncU32(n.value) + (r.value + Zeros(Pad(n.value)) + r.rest);
    }
  }

  lemma PrimitivesSound()
    ensures forall b :: DecU32(b).Got? ==> b == EncU32(DecU32(b).value) + DecU32(b).rest
    ensures forall b :: DecI32(b).Got? ==> b == EncI32(DecI32(b).value) + DecI32(b).rest
    ensures forall b :: DecU64(b).Got? ==> b == EncU64(DecU64(b).value) + DecU64(b).rest
    ensures forall b :: DecI64(b).Got? ==> b == EncI64(DecI64(b).value) + DecI64(b).rest
    ensures forall b :: DecOpaque(b).Got? ==> b == EncOpaque(DecOpaque(b).value) + DecOpaque(b).rest
    ensures forall b :: DecDigest(b).Got? ==> b == DecDigest(b).value + DecDigest(b).rest
  {
    hide EncU32, DecU32, EncI32, DecI32, EncU64, DecU64, EncI64, DecI64, EncOpaque, DecOpaque;
    forall b: seq<byte> { DecU32Sound(b); }
    forall b: seq<byte> { DecI32Sound(b); }
    forall b: seq<byte> { DecU64Sound(b); }
    forall b: seq<byte> { DecI64Sound(b); }
    forall b: seq<byte> { DecOpaqueSound(b); }
  }
}
