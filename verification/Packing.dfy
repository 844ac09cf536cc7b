/**
 Bit packing as in section 7.1 of FIPS 204 (Algorithms 9 to 13 and 16 to 19). A list of numbers of
 one width and a string of bits determine each other; both directions of every conversion between
 coefficients and bytes are two uses of that fact.
 */
module Packing {
  import opened Bytes

  function Pow2(n: nat): (p: nat)
    ensures p > 0
  {
    if n == 0 then 1 else 2 * Pow2(n - 1)
  }

  /** IntegerToBits: the low `width` bits of `x`, least significant first. */
  function IntegerToBits(x: int, width: nat): (bits: seq<bool>)
    ensures |bits| == width
    decreases width
  {
    if width == 0 then [] else [x % 2 == 1] + IntegerToBits(x / 2, width - 1)
  }

  /** BitsToInteger. */
  function BitsToInteger(bits: seq<bool>): (x: nat)
    ensures x < Pow2(|bits|)
  {
    if bits == [] then 0 else (if bits[0] then 1 else 0) + 2 * BitsToInteger(bits[1..])
  }

  lemma {:induction false} IntegerBitsInteger(x: nat, width: nat)
    requires x < Pow2(width)
    ensures BitsToInteger(IntegerToBits(x, width)) == x
    decreases width
  {
    if width > 0 {
      IntegerBitsInteger(x / 2, width - 1);
      assert IntegerToBits(x, width)[1..] == IntegerToBits(x / 2, width - 1);
    }
  }

  lemma {:induction false} BitsIntegerBits(bits: seq<bool>)
    ensures IntegerToBits(BitsToInteger(bits), |bits|) == bits
  {
    if bits != [] {
      BitsIntegerBits(bits[1..]);
      assert bits == [bits[0]] + bits[1..];
    }
  }

  /** The bits of a list of numbers, `width` bits each. */
  function Spread(ns: seq<int>, width: nat): (bits: seq<bool>)
    ensures |bits| == |ns| * width
  {
    if ns == [] then [] else IntegerToBits(ns[0], width) + Spread(ns[1..], width)
  }

  /** The numbers that consecutive groups of `width` bits stand for. */
  function Chop(bits: seq<bool>, width: nat): (ns: seq<int>)
    requires width > 0
    ensures forall i :: 0 <= i < |ns| ==> 0 <= ns[i] < Pow2(width)
  {
    if |bits| < width then [] else [BitsToInteger(bits[..width])] + Chop(bits[width..], width)
  }

  lemma ChopCons(first: seq<bool>, rest: seq<bool>, width: nat)
    requires |first| == width > 0
    ensures Chop(first + rest, width) == [BitsToInteger(first)] + Chop(rest, width)
  {
    assert (first + rest)[..width] == first && (first + rest)[width..] == rest;
  }

  lemma {:induction false} ChopSpread(ns: seq<int>, width: nat)
    requires width > 0 && forall i :: 0 <= i < |ns| ==> 0 <= ns[i] < Pow2(width)
    ensures Chop(Spread(ns, width), width) == ns
  {
    hide Chop, BitsToInteger, IntegerToBits, Pow2;
    if ns == [] {
      ChopNothing(width);
    } else {
      ChopCons(IntegerToBits(ns[0], width), Spread(ns[1..], width), width);
      IntegerBitsInteger(ns[0], width);
      ChopSpread(ns[1..], width);
      assert ns == [ns[0]] + ns[1..];
    }
  }

  lemma ChopNothing(width: nat)
    requires width > 0
    ensures Chop([], width) == []
  {
  }

  lemma {:induction false} SpreadChop(bits: seq<bool>, width: nat, count: nat)
    requires width > 0 && |bits| == count * width
    ensures Spread(Chop(bits, width), width) == bits && |Chop(bits, width)| == count
  {
    hide IntegerToBits, BitsToInteger, Pow2;
    if count > 0 {
      assert |bits| == width + (count - 1) * width;
      SpreadChop(bits[width..], width, count - 1);
      BitsIntegerBits(bits[..width]);
      assert bits == bits[..width] + bits[width..];
      assert Chop(bits, width)[1..] == Chop(bits[width..], width);
    }
  }

  lemma PowersUsed()
    ensures Pow2(8) == 256 && Pow2(10) == 1024 && Pow2(17) == 131072 && Pow2(18) == 262144
    ensures Pow2(19) == 524288 && Pow2(20) == 1048576
  {
    assert Pow2(4) == 16;
    assert Pow2(8) == 256;
    assert Pow2(12) == 4096;
    assert Pow2(16) == 65536;
    assert Pow2(18) == 262144;
  }

  /** Coefficients per polynomial. */
  const N: nat := 256

  predicate Fitting(w: seq<int>, width: nat) {
    |w| == N && forall i :: 0 <= i < N ==> 0 <= w[i] < Pow2(width)
  }

  /** SimpleBitPack: 256 coefficients of `width` bits each, as 32 * `width` bytes. */
  function SimpleBitPack(w: seq<int>, width: nat): (bytes: seq<byte>)
    requires |w| == N
    ensures |bytes| == 32 * width
  {
    PowersUsed();
    SpreadChop(Spread(w, width), 8, 32 * width);
    var bytes := Chop(Spread(w, width), 8);
    assert forall i :: 0 <= i < |bytes| ==> 0 <= bytes[i] < 256;
    bytes
  }

  /** SimpleBitUnpack. */
  function SimpleBitUnpack(bytes: seq<byte>, width: nat): (w: seq<int>)
    requires width > 0 && |bytes| == 32 * width
    ensures Fitting(w, width)
  {
    SpreadChop(Spread(bytes, 8), width, N);
    Chop(Spread(bytes, 8), width)
  }

  lemma UnpackPack(w: seq<int>, width: nat)
    requires width > 0 && Fitting(w, width)
    ensures SimpleBitUnpack(SimpleBitPack(w, width), width) == w
  {
    var bits := Spread(w, width);
    SpreadChop(bits, 8, 32 * width);
    ChopSpread(w, width);
  }

  lemma PackUnpack(bytes: seq<byte>, width: nat)
    requires width > 0 && |bytes| == 32 * width
    ensures SimpleBitPack(SimpleBitUnpack(bytes, width), width) == bytes
  {
    PowersUsed();
    var bits := Spread(bytes, 8);
    SpreadChop(bits, width, N);
    ChopSpread(bytes, 8);
  }

  /** The number with these base-2^width digits, least significant first. */
  function Number(digits: seq<int>, width: nat): int {
    if digits == [] then 0 else digits[0] + Pow2(width) * Number(digits[1..], width)
  }

  lemma {:induction false} BitsOfConcat(a: seq<bool>, b: seq<bool>)
    ensures BitsToInteger(a + b) == BitsToInteger(a) + Pow2(|a|) * BitsToInteger(b)
  {
    if a == [] {
      assert a + b == b;
    } else {
      assert (a + b)[0] == a[0] && (a + b)[1..] == a[1..] + b;
      BitsOfConcat(a[1..], b);
      DoubleProduct(Pow2(|a| - 1), BitsToInteger(b));
    }
  }

  lemma DoubleProduct(p: int, q: int)
    ensures 2 * (p * q) == (2 * p) * q
  {
  }

  lemma {:induction false} SpreadNumber(ns: seq<int>, width: nat)
    requires forall i :: 0 <= i < |ns| ==> 0 <= ns[i] < Pow2(width)
    ensures BitsToInteger(Spread(ns, width)) == Number(ns, width)
  {
    hide IntegerToBits, BitsToInteger, Pow2;
    if ns == [] {
      NoBits();
    } else {
      BitsOfConcat(IntegerToBits(ns[0], width), Spread(ns[1..], width));
      IntegerBitsInteger(ns[0], width);
      SpreadNumber(ns[1..], width);
    }
  }

  lemma NoBits()
    ensures BitsToInteger([]) == 0
  {
  }

  /**
   What packing means, without reference to bits: the coefficients, read as base-2^width digits, and the
   bytes, read as base-256 digits, are the same number, least significant digit first.
   */
  lemma PackingKeepsTheNumber(w: seq<int>, width: nat)
    requires Fitting(w, width)
    ensures Number(SimpleBitPack(w, width), 8) == Number(w, width)
  {
    PowersUsed();
    var bits := Spread(w, width);
    SpreadChop(bits, 8, 32 * width);
    SpreadNumber(w, width);
    SpreadNumber(SimpleBitPack(w, width), 8);
  }

  /** Read back likewise: the coefficients are the base-2^width digits of the number the bytes stand for. */
  lemma UnpackingKeepsTheNumber(bytes: seq<byte>, width: nat)
    requires width > 0 && |bytes| == 32 * width
    ensures Number(SimpleBitUnpack(bytes, width), width) == Number(bytes, 8)
  {
    PackUnpack(bytes, width);
    PackingKeepsTheNumber(SimpleBitUnpack(bytes, width), width);
  }

  /** Digit `j` of a number in base 2^width, counted from the least significant. */
  function Digit(x: int, width: nat, j: nat): int
    decreases j
  {
    if j == 0 then x % Pow2(width) else Digit(x / Pow2(width), width, j - 1)
  }

  lemma {:induction false} DigitOfNumber(digits: seq<int>, width: nat, j: nat)
    requires j < |digits| && forall i :: 0 <= i < |digits| ==> 0 <= digits[i] < Pow2(width)
    ensures Digit(Number(digits, width), width, j) == digits[j]
  {
    DivideOut(digits[0], Pow2(width), Number(digits[1..], width));
    if j > 0 { DigitOfNumber(digits[1..], width, j - 1); }
  }

  lemma DivideOut(r: int, d: int, q: int)
    requires 0 <= r < d
    ensures (r + d * q) % d == r && (r + d * q) / d == q
  {
    QuotientUnique(d, q, r, (r + d * q) / d, (r + d * q) % d);
  }

  lemma QuotientUnique(d: int, q1: int, r1: int, q2: int, r2: int)
    requires 0 <= r1 < d && 0 <= r2 < d && r1 + d * q1 == d * q2 + r2
    ensures q1 == q2 && r1 == r2
  {
    assert d * (q1 - q2) == d * q1 - d * q2 && d * (q2 - q1) == d * q2 - d * q1;
    if q1 > q2 {
      AtLeastOnce(d, q1 - q2);
    } else if q1 < q2 {
      AtLeastOnce(d, q2 - q1);
    }
  }

  lemma AtLeastOnce(d: int, k: int)
    requires d > 0 && k > 0
    ensures d * k >= d
  {
  }

  /** Coefficient `j` is digit `j`, whichever way one comes. */
  lemma PackedDigit(w: seq<int>, width: nat, j: nat)
    requires Fitting(w, width) && j < N
    ensures Digit(Number(SimpleBitPack(w, width), 8), width, j) == w[j]
  {
    PackingKeepsTheNumber(w, width);
    DigitOfNumber(w, width, j);
  }

  lemma UnpackedDigit(bytes: seq<byte>, width: nat, j: nat)
    requires width > 0 && |bytes| == 32 * width && j < N
    ensures SimpleBitUnpack(bytes, width)[j] == Digit(Number(bytes, 8), width, j)
  {
    UnpackingKeepsTheNumber(bytes, width);
    DigitOfNumber(SimpleBitUnpack(bytes, width), width, j);
  }

  /** Least significant first, on one example with bytes and one with coefficients. */
  lemma NumbersAreLittleEndian()
    ensures Number([1, 2, 3], 8) == 0x030201 && Number([1, 2], 10) == 2049
    ensures Digit(0x030201, 8, 0) == 1 && Digit(0x030201, 8, 2) == 3
  {
    PowersUsed();
    assert [1, 2, 3][1..] == [2, 3] && [2, 3][1..] == [3] && [3][1..] == [];
    assert [1, 2][1..] == [2] && [2][1..] == [];
  }

  // ---- Vectors of polynomials: each packed on its own, then concatenated --------------------

  predicate AllFitting(ws: seq<seq<int>>, width: nat) {
    forall i :: 0 <= i < |ws| ==> Fitting(ws[i], width)
  }

  predicate AllPolys(ws: seq<seq<int>>) {
    forall i :: 0 <= i < |ws| ==> |ws[i]| == N
  }

  /** The bytes that `count` polynomials take. */
  function VectorLen(count: nat, width: nat): nat {
    if count == 0 then 0 else 32 * width + VectorLen(count - 1, width)
  }

  function PackVector(ws: seq<seq<int>>, width: nat): (bytes: seq<byte>)
    requires AllPolys(ws)
    ensures |bytes| == VectorLen(|ws|, width)
  {
    if ws == [] then [] else SimpleBitPack(ws[0], width) + PackVector(ws[1..], width)
  }

  function UnpackVector(bytes: seq<byte>, width: nat, count: nat): (ws: seq<seq<int>>)
    requires width > 0 && |bytes| == VectorLen(count, width)
    ensures |ws| == count && AllFitting(ws, width) && AllPolys(ws)
  {
    if count == 0 then []
    else [SimpleBitUnpack(bytes[..32 * width], width)] + UnpackVector(bytes[32 * width..], width, count - 1)
  }

  lemma {:induction false} UnpackPackVector(ws: seq<seq<int>>, width: nat)
    requires width > 0 && AllPolys(ws) && AllFitting(ws, width)
    ensures UnpackVector(PackVector(ws, width), width, |ws|) == ws
  {
    hide SimpleBitPack, SimpleBitUnpack, Fitting;
    if ws != [] {
      var first, rest := SimpleBitPack(ws[0], width), PackVector(ws[1..], width);
      assert PackVector(ws, width) == first + rest;
      assert (first + rest)[..32 * width] == first && (first + rest)[32 * width..] == rest;
      UnpackPack(ws[0], width);
      UnpackPackVector(ws[1..], width);
      assert ws == [ws[0]] + ws[1..];
    }
  }

  lemma {:induction false} PackUnpackVector(bytes: seq<byte>, width: nat, count: nat)
    requires width > 0 && |bytes| == VectorLen(count, width)
    ensures PackVector(UnpackVector(bytes, width, count), width) == bytes
  {
    hide SimpleBitPack, SimpleBitUnpack, Fitting;
    if count > 0 {
      var ws := UnpackVector(bytes, width, count);
      assert ws[1..] == UnpackVector(bytes[32 * width..], width, count - 1);
      PackUnpack(bytes[..32 * width], width);
      PackUnpackVector(bytes[32 * width..], width, count - 1);
      assert bytes == bytes[..32 * width] + bytes[32 * width..];
    } else {
      assert bytes == [];
    }
  }

  /** The widths in use, as byte counts. */
  lemma VectorLens(count: nat)
    ensures VectorLen(count, 10) == 320 * count
    ensures VectorLen(count, 18) == 576 * count
    ensures VectorLen(count, 20) == 640 * count
  {
  }

  /** The packed polynomials follow one another in order. */
  lemma {:induction false} PackedAt(ws: seq<seq<int>>, width: nat, i: nat)
    requires i < |ws| && AllPolys(ws)
    ensures VectorLen(i, width) + 32 * width == VectorLen(i + 1, width) <= VectorLen(|ws|, width)
    ensures PackVector(ws, width)[VectorLen(i, width)..VectorLen(i + 1, width)] == SimpleBitPack(ws[i], width)
  {
    hide SimpleBitPack;
    var bytes, rest := PackVector(ws, width), PackVector(ws[1..], width);
    assert bytes == SimpleBitPack(ws[0], width) + rest;
    if i > 0 {
      PackedAt(ws[1..], width, i - 1);
      assert bytes[VectorLen(i, width)..VectorLen(i + 1, width)] == rest[VectorLen(i - 1, width)..VectorLen(i, width)];
    }
  }

  lemma SliceOfSlice(bytes: seq<byte>, start: nat, end: nat, lo: nat, hi: nat)
    requires start <= end <= |bytes| && lo <= hi <= end - start
    ensures bytes[start..end][lo..hi] == bytes[start + lo..start + hi]
  {
    var inner, outer := bytes[start..end][lo..hi], bytes[start + lo..start + hi];
    assert forall k :: 0 <= k < hi - lo ==> inner[k] == outer[k];
  }

  lemma {:induction false} UnpackedAt(bytes: seq<byte>, width: nat, count: nat, i: nat)
    requires width > 0 && |bytes| == VectorLen(count, width) && i < count
    ensures VectorLen(i, width) + 32 * width == VectorLen(i + 1, width) <= VectorLen(count, width)
    ensures UnpackVector(bytes, width, count)[i] ==
            SimpleBitUnpack(bytes[VectorLen(i, width)..VectorLen(i + 1, width)], width)
  {
    hide SimpleBitUnpack;
    if i > 0 {
      var rest := bytes[32 * width..];
      UnpackedAt(rest, width, count - 1, i - 1);
      SliceOfSlice(bytes, 32 * width, |bytes|, VectorLen(i - 1, width), VectorLen(i, width));
      assert bytes[32 * width..|bytes|] == rest;
      assert UnpackVector(bytes, width, count)[i] == UnpackVector(rest, width, count - 1)[i - 1];
    } else {
      assert VectorLen(1, width) == 32 * width;
    }
  }
}
