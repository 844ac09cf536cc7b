/**
 Hint packing as in section 7.1 of FIPS 204 (Algorithms 20 and 21). The positions of the ones of each
 hint polynomial, in increasing order, fill the first `omega` bytes; one running count per polynomial
 follows; the unused position bytes are zero.
 */
module Hints {
  import opened Wrappers
  import opened Bytes

  /** The coefficients of one hint polynomial. */
  type Hint = h: seq<bool> | |h| == 256 witness seq(256, _ => false)

  /** The positions from `j` on at which `h` is one. */
  function Positions(h: Hint, j: nat): (row: seq<byte>)
    requires j <= 256
    ensures Increasing(row)
    ensures forall x: byte :: x in row <==> j <= x && h[x]
    decreases 256 - j
  {
    if j == 256 then []
    else
      var rest := Positions(h, j + 1);
      assert forall i :: 0 <= i < |rest| ==> rest[i] in rest;
      if h[j] then assert forall x: byte :: x in [j] + rest <==> x == j || x in rest; [j] + rest
      else rest
  }

  predicate Increasing(row: seq<byte>) {
    forall i, j :: 0 <= i < j < |row| ==> row[i] < row[j]
  }

  function AtPositions(row: seq<byte>): Hint {
    seq(256, x => x in row)
  }

  lemma AtPositionsOf(h: Hint)
    ensures AtPositions(Positions(h, 0)) == h
  {
  }

  /** An increasing row is the only one that lists its own elements in order. */
  lemma {:induction false} IncreasingRowsUnique(a: seq<byte>, b: seq<byte>)
    requires Increasing(a) && Increasing(b)
    requires forall x: byte :: x in a <==> x in b
    ensures a == b
  {
    assert a != [] ==> a[0] in b;
    assert b != [] ==> b[0] in a;
    if a != [] {
      assert a[0] == b[0];
      forall x: byte
        ensures x in a[1..] <==> x in b[1..]
      {
        assert x in a[1..] <==> x in a && x != a[0] by { Tail(a, x); }
        assert x in b[1..] <==> x in b && x != b[0] by { Tail(b, x); }
      }
      IncreasingRowsUnique(a[1..], b[1..]);
      assert a == [a[0]] + a[1..] && b == [b[0]] + b[1..];
    }
  }

  lemma Tail(a: seq<byte>, x: byte)
    requires a != [] && Increasing(a)
    ensures x in a[1..] <==> x in a && x != a[0]
  {
  }

  lemma PositionsAt(row: seq<byte>)
    requires Increasing(row)
    ensures Positions(AtPositions(row), 0) == row
  {
    IncreasingRowsUnique(Positions(AtPositions(row), 0), row);
  }

  // ---- Whole hint vectors -------------------------------------------------------------------

  /** The position bytes that are in use. */
  function AllPositions(hs: seq<Hint>): seq<byte> {
    if hs == [] then [] else Positions(hs[0], 0) + AllPositions(hs[1..])
  }

  /** The number of ones in a hint vector. */
  function Weight(hs: seq<Hint>): nat {
    |AllPositions(hs)|
  }

  /** The running counts, starting from `index` positions already written. */
  function Counts(hs: seq<Hint>, index: nat): (cs: seq<byte>)
    requires index + Weight(hs) < 256
    ensures |cs| == |hs|
  {
    if hs == [] then []
    else
      var end := index + |Positions(hs[0], 0)|;
      [end] + Counts(hs[1..], end)
  }

  /** HintBitPack (Algorithm 20). */
  function HintBitPack(hs: seq<Hint>, omega: nat): (y: seq<byte>)
    requires Weight(hs) <= omega < 256
    ensures |y| == omega + |hs|
  {
    AllPositions(hs) + Zeros(omega - Weight(hs)) + Counts(hs, 0)
  }

  /** The loop of HintBitUnpack from polynomial `i` on, with `index` positions consumed. */
  function UnpackFrom(y: seq<byte>, omega: nat, i: nat, index: nat): (r: Option<seq<Hint>>)
    requires index <= omega && omega + i <= |y|
    ensures r.Some? ==> |r.value| == |y| - omega - i
    decreases |y| - i
  {
    if omega + i == |y| then
      if y[index..omega] == Zeros(omega - index) then Some([]) else None
    else
      var end := y[omega + i];
      if end < index || end > omega || !Increasing(y[index..end]) then None
      else
        match UnpackFrom(y, omega, i + 1, end)
        case None => None
        case Some(hs) => Some([AtPositions(y[index..end])] + hs)
  }

  /** HintBitUnpack (Algorithm 21). */
  function HintBitUnpack(y: seq<byte>, omega: nat): (r: Option<seq<Hint>>)
    requires omega <= |y|
    ensures r.Some? ==> |r.value| == |y| - omega
  {
    UnpackFrom(y, omega, 0, 0)
  }

  lemma {:induction false} UnpackFromSound(y: seq<byte>, omega: nat, i: nat, index: nat)
    requires index <= omega < 256 && omega + i <= |y|
    requires UnpackFrom(y, omega, i, index).Some?
    ensures var hs := UnpackFrom(y, omega, i, index).value;
      && index + Weight(hs) <= omega
      && y[index..omega] == AllPositions(hs) + Zeros(omega - index - Weight(hs))
      && y[omega + i..] == Counts(hs, index)
    decreases |y| - i
  {
    hide Increasing, Positions, AtPositions;
    if omega + i < |y| {
      var end := y[omega + i];
      var row := y[index..end];
      var rest := UnpackFrom(y, omega, i + 1, end).value;
      UnpackFromSound(y, omega, i + 1, end);
      PositionsAt(row);
      var hs := [AtPositions(row)] + rest;
      assert hs[0] == AtPositions(row) && hs[1..] == rest;
      assert AllPositions(hs) == row + AllPositions(rest);
      var filler := Zeros(omega - end - Weight(rest));
      assert y[index..omega] == row + y[end..omega];
      Regroup(row, AllPositions(rest), filler);
      assert y[omega + i..] == [end] + y[omega + i + 1..];
    }
  }

  lemma HeadAndRest(y: seq<byte>, k: nat, first: byte, rest: seq<byte>)
    requires k <= |y| && y[k..] == [first] + rest
    ensures k < |y| && y[k] == first && y[k + 1..] == rest
  {
    assert y[k] == y[k..][0] && y[k + 1..] == y[k..][1..];
  }

  lemma Regroup(a: seq<byte>, b: seq<byte>, c: seq<byte>)
    ensures (a + b) + c == a + (b + c)
  {
  }

  lemma SplitSlice(y: seq<byte>, lo: nat, hi: nat, front: seq<byte>, back: seq<byte>)
    requires lo <= hi <= |y| && y[lo..hi] == front + back
    ensures y[lo..lo + |front|] == front && y[lo + |front|..hi] == back
  {
    assert y[lo..lo + |front|] == y[lo..hi][..|front|];
    assert y[lo + |front|..hi] == y[lo..hi][|front|..];
  }

  lemma {:induction false} UnpackFromComplete(y: seq<byte>, omega: nat, i: nat, index: nat, hs: seq<Hint>)
    requires index + Weight(hs) <= omega < 256 && omega + i <= |y|
    requires y[index..omega] == AllPositions(hs) + Zeros(omega - index - Weight(hs))
    requires y[omega + i..] == Counts(hs, index)
    ensures UnpackFrom(y, omega, i, index) == Some(hs)
    decreases hs
  {
    hide Increasing, Positions, AtPositions;
    if hs == [] {
      assert y[index..omega] == Zeros(omega - index);
    } else {
      var row := Positions(hs[0], 0);
      var end := index + |row|;
      HeadAndRest(y, omega + i, end, Counts(hs[1..], end));
      var rest, filler := AllPositions(hs[1..]), Zeros(omega - end - Weight(hs[1..]));
      Regroup(row, rest, filler);
      SplitSlice(y, index, omega, row, rest + filler);
      UnpackFromComplete(y, omega, i + 1, end, hs[1..]);
      AtPositionsOf(hs[0]);
      assert hs == [hs[0]] + hs[1..];
    }
  }

  lemma {:induction false} FillerCheckedFrom(y: seq<byte>, omega: nat, i: nat, index: nat, t: nat)
    requires index <= t < omega && omega + i <= |y| && y[t] != 0
    requires forall j :: omega <= j < |y| ==> y[j] <= t
    ensures UnpackFrom(y, omega, i, index) == None
    decreases |y| - i
  {
    hide Increasing, AtPositions;
    if omega + i == |y| {
      assert y[index..omega][t - index] != 0;
    } else if y[omega + i] >= index {
      FillerCheckedFrom(y, omega, i + 1, y[omega + i], t);
    }
  }

  /** A nonzero position byte that no count reaches makes the hint bytes malformed. */
  lemma FillerIsChecked(y: seq<byte>, omega: nat, t: nat)
    requires t < omega <= |y| && y[t] != 0
    requires forall j :: omega <= j < |y| ==> y[j] <= t
    ensures HintBitUnpack(y, omega) == None
  {
    FillerCheckedFrom(y, omega, 0, 0, t);
  }

  /**
   Unpacking accepts exactly the packed form of a hint vector within the weight limit: every malformed
   string, with positions out of order, counts that decrease or exceed the limit, or a nonzero filler,
   is refused.
   */
  lemma HintsCanonical(y: seq<byte>, omega: nat, hs: seq<Hint>)
    requires omega < 256 && |y| == omega + |hs|
    ensures HintBitUnpack(y, omega) == Some(hs) <==> Weight(hs) <= omega && y == HintBitPack(hs, omega)
  {
    if HintBitUnpack(y, omega) == Some(hs) {
      UnpackFromSound(y, omega, 0, 0);
      assert y == y[..omega] + y[omega..];
    }
    if Weight(hs) <= omega && y == HintBitPack(hs, omega) {
      assert y[0..omega] == AllPositions(hs) + Zeros(omega - Weight(hs));
      assert y[omega..] == Counts(hs, 0);
      UnpackFromComplete(y, omega, 0, 0, hs);
    }
  }

  // ---- The layout of packed hints --------------------------------------------------------------

  /** Where the positions of polynomial `i` begin. */
  function RowStart(y: seq<byte>, omega: nat, i: nat): nat
    requires omega + i <= |y|
  {
    if i == 0 then 0 else y[omega + i - 1]
  }

  lemma {:induction false} WeightGrows(hs: seq<Hint>, i: nat)
    requires i < |hs|
    ensures Weight(hs[..i]) + |Positions(hs[i], 0)| == Weight(hs[..i + 1]) <= Weight(hs)
  {
    hide Positions;
    assert hs[..i + 1][1..] == hs[1..][..i] && hs[..i + 1][0] == hs[0];
    if i == 0 {
      assert hs[..0] == [] && hs[..1][1..] == [];
    } else {
      WeightGrows(hs[1..], i - 1);
      assert hs[..i][1..] == hs[1..][..i - 1] && hs[..i][0] == hs[0];
    }
  }

  lemma {:induction false} CountsAccumulate(hs: seq<Hint>, index: nat, i: nat)
    requires index + Weight(hs) < 256 && i < |hs|
    ensures Counts(hs, index)[i] == index + Weight(hs[..i + 1])
  {
    hide Positions;
    assert hs[..i + 1][1..] == hs[1..][..i] && hs[..i + 1][0] == hs[0];
    if i == 0 {
      NoWeight(hs[..1][1..]);
    } else {
      CountsAccumulate(hs[1..], index + |Positions(hs[0], 0)|, i - 1);
    }
  }

  lemma {:induction false} RowsInOrder(hs: seq<Hint>, i: nat)
    requires i < |hs|
    ensures Weight(hs[..i]) + |Positions(hs[i], 0)| <= Weight(hs)
    ensures AllPositions(hs)[Weight(hs[..i])..Weight(hs[..i]) + |Positions(hs[i], 0)|] == Positions(hs[i], 0)
  {
    hide Positions;
    if i == 0 {
      assert hs[..0] == [];
    } else {
      var row, rest := Positions(hs[0], 0), AllPositions(hs[1..]);
      RowsInOrder(hs[1..], i - 1);
      assert hs[..i][1..] == hs[1..][..i - 1] && hs[..i][0] == hs[0];
      var start := Weight(hs[1..][..i - 1]);
      SliceBehind(row, rest, start, start + |Positions(hs[i], 0)|);
    }
  }

  lemma SliceBehind(front: seq<byte>, back: seq<byte>, lo: nat, hi: nat)
    requires lo <= hi <= |back|
    ensures (front + back)[|front| + lo..|front| + hi] == back[lo..hi]
  {
  }

  /** What HintBitPack puts where, in terms of the weights of the first polynomials. */
  lemma PackedHints(hs: seq<Hint>, omega: nat, i: nat)
    requires Weight(hs) <= omega < 256 && i < |hs|
    ensures var y := HintBitPack(hs, omega);
      && RowStart(y, omega, i) == Weight(hs[..i]) && y[omega + i] == Weight(hs[..i + 1]) <= omega
      && Weight(hs[..i]) + |Positions(hs[i], 0)| == Weight(hs[..i + 1])
      && y[Weight(hs[..i])..Weight(hs[..i + 1])] == Positions(hs[i], 0)
  {
    hide Positions, AllPositions, Counts;
    var y := HintBitPack(hs, omega);
    WeightGrows(hs, i);
    CountsAccumulate(hs, 0, i);
    RowsInOrder(hs, i);
    if i > 0 { CountsAccumulate(hs, 0, i - 1); } else { NoWeight(hs[..0]); }
    assert y[omega..] == Counts(hs, 0);
    assert y[omega + i] == y[omega..][i] && (i > 0 ==> y[omega + i - 1] == y[omega..][i - 1]);
  }

  lemma NoWeight(hs: seq<Hint>)
    requires hs == []
    ensures Weight(hs) == 0
  {
  }

  lemma FillerIsZero(hs: seq<Hint>, omega: nat, t: nat)
    requires Weight(hs) <= omega < 256 && Weight(hs) <= t < omega
    ensures HintBitPack(hs, omega)[t] == 0
  {
    hide AllPositions, Counts;
  }

  /**
   Byte `omega + i` tells where the positions of polynomial `i` end. They begin where those before it
   ended, and are exactly the places of its ones, in increasing order. The position bytes behind the last
   one are zero.
   */
  lemma HintLayout(hs: seq<Hint>, omega: nat, i: nat)
    requires Weight(hs) <= omega < 256 && i < |hs|
    ensures var y := HintBitPack(hs, omega);
      var start, end := RowStart(y, omega, i), y[omega + i] as int;
      && start <= end <= omega
      && (forall x: byte :: x in y[start..end] <==> hs[i][x])
      && (forall s, t :: start <= s < t < end ==> y[s] < y[t])
      && (forall t :: y[|y| - 1] <= t < omega ==> y[t] == 0)
  {
    hide Positions, AllPositions, Counts;
    var y := HintBitPack(hs, omega);
    PackedHints(hs, omega, i);
    PackedHints(hs, omega, |hs| - 1);
    assert hs[..|hs|] == hs;
    forall t | Weight(hs) <= t < omega
      ensures y[t] == 0
    {
      FillerIsZero(hs, omega, t);
    }
    hide HintBitPack;
    var row := Positions(hs[i], 0);
    var start := Weight(hs[..i]);
    assert forall s :: start <= s < start + |row| ==> y[s] == row[s - start];
  }
}
