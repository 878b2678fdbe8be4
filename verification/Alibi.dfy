/**
  The linear attention bias of one thread's score fragment.  A fragment has 2 * mmaM rows and
  2 * mmaN columns; fragment row i + 2 * mi and column j + 2 * nj are the register
  coordinates (i, mi) and (j, nj).  Scores are real numbers.
*/
module Alibi {

  datatype Alibi = Alibi(slope: real, maxSeqlenK: int, maxSeqlenQ: int)

  /** Where the fragment lies in the score matrix. */
  datatype Tile = Tile(colOffset: int, rowOffset: int, rowStride: int, thread: nat)

  function ColIdx(tile: Tile, j: int, nj: int): int {
    var laneId := tile.thread % 32;
    tile.colOffset + (laneId % 4) * 2 + nj * 8 + j
  }

  function RowIdx(tile: Tile, i: int, mi: int): int {
    tile.rowOffset + mi * tile.rowStride + i * 8
  }

  function Abs(x: int): int {
    if x < 0 then -x else x
  }

  function CausalBias(a: Alibi, col: int): real {
    a.slope * (col as real)
  }

  function GeneralBias(a: Alibi, row: int, col: int): real {
    -(a.slope * (Abs(row + a.maxSeqlenK - a.maxSeqlenQ - col) as real))
  }

  /** Bias of a fragment entry: row i + 2 * mi, column j + 2 * nj. */
  function CausalAt(a: Alibi, tile: Tile, c: nat): real {
    CausalBias(a, ColIdx(tile, c % 2, c / 2))
  }

  function GeneralAt(a: Alibi, tile: Tile, r: nat, c: nat): real {
    GeneralBias(a, RowIdx(tile, r % 2, r / 2), ColIdx(tile, c % 2, c / 2))
  }

  // ---------------------------------------------------------------- the two loops

  lemma HalfAndParity(j: nat, nj: nat)
    requires j < 2
    ensures (j + 2 * nj) % 2 == j && (j + 2 * nj) / 2 == nj
  {
  }

  method AddToColumn(t: array2<real>, c: nat, bias: real)
    requires c < t.Length1
    modifies t
    ensures forall r, k :: 0 <= r < t.Length0 && 0 <= k < t.Length1 ==>
              t[r, k] == if k == c then old(t[r, k]) + bias else old(t[r, k])
  {
    for mi := 0 to t.Length0
      invariant forall r, k :: 0 <= r < t.Length0 && 0 <= k < t.Length1 ==>
                  t[r, k] == if k == c && r < mi then old(t[r, k]) + bias else old(t[r, k])
    {
      t[mi, c] := t[mi, c] + bias;
    }
  }

  lemma CausalRegister(a: Alibi, tile: Tile, j: nat, nj: nat)
    requires j < 2
    ensures CausalAt(a, tile, 2 * nj + j) == a.slope * (ColIdx(tile, j, nj) as real)
  {
    HalfAndParity(j, nj);
  }

  /** The same bias for all rows of a column. */
  method ApplyCausal(a: Alibi, tile: Tile, t: array2<real>, mmaN: nat)
    requires t.Length1 == 2 * mmaN
    modifies t
    ensures forall r, c :: 0 <= r < t.Length0 && 0 <= c < t.Length1 ==> t[r, c] == old(t[r, c]) + CausalAt(a, tile, c)
  {
    ghost var bias := (c: nat) => CausalAt(a, tile, c);
    for nj := 0 to mmaN
      invariant forall r, c :: 0 <= r < t.Length0 && 0 <= c < t.Length1 ==>
                  t[r, c] == if c < 2 * nj then old(t[r, c]) + bias(c) else old(t[r, c])
    {
      for j := 0 to 2
        invariant forall r, c :: 0 <= r < t.Length0 && 0 <= c < t.Length1 ==>
                    t[r, c] == if c < 2 * nj + j then old(t[r, c]) + bias(c) else old(t[r, c])
      {
        CausalRegister(a, tile, j, nj);
        assert bias(2 * nj + j) == a.slope * (ColIdx(tile, j, nj) as real);
        AddToColumn(t, 2 * nj + j, a.slope * (ColIdx(tile, j, nj) as real));
      }
    }
  }

  method SubtractInRow(a: Alibi, tile: Tile, t: array2<real>, i: nat, mi: nat, mmaN: nat)
    requires t.Length1 == 2 * mmaN && i < 2 && i + 2 * mi < t.Length0
    modifies t
    ensures forall r, c :: 0 <= r < t.Length0 && 0 <= c < t.Length1 ==>
              t[r, c] == if r == i + 2 * mi then old(t[r, c]) + GeneralAt(a, tile, r, c) else old(t[r, c])
  {
    var row := RowIdx(tile, i, mi);
    HalfAndParity(i, mi);
    for nj := 0 to mmaN
      invariant forall r, c :: 0 <= r < t.Length0 && 0 <= c < t.Length1 ==>
                  t[r, c] == if r == i + 2 * mi && c < 2 * nj
                    then old(t[r, c]) + GeneralAt(a, tile, r, c) else old(t[r, c])
    {
      for j := 0 to 2
        invariant forall r, c :: 0 <= r < t.Length0 && 0 <= c < t.Length1 ==>
                    t[r, c] == if r == i + 2 * mi && c < 2 * nj + j
                      then old(t[r, c]) + GeneralAt(a, tile, r, c) else old(t[r, c])
      {
        HalfAndParity(j, nj);
        var dist := Abs(row + a.maxSeqlenK - a.maxSeqlenQ - ColIdx(tile, j, nj));
        t[i + 2 * mi, j + 2 * nj] := t[i + 2 * mi, j + 2 * nj] - a.slope * (dist as real);
      }
    }
  }

  /** The bias depends on row and column. */
  method ApplyGeneral(a: Alibi, tile: Tile, t: array2<real>, mmaM: nat, mmaN: nat)
    requires t.Length0 == 2 * mmaM && t.Length1 == 2 * mmaN
    modifies t
    ensures forall r, c :: 0 <= r < t.Length0 && 0 <= c < t.Length1 ==>
              t[r, c] == old(t[r, c]) + GeneralAt(a, tile, r, c)
  {
    for mi := 0 to mmaM
      invariant forall r, c :: 0 <= r < t.Length0 && 0 <= c < t.Length1 ==>
                  t[r, c] == if r < 2 * mi then old(t[r, c]) + GeneralAt(a, tile, r, c) else old(t[r, c])
    {
      for i := 0 to 2
        invariant forall r, c :: 0 <= r < t.Length0 && 0 <= c < t.Length1 ==>
                    t[r, c] == if r < 2 * mi + i then old(t[r, c]) + GeneralAt(a, tile, r, c) else old(t[r, c])
      {
        SubtractInRow(a, tile, t, i, mi, mmaN);
      }
    }
  }

  // ---------------------------------------------------------------- the branches agree up to a shift

  /** The last column a causal mask leaves visible in a row. */
  function Diagonal(a: Alibi, row: int): int {
    row + a.maxSeqlenK - a.maxSeqlenQ
  }

  /** On visible columns the branches differ by one constant of the row; elsewhere they do not. */
  lemma BranchesDifferByShiftIff(a: Alibi, row: int, col: int)
    requires a.slope != 0.0
    ensures CausalBias(a, col) - GeneralBias(a, row, col) == a.slope * (Diagonal(a, row) as real)
            <==> col <= Diagonal(a, row)
  {
    var d := Diagonal(a, row);
    if col <= d {
      assert (d - col) as real == d as real - col as real;
    } else {
      var e := (col - d) as real;
      assert e == col as real - d as real && e > 0.0;
      Twice(a.slope, col as real, d as real, e);
    }
  }

  lemma Twice(s: real, c: real, d: real, e: real)
    requires e == c - d && e > 0.0 && s != 0.0
    ensures s * c + s * e != s * d
  {
    assert s * c + s * e - s * d == 2.0 * (s * e);
    NonZero(s, e);
  }

  lemma NonZero(s: real, e: real)
    requires s != 0.0 && e > 0.0
    ensures s * e != 0.0
  {
    if s > 0.0 { assert s * e > 0.0; } else { assert s * e < 0.0; }
  }

  lemma BranchesDifferByShift(a: Alibi, row: int, col: int)
    requires col <= Diagonal(a, row)
    ensures CausalBias(a, col) == GeneralBias(a, row, col) + a.slope * (Diagonal(a, row) as real)
  {
    var d := Diagonal(a, row);
    assert (d - col) as real == d as real - col as real;
  }

  // ---------------------------------------------------------------- softmax

  /** What is used of the exponential. */
  ghost predicate IsExp(exp: real -> real) {
    && (forall x :: Positive(exp, x))
    && (forall x, y :: SumToProduct(exp, x, y))
  }

  ghost predicate Positive(exp: real -> real, x: real) {
    exp(x) > 0.0
  }

  ghost predicate SumToProduct(exp: real -> real, x: real, y: real) {
    exp(x + y) == exp(x) * exp(y)
  }

  ghost function SumExp(exp: real -> real, xs: seq<real>): real {
    if xs == [] then 0.0 else exp(xs[0]) + SumExp(exp, xs[1..])
  }

  lemma {:induction false} SumExpPositive(exp: real -> real, xs: seq<real>)
    requires IsExp(exp)
    ensures SumExp(exp, xs) >= 0.0 && (xs != [] ==> SumExp(exp, xs) > 0.0)
    decreases |xs|
  {
    if xs != [] {
      SumExpPositive(exp, xs[1..]);
      assert Positive(exp, xs[0]);
    }
  }

  ghost function Softmax(exp: real -> real, xs: seq<real>, k: nat): real
    requires IsExp(exp) && k < |xs|
  {
    SumExpPositive(exp, xs);
    exp(xs[k]) / SumExp(exp, xs)
  }

  ghost predicate Shifted(xs: seq<real>, ys: seq<real>, shift: real) {
    |xs| == |ys| && forall k :: 0 <= k < |xs| ==> ys[k] == xs[k] + shift
  }

  lemma {:induction false} SumExpShift(exp: real -> real, xs: seq<real>, ys: seq<real>, shift: real)
    requires IsExp(exp) && Shifted(xs, ys, shift)
    ensures SumExp(exp, ys) == SumExp(exp, xs) * exp(shift)
    decreases |xs|
  {
    if xs != [] {
      SumExpShift(exp, xs[1..], ys[1..], shift);
      assert SumToProduct(exp, xs[0], shift);
      assert ys[0] == xs[0] + shift;
      FactorOut(exp(xs[0]), SumExp(exp, xs[1..]), exp(shift));
    }
  }

  lemma FactorOut(a: real, b: real, c: real)
    ensures a * c + b * c == (a + b) * c
  {
  }

  lemma Cancel(a: real, b: real, c: real)
    requires b > 0.0 && c > 0.0
    ensures b * c > 0.0 && (a * c) / (b * c) == a / b
  {
    var q := a / b;
    assert q * b == a;
    assert (q * b) * c == q * (b * c);
  }

  lemma SoftmaxShift(exp: real -> real, xs: seq<real>, ys: seq<real>, shift: real, k: nat)
    requires IsExp(exp) && Shifted(xs, ys, shift) && k < |xs|
    ensures Softmax(exp, ys, k) == Softmax(exp, xs, k)
  {
    SumExpShift(exp, xs, ys, shift);
    SumExpPositive(exp, xs);
    assert SumToProduct(exp, xs[k], shift) && Positive(exp, shift);
    Cancel(exp(xs[k]), SumExp(exp, xs), exp(shift));
  }

  /** Scores of a row on a list of columns after one of the branches. */
  function CausalScores(a: Alibi, cols: seq<int>, scores: seq<real>): seq<real>
    requires |cols| == |scores|
  {
    seq(|cols|, (k: nat) requires k < |cols| => scores[k] + CausalBias(a, cols[k]))
  }

  function GeneralScores(a: Alibi, row: int, cols: seq<int>, scores: seq<real>): seq<real>
    requires |cols| == |scores|
  {
    seq(|cols|, (k: nat) requires k < |cols| => scores[k] + GeneralBias(a, row, cols[k]))
  }

  /** Over unmasked columns both branches give the same attention weights. */
  lemma SoftmaxIsTheSame(exp: real -> real, a: Alibi, row: int, cols: seq<int>, scores: seq<real>, k: nat)
    requires IsExp(exp) && |cols| == |scores| && k < |cols|
    requires forall i :: 0 <= i < |cols| ==> cols[i] <= Diagonal(a, row)
    ensures Softmax(exp, CausalScores(a, cols, scores), k) == Softmax(exp, GeneralScores(a, row, cols, scores), k)
  {
    var shift := a.slope * (Diagonal(a, row) as real);
    var xs, ys := GeneralScores(a, row, cols, scores), CausalScores(a, cols, scores);
    forall i | 0 <= i < |xs| ensures ys[i] == xs[i] + shift {
      BranchesDifferByShift(a, row, cols[i]);
    }
    SoftmaxShift(exp, xs, ys, shift, k);
  }

  /** The entries of a fragment row at some of its columns. */
  function Entries(row: seq<real>, cs: seq<nat>): seq<real>
    requires forall i :: 0 <= i < |cs| ==> cs[i] < |row|
  {
    seq(|cs|, (i: nat) requires i < |cs| => row[cs[i]])
  }

  /** A column of a fragment row that the causal mask leaves visible. */
  predicate Unmasked(a: Alibi, tile: Tile, r: nat, c: nat) {
    ColIdx(tile, c % 2, c / 2) <= Diagonal(a, RowIdx(tile, r % 2, r / 2))
  }

  /** Row r of a fragment, before any bias, after the causal and after the general branch. */
  ghost predicate BiasedRows(a: Alibi, tile: Tile, r: nat, before: seq<real>, causal: seq<real>, general: seq<real>) {
    && |before| == |causal| == |general|
    && (forall c :: 0 <= c < |before| ==> causal[c] == before[c] + CausalAt(a, tile, c))
    && (forall c :: 0 <= c < |before| ==> general[c] == before[c] + GeneralAt(a, tile, r, c))
  }

  /** Over any unmasked columns of a fragment row the two branches give the same weights. */
  lemma FragmentRowWeights(
    exp: real -> real, a: Alibi, tile: Tile, r: nat, before: seq<real>, causal: seq<real>, general: seq<real>,
    cs: seq<nat>, k: nat)
    requires IsExp(exp) && BiasedRows(a, tile, r, before, causal, general) && k < |cs|
    requires forall i :: 0 <= i < |cs| ==> cs[i] < |before| && Unmasked(a, tile, r, cs[i])
    ensures Softmax(exp, Entries(causal, cs), k) == Softmax(exp, Entries(general, cs), k)
  {
    var row := RowIdx(tile, r % 2, r / 2);
    var shift := a.slope * (Diagonal(a, row) as real);
    var xs, ys := Entries(general, cs), Entries(causal, cs);
    forall i | 0 <= i < |cs| ensures ys[i] == xs[i] + shift {
      BranchesDifferByShift(a, row, ColIdx(tile, cs[i] % 2, cs[i] / 2));
    }
    SoftmaxShift(exp, xs, ys, shift, k);
  }

  ghost function RowOf(t: array2<real>, r: nat): (row: seq<real>)
    requires r < t.Length0
    reads t
    ensures |row| == t.Length1 && forall c :: 0 <= c < t.Length1 ==> row[c] == t[r, c]
  {
    seq(t.Length1, (c: nat) requires c < t.Length1 && r < t.Length0 reads t => t[r, c])
  }

  /** Both branches on equal fragments: every row ends up with the same weights over its unmasked columns. */
  method ApplyBoth(a: Alibi, tile: Tile, t: array2<real>, u: array2<real>, mmaM: nat, mmaN: nat)
    requires t != u && t.Length0 == u.Length0 == 2 * mmaM && t.Length1 == u.Length1 == 2 * mmaN
    requires forall r, c :: 0 <= r < t.Length0 && 0 <= c < t.Length1 ==> t[r, c] == u[r, c]
    modifies t, u
    ensures forall r :: 0 <= r < t.Length0 ==> SameWeights(a, tile, r, RowOf(t, r), RowOf(u, r))
  {
    ghost var rows := seq(t.Length0, (r: nat) requires r < t.Length0 reads t => RowOf(t, r));
    ApplyCausal(a, tile, t, mmaN);
    ApplyGeneral(a, tile, u, mmaM, mmaN);
    forall r | 0 <= r < t.Length0 ensures SameWeights(a, tile, r, RowOf(t, r), RowOf(u, r)) {
      RowsHaveSameWeights(a, tile, r, rows[r], RowOf(t, r), RowOf(u, r));
    }
  }

  ghost predicate SameWeights(a: Alibi, tile: Tile, r: nat, causal: seq<real>, general: seq<real>) {
    forall exp, cs, k: nat :: WeightsAgree(a, tile, r, causal, general, exp, cs, k)
  }

  ghost predicate WeightsAgree(
    a: Alibi, tile: Tile, r: nat, causal: seq<real>, general: seq<real>, exp: real -> real, cs: seq<nat>, k: nat)
  {
    && |causal| == |general|
    && (IsExp(exp) && k < |cs| && (forall i :: 0 <= i < |cs| ==> cs[i] < |causal| && Unmasked(a, tile, r, cs[i])) ==>
          Softmax(exp, Entries(causal, cs), k) == Softmax(exp, Entries(general, cs), k))
  }

  lemma RowsHaveSameWeights(
    a: Alibi, tile: Tile, r: nat, before: seq<real>, causal: seq<real>, general: seq<real>)
    requires BiasedRows(a, tile, r, before, causal, general)
    ensures SameWeights(a, tile, r, causal, general)
  {
    forall exp, cs: seq<nat>, k: nat ensures WeightsAgree(a, tile, r, causal, general, exp, cs, k) {
      if IsExp(exp) && k < |cs| && forall i :: 0 <= i < |cs| ==> cs[i] < |causal| && Unmasked(a, tile, r, cs[i]) {
        FragmentRowWeights(exp, a, tile, r, before, causal, general, cs, k);
      }
    }
  }

  // ---------------------------------------------------------------- the column map

  /** The lanes of a quad and their registers reach every column of the tile. */
  lemma ColumnsAreCovered(
    colOffset: int, rowOffset: int, rowStride: int, mmaN: nat, col: int)
    returns (lane: nat, j: nat, nj: nat)
    requires colOffset <= col < colOffset + 8 * mmaN
    ensures lane < 4 && j < 2 && nj < mmaN && ColIdx(Tile(colOffset, rowOffset, rowStride, lane), j, nj) == col
  {
    var x := col - colOffset;
    nj := x / 8;
    lane := x % 8 / 2;
    j := x % 8 % 2;
    assert x == 8 * nj + x % 8 && x % 8 == 2 * lane + j;
  }

  /** And no two of them reach the same one, so each column is biased once. */
  lemma ColumnsAreDistinct(s: Tile, t: Tile, j: nat, nj: nat, k: nat, nk: nat)
    requires s.colOffset == t.colOffset && j < 2 && k < 2 && ColIdx(s, j, nj) == ColIdx(t, k, nk)
    ensures s.thread % 4 == t.thread % 4 && j == k && nj == nk
  {
    Quads(s.thread);
    Quads(t.thread);
  }

  lemma Quads(thread: nat)
    ensures thread % 32 % 4 == thread % 4
  {
  }

  /** The layout: a thread's two columns lie side by side, its groups 8 apart; its rows 8 and a stride apart. */
  lemma FragmentLayout(tile: Tile, j: int, nj: int, i: int, mi: int)
    ensures ColIdx(tile, 0, 0) == tile.colOffset + 2 * (tile.thread % 4)
    ensures ColIdx(tile, j + 1, nj) == ColIdx(tile, j, nj) + 1 && ColIdx(tile, j, nj + 1) == ColIdx(tile, j, nj) + 8
    ensures RowIdx(tile, 0, 0) == tile.rowOffset
    ensures RowIdx(tile, i + 1, mi) == RowIdx(tile, i, mi) + 8
    ensures RowIdx(tile, i, mi + 1) == RowIdx(tile, i, mi) + tile.rowStride
  {
    Quads(tile.thread);
  }

  /** No bias on the diagonal, and one slope less for every step away from it, on both sides. */
  lemma BiasFallsWithDistance(a: Alibi, row: int, col: int)
    ensures var diagonal := row + (a.maxSeqlenK - a.maxSeqlenQ);
            && GeneralBias(a, row, diagonal) == 0.0
            && (col <= diagonal ==> GeneralBias(a, row, col - 1) == GeneralBias(a, row, col) - a.slope)
            && (col >= diagonal ==> GeneralBias(a, row, col + 1) == GeneralBias(a, row, col) - a.slope)
  {
    StepCost(a.slope, Abs(row + a.maxSeqlenK - a.maxSeqlenQ - col));
  }

  lemma StepCost(slope: real, distance: int)
    ensures -(slope * ((distance + 1) as real)) == -(slope * (distance as real)) - slope
  {
    assert (distance + 1) as real == distance as real + 1.0;
  }
}
