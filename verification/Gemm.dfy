/**
  Row-major matrix multiplication kernels over an arbitrary multiply-accumulate operation,
  which need be neither associative nor exact.
*/
module Gemm {
  import opened RowMajor

  /** A multiply-accumulate: sum, left factor, right factor. */
  type Mac<!T> = (T, T, T) -> T

  /** An array holds a rows x width matrix. */
  ghost predicate Shape<T>(s: seq<T>, rows: nat, width: nat) {
    |s| == rows * width && forall i, j :: 0 <= i < rows && 0 <= j < width ==> Idx(i, j, width) < |s|
  }

  lemma ShapeOf<T>(s: seq<T>, rows: nat, width: nat)
    requires |s| == rows * width
    ensures Shape(s, rows, width)
  {
    forall i, j | 0 <= i < rows && 0 <= j < width ensures Idx(i, j, width) < |s| {
      IdxBound(i, j, rows, width);
    }
  }

  /** The sum after the first k products, in order. */
  ghost function Dot<T>(mac: Mac<T>, sum: T, a: seq<T>, b: seq<T>, m: nat, n: nat, M: nat, N: nat, K: nat, k: nat): T
    requires Shape(a, M, K) && Shape(b, K, N) && m < M && n < N && k <= K
    decreases k
  {
    if k == 0 then sum
    else mac(Dot(mac, sum, a, b, m, n, M, N, K, k - 1), a[Idx(m, k - 1, K)], b[Idx(k - 1, n, N)])
  }

  /** Every cell of c is the corresponding cell of `from` with all K products accumulated. */
  ghost predicate IsGemm<T>(mac: Mac<T>, from: seq<T>, a: seq<T>, b: seq<T>, c: seq<T>, M: nat, N: nat, K: nat) {
    && Shape(a, M, K) && Shape(b, K, N) && Shape(from, M, N) && Shape(c, M, N)
    && forall i, j :: 0 <= i < M && 0 <= j < N ==>
         c[Idx(i, j, N)] == Dot(mac, from[Idx(i, j, N)], a, b, i, j, M, N, K, K)
  }

  /** Cells before (m, n) are done, the others are as they were. */
  ghost predicate DoneUpTo<T>(
    mac: Mac<T>, was: seq<T>, from: seq<T>, a: seq<T>, b: seq<T>, c: seq<T>, M: nat, N: nat, K: nat, m: nat, n: nat)
  {
    && Shape(a, M, K) && Shape(b, K, N) && Shape(from, M, N) && Shape(was, M, N) && Shape(c, M, N)
    && forall i, j :: 0 <= i < M && 0 <= j < N ==>
         c[Idx(i, j, N)]
         == if i < m || (i == m && j < n) then Dot(mac, from[Idx(i, j, N)], a, b, i, j, M, N, K, K)
            else was[Idx(i, j, N)]
  }

  lemma CellDone<T>(
    mac: Mac<T>, was: seq<T>, from: seq<T>, a: seq<T>, b: seq<T>, c: seq<T>, M: nat, N: nat, K: nat, m: nat, n: nat)
    requires DoneUpTo(mac, was, from, a, b, c, M, N, K, m, n) && m < M && n < N
    ensures DoneUpTo(mac, was, from, a, b,
                     c[Idx(m, n, N) := Dot(mac, from[Idx(m, n, N)], a, b, m, n, M, N, K, K)], M, N, K, m, n + 1)
  {
    var d := c[Idx(m, n, N) := Dot(mac, from[Idx(m, n, N)], a, b, m, n, M, N, K, K)];
    forall i, j | 0 <= i < M && 0 <= j < N
      ensures d[Idx(i, j, N)]
              == if i < m || (i == m && j < n + 1) then Dot(mac, from[Idx(i, j, N)], a, b, i, j, M, N, K, K)
                 else was[Idx(i, j, N)]
    {
      if Idx(i, j, N) == Idx(m, n, N) { IdxInjective(i, j, m, n, N); }
    }
  }

  /** The inner loop over k. */
  method Accumulate<T>(
    mac: Mac<T>, start: T, A: array<T>, B: array<T>, m: nat, n: nat, M: nat, N: nat, K: nat)
    returns (sum: T)
    requires Shape(A[..], M, K) && Shape(B[..], K, N) && m < M && n < N
    ensures sum == Dot(mac, start, A[..], B[..], m, n, M, N, K, K)
  {
    sum := start;
    for k := 0 to K
      invariant sum == Dot(mac, start, A[..], B[..], m, n, M, N, K, k)
    {
      assert Idx(m, k, K) < A.Length && Idx(k, n, N) < B.Length;
      sum := mac(sum, A[m * K + k], B[k * N + n]);
    }
  }

  /** C += A * B. */
  method GemmAccum<T>(mac: Mac<T>, A: array<T>, B: array<T>, C: array<T>, M: nat, N: nat, K: nat)
    requires A.Length == M * K && B.Length == K * N && C.Length == M * N && C != A && C != B
    modifies C
    ensures IsGemm(mac, old(C[..]), A[..], B[..], C[..], M, N, K)
  {
    ghost var was, a, b := C[..], A[..], B[..];
    ShapeOf(a, M, K);
    ShapeOf(b, K, N);
    ShapeOf(was, M, N);
    for m := 0 to M
      invariant A[..] == a && B[..] == b
      invariant DoneUpTo(mac, was, was, a, b, C[..], M, N, K, m, 0)
    {
      for n := 0 to N
        invariant A[..] == a && B[..] == b
        invariant DoneUpTo(mac, was, was, a, b, C[..], M, N, K, m, n)
      {
        ghost var c := C[..];
        assert Idx(m, n, N) < |c| && c[Idx(m, n, N)] == was[Idx(m, n, N)];
        var sum := Accumulate(mac, C[m * N + n], A, B, m, n, M, N, K);
        CellDone(mac, was, was, a, b, c, M, N, K, m, n);
        C[m * N + n] := sum;
        assert C[..] == c[Idx(m, n, N) := sum];
      }
    }
  }

  function Zeros<T>(n: nat, zero: T): seq<T> {
    seq(n, (i: nat) => zero)
  }

  /** C = A * B. */
  method GemmFresh<T>(mac: Mac<T>, zero: T, A: array<T>, B: array<T>, C: array<T>, M: nat, N: nat, K: nat)
    requires A.Length == M * K && B.Length == K * N && C.Length == M * N && C != A && C != B
    modifies C
    ensures IsGemm(mac, Zeros(M * N, zero), A[..], B[..], C[..], M, N, K)
  {
    ghost var was, a, b, zeros := C[..], A[..], B[..], Zeros(M * N, zero);
    ShapeOf(a, M, K);
    ShapeOf(b, K, N);
    ShapeOf(was, M, N);
    ShapeOf(zeros, M, N);
    for m := 0 to M
      invariant A[..] == a && B[..] == b
      invariant DoneUpTo(mac, was, zeros, a, b, C[..], M, N, K, m, 0)
    {
      for n := 0 to N
        invariant A[..] == a && B[..] == b
        invariant DoneUpTo(mac, was, zeros, a, b, C[..], M, N, K, m, n)
      {
        ghost var c := C[..];
        assert Idx(m, n, N) < |c| && zeros[Idx(m, n, N)] == zero;
        var sum := Accumulate(mac, zero, A, B, m, n, M, N, K);
        CellDone(mac, was, zeros, a, b, c, M, N, K, m, n);
        C[m * N + n] := sum;
        assert C[..] == c[Idx(m, n, N) := sum];
      }
    }
  }

  // ---------------------------------------------------------------- rows and columns

  /** Accumulates the pairs of two equally long lists from the front. */
  ghost function Fold<T>(mac: Mac<T>, sum: T, xs: seq<T>, ys: seq<T>): T
    requires |xs| == |ys|
    decreases |xs|
  {
    if xs == [] then sum else Fold(mac, mac(sum, xs[0], ys[0]), xs[1..], ys[1..])
  }

  lemma RowFits(m: nat, M: nat, K: nat)
    requires m < M
    ensures 0 <= m * K && m * K + K <= M * K
  {
    assert (m + 1) * K == m * K + K && (m + 1) * K <= M * K;
  }

  /** The first k entries of row m, which lie side by side. */
  ghost function Row<T>(a: seq<T>, m: nat, M: nat, K: nat, k: nat): (r: seq<T>)
    requires |a| == M * K && m < M && k <= K
    ensures |r| == k
  {
    RowFits(m, M, K);
    a[m * K..m * K + k]
  }

  /** The first k entries of column n, which lie N apart. */
  ghost function Column<T>(b: seq<T>, n: nat, K: nat, N: nat, k: nat): (r: seq<T>)
    requires Shape(b, K, N) && n < N && k <= K
    ensures |r| == k
  {
    seq(k, (i: nat) requires i < k => b[Idx(i, n, N)])
  }

  lemma {:induction false} FoldSnoc<T>(mac: Mac<T>, sum: T, xs: seq<T>, ys: seq<T>, x: T, y: T)
    requires |xs| == |ys|
    ensures Fold(mac, sum, xs + [x], ys + [y]) == mac(Fold(mac, sum, xs, ys), x, y)
    decreases |xs|
  {
    if xs == [] {
      assert xs + [x] == [x] && ys + [y] == [y];
    } else {
      assert (xs + [x])[1..] == xs[1..] + [x] && (ys + [y])[1..] == ys[1..] + [y];
      FoldSnoc(mac, mac(sum, xs[0], ys[0]), xs[1..], ys[1..], x, y);
    }
  }

  lemma {:induction false} DotIsFold<T>(
    mac: Mac<T>, sum: T, a: seq<T>, b: seq<T>, m: nat, n: nat, M: nat, N: nat, K: nat, k: nat)
    requires Shape(a, M, K) && Shape(b, K, N) && m < M && n < N && k <= K
    ensures Dot(mac, sum, a, b, m, n, M, N, K, k) == Fold(mac, sum, Row(a, m, M, K, k), Column(b, n, K, N, k))
    decreases k
  {
    if k > 0 {
      DotIsFold(mac, sum, a, b, m, n, M, N, K, k - 1);
      var x, y := a[Idx(m, k - 1, K)], b[Idx(k - 1, n, N)];
      assert Row(a, m, M, K, k) == Row(a, m, M, K, k - 1) + [x];
      assert Column(b, n, K, N, k) == Column(b, n, K, N, k - 1) + [y];
      FoldSnoc(mac, sum, Row(a, m, M, K, k - 1), Column(b, n, K, N, k - 1), x, y);
    }
  }

  /** A cell of the result is its old value with row i of A folded with column j of B. */
  lemma CellIsRowTimesColumn<T>(
    mac: Mac<T>, from: seq<T>, a: seq<T>, b: seq<T>, c: seq<T>, M: nat, N: nat, K: nat, i: nat, j: nat)
    requires IsGemm(mac, from, a, b, c, M, N, K) && i < M && j < N
    ensures c[Idx(i, j, N)] == Fold(mac, from[Idx(i, j, N)], Row(a, i, M, K, K), Column(b, j, K, N, K))
  {
    DotIsFold(mac, from[Idx(i, j, N)], a, b, i, j, M, N, K, K);
  }

  // ---------------------------------------------------------------- splitting K

  /** a is [a1 | a2] column-wise. */
  ghost predicate ColumnSplit<T>(a: seq<T>, a1: seq<T>, a2: seq<T>, M: nat, K1: nat, K2: nat) {
    && Shape(a, M, K1 + K2) && Shape(a1, M, K1) && Shape(a2, M, K2)
    && (forall m, k :: 0 <= m < M && 0 <= k < K1 ==> a[Idx(m, k, K1 + K2)] == a1[Idx(m, k, K1)])
    && (forall m, k :: 0 <= m < M && 0 <= k < K2 ==> a[Idx(m, K1 + k, K1 + K2)] == a2[Idx(m, k, K2)])
  }

  /** b is b1 above b2, which row-major is concatenation. */
  ghost predicate RowSplit<T>(b: seq<T>, b1: seq<T>, b2: seq<T>, K1: nat, K2: nat, N: nat) {
    && Shape(b, K1 + K2, N) && Shape(b1, K1, N) && Shape(b2, K2, N)
    && (forall k, n :: 0 <= k < K1 && 0 <= n < N ==> b[Idx(k, n, N)] == b1[Idx(k, n, N)])
    && (forall k, n :: 0 <= k < K2 && 0 <= n < N ==> b[Idx(K1 + k, n, N)] == b2[Idx(k, n, N)])
  }

  lemma ConcatIsRowSplit<T>(b1: seq<T>, b2: seq<T>, K1: nat, K2: nat, N: nat)
    requires |b1| == K1 * N && |b2| == K2 * N
    ensures RowSplit(b1 + b2, b1, b2, K1, K2, N)
  {
    assert K1 * N + K2 * N == (K1 + K2) * N;
    ShapeOf(b1 + b2, K1 + K2, N);
    ShapeOf(b1, K1, N);
    ShapeOf(b2, K2, N);
    forall k, n | 0 <= k < K2 && 0 <= n < N ensures (b1 + b2)[Idx(K1 + k, n, N)] == b2[Idx(k, n, N)] {
      assert (K1 + k) * N == K1 * N + k * N;
    }
  }

  lemma {:induction false} DotFirstHalf<T>(
    mac: Mac<T>, sum: T, a: seq<T>, a1: seq<T>, a2: seq<T>, b: seq<T>, b1: seq<T>, b2: seq<T>, m: nat, n: nat,
    M: nat, N: nat, K1: nat, K2: nat, k: nat)
    requires ColumnSplit(a, a1, a2, M, K1, K2) && RowSplit(b, b1, b2, K1, K2, N) && m < M && n < N && k <= K1
    ensures Dot(mac, sum, a, b, m, n, M, N, K1 + K2, k) == Dot(mac, sum, a1, b1, m, n, M, N, K1, k)
    decreases k
  {
    if k > 0 {
      DotFirstHalf(mac, sum, a, a1, a2, b, b1, b2, m, n, M, N, K1, K2, k - 1);
    }
  }

  /** The products are taken in the same order, so the two halves compose. */
  lemma {:induction false} DotSplit<T>(
    mac: Mac<T>, sum: T, a: seq<T>, a1: seq<T>, a2: seq<T>, b: seq<T>, b1: seq<T>, b2: seq<T>, m: nat, n: nat,
    M: nat, N: nat, K1: nat, K2: nat, k: nat)
    requires ColumnSplit(a, a1, a2, M, K1, K2) && RowSplit(b, b1, b2, K1, K2, N) && m < M && n < N && k <= K2
    ensures Dot(mac, sum, a, b, m, n, M, N, K1 + K2, K1 + k)
            == Dot(mac, Dot(mac, sum, a1, b1, m, n, M, N, K1, K1), a2, b2, m, n, M, N, K2, k)
    decreases k
  {
    if k == 0 {
      DotFirstHalf(mac, sum, a, a1, a2, b, b1, b2, m, n, M, N, K1, K2, K1);
    } else {
      DotSplit(mac, sum, a, a1, a2, b, b1, b2, m, n, M, N, K1, K2, k - 1);
    }
  }

  lemma GemmIsDetermined<T>(
    mac: Mac<T>, from: seq<T>, a: seq<T>, b: seq<T>, c: seq<T>, d: seq<T>, M: nat, N: nat, K: nat)
    requires IsGemm(mac, from, a, b, c, M, N, K) && IsGemm(mac, from, a, b, d, M, N, K)
    ensures c == d
  {
    forall p | 0 <= p < |c| ensures c[p] == d[p] {
      var i, j := IdxCovers(p, M, N);
    }
  }

  /** Two accumulating calls on split operands leave the same C as one call on the whole. */
  lemma SplitCallsCompose<T>(
    mac: Mac<T>, c0: seq<T>, c1: seq<T>, c2: seq<T>, c: seq<T>,
    a: seq<T>, a1: seq<T>, a2: seq<T>, b: seq<T>, b1: seq<T>, b2: seq<T>, M: nat, N: nat, K1: nat, K2: nat)
    requires ColumnSplit(a, a1, a2, M, K1, K2) && RowSplit(b, b1, b2, K1, K2, N)
    requires IsGemm(mac, c0, a1, b1, c1, M, N, K1) && IsGemm(mac, c1, a2, b2, c2, M, N, K2)
    requires IsGemm(mac, c0, a, b, c, M, N, K1 + K2)
    ensures c2 == c
  {
    forall i, j | 0 <= i < M && 0 <= j < N
      ensures c2[Idx(i, j, N)] == Dot(mac, c0[Idx(i, j, N)], a, b, i, j, M, N, K1 + K2, K1 + K2)
    {
      DotSplit(mac, c0[Idx(i, j, N)], a, a1, a2, b, b1, b2, i, j, M, N, K1, K2, K2);
    }
    GemmIsDetermined(mac, c0, a, b, c2, c, M, N, K1 + K2);
  }

  /** The plain kernel is the accumulating kernel on a zeroed C. */
  method FreshEqualsAccumOnZeros<T>(
    mac: Mac<T>, zero: T, A: array<T>, B: array<T>, C: array<T>, D: array<T>, M: nat, N: nat, K: nat)
    requires A.Length == M * K && B.Length == K * N && C.Length == D.Length == M * N
    requires C != A && C != B && D != A && D != B && C != D
    requires D[..] == Zeros(M * N, zero)
    modifies C, D
    ensures C[..] == D[..]
  {
    ghost var a, b := A[..], B[..];
    GemmFresh(mac, zero, A, B, C, M, N, K);
    ghost var c := C[..];
    GemmAccum(mac, A, B, D, M, N, K);
    GemmIsDetermined(mac, Zeros(M * N, zero), a, b, c, D[..], M, N, K);
  }
}
