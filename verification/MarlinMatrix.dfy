/**
  The AWQ to Marlin conversion of a whole matrix.  The script flattens the unpacked matrix,
  permutes it in blocks and cuts it into rows again; when the width is a multiple of 64 that
  never moves a zero-point out of its row.
*/
module MarlinMatrix {
  import opened RowMajor
  import opened Marlin

  /** `ravel` of the first k rows. */
  function Flat(m: array2<nat>, k: nat): (xs: seq<nat>)
    requires k <= m.Length0
    reads m
  {
    if k == 0 then [] else Flat(m, k - 1) + Row(m, k - 1)
  }

  lemma {:induction false} FlatLength(m: array2<nat>, k: nat)
    requires k <= m.Length0
    ensures |Flat(m, k)| == k * m.Length1
  {
    if k > 0 {
      FlatLength(m, k - 1);
      assert k * m.Length1 == (k - 1) * m.Length1 + m.Length1;
    }
  }

  lemma {:induction false} FlatAt(m: array2<nat>, k: nat, r: nat, c: nat)
    requires r < k <= m.Length0 && c < m.Length1
    ensures Idx(r, c, m.Length1) < |Flat(m, k)| && Flat(m, k)[Idx(r, c, m.Length1)] == m[r, c]
    decreases k
  {
    FlatLength(m, k);
    FlatLength(m, k - 1);
    IdxBound(r, c, k, m.Length1);
    if r < k - 1 {
      FlatAt(m, k - 1, r, c);
    }
  }

  lemma MultipleOf64(k: nat, n: nat)
    requires n % 64 == 0
    ensures (k * n) % 64 == 0 && k * n == 64 * (k * (n / 64))
  {
    assert n == 64 * (n / 64);
    assert k * (64 * (n / 64)) == 64 * (k * (n / 64));
    Split64(k * (n / 64), 0);
  }

  /** Row r starts at block a; column c is position j of the b-th block of the row. */
  lemma BlockOf(r: nat, c: nat, n: nat) returns (a: nat, b: nat, j: nat)
    requires n % 64 == 0 && c < n
    ensures j < 64 && c == 64 * b + j && 64 * b + 64 <= n && r * n == 64 * a
    ensures Idx(r, c, n) == 64 * (a + b) + j
  {
    a, b, j := r * (n / 64), c / 64, c % 64;
    MultipleOf64(r, n);
  }

  /** Position j of block b of ys comes from position `move(j)` of the same block of xs. */
  ghost predicate Moves(xs: seq<nat>, ys: seq<nat>, move: nat -> nat, b: nat, j: nat) {
    && |ys| == |xs| && j < 64 && move(j) < 64 && 64 * b + 64 <= |xs|
    && ys[64 * b + j] == xs[64 * b + move(j)]
  }

  ghost predicate MovesBlocks(xs: seq<nat>, ys: seq<nat>, move: nat -> nat) {
    |ys| == |xs| && forall b: nat, j: nat :: 64 * b + 64 <= |xs| && j < 64 ==> Moves(xs, ys, move, b, j)
  }

  function SourceMap(bits: nat): nat -> nat
    requires Supported(bits)
  {
    (t: nat) => Source(t, bits)
  }

  lemma RearrangeMoves(xs: seq<nat>, bits: nat, b: nat, j: nat)
    requires Supported(bits) && |xs| % 64 == 0 && j < 64 && 64 * b + 64 <= |xs|
    ensures Moves(xs, Rearrange(xs, bits), SourceMap(bits), b, j)
  {
    RearrangeAt(xs, bits, 64 * b + j);
    SourceInBlock(b, j, bits);
  }

  lemma RearrangeMovesBlocks(xs: seq<nat>, bits: nat)
    requires Supported(bits) && |xs| % 64 == 0
    ensures MovesBlocks(xs, Rearrange(xs, bits), SourceMap(bits))
  {
    forall b: nat, j: nat | 64 * b + 64 <= |xs| && j < 64
      ensures Moves(xs, Rearrange(xs, bits), SourceMap(bits), b, j) {
      RearrangeMoves(xs, bits, b, j);
    }
  }

  // ---------------------------------------------------------------- the conversion in numbers

  function FromMap(bits: nat): nat -> nat {
    (t: nat) => FromColumn(t, bits)
  }

  ghost predicate SameInBlock(f: nat -> nat, g: nat -> nat) {
    forall t :: 0 <= t < 64 ==> SameAt(f, g, t)
  }

  ghost predicate SameAt(f: nat -> nat, g: nat -> nat, t: nat) {
    f(t) == g(t)
  }

  lemma SourceIsFromMap(bits: nat)
    requires Supported(bits)
    ensures SameInBlock(SourceMap(bits), FromMap(bits))
  {
    forall t: nat | t < 64 ensures SameAt(SourceMap(bits), FromMap(bits), t) {
      SourceInNumbers(t, bits);
    }
  }

  lemma SameMoves(xs: seq<nat>, ys: seq<nat>, f: nat -> nat, g: nat -> nat)
    requires MovesBlocks(xs, ys, f) && SameInBlock(f, g)
    ensures MovesBlocks(xs, ys, g)
  {
    forall b: nat, j: nat | 64 * b + 64 <= |xs| && j < 64 ensures Moves(xs, ys, g, b, j) {
      assert Moves(xs, ys, f, b, j) && SameAt(f, g, j);
    }
  }

  /**
    The whole conversion of a row of words in numbers: column j of every block of 64 comes
    from column FromColumn(j, bits) of the same block.
  */
  lemma ConversionInNumbers(ws: seq<nat>, bits: nat)
    requires Supported(bits) && FirstOf(|ws|, bits) % 64 == 0
    ensures MovesBlocks(Unpack(ws, bits), Unpack(AwqToMarlin(ws, bits), bits), FromMap(bits))
  {
    UnpackOfConversion(ws, bits);
    RearrangeMovesBlocks(Unpack(ws, bits), bits);
    SourceIsFromMap(bits);
    SameMoves(Unpack(ws, bits), Unpack(AwqToMarlin(ws, bits), bits), SourceMap(bits), FromMap(bits));
  }

  /** Moving inside the blocks of the flat matrix is moving inside the blocks of each row. */
  lemma MovesByRows(m: array2<nat>, ys: seq<nat>, zs: seq<nat>, move: nat -> nat, r: nat, c: nat)
    requires m.Length1 % 64 == 0 && r < m.Length0 && c < m.Length1
    requires MovesBlocks(Flat(m, m.Length0), ys, move) && MovesBlocks(Row(m, r), zs, move)
    ensures Idx(r, c, m.Length1) < |ys| && ys[Idx(r, c, m.Length1)] == zs[c]
  {
    FlatLength(m, m.Length0);
    var a, b, j := BlockOf(r, c, m.Length1);
    IdxBound(r, 64 * b + 63, m.Length0, m.Length1);
    assert Moves(Row(m, r), zs, move, b, j);
    assert Moves(Flat(m, m.Length0), ys, move, a + b, j);
    FlatAt(m, m.Length0, r, 64 * b + move(j));
    assert Idx(r, 64 * b + move(j), m.Length1) == 64 * (a + b) + move(j);
  }

  /** `reshape((-1, size_n))`. */
  method Unflatten(xs: seq<nat>, rows: nat, n: nat) returns (m: array2<nat>)
    requires |xs| == rows * n
    ensures fresh(m) && m.Length0 == rows && m.Length1 == n
    ensures forall r, c :: 0 <= r < rows && 0 <= c < n ==> Idx(r, c, n) < |xs| && m[r, c] == xs[Idx(r, c, n)]
  {
    forall r, c | 0 <= r < rows && 0 <= c < n ensures Idx(r, c, n) < |xs| {
      IdxBound(r, c, rows, n);
    }
    m := new nat[rows, n]((r, c) => if 0 <= r && 0 <= c && r * n + c < |xs| then xs[r * n + c] else 0);
  }

  /** The reshaping and indexing steps between unpacking and packing. */
  method RearrangeMatrix(zp: array2<nat>, bits: nat) returns (back: array2<nat>)
    requires Supported(bits) && zp.Length1 % 64 == 0
    ensures fresh(back) && back.Length0 == zp.Length0 && back.Length1 == zp.Length1
    ensures forall r :: 0 <= r < zp.Length0 ==> Row(back, r) == Rearrange(Row(zp, r), bits)
  {
    FlatLength(zp, zp.Length0);
    MultipleOf64(zp.Length0, zp.Length1);
    var flat := Rearrange(Flat(zp, zp.Length0), bits);
    back := Unflatten(flat, zp.Length0, zp.Length1);
    RearrangeMovesBlocks(Flat(zp, zp.Length0), bits);
    forall r | 0 <= r < zp.Length0 ensures Row(back, r) == Rearrange(Row(zp, r), bits) {
      RearrangeMovesBlocks(Row(zp, r), bits);
      forall c | 0 <= c < zp.Length1 ensures back[r, c] == Rearrange(Row(zp, r), bits)[c] {
        MovesByRows(zp, flat, Rearrange(Row(zp, r), bits), SourceMap(bits), r, c);
      }
    }
  }

  /** `awq_to_marlin_zero_points`: unpack, permute the flat matrix, cut into rows, pack. */
  method AwqToMarlinZeroPoints(q: array2<nat>, bits: nat) returns (res: array2<nat>)
    requires Supported(bits) && FirstOf(q.Length1, bits) % 64 == 0
    ensures fresh(res) && res.Length0 == q.Length0 && res.Length1 == q.Length1
    ensures forall r :: 0 <= r < q.Length0 ==> Row(res, r) == AwqToMarlin(Row(q, r), bits)
  {
    var zp := UnpackCols(q, bits);
    var back := RearrangeMatrix(zp, bits);
    res := PackCols(back, bits);
  }

  /** Entry by entry: a zero-point moves to the fixed place in its own row and its own block of 64 columns. */
  lemma ConversionOfEntry(q: array2<nat>, res: array2<nat>, bits: nat, r: nat, b: nat, j: nat)
    requires Supported(bits) && FirstOf(q.Length1, bits) % 64 == 0 && r < q.Length0 == res.Length0
    requires Row(res, r) == AwqToMarlin(Row(q, r), bits)
    requires j < 64 && 64 * b + j < FirstOf(q.Length1, bits)
    ensures Source(j, bits) < 64 && 64 * b + Source(j, bits) < FirstOf(q.Length1, bits)
    ensures Unpack(Row(res, r), bits)[64 * b + j] == Unpack(Row(q, r), bits)[64 * b + Source(j, bits)]
  {
    ConversionMovesColumns(Row(q, r), bits, b, j);
  }
}
