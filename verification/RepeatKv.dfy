/**
  Repeating key/value heads: concatenating copies along the sequence axis and reinterpreting
  the row-major data puts copies of each head next to each other.
*/
module RepeatKv {
  import opened Wrappers
  import opened RowMajor

  /** Row-major data. */
  datatype Tensor<T> = Tensor(dims: seq<nat>, data: seq<T>)

  function Count(dims: seq<nat>): nat {
    if dims == [] then 1 else Count(dims[..|dims| - 1]) * dims[|dims| - 1]
  }

  ghost predicate Valid<T>(t: Tensor<T>) {
    |t.data| == Count(t.dims)
  }

  lemma Associate(a: nat, b: nat, c: nat)
    ensures (a * b) * c == a * (b * c)
  {
  }

  lemma CountFour(b: nat, h: nat, s: nat, d: nat)
    ensures Count([b, h, s, d]) == (b * h) * (s * d)
  {
    assert [b, h, s, d][..3] == [b, h, s] && [b, h, s][..2] == [b, h] && [b, h][..1] == [b] && [b][..0] == [];
    assert Count([b]) == b;
    assert Count([b, h]) == b * h;
    assert Count([b, h, s]) == (b * h) * s;
    Associate(b * h, s, d);
  }

  /** Row-major position in a rank-4 tensor. */
  function Pos(i: nat, j: nat, k: nat, l: nat, h: nat, s: nat, d: nat): nat {
    Idx(Idx(Idx(i, j, h), k, s), l, d)
  }

  lemma PosByBlock(i: nat, j: nat, k: nat, l: nat, h: nat, s: nat, d: nat)
    ensures Pos(i, j, k, l, h, s, d) == Idx(Idx(i, j, h), Idx(k, l, d), s * d)
  {
    var o := Idx(i, j, h);
    assert (o * s + k) * d == o * (s * d) + k * d;
  }

  lemma PosBound(i: nat, j: nat, k: nat, l: nat, b: nat, h: nat, s: nat, d: nat)
    requires i < b && j < h && k < s && l < d
    ensures Pos(i, j, k, l, h, s, d) < Count([b, h, s, d])
  {
    CountFour(b, h, s, d);
    PosByBlock(i, j, k, l, h, s, d);
    IdxBound(i, j, b, h);
    IdxBound(k, l, s, d);
    IdxBound(Idx(i, j, h), Idx(k, l, d), b * h, s * d);
  }

  // ---------------------------------------------------------------- cat and reshape

  function Copies<T>(s: seq<T>, n: nat): seq<T> {
    if n == 0 then [] else Copies(s, n - 1) + s
  }

  /** For each of the outer positions, n copies of its block of `len` values. */
  function CatData<T>(data: seq<T>, outer: nat, len: nat, n: nat): seq<T>
    requires outer * len <= |data|
  {
    if outer == 0 then []
    else
      BlockRange(outer, len);
      CatData(data, outer - 1, len, n) + Copies(data[(outer - 1) * len..outer * len], n)
  }

  lemma BlockRange(outer: nat, len: nat)
    requires outer > 0
    ensures 0 <= (outer - 1) * len <= outer * len && outer * len - (outer - 1) * len == len
  {
    assert outer * len == (outer - 1) * len + len;
  }

  /** `Tensor::cat` of n copies along axis 2; no tensors to concatenate is an error. */
  function Cat<T>(x: Tensor<T>, n: nat): Result<Tensor<T>>
    requires Valid(x) && |x.dims| == 4
  {
    if n == 0 then Err("cat requires at least one tensor")
    else
      var b, h, s, d := x.dims[0], x.dims[1], x.dims[2], x.dims[3];
      CountFour(b, h, s, d);
      assert x.dims == [b, h, s, d];
      Ok(Tensor([b, h, n * s, d], CatData(x.data, b * h, s * d, n)))
  }

  function Reshape<T>(x: Tensor<T>, dims: seq<nat>): Result<Tensor<T>> {
    if |x.data| == Count(dims) then Ok(Tensor(dims, x.data)) else Err("shape mismatch")
  }

  function RepeatKv<T>(x: Tensor<T>, nRep: nat): Result<Tensor<T>>
    requires Valid(x)
  {
    if nRep == 1 then Ok(x)
    else if |x.dims| != 4 then Err("unexpected rank")
    else
      var cat := Cat(x, nRep);
      if cat.Err? then Err(cat.error)
      else Reshape(cat.value, [x.dims[0], x.dims[1] * nRep, x.dims[2], x.dims[3]])
  }

  // ---------------------------------------------------------------- what it computes

  lemma {:induction false} CopiesEntry<T>(s: seq<T>, n: nat, r: nat, e: nat)
    requires r < n && e < |s|
    ensures |Copies(s, n)| == n * |s| && Idx(r, e, |s|) < n * |s| && Copies(s, n)[Idx(r, e, |s|)] == s[e]
    decreases n
  {
    CopiesLength(s, n);
    CopiesLength(s, n - 1);
    IdxBound(r, e, n, |s|);
    if r < n - 1 {
      CopiesEntry(s, n - 1, r, e);
    }
  }

  lemma {:induction false} CopiesLength<T>(s: seq<T>, n: nat)
    ensures |Copies(s, n)| == n * |s|
  {
    if n > 0 {
      CopiesLength(s, n - 1);
      assert n * |s| == (n - 1) * |s| + |s|;
    }
  }

  lemma {:induction false} CatLength<T>(data: seq<T>, outer: nat, len: nat, n: nat)
    requires outer * len <= |data|
    ensures |CatData(data, outer, len, n)| == (outer * n) * len
    decreases outer
  {
    if outer > 0 {
      BlockRange(outer, len);
      CatLength(data, outer - 1, len, n);
      CopiesLength(data[(outer - 1) * len..outer * len], n);
      Distribute(outer - 1, n, len);
    }
  }

  lemma Distribute(o: nat, n: nat, len: nat)
    ensures ((o + 1) * n) * len == (o * n) * len + n * len
  {
    assert (o + 1) * n == o * n + n;
  }

  lemma CopyPosition(o: nat, r: nat, e: nat, n: nat, len: nat)
    ensures Idx(Idx(o, r, n), e, len) == (o * n) * len + Idx(r, e, len)
  {
    assert (o * n + r) * len == (o * n) * len + r * len;
  }

  /** Copy r of outer position o is the block of o. */
  lemma {:induction false} CatEntry<T>(data: seq<T>, outer: nat, len: nat, n: nat, o: nat, r: nat, e: nat)
    requires outer * len <= |data| && o < outer && r < n && e < len
    ensures Idx(o, e, len) < |data| && Idx(Idx(o, r, n), e, len) < |CatData(data, outer, len, n)|
    ensures CatData(data, outer, len, n)[Idx(Idx(o, r, n), e, len)] == data[Idx(o, e, len)]
    decreases outer
  {
    BlockRange(outer, len);
    var head := CatData(data, outer - 1, len, n);
    if o < outer - 1 {
      CatEntry(data, outer - 1, len, n, o, r, e);
    } else {
      LastBlockEntry(data, o, len, n, r, e);
    }
  }

  lemma LastBlockEntry<T>(data: seq<T>, o: nat, len: nat, n: nat, r: nat, e: nat)
    requires (o + 1) * len <= |data| && r < n && e < len
    ensures Idx(o, e, len) < |data| && Idx(Idx(o, r, n), e, len) < |CatData(data, o + 1, len, n)|
    ensures CatData(data, o + 1, len, n)[Idx(Idx(o, r, n), e, len)] == data[Idx(o, e, len)]
  {
    BlockRange(o + 1, len);
    var head, block := CatData(data, o, len, n), data[o * len..(o + 1) * len];
    CatLength(data, o, len, n);
    CopiesEntry(block, n, r, e);
    CopyPosition(o, r, e, n, len);
    assert CatData(data, o + 1, len, n) == head + Copies(block, n);
  }

  lemma RepeatKvData<T>(x: Tensor<T>, nRep: nat, b: nat, h: nat, s: nat, d: nat)
    requires Valid(x) && x.dims == [b, h, s, d] && nRep > 1
    ensures (b * h) * (s * d) == |x.data|
    ensures RepeatKv(x, nRep) == Ok(Tensor([b, h * nRep, s, d], CatData(x.data, b * h, s * d, nRep)))
    ensures Valid(RepeatKv(x, nRep).value)
  {
    CountFour(b, h, s, d);
    CountFour(b, h * nRep, s, d);
    CatLength(x.data, b * h, s * d, nRep);
    Associate(b, h, nRep);
  }

  /** It succeeds unless there is nothing to concatenate or the rank is wrong. */
  lemma RepeatKvSucceedsIff<T>(x: Tensor<T>, nRep: nat)
    requires Valid(x)
    ensures RepeatKv(x, nRep).Ok? <==> nRep == 1 || (nRep > 1 && |x.dims| == 4)
    ensures nRep == 1 ==> RepeatKv(x, nRep) == Ok(x)
  {
    if |x.dims| == 4 && nRep > 1 {
      var b, h, s, d := x.dims[0], x.dims[1], x.dims[2], x.dims[3];
      assert x.dims == [b, h, s, d];
      RepeatKvData(x, nRep, b, h, s, d);
    }
  }

  lemma Scale(a: nat, b: nat, n: nat)
    ensures a <= b ==> a * n <= b * n
  {
  }

  lemma HeadSplit(j: nat, h: nat, n: nat)
    requires n > 0 && j < h * n
    ensures j / n < h && j % n < n && j == Idx(j / n, j % n, n)
  {
    assert j == (j / n) * n + j % n;
    Scale(h, j / n, n);
  }

  lemma HeadPosition(i: nat, j: nat, h: nat, n: nat)
    requires n > 0 && j < h * n
    ensures Idx(i, j, h * n) == Idx(Idx(i, j / n, h), j % n, n)
  {
    HeadSplit(j, h, n);
    assert i * (h * n) == (i * h) * n;
    assert (i * h + j / n) * n == (i * h) * n + (j / n) * n;
  }

  lemma CatRepeatsHeads<T>(data: seq<T>, n: nat, b: nat, h: nat, s: nat, d: nat, i: nat, j: nat, k: nat, l: nat)
    requires |data| == (b * h) * (s * d) && n > 0 && i < b && j < h * n && k < s && l < d
    ensures Pos(i, j / n, k, l, h, s, d) < |data| && Pos(i, j, k, l, h * n, s, d) < |CatData(data, b * h, s * d, n)|
    ensures CatData(data, b * h, s * d, n)[Pos(i, j, k, l, h * n, s, d)] == data[Pos(i, j / n, k, l, h, s, d)]
  {
    HeadSplit(j, h, n);
    HeadPosition(i, j, h, n);
    PosByBlock(i, j, k, l, h * n, s, d);
    PosByBlock(i, j / n, k, l, h, s, d);
    IdxBound(i, j / n, b, h);
    IdxBound(k, l, s, d);
    CatEntry(data, b * h, s * d, n, Idx(i, j / n, h), j % n, Idx(k, l, d));
  }

  /** Head j of the result is head j / nRep of the input: each head nRep times in place. */
  lemma RepeatKvRepeatsHeads<T>(x: Tensor<T>, nRep: nat, b: nat, h: nat, s: nat, d: nat, i: nat, j: nat, k: nat, l: nat)
    requires Valid(x) && x.dims == [b, h, s, d] && nRep > 0
    requires i < b && j < h * nRep && k < s && l < d
    ensures RepeatKv(x, nRep).Ok? && RepeatKv(x, nRep).value.dims == [b, h * nRep, s, d]
    ensures Pos(i, j / nRep, k, l, h, s, d) < |x.data|
    ensures Pos(i, j, k, l, h * nRep, s, d) < |RepeatKv(x, nRep).value.data|
    ensures RepeatKv(x, nRep).value.data[Pos(i, j, k, l, h * nRep, s, d)] == x.data[Pos(i, j / nRep, k, l, h, s, d)]
  {
    if nRep == 1 {
      PosBound(i, j, k, l, b, h, s, d);
    } else {
      RepeatKvData(x, nRep, b, h, s, d);
      CatRepeatsHeads(x.data, nRep, b, h, s, d, i, j, k, l);
    }
  }
}
