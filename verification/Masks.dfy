/**
  Attention masks.  A mask is a list of rows, one per query token, over the columns of past
  and current keys; an entry is true when the column is hidden from the query.
*/
module Masks {
  import opened Wrappers

  type Row = seq<bool>
  type Mask = seq<Row>

  function Rows(tgtLen: nat, width: nat, hidden: (nat, nat) -> bool): (m: Mask)
    ensures |m| == tgtLen
    ensures forall i :: 0 <= i < tgtLen ==> |m[i]| == width
    ensures forall i, j :: 0 <= i < tgtLen && 0 <= j < width ==> m[i][j] == hidden(i, j)
  {
    seq(tgtLen, (i: nat) => seq(width, (j: nat) => hidden(i, j)))
  }

  function MakeMask(tgtLen: nat, pastKvLen: nat): Mask {
    var offset := tgtLen + pastKvLen;
    Rows(tgtLen, offset, (i, j) => j + tgtLen > i + offset)
  }

  function MakeMaskChunked(tgtLen: nat, pastKvLen: nat, chunkSize: nat): Mask
    requires chunkSize > 0
  {
    Rows(tgtLen, tgtLen + pastKvLen, (i, j) =>
      if j < pastKvLen then false
      else
        var jAdj := j - pastKvLen;
        var blockPos := i / chunkSize - jAdj / chunkSize;
        var tokenPos := jAdj - i;
        !(blockPos == 0 && tokenPos <= 0))
  }

  function MakeSwaMask(tgtLen: nat, pastKvLen: nat, slidingWindow: nat): Mask {
    Rows(tgtLen, tgtLen + pastKvLen, (i, j) =>
      var qPos := pastKvLen + i;
      var tooOld := qPos >= slidingWindow && j <= qPos - slidingWindow;
      j > qPos || tooOld)
  }

  /** The bidirectional masker's sliding mask. */
  function MakeBidirectionalSwaMask(tgtLen: nat, slidingWindow: nat): Mask {
    Rows(tgtLen, tgtLen, (i, j) => (if i >= j then i - j else j - i) >= slidingWindow)
  }

  // ---------------------------------------------------------------- stacking prompt chunks

  /** Hidden columns up to the full width. */
  function Pad(m: Mask, width: nat): Mask {
    seq(|m|, (i: nat) requires i < |m| =>
      if |m[i]| <= width then m[i] + seq(width - |m[i]|, (j: nat) => true) else m[i])
  }

  function Sum(chunks: seq<nat>): nat {
    if chunks == [] then 0 else chunks[0] + Sum(chunks[1..])
  }

  /** The parts of consecutive chunks, each with the tokens before it as its past. */
  function Concat(chunks: seq<nat>, past: nat, part: (nat, nat) -> Mask): Mask
    decreases |chunks|
  {
    if chunks == [] then [] else part(chunks[0], past) + Concat(chunks[1..], past + chunks[0], part)
  }

  function Padded(make: (nat, nat) -> Mask, width: nat): (nat, nat) -> Mask {
    (n: nat, past: nat) => Pad(make(n, past), width)
  }

  /** The masks of consecutive chunks, padded and stacked. */
  function Stack(chunks: seq<nat>, past: nat, width: nat, make: (nat, nat) -> Mask): Mask {
    Concat(chunks, past, Padded(make, width))
  }

  /** An entry depends on the absolute query position only, and the future is hidden. */
  ghost predicate Positional(make: (nat, nat) -> Mask, hidden: (nat, nat) -> bool) {
    && (forall q, j :: q < j ==> hidden(q, j))
    && forall n, past :: ShowsPositions(make(n, past), n, past, hidden)
  }

  ghost predicate ShowsPositions(m: Mask, n: nat, past: nat, hidden: (nat, nat) -> bool) {
    && |m| == n
    && (forall i :: 0 <= i < n ==> |m[i]| == n + past)
    && forall i, j :: 0 <= i < n && 0 <= j < n + past ==> m[i][j] == hidden(past + i, j)
  }

  ghost predicate WholeRow(row: Row, q: nat, width: nat, hidden: (nat, nat) -> bool) {
    |row| == width && forall j :: 0 <= j < width ==> row[j] == hidden(q, j)
  }

  lemma PaddedRow(make: (nat, nat) -> Mask, hidden: (nat, nat) -> bool, n: nat, past: nat, width: nat, i: nat)
    requires Positional(make, hidden) && i < n && past + n <= width
    ensures |Pad(make(n, past), width)| == n && WholeRow(Pad(make(n, past), width)[i], past + i, width, hidden)
  {
    var m := make(n, past);
    assert ShowsPositions(m, n, past, hidden);
    var row := Pad(m, width)[i];
    assert row == m[i] + seq(width - |m[i]|, (j: nat) => true);
  }

  /** One row per token. */
  ghost predicate Sized(make: (nat, nat) -> Mask) {
    forall n: nat, past: nat :: |make(n, past)| == n
  }

  lemma {:induction false} ConcatLength(chunks: seq<nat>, past: nat, part: (nat, nat) -> Mask)
    requires Sized(part)
    ensures |Concat(chunks, past, part)| == Sum(chunks)
    decreases |chunks|
  {
    if chunks != [] { ConcatLength(chunks[1..], past + chunks[0], part); }
  }

  lemma PaddedIsSized(make: (nat, nat) -> Mask, width: nat)
    requires Sized(make)
    ensures Sized(Padded(make, width))
  {
    forall n: nat, past: nat ensures |Padded(make, width)(n, past)| == n {
      assert |make(n, past)| == n;
    }
  }

  lemma PositionalIsSized(make: (nat, nat) -> Mask, hidden: (nat, nat) -> bool)
    requires Positional(make, hidden)
    ensures Sized(make)
  {
    forall n: nat, past: nat ensures |make(n, past)| == n {
      assert ShowsPositions(make(n, past), n, past, hidden);
    }
  }

  /** Token i of the chunks is token k of a chunk of n tokens after p others. */
  datatype Place = Place(n: nat, p: nat, k: nat)

  function Locate(chunks: seq<nat>, past: nat, i: nat): Place
    requires i < Sum(chunks)
    decreases |chunks|
  {
    if i < chunks[0] then Place(chunks[0], past, i) else Locate(chunks[1..], past + chunks[0], i - chunks[0])
  }

  lemma {:induction false} LocateFinds(chunks: seq<nat>, past: nat, i: nat)
    requires i < Sum(chunks)
    ensures var at := Locate(chunks, past, i);
            && at.n in chunks && at.k < at.n && at.p + at.k == past + i
            && past <= at.p && at.p + at.n <= past + Sum(chunks)
    decreases |chunks|
  {
    if i >= chunks[0] { LocateFinds(chunks[1..], past + chunks[0], i - chunks[0]); }
  }

  lemma {:induction false} ConcatAt(chunks: seq<nat>, past: nat, part: (nat, nat) -> Mask, i: nat)
    requires Sized(part) && i < Sum(chunks)
    ensures |Concat(chunks, past, part)| == Sum(chunks)
    ensures var at := Locate(chunks, past, i);
            at.k < at.n && Concat(chunks, past, part)[i] == part(at.n, at.p)[at.k]
    decreases |chunks|
  {
    LocateFinds(chunks, past, i);
    ConcatLength(chunks, past, part);
    ConcatLength(chunks[1..], past + chunks[0], part);
    if i >= chunks[0] { ConcatAt(chunks[1..], past + chunks[0], part, i - chunks[0]); }
  }

  lemma StackAt(chunks: seq<nat>, width: nat, make: (nat, nat) -> Mask, i: nat)
    requires Sized(make) && i < Sum(chunks)
    ensures |Stack(chunks, 0, width, make)| == Sum(chunks)
    ensures var at := Locate(chunks, 0, i);
            at.k < at.n && Stack(chunks, 0, width, make)[i] == Pad(make(at.n, at.p), width)[at.k]
  {
    PaddedIsSized(make, width);
    ConcatAt(chunks, 0, Padded(make, width), i);
  }

  lemma StackRow(chunks: seq<nat>, make: (nat, nat) -> Mask, hidden: (nat, nat) -> bool, i: nat)
    requires Positional(make, hidden) && i < Sum(chunks)
    ensures |Stack(chunks, 0, Sum(chunks), make)| == Sum(chunks)
    ensures WholeRow(Stack(chunks, 0, Sum(chunks), make)[i], i, Sum(chunks), hidden)
  {
    PositionalIsSized(make, hidden);
    var at := Locate(chunks, 0, i);
    LocateFinds(chunks, 0, i);
    StackAt(chunks, Sum(chunks), make, i);
    PaddedRow(make, hidden, at.n, at.p, Sum(chunks), at.k);
  }

  lemma StackIsWhole(chunks: seq<nat>, make: (nat, nat) -> Mask, hidden: (nat, nat) -> bool)
    requires Positional(make, hidden)
    ensures Stack(chunks, 0, Sum(chunks), make) == make(Sum(chunks), 0)
  {
    var total := Sum(chunks);
    var s, m := Stack(chunks, 0, total, make), make(total, 0);
    PositionalIsSized(make, hidden);
    PaddedIsSized(make, total);
    ConcatLength(chunks, 0, Padded(make, total));
    assert ShowsPositions(m, total, 0, hidden);
    forall i | 0 <= i < total ensures s[i] == m[i] {
      StackRow(chunks, make, hidden, i);
      assert forall j :: 0 <= j < total ==> s[i][j] == hidden(0 + i, j) && m[i][j] == hidden(0 + i, j);
    }
  }

  predicate CausalHidden(q: nat, j: nat) {
    j > q
  }

  function SwaHidden(window: nat): (nat, nat) -> bool {
    (q: nat, j: nat) => j > q || j + window <= q
  }

  function SwaMaker(window: nat): (nat, nat) -> Mask {
    (n: nat, past: nat) => MakeSwaMask(n, past, window)
  }

  /** Causal masks of any chunks of a prompt, stacked, are the causal mask of the prompt. */
  lemma CausalChunksStack(chunks: seq<nat>)
    ensures Stack(chunks, 0, Sum(chunks), MakeMask) == MakeMask(Sum(chunks), 0)
  {
    forall n, past ensures ShowsPositions(MakeMask(n, past), n, past, CausalHidden) {
    }
    StackIsWhole(chunks, MakeMask, CausalHidden);
  }

  /** And so are sliding-window masks. */
  lemma SlidingChunksStack(chunks: seq<nat>, window: nat)
    ensures Stack(chunks, 0, Sum(chunks), SwaMaker(window)) == MakeSwaMask(Sum(chunks), 0, window)
  {
    forall n, past ensures ShowsPositions(SwaMaker(window)(n, past), n, past, SwaHidden(window)) {
    }
    StackIsWhole(chunks, SwaMaker(window), SwaHidden(window));
  }

  // ---------------------------------------------------------------- what a sliding row shows

  function Visible(row: Row): nat {
    if row == [] then 0 else (if row[|row| - 1] then 0 else 1) + Visible(row[..|row| - 1])
  }

  function Min(a: nat, b: nat): nat {
    if a <= b then a else b
  }

  ghost predicate VisibleExactly(row: Row, lo: nat, hi: nat) {
    forall j :: 0 <= j < |row| ==> (row[j] <==> !(lo <= j < hi))
  }

  lemma {:induction false} VisibleInterval(row: Row, lo: nat, hi: nat)
    requires lo <= hi && VisibleExactly(row, lo, hi)
    ensures Visible(row) == if hi <= |row| then hi - lo else if lo <= |row| then |row| - lo else 0
    decreases |row|
  {
    if row != [] {
      VisibleInterval(row[..|row| - 1], lo, hi);
    }
  }

  /** A causal row shows everything up to its own position. */
  lemma CausalRowShowsPast(tgtLen: nat, pastKvLen: nat, i: nat)
    requires i < tgtLen
    ensures var row, q := MakeMask(tgtLen, pastKvLen)[i], pastKvLen + i;
            |row| == tgtLen + pastKvLen && Visible(row) == q + 1 && VisibleExactly(row, 0, q + 1)
  {
    VisibleInterval(MakeMask(tgtLen, pastKvLen)[i], 0, pastKvLen + i + 1);
  }

  /** A bidirectional row shows the columns closer than the window on both sides. */
  lemma BidirectionalRowShowsNear(n: nat, window: nat, i: nat)
    requires i < n && window > 0
    ensures var row := MakeBidirectionalSwaMask(n, window)[i];
            VisibleExactly(row, i + 1 - Min(i + 1, window), i + window)
            && Visible(row) == Min(i + 1, window) + Min(n - i, window) - 1
  {
    VisibleInterval(MakeBidirectionalSwaMask(n, window)[i], i + 1 - Min(i + 1, window), i + window);
  }

  /** A row shows the min(qPos + 1, window) columns that end at its own position. */
  lemma SlidingRowShowsWindow(tgtLen: nat, pastKvLen: nat, window: nat, i: nat)
    requires i < tgtLen
    ensures var row, q := MakeSwaMask(tgtLen, pastKvLen, window)[i], pastKvLen + i;
            Visible(row) == Min(q + 1, window) && VisibleExactly(row, q + 1 - Min(q + 1, window), q + 1)
  {
    var row, q := MakeSwaMask(tgtLen, pastKvLen, window)[i], pastKvLen + i;
    VisibleInterval(row, q + 1 - Min(q + 1, window), q + 1);
  }

  lemma SameRows(a: Mask, b: Mask, n: nat, width: nat)
    requires |a| == |b| == n && forall i :: 0 <= i < n ==> |a[i]| == |b[i]| == width
    requires forall i, j :: 0 <= i < n && 0 <= j < width ==> a[i][j] == b[i][j]
    ensures a == b
  {
    forall i | 0 <= i < n ensures a[i] == b[i] {
    }
  }

  /** Hidden in either mask. */
  function Intersection(a: Mask, b: Mask, n: nat): Mask
    requires |a| == |b| == n && forall i :: 0 <= i < n ==> |a[i]| == |b[i]| == n
  {
    Rows(n, n, (i, j) => 0 <= i < n && 0 <= j < n && (a[i][j] || b[i][j]))
  }

  /** Without a past, sliding is the intersection of causal and bidirectional sliding. */
  lemma SlidingIsCausalAndNear(n: nat, window: nat)
    ensures MakeSwaMask(n, 0, window) == Intersection(MakeMask(n, 0), MakeBidirectionalSwaMask(n, window), n)
  {
    SameRows(MakeSwaMask(n, 0, window), Intersection(MakeMask(n, 0), MakeBidirectionalSwaMask(n, window), n), n, n);
  }

  /** The window never matters exactly while everything fits into it. */
  lemma SlidingIsCausalIff(tgtLen: nat, pastKvLen: nat, window: nat)
    ensures MakeSwaMask(tgtLen, pastKvLen, window) == MakeMask(tgtLen, pastKvLen)
            <==> tgtLen == 0 || tgtLen + pastKvLen <= window
  {
    var s, c := MakeSwaMask(tgtLen, pastKvLen, window), MakeMask(tgtLen, pastKvLen);
    if tgtLen == 0 || tgtLen + pastKvLen <= window {
      SameRows(s, c, tgtLen, tgtLen + pastKvLen);
    } else {
      assert s[tgtLen - 1][0] && !c[tgtLen - 1][0];
    }
  }

  // ---------------------------------------------------------------- chunked attention

  lemma SmallQuotient(x: nat, c: nat)
    requires x < c
    ensures x / c == 0
  {
  }

  lemma SameBlock(i: nat, j: nat, c: nat)
    requires c > 0 && j <= i
    ensures i / c == j / c <==> c * (i / c) <= j
  {
    var q := i / c;
    assert i == c * q + i % c && j == c * (j / c) + j % c;
    if c * q <= j {
      QuotientIs(j, c, q);
    }
  }

  lemma QuotientIs(j: nat, c: nat, q: nat)
    requires c > 0 && c * q <= j < c * q + c
    ensures j / c == q
  {
    var p := j / c;
    assert j == c * p + j % c;
    Ordered(p, q, c);
    Ordered(q, p, c);
  }

  lemma Ordered(p: nat, q: nat, c: nat)
    ensures p < q ==> c * p + c <= c * q
  {
    if p < q { assert c * (p + 1) <= c * q; }
  }

  /** A chunked row shows the whole past, and of the new tokens those from the start of its chunk to itself. */
  lemma ChunkedRowShowsChunk(tgtLen: nat, pastKvLen: nat, chunkSize: nat, i: nat, j: nat)
    requires chunkSize > 0 && i < tgtLen && j < tgtLen + pastKvLen
    ensures !MakeMaskChunked(tgtLen, pastKvLen, chunkSize)[i][j]
            <==> j < pastKvLen || chunkSize * (i / chunkSize) <= j - pastKvLen <= i
  {
    if pastKvLen <= j <= pastKvLen + i {
      SameBlock(i, j - pastKvLen, chunkSize);
    }
  }

  /** The chunked mask is the causal mask exactly when one chunk holds all new tokens. */
  lemma ChunkedIsCausalIff(tgtLen: nat, pastKvLen: nat, chunkSize: nat)
    requires chunkSize > 0
    ensures MakeMaskChunked(tgtLen, pastKvLen, chunkSize) == MakeMask(tgtLen, pastKvLen) <==> chunkSize >= tgtLen
  {
    var k, c := MakeMaskChunked(tgtLen, pastKvLen, chunkSize), MakeMask(tgtLen, pastKvLen);
    if chunkSize >= tgtLen {
      forall i, j | 0 <= i < tgtLen && 0 <= j < tgtLen + pastKvLen ensures k[i][j] == c[i][j] {
        if j >= pastKvLen {
          SmallQuotient(i, chunkSize);
          SmallQuotient(j - pastKvLen, chunkSize);
        }
      }
      SameRows(k, c, tgtLen, tgtLen + pastKvLen);
    } else {
      assert chunkSize / chunkSize == 1;
      SmallQuotient(0, chunkSize);
      assert k[chunkSize][pastKvLen] && !c[chunkSize][pastKvLen];
    }
  }

  // ---------------------------------------------------------------- stacking chunked masks

  function ChunkedMaker(chunkSize: nat): (nat, nat) -> Mask
    requires chunkSize > 0
  {
    (n: nat, past: nat) => MakeMaskChunked(n, past, chunkSize)
  }

  lemma {:induction false} SameConcat(
    chunks: seq<nat>, past: nat, f: (nat, nat) -> Mask, g: (nat, nat) -> Mask)
    requires forall n: nat, p: nat :: n in chunks ==> f(n, p) == g(n, p)
    ensures Concat(chunks, past, f) == Concat(chunks, past, g)
    decreases |chunks|
  {
    if chunks != [] {
      assert chunks[0] in chunks;
      SameConcat(chunks[1..], past + chunks[0], f, g);
    }
  }

  lemma {:induction false} SumBounds(chunks: seq<nat>, n: nat)
    requires n in chunks
    ensures n <= Sum(chunks)
    decreases |chunks|
  {
    if n != chunks[0] { SumBounds(chunks[1..], n); }
  }

  /** While everything fits into one attention chunk, all the masks involved are causal. */
  lemma ShortPromptStacks(chunks: seq<nat>, chunkSize: nat)
    requires chunkSize > 0 && Sum(chunks) <= chunkSize
    ensures Stack(chunks, 0, Sum(chunks), ChunkedMaker(chunkSize)) == MakeMaskChunked(Sum(chunks), 0, chunkSize)
  {
    forall n: nat, p: nat | n in chunks ensures ChunkedMaker(chunkSize)(n, p) == MakeMask(n, p) {
      SumBounds(chunks, n);
      ChunkedIsCausalIff(n, p, chunkSize);
    }
    SameConcat(chunks, 0, Padded(ChunkedMaker(chunkSize), Sum(chunks)), Padded(MakeMask, Sum(chunks)));
    CausalChunksStack(chunks);
    ChunkedIsCausalIff(Sum(chunks), 0, chunkSize);
  }

  /** With all tokens in one prompt chunk there is nothing to stack. */
  lemma {:induction false} OneChunkConcat(chunks: seq<nat>, total: nat, part: (nat, nat) -> Mask)
    requires Sized(part) && total in chunks && Sum(chunks) == total
    ensures Concat(chunks, 0, part) == part(total, 0)
    decreases |chunks|
  {
    if chunks[0] == total {
      ConcatLength(chunks[1..], total, part);
    } else {
      SumBounds(chunks[1..], total);
      assert part(0, 0) == [];
      OneChunkConcat(chunks[1..], total, part);
    }
  }

  lemma PadNothing(m: Mask, width: nat)
    requires forall i :: 0 <= i < |m| ==> |m[i]| == width
    ensures Pad(m, width) == m
  {
    forall i | 0 <= i < |m| ensures Pad(m, width)[i] == m[i] {
      assert Pad(m, width)[i] == m[i] + seq(0, (j: nat) => true);
    }
  }

  lemma OnePieceStacks(chunks: seq<nat>, chunkSize: nat)
    requires chunkSize > 0 && Sum(chunks) in chunks
    ensures Stack(chunks, 0, Sum(chunks), ChunkedMaker(chunkSize)) == MakeMaskChunked(Sum(chunks), 0, chunkSize)
  {
    var total, make := Sum(chunks), ChunkedMaker(chunkSize);
    PaddedIsSized(make, total);
    OneChunkConcat(chunks, total, Padded(make, total));
    PadNothing(make(total, 0), total);
  }

  /** The last row of a stack of several chunks sees the first token. */
  lemma LastRowSeesFirst(chunks: seq<nat>, chunkSize: nat)
    requires chunkSize > 0 && Sum(chunks) > 0 && Sum(chunks) !in chunks
    ensures var s, last := Stack(chunks, 0, Sum(chunks), ChunkedMaker(chunkSize)), Sum(chunks) - 1;
            |s| == Sum(chunks) && |s[last]| == Sum(chunks) && !s[last][0]
  {
    var total, make := Sum(chunks), ChunkedMaker(chunkSize);
    var at := Locate(chunks, 0, total - 1);
    LocateFinds(chunks, 0, total - 1);
    StackAt(chunks, total, make, total - 1);
    var n, p, k := at.n, at.p, at.k;
    assert p > 0;
    var row := make(n, p)[k];
    assert Pad(make(n, p), total)[k] == row + seq(total - |row|, (j: nat) => true);
    ChunkedRowShowsChunk(n, p, chunkSize, k, 0);
  }

  /**
    A chunked mask shows the whole past, so splitting a prompt changes it, unless all of it
    fits into one attention chunk or into one prompt chunk.
  */
  lemma ChunkedChunksStackIff(chunks: seq<nat>, chunkSize: nat)
    requires chunkSize > 0
    ensures Stack(chunks, 0, Sum(chunks), ChunkedMaker(chunkSize)) == MakeMaskChunked(Sum(chunks), 0, chunkSize)
            <==> Sum(chunks) <= chunkSize || Sum(chunks) in chunks
  {
    var total := Sum(chunks);
    if total <= chunkSize {
      ShortPromptStacks(chunks, chunkSize);
    } else if total in chunks {
      OnePieceStacks(chunks, chunkSize);
    } else {
      SplitPromptDiffers(chunks, chunkSize);
    }
  }

  lemma SplitPromptDiffers(chunks: seq<nat>, chunkSize: nat)
    requires chunkSize > 0 && Sum(chunks) > chunkSize && Sum(chunks) !in chunks
    ensures Stack(chunks, 0, Sum(chunks), ChunkedMaker(chunkSize)) != MakeMaskChunked(Sum(chunks), 0, chunkSize)
  {
    LastRowSeesFirst(chunks, chunkSize);
    LastRowHidesFirst(Sum(chunks), chunkSize);
  }

  lemma LastRowHidesFirst(total: nat, chunkSize: nat)
    requires 0 < chunkSize < total
    ensures MakeMaskChunked(total, 0, chunkSize)[total - 1][0]
  {
    WholeQuotient(total - 1, chunkSize);
    ChunkedRowShowsChunk(total, 0, chunkSize, total - 1, 0);
  }

  lemma WholeQuotient(x: nat, c: nat)
    requires 0 < c <= x
    ensures c * (x / c) > 0
  {
    assert x == c * (x / c) + x % c;
  }

  // ---------------------------------------------------------------- the entry points

  datatype AttentionMask = NoMask | CausalFlash | Custom(mask: Mask)

  datatype CausalMaskConfig = CausalMaskConfig(slidingWindow: Option<nat>, forceCustom: bool)

  function CustomMask(tgtLen: nat, pastKvLen: nat, cfg: CausalMaskConfig): Mask {
    if cfg.slidingWindow.Some? then MakeSwaMask(tgtLen, pastKvLen, cfg.slidingWindow.value)
    else MakeMask(tgtLen, pastKvLen)
  }

  function MakeCausalMask(tgtLen: nat, pastKvLen: nat, cfg: CausalMaskConfig, flashOnCuda: bool): AttentionMask {
    if tgtLen == 1 then NoMask
    else if !cfg.forceCustom && flashOnCuda then CausalFlash
    else Custom(CustomMask(tgtLen, pastKvLen, cfg))
  }

  /** No mask hides nothing. */
  function AllVisible(tgtLen: nat, width: nat): Mask {
    Rows(tgtLen, width, (i, j) => false)
  }

  /**
    Single-token decoding gets no mask.  That equals the mask it stands for always in causal
    mode, and in sliding mode exactly while the past is shorter than the window.
  */
  lemma SingleTokenShortcut(pastKvLen: nat, cfg: CausalMaskConfig, flashOnCuda: bool)
    ensures MakeCausalMask(1, pastKvLen, cfg, flashOnCuda) == NoMask
    ensures CustomMask(1, pastKvLen, cfg) == AllVisible(1, 1 + pastKvLen)
            <==> cfg.slidingWindow.None? || pastKvLen < cfg.slidingWindow.value
  {
    var m, v := CustomMask(1, pastKvLen, cfg), AllVisible(1, 1 + pastKvLen);
    if cfg.slidingWindow.None? || pastKvLen < cfg.slidingWindow.value {
      SameRows(m, v, 1, 1 + pastKvLen);
    } else {
      assert m[0][0] && !v[0][0];
    }
  }

  /** The chunked entry point has the same shortcut. */
  function MakeChunkedMaskMatrix(tgtLen: nat, pastKvLen: nat, chunkSize: nat): Option<Mask>
    requires chunkSize > 0
  {
    if tgtLen == 1 then None else Some(MakeMaskChunked(tgtLen, pastKvLen, chunkSize))
  }

  /** There it is always exact: a single token sees the whole past and itself. */
  lemma SingleTokenChunkedShortcut(pastKvLen: nat, chunkSize: nat)
    requires chunkSize > 0
    ensures MakeChunkedMaskMatrix(1, pastKvLen, chunkSize) == None
    ensures MakeMaskChunked(1, pastKvLen, chunkSize) == AllVisible(1, 1 + pastKvLen)
  {
    ChunkedIsCausalIff(1, pastKvLen, chunkSize);
    SameRows(MakeMask(1, pastKvLen), AllVisible(1, 1 + pastKvLen), 1, 1 + pastKvLen);
  }

  // ---------------------------------------------------------------- masks of whole prompts

  /** The first column that query q still sees. */
  function FirstSeen(q: nat, window: Option<nat>): nat {
    if window.None? then 0 else q + 1 - Min(q + 1, window.value)
  }

  /** Every query i sees exactly the columns from the start of its window up to its own position. */
  ghost predicate ShowsWindows(m: Mask, tgtLen: nat, pastKvLen: nat, window: Option<nat>) {
    && |m| == tgtLen
    && forall i :: 0 <= i < tgtLen ==>
         |m[i]| == tgtLen + pastKvLen && VisibleExactly(m[i], FirstSeen(pastKvLen + i, window), pastKvLen + i + 1)
  }

  /**
    For any number of tokens but one: the entry point leaves causality to the flash kernel
    exactly when that is in use and no custom mask is forced; otherwise its mask shows every
    query its window, or the whole past if there is no window.
  */
  lemma PromptMask(tgtLen: nat, pastKvLen: nat, cfg: CausalMaskConfig, flashOnCuda: bool)
    requires tgtLen != 1
    ensures var r := MakeCausalMask(tgtLen, pastKvLen, cfg, flashOnCuda);
            && (r.Custom? <==> cfg.forceCustom || !flashOnCuda)
            && (r.CausalFlash? <==> !cfg.forceCustom && flashOnCuda)
            && (r.Custom? ==> ShowsWindows(r.mask, tgtLen, pastKvLen, cfg.slidingWindow))
  {
    var m := CustomMask(tgtLen, pastKvLen, cfg);
    forall i | 0 <= i < tgtLen
      ensures |m[i]| == tgtLen + pastKvLen
      ensures VisibleExactly(m[i], FirstSeen(pastKvLen + i, cfg.slidingWindow), pastKvLen + i + 1)
    {
      if cfg.slidingWindow.Some? {
        SlidingRowShowsWindow(tgtLen, pastKvLen, cfg.slidingWindow.value, i);
      } else {
        CausalRowShowsPast(tgtLen, pastKvLen, i);
      }
    }
  }

  /** The same for the chunked entry point: the whole past, and the chunk of the query up to itself. */
  lemma ChunkedPromptMask(tgtLen: nat, pastKvLen: nat, chunkSize: nat, i: nat, j: nat)
    requires chunkSize > 0 && tgtLen != 1
    ensures MakeChunkedMaskMatrix(tgtLen, pastKvLen, chunkSize).Some?
    ensures var m := MakeChunkedMaskMatrix(tgtLen, pastKvLen, chunkSize).value;
            && |m| == tgtLen
            && (i < tgtLen ==> |m[i]| == tgtLen + pastKvLen)
            && (i < tgtLen && j < tgtLen + pastKvLen ==>
                  (!m[i][j] <==> j < pastKvLen || chunkSize * (i / chunkSize) <= j - pastKvLen <= i))
  {
    if i < tgtLen && j < tgtLen + pastKvLen { ChunkedRowShowsChunk(tgtLen, pastKvLen, chunkSize, i, j); }
  }
}
