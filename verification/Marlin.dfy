/**
  AWQ to Marlin zero-point repacking.  Zero-points of 4 or 8 bits are packed into 32-bit
  words along the columns; the conversion unpacks them, undoes the AWQ interleaving,
  applies the Marlin column permutation in blocks of 64, interleaves again and repacks.
  Tensors are row-major, so a matrix whose width is a multiple of 64 is a sequence of
  64-column blocks, each inside one row.
*/
module Marlin {
  import opened Bits

  const WORD: nat := 0x1_0000_0000

  predicate Supported(bits: nat) {
    bits == 4 || bits == 8
  }

  function PackFactor(bits: nat): (f: nat)
    requires Supported(bits)
    ensures f * bits == 32
  {
    32 / bits
  }

  // ---------------------------------------------------------------- digits

  /** `x << bits`, `w >> bits`, and the number of different values of `bits` bits. */
  function Up(x: nat, bits: nat): nat {
    if bits == 4 then 16 * x else 256 * x
  }

  function Down(w: nat, bits: nat): nat {
    if bits == 4 then w / 16 else w / 256
  }

  function Radix(bits: nat): nat {
    if bits == 4 then 16 else 256
  }

  ghost predicate InRange(vs: seq<nat>, bits: nat) {
    forall i :: 0 <= i < |vs| ==> vs[i] < Radix(bits)
  }

  /** Positional notation, least significant value first. */
  function Number(vs: seq<nat>, bits: nat): nat {
    if vs == [] then 0 else vs[0] + Up(Number(vs[1..], bits), bits)
  }

  /** `v << bits * i` */
  function ShiftUp(v: nat, bits: nat, i: nat): nat {
    if i == 0 then v else Up(ShiftUp(v, bits, i - 1), bits)
  }

  /** `bits` applied i times: `w >> bits * i`. */
  function ShiftDown(w: nat, bits: nat, i: nat): nat {
    if i == 0 then w else Down(ShiftDown(w, bits, i - 1), bits)
  }

  /** The word after the first k rounds of the packing loop; a shift drops what leaves 32 bits. */
  function PackWord(vs: seq<nat>, bits: nat, k: nat): nat
    requires k <= |vs|
  {
    if k == 0 then 0 else Or(PackWord(vs, bits, k - 1), ShiftUp(vs[k - 1], bits, k - 1) % WORD)
  }

  function Field(w: nat, bits: nat, i: nat): nat {
    And(ShiftDown(w, bits, i), Radix(bits) - 1)
  }

  function UnpackWord(w: nat, bits: nat): (vs: seq<nat>)
    requires Supported(bits)
    ensures |vs| == PackFactor(bits)
  {
    seq(PackFactor(bits), (i: nat) => Field(w, bits, i))
  }

  lemma MaskKeepsLow(w: nat, bits: nat)
    ensures And(w, Radix(bits) - 1) == w % Radix(bits)
  {
    AndNibble(w % 16, w / 16, 0);
    AndByte(w % 256, w / 256);
  }

  lemma OrDigit(d: nat, x: nat, y: nat, bits: nat)
    requires d < Radix(bits)
    ensures Or(d + Up(x, bits), Up(y, bits)) == d + Up(Or(x, y), bits)
  {
    if bits == 4 { OrNibble(d, x, y); } else { OrByte(d, x, y); }
  }

  lemma {:induction false} OrAppends(vs: seq<nat>, v: nat, bits: nat)
    requires InRange(vs, bits)
    ensures Or(Number(vs, bits), ShiftUp(v, bits, |vs|)) == Number(vs + [v], bits)
    decreases |vs|
  {
    if vs == [] {
      assert [v][1..] == [] && vs + [v] == [v];
    } else {
      OrAppends(vs[1..], v, bits);
      OrDigit(vs[0], Number(vs[1..], bits), ShiftUp(v, bits, |vs| - 1), bits);
      assert (vs + [v])[1..] == vs[1..] + [v];
    }
  }

  /** Place values: 2^(bits * i). */
  function Place(bits: nat, i: nat): nat {
    if i == 0 then 1 else Up(Place(bits, i - 1), bits)
  }

  lemma {:induction false} ShiftFits(v: nat, bits: nat, i: nat)
    requires v < Radix(bits)
    ensures ShiftUp(v, bits, i) < Place(bits, i + 1)
    decreases i
  {
    if i > 0 { ShiftFits(v, bits, i - 1); }
  }

  lemma PlaceOfWord(bits: nat, i: nat)
    requires Supported(bits) && i <= PackFactor(bits)
    ensures Place(bits, i) <= WORD == Place(bits, PackFactor(bits))
  {
    if bits == 4 {
      assert Place(4, 2) == 256 && Place(4, 4) == 65536 && Place(4, 6) == 16777216 && Place(4, 8) == WORD;
    } else {
      assert Place(8, 2) == 65536 && Place(8, 4) == WORD;
    }
  }

  lemma PackStep(vs: seq<nat>, bits: nat, k: nat)
    requires Supported(bits) && 0 < k <= |vs| <= PackFactor(bits) && InRange(vs, bits)
    ensures PackWord(vs, bits, k) == Or(PackWord(vs, bits, k - 1), ShiftUp(vs[k - 1], bits, k - 1))
  {
    NothingLost(vs[k - 1], bits, k);
  }

  /** A value in range keeps all its bits when it is shifted to its place. */
  lemma NothingLost(v: nat, bits: nat, k: nat)
    requires Supported(bits) && 0 < k <= PackFactor(bits) && v < Radix(bits)
    ensures ShiftUp(v, bits, k - 1) % WORD == ShiftUp(v, bits, k - 1)
  {
    ShiftFits(v, bits, k - 1);
    PlaceOfWord(bits, k);
  }

  /** With values in range, the packing loop builds their positional number. */
  lemma {:induction false} PackWordIsNumber(vs: seq<nat>, bits: nat, k: nat)
    requires Supported(bits) && k <= |vs| <= PackFactor(bits) && InRange(vs, bits)
    ensures PackWord(vs, bits, k) == Number(vs[..k], bits)
    decreases k
  {
    if k > 0 {
      PackWordIsNumber(vs, bits, k - 1);
      PackStep(vs, bits, k);
      OrAppends(vs[..k - 1], vs[k - 1], bits);
      assert vs[..k] == vs[..k - 1] + [vs[k - 1]];
    }
  }

  lemma {:induction false} ShiftDownDropsDigits(vs: seq<nat>, bits: nat, j: nat)
    requires j <= |vs| && InRange(vs, bits)
    ensures ShiftDown(Number(vs, bits), bits, j) == Number(vs[j..], bits)
    decreases j
  {
    if j > 0 {
      ShiftDownDropsDigits(vs, bits, j - 1);
      assert vs[j - 1..][1..] == vs[j..];
    } else {
      assert vs[0..] == vs;
    }
  }

  lemma LowDigit(vs: seq<nat>, bits: nat)
    requires vs != [] && InRange(vs, bits)
    ensures Number(vs, bits) % Radix(bits) == vs[0]
  {
    LowOf(vs[0], Number(vs[1..], bits));
  }

  lemma LowOf(d: nat, x: nat)
    ensures d < 16 ==> (d + 16 * x) % 16 == d
    ensures d < 256 ==> (d + 256 * x) % 256 == d
  {
  }

  /** Packing values in range and reading a field back gives the value. */
  lemma FieldOfPack(vs: seq<nat>, bits: nat, j: nat)
    requires Supported(bits) && |vs| == PackFactor(bits) && j < |vs| && InRange(vs, bits)
    ensures Field(PackWord(vs, bits, |vs|), bits, j) == vs[j]
  {
    PackWordIsNumber(vs, bits, |vs|);
    assert vs[..|vs|] == vs;
    ShiftDownDropsDigits(vs, bits, j);
    LowDigit(vs[j..], bits);
    MaskKeepsLow(ShiftDown(PackWord(vs, bits, |vs|), bits, j), bits);
  }

  lemma {:induction false} ShiftDownTwice(w: nat, bits: nat, i: nat)
    ensures ShiftDown(Down(w, bits), bits, i) == ShiftDown(w, bits, i + 1)
    decreases i
  {
    if i > 0 { ShiftDownTwice(w, bits, i - 1); }
  }

  lemma {:induction false} NumberOfFields(w: nat, bits: nat, vs: seq<nat>)
    requires w < Place(bits, |vs|)
    requires forall i :: 0 <= i < |vs| ==> vs[i] == Field(w, bits, i)
    ensures Number(vs, bits) == w && InRange(vs, bits)
    decreases |vs|
  {
    if vs != [] {
      forall i | 0 <= i < |vs| - 1 ensures vs[1..][i] == Field(Down(w, bits), bits, i) {
        ShiftDownTwice(w, bits, i);
      }
      NumberOfFields(Down(w, bits), bits, vs[1..]);
      MaskKeepsLow(w, bits);
      assert forall i :: 0 < i < |vs| ==> vs[i] == vs[1..][i - 1];
    }
  }

  /** Packing all the fields of a word gives the word, and every field is in range. */
  lemma PackOfFields(w: nat, bits: nat)
    requires Supported(bits) && w < WORD
    ensures PackWord(UnpackWord(w, bits), bits, PackFactor(bits)) == w && InRange(UnpackWord(w, bits), bits)
  {
    var vs := UnpackWord(w, bits);
    PlaceOfWord(bits, PackFactor(bits));
    NumberOfFields(w, bits, vs);
    PackWordIsNumber(vs, bits, |vs|);
    assert vs[..|vs|] == vs;
  }

  // ---------------------------------------------------------------- a row of words

  /** Word and slot of column t, and the first column of word p. */
  function WordOf(t: nat, bits: nat): nat {
    if bits == 4 then t / 8 else t / 4
  }

  function SlotOf(t: nat, bits: nat): nat {
    if bits == 4 then t % 8 else t % 4
  }

  function FirstOf(p: nat, bits: nat): nat {
    if bits == 4 then 8 * p else 4 * p
  }

  predicate WholeWords(n: nat, bits: nat) {
    SlotOf(n, bits) == 0
  }

  /** Row-major packing of consecutive values. */
  function Pack(xs: seq<nat>, bits: nat): (ws: seq<nat>)
    requires Supported(bits) && WholeWords(|xs|, bits)
    ensures |ws| == WordOf(|xs|, bits)
  {
    seq(WordOf(|xs|, bits), (p: nat) requires p < WordOf(|xs|, bits) =>
        PackWord(Group(xs, bits, p), bits, PackFactor(bits)))
  }

  function Group(xs: seq<nat>, bits: nat, p: nat): (vs: seq<nat>)
    requires Supported(bits) && WholeWords(|xs|, bits) && p < WordOf(|xs|, bits)
    ensures |vs| == PackFactor(bits)
    ensures forall i :: 0 <= i < |vs| ==> vs[i] == xs[FirstOf(p, bits) + i]
  {
    xs[FirstOf(p, bits)..FirstOf(p, bits) + PackFactor(bits)]
  }

  function Unpack(ws: seq<nat>, bits: nat): (xs: seq<nat>)
    ensures |xs| == FirstOf(|ws|, bits) && WholeWords(|xs|, bits) && WordOf(|xs|, bits) == |ws|
    ensures forall t :: 0 <= t < |xs| ==> xs[t] == Field(ws[WordOf(t, bits)], bits, SlotOf(t, bits))
  {
    seq(FirstOf(|ws|, bits), (t: nat) requires t < FirstOf(|ws|, bits) =>
        Field(ws[WordOf(t, bits)], bits, SlotOf(t, bits)))
  }

  ghost predicate Words(ws: seq<nat>) {
    forall p :: 0 <= p < |ws| ==> ws[p] < WORD
  }

  lemma UnpackOfPackAt(xs: seq<nat>, bits: nat, t: nat)
    requires Supported(bits) && WholeWords(|xs|, bits) && InRange(xs, bits) && t < |xs|
    ensures Unpack(Pack(xs, bits), bits)[t] == xs[t]
  {
    FieldOfPack(Group(xs, bits, WordOf(t, bits)), bits, SlotOf(t, bits));
  }

  /** For every row of values in range, unpacking undoes packing. */
  lemma UnpackOfPack(xs: seq<nat>, bits: nat)
    requires Supported(bits) && WholeWords(|xs|, bits) && InRange(xs, bits)
    ensures Unpack(Pack(xs, bits), bits) == xs
  {
    forall t | 0 <= t < |xs| ensures Unpack(Pack(xs, bits), bits)[t] == xs[t] {
      UnpackOfPackAt(xs, bits, t);
    }
  }

  lemma SplitColumn(p: nat, i: nat, bits: nat)
    requires Supported(bits) && i < PackFactor(bits)
    ensures WordOf(FirstOf(p, bits) + i, bits) == p && SlotOf(FirstOf(p, bits) + i, bits) == i
  {
    if bits == 4 { Split8(p, i); } else { Split4(p, i); }
  }

  lemma UnpackAt(ws: seq<nat>, bits: nat, p: nat, i: nat)
    requires Supported(bits) && p < |ws| && i < PackFactor(bits)
    ensures FirstOf(p, bits) + i < FirstOf(|ws|, bits)
    ensures Unpack(ws, bits)[FirstOf(p, bits) + i] == Field(ws[p], bits, i)
  {
    SplitColumn(p, i, bits);
  }

  lemma GroupOfUnpack(ws: seq<nat>, bits: nat, p: nat)
    requires Supported(bits) && p < |ws|
    ensures Group(Unpack(ws, bits), bits, p) == UnpackWord(ws[p], bits)
  {
    forall i | 0 <= i < PackFactor(bits)
      ensures Group(Unpack(ws, bits), bits, p)[i] == UnpackWord(ws[p], bits)[i]
    {
      UnpackAt(ws, bits, p, i);
    }
  }

  lemma UnpackInRange(ws: seq<nat>, bits: nat)
    requires Supported(bits)
    ensures InRange(Unpack(ws, bits), bits)
  {
    forall t | 0 <= t < FirstOf(|ws|, bits) ensures Unpack(ws, bits)[t] < Radix(bits) {
      MaskKeepsLow(ShiftDown(ws[WordOf(t, bits)], bits, SlotOf(t, bits)), bits);
    }
  }

  /** For every row of 32-bit words, packing undoes unpacking. */
  lemma PackOfUnpack(ws: seq<nat>, bits: nat)
    requires Supported(bits) && Words(ws)
    ensures Pack(Unpack(ws, bits), bits) == ws
  {
    forall p | 0 <= p < |ws| ensures Pack(Unpack(ws, bits), bits)[p] == ws[p] {
      GroupOfUnpack(ws, bits, p);
      PackOfFields(ws[p], bits);
    }
  }

  // ---------------------------------------------------------------- the packing loops

  function Row(q: array2<nat>, r: nat): (xs: seq<nat>)
    requires r < q.Length0
    reads q
    ensures |xs| == q.Length1 && forall c :: 0 <= c < |xs| ==> xs[c] == q[r, c]
  {
    seq(q.Length1, (c: nat) requires c < q.Length1 && r < q.Length0 reads q => q[r, c])
  }

  /** Word c of row r after i rounds of the packing loop. */
  function WordAfter(q: array2<nat>, bits: nat, r: nat, c: nat, i: nat): nat
    requires Supported(bits) && WholeWords(q.Length1, bits)
    requires r < q.Length0 && c < WordOf(q.Length1, bits) && i <= PackFactor(bits)
    reads q
  {
    PackWord(Group(Row(q, r), bits, c), bits, i)
  }

  lemma WordStep(q: array2<nat>, bits: nat, r: nat, c: nat, i: nat)
    requires Supported(bits) && WholeWords(q.Length1, bits)
    requires r < q.Length0 && c < WordOf(q.Length1, bits) && i < PackFactor(bits)
    ensures FirstOf(c, bits) + i < q.Length1
    ensures WordAfter(q, bits, r, c, i + 1)
            == Or(WordAfter(q, bits, r, c, i), ShiftUp(q[r, FirstOf(c, bits) + i], bits, i) % WORD)
  {
    assert Group(Row(q, r), bits, c)[i] == q[r, FirstOf(c, bits) + i];
  }

  /** `pack_cols`: round i ors the columns congruent to i, shifted into place, into every word. */
  method PackCols(q: array2<nat>, bits: nat) returns (res: array2<nat>)
    requires Supported(bits) && WholeWords(q.Length1, bits)
    ensures fresh(res) && res.Length0 == q.Length0 && res.Length1 == WordOf(q.Length1, bits)
    ensures forall r :: 0 <= r < q.Length0 ==> Row(res, r) == Pack(Row(q, r), bits)
  {
    res := new nat[q.Length0, WordOf(q.Length1, bits)]((r, c) => 0);
    for i := 0 to PackFactor(bits)
      invariant forall r, c :: 0 <= r < res.Length0 && 0 <= c < res.Length1 ==> res[r, c] == WordAfter(q, bits, r, c, i)
    {
      forall r, c | 0 <= r < res.Length0 && 0 <= c < res.Length1
        ensures FirstOf(c, bits) + i < q.Length1
        ensures WordAfter(q, bits, r, c, i + 1)
                == Or(WordAfter(q, bits, r, c, i), ShiftUp(q[r, FirstOf(c, bits) + i], bits, i) % WORD)
      {
        WordStep(q, bits, r, c, i);
      }
      forall r, c | 0 <= r < res.Length0 && 0 <= c < res.Length1 {
        res[r, c] := Or(res[r, c], ShiftUp(q[r, FirstOf(c, bits) + i], bits, i) % WORD);
      }
    }
    forall r | 0 <= r < q.Length0 ensures Row(res, r) == Pack(Row(q, r), bits) {
      assert forall c :: 0 <= c < res.Length1 ==> Row(res, r)[c] == WordAfter(q, bits, r, c, PackFactor(bits));
    }
  }

  /** `unpack_cols`: round i writes the low fields to the columns congruent to i, then shifts the words down. */
  method UnpackCols(packed: array2<nat>, bits: nat) returns (res: array2<nat>)
    requires Supported(bits)
    ensures fresh(res) && res.Length0 == packed.Length0 && res.Length1 == FirstOf(packed.Length1, bits)
    ensures forall r :: 0 <= r < packed.Length0 ==> Row(res, r) == Unpack(Row(packed, r), bits)
  {
    var words := new nat[packed.Length0, packed.Length1]
      ((r, c) requires 0 <= r < packed.Length0 && 0 <= c < packed.Length1 reads packed => packed[r, c]);
    res := new nat[packed.Length0, FirstOf(packed.Length1, bits)]((r, c) => 0);
    for i := 0 to PackFactor(bits)
      invariant forall r, c :: 0 <= r < words.Length0 && 0 <= c < words.Length1 ==>
                  words[r, c] == ShiftDown(packed[r, c], bits, i)
      invariant forall r, t :: 0 <= r < res.Length0 && 0 <= t < res.Length1 && SlotOf(t, bits) < i ==>
                  res[r, t] == Field(packed[r, WordOf(t, bits)], bits, SlotOf(t, bits))
    {
      forall r, t | 0 <= r < res.Length0 && 0 <= t < res.Length1 && SlotOf(t, bits) == i {
        res[r, t] := And(words[r, WordOf(t, bits)], Radix(bits) - 1);
      }
      forall r, c | 0 <= r < words.Length0 && 0 <= c < words.Length1 {
        words[r, c] := Down(words[r, c], bits);
      }
    }
  }

  // ---------------------------------------------------------------- permutations inside blocks

  lemma Split4(q: nat, i: nat)
    requires i < 4
    ensures (4 * q + i) / 4 == q && (4 * q + i) % 4 == i
  {
  }

  lemma Split8(q: nat, i: nat)
    requires i < 8
    ensures (8 * q + i) / 8 == q && (8 * q + i) % 8 == i
  {
  }

  lemma Split64(q: nat, i: nat)
    requires i < 64
    ensures (64 * q + i) / 64 == q && (64 * q + i) % 64 == i
  {
  }

  /** Position t after `reshape(-1, n)[:, perm]`, for blocks of 4, 8 or 64. */
  function Slot(perm: seq<nat>, t: nat): nat
    requires BlockSize(|perm|)
  {
    if |perm| == 4 then 4 * (t / 4) + perm[t % 4]
    else if |perm| == 8 then 8 * (t / 8) + perm[t % 8]
    else 64 * (t / 64) + perm[t % 64]
  }

  predicate BlockSize(n: nat) {
    n == 4 || n == 8 || n == 64
  }

  ghost predicate IsPermutation(perm: seq<nat>) {
    && (forall i :: 0 <= i < |perm| ==> perm[i] < |perm|)
    && (forall i, j :: 0 <= i < j < |perm| ==> perm[i] != perm[j])
  }

  lemma Within4(b: nat, j: nat)
    ensures (64 * b + j) / 4 == 16 * b + j / 4 && (64 * b + j) % 4 == j % 4
  {
    Split4(16 * b + j / 4, j % 4);
  }

  lemma Within8(b: nat, j: nat)
    ensures (64 * b + j) / 8 == 8 * b + j / 8 && (64 * b + j) % 8 == j % 8
  {
    Split8(8 * b + j / 8, j % 8);
  }

  /** Inside a 64-block, a block permutation moves columns of that block only. */
  lemma SlotInBlock(perm: seq<nat>, b: nat, j: nat)
    requires BlockSize(|perm|) && IsPermutation(perm) && j < 64
    ensures Slot(perm, 64 * b + j) == 64 * b + Slot(perm, j) && Slot(perm, j) < 64
  {
    if |perm| == 4 {
      Within4(b, j);
    } else if |perm| == 8 {
      Within8(b, j);
    } else {
      Split64(b, j);
      Split64(0, j);
    }
  }

  lemma SlotBound(perm: seq<nat>, n: nat, t: nat)
    requires BlockSize(|perm|) && IsPermutation(perm) && n % 64 == 0 && t < n
    ensures Slot(perm, t) < n
  {
    var b, j := BlockAndPlace(n, t);
    SlotInBlock(perm, b, j);
  }

  lemma BlockAndPlace(n: nat, t: nat) returns (b: nat, j: nat)
    requires n % 64 == 0 && t < n
    ensures t == 64 * b + j && j < 64 && 64 * b + 64 <= n
  {
    b, j := t / 64, t % 64;
  }

  /** `xs.reshape(-1, n)[:, perm].ravel()` */
  function Gather(xs: seq<nat>, perm: seq<nat>): (ys: seq<nat>)
    requires BlockSize(|perm|) && IsPermutation(perm) && |xs| % 64 == 0
    ensures |ys| == |xs|
    ensures forall t {:trigger ys[t]} :: 0 <= t < |xs| ==> Slot(perm, t) < |xs| && ys[t] == xs[Slot(perm, t)]
  {
    assert forall t {:trigger Slot(perm, t)} :: 0 <= t < |xs| ==> Slot(perm, t) < |xs| by {
      forall t | 0 <= t < |xs| ensures Slot(perm, t) < |xs| { SlotBound(perm, |xs|, t); }
    }
    seq(|xs|, (t: nat) requires t < |xs| && Slot(perm, t) < |xs| => xs[Slot(perm, t)])
  }

  /** Gathering with a permutation and then with its inverse changes nothing. */
  lemma SlotInverse(p: seq<nat>, q: seq<nat>, t: nat)
    requires BlockSize(|p|) && |q| == |p| && IsPermutation(q)
    requires forall i :: 0 <= i < |p| ==> p[q[i]] == i
    ensures Slot(p, Slot(q, t)) == t
  {
    if |p| == 4 {
      Split4(t / 4, q[t % 4]);
    } else if |p| == 8 {
      Split8(t / 8, q[t % 8]);
    } else {
      Split64(t / 64, q[t % 64]);
    }
  }

  // ---------------------------------------------------------------- the three permutations

  function Interleave(bits: nat): seq<nat> {
    if bits == 4 then [0, 2, 4, 6, 1, 3, 5, 7] else [0, 2, 1, 3]
  }

  /** `argsort` of the interleaving. */
  function UndoInterleave(bits: nat): seq<nat> {
    if bits == 4 then [0, 4, 1, 5, 2, 6, 3, 7] else [0, 2, 1, 3]
  }

  function ScalePerm(): (p: seq<nat>)
    ensures |p| == 64
  {
    seq(64, (t: nat) => t / 8 + 8 * (t % 8))
  }

  /** `get_scale_perms` extends the list by one run of eight for each i. */
  method GetScalePerm() returns (p: seq<nat>)
    ensures p == ScalePerm()
  {
    p := [];
    for i := 0 to 8
      invariant p == ScalePerm()[..8 * i]
    {
      var run: seq<nat> := [];
      for j := 0 to 8
        invariant run == ScalePerm()[8 * i..8 * i + j]
      {
        Split8(i, j);
        run := run + [i + 8 * j];
      }
      p := p + run;
    }
  }

  lemma UndoFourBits()
    ensures var a, u := Interleave(4), UndoInterleave(4);
            && |a| == |u| == 8
            && (forall i :: 0 <= i < 8 ==> a[i] < 8 && u[i] < 8)
            && (forall i :: 0 <= i < 8 ==> a[u[i]] == i && u[a[i]] == i)
  {
    FourBitValues();
    var a, u := Interleave(4), UndoInterleave(4);
    forall i | 0 <= i < 8 ensures a[u[i]] == i && u[a[i]] == i {
    }
  }

  lemma FourBitValues()
    ensures |Interleave(4)| == |UndoInterleave(4)| == 8
    ensures forall i :: 0 <= i < 8 ==> Interleave(4)[i] == if i < 4 then 2 * i else 2 * i - 7
    ensures forall i :: 0 <= i < 8 ==> UndoInterleave(4)[i] == i / 2 + 4 * (i % 2)
  {
    var a, u := Interleave(4), UndoInterleave(4);
    assert a[0] == 0 && a[1] == 2 && a[2] == 4 && a[3] == 6 && a[4] == 1 && a[5] == 3 && a[6] == 5 && a[7] == 7;
    assert u[0] == 0 && u[1] == 4 && u[2] == 1 && u[3] == 5 && u[4] == 2 && u[5] == 6 && u[6] == 3 && u[7] == 7;
  }

  lemma UndoEightBits()
    ensures var a, u := Interleave(8), UndoInterleave(8);
            && |a| == |u| == 4
            && (forall i :: 0 <= i < 4 ==> a[i] < 4 && u[i] < 4)
            && (forall i :: 0 <= i < 4 ==> a[u[i]] == i && u[a[i]] == i)
  {
    var a := Interleave(8);
    assert a[0] == 0 && a[1] == 2 && a[2] == 1 && a[3] == 3;
  }

  lemma InversesArePermutations(a: seq<nat>, u: seq<nat>)
    requires |a| == |u|
    requires forall i :: 0 <= i < |a| ==> a[i] < |a| && u[i] < |a|
    requires forall i :: 0 <= i < |a| ==> u[a[i]] == i
    ensures IsPermutation(a)
  {
    forall i, j | 0 <= i < j < |a| ensures a[i] != a[j] {
      assert u[a[i]] == i && u[a[j]] == j;
    }
  }

  /** The inverse sorts: the interleaving read in that order is ascending, and the other way round. */
  lemma UndoIsInverse(bits: nat)
    requires Supported(bits)
    ensures |UndoInterleave(bits)| == |Interleave(bits)| == PackFactor(bits)
    ensures IsPermutation(Interleave(bits)) && IsPermutation(UndoInterleave(bits))
    ensures forall i :: 0 <= i < PackFactor(bits) ==> Interleave(bits)[UndoInterleave(bits)[i]] == i
    ensures forall i :: 0 <= i < PackFactor(bits) ==> UndoInterleave(bits)[Interleave(bits)[i]] == i
  {
    if bits == 4 { UndoFourBits(); } else { UndoEightBits(); }
    InversesArePermutations(Interleave(bits), UndoInterleave(bits));
    InversesArePermutations(UndoInterleave(bits), Interleave(bits));
  }

  lemma ScalePermIsInvolution()
    ensures IsPermutation(ScalePerm())
    ensures forall t :: 0 <= t < 64 ==> ScalePerm()[ScalePerm()[t]] == t
  {
    forall t | 0 <= t < 64 ensures ScalePerm()[t] < 64 && ScalePerm()[ScalePerm()[t]] == t {
      Split8(t % 8, t / 8);
    }
    forall i, j | 0 <= i < j < 64 ensures ScalePerm()[i] != ScalePerm()[j] {
      assert ScalePerm()[ScalePerm()[i]] == i && ScalePerm()[ScalePerm()[j]] == j;
    }
  }

  // ---------------------------------------------------------------- the conversion

  /** The zero-points, unpacked, in Marlin order. */
  function Rearrange(xs: seq<nat>, bits: nat): (ys: seq<nat>)
    requires Supported(bits) && |xs| % 64 == 0
    ensures |ys| == |xs|
  {
    UndoIsInverse(bits);
    ScalePermIsInvolution();
    Gather(Gather(Gather(xs, UndoInterleave(bits)), ScalePerm()), Interleave(bits))
  }

  /** `awq_to_marlin_zero_points` on the row-major words of a matrix. */
  ghost function AwqToMarlin(ws: seq<nat>, bits: nat): (vs: seq<nat>)
    requires Supported(bits) && FirstOf(|ws|, bits) % 64 == 0
    ensures |vs| == |ws|
  {
    Pack(Rearrange(Unpack(ws, bits), bits), bits)
  }

  /** The column whose zero-point ends up in column t. */
  function Source(t: nat, bits: nat): nat
    requires Supported(bits)
  {
    Slot(UndoInterleave(bits), Slot(ScalePerm(), Slot(Interleave(bits), t)))
  }

  lemma TwoSlotsInBlock(p: seq<nat>, q: seq<nat>, b: nat, j: nat)
    requires BlockSize(|p|) && BlockSize(|q|) && IsPermutation(p) && IsPermutation(q) && j < 64
    ensures Slot(q, Slot(p, 64 * b + j)) == 64 * b + Slot(q, Slot(p, j)) && Slot(q, Slot(p, j)) < 64
  {
    SlotInBlock(p, b, j);
    SlotInBlock(q, b, Slot(p, j));
  }

  lemma ThreeSlotsInBlock(p: seq<nat>, q: seq<nat>, r: seq<nat>, b: nat, j: nat)
    requires BlockSize(|p|) && BlockSize(|q|) && BlockSize(|r|)
    requires IsPermutation(p) && IsPermutation(q) && IsPermutation(r)
    requires j < 64
    ensures Slot(r, Slot(q, Slot(p, 64 * b + j))) == 64 * b + Slot(r, Slot(q, Slot(p, j)))
    ensures Slot(r, Slot(q, Slot(p, j))) < 64
  {
    TwoSlotsInBlock(p, q, b, j);
    SlotInBlock(r, b, Slot(q, Slot(p, j)));
  }

  lemma SourceInBlock(b: nat, j: nat, bits: nat)
    requires Supported(bits) && j < 64
    ensures Source(64 * b + j, bits) == 64 * b + Source(j, bits) && Source(j, bits) < 64
  {
    UndoIsInverse(bits);
    ScalePermIsInvolution();
    ThreeSlotsInBlock(Interleave(bits), ScalePerm(), UndoInterleave(bits), b, j);
  }

  /** The column map is its own inverse. */
  lemma SourceIsInvolution(t: nat, bits: nat)
    requires Supported(bits)
    ensures Source(Source(t, bits), bits) == t
  {
    UndoIsInverse(bits);
    ScalePermIsInvolution();
    var t1 := Slot(Interleave(bits), t);
    var t2 := Slot(ScalePerm(), t1);
    SlotInverse(Interleave(bits), UndoInterleave(bits), t2);
    SlotInverse(ScalePerm(), ScalePerm(), t1);
    SlotInverse(UndoInterleave(bits), Interleave(bits), t);
  }

  lemma GatherAt(xs: seq<nat>, perm: seq<nat>, t: nat) returns (a: nat)
    requires BlockSize(|perm|) && IsPermutation(perm) && |xs| % 64 == 0 && t < |xs|
    ensures a == Slot(perm, t) && a < |xs| && Gather(xs, perm)[t] == xs[a]
  {
    a := Slot(perm, t);
    assert Gather(xs, perm)[t] == xs[a];
  }

  lemma ThreeGathersAt(xs: seq<nat>, p: seq<nat>, q: seq<nat>, r: seq<nat>, t: nat)
    requires BlockSize(|p|) && BlockSize(|q|) && BlockSize(|r|)
    requires IsPermutation(p) && IsPermutation(q) && IsPermutation(r)
    requires |xs| % 64 == 0 && t < |xs|
    ensures Slot(r, Slot(q, Slot(p, t))) < |xs|
    ensures Gather(Gather(Gather(xs, r), q), p)[t] == xs[Slot(r, Slot(q, Slot(p, t)))]
  {
    var u := Gather(xs, r);
    var a := GatherAt(Gather(u, q), p, t);
    var b := GatherAt(u, q, a);
    var c := GatherAt(xs, r, b);
  }

  lemma RearrangeAt(xs: seq<nat>, bits: nat, t: nat)
    requires Supported(bits) && |xs| % 64 == 0 && t < |xs|
    ensures Source(t, bits) < |xs| && Rearrange(xs, bits)[t] == xs[Source(t, bits)]
  {
    UndoIsInverse(bits);
    ScalePermIsInvolution();
    ThreeGathersAt(xs, Interleave(bits), ScalePerm(), UndoInterleave(bits), t);
  }

  lemma UnpackOfConversion(ws: seq<nat>, bits: nat)
    requires Supported(bits) && FirstOf(|ws|, bits) % 64 == 0
    ensures Unpack(AwqToMarlin(ws, bits), bits) == Rearrange(Unpack(ws, bits), bits)
  {
    var xs := Unpack(ws, bits);
    UnpackInRange(ws, bits);
    forall t | 0 <= t < |xs| ensures Rearrange(xs, bits)[t] < Radix(bits) {
      RearrangeAt(xs, bits, t);
    }
    UnpackOfPack(Rearrange(xs, bits), bits);
  }

  /** The whole conversion is one fixed map of columns inside each 64-column block. */
  lemma ConversionMovesColumns(ws: seq<nat>, bits: nat, b: nat, j: nat)
    requires Supported(bits) && FirstOf(|ws|, bits) % 64 == 0 && j < 64 && 64 * b + j < FirstOf(|ws|, bits)
    ensures Source(j, bits) < 64 && 64 * b + Source(j, bits) < FirstOf(|ws|, bits)
    ensures Unpack(AwqToMarlin(ws, bits), bits)[64 * b + j] == Unpack(ws, bits)[64 * b + Source(j, bits)]
  {
    UnpackOfConversion(ws, bits);
    RearrangeAt(Unpack(ws, bits), bits, 64 * b + j);
    SourceInBlock(b, j, bits);
  }

  /** Converting twice gives the original words back; so the conversion is a bijection. */
  lemma ConversionIsInvolution(ws: seq<nat>, bits: nat)
    requires Supported(bits) && FirstOf(|ws|, bits) % 64 == 0 && Words(ws)
    ensures AwqToMarlin(AwqToMarlin(ws, bits), bits) == ws
  {
    var xs := Unpack(ws, bits);
    var ys := Rearrange(xs, bits);
    UnpackOfConversion(ws, bits);
    forall t | 0 <= t < |xs| ensures Rearrange(ys, bits)[t] == xs[t] {
      RearrangeAt(ys, bits, t);
      RearrangeAt(xs, bits, Source(t, bits));
      SourceIsInvolution(t, bits);
    }
    assert Rearrange(ys, bits) == xs;
    PackOfUnpack(ws, bits);
  }

  lemma SlotOfEight(perm: seq<nat>, q: nat, i: nat)
    requires |perm| == 8 && i < 8
    ensures Slot(perm, 8 * q + i) == 8 * q + perm[i]
  {
    Split8(q, i);
  }

  lemma ScaleSlot(i: nat, k: nat)
    requires i < 8 && k < 8
    ensures Slot(ScalePerm(), 8 * i + k) == 8 * k + i
  {
    Split64(0, 8 * i + k);
    Split8(i, k);
  }

  lemma ThreeSlotsOfEight(p: seq<nat>, u: seq<nat>, i: nat, j: nat)
    requires |p| == |u| == 8 && i < 8 && j < 8 && p[j] < 8
    ensures Slot(u, Slot(ScalePerm(), Slot(p, 8 * i + j))) == 8 * p[j] + u[i]
  {
    SlotOfEight(p, i, j);
    ScaleSlot(i, p[j]);
    SlotOfEight(u, p[j], i);
  }

  /** 0, 2, 4, 6, 1, 3, 5, 7 and its inverse. */
  function EvensFirst(j: nat): nat {
    if j < 4 then 2 * j else 2 * j - 7
  }

  function Riffle(i: nat): nat {
    i / 2 + 4 * (i % 2)
  }

  /** The two middle ones of each four change places. */
  function SwapMiddle(x: nat): nat {
    if x % 4 == 1 then x + 1 else if x % 4 == 2 then x - 1 else x
  }

  /** For 4 bits, column 8 i + j of a block comes from column 8 EvensFirst(j) + Riffle(i). */
  lemma SourceForFourBits(i: nat, j: nat)
    requires i < 8 && j < 8
    ensures Source(8 * i + j, 4) == 8 * EvensFirst(j) + Riffle(i)
  {
    UndoIsInverse(4);
    FourBitValues();
    ThreeSlotsOfEight(Interleave(4), UndoInterleave(4), i, j);
  }

  lemma EightBitSlot(q: nat, j: nat)
    requires j < 8
    ensures Slot(Interleave(8), 8 * q + j) == 8 * q + SwapMiddle(j)
    ensures Slot(UndoInterleave(8), 8 * q + j) == 8 * q + SwapMiddle(j)
  {
    var a := Interleave(8);
    assert a[0] == 0 && a[1] == 2 && a[2] == 1 && a[3] == 3 && UndoInterleave(8) == a;
    Split4(2 * q + j / 4, j % 4);
  }

  /** For 8 bits, column 8 i + j of a block comes from column 8 SwapMiddle(j) + SwapMiddle(i). */
  lemma SourceForEightBits(i: nat, j: nat)
    requires i < 8 && j < 8
    ensures Source(8 * i + j, 8) == 8 * SwapMiddle(j) + SwapMiddle(i)
  {
    EightBitSlot(i, j);
    ScaleSlot(i, SwapMiddle(j));
    EightBitSlot(SwapMiddle(j), i);
  }

  /** Both in one: the column of a block from which its column 8 i + j comes. */
  function FromPlace(i: nat, j: nat, bits: nat): nat {
    if bits == 4 then 8 * EvensFirst(j) + Riffle(i) else 8 * SwapMiddle(j) + SwapMiddle(i)
  }

  function FromColumn(t: nat, bits: nat): nat {
    FromPlace(t / 8, t % 8, bits)
  }

  lemma FourBitsInNumbers(t: nat)
    requires t < 64
    ensures Source(t, 4) == FromColumn(t, 4)
  {
    var i, j := t / 8, t % 8;
    SourceForFourBits(i, j);
    assert 8 * i + j == t;
  }

  lemma EightBitsInNumbers(t: nat)
    requires t < 64
    ensures Source(t, 8) == FromColumn(t, 8)
  {
    var i, j := t / 8, t % 8;
    SourceForEightBits(i, j);
    assert 8 * i + j == t;
  }

  lemma SourceInNumbers(t: nat, bits: nat)
    requires Supported(bits) && t < 64
    ensures Source(t, bits) == FromColumn(t, bits)
  {
    if bits == 4 { FourBitsInNumbers(t); } else { EightBitsInNumbers(t); }
  }

  // ---------------------------------------------------------------- conservation

  function Pick(xs: seq<nat>, perm: seq<nat>): (ys: seq<nat>)
    requires forall i :: 0 <= i < |perm| ==> perm[i] < |xs|
  {
    seq(|perm|, (i: nat) requires i < |perm| && perm[i] < |xs| => xs[perm[i]])
  }

  /** Permuting a sequence keeps its multiset. */
  lemma {:induction false} PickKeepsMultiset(xs: seq<nat>, perm: seq<nat>)
    requires IsPermutation(perm) && |perm| == |xs|
    ensures multiset(Pick(xs, perm)) == multiset(xs)
    decreases |xs|
  {
    if xs != [] {
      var n := |xs| - 1;
      var k := perm[n];
      var xs' := xs[..k] + xs[k + 1..];
      SqueezeIsPermutation(perm);
      PickKeepsMultiset(xs', Squeeze(perm, k));
      PickLast(xs, perm);
      assert xs == xs[..k] + [xs[k]] + xs[k + 1..];
    } else {
      assert Pick(xs, perm) == [];
    }
  }

  lemma SqueezeIsPermutation(perm: seq<nat>)
    requires IsPermutation(perm) && perm != []
    ensures IsPermutation(Squeeze(perm, perm[|perm| - 1]))
  {
    var n := |perm| - 1;
    var p := Squeeze(perm, perm[n]);
    forall i | 0 <= i < n ensures p[i] < n {
      assert perm[i] != perm[n];
    }
    forall i, j | 0 <= i < j < n ensures p[i] != p[j] {
      assert perm[i] != perm[j] && perm[i] != perm[n] && perm[j] != perm[n];
    }
  }

  /** The last pick is xs[k]; the others are picked from what is left without it. */
  lemma PickLast(xs: seq<nat>, perm: seq<nat>)
    requires IsPermutation(perm) && |perm| == |xs| > 0 && IsPermutation(Squeeze(perm, perm[|perm| - 1]))
    ensures var k := perm[|perm| - 1];
            Pick(xs, perm) == Pick(xs[..k] + xs[k + 1..], Squeeze(perm, k)) + [xs[k]]
  {
    var n := |xs| - 1;
    var k := perm[n];
    var rest := xs[..k] + xs[k + 1..];
    forall i | 0 <= i < n ensures xs[perm[i]] == rest[Squeeze(perm, k)[i]] {
      assert perm[i] != perm[n];
    }
  }

  /** Drop the last entry, whose value is k, and close the gap. */
  function Squeeze(perm: seq<nat>, k: nat): (p: seq<nat>)
    requires perm != []
    ensures |p| == |perm| - 1
    ensures forall i :: 0 <= i < |p| ==> p[i] == if perm[i] > k then perm[i] - 1 else perm[i]
  {
    seq(|perm| - 1, (i: nat) requires i < |perm| => if perm[i] > k then perm[i] - 1 else perm[i])
  }

  lemma SourceIsPermutation(bits: nat, perm: seq<nat>)
    requires Supported(bits) && |perm| == 64 && forall j :: 0 <= j < 64 ==> perm[j] == Source(j, bits)
    ensures IsPermutation(perm)
  {
    forall j | 0 <= j < 64 ensures perm[j] < 64 {
      SourceInBlock(0, j, bits);
    }
    forall i, j | 0 <= i < j < 64 ensures perm[i] != perm[j] {
      SourceIsInvolution(i, bits);
      SourceIsInvolution(j, bits);
    }
  }

  lemma BlockIsPicked(before: seq<nat>, after: seq<nat>, perm: seq<nat>)
    requires |before| == |after| == |perm| && IsPermutation(perm)
    requires forall j :: 0 <= j < |perm| ==> after[j] == before[perm[j]]
    ensures multiset(after) == multiset(before)
  {
    PickKeepsMultiset(before, perm);
    assert after == Pick(before, perm);
  }

  lemma MovedBlock(xs: seq<nat>, ys: seq<nat>, perm: seq<nat>, b: nat)
    requires |xs| == |ys| && 64 * b + 64 <= |xs| && |perm| == 64 && IsPermutation(perm)
    requires forall j :: 0 <= j < 64 ==> ys[64 * b + j] == xs[64 * b + perm[j]]
    ensures multiset(ys[64 * b..64 * b + 64]) == multiset(xs[64 * b..64 * b + 64])
  {
    BlockIsPicked(xs[64 * b..64 * b + 64], ys[64 * b..64 * b + 64], perm);
  }

  /** Each 64-column block keeps its multiset of zero-points. */
  lemma ConversionConservesBlocks(ws: seq<nat>, bits: nat, b: nat)
    requires Supported(bits) && FirstOf(|ws|, bits) % 64 == 0 && 64 * b + 64 <= FirstOf(|ws|, bits)
    ensures multiset(Unpack(AwqToMarlin(ws, bits), bits)[64 * b..64 * b + 64])
            == multiset(Unpack(ws, bits)[64 * b..64 * b + 64])
  {
    var xs, ys := Unpack(ws, bits), Unpack(AwqToMarlin(ws, bits), bits);
    var perm := seq(64, (j: nat) => Source(j, bits));
    SourceIsPermutation(bits, perm);
    forall j | 0 <= j < 64 ensures ys[64 * b + j] == xs[64 * b + perm[j]] {
      ConversionMovesColumns(ws, bits, b, j);
    }
    MovedBlock(xs, ys, perm, b);
  }
}
