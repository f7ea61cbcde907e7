/** Ulysses sequence parallelism (verl/utils/ulysses.py).  A tensor is its sequence by head
    matrix; the state of a group is one matrix per rank, and a collective is a function on it. */
module Ulysses {
  import opened BlockSequences
  import opened Common

  type Matrix<T> = seq<seq<T>>

  ghost predicate Sized<T>(x: Matrix<T>, rows: nat, cols: nat) {
    |x| == rows && forall i | 0 <= i < rows :: |x[i]| == cols
  }

  // ---------- splitting and joining columns ----------

  /** Column block r of every row. */
  function ColumnBlock<T>(x: Matrix<T>, n: nat, c: nat, r: nat): (b: Matrix<T>)
    requires (forall i | 0 <= i < |x| :: |x[i]| == n * c) && r < n
    ensures |b| == |x| && forall i | 0 <= i < |x| :: |b[i]| == c
  {
    seq(|x|, i requires 0 <= i < |x| => Block(x[i], n, c, r))
  }

  /** Joins matrices of equal height side by side. */
  function Beside<T>(parts: seq<Matrix<T>>, rows: nat): (x: Matrix<T>)
    requires forall q | 0 <= q < |parts| :: |parts[q]| == rows
    ensures |x| == rows
  {
    seq(rows, i requires 0 <= i < rows => Flatten(seq(|parts|, q requires 0 <= q < |parts| => parts[q][i])))
  }

  // ---------- the collectives ----------

  /** All ranks hold s rows of n * c columns. */
  ghost predicate RowSharded<T>(xs: seq<Matrix<T>>, s: nat, c: nat) {
    |xs| > 0 && forall q | 0 <= q < |xs| :: Sized(xs[q], s, |xs| * c)
  }

  /** All ranks hold n * s rows of c columns. */
  ghost predicate HeadSharded<T>(ys: seq<Matrix<T>>, s: nat, c: nat) {
    |ys| > 0 && forall q | 0 <= q < |ys| :: Sized(ys[q], |ys| * s, c)
  }

  /** `all_to_all_tensor` scattering heads and gathering the sequence: rank r concatenates, in
      rank order, everyone's r-th head block. */
  ghost function ScatterHeads<T>(xs: seq<Matrix<T>>, s: nat, c: nat): seq<Matrix<T>>
    requires RowSharded(xs, s, c)
  {
    seq(|xs|, r requires 0 <= r < |xs| =>
      Flatten(seq(|xs|, q requires 0 <= q < |xs| => ColumnBlock(xs[q], |xs|, c, r))))
  }

  /** `all_to_all_tensor` scattering the sequence and gathering heads. */
  ghost function ScatterSeq<T>(ys: seq<Matrix<T>>, s: nat, c: nat): seq<Matrix<T>>
    requires HeadSharded(ys, s, c)
  {
    seq(|ys|, r requires 0 <= r < |ys| =>
      Beside(seq(|ys|, q requires 0 <= q < |ys| => Block(ys[q], |ys|, s, r)), s))
  }

  /** The whole sequence with all heads, in rank order. */
  ghost function Global<T>(xs: seq<Matrix<T>>): Matrix<T> { Flatten(xs) }

  lemma {:induction false} FlattenRows<T>(xs: seq<Matrix<T>>, cols: nat)
    requires forall q, i | 0 <= q < |xs| && 0 <= i < |xs[q]| :: |xs[q][i]| == cols
    ensures forall i | 0 <= i < |Flatten(xs)| :: |Flatten(xs)[i]| == cols
  {
    if xs == [] {
    } else {
      assert forall q | 0 <= q < |xs[1..]| :: xs[1..][q] == xs[q + 1];
      FlattenRows(xs[1..], cols);
    }
  }

  lemma {:induction false} ColumnBlockFlatten<T>(xs: seq<Matrix<T>>, n: nat, c: nat, r: nat)
    requires r < n && forall q, i | 0 <= q < |xs| && 0 <= i < |xs[q]| :: |xs[q][i]| == n * c
    ensures forall i | 0 <= i < |Flatten(xs)| :: |Flatten(xs)[i]| == n * c
    ensures Flatten(seq(|xs|, q requires 0 <= q < |xs| => ColumnBlock(xs[q], n, c, r))) ==
      ColumnBlock(Flatten(xs), n, c, r)
  {
    FlattenRows(xs, n * c);
    if xs == [] {
    } else {
      assert forall q | 0 <= q < |xs[1..]| :: xs[1..][q] == xs[q + 1];
      ColumnBlockFlatten(xs[1..], n, c, r);
      var parts := seq(|xs|, q requires 0 <= q < |xs| => ColumnBlock(xs[q], n, c, r));
      assert parts[1..] == seq(|xs[1..]|, q requires 0 <= q < |xs[1..]| => ColumnBlock(xs[1..][q], n, c, r));
    }
  }

  /** After scattering heads, rank r holds its head block of the whole sequence. */
  lemma ScatterHeadsIsGlobal<T>(xs: seq<Matrix<T>>, s: nat, c: nat, r: nat)
    requires RowSharded(xs, s, c) && r < |xs|
    ensures Sized(Global(xs), |xs| * s, |xs| * c)
    ensures ScatterHeads(xs, s, c)[r] == ColumnBlock(Global(xs), |xs|, c, r)
  {
    ColumnBlockFlatten(xs, |xs|, c, r);
    FlattenLength(xs, s);
  }

  /** The per-rank head blocks of a global matrix. */
  ghost function HeadBlocks<T>(g: Matrix<T>, n: nat, s: nat, c: nat): seq<Matrix<T>>
    requires n > 0 && Sized(g, n * s, n * c)
  {
    seq(n, r requires 0 <= r < n => ColumnBlock(g, n, c, r))
  }

  lemma BesideColumns<T>(g: Matrix<T>, n: nat, c: nat)
    requires forall i | 0 <= i < |g| :: |g[i]| == n * c
    ensures Beside(seq(n, q requires 0 <= q < n => ColumnBlock(g, n, c, q)), |g|) == g
  {
    forall i | 0 <= i < |g|
      ensures Flatten(seq(n, q requires 0 <= q < n => ColumnBlock(g, n, c, q)[i])) == g[i]
    {
      assert seq(n, q requires 0 <= q < n => ColumnBlock(g, n, c, q)[i]) == Blocks(g[i], n, c);
      FlattenOfBlocks(g[i], n, c);
    }
    var parts := seq(n, q requires 0 <= q < n => ColumnBlock(g, n, c, q));
    forall i | 0 <= i < |g| ensures Beside(parts, |g|)[i] == g[i] {
      assert seq(n, q requires 0 <= q < n => parts[q][i]) ==
        seq(n, q requires 0 <= q < n => ColumnBlock(g, n, c, q)[i]);
    }
  }

  lemma RowsOfColumnsAt<T>(g: Matrix<T>, y: Matrix<T>, at: nat, s: nat, n: nat, c: nat, q: nat)
    requires (forall i | 0 <= i < |g| :: |g[i]| == n * c) && q < n && at + s <= |g| && y == ColumnBlock(g, n, c, q)
    ensures y[at..at + s] == ColumnBlock(g[at..at + s], n, c, q)
  {
  }

  /** Scattering the sequence of a group that holds head blocks gives rank r its row block with
      all heads. */
  lemma ScatterSeqIsRows<T>(g: Matrix<T>, n: nat, s: nat, c: nat)
    requires n > 0 && Sized(g, n * s, n * c)
    ensures HeadSharded(HeadBlocks(g, n, s, c), s, c)
    ensures ScatterSeq(HeadBlocks(g, n, s, c), s, c) == Blocks(g, n, s)
  {
    var ys := HeadBlocks(g, n, s, c);
    forall r | 0 <= r < n ensures ScatterSeq(ys, s, c)[r] == Blocks(g, n, s)[r] {
      var b := Block(g, n, s, r);
      BlockFits(n, s, r);
      forall q | 0 <= q < n ensures Block(ys[q], n, s, r) == ColumnBlock(b, n, c, q) {
        RowsOfColumnsAt(g, ys[q], r * s, s, n, c, q);
      }
      assert seq(n, q requires 0 <= q < n => Block(ys[q], n, s, r)) ==
        seq(n, q requires 0 <= q < n => ColumnBlock(b, n, c, q));
      BesideColumns(b, n, c);
    }
  }

  // ---------- padding ----------

  function ZeroRows<T>(rows: nat, cols: nat, zero: T): Matrix<T> {
    seq(rows, _ => seq(cols, _ => zero))
  }

  /** `_pad_tensor` on the sequence dimension. */
  function PadRows<T>(x: Matrix<T>, padding: nat, cols: nat, zero: T): (r: Matrix<T>)
    ensures |r| == |x| + padding
    ensures (forall i | 0 <= i < |x| :: |x[i]| == cols) ==> forall i | 0 <= i < |r| :: |r[i]| == cols
  {
    x + ZeroRows(padding, cols, zero)
  }

  /** `_unpad_tensor`: keeps the rows before position -padding; since -0 is position 0, removing
      no row keeps none. */
  function UnpadRows<T>(x: Matrix<T>, padding: nat): Matrix<T> {
    if padding == 0 || padding > |x| then [] else x[..|x| - padding]
  }

  /** A size that n does not divide is not n * s, so the exchange never removes zero rows. */
  lemma RemovesSome(n: nat, s: nat, unpadded: nat)
    requires n > 0 && unpadded % n != 0
    ensures unpadded != n * s
  {
    if unpadded == n * s { MissingNone(n, s); }
  }

  // ---------- the attention exchange ----------

  /** `gather_seq_scatter_heads` on every rank; a non-zero unpadded size that the world size does
      not divide removes the padding rows. */
  ghost function GatherSeqScatterHeads<T>(xs: seq<Matrix<T>>, s: nat, c: nat, unpadded: nat): seq<Matrix<T>>
    requires RowSharded(xs, s, c) && unpadded <= |xs| * s
  {
    var ys := ScatterHeads(xs, s, c);
    if unpadded != 0 && unpadded % |xs| != 0 then
      seq(|xs|, r requires 0 <= r < |xs| =>
        ScatterHeadsIsGlobal(xs, s, c, r); UnpadRows(ys[r], |ys[r]| - unpadded))
    else ys
  }

  /** `gather_heads_scatter_seq` on every rank holding `rows` rows of c columns: pads the
      sequence to a multiple of the world size first. */
  ghost function GatherHeadsScatterSeq<T>(ys: seq<Matrix<T>>, rows: nat, c: nat, s: nat, zero: T): seq<Matrix<T>>
    requires |ys| > 0 && (forall q | 0 <= q < |ys| :: Sized(ys[q], rows, c))
    requires rows + Missing(rows, |ys|) == |ys| * s
  {
    var padded := seq(|ys|, q requires 0 <= q < |ys| => PadRows(ys[q], Missing(rows, |ys|), c, zero));
    assert forall q | 0 <= q < |ys| ::
      Sized(ys[q], rows, c) && padded[q] == PadRows(ys[q], Missing(rows, |ys|), c, zero);
    ScatterSeq(padded, s, c)
  }

  lemma PadColumns<T>(g: Matrix<T>, n: nat, c: nat, q: nat, padding: nat, zero: T)
    requires q < n && forall i | 0 <= i < |g| :: |g[i]| == n * c
    ensures PadRows(ColumnBlock(g, n, c, q), padding, c, zero) ==
      ColumnBlock(PadRows(g, padding, n * c, zero), n, c, q)
  {
    BlockFits(n, c, q);
    var zeros: seq<T> := seq(n * c, _ => zero);
    var at := q * c;
    assert zeros[at..at + c] == seq(c, _ => zero);
  }

  lemma CutColumns<T>(g: Matrix<T>, n: nat, c: nat, q: nat, u: nat)
    requires q < n && u <= |g| && forall i | 0 <= i < |g| :: |g[i]| == n * c
    ensures ColumnBlock(g, n, c, q)[..u] == ColumnBlock(g[..u], n, c, q)
  {
  }

  /** Gathering heads over the head blocks of a global matrix, whatever its length, returns its
      rows, padded with zeros to a multiple of the world size, to the ranks in order. */
  lemma GatherHeadsOfBlocks<T>(g: Matrix<T>, n: nat, c: nat, s: nat, zero: T, ys: seq<Matrix<T>>)
    requires n > 0 && (forall i | 0 <= i < |g| :: |g[i]| == n * c) && |g| + Missing(|g|, n) == n * s
    requires |ys| == n && forall q | 0 <= q < n :: Sized(ys[q], |g|, c) && ys[q] == ColumnBlock(g, n, c, q)
    ensures |PadRows(g, Missing(|g|, n), n * c, zero)| == n * s
    ensures GatherHeadsScatterSeq(ys, |g|, c, s, zero) == Blocks(PadRows(g, Missing(|g|, n), n * c, zero), n, s)
  {
    var padding := Missing(|g|, n);
    var padded := PadRows(g, padding, n * c, zero);
    forall q | 0 <= q < n ensures PadRows(ys[q], padding, c, zero) == ColumnBlock(padded, n, c, q) {
      PadColumns(g, n, c, q, padding, zero);
    }
    ScatterSeqIsRows(padded, n, s, c);
    assert seq(n, q requires 0 <= q < n => PadRows(ys[q], padding, c, zero)) == HeadBlocks(padded, n, s, c);
  }

  /** Gathering heads undoes scattering them, on every rank, for every world size dividing the
      head count, when no unpadded size is given (0) or the world size divides it. */
  lemma GatherHeadsUndoesScatter<T>(xs: seq<Matrix<T>>, s: nat, c: nat, unpadded: nat, zero: T)
    requires RowSharded(xs, s, c) && unpadded <= |xs| * s && unpadded % |xs| == 0
    ensures forall q | 0 <= q < |xs| :: Sized(GatherSeqScatterHeads(xs, s, c, unpadded)[q], |xs| * s, c)
    ensures Missing(|xs| * s, |xs|) == 0
    ensures GatherHeadsScatterSeq(GatherSeqScatterHeads(xs, s, c, unpadded), |xs| * s, c, s, zero) == xs
  {
    var n, g, ys := |xs|, Global(xs), GatherSeqScatterHeads(xs, s, c, unpadded);
    ScatterHeadsIsGlobal(xs, s, c, 0);
    forall q | 0 <= q < n ensures ys[q] == ColumnBlock(g, n, c, q) { ScatterHeadsIsGlobal(xs, s, c, q); }
    MissingNone(n, s);
    GatherHeadsOfBlocks(g, n, c, s, zero, ys);
    assert PadRows(g, 0, n * c, zero) == g;
    BlocksOfFlatten(xs, s);
  }

  /** With an unpadded size the exchange undoes itself on the unpadded rows: rank by rank and in
      order, the result is the first `unpadded` rows of the whole sequence, then zeros. */
  lemma GatherHeadsUndoesScatterUnpadded<T>(xs: seq<Matrix<T>>, s: nat, c: nat, unpadded: nat, s': nat, zero: T)
    requires RowSharded(xs, s, c) && 0 < unpadded <= |xs| * s && unpadded % |xs| != 0
    requires unpadded + Missing(unpadded, |xs|) == |xs| * s'
    ensures forall q | 0 <= q < |xs| :: Sized(GatherSeqScatterHeads(xs, s, c, unpadded)[q], unpadded, c)
    ensures Sized(Global(xs), |xs| * s, |xs| * c)
    ensures var zs := GatherHeadsScatterSeq(GatherSeqScatterHeads(xs, s, c, unpadded), unpadded, c, s', zero);
      Global(zs) == Global(xs)[..unpadded] + ZeroRows(Missing(unpadded, |xs|), |xs| * c, zero) &&
      |zs| == |xs| && forall r | 0 <= r < |zs| :: |zs[r]| == s'
  {
    var n := |xs|;
    ScatterHeadsIsGlobal(xs, s, c, 0);
    var g := Global(xs)[..unpadded];
    var ys := GatherSeqScatterHeads(xs, s, c, unpadded);
    RemovesSome(n, s, unpadded);
    forall q | 0 <= q < n ensures ys[q] == ColumnBlock(g, n, c, q) {
      ScatterHeadsIsGlobal(xs, s, c, q);
      CutColumns(Global(xs), n, c, q, unpadded);
    }
    GatherHeadsOfBlocks(g, n, c, s', zero, ys);
    FlattenOfBlocks(PadRows(g, Missing(unpadded, n), n * c, zero), n, s');
  }

  /** The reverse exchange: scattering heads undoes gathering them, so each collective's backward
      pass, which is the other one, is its inverse. */
  lemma ScatterHeadsUndoesGather<T>(ys: seq<Matrix<T>>, s: nat, c: nat)
    requires HeadSharded(ys, s, c)
    ensures RowSharded(ScatterSeq(ys, s, c), s, c)
    ensures ScatterHeads(ScatterSeq(ys, s, c), s, c) == ys
  {
    var n := |ys|;
    var g := Beside(ys, n * s);
    forall i | 0 <= i < n * s
      ensures |g[i]| == n * c && Blocks(g[i], n, c) == seq(n, q requires 0 <= q < n => ys[q][i]) {
      var row := seq(n, q requires 0 <= q < n => ys[q][i]);
      forall q | 0 <= q < n ensures |row[q]| == c { assert Sized(ys[q], n * s, c); }
      BlocksOfFlatten(row, c);
      assert g[i] == Flatten(row);
    }
    forall q | 0 <= q < n ensures ys[q] == ColumnBlock(g, n, c, q) {
      forall i | 0 <= i < n * s ensures ys[q][i] == ColumnBlock(g, n, c, q)[i] {
        assert Blocks(g[i], n, c)[q] == ys[q][i];
      }
    }
    assert HeadBlocks(g, n, s, c) == ys;
    ScatterSeqIsRows(g, n, s, c);
    var xs := Blocks(g, n, s);
    FlattenOfBlocks(g, n, s);
    forall r | 0 <= r < n ensures Sized(xs[r], s, n * c) { BlockFits(n, s, r); }
    forall r | 0 <= r < n ensures ScatterHeads(xs, s, c)[r] == ys[r] { ScatterHeadsIsGlobal(xs, s, c, r); }
  }

  // ---------- slicing the inputs and gathering the outputs ----------

  /** `slice_input_tensor` on rank r: pads to a multiple of the world size, then takes the r-th
      part. */
  function SliceInput<T>(x: seq<T>, n: nat, r: nat, s: nat, pad: T): seq<T>
    requires n > 0 && r < n && |x| + Missing(|x|, n) == n * s
  {
    Block(x + seq(Missing(|x|, n), _ => pad), n, s, r)
  }

  /** `gather_outpus_and_unpad` along the sequence: every rank gets all parts in rank order,
      without the padding. */
  function GatherAndUnpad<T>(parts: seq<seq<T>>, padding: nat): seq<T>
    requires padding <= |Flatten(parts)|
  {
    Flatten(parts)[..|Flatten(parts)| - padding]
  }

  /** `ulysses_pad`: the pad size makes the length a multiple, ids are padded with zeros, and
      positions, when given, restart at zero. */
  method UlyssesPad(ids: seq<int>, positions: Option<seq<int>>, spSize: int)
    returns (ids': seq<int>, positions': Option<seq<int>>, padSize: nat)
    requires positions.Some? ==> |positions.value| == |ids|
    ensures spSize <= 1 ==> padSize == 0
    ensures spSize > 1 ==> padSize < spSize && |ids'| % spSize == 0
    ensures |ids'| == |ids| + padSize && ids'[..|ids|] == ids && forall i | |ids| <= i < |ids'| :: ids'[i] == 0
    ensures positions'.Some? == positions.Some?
    ensures positions.Some? ==>
      |positions'.value| == |ids'| && positions'.value[..|ids|] == positions.value &&
      forall i | |ids| <= i < |ids'| :: positions'.value[i] == i - |ids|
  {
    if spSize <= 1 { return ids, positions, 0; }
    padSize := (spSize - |ids| % spSize) % spSize;
    ids', positions' := ids, positions;
    var s := MissingFills(|ids|, spSize);
    MissingNone(spSize, s);
    if padSize > 0 {
      ids' := ids + seq(padSize, _ => 0);
      if positions.Some? { positions' := Some(positions.value + seq(padSize, i => i)); }
    }
  }

  /** Padding, slicing on every rank, and gathering without the padding changes nothing. */
  lemma SliceThenGather<T>(x: seq<T>, n: nat, s: nat, pad: T)
    requires n > 0 && |x| + Missing(|x|, n) == n * s
    ensures var parts := seq(n, r requires 0 <= r < n => SliceInput(x, n, r, s, pad));
      |Flatten(parts)| == n * s && GatherAndUnpad(parts, Missing(|x|, n)) == x
  {
    var padded := x + seq(Missing(|x|, n), _ => pad);
    var parts := seq(n, r requires 0 <= r < n => SliceInput(x, n, r, s, pad));
    assert parts == Blocks(padded, n, s);
    FlattenOfBlocks(padded, n, s);
  }
}
