/** Micro-batches (`rearrange_micro_batches`), the inverse index map
    (`get_reverse_idx`) and the scoring loop that uses both (`compute_rm_score`). */
module MicroBatches {
  import opened BlockSequences
  import opened Common
  import opened BalancedStates
  import opened PartitionResult
  import opened SeqlenBalancing
  import opened TokenLimit
  import opened HeavyRow

  // ---------- rearranging a batch ----------

  /** A batch row: whatever the model reads, and its attention mask. */
  datatype Row = Row(payload: int, mask: seq<bool>)

  function MaskSum(mask: seq<bool>): nat {
    if mask == [] then 0 else (if mask[0] then 1 else 0) + MaskSum(mask[1..])
  }

  /** The positions the mask attends to. */
  function Attended(mask: seq<bool>): set<int> { set i | 0 <= i < |mask| && mask[i] }

  lemma {:induction false} MaskSumSnoc(mask: seq<bool>, last: bool)
    ensures MaskSum(mask + [last]) == MaskSum(mask) + if last then 1 else 0
  {
    if mask == [] {
      assert mask + [last] == [last];
    } else {
      assert (mask + [last])[1..] == mask[1..] + [last];
      MaskSumSnoc(mask[1..], last);
    }
  }

  /** The length of a row is the number of positions its mask attends to. */
  lemma {:induction false} MaskSumCounts(mask: seq<bool>)
    ensures MaskSum(mask) == |Attended(mask)|
  {
    if mask == [] {
    } else {
      var n := |mask| - 1;
      MaskSumCounts(mask[..n]);
      MaskSumSnoc(mask[..n], mask[n]);
      assert mask == mask[..n] + [mask[n]];
      assert Attended(mask) == Attended(mask[..n]) + if mask[n] then {n} else {};
    }
  }

  function Lengths(batch: seq<Row>): (lens: seq<nat>)
    ensures |lens| == |batch|
  {
    seq(|batch|, i requires 0 <= i < |batch| => MaskSum(batch[i].mask))
  }

  lemma {:induction false} MaskSumBound(mask: seq<bool>)
    ensures MaskSum(mask) <= |mask|
  {
    if mask == [] {
    } else {
      MaskSumBound(mask[1..]);
    }
  }

  /** The requested count: the ceiling (capped by the batch), raised by a minimum, by the other
      data-parallel ranks and to a multiple. */
  function MicroBatchCount(lens: seq<nat>, maxTokenLen: int, minimum: Option<int>, peers: Option<int>,
                           multiple: Option<int>): int
    requires maxTokenLen > 0 && (multiple.Some? ==> multiple.value > 0)
  {
    var base := Min(|lens|, CeilDiv(Total(lens), maxTokenLen));
    var atLeast := if minimum.Some? then Max(minimum.value, base) else base;
    var agreed := if peers.Some? then Max(atLeast, peers.value) else atLeast;
    if multiple.Some? then RoundupDivisible(agreed, multiple.value) else agreed
  }

  lemma CountAtLeastCeiling(lens: seq<nat>, maxTokenLen: int, minimum: Option<int>, peers: Option<int>,
                            multiple: Option<int>)
    requires maxTokenLen > 0 && (multiple.Some? ==> multiple.value > 0)
    requires forall i | 0 <= i < |lens| :: lens[i] <= maxTokenLen
    ensures CeilDiv(Total(lens), maxTokenLen) <= MicroBatchCount(lens, maxTokenLen, minimum, peers, multiple)
  {
    CeilingWithinBatch(lens, maxTokenLen);
    if multiple.Some? {
      var base := Min(|lens|, CeilDiv(Total(lens), maxTokenLen));
      var atLeast := if minimum.Some? then Max(minimum.value, base) else base;
      RoundupIsNextMultiple(if peers.Some? then Max(atLeast, peers.value) else atLeast, multiple.value);
    }
  }

  /** What a count of micro-batches must meet: its tokens cover the total, it is at least the minimum
      and what the other ranks ask, and it is a multiple where one is asked for. */
  predicate Enough(c: int, total: int, limit: int, minimum: Option<int>, peers: Option<int>, multiple: Option<int>)
    requires multiple.Some? ==> multiple.value > 0
  {
    c * limit >= total && (minimum.Some? ==> c >= minimum.value) && (peers.Some? ==> c >= peers.value) &&
    (multiple.Some? ==> c % multiple.value == 0)
  }

  /** The least count that is enough. */
  ghost predicate LeastEnough(c: int, total: int, limit: int, minimum: Option<int>, peers: Option<int>,
                              multiple: Option<int>)
    requires multiple.Some? ==> multiple.value > 0
  {
    Enough(c, total, limit, minimum, peers, multiple) &&
    forall d | Enough(d, total, limit, minimum, peers, multiple) :: c <= d
  }

  lemma CeilingIsLeast(total: int, limit: int, d: int)
    requires limit > 0 && d * limit >= total
    ensures CeilDiv(total, limit) <= d
  {
    CeilDivIsCeiling(total, limit);
    var c := CeilDiv(total, limit);
    if d < c { MulMonotone(d, c - 1, limit); }
  }

  lemma MultipleAbove(a: int, b: int, d: int)
    requires b > 0 && d >= a && d % b == 0
    ensures RoundupDivisible(a, b) <= d
  {
    RoundupIsNextMultiple(a, b);
    var r, q, p := RoundupDivisible(a, b), RoundupDivisible(a, b) / b, d / b;
    assert r == b * q && d == b * p;
    if p < q { Grows(b, p, q); } else { MulMonotone(q, p, b); }
    assert q * b == b * q && p * b == b * p;
  }

  /** The requested count is the least that is enough. */
  lemma CountIsLeast(lens: seq<nat>, limit: int, minimum: Option<int>, peers: Option<int>, multiple: Option<int>)
    requires limit > 0 && (multiple.Some? ==> multiple.value > 0)
    requires forall i | 0 <= i < |lens| :: lens[i] <= limit
    ensures var c := MicroBatchCount(lens, limit, minimum, peers, multiple);
      LeastEnough(c, Total(lens), limit, minimum, peers, multiple) && c >= 0
  {
    var total, ceiling := Total(lens), CeilDiv(Total(lens), limit);
    var c := MicroBatchCount(lens, limit, minimum, peers, multiple);
    CeilingWithinBatch(lens, limit);
    CeilDivIsCeiling(total, limit);
    CountAtLeastCeiling(lens, limit, minimum, peers, multiple);
    MulMonotone(ceiling, c, limit);
    var atLeast := if minimum.Some? then Max(minimum.value, ceiling) else ceiling;
    var agreed := if peers.Some? then Max(atLeast, peers.value) else atLeast;
    if multiple.Some? { RoundupIsNextMultiple(agreed, multiple.value); }
    forall d | Enough(d, total, limit, minimum, peers, multiple) ensures c <= d {
      CeilingIsLeast(total, limit, d);
      if multiple.Some? { MultipleAbove(agreed, multiple.value, d); }
    }
  }

  /** Some count up to n is enough, and none is not. */
  ghost predicate Splittable(n: int, total: int, limit: int, minimum: Option<int>, peers: Option<int>,
                             multiple: Option<int>)
    requires multiple.Some? ==> multiple.value > 0
  {
    !Enough(0, total, limit, minimum, peers, multiple) &&
    exists c :: c <= n && Enough(c, total, limit, minimum, peers, multiple)
  }

  lemma CountInRange(lens: seq<nat>, limit: int, minimum: Option<int>, peers: Option<int>, multiple: Option<int>)
    requires limit > 0 && (multiple.Some? ==> multiple.value > 0)
    requires forall i | 0 <= i < |lens| :: lens[i] <= limit
    ensures 1 <= MicroBatchCount(lens, limit, minimum, peers, multiple) <= |lens| <==>
      Splittable(|lens|, Total(lens), limit, minimum, peers, multiple)
  {
    CountIsLeast(lens, limit, minimum, peers, multiple);
    var c := MicroBatchCount(lens, limit, minimum, peers, multiple);
    assert Enough(c, Total(lens), limit, minimum, peers, multiple);
  }

  function Pick<T>(batch: seq<T>, idx: seq<int>): seq<T>
    requires forall i | 0 <= i < |idx| :: 0 <= idx[i] < |batch|
  {
    seq(|idx|, i requires 0 <= i < |idx| => batch[idx[i]])
  }

  ghost predicate InBatch(parts: seq<seq<int>>, n: nat) {
    forall p, i | 0 <= p < |parts| && 0 <= i < |parts[p]| :: 0 <= parts[p][i] < n
  }

  lemma CoverInBatch(parts: seq<seq<int>>, n: nat)
    requires Covers(parts, n)
    ensures InBatch(parts, n)
  {
    forall p, i | 0 <= p < |parts| && 0 <= i < |parts[p]| ensures 0 <= parts[p][i] < n {
      assert parts[p][i] in parts[p];
      CoverMembers(parts, n, parts[p][i]);
    }
  }

  datatype Rearranged = Rearranged(microBatches: seq<seq<Row>>, indices: seq<seq<int>>)

  /** Micro-batch p holds the rows its index list names, in that order. */
  ghost predicate Arranged(batch: seq<Row>, split: Rearranged) {
    InBatch(split.indices, |batch|) && |split.microBatches| == |split.indices| &&
    forall p | 0 <= p < |split.indices| :: split.microBatches[p] == Pick(batch, split.indices[p])
  }

  /** When the split keeps the limit itself: always when the lengths are safe or each row has its
      own part; with one part exactly when the total fits; with rows of one length exactly when
      the ceiling of the average number of rows fits. */
  ghost predicate LimitCases(parts: seq<seq<int>>, lens: seq<nat>, limit: int)
    requires parts != []
  {
    (LimitSafe(lens, |parts|, limit) || |parts| == |lens| ==> WithinLimit(parts, lens, limit)) &&
    (|parts| == 1 ==> (WithinLimit(parts, lens, limit) <==> Total(lens) <= limit)) &&
    forall m | AllEqual(lens, m) :: WithinLimit(parts, lens, limit) <==> CeilDiv(|lens|, |parts|) * m <= limit
  }

  lemma LimitByCases(parts: seq<seq<int>>, lens: seq<nat>, limit: int)
    requires Balancing(parts, lens, |parts|, false) && lens != [] && forall i | 0 <= i < |lens| :: lens[i] <= limit
    ensures LimitCases(parts, lens, limit)
  {
    MaxWithinLimit(lens, limit);
    if |parts| == |lens| { SinglesLimit(parts, lens, limit); }
    if LimitSafe(lens, |parts|, limit) { LimitKept(parts, lens, limit); }
    if WithinLimit(parts, lens, limit) { LimitNeeds(parts, lens, limit); }
    forall m | AllEqual(lens, m) ensures WithinLimit(parts, lens, limit) <==> CeilDiv(|lens|, |parts|) * m <= limit {
      EqualRowsLimit(parts, lens, m, limit);
    }
  }

  /** The micro-batches of an index split. */
  method BuildMicroBatches(batch: seq<Row>, indices: seq<seq<int>>) returns (microBatches: seq<seq<Row>>)
    requires InBatch(indices, |batch|)
    ensures Arranged(batch, Rearranged(microBatches, indices))
  {
    microBatches := [];
    for p := 0 to |indices|
      invariant |microBatches| == p && forall q | 0 <= q < p :: microBatches[q] == Pick(batch, indices[q])
    {
      var current: seq<Row> := [];
      for i := 0 to |indices[p]|
        invariant current == Pick(batch, indices[p][..i])
      {
        assert indices[p][..i + 1] == indices[p][..i] + [indices[p][i]];
        current := current + [batch[indices[p][i]]];
      }
      assert indices[p][..|indices[p]|] == indices[p];
      microBatches := microBatches + [current];
    }
  }

  /** The agreed count, computed step by step. */
  method RequestedCount(lens: seq<nat>, limit: int, minimum: Option<int>, peers: Option<int>, multiple: Option<int>)
    returns (count: int)
    requires limit > 0 && (multiple.Some? ==> multiple.value > 0)
    requires forall i | 0 <= i < |lens| :: lens[i] <= limit
    ensures count == MicroBatchCount(lens, limit, minimum, peers, multiple)
    ensures CeilDiv(Total(lens), limit) <= count && LeastEnough(count, Total(lens), limit, minimum, peers, multiple)
    ensures 1 <= count <= |lens| <==> Splittable(|lens|, Total(lens), limit, minimum, peers, multiple)
  {
    count := Min(|lens|, CeilDiv(Total(lens), limit));
    if minimum.Some? { count := Max(minimum.value, count); }
    if peers.Some? { count := Max(count, peers.value); }
    if multiple.Some? { count := RoundupDivisible(count, multiple.value); }
    CountInRange(lens, limit, minimum, peers, multiple);
    CountIsLeast(lens, limit, minimum, peers, multiple);
    CountAtLeastCeiling(lens, limit, minimum, peers, multiple);
  }

  /** The split succeeds exactly when the limit covers the width and some count of parts between 1
      and the batch size is enough.  The count is the least one.  Every row is in exactly one
      micro-batch, none is empty, loads differ by at most the longest row, and each is below twice
      the limit. */
  method RearrangeMicroBatches(batch: seq<Row>, width: nat, maxTokenLen: int, minimum: Option<int>,
                               peers: Option<int>, multiple: Option<int>)
    returns (r: Result<Rearranged>)
    requires forall i | 0 <= i < |batch| :: |batch[i].mask| == width
    requires multiple.Some? ==> multiple.value > 0
    ensures r.Ok? <==> (maxTokenLen >= width && maxTokenLen > 0 &&
                        Splittable(|batch|, Total(Lengths(batch)), maxTokenLen, minimum, peers, multiple))
    ensures r.Ok? ==>
      LeastEnough(|r.value.indices|, Total(Lengths(batch)), maxTokenLen, minimum, peers, multiple)
    ensures r.Ok? ==> Balancing(r.value.indices, Lengths(batch), |r.value.indices|, false)
    ensures r.Ok? ==> Arranged(batch, r.value)
    ensures r.Ok? ==> forall p | 0 <= p < |r.value.indices| ::
      Load(r.value.indices[p], Lengths(batch)) < 2 * maxTokenLen
    ensures r.Ok? ==> LimitCases(r.value.indices, Lengths(batch), maxTokenLen)
    ensures r.Ok? ==> HeavyWithin(r.value.indices, Lengths(batch))
  {
    if maxTokenLen < width { return Err("max_token_len below the sequence length"); }
    var lens := Lengths(batch);
    if maxTokenLen == 0 { return Err("division by zero"); }
    LengthsFit(batch, width);
    var count := RequestedCount(lens, maxTokenLen, minimum, peers, multiple);
    if count > |lens| { return Err("more micro-batches than rows"); }
    var partitions := GetSeqlenBalancedPartitions(lens, count, false);
    if partitions.Err? { return Err(partitions.reason); }
    var indices := partitions.value;
    CoverInBatch(indices, |batch|);
    HeavyKept(lens, count, indices);
    var microBatches := BuildMicroBatches(batch, indices);
    forall p | 0 <= p < |indices| ensures Load(indices[p], lens) < 2 * maxTokenLen {
      BelowTwiceLimit(indices, lens, maxTokenLen, p);
    }
    LimitByCases(indices, lens, maxTokenLen);
    r := Ok(Rearranged(microBatches, indices));
  }

  /** With two parts or more, a longest row at least all the others together is not exceeded. */
  ghost predicate HeavyWithin(parts: seq<seq<int>>, lens: seq<nat>) {
    |parts| >= 2 && Total(lens) <= 2 * MaxLength(lens) ==> WithinLimit(parts, lens, MaxLength(lens))
  }

  lemma HeavyKept(lens: seq<nat>, k: int, indices: seq<seq<int>>)
    requires |indices| == k && lens != []
    requires exists parts :: KK.Differenced(lens, k, false, parts) && indices == SortParts(parts)
    ensures HeavyWithin(indices, lens)
  {
    var parts :| KK.Differenced(lens, k, false, parts) && indices == SortParts(parts);
    if k >= 2 && Total(lens) <= 2 * MaxLength(lens) { HeavyRowSorted(lens, k, parts); }
  }

  lemma LengthsFit(batch: seq<Row>, width: nat)
    requires forall i | 0 <= i < |batch| :: |batch[i].mask| == width
    ensures forall i | 0 <= i < |batch| :: Lengths(batch)[i] <= width
  {
    forall i | 0 <= i < |batch| ensures Lengths(batch)[i] <= width { MaskSumBound(batch[i].mask); }
  }

  // ---------- undoing the rearrangement ----------

  ghost predicate Indexes(idx: seq<int>) {
    forall i | 0 <= i < |idx| :: 0 <= idx[i] < |idx|
  }

  /** The place a Python index names in a list of n elements; negative ones count from the end. */
  function Place(i: int, n: nat): int { if i < 0 then i + n else i }

  predicate Named(i: int, n: nat) { 0 <= i + n && i < n }

  /** Raises exactly when some entry is no index.  Otherwise each position holds the last place
      that names it, or its old entry if none does. */
  method GetReverseIdx(idxMap: seq<int>) returns (r: Result<seq<int>>)
    ensures r.Ok? <==> forall i | 0 <= i < |idxMap| :: Named(idxMap[i], |idxMap|)
    ensures r.Ok? ==> |r.value| == |idxMap| && forall j | 0 <= j < |idxMap| ::
      LastPlace(idxMap, |idxMap|, j, r.value[j])
  {
    var reverse := idxMap;
    for i := 0 to |idxMap|
      invariant forall j | 0 <= j < i :: Named(idxMap[j], |idxMap|)
      invariant |reverse| == |idxMap| && forall j | 0 <= j < |idxMap| :: LastPlace(idxMap, i, j, reverse[j])
    {
      if !Named(idxMap[i], |idxMap|) { return Err("list assignment index out of range"); }
      var at := Place(idxMap[i], |idxMap|);
      forall j | 0 <= j < |idxMap|
        ensures LastPlace(idxMap, i + 1, j, if j == at then i else reverse[j])
      {
        LastPlaceNext(idxMap, i, j, reverse[j]);
      }
      reverse := reverse[at := i];
    }
    r := Ok(reverse);
  }

  ghost predicate NamesIt(idxMap: seq<int>, i: int, j: int) {
    0 <= i < |idxMap| && Place(idxMap[i], |idxMap|) == j
  }

  /** r is the last place before i that names j, or the old entry if there is none. */
  ghost predicate LastPlace(idxMap: seq<int>, i: nat, j: nat, r: int)
    requires i <= |idxMap| && j < |idxMap|
  {
    (0 <= r < i && NamesIt(idxMap, r, j) && forall x | r < x < i :: !NamesIt(idxMap, x, j)) ||
    (r == idxMap[j] && forall x | 0 <= x < i :: !NamesIt(idxMap, x, j))
  }

  lemma LastPlaceNext(idxMap: seq<int>, i: nat, j: nat, r: int)
    requires i < |idxMap| && j < |idxMap| && LastPlace(idxMap, i, j, r)
    ensures LastPlace(idxMap, i + 1, j, if j == Place(idxMap[i], |idxMap|) then i else r)
  {
    assert NamesIt(idxMap, i, j) <==> j == Place(idxMap[i], |idxMap|);
  }

  ghost predicate Permutation(idx: seq<int>) {
    multiset(idx) == multiset(Range(|idx|))
  }

  lemma {:induction false} RangeMembers(n: nat, x: int)
    ensures multiset(Range(n))[x] == if 0 <= x < n then 1 else 0
  {
    if n == 0 {
    } else {
      RangeNext(n - 1);
      RangeMembers(n - 1, x);
    }
  }

  lemma PermutationHits(idx: seq<int>, j: int)
    requires Permutation(idx)
    ensures j in idx <==> 0 <= j < |idx|
  {
    RangeMembers(|idx|, j);
    assert j in idx <==> j in multiset(idx);
  }

  lemma PermutationInjective(idx: seq<int>, a: int, b: int)
    requires Permutation(idx) && 0 <= a < b < |idx|
    ensures idx[a] != idx[b]
  {
    RangeMembers(|idx|, idx[a]);
    assert idx == idx[..b] + idx[b..];
    assert multiset(idx) == multiset(idx[..b]) + multiset(idx[b..]);
    assert idx[a] in idx[..b] && idx[b] in idx[b..];
  }

  /** `reverse` undoes `idx` from both sides. */
  ghost predicate TwoSidedInverse(idx: seq<int>, reverse: seq<int>) {
    |reverse| == |idx| && Indexes(idx) && Indexes(reverse) &&
    forall i | 0 <= i < |idx| :: reverse[idx[i]] == i && idx[reverse[i]] == i
  }

  method ReversePermutation(idxMap: seq<int>) returns (reverse: seq<int>)
    requires Permutation(idxMap)
    ensures TwoSidedInverse(idxMap, reverse)
  {
    forall i | 0 <= i < |idxMap| ensures 0 <= idxMap[i] < |idxMap| {
      PermutationHits(idxMap, idxMap[i]);
    }
    var r := GetReverseIdx(idxMap);
    reverse := r.value;
    forall j | 0 <= j < |idxMap| ensures 0 <= reverse[j] < |idxMap| && idxMap[reverse[j]] == j {
      PermutationHits(idxMap, j);
      var x :| 0 <= x < |idxMap| && idxMap[x] == j;
      assert NamesIt(idxMap, x, j) && LastPlace(idxMap, |idxMap|, j, reverse[j]);
    }
    forall i | 0 <= i < |idxMap| ensures reverse[idxMap[i]] == i {
      var j := reverse[idxMap[i]];
      if j < i { PermutationInjective(idxMap, j, i); } else if i < j { PermutationInjective(idxMap, i, j); }
    }
  }

  /** Applying `f` to rows picked by a permutation, then picking by its inverse, is applying
      `f` in place. */
  lemma PickInverse<S, T>(batch: seq<S>, f: S -> T, idx: seq<int>, reverse: seq<int>)
    requires |idx| == |batch| && TwoSidedInverse(idx, reverse)
    ensures Pick(Each(f, Pick(batch, idx)), reverse) == Each(f, batch)
  {
  }

  lemma PickConcat<T>(batch: seq<T>, a: seq<int>, b: seq<int>)
    requires forall i | 0 <= i < |a| :: 0 <= a[i] < |batch|
    requires forall i | 0 <= i < |b| :: 0 <= b[i] < |batch|
    ensures Pick(batch, a + b) == Pick(batch, a) + Pick(batch, b)
  {
  }

  /** The scoring loop with dynamic batching: micro-batches are scored in partition order and
      the scores are put back with the reversed indices.  The result is the score of each
      original row in place.  `score` is the per-row forward pass. */
  method ScoreDynamic<T>(batch: seq<Row>, split: Rearranged, score: Row -> T) returns (scores: seq<T>)
    requires Arranged(batch, split) && Covers(split.indices, |batch|)
    ensures scores == Each(score, batch)
  {
    var output: seq<T> := [];
    ghost var parts := split.indices;
    SameLength(Flatten(parts), Range(|batch|));
    forall i | 0 <= i < |Flatten(parts)| ensures 0 <= Flatten(parts)[i] < |batch| {
      FlatMembers(parts, Flatten(parts)[i]);
    }
    for p := 0 to |split.microBatches|
      invariant forall i | 0 <= i < |Flatten(parts[..p])| :: 0 <= Flatten(parts[..p])[i] < |batch|
      invariant output == Each(score, Pick(batch, Flatten(parts[..p])))
    {
      FlattenPrefix(parts, p);
      PickConcat(batch, Flatten(parts[..p]), parts[p]);
      EachConcat(score, Pick(batch, Flatten(parts[..p])), split.microBatches[p]);
      output := output + Each(score, split.microBatches[p]);
    }
    assert parts[..|parts|] == parts;
    var indices := Flatten(split.indices);
    assert |indices| == |output|;
    var revert := ReversePermutation(indices);
    scores := Pick(output, revert);
    PickInverse(batch, score, indices, revert);
  }

  /** The fixed-size branch: consecutive micro-batches need no reordering. */
  method ScoreFixed<T>(batch: seq<Row>, microBatchSize: nat, score: Row -> T) returns (scores: seq<T>)
    requires microBatchSize > 0
    ensures scores == Each(score, batch)
  {
    scores := [];
    var start := 0;
    while start < |batch|
      invariant 0 <= start <= |batch| && scores == Each(score, batch[..start])
    {
      var stop := Min(start + microBatchSize, |batch|);
      assert batch[..stop] == batch[..start] + batch[start..stop];
      EachConcat(score, batch[..start], batch[start..stop]);
      scores := scores + Each(score, batch[start..stop]);
      start := stop;
    }
    assert batch[..start] == batch;
  }

  /** Either way of batching, the scores are those of the original rows in place. */
  method ComputeRmScore<T>(batch: seq<Row>, width: nat, useDynamic: bool, maxTokenLen: int, peers: Option<int>,
                           microBatchSize: nat, score: Row -> T) returns (r: Result<seq<T>>)
    requires (forall i | 0 <= i < |batch| :: |batch[i].mask| == width) && microBatchSize > 0
    ensures r.Ok? ==> r.value == Each(score, batch)
    ensures r.Ok? <==> !useDynamic || (maxTokenLen >= width && maxTokenLen > 0 &&
                        Splittable(|batch|, Total(Lengths(batch)), maxTokenLen, None, peers, None))
  {
    if useDynamic {
      var split := RearrangeMicroBatches(batch, width, maxTokenLen, None, peers, None);
      if split.Err? { return Err(split.reason); }
      var scores := ScoreDynamic(batch, split.value, score);
      r := Ok(scores);
    } else {
      var scores := ScoreFixed(batch, microBatchSize, score);
      r := Ok(scores);
    }
  }
}
