/** Token limits of micro-batches: the count arithmetic of `rearrange_micro_batches`, and when a
    balanced split keeps the limit. */
module TokenLimit {
  import opened BlockSequences
  import opened Common
  import opened BalancedStates
  import opened PartitionResult
  import opened SeqlenBalancing

  // ---------- how many micro-batches ----------

  /** Python's `//`: rounds toward minus infinity for either sign of the divisor. */
  function FloorDiv(a: int, b: int): int
    requires b != 0
  {
    if b > 0 then a / b else (-a) / (-b)
  }

  function CeilDiv(a: int, b: int): int
    requires b != 0
  {
    -FloorDiv(a, -b)
  }

  function RoundupDivisible(a: int, b: int): int
    requires b != 0
  {
    FloorDiv(a + b - 1, b) * b
  }

  lemma CeilDivIsCeiling(a: int, b: int)
    requires b > 0
    ensures (CeilDiv(a, b) - 1) * b < a <= CeilDiv(a, b) * b
  {
    var q, r := (-a) / b, (-a) % b;
    assert -a == q * b + r;
    assert (-q) * b == -(q * b);
    assert (-q - 1) * b == -(q * b) - b;
  }

  lemma RoundupIsNextMultiple(a: int, b: int)
    requires b > 0
    ensures RoundupDivisible(a, b) % b == 0
    ensures a <= RoundupDivisible(a, b) < a + b
  {
    var q, r := (a + b - 1) / b, (a + b - 1) % b;
    assert a + b - 1 == q * b + r;
    MultipleDivides(q, b);
  }

  /** The ceiling of total over limit never exceeds the batch size when every length fits. */
  lemma CeilingWithinBatch(lens: seq<nat>, maxTokenLen: int)
    requires maxTokenLen > 0 && forall i | 0 <= i < |lens| :: lens[i] <= maxTokenLen
    ensures 0 <= CeilDiv(Total(lens), maxTokenLen) <= |lens|
  {
    TotalBound(lens, maxTokenLen);
    CeilDivIsCeiling(Total(lens), maxTokenLen);
    var c := CeilDiv(Total(lens), maxTokenLen);
    if c > |lens| { MulMonotone(|lens|, c - 1, maxTokenLen); }
    if c < 0 { MulMonotone(c, -1, maxTokenLen); }
  }

  lemma {:induction false} TotalBound(lens: seq<nat>, m: int)
    requires m >= 0 && forall i | 0 <= i < |lens| :: lens[i] <= m
    ensures Total(lens) <= |lens| * m
  {
    if lens == [] {
    } else {
      TotalBound(lens[1..], m);
      assert |lens| * m == m + (|lens| - 1) * m;
    }
  }

  // ---------- how full a micro-batch can be ----------

  /** If every load is at least d and one exceeds it by `extra`, so does the total. */
  lemma {:induction false} LoadFloor(parts: seq<seq<int>>, lens: seq<nat>, d: int, p: int, extra: int)
    requires forall q | 0 <= q < |parts| :: d <= Load(parts[q], lens)
    requires 0 <= p < |parts| ==> d + extra <= Load(parts[p], lens)
    ensures d * |parts| + (if 0 <= p < |parts| then extra else 0) <= TotalLoad(parts, lens)
  {
    if parts == [] {
    } else {
      LoadFloor(parts[1..], lens, d, p - 1, extra);
      assert d * |parts| == d + d * (|parts| - 1);
    }
  }

  /** k times (a load less the gap), plus the gap, is at most the total: no part is far above
      the average. */
  lemma BalancedLoad(parts: seq<seq<int>>, lens: seq<nat>, gap: int, p: int)
    requires Balanced(parts, lens, gap) && Covers(parts, |lens|) && 0 <= p < |parts|
    ensures (Load(parts[p], lens) - gap) * |parts| + gap <= Total(lens)
  {
    GapFloor(parts, lens, gap, p);
    CoverConserves(parts, lens);
  }

  lemma GapFloor(parts: seq<seq<int>>, lens: seq<nat>, gap: int, p: int)
    requires Balanced(parts, lens, gap) && 0 <= p < |parts|
    ensures (Load(parts[p], lens) - gap) * |parts| + gap <= TotalLoad(parts, lens)
  {
    var d := Load(parts[p], lens) - gap;
    forall q | 0 <= q < |parts| ensures d <= Load(parts[q], lens) {
      assert Load(parts[p], lens) - Load(parts[q], lens) <= gap;
    }
    LoadFloor(parts, lens, d, p, gap);
  }

  predicate NearAverage(k: int, load: int, gap: int, total: int) { (load - gap) * k + gap <= total }

  lemma TwiceLimit(k: int, load: int, gap: int, limit: int, total: int, c: int)
    requires 1 <= k && c <= k && 0 <= gap <= limit && 0 < limit
    requires total <= c * limit && NearAverage(k, load, gap, total)
    ensures load < 2 * limit
  {
    MulMonotone(c, k, limit);
    assert (limit + 1) * k == limit * k + k;
    if load >= 2 * limit {
      if gap > 0 {
        MulMonotone(limit, load - gap, k);
      } else {
        MulMonotone(limit + 1, load - gap, k);
      }
    }
  }

  lemma MaxWithinLimit(lens: seq<nat>, limit: int)
    requires lens != [] && forall i | 0 <= i < |lens| :: lens[i] <= limit
    ensures MaxLength(lens) <= limit
  {
  }

  /** With at least ceil(total / limit) parts and no length above the limit, every part stays
      strictly below twice the limit. */
  lemma BelowTwiceLimit(parts: seq<seq<int>>, lens: seq<nat>, limit: int, p: int)
    requires limit > 0 && (forall i | 0 <= i < |lens| :: lens[i] <= limit) && lens != []
    requires Balanced(parts, lens, MaxLength(lens)) && Covers(parts, |lens|) && 0 <= p < |parts|
    requires CeilDiv(Total(lens), limit) <= |parts|
    ensures Load(parts[p], lens) < 2 * limit
  {
    var k, load, gap, total := LoadFigures(parts, lens, p);
    MaxWithinLimit(lens, limit);
    var c := CeilingCovers(total, limit);
    TwiceLimit(k, load, gap, limit, total, c);
  }

  lemma LoadFigures(parts: seq<seq<int>>, lens: seq<nat>, p: int) returns (k: nat, load: int, gap: nat, total: int)
    requires Balanced(parts, lens, MaxLength(lens)) && Covers(parts, |lens|) && 0 <= p < |parts|
    ensures k == |parts| && load == Load(parts[p], lens) && gap == MaxLength(lens) && total == Total(lens)
    ensures k >= 1 && NearAverage(k, load, gap, total)
  {
    k, load, gap, total := |parts|, Load(parts[p], lens), MaxLength(lens), Total(lens);
    BalancedLoad(parts, lens, gap, p);
  }

  lemma CeilingCovers(a: int, b: int) returns (c: int)
    requires b > 0
    ensures c == CeilDiv(a, b) && a <= c * b
  {
    CeilDivIsCeiling(a, b);
    c := CeilDiv(a, b);
  }

  /** The limit itself is not kept: [5, 5, 5] under limit 8 makes two micro-batches, and
      whichever way they are split one of them carries 10 tokens. */
  lemma LimitCanBeExceeded(parts: seq<seq<int>>)
    requires Covers(parts, 3) && |parts| == CeilDiv(Total([5, 5, 5]), 8)
    ensures |parts| == 2 && exists p :: 0 <= p < 2 && Load(parts[p], [5, 5, 5]) >= 10
  {
    var lens: seq<nat> := [5, 5, 5];
    assert lens[1..] == [5, 5] && lens[1..][1..] == [5] && Total(lens) == 15;
    assert |parts| == 2;
    forall p | 0 <= p < 2 ensures Load(parts[p], lens) == 5 * |parts[p]| {
      forall x | x in parts[p] ensures 0 <= x < 3 { CoverMembers(parts, 3, x); }
      FivesLoad(parts[p]);
    }
    SameLength(Flatten(parts), Range(3));
    assert parts == [parts[0]] + [parts[1]] && parts[1..][0] == parts[1];
    assert Flatten(parts[1..]) == parts[1] + Flatten([]);
    assert |parts[0]| + |parts[1]| == 3;
    assert Load(parts[if |parts[0]| >= 2 then 0 else 1], lens) >= 10;
  }

  lemma {:induction false} FivesLoad(part: seq<int>)
    requires forall x | x in part :: 0 <= x < 3
    ensures Load(part, [5, 5, 5]) == 5 * |part|
  {
    if part == [] {
    } else {
      assert part[0] in part && forall x | x in part[1..] :: x in part;
      FivesLoad(part[1..]);
    }
  }

  // ---------- when the limit is kept ----------

  ghost predicate WithinLimit(parts: seq<seq<int>>, lens: seq<nat>, limit: int) {
    forall p | 0 <= p < |parts| :: Load(parts[p], lens) <= limit
  }

  /** The total leaves room for the longest row in every part but one, up to the part that would
      be the first above the limit. */
  predicate LimitSafe(lens: seq<nat>, k: int, limit: int) {
    Room(Total(lens), k, MaxLength(lens), limit)
  }

  predicate Room(total: int, k: int, longest: int, limit: int) { total + (k - 1) * longest < k * (limit + 1) }

  lemma RoomForAll(k: int, load: int, gap: int, limit: int, total: int)
    requires 1 <= k && NearAverage(k, load, gap, total) && Room(total, k, gap, limit)
    ensures load <= limit
  {
    assert (load - gap) * k + gap + (k - 1) * gap == k * load;
    if load > limit { MulMonotone(limit + 1, load, k); }
    assert (limit + 1) * k == k * (limit + 1) && load * k == k * load;
  }

  /** A balanced split of safe lengths keeps the limit. */
  lemma LimitKept(parts: seq<seq<int>>, lens: seq<nat>, limit: int)
    requires Balanced(parts, lens, MaxLength(lens)) && Covers(parts, |lens|) && LimitSafe(lens, |parts|, limit)
    ensures WithinLimit(parts, lens, limit)
  {
    forall p | 0 <= p < |parts| ensures Load(parts[p], lens) <= limit {
      var k, load, gap, total := LoadFigures(parts, lens, p);
      RoomForAll(k, load, gap, limit, total);
    }
  }

  lemma {:induction false} LoadCeiling(parts: seq<seq<int>>, lens: seq<nat>, limit: int)
    requires WithinLimit(parts, lens, limit)
    ensures TotalLoad(parts, lens) <= |parts| * limit
  {
    if parts == [] {
    } else {
      assert forall p | 0 <= p < |parts[1..]| :: parts[1..][p] == parts[p + 1];
      LoadCeiling(parts[1..], lens, limit);
      assert |parts| * limit == limit + (|parts| - 1) * limit;
    }
  }

  lemma {:induction false} LoadMember(part: seq<int>, lens: seq<nat>, i: int)
    requires i in part && 0 <= i < |lens|
    ensures lens[i] <= Load(part, lens)
  {
    if part[0] == i {
    } else {
      LoadMember(part[1..], lens, i);
    }
  }

  /** No split at all keeps the limit unless every row fits it and the total fits the parts; with
      one part the safe condition is exact. */
  lemma LimitNeeds(parts: seq<seq<int>>, lens: seq<nat>, limit: int)
    requires Covers(parts, |lens|) && WithinLimit(parts, lens, limit) && lens != []
    ensures Total(lens) <= |parts| * limit && MaxLength(lens) <= limit
    ensures |parts| == 1 ==> LimitSafe(lens, 1, limit)
  {
    LoadCeiling(parts, lens, limit);
    CoverConserves(parts, lens);
    MaxLengthAttained(lens);
    var i :| 0 <= i < |lens| && lens[i] == MaxLength(lens);
    CoverMembers(parts, |lens|, i);
    var p :| 0 <= p < |parts| && i in parts[p];
    LoadMember(parts[p], lens, i);
    assert 1 * limit == limit && 1 * (limit + 1) == limit + 1 && (1 - 1) * MaxLength(lens) == 0;
  }

  // ---------- rows of one length ----------

  ghost predicate AllEqual(lens: seq<nat>, m: nat) {
    forall i | 0 <= i < |lens| :: lens[i] == m
  }

  lemma {:induction false} EqualLoad(part: seq<int>, lens: seq<nat>, m: nat)
    requires AllEqual(lens, m) && forall i | i in part :: 0 <= i < |lens|
    ensures Load(part, lens) == |part| * m
  {
    if part == [] {
    } else {
      assert part[0] in part && forall i | i in part[1..] :: i in part;
      EqualLoad(part[1..], lens, m);
      assert |part| * m == m + (|part| - 1) * m;
    }
  }

  lemma EqualLoads(parts: seq<seq<int>>, lens: seq<nat>, m: nat, p: int)
    requires Covers(parts, |lens|) && AllEqual(lens, m) && 0 <= p < |parts|
    ensures Load(parts[p], lens) == |parts[p]| * m
  {
    forall i | i in parts[p] ensures 0 <= i < |lens| { CoverMembers(parts, |lens|, i); }
    EqualLoad(parts[p], lens, m);
  }

  lemma EqualRowsEven(parts: seq<seq<int>>, lens: seq<nat>, m: nat)
    requires Covers(parts, |lens|) && AllEqual(lens, m) && m > 0 && lens != []
    requires Balanced(parts, lens, MaxLength(lens))
    ensures EvenlySized(parts)
  {
    MaxLengthAttained(lens);
    forall p, q | 0 <= p < |parts| && 0 <= q < |parts| ensures |parts[p]| <= |parts[q]| + 1 {
      EqualLoads(parts, lens, m, p);
      EqualLoads(parts, lens, m, q);
      assert Load(parts[p], lens) - Load(parts[q], lens) <= m;
      SizeGap(|parts[p]|, |parts[q]|, m);
    }
  }

  lemma SizeGap(a: nat, b: nat, m: nat)
    requires m > 0 && a * m - b * m <= m
    ensures a <= b + 1
  {
    assert m * (b + 1) == b * m + m && m * a == a * m;
    if a > b + 1 { Grows(m, b + 1, a); }
  }

  lemma CeilingIs(n: int, k: int, c: int)
    requires k >= 1 && k * (c - 1) < n <= k * c
    ensures CeilDiv(n, k) == c
  {
    CeilDivIsCeiling(n, k);
    var d := CeilDiv(n, k);
    assert d * k == k * d && (c - 1) * k == k * (c - 1) && c * k == k * c && (d - 1) * k == k * (d - 1);
    if d < c { MulMonotone(d, c - 1, k); }
    if c < d { MulMonotone(c, d - 1, k); }
  }

  lemma LeastSize(parts: seq<seq<int>>) returns (p: int)
    requires parts != [] && EvenlySized(parts)
    ensures 0 <= p < |parts| && forall q | 0 <= q < |parts| :: |parts[p]| <= |parts[q]| <= |parts[p]| + 1
  {
    p := 0;
    if q :| 0 <= q < |parts| && |parts[q]| < |parts[0]| { p := q; }
  }

  /** The largest of evenly sized parts holds the ceiling of the average. */
  lemma EvenLargest(parts: seq<seq<int>>) returns (p: int)
    requires parts != [] && EvenlySized(parts)
    ensures 0 <= p < |parts| && |parts[p]| == CeilDiv(|Flatten(parts)|, |parts|)
    ensures forall q | 0 <= q < |parts| :: |parts[q]| <= |parts[p]|
  {
    var low := LeastSize(parts);
    var k, c, n := |parts|, |parts[low]|, |Flatten(parts)|;
    FlatSizeBounds(parts, c);
    p := low;
    if q :| 0 <= q < k && |parts[q]| == c + 1 {
      p := q;
      assert k * (c + 1) == k * c + k;
      CeilingIs(n, k, c + 1);
    } else {
      FlattenLength(parts, c);
      assert k * (c - 1) == k * c - k;
      CeilingIs(n, k, c);
    }
  }

  /** With rows of one length the limit is kept if and only if the ceiling of the average number
      of rows fits it. */
  lemma EqualRowsLimit(parts: seq<seq<int>>, lens: seq<nat>, m: nat, limit: int)
    requires parts != [] && Covers(parts, |lens|) && AllEqual(lens, m) && lens != []
    requires Balanced(parts, lens, MaxLength(lens))
    ensures WithinLimit(parts, lens, limit) <==> CeilDiv(|lens|, |parts|) * m <= limit
  {
    forall p | 0 <= p < |parts| ensures Load(parts[p], lens) == |parts[p]| * m { EqualLoads(parts, lens, m, p); }
    SameLength(Flatten(parts), Range(|lens|));
    if m == 0 {
      forall p | 0 <= p < |parts| ensures Load(parts[p], lens) == 0 { assert |parts[p]| * 0 == 0; }
      assert Load(parts[0], lens) == 0 && CeilDiv(|lens|, |parts|) * 0 == 0;
    } else {
      EqualRowsEven(parts, lens, m);
      var p := EvenLargest(parts);
      assert Load(parts[p], lens) == CeilDiv(|lens|, |parts|) * m;
      forall q | 0 <= q < |parts| ensures Load(parts[q], lens) <= Load(parts[p], lens) {
        MulMonotone(|parts[q]|, |parts[p]|, m);
      }
    }
  }

  /** For rows of one length, one more than a multiple of the count, the safe condition is exact. */
  lemma SafeIsSharp(parts: seq<seq<int>>, lens: seq<nat>, m: nat, limit: int, q: nat)
    requires parts != [] && Covers(parts, |lens|) && AllEqual(lens, m) && |lens| == q * |parts| + 1
    requires Balanced(parts, lens, MaxLength(lens))
    ensures WithinLimit(parts, lens, limit) <==> LimitSafe(lens, |parts|, limit)
  {
    var k := |parts|;
    EqualRowsLimit(parts, lens, m, limit);
    assert k * q < q * k + 1 <= k * (q + 1) by { assert k * (q + 1) == k * q + k; }
    CeilingIs(|lens|, k, q + 1);
    EqualTotal(lens, m);
    MaxLengthAttained(lens);
    SharpFigures(k, q, m, limit);
  }

  lemma SharpFigures(k: int, q: int, m: int, limit: int)
    requires k >= 1
    ensures Room((q * k + 1) * m, k, m, limit) <==> (q + 1) * m <= limit
  {
    var load := (q + 1) * m;
    assert (q * k + 1) * m + (k - 1) * m == k * load;
    if load <= limit { Grows(k, load, limit + 1); } else { MulMonotone(limit + 1, load, k); }
    assert (limit + 1) * k == k * (limit + 1) && load * k == k * load;
  }

  lemma {:induction false} EqualTotal(lens: seq<nat>, m: nat)
    requires AllEqual(lens, m)
    ensures Total(lens) == |lens| * m
  {
    if lens == [] {
    } else {
      EqualTotal(lens[1..], m);
      assert |lens| * m == m + (|lens| - 1) * m;
    }
  }

  // ---------- as many parts as rows ----------

  lemma {:induction false} FilledSizes(parts: seq<seq<int>>, p: int)
    requires 0 <= p < |parts| && forall q | 0 <= q < |parts| :: parts[q] != []
    ensures |parts[p]| + |parts| - 1 <= |Flatten(parts)|
  {
    if |parts| == 1 {
    } else {
      FilledSizes(parts[1..], if p == 0 then 0 else p - 1);
    }
  }

  /** One row in each part: the limit is kept if and only if every row fits. */
  lemma SinglesLimit(parts: seq<seq<int>>, lens: seq<nat>, limit: int)
    requires Covers(parts, |lens|) && |parts| == |lens| > 0 && forall p | 0 <= p < |parts| :: parts[p] != []
    ensures WithinLimit(parts, lens, limit) <==> MaxLength(lens) <= limit
  {
    SameLength(Flatten(parts), Range(|lens|));
    if WithinLimit(parts, lens, limit) { LimitNeeds(parts, lens, limit); }
    forall p | 0 <= p < |parts| ensures Load(parts[p], lens) <= MaxLength(lens) {
      FilledSizes(parts, p);
      assert parts[p] == [parts[p][0]] && parts[p][0] in parts[p];
      CoverMembers(parts, |lens|, parts[p][0]);
      MaxLengthBounds(lens, parts[p][0]);
      assert Load(parts[p][1..], lens) == 0;
    }
  }
}
