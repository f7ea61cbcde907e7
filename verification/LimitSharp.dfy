/** The safe condition on total, count and longest row is the weakest one: whatever figures fail
    it, some rows with these figures have a balanced split above the limit. */
module LimitSharp {
  import opened BlockSequences
  import opened Common
  import opened BalancedStates
  import opened PartitionResult
  import opened SeqlenBalancing
  import opened TokenLimit

  // ---------- consecutive parts ----------

  /** The indices offset .. offset + n - 1. */
  function Run(offset: nat, n: nat): seq<int> { seq(n, i => offset + i) }

  /** Blocks of rows, as parts of consecutive indices of the joined rows. */
  function Consecutive(rows: seq<seq<nat>>, offset: nat): seq<seq<int>> {
    if rows == [] then [] else [Run(offset, |rows[0]|)] + Consecutive(rows[1..], offset + |rows[0]|)
  }

  lemma RunJoin(offset: nat, a: nat, b: nat)
    ensures Run(offset, a) + Run(offset + a, b) == Run(offset, a + b)
  {
  }

  lemma {:induction false} ConsecutiveRuns(rows: seq<seq<nat>>, offset: nat)
    ensures |Consecutive(rows, offset)| == |rows|
    ensures Flatten(Consecutive(rows, offset)) == Run(offset, |Flatten(rows)|)
  {
    if rows == [] {
    } else {
      ConsecutiveRuns(rows[1..], offset + |rows[0]|);
      RunJoin(offset, |rows[0]|, |Flatten(rows[1..])|);
    }
  }

  /** The loads of consecutive parts are the totals of their blocks. */
  lemma {:induction false} ConsecutiveLoads(rows: seq<seq<nat>>, lens: seq<nat>, offset: nat, p: int)
    requires offset + |Flatten(rows)| == |lens| && lens[offset..] == Flatten(rows) && 0 <= p < |rows|
    ensures |Consecutive(rows, offset)| == |rows| && |Consecutive(rows, offset)[p]| == |rows[p]|
    ensures Load(Consecutive(rows, offset)[p], lens) == Total(rows[p])
  {
    ConsecutiveRuns(rows, offset);
    var first := rows[0];
    if p == 0 {
      assert lens[offset..offset + |first|] == lens[offset..][..|first|] == first;
      RunLoad(lens, offset, |first|);
    } else {
      assert lens[offset + |first|..] == lens[offset..][|first|..] == Flatten(rows[1..]);
      ConsecutiveLoads(rows[1..], lens, offset + |first|, p - 1);
    }
  }

  lemma {:induction false} RunLoad(lens: seq<nat>, offset: nat, n: nat)
    requires offset + n <= |lens|
    ensures Load(Run(offset, n), lens) == Total(lens[offset..offset + n])
    decreases n
  {
    if n == 0 {
    } else {
      RunLoad(lens, offset + 1, n - 1);
      assert Run(offset, n)[1..] == Run(offset + 1, n - 1);
      assert lens[offset..offset + n][1..] == lens[offset + 1..offset + n];
    }
  }

  // ---------- the witness ----------

  function Ones(n: nat): seq<nat> { seq(n, _ => 1) }

  lemma {:induction false} OnesTotal(n: nat)
    ensures Total(Ones(n)) == n
  {
    if n == 0 {
    } else {
      OnesTotal(n - 1);
      assert Ones(n)[1..] == Ones(n - 1);
    }
  }

  /** An empty row and n rows of one token. */
  function Small(n: nat): seq<nat> { [0] + Ones(n) }

  lemma SmallTotal(n: nat)
    ensures Total(Small(n)) == n
  {
    OnesTotal(n);
    assert Small(n)[1..] == Ones(n);
  }

  /** The load of one of `parts` even shares when r of them hold one more than q. */
  function Share(q: nat, r: nat): nat { if r > 0 then q + 1 else q }

  /** Blocks of small rows: r blocks of q + 1 tokens, then blocks of q. */
  function Shares(parts: nat, q: nat, r: nat): seq<seq<nat>> {
    if parts == 0 then [] else [Small(Share(q, r))] + Shares(parts - 1, q, if r > 0 then r - 1 else 0)
  }

  ghost predicate UpTo(s: seq<nat>, m: nat) {
    forall i | 0 <= i < |s| :: s[i] <= m
  }

  lemma {:induction false} TotalJoin(a: seq<nat>, b: seq<nat>)
    ensures Total(a + b) == Total(a) + Total(b)
  {
    if a == [] {
      assert a + b == b;
    } else {
      assert (a + b)[1..] == a[1..] + b;
      TotalJoin(a[1..], b);
    }
  }

  lemma {:induction false} SharesFigures(parts: nat, q: nat, r: nat)
    requires r <= parts
    ensures |Shares(parts, q, r)| == parts && Total(Flatten(Shares(parts, q, r))) == parts * q + r
  {
    if parts == 0 {
    } else {
      var rest := Shares(parts - 1, q, if r > 0 then r - 1 else 0);
      SharesFigures(parts - 1, q, if r > 0 then r - 1 else 0);
      SmallTotal(Share(q, r));
      TotalJoin(Small(Share(q, r)), Flatten(rest));
      assert Shares(parts, q, r)[1..] == rest;
      assert parts * q == q + (parts - 1) * q;
    }
  }

  lemma {:induction false} SharesUpTo(parts: nat, q: nat, r: nat, m: nat)
    requires q > 0 || r > 0 ==> m >= 1
    ensures UpTo(Flatten(Shares(parts, q, r)), m)
  {
    if parts == 0 {
    } else {
      var rest := Shares(parts - 1, q, if r > 0 then r - 1 else 0);
      SharesUpTo(parts - 1, q, if r > 0 then r - 1 else 0, m);
      assert UpTo(Small(Share(q, r)), m);
      assert Flatten(Shares(parts, q, r)) == Small(Share(q, r)) + Flatten(rest);
    }
  }

  lemma {:induction false} SharesAt(parts: nat, q: nat, r: nat, p: int)
    requires r <= parts && 0 <= p < parts
    ensures |Shares(parts, q, r)| == parts && Shares(parts, q, r)[p] != []
    ensures q <= Total(Shares(parts, q, r)[p]) <= if r > 0 then q + 1 else q
  {
    SharesFigures(parts, q, r);
    if p == 0 {
      SmallTotal(Share(q, r));
    } else {
      SharesAt(parts - 1, q, if r > 0 then r - 1 else 0, p - 1);
    }
  }

  /** One block with the longest row and the given load, and even shares of the others. */
  function Witness(longest: nat, load: nat, others: nat, q: nat, r: nat): seq<seq<nat>>
    requires longest <= load
  {
    [[longest] + Ones(load - longest)] + Shares(others, q, r)
  }

  lemma WitnessFigures(longest: nat, load: nat, others: nat, q: nat, r: nat)
    requires longest <= load && r <= others && (longest == 0 ==> load == q == r == 0)
    ensures |Witness(longest, load, others, q, r)| == others + 1
    ensures var lens := Flatten(Witness(longest, load, others, q, r));
      Total(lens) == load + others * q + r && MaxLength(lens) == longest
  {
    var first, rest := [longest] + Ones(load - longest), Flatten(Shares(others, q, r));
    var lens := Flatten(Witness(longest, load, others, q, r));
    FirstTotal(longest, load);
    SharesFigures(others, q, r);
    SharesUpTo(others, q, r, longest);
    assert Witness(longest, load, others, q, r)[1..] == Shares(others, q, r);
    assert lens == first + rest;
    TotalJoin(first, rest);
    assert UpTo(first, longest) && UpTo(rest, longest) && UpTo(lens, longest);
    MaxLengthAttained(lens);
    MaxLengthBounds(lens, 0);
  }

  lemma FirstTotal(longest: nat, load: nat)
    requires longest <= load
    ensures Total([longest] + Ones(load - longest)) == load
  {
    OnesTotal(load - longest);
    assert ([longest] + Ones(load - longest))[1..] == Ones(load - longest);
  }

  lemma WitnessLoad(longest: nat, load: nat, others: nat, q: nat, r: nat, p: int)
    requires longest <= load && r <= others && 0 <= p <= others
    ensures |Witness(longest, load, others, q, r)| == others + 1 && Witness(longest, load, others, q, r)[p] != []
    ensures var t := Total(Witness(longest, load, others, q, r)[p]);
      if p == 0 then t == load else q <= t <= if r > 0 then q + 1 else q
  {
    SharesFigures(others, q, r);
    if p == 0 {
      FirstTotal(longest, load);
    } else {
      SharesAt(others, q, r, p - 1);
    }
  }

  /** The witness split: a balanced cover without empty parts in which one part has the given load. */
  lemma WitnessSplit(longest: nat, load: nat, others: nat, q: nat, r: nat)
    returns (lens: seq<nat>, parts: seq<seq<int>>)
    requires longest <= load && r <= others && (longest == 0 ==> load == q == r == 0)
    requires others > 0 ==> load - q <= longest && (if r > 0 then q + 1 else q) - load <= longest
    ensures Total(lens) == load + others * q + r && MaxLength(lens) == longest
    ensures |parts| == others + 1 && Covers(parts, |lens|) && Balanced(parts, lens, longest)
    ensures (forall p | 0 <= p < |parts| :: parts[p] != []) && Load(parts[0], lens) == load
  {
    var rows := Witness(longest, load, others, q, r);
    lens, parts := Flatten(rows), Consecutive(rows, 0);
    WitnessFigures(longest, load, others, q, r);
    ConsecutiveRuns(rows, 0);
    assert Run(0, |lens|) == Range(|lens|);
    assert lens[0..] == lens;
    forall p | 0 <= p < |parts| ensures Load(parts[p], lens) == Total(rows[p]) && parts[p] != [] {
      ConsecutiveLoads(rows, lens, 0, p);
      WitnessLoad(longest, load, others, q, r, p);
    }
    forall a, b | 0 <= a < |parts| && 0 <= b < |parts| ensures Load(parts[a], lens) - Load(parts[b], lens) <= longest {
      WitnessLoad(longest, load, others, q, r, a);
      WitnessLoad(longest, load, others, q, r, b);
    }
    WitnessLoad(longest, load, others, q, r, 0);
  }

  // ---------- the figures of the witness ----------

  /** Figures that some rows have. */
  predicate Figures(total: int, longest: int) { 0 <= longest <= total && (total > 0 ==> longest > 0) }

  /** k times the load is the largest multiple of k within the total and the others' longest rows. */
  predicate Heaviest(total: int, longest: int, k: int, load: int) {
    k * load <= total + (k - 1) * longest < k * load + k
  }

  lemma HeaviestExists(total: nat, longest: nat, k: nat, limit: int) returns (load: nat)
    requires k >= 1 && !Room(total, k, longest, limit)
    ensures Heaviest(total, longest, k, load) && load > limit
  {
    MulMonotone(0, k - 1, longest);
    var sum := total + (k - 1) * longest;
    load := sum / k;
    assert sum == k * load + sum % k;
    QuotientAtLeast(sum, k, limit + 1);
  }

  lemma HeaviestBetween(total: nat, longest: nat, k: nat, load: nat)
    requires longest <= total && k >= 1 && Heaviest(total, longest, k, load)
    ensures longest <= load <= total
  {
    assert (k - 1) * longest == k * longest - longest;
    MulMonotone(longest, total, k - 1);
    assert longest * (k - 1) == k * longest - longest && total * (k - 1) == k * total - total;
    if load < longest { Grows(k, load, longest); }
    if load > total { Grows(k, total, load); }
  }

  lemma HeaviestLeft(total: nat, longest: nat, k: nat, load: nat)
    requires Figures(total, longest) && k >= 1 && Heaviest(total, longest, k, load)
    ensures (load - longest) * (k - 1) <= total - load <= load * (k - 1)
  {
    assert (load - longest) * (k - 1) == k * load - load - (k - 1) * longest;
    assert load * (k - 1) == k * load - load;
    if longest > 0 {
      MulMonotone(1, longest, k - 1);
      assert longest * (k - 1) == (k - 1) * longest && 1 * (k - 1) == k - 1;
    } else {
      assert (k - 1) * longest == 0;
      MulMonotone(0, load, k);
    }
  }

  /** The largest load the balance allows, and what is left for each of the other parts. */
  lemma HeaviestLoad(total: nat, longest: nat, k: nat, limit: int) returns (load: nat)
    requires Figures(total, longest) && k >= 1 && !Room(total, k, longest, limit)
    ensures load > limit && longest <= load <= total
    ensures (load - longest) * (k - 1) <= total - load <= load * (k - 1)
    ensures longest == 0 ==> load == 0
  {
    load := HeaviestExists(total, longest, k, limit);
    HeaviestBetween(total, longest, k, load);
    HeaviestLeft(total, longest, k, load);
  }

  lemma QuotientAtLeast(x: int, y: int, q: int)
    requires y > 0 && y * q <= x
    ensures q <= x / y
  {
    var q' := x / y;
    assert x == y * q' + x % y;
    if q' < q { Grows(y, q', q); }
  }

  lemma EvenShare(left: nat, others: nat, low: int, high: int) returns (q: nat, r: nat)
    requires others > 0 && low * others <= left <= high * others
    ensures left == others * q + r && r <= others && low <= q && (if r > 0 then q + 1 else q) <= high
  {
    q, r := left / others, left % others;
    assert others * low == low * others && others * high == high * others;
    QuotientAtLeast(left, others, low);
    if q > high { Grows(others, high, q); }
    if q == high { assert others * q == others * high; }
  }

  lemma SharesOf(total: nat, longest: nat, k: nat, load: nat) returns (q: nat, r: nat)
    requires k >= 1 && longest <= load <= total && (load - longest) * (k - 1) <= total - load <= load * (k - 1)
    requires longest == 0 ==> load == 0
    ensures total == load + (k - 1) * q + r && r <= k - 1 && (longest == 0 ==> q == r == 0)
    ensures k > 1 ==> load - q <= longest && (if r > 0 then q + 1 else q) - load <= longest
  {
    q, r := 0, 0;
    if k > 1 {
      q, r := EvenShare(total - load, k - 1, load - longest, load);
    } else {
      assert load * (k - 1) == 0 && (k - 1) * q == 0;
    }
  }

  /** Sorting the parts of a split gives what the partitioner returns. */
  lemma SortedSplit(split: seq<seq<int>>, lens: seq<nat>) returns (parts: seq<seq<int>>)
    requires split != [] && Covers(split, |lens|) && Balanced(split, lens, MaxLength(lens))
    requires forall p | 0 <= p < |split| :: split[p] != []
    ensures Balancing(parts, lens, |split|, false) && Load(parts[0], lens) == Load(split[0], lens)
  {
    parts := SortParts(split);
    SortPartsKeeps(split, lens, MaxLength(lens));
    LoadSort(split[0], lens);
  }

  /** Figures that leave no room have a balanced split above the limit. */
  lemma RoomIsNeeded(total: nat, longest: nat, k: nat, limit: int) returns (lens: seq<nat>, parts: seq<seq<int>>)
    requires Figures(total, longest) && k >= 1 && !Room(total, k, longest, limit)
    ensures Total(lens) == total && MaxLength(lens) == longest
    ensures Balancing(parts, lens, k, false) && !WithinLimit(parts, lens, limit)
  {
    var load := HeaviestLoad(total, longest, k, limit);
    var q, r := SharesOf(total, longest, k, load);
    var split;
    lens, split := WitnessSplit(longest, load, k - 1, q, r);
    parts := SortedSplit(split, lens);
  }

  /** Every balanced split of rows with these figures keeps the limit. */
  ghost predicate AlwaysWithin(total: int, longest: int, k: nat, limit: int) {
    forall lens: seq<nat>, parts | Balancing(parts, lens, k, false) && Total(lens) == total &&
      MaxLength(lens) == longest ::
      WithinLimit(parts, lens, limit)
  }

  /** The safe condition is exact on the figures: what the partitioner promises keeps the limit for
      all rows with this total and longest row if and only if it holds. */
  lemma RoomIff(total: nat, longest: nat, k: nat, limit: int)
    requires Figures(total, longest) && k >= 1
    ensures AlwaysWithin(total, longest, k, limit) <==> Room(total, k, longest, limit)
  {
    if Room(total, k, longest, limit) {
      forall lens: seq<nat>, parts | Balancing(parts, lens, k, false) && Total(lens) == total &&
        MaxLength(lens) == longest
        ensures WithinLimit(parts, lens, limit)
      {
        LimitKept(parts, lens, limit);
      }
    } else {
      var lens, parts := RoomIsNeeded(total, longest, k, limit);
    }
  }
}
