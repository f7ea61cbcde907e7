/** The callers' side of verl/utils/seqlen_balancing.py: checked balanced partitions, the
    greedy partitioner, and micro-batches by token count. */
module SeqlenBalancing {
  import opened BlockSequences
  import opened Common
  import opened BalancedStates
  import opened PartitionResult
  import KK = KarmarkarKarp

  // ---------- balanced partitions ----------

  /** What `get_seqlen_balanced_partitions` promises its callers. */
  ghost predicate Balancing(parts: seq<seq<int>>, lens: seq<nat>, k: int, equal: bool) {
    k >= 1 && |parts| == k && Covers(parts, |lens|) && Balanced(parts, lens, SpreadBound(lens, k, equal)) &&
    (forall p | 0 <= p < k :: parts[p] != [] && AscendingInts(parts[p])) &&
    (equal ==> forall p | 0 <= p < k :: |parts[p]| * k == |lens|)
  }

  lemma {:induction false} FlatMembers(parts: seq<seq<int>>, x: int)
    ensures x in Flatten(parts) <==> exists p :: 0 <= p < |parts| && x in parts[p]
  {
    if parts == [] {
    } else {
      FlatMembers(parts[1..], x);
      if p :| 0 <= p < |parts[1..]| && x in parts[1..][p] { assert x in parts[p + 1]; }
      if p :| 0 <= p < |parts| && x in parts[p] { assert p > 0 ==> x in parts[1..][p - 1]; }
    }
  }

  lemma CoverMembers(parts: seq<seq<int>>, n: nat, x: int)
    requires Covers(parts, n)
    ensures (exists p :: 0 <= p < |parts| && x in parts[p]) <==> 0 <= x < n
  {
    FlatMembers(parts, x);
    assert x in Flatten(parts) <==> x in multiset(Flatten(parts));
    assert x in Range(n) <==> x in multiset(Range(n));
    if 0 <= x < n { assert Range(n)[x] == x; }
  }

  /** `_check_and_sort_partitions`: none of its asserts fails on a cover without empty parts. */
  method CheckAndSortPartitions(partitions: seq<seq<int>>, n: nat, k: int) returns (sorted: seq<seq<int>>)
    requires |partitions| == k && Covers(partitions, n) && forall p | 0 <= p < k :: partitions[p] != []
    ensures |sorted| == k && forall p | 0 <= p < k ::
      AscendingInts(sorted[p]) && multiset(sorted[p]) == multiset(partitions[p])
    ensures sorted == SortParts(partitions)
  {
    var seen: set<int> := {};
    sorted := [];
    for i := 0 to k
      invariant sorted == SortParts(partitions)[..i]
      invariant forall x :: x in seen <==> exists p :: 0 <= p < i && x in partitions[p]
    {
      assert |partitions[i]| > 0;
      seen := seen + set x | x in partitions[i];
      sorted := sorted + [SortInts(partitions[i])];
    }
    forall x ensures x in seen <==> 0 <= x < n { CoverMembers(partitions, n, x); }
    forall p | 0 <= p < k ensures AscendingInts(sorted[p]) && multiset(sorted[p]) == multiset(partitions[p]) {
      SortIntsSorts(partitions[p]);
    }
  }

  /** Succeeds exactly when there are enough items (a multiple of k for equal sizes), and then
      no assert of the whole computation fails. */
  method GetSeqlenBalancedPartitions(seqlens: seq<nat>, k: int, equalSize: bool) returns (r: Result<seq<seq<int>>>)
    ensures r.Ok? <==> 1 <= k <= |seqlens| && (equalSize ==> |seqlens| % k == 0)
    ensures r.Ok? ==> Balancing(r.value, seqlens, k, equalSize)
    ensures r.Ok? ==> exists parts :: KK.Differenced(seqlens, k, equalSize, parts) && r.value == SortParts(parts)
  {
    if |seqlens| < k { return Err("fewer items than partitions"); }
    if k <= 0 { return Err("no partition to fill"); }
    if equalSize && |seqlens| % k != 0 { return Err("not divisible"); }
    var partitions := KK.KarmarkarKarp(seqlens, k, equalSize);
    var sorted := CheckAndSortPartitions(partitions, |seqlens|, k);
    SortPartsKeeps(partitions, seqlens, SpreadBound(seqlens, k, equalSize));
    r := Ok(sorted);
  }

  // ---------- greedy partitions ----------

  lemma {:induction false} FlatUpdate(parts: seq<seq<int>>, p: int, x: int)
    requires 0 <= p < |parts|
    ensures multiset(Flatten(parts[p := parts[p] + [x]])) == multiset(Flatten(parts)) + multiset{x}
  {
    if p == 0 {
      assert parts[0 := parts[0] + [x]][1..] == parts[1..];
    } else {
      assert parts[p := parts[p] + [x]][1..] == parts[1..][p - 1 := parts[1..][p - 1] + [x]];
      FlatUpdate(parts[1..], p - 1, x);
    }
  }

  lemma RangeNext(n: nat)
    ensures Range(n + 1) == Range(n) + [n]
  {
  }

  lemma LoadSnoc(part: seq<int>, x: int, lens: seq<nat>)
    requires 0 <= x < |lens|
    ensures Load(part + [x], lens) == Load(part, lens) + lens[x]
  {
    LoadAppend(part, [x], lens);
  }

  lemma {:induction false} TotalSnoc(lens: seq<nat>, i: nat)
    requires i < |lens|
    ensures Total(lens[..i + 1]) == Total(lens[..i]) + lens[i]
  {
    if i == 0 {
    } else {
      TotalSnoc(lens[1..], i - 1);
      assert lens[..i + 1][1..] == lens[1..][..i] && lens[..i][1..] == lens[1..][..i - 1];
    }
  }

  lemma {:induction false} TotalMonotone(lens: seq<nat>, i: nat)
    requires i <= |lens|
    ensures Total(lens[..i]) <= Total(lens)
  {
    if i == 0 {
    } else {
      assert lens[..i][1..] == lens[1..][..i - 1];
      TotalMonotone(lens[1..], i - 1);
    }
  }

  /** Sizes differ by at most one. */
  ghost predicate EvenlySized(parts: seq<seq<int>>) {
    forall p, q | 0 <= p < |parts| && 0 <= q < |parts| :: |parts[p]| <= |parts[q]| + 1
  }

  /** The running sums of the greedy loop: the load plus the bias once per item. */
  ghost predicate SumsTrack(parts: seq<seq<int>>, sums: seq<int>, lens: seq<nat>, bias: nat, i: nat) {
    |sums| == |parts| && i <= |lens| &&
    forall p | 0 <= p < |parts| ::
      sums[p] == Load(parts[p], lens) + |parts[p]| * bias && Load(parts[p], lens) <= Total(lens[..i])
  }

  method LeastSum(sums: seq<int>) returns (least: int)
    requires |sums| >= 1
    ensures 0 <= least < |sums| && forall j | 0 <= j < |sums| :: sums[least] <= sums[j]
    ensures forall j | 0 <= j < least :: sums[least] < sums[j]
  {
    least := 0;
    for j := 0 to |sums|
      invariant 0 <= least < |sums| && forall i | 0 <= i < j :: sums[least] <= sums[i]
      invariant forall i | 0 <= i < least :: sums[least] < sums[i]
    {
      if sums[j] < sums[least] { least := j; }
    }
  }

  /** The bias exceeds every load, so the least sum belongs to a least count. */
  lemma LeastSumLeastCount(count: nat, load: nat, count': nat, load': nat, bias: nat)
    requires load + count * bias <= load' + count' * bias && load' < bias
    ensures count <= count'
  {
    assert (count' + 1) * bias == count' * bias + bias;
    if count > count' { MulMonotone(count' + 1, count, bias); }
  }

  lemma GreedySums(parts: seq<seq<int>>, sums: seq<int>, lens: seq<nat>, bias: nat, i: nat, p: int)
    requires i < |lens| && SumsTrack(parts, sums, lens, bias, i) && 0 <= p < |parts|
    ensures SumsTrack(parts[p := parts[p] + [i]], sums[p := sums[p] + (lens[i] + bias)], lens, bias, i + 1)
  {
    LoadSnoc(parts[p], i, lens);
    TotalSnoc(lens, i);
    assert (|parts[p]| + 1) * bias == |parts[p]| * bias + bias;
  }

  lemma GreedyEven(parts: seq<seq<int>>, sums: seq<int>, lens: seq<nat>, bias: nat, i: nat, p: int)
    requires i < |lens| && SumsTrack(parts, sums, lens, bias, i) && 0 <= p < |parts|
    requires (forall j | 0 <= j < |sums| :: sums[p] <= sums[j]) && bias > Total(lens) && EvenlySized(parts)
    ensures EvenlySized(parts[p := parts[p] + [i]])
  {
    TotalMonotone(lens, i);
    forall q | 0 <= q < |parts| ensures |parts[p]| <= |parts[q]| {
      LeastSumLeastCount(|parts[p]|, Load(parts[p], lens), |parts[q]|, Load(parts[q], lens), bias);
    }
  }

  lemma GreedyBalanced(parts: seq<seq<int>>, sums: seq<int>, lens: seq<nat>, i: nat, p: int)
    requires i < |lens| && SumsTrack(parts, sums, lens, 0, i) && 0 <= p < |parts|
    requires (forall j | 0 <= j < |sums| :: sums[p] <= sums[j]) && Balanced(parts, lens, MaxLength(lens))
    ensures Balanced(parts[p := parts[p] + [i]], lens, MaxLength(lens))
  {
    LoadSnoc(parts[p], i, lens);
    MaxLengthBounds(lens, i);
    forall q | 0 <= q < |parts| ensures sums[q] == Load(parts[q], lens) { assert |parts[q]| * 0 == 0; }
  }

  /** One greedy choice: the sums stay exact; with the bias the sizes stay within one, without it
      the loads within the largest length. */
  lemma GreedyStep(parts: seq<seq<int>>, sums: seq<int>, lens: seq<nat>, bias: nat, i: nat, p: int)
    requires i < |lens| && SumsTrack(parts, sums, lens, bias, i) && 0 <= p < |parts|
    requires forall j | 0 <= j < |sums| :: sums[p] <= sums[j]
    ensures SumsTrack(parts[p := parts[p] + [i]], sums[p := sums[p] + (lens[i] + bias)], lens, bias, i + 1)
    ensures bias > Total(lens) && EvenlySized(parts) ==> EvenlySized(parts[p := parts[p] + [i]])
    ensures bias == 0 && Balanced(parts, lens, MaxLength(lens)) ==>
      Balanced(parts[p := parts[p] + [i]], lens, MaxLength(lens))
  {
    GreedySums(parts, sums, lens, bias, i, p);
    if bias > Total(lens) && EvenlySized(parts) { GreedyEven(parts, sums, lens, bias, i, p); }
    if bias == 0 && Balanced(parts, lens, MaxLength(lens)) { GreedyBalanced(parts, sums, lens, i, p); }
  }

  lemma {:induction false} FlatSizeBounds(parts: seq<seq<int>>, c: nat)
    requires forall p | 0 <= p < |parts| :: c <= |parts[p]| <= c + 1
    ensures |parts| * c <= |Flatten(parts)| <= |parts| * c + |parts|
    ensures (exists p :: 0 <= p < |parts| && |parts[p]| == c) ==> |Flatten(parts)| < |parts| * c + |parts|
    ensures (exists p :: 0 <= p < |parts| && |parts[p]| == c + 1) ==> |parts| * c < |Flatten(parts)|
  {
    if parts == [] {
    } else {
      var rest := parts[1..];
      FlatSizeBounds(rest, c);
      assert |parts| * c == c + |rest| * c;
      if p :| 0 <= p < |parts| && |parts[p]| == c { assert p > 0 ==> |rest[p - 1]| == c; }
      if p :| 0 <= p < |parts| && |parts[p]| == c + 1 { assert p > 0 ==> |rest[p - 1]| == c + 1; }
    }
  }

  lemma NotMultiple(n: nat, k: nat, c: nat)
    requires k >= 1 && c * k < n < c * k + k
    ensures n % k != 0
  {
    var m := n / k;
    assert n == m * k + n % k;
    if m <= c {
      MulMonotone(m, c, k);
    } else {
      MulMonotone(c + 1, m, k);
      assert (c + 1) * k == c * k + k;
    }
  }

  /** Sizes within one of each other are all n/k when k divides n, and not all equal otherwise. */
  lemma EvenSizesAreEqual(parts: seq<seq<int>>, n: nat)
    requires |parts| >= 1 && EvenlySized(parts) && Covers(parts, n)
    ensures n % |parts| == 0 <==> forall p | 0 <= p < |parts| :: |parts[p]| * |parts| == n
  {
    var k, c := |parts|, |parts[0]|;
    SameLength(Flatten(parts), Range(n));
    if forall p | 0 <= p < k :: |parts[p]| == c {
      FlattenLength(parts, c);
      assert n == k * c && n % k == 0 by { MultipleDivides(c, k); }
    } else {
      var q :| 0 <= q < k && |parts[q]| != c;
      UnequalSizes(parts, n, q);
    }
  }

  lemma UnequalSizes(parts: seq<seq<int>>, n: nat, q: int)
    requires EvenlySized(parts) && |Flatten(parts)| == n
    requires 0 <= q < |parts| && |parts[q]| != |parts[0]|
    ensures n % |parts| != 0 && exists p :: 0 <= p < |parts| && |parts[p]| * |parts| != n
  {
    var k := |parts|;
    var p, p' := if |parts[q]| < |parts[0]| then q else 0, if |parts[q]| < |parts[0]| then 0 else q;
    var low := |parts[p]|;
    assert |parts[p']| == low + 1;
    FlatSizeBounds(parts, low);
    NotMultiple(n, k, low);
    assert |parts[p]| * k == k * low;
  }

  // ---------- what each greedy choice is ----------

  /** The indices of a part below i: what it held when row i was placed. */
  function Below(part: seq<int>, i: int): seq<int> {
    if part == [] then [] else
      var n := |part| - 1;
      if part[n] < i then Below(part[..n], i) + [part[n]] else Below(part[..n], i)
  }

  lemma BelowSnoc(part: seq<int>, x: int, i: int)
    ensures Below(part + [x], i) == if x < i then Below(part, i) + [x] else Below(part, i)
  {
    assert (part + [x])[..|part|] == part;
  }

  lemma {:induction false} BelowAll(part: seq<int>, i: int)
    requires forall x | x in part :: x < i
    ensures Below(part, i) == part
  {
    if part == [] {
    } else {
      var n := |part| - 1;
      assert part == part[..n] + [part[n]] && part[n] in part && forall x | x in part[..n] :: x in part;
      BelowAll(part[..n], i);
    }
  }

  /** Part p, as it was, is chosen over part q: fewer rows where sizes must be equal, then the
      smaller load, then the lower number. */
  predicate Chosen(p: int, a: seq<int>, q: int, b: seq<int>, lens: seq<nat>, equal: bool) {
    if equal && |a| != |b| then |a| < |b|
    else if Load(a, lens) != Load(b, lens) then Load(a, lens) < Load(b, lens)
    else p <= q
  }

  ghost predicate PlacedIn(parts: seq<seq<int>>, lens: seq<nat>, equal: bool, i: int, p: int) {
    0 <= p < |parts| && i in parts[p] &&
    forall q | 0 <= q < |parts| :: Chosen(p, Below(parts[p], i), q, Below(parts[q], i), lens, equal)
  }

  ghost predicate GreedyAt(parts: seq<seq<int>>, lens: seq<nat>, equal: bool, i: int) {
    exists p :: PlacedIn(parts, lens, equal, i, p)
  }

  /** Placing row i leaves the earlier choices as they were. */
  lemma EarlierKept(parts: seq<seq<int>>, lens: seq<nat>, equal: bool, i: int, x: int, least: int)
    requires GreedyAt(parts, lens, equal, x) && x < i && 0 <= least < |parts|
    ensures GreedyAt(parts[least := parts[least] + [i]], lens, equal, x)
  {
    var p :| PlacedIn(parts, lens, equal, x, p);
    var parts' := parts[least := parts[least] + [i]];
    forall q | 0 <= q < |parts| ensures Below(parts'[q], x) == Below(parts[q], x) { BelowSnoc(parts[least], i, x); }
    forall q | 0 <= q < |parts| ensures Chosen(p, Below(parts'[p], x), q, Below(parts'[q], x), lens, equal) {
      assert Chosen(p, Below(parts[p], x), q, Below(parts[q], x), lens, equal);
    }
    assert PlacedIn(parts', lens, equal, x, p);
  }

  /** The first least sum is the choice. */
  lemma LeastIsChosen(parts: seq<seq<int>>, sums: seq<int>, lens: seq<nat>, equal: bool, i: nat, p: int, q: int)
    requires var bias := if equal then Total(lens) + 1 else 0; SumsTrack(parts, sums, lens, bias, i)
    requires 0 <= p < |parts| && 0 <= q < |parts| && sums[p] <= sums[q] && (q < p ==> sums[p] < sums[q])
    ensures Chosen(p, parts[p], q, parts[q], lens, equal)
  {
    TotalMonotone(lens, i);
    if equal {
      LeastSumLeastCount(|parts[p]|, Load(parts[p], lens), |parts[q]|, Load(parts[q], lens), Total(lens) + 1);
    } else {
      assert |parts[p]| * 0 == 0 && |parts[q]| * 0 == 0;
    }
  }

  lemma NewChoice(parts: seq<seq<int>>, sums: seq<int>, lens: seq<nat>, equal: bool, i: nat, least: int)
    requires var bias := if equal then Total(lens) + 1 else 0; SumsTrack(parts, sums, lens, bias, i)
    requires Covers(parts, i) && 0 <= least < |parts| && (forall q | 0 <= q < |sums| :: sums[least] <= sums[q])
    requires forall q | 0 <= q < least :: sums[least] < sums[q]
    ensures GreedyAt(parts[least := parts[least] + [i]], lens, equal, i)
  {
    var parts' := parts[least := parts[least] + [i]];
    forall q | 0 <= q < |parts| ensures Below(parts'[q], i) == parts[q] {
      forall x | x in parts[q] ensures x < i { CoverMembers(parts, i, x); }
      BelowAll(parts[q], i);
      BelowSnoc(parts[q], i, i);
    }
    forall q | 0 <= q < |parts| ensures Chosen(least, Below(parts'[least], i), q, Below(parts'[q], i), lens, equal) {
      LeastIsChosen(parts, sums, lens, equal, i, least, q);
    }
    assert PlacedIn(parts', lens, equal, i, least);
  }

  /** Each of the first n rows went to the part chosen for it at the time. */
  ghost predicate AllGreedy(parts: seq<seq<int>>, lens: seq<nat>, equal: bool, n: nat) {
    forall i | 0 <= i < n :: GreedyAt(parts, lens, equal, i)
  }

  lemma GreedyNext(parts: seq<seq<int>>, sums: seq<int>, lens: seq<nat>, equal: bool, i: nat, least: int)
    requires var bias := if equal then Total(lens) + 1 else 0; SumsTrack(parts, sums, lens, bias, i)
    requires Covers(parts, i) && 0 <= least < |parts| && (forall q | 0 <= q < |sums| :: sums[least] <= sums[q])
    requires (forall q | 0 <= q < least :: sums[least] < sums[q]) && AllGreedy(parts, lens, equal, i)
    ensures AllGreedy(parts[least := parts[least] + [i]], lens, equal, i + 1)
  {
    var parts' := parts[least := parts[least] + [i]];
    NewChoice(parts, sums, lens, equal, i, least);
    forall x | 0 <= x < i ensures GreedyAt(parts', lens, equal, x) { EarlierKept(parts, lens, equal, i, x, least); }
  }

  /** `greedy_partition`: with `equalSize` the final size assert holds exactly when k divides
      the number of items; without it the loads differ by at most the largest length. */
  method GreedyPartition(seqlens: seq<nat>, k: int, equalSize: bool) returns (r: Result<seq<seq<int>>>)
    requires k >= 1
    ensures r.Ok? <==> (equalSize ==> |seqlens| % k == 0)
    ensures r.Ok? ==> |r.value| == k && Covers(r.value, |seqlens|)
    ensures r.Ok? && equalSize ==> forall p | 0 <= p < k :: |r.value[p]| * k == |seqlens|
    ensures r.Ok? && !equalSize ==> Balanced(r.value, seqlens, MaxLength(seqlens))
    ensures r.Ok? ==> AllGreedy(r.value, seqlens, equalSize, |seqlens|)
  {
    var bias := if equalSize then Total(seqlens) + 1 else 0;
    var partitions: seq<seq<int>> := seq(k, _ => []);
    var sums := seq(k, _ => 0);
    FlattenLength(partitions, 0);
    for i := 0 to |seqlens|
      invariant |partitions| == k && SumsTrack(partitions, sums, seqlens, bias, i) && Covers(partitions, i)
      invariant equalSize ==> EvenlySized(partitions)
      invariant !equalSize ==> Balanced(partitions, seqlens, MaxLength(seqlens))
      invariant AllGreedy(partitions, seqlens, equalSize, i)
    {
      var least := LeastSum(sums);
      GreedyNext(partitions, sums, seqlens, equalSize, i, least);
      GreedyStep(partitions, sums, seqlens, bias, i, least);
      FlatUpdate(partitions, least, i);
      RangeNext(i);
      partitions := partitions[least := partitions[least] + [i]];
      sums := sums[least := sums[least] + (seqlens[i] + bias)];
    }
    if equalSize {
      EvenSizesAreEqual(partitions, |seqlens|);
      if exists p | 0 <= p < k :: |partitions[p]| * k != |seqlens| { return Err("unequal partition sizes"); }
    }
    r := Ok(partitions);
  }
}
