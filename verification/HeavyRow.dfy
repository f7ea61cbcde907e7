/** A law of largest-first differencing: one row at least as long as all the others together ends
    up in a part of its own length, so no part is longer than the longest row. */
module HeavyRow {
  import opened BlockSequences
  import opened PartitionModel
  import opened BalancedStates
  import opened PartitionResult
  import opened KarmarkarKarp

  // ---------- what the states of a heap carry together ----------

  function SumOf(s: seq<PSet>): int {
    if s == [] then 0 else s[0].sum + SumOf(s[1..])
  }

  lemma {:induction false} SumConcat(a: seq<PSet>, b: seq<PSet>)
    ensures SumOf(a + b) == SumOf(a) + SumOf(b)
  {
    if a == [] {
      assert a + b == b;
    } else {
      assert (a + b)[1..] == a[1..] + b;
      SumConcat(a[1..], b);
    }
  }

  lemma {:induction false} SumBounds(s: seq<PSet>, lens: seq<nat>, i: int)
    requires AllHonest(s, lens)
    ensures SumOf(s) >= 0
    ensures 0 <= i < |s| ==> 0 <= s[i].sum <= SumOf(s)
  {
    if s == [] {
    } else {
      HonestSum(s[0], lens);
      SumBounds(s[1..], lens, i - 1);
    }
  }

  /** The first and the last of several sets carry no more than all. */
  lemma EndsBound(s: seq<PSet>, lens: seq<nat>)
    requires AllHonest(s, lens) && |s| >= 2
    ensures s[0].sum + s[|s| - 1].sum <= SumOf(s)
  {
    SumBounds(s[1..], lens, |s| - 2);
  }

  function SumAll(views: seq<seq<PSet>>): int {
    if views == [] then 0 else SumOf(views[0]) + SumAll(views[1..])
  }

  lemma {:induction false} SumAllSplit(v: seq<seq<PSet>>, i: int)
    requires 0 <= i < |v|
    ensures SumAll(v) == SumOf(v[i]) + SumAll(Without(v, i))
  {
    if i == 0 {
      assert Without(v, 0) == v[1..];
    } else {
      SumAllSplit(v[1..], i - 1);
      WithoutRest(v, i);
    }
  }

  lemma {:induction false} SumAllNonNegative(v: seq<seq<PSet>>, lens: seq<nat>)
    requires forall i | 0 <= i < |v| :: AllHonest(v[i], lens)
    ensures SumAll(v) >= 0
  {
    if v == [] {
    } else {
      SumBounds(v[0], lens, 0);
      SumAllNonNegative(v[1..], lens);
    }
  }

  lemma {:induction false} SumIsTotalLoad(s: seq<PSet>, lens: seq<nat>)
    requires AllHonest(s, lens)
    ensures SumOf(s) == TotalLoad(PartitionsOf(s), lens)
  {
    if s == [] {
    } else {
      assert Honest(s[0], lens);
      LoadIsSum(s[0].items, lens);
      assert PartitionsOf(s)[1..] == PartitionsOf(s[1..]);
      SumIsTotalLoad(s[1..], lens);
    }
  }

  lemma {:induction false} JoinedStates(v: seq<seq<PSet>>, lens: seq<nat>)
    requires forall i | 0 <= i < |v| :: AllHonest(v[i], lens)
    ensures AllHonest(Flatten(v), lens) && SumOf(Flatten(v)) == SumAll(v) && Indices(Flatten(v)) == HeapIndices(v)
  {
    if v == [] {
    } else {
      JoinedStates(v[1..], lens);
      SumConcat(v[0], Flatten(v[1..]));
      IndicesConcat(v[0], Flatten(v[1..]));
    }
  }

  /** States over all rows carry the total length. */
  lemma HeapTotal(v: seq<seq<PSet>>, lens: seq<nat>)
    requires (forall i | 0 <= i < |v| :: AllHonest(v[i], lens)) && HeapIndices(v) == multiset(Range(|lens|))
    ensures SumAll(v) == Total(lens)
  {
    var all := Flatten(v);
    JoinedStates(v, lens);
    SumIsTotalLoad(all, lens);
    FlatIndices(all);
    CoverConserves(PartitionsOf(all), lens);
  }

  // ---------- the heavy state ----------

  function FirstSum(s: seq<PSet>): int { if s == [] then 0 else s[0].sum }
  function LastSum(s: seq<PSet>): int { if s == [] then 0 else s[|s| - 1].sum }

  /** State b carries the heavy row's length in its first set, and no other state fills its last. */
  ghost predicate HeavyAt(v: seq<seq<PSet>>, k: int, heavy: int, b: int) {
    0 <= b < |v| && (forall i | 0 <= i < |v| :: |v[i]| == k) && k >= 2 && v[b][0].sum == heavy &&
    forall i | 0 <= i < |v| && i != b :: v[i][k - 1].sum == 0
  }

  /** Good states over all rows, one of them heavy, with the heavy row at least all the others. */
  ghost predicate Heavy(v: seq<seq<PSet>>, lens: seq<nat>, k: int, heavy: int, bound: int) {
    AllGood(v, lens, k, bound, false) && HeapIndices(v) == multiset(Range(|lens|)) && Total(lens) <= 2 * heavy &&
    exists b :: HeavyAt(v, k, heavy, b)
  }

  lemma GoodHonest(v: seq<seq<PSet>>, lens: seq<nat>, k: int, bound: int)
    requires AllGood(v, lens, k, bound, false)
    ensures forall i | 0 <= i < |v| :: AllHonest(v[i], lens) && Decreasing(v[i]) && |v[i]| == k
  {
    forall i | 0 <= i < |v| ensures AllHonest(v[i], lens) && Decreasing(v[i]) && |v[i]| == k {
      assert GoodAt(v, i, lens, k, bound, false);
    }
  }

  /** Three states of a heap carry no more than the total. */
  lemma ThreeWithin(v: seq<seq<PSet>>, lens: seq<nat>, k: int, bound: int, i: int, j: int, b: int)
    requires AllGood(v, lens, k, bound, false) && HeapIndices(v) == multiset(Range(|lens|))
    requires 0 <= i < |v| && 0 <= j < |v| - 1 && 0 <= b < |v| - 2
    ensures SumOf(v[i]) + SumOf(Without(v, i)[j]) + SumOf(Without(Without(v, i), j)[b]) <= Total(lens)
  {
    var rest := Without(v, i);
    var left := Without(rest, j);
    GoodHonest(v, lens, k, bound);
    HeapTotal(v, lens);
    SumAllSplit(v, i);
    SumAllSplit(rest, j);
    SumAllSplit(left, b);
    GoodWithout(v, i, lens, k, bound, false);
    GoodWithout(rest, j, lens, k, bound, false);
    GoodWithout(left, b, lens, k, bound, false);
    GoodHonest(Without(left, b), lens, k, bound);
    SumAllNonNegative(Without(left, b), lens);
  }

  lemma TwoWithin(v: seq<seq<PSet>>, lens: seq<nat>, k: int, bound: int, i: int, j: int)
    requires AllGood(v, lens, k, bound, false) && HeapIndices(v) == multiset(Range(|lens|))
    requires 0 <= i < |v| && 0 <= j < |v| - 1
    ensures SumOf(v[i]) + SumOf(Without(v, i)[j]) <= Total(lens)
  {
    var rest := Without(v, i);
    GoodHonest(v, lens, k, bound);
    HeapTotal(v, lens);
    SumAllSplit(v, i);
    SumAllSplit(rest, j);
    GoodWithout(v, i, lens, k, bound, false);
    GoodWithout(rest, j, lens, k, bound, false);
    GoodHonest(Without(rest, j), lens, k, bound);
    SumAllNonNegative(Without(rest, j), lens);
  }

  /** Sorting puts a largest sum first. */
  lemma SortedTop(z: seq<PSet>, at: int, heavy: int)
    requires 0 <= at < |z| && z[at].sum == heavy && forall i | 0 <= i < |z| :: z[i].sum <= heavy
    ensures |SortDesc(z)| == |z| && SortDesc(z)[0].sum == heavy
  {
    var m := SortDesc(z);
    SortDescSorts(z);
    assert m[0] in multiset(m) && z[at] in multiset(z);
    var i := Occurs(z, m[0]);
    var j := Occurs(m, z[at]);
    DecreasingSums(m, 0, j);
  }

  /** The largest sum of a merge of the heavy state with a state whose last set is empty. */
  lemma HeavyMerge(a: seq<PSet>, b: seq<PSet>, lens: seq<nat>, k: int, heavy: int)
    requires |a| == |b| == k >= 2 && AllHonest(a, lens) && AllHonest(b, lens)
    requires (a[0].sum == heavy && b[k - 1].sum == 0) || (b[0].sum == heavy && a[k - 1].sum == 0)
    requires SumOf(a) + SumOf(b) <= 2 * heavy
    ensures |PartitionModel.Merge(a, b)| == k && PartitionModel.Merge(a, b)[0].sum == heavy
  {
    var z := Zip(a, b);
    forall i | 0 <= i < k ensures z[i].sum <= heavy { MergedSum(a, b, lens, k, heavy, i); }
    var at := if a[0].sum == heavy && b[k - 1].sum == 0 then 0 else k - 1;
    assert z[at].sum == heavy;
    SortedTop(z, at, heavy);
  }

  lemma MergedSum(a: seq<PSet>, b: seq<PSet>, lens: seq<nat>, k: int, heavy: int, i: int)
    requires |a| == |b| == k >= 2 && AllHonest(a, lens) && AllHonest(b, lens) && 0 <= i < k
    requires (a[0].sum == heavy && b[k - 1].sum == 0) || (b[0].sum == heavy && a[k - 1].sum == 0)
    requires SumOf(a) + SumOf(b) <= 2 * heavy
    ensures Zip(a, b)[i].sum <= heavy
  {
    var j := k - 1 - i;
    SumBounds(a, lens, i);
    SumBounds(b, lens, j);
    FirstAndAnother(a, lens, i);
    FirstAndAnother(b, lens, j);
  }

  lemma FirstAndAnother(s: seq<PSet>, lens: seq<nat>, i: int)
    requires AllHonest(s, lens) && 0 <= i < |s|
    ensures i > 0 ==> s[0].sum + s[i].sum <= SumOf(s)
  {
    if i > 0 { SumBounds(s[1..], lens, i - 1); }
  }

  lemma LeadsOver(v: seq<seq<PSet>>, i: int, j: int)
    requires Leads(v, i) && 0 <= j < |v|
    ensures |v[i]| > 0 && |v[j]| > 0 && Spread(v[j]) <= Spread(v[i])
  {
    assert NonEmptyStates(v);
  }

  lemma SpreadWithin(s: seq<PSet>, lens: seq<nat>)
    requires AllHonest(s, lens) && |s| >= 2
    ensures 0 <= SumOf(s) && Spread(s) <= SumOf(s) && 2 * s[0].sum - SumOf(s) <= Spread(s)
  {
    SumBounds(s, lens, 0);
    SumBounds(s, lens, |s| - 1);
    EndsBound(s, lens);
  }

  /** If neither popped state is the heavy one, both are empty-handed. */
  lemma NotHeavyIsEmpty(v: seq<seq<PSet>>, lens: seq<nat>, k: int, heavy: int, bound: int, i: int, j: int, b: int)
    requires AllGood(v, lens, k, bound, false) && HeapIndices(v) == multiset(Range(|lens|)) && Total(lens) <= 2 * heavy
    requires k >= 2 && Leads(v, i) && Leads(Without(v, i), j) && 0 <= b < |v| - 2
    requires FirstSum(Without(Without(v, i), j)[b]) == heavy
    ensures SumOf(v[i]) == 0 && SumOf(Without(v, i)[j]) == 0
  {
    var rest: seq<seq<PSet>> := Without(v, i);
    var left: seq<seq<PSet>> := Without(rest, j);
    var x := LeftOver(v, i, j, b);
    ThreeWithin(v, lens, k, bound, i, j, b);
    GoodHonest(v, lens, k, bound);
    WithoutAt(v, i, j);
    WithoutAt(rest, j, b);
    LeadsOver(v, i, x);
    LeadsOver(rest, j, if b < j then b else b + 1);
    SpreadWithin(v[i], lens);
    SpreadWithin(rest[j], lens);
    SpreadWithin(left[b], lens);
  }

  lemma EmptyMerge(a: seq<PSet>, b: seq<PSet>, lens: seq<nat>, k: int)
    requires |a| == |b| == k >= 2 && AllHonest(a, lens) && AllHonest(b, lens) && SumOf(a) == SumOf(b) == 0
    ensures |PartitionModel.Merge(a, b)| == k && PartitionModel.Merge(a, b)[k - 1].sum == 0
  {
    var z, m := Zip(a, b), PartitionModel.Merge(a, b);
    SortDescSorts(z);
    assert m[k - 1] in multiset(m);
    var i := Occurs(z, m[k - 1]);
    SumBounds(a, lens, i);
    SumBounds(b, lens, k - 1 - i);
  }

  /** Where state b of the heap is after states i and then j are taken out. */
  function Moved(i: int, j: int, b: int): int {
    var b' := if b < i then b else b - 1;
    if b' < j then b' else b' - 1
  }

  lemma TakenOut(v: seq<seq<PSet>>, i: int, j: int, b: int)
    requires 0 <= i < |v| && 0 <= j < |v| - 1 && 0 <= b < |v| && b != i && b != (if j < i then j else j + 1)
    ensures 0 <= Moved(i, j, b) < |v| - 2 && Without(Without(v, i), j)[Moved(i, j, b)] == v[b]
  {
    WithoutAt(v, i, if b < i then b else b - 1);
    WithoutAt(Without(v, i), j, Moved(i, j, b));
  }

  /** State c of what is left, in the heap before. */
  lemma LeftOver(v: seq<seq<PSet>>, i: int, j: int, c: int) returns (b: int)
    requires 0 <= i < |v| && 0 <= j < |v| - 1 && 0 <= c < |v| - 2
    ensures 0 <= b < |v| && b != i && b != (if j < i then j else j + 1) && Moved(i, j, b) == c
    ensures Without(Without(v, i), j)[c] == v[b]
  {
    var c' := if c < j then c else c + 1;
    WithoutAt(Without(v, i), j, c);
    WithoutAt(v, i, c');
    b := if c' < i then c' else c' + 1;
  }

  /** What is left of a heavy heap besides the heavy state leaves its last sets empty. */
  lemma OthersLeft(v: seq<seq<PSet>>, k: int, heavy: int, i: int, j: int, b: int, d: int)
    requires HeavyAt(v, k, heavy, b) && 0 <= i < |v| && 0 <= j < |v| - 1 && 0 <= d < |v| - 2
    ensures |Without(Without(v, i), j)[d]| == k
    ensures b == i || b == (if j < i then j else j + 1) || d != Moved(i, j, b) ==>
      LastSum(Without(Without(v, i), j)[d]) == 0
  {
    var x := LeftOver(v, i, j, d);
  }

  /** All states have k sets, and those other than state c leave their last ones empty. */
  ghost predicate EmptyEnds(v: seq<seq<PSet>>, k: int, c: int) {
    k >= 2 && forall i | 0 <= i < |v| :: |v[i]| == k && (i != c ==> v[i][k - 1].sum == 0)
  }

  lemma LeftEnds(v: seq<seq<PSet>>, k: int, heavy: int, i: int, j: int, b: int)
    requires HeavyAt(v, k, heavy, b) && 0 <= i < |v| && 0 <= j < |v| - 1
    ensures EmptyEnds(Without(Without(v, i), j), k,
                      if b == i || b == (if j < i then j else j + 1) then -1 else Moved(i, j, b))
  {
    var left: seq<seq<PSet>> := Without(Without(v, i), j);
    forall d | 0 <= d < |left|
      ensures |left[d]| == k
      ensures b == i || b == (if j < i then j else j + 1) || d != Moved(i, j, b) ==> left[d][k - 1].sum == 0
    {
      OthersLeft(v, k, heavy, i, j, b, d);
      assert |left[d]| == k ==> LastSum(left[d]) == left[d][k - 1].sum;
    }
  }

  lemma HeavyPopped(v: seq<seq<PSet>>, lens: seq<nat>, k: int, heavy: int, bound: int, i: int, j: int, b: int)
    requires AllGood(v, lens, k, bound, false) && HeapIndices(v) == multiset(Range(|lens|)) && Total(lens) <= 2 * heavy
    requires HeavyAt(v, k, heavy, b) && 0 <= i < |v| && 0 <= j < |v| - 1 && (b == i || b == if j < i then j else j + 1)
    ensures var merged := PartitionModel.Merge(v[i], Without(v, i)[j]);
      |merged| == k && HeavyAt(Without(Without(v, i), j) + [merged], k, heavy, |v| - 2)
  {
    GoodHonest(v, lens, k, bound);
    WithoutAt(v, i, j);
    TwoWithin(v, lens, k, bound, i, j);
    HeavyMerge(v[i], v[if j < i then j else j + 1], lens, k, heavy);
    LeftEnds(v, k, heavy, i, j, b);
  }

  lemma EmptyPush(left: seq<seq<PSet>>, merged: seq<PSet>, k: int, heavy: int, c: int)
    requires EmptyEnds(left, k, c) && 0 <= c < |left| && left[c][0].sum == heavy
    requires |merged| == k && merged[k - 1].sum == 0
    ensures HeavyAt(left + [merged], k, heavy, c)
  {
  }

  lemma HeavyLeft(v: seq<seq<PSet>>, lens: seq<nat>, k: int, heavy: int, bound: int, i: int, j: int, b: int)
    returns (c: int)
    requires AllGood(v, lens, k, bound, false) && HeapIndices(v) == multiset(Range(|lens|)) && Total(lens) <= 2 * heavy
    requires Leads(v, i) && Leads(Without(v, i), j)
    requires HeavyAt(v, k, heavy, b) && b != i && b != if j < i then j else j + 1
    ensures var merged := PartitionModel.Merge(v[i], Without(v, i)[j]);
      |merged| == k && HeavyAt(Without(Without(v, i), j) + [merged], k, heavy, c)
  {
    c := Moved(i, j, b);
    TakenOut(v, i, j, b);
    LeftEnds(v, k, heavy, i, j, b);
    LightMerge(v, lens, k, heavy, bound, i, j, c);
    EmptyPush(Without(Without(v, i), j), PartitionModel.Merge(v[i], Without(v, i)[j]), k, heavy, c);
  }

  /** If the heavy state stays, what is popped merges into empty sets. */
  lemma LightMerge(v: seq<seq<PSet>>, lens: seq<nat>, k: int, heavy: int, bound: int, i: int, j: int, c: int)
    requires AllGood(v, lens, k, bound, false) && HeapIndices(v) == multiset(Range(|lens|)) && Total(lens) <= 2 * heavy
    requires k >= 2 && Leads(v, i) && Leads(Without(v, i), j) && 0 <= c < |v| - 2
    requires FirstSum(Without(Without(v, i), j)[c]) == heavy
    ensures |v[i]| == k == |Without(v, i)[j]|
    ensures var merged := PartitionModel.Merge(v[i], Without(v, i)[j]); |merged| == k && merged[k - 1].sum == 0
  {
    GoodHonest(v, lens, k, bound);
    WithoutAt(v, i, j);
    NotHeavyIsEmpty(v, lens, k, heavy, bound, i, j, c);
    EmptyMerge(v[i], Without(v, i)[j], lens, k);
  }

  /** A largest-first round keeps one state heavy. */
  lemma HeavyRound(v: seq<seq<PSet>>, lens: seq<nat>, k: int, heavy: int, bound: int, i: int, j: int, w: seq<seq<PSet>>)
    requires Heavy(v, lens, k, heavy, bound) && Round(v, i, j, w)
    ensures Heavy(w, lens, k, heavy, bound)
  {
    RoundKeeps(v, i, j, w, lens, k, bound, false);
    var b :| HeavyAt(v, k, heavy, b);
    if b == i || b == if j < i then j else j + 1 {
      HeavyPopped(v, lens, k, heavy, bound, i, j, b);
      assert HeavyAt(w, k, heavy, |v| - 2);
    } else {
      var c := HeavyLeft(v, lens, k, heavy, bound, i, j, b);
      assert HeavyAt(w, k, heavy, c);
    }
  }

  /** So do all rounds to the end. */
  lemma {:induction false} HeavyReaches(v: seq<seq<PSet>>, lens: seq<nat>, k: int, heavy: int, bound: int,
                                       final: seq<PSet>)
    requires Heavy(v, lens, k, heavy, bound) && Reaches(v, final)
    ensures Heavy([final], lens, k, heavy, bound)
    decreases |v|
  {
    if |v| <= 1 {
    } else {
      var i, j, w: seq<seq<PSet>> :| Round(v, i, j, w) && |w| < |v| && Reaches(w, final);
      HeavyRound(v, lens, k, heavy, bound, i, j, w);
      HeavyReaches(w, lens, k, heavy, bound, final);
    }
  }

  // ---------- the initial states ----------

  /** State x of single rows is that of row x of the sorted list. */
  lemma {:induction false} SingleStateAt(items: seq<(int, int)>, k: int, offset: nat, x: nat)
    requires k >= 1 && x < offset <= |items|
    ensures |InitialStates(items, k, 1, offset)| == offset
    ensures InitialStates(items, k, 1, offset)[x] == SortDesc(Deal(items[x..x + 1], k))
    decreases offset
  {
    SingleStatesCount(items, k, offset);
    SingleStatesCount(items, k, offset - 1);
    if x == offset - 1 {
    } else {
      SingleStateAt(items, k, offset - 1, x);
    }
  }

  lemma {:induction false} SingleStatesCount(items: seq<(int, int)>, k: int, offset: nat)
    requires k >= 1 && offset <= |items|
    ensures |InitialStates(items, k, 1, offset)| == offset
    decreases offset
  {
    if offset == 0 {
    } else {
      SingleStatesCount(items, k, offset - 1);
    }
  }

  lemma SingleState(item: (int, int), k: int)
    requires k >= 2 && item.1 >= 0
    ensures var s := SortDesc(Deal([item], k)); |s| == k && s[0].sum == item.1 && s[k - 1].sum == 0
  {
    var z, s := Deal([item], k), SortDesc(Deal([item], k));
    SortDescSorts(z);
    assert z[0].sum == item.1 && z[1].sum == 0;
    assert s[0] in multiset(s) && s[k - 1] in multiset(s) && z[0] in multiset(z) && z[1] in multiset(z);
    var a := Occurs(z, s[0]);
    var b := Occurs(z, s[k - 1]);
    var c := Occurs(s, z[0]);
    var d := Occurs(s, z[1]);
    DecreasingSums(s, 0, c);
    DecreasingSums(s, d, k - 1);
  }

  lemma LongestSorted(lens: seq<nat>) returns (x: int)
    requires lens != []
    ensures |SortedLengths(lens)| == |lens| && 0 <= x < |lens| && SortedLengths(lens)[x].0 == MaxLength(lens)
  {
    SortedLengthsFacts(lens);
    MaxLengthAttained(lens);
    var i :| 0 <= i < |lens| && lens[i] == MaxLength(lens);
    var items := Swap(SortedLengths(lens));
    assert Range(|lens|)[i] == i;
    assert i in multiset(Range(|lens|));
    assert i in Ids(items);
    x :| 0 <= x < |Ids(items)| && Ids(items)[x] == i;
    assert items[x] in items;
  }

  lemma InitialHeavy(views: seq<seq<PSet>>, lens: seq<nat>, k: int)
    requires k >= 2 && lens != [] && SeededBy(views, lens, k, false, 1, |lens|) && Total(lens) <= 2 * MaxLength(lens)
    ensures Heavy(views, lens, k, MaxLength(lens), SpreadBound(lens, k, false))
  {
    var items := Swap(SortedLengths(lens));
    var x := LongestSorted(lens);
    SortedLengthsFacts(lens);
    assert items[..|lens|] == items;
    SingleStatesCount(items, k, |lens|);
    forall y | 0 <= y < |lens| ensures |views[y]| == k && views[y][0].sum == items[y].1 && views[y][k - 1].sum == 0 {
      SingleStateAt(items, k, |lens|, y);
      InitialState(items, lens, k, y);
    }
    assert HeavyAt(views, k, MaxLength(lens), x);
  }

  lemma InitialState(items: seq<(int, int)>, lens: seq<nat>, k: int, y: int)
    requires k >= 2 && 0 <= y < |items| && OwnLength(items, lens)
    ensures var s := SortDesc(Deal(items[y..y + 1], k)); |s| == k && s[0].sum == items[y].1 && s[k - 1].sum == 0
  {
    assert items[y..y + 1] == [items[y]] && items[y] in items;
    SingleState(items[y], k);
  }

  // ---------- the law ----------

  lemma FinalWithin(final: seq<PSet>, lens: seq<nat>, k: int, heavy: int, bound: int, p: int)
    requires Heavy([final], lens, k, heavy, bound) && 0 <= p < |final|
    ensures Load(PartitionsOf(final)[p], lens) <= heavy
  {
    GoodHonest([final], lens, k, bound);
    assert [final][0] == final && AllHonest(final, lens) && Decreasing(final);
    assert Honest(final[p], lens);
    LoadIsSum(final[p].items, lens);
    DecreasingSums(final, 0, p);
  }

  /** If the longest row is at least all the others together, no part of a largest-first split is
      longer than it, which no split can better. */
  lemma HeavyRowAlone(lens: seq<nat>, k: int, parts: seq<seq<int>>)
    requires k >= 2 && lens != [] && Total(lens) <= 2 * MaxLength(lens) && Differenced(lens, k, false, parts)
    ensures forall p | 0 <= p < |parts| :: Load(parts[p], lens) <= MaxLength(lens)
  {
    var views, final :| DifferencedTo(lens, k, false, views, final) && parts == PartitionsOf(final);
    InitialHeavy(views, lens, k);
    HeavyReaches(views, lens, k, MaxLength(lens), SpreadBound(lens, k, false), final);
    forall p | 0 <= p < |parts| ensures Load(parts[p], lens) <= MaxLength(lens) {
      FinalWithin(final, lens, k, MaxLength(lens), SpreadBound(lens, k, false), p);
    }
  }

  /** The same of the sorted parts that callers get. */
  lemma HeavyRowSorted(lens: seq<nat>, k: int, parts: seq<seq<int>>)
    requires k >= 2 && lens != [] && Total(lens) <= 2 * MaxLength(lens) && Differenced(lens, k, false, parts)
    ensures forall p | 0 <= p < |parts| :: Load(SortParts(parts)[p], lens) <= MaxLength(lens)
  {
    HeavyRowAlone(lens, k, parts);
    forall p | 0 <= p < |parts| ensures Load(SortParts(parts)[p], lens) <= MaxLength(lens) { LoadSort(parts[p], lens); }
  }
}
