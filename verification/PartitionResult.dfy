/** What callers see of a balancing: lists of indices, their loads, and the final checks. */
module PartitionResult {
  import opened BlockSequences
  import opened Common
  import opened PartitionModel
  import opened BalancedStates

  /** The total length a partition carries. */
  function Load(part: seq<int>, lens: seq<nat>): nat {
    if part == [] then 0
    else (if 0 <= part[0] < |lens| then lens[part[0]] else 0) + Load(part[1..], lens)
  }

  /** Any two loads differ by at most `gap`. */
  ghost predicate Balanced(parts: seq<seq<int>>, lens: seq<nat>, gap: int) {
    forall p, q | 0 <= p < |parts| && 0 <= q < |parts| :: Load(parts[p], lens) - Load(parts[q], lens) <= gap
  }

  /** Every index 0 .. n-1 appears exactly once. */
  ghost predicate Covers(parts: seq<seq<int>>, n: nat) {
    multiset(Flatten(parts)) == multiset(Range(n))
  }

  function PartitionsOf(s: seq<PSet>): (parts: seq<seq<int>>)
    ensures |parts| == |s|
  {
    seq(|s|, i requires 0 <= i < |s| => Ids(s[i].items))
  }

  lemma {:induction false} FlatIndices(s: seq<PSet>)
    ensures multiset(Flatten(PartitionsOf(s))) == Indices(s)
  {
    if s == [] {
    } else {
      assert PartitionsOf(s)[1..] == PartitionsOf(s[1..]);
      FlatIndices(s[1..]);
    }
  }

  lemma {:induction false} LoadIsSum(items: seq<(int, int)>, lens: seq<nat>)
    requires OwnLength(items, lens)
    ensures Load(Ids(items), lens) == ItemSum(items)
  {
    if items == [] {
    } else {
      assert items[0] in items;
      assert Ids(items)[1..] == Ids(items[1..]);
      LoadIsSum(items[1..], lens);
    }
  }

  /** Loads of a good state lie within its bound. */
  lemma GoodIsBalanced(s: seq<PSet>, lens: seq<nat>, k: int, bound: int, equal: bool)
    requires Good(s, lens, k, bound, equal)
    ensures Balanced(PartitionsOf(s), lens, bound)
  {
    var parts := PartitionsOf(s);
    forall p, q | 0 <= p < k && 0 <= q < k ensures Load(parts[p], lens) - Load(parts[q], lens) <= bound {
      LoadIsSum(s[p].items, lens);
      LoadIsSum(s[q].items, lens);
      DecreasingSums(s, 0, p);
      DecreasingSums(s, q, k - 1);
    }
  }

  /** Equal-sized sets over n indices hold n/k each, so the size assert cannot fail. */
  lemma EqualSizes(s: seq<PSet>, n: nat)
    requires |s| > 0 && EqualSized(s) && Indices(s) == multiset(Range(n))
    ensures |s| * |s[0].items| == n
    ensures forall p | 0 <= p < |s| :: |PartitionsOf(s)[p]| == |s[0].items|
  {
    var parts := PartitionsOf(s);
    FlattenLength(parts, |s[0].items|);
    FlatIndices(s);
    SameLength(Flatten(parts), Range(n));
  }

  // ---------- the final sort of each partition ----------

  function InsertInt(x: int, s: seq<int>): seq<int> {
    if s == [] || x < s[0] then [x] + s else [s[0]] + InsertInt(x, s[1..])
  }

  function SortInts(s: seq<int>): seq<int> {
    if s == [] then [] else InsertInt(s[0], SortInts(s[1..]))
  }

  ghost predicate AscendingInts(s: seq<int>) {
    forall i, j | 0 <= i < j < |s| :: s[i] <= s[j]
  }

  lemma {:induction false} InsertIntSorted(x: int, s: seq<int>)
    requires AscendingInts(s)
    ensures multiset(InsertInt(x, s)) == multiset(s) + multiset{x} && AscendingInts(InsertInt(x, s))
  {
    if s == [] || x < s[0] {
    } else {
      InsertIntSorted(x, s[1..]);
      var t := InsertInt(x, s[1..]);
      assert s == [s[0]] + s[1..];
      forall v | v in multiset(t) ensures s[0] <= v {
        assert v == x || v in s[1..];
      }
      PrependAscending(s[0], t);
    }
  }

  lemma PrependAscending(x: int, s: seq<int>)
    requires AscendingInts(s) && forall v | v in multiset(s) :: x <= v
    ensures AscendingInts([x] + s)
  {
    forall j | 0 <= j < |s| ensures x <= s[j] {
      assert s[j] in multiset(s);
    }
  }

  lemma {:induction false} SortIntsSorts(s: seq<int>)
    ensures multiset(SortInts(s)) == multiset(s) && |SortInts(s)| == |s| && AscendingInts(SortInts(s))
  {
    if s == [] {
    } else {
      SortIntsSorts(s[1..]);
      InsertIntSorted(s[0], SortInts(s[1..]));
      assert s == [s[0]] + s[1..];
    }
    SameLength(SortInts(s), s);
  }

  lemma {:induction false} LoadInsert(x: int, s: seq<int>, lens: seq<nat>)
    ensures Load(InsertInt(x, s), lens) == Load([x], lens) + Load(s, lens)
  {
    if s == [] || x < s[0] {
    } else {
      LoadInsert(x, s[1..], lens);
    }
  }

  lemma {:induction false} LoadSort(s: seq<int>, lens: seq<nat>)
    ensures Load(SortInts(s), lens) == Load(s, lens)
  {
    if s == [] {
    } else {
      LoadSort(s[1..], lens);
      LoadInsert(s[0], SortInts(s[1..]), lens);
    }
  }

  function SortParts(parts: seq<seq<int>>): (sorted: seq<seq<int>>)
    ensures |sorted| == |parts|
  {
    seq(|parts|, i requires 0 <= i < |parts| => SortInts(parts[i]))
  }

  /** Sorting inside the partitions changes neither cover nor balance nor sizes. */
  lemma SortPartsKeeps(parts: seq<seq<int>>, lens: seq<nat>, gap: int)
    ensures multiset(Flatten(SortParts(parts))) == multiset(Flatten(parts))
    ensures Balanced(parts, lens, gap) ==> Balanced(SortParts(parts), lens, gap)
    ensures forall p | 0 <= p < |parts| :: |SortParts(parts)[p]| == |parts[p]| && AscendingInts(SortParts(parts)[p])
  {
    forall p | 0 <= p < |parts|
      ensures |SortParts(parts)[p]| == |parts[p]| && AscendingInts(SortParts(parts)[p])
      ensures Load(SortParts(parts)[p], lens) == Load(parts[p], lens)
    {
      SortIntsSorts(parts[p]);
      LoadSort(parts[p], lens);
    }
    FlatSort(parts);
  }

  lemma {:induction false} FlatSort(parts: seq<seq<int>>)
    ensures multiset(Flatten(SortParts(parts))) == multiset(Flatten(parts))
  {
    if parts == [] {
    } else {
      assert SortParts(parts)[1..] == SortParts(parts[1..]);
      FlatSort(parts[1..]);
      SortIntsSorts(parts[0]);
    }
  }

  // ---------- totals ----------

  function Total(lens: seq<nat>): nat {
    if lens == [] then 0 else lens[0] + Total(lens[1..])
  }

  /** The sum of the loads of all partitions. */
  function TotalLoad(parts: seq<seq<int>>, lens: seq<nat>): nat {
    if parts == [] then 0 else Load(parts[0], lens) + TotalLoad(parts[1..], lens)
  }

  lemma {:induction false} LoadAppend(a: seq<int>, b: seq<int>, lens: seq<nat>)
    ensures Load(a + b, lens) == Load(a, lens) + Load(b, lens)
  {
    if a == [] {
      assert a + b == b;
    } else {
      assert (a + b)[1..] == a[1..] + b;
      LoadAppend(a[1..], b, lens);
    }
  }

  lemma {:induction false} TotalLoadFlat(parts: seq<seq<int>>, lens: seq<nat>)
    ensures TotalLoad(parts, lens) == Load(Flatten(parts), lens)
  {
    if parts == [] {
    } else {
      TotalLoadFlat(parts[1..], lens);
      LoadAppend(parts[0], Flatten(parts[1..]), lens);
    }
  }

  /** The load depends only on which indices occur. */
  lemma {:induction false} LoadPermuted(a: seq<int>, b: seq<int>, lens: seq<nat>)
    requires multiset(a) == multiset(b)
    ensures Load(a, lens) == Load(b, lens)
    decreases |a|
  {
    LoadSort(a, lens);
    LoadSort(b, lens);
    SortIntsSorts(a);
    SortIntsSorts(b);
    SortedUnique(SortInts(a), SortInts(b));
  }

  lemma {:induction false} SortedUnique(a: seq<int>, b: seq<int>)
    requires multiset(a) == multiset(b) && AscendingInts(a) && AscendingInts(b)
    ensures a == b
  {
    SameLength(a, b);
    if a == [] {
    } else {
      FirstIsLeast(a, b[0]);
      FirstIsLeast(b, a[0]);
      assert a[0] == b[0];
      AscendingTail(a);
      AscendingTail(b);
      SortedUnique(a[1..], b[1..]);
    }
  }

  lemma AscendingTail(s: seq<int>)
    requires s != [] && AscendingInts(s)
    ensures AscendingInts(s[1..]) && multiset(s[1..]) == multiset(s) - multiset{s[0]}
    ensures s == [s[0]] + s[1..]
  {
    assert s == [s[0]] + s[1..];
  }

  lemma FirstIsLeast(s: seq<int>, x: int)
    requires AscendingInts(s)
    ensures s != [] ==> s[0] in multiset(s)
    ensures x in multiset(s) ==> s[0] <= x
  {
  }

  lemma {:induction false} LoadRange(lens: seq<nat>, i: nat)
    requires i <= |lens|
    ensures Load(Range(|lens|)[i..], lens) == Total(lens[i..])
    decreases |lens| - i
  {
    if i == |lens| {
    } else {
      LoadRange(lens, i + 1);
      assert Range(|lens|)[i..][1..] == Range(|lens|)[i + 1..];
      assert lens[i..][1..] == lens[i + 1..];
    }
  }

  /** Covering partitions conserve the total length. */
  lemma CoverConserves(parts: seq<seq<int>>, lens: seq<nat>)
    requires Covers(parts, |lens|)
    ensures TotalLoad(parts, lens) == Total(lens)
  {
    TotalLoadFlat(parts, lens);
    LoadPermuted(Flatten(parts), Range(|lens|), lens);
    LoadRange(lens, 0);
    assert lens[0..] == lens && Range(|lens|)[0..] == Range(|lens|);
  }
}
