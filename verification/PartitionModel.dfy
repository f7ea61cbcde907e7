/** Partitions as the balancing code builds them (verl/utils/seqlen_balancing.py): sets of
    (index, length) items, k-way states ordered by decreasing set, and their merge. */
module PartitionModel {
  import opened Common

  /** A copy of one `Set`: its running sum and its (index, length) items. */
  datatype PSet = PSet(sum: int, items: seq<(int, int)>)

  const EMPTY_SET := PSet(0, [])

  // ---------- Python's orders ----------

  predicate PairLess(a: (int, int), b: (int, int)) {
    if a.0 != b.0 then a.0 < b.0 else a.1 < b.1
  }

  predicate ItemsLess(a: seq<(int, int)>, b: seq<(int, int)>) {
    if a == [] || b == [] then a == [] && b != []
    else if a[0] != b[0] then PairLess(a[0], b[0])
    else ItemsLess(a[1..], b[1..])
  }

  predicate SetLess(a: PSet, b: PSet) {
    if a.sum != b.sum then a.sum < b.sum
    else if |a.items| != |b.items| then |a.items| < |b.items|
    else ItemsLess(a.items, b.items)
  }

  lemma {:induction false} ItemsLessCotransitive(a: seq<(int, int)>, b: seq<(int, int)>, c: seq<(int, int)>)
    requires ItemsLess(a, c)
    ensures ItemsLess(a, b) || ItemsLess(b, c)
  {
    if a == [] || b == [] || a[0] != b[0] || b[0] != c[0] {
    } else {
      ItemsLessCotransitive(a[1..], b[1..], c[1..]);
    }
  }

  lemma {:induction false} ItemsLessAsymmetric(a: seq<(int, int)>, b: seq<(int, int)>)
    requires ItemsLess(a, b)
    ensures !ItemsLess(b, a)
  {
    if a == [] || b == [] || a[0] != b[0] {
    } else {
      ItemsLessAsymmetric(a[1..], b[1..]);
    }
  }

  /** Lists compare at their first difference, a proper prefix coming first. */
  ghost predicate FirstDifference(a: seq<(int, int)>, b: seq<(int, int)>, n: nat) {
    n <= |a| && n < |b| && a[..n] == b[..n] &&
    (n == |a| || a[n].0 < b[n].0 || (a[n].0 == b[n].0 && a[n].1 < b[n].1))
  }

  lemma DifferenceLater(a: seq<(int, int)>, b: seq<(int, int)>, n: nat)
    requires FirstDifference(a, b, n) && n > 0
    ensures a[0] == b[0]
  {
    assert a[..n][0] == b[..n][0];
  }

  lemma {:induction false} ItemsLessIff(a: seq<(int, int)>, b: seq<(int, int)>)
    ensures ItemsLess(a, b) <==> exists n :: FirstDifference(a, b, n)
  {
    if a == [] || b == [] {
      if b != [] { assert FirstDifference(a, b, 0); }
    } else if a[0] != b[0] {
      if PairLess(a[0], b[0]) { assert FirstDifference(a, b, 0); }
      if n: nat :| FirstDifference(a, b, n) {
        if n > 0 { DifferenceLater(a, b, n); }
      }
    } else {
      ItemsLessIff(a[1..], b[1..]);
      if n: nat :| FirstDifference(a[1..], b[1..], n) {
        assert a[..n + 1] == [a[0]] + a[1..][..n] && b[..n + 1] == [b[0]] + b[1..][..n];
        assert FirstDifference(a, b, n + 1);
      }
      if n: nat :| FirstDifference(a, b, n) {
        if n > 0 {
          assert a[1..][..n - 1] == a[..n][1..] && b[1..][..n - 1] == b[..n][1..];
          assert FirstDifference(a[1..], b[1..], n - 1);
        }
      }
    }
  }

  /** Sets compare by sum, then by number of items, then as lists of items. */
  lemma SetLessIff(a: PSet, b: PSet)
    ensures SetLess(a, b) <==>
      a.sum < b.sum || (a.sum == b.sum && |a.items| < |b.items|) ||
      (a.sum == b.sum && |a.items| == |b.items| && exists n :: FirstDifference(a.items, b.items, n))
  {
    ItemsLessIff(a.items, b.items);
  }

  /** `SetLess` is a strict weak order, so sorting by it is well defined. */
  lemma SetLessCotransitive(a: PSet, b: PSet, c: PSet)
    requires SetLess(a, c)
    ensures SetLess(a, b) || SetLess(b, c)
  {
    if a.sum == b.sum == c.sum && |a.items| == |b.items| == |c.items| {
      ItemsLessCotransitive(a.items, b.items, c.items);
    }
  }

  lemma SetLessAsymmetric(a: PSet, b: PSet)
    requires SetLess(a, b)
    ensures !SetLess(b, a)
  {
    if a.sum == b.sum && |a.items| == |b.items| {
      ItemsLessAsymmetric(a.items, b.items);
    }
  }

  ghost predicate Decreasing(s: seq<PSet>) {
    forall i, j | 0 <= i < j < |s| :: !SetLess(s[i], s[j])
  }

  /** `sorted(sets, reverse=True)`: decreasing and stable. */
  function Insert(x: PSet, s: seq<PSet>): seq<PSet> {
    if s == [] || !SetLess(x, s[0]) then [x] + s else [s[0]] + Insert(x, s[1..])
  }

  function SortDesc(s: seq<PSet>): seq<PSet> {
    if s == [] then [] else Insert(s[0], SortDesc(s[1..]))
  }

  lemma {:induction false} InsertSorted(x: PSet, s: seq<PSet>)
    requires Decreasing(s)
    ensures multiset(Insert(x, s)) == multiset(s) + multiset{x}
    ensures Decreasing(Insert(x, s))
  {
    if s == [] {
    } else if !SetLess(x, s[0]) {
      forall j | 0 <= j < |s| ensures !SetLess(x, s[j]) {
        if SetLess(x, s[j]) { SetLessCotransitive(x, s[0], s[j]); }
      }
    } else {
      InsertSorted(x, s[1..]);
      var t := Insert(x, s[1..]);
      assert s == [s[0]] + s[1..];
      forall j | 0 <= j < |t| ensures !SetLess(s[0], t[j]) {
        assert t[j] in multiset(t);
        if t[j] == x { SetLessAsymmetric(x, s[0]); } else { assert t[j] in multiset(s[1..]); }
      }
    }
  }

  /** t is the decreasing rearrangement of s. */
  ghost predicate Sorts(t: seq<PSet>, s: seq<PSet>) {
    multiset(t) == multiset(s) && |t| == |s| && Decreasing(t)
  }

  lemma InsertSorts(x: PSet, t: seq<PSet>, s: seq<PSet>)
    requires Sorts(t, s)
    ensures Sorts(Insert(x, t), [x] + s)
  {
    InsertSorted(x, t);
    SameLength(Insert(x, t), [x] + s);
  }

  lemma {:induction false} SortDescSorts(s: seq<PSet>)
    ensures Sorts(SortDesc(s), s)
  {
    if s == [] {
    } else {
      SortDescSorts(s[1..]);
      InsertSorts(s[0], SortDesc(s[1..]), s[1..]);
      assert s == [s[0]] + s[1..];
    }
  }

  // ---------- merging two states ----------

  function Join(a: PSet, b: PSet): PSet { PSet(a.sum + b.sum, a.items + b.items) }

  /** The largest set of one state meets the smallest of the other. */
  function Zip(a: seq<PSet>, b: seq<PSet>): (z: seq<PSet>)
    requires |a| == |b|
    ensures |z| == |a|
  {
    seq(|a|, i requires 0 <= i < |a| => Join(a[i], b[|a| - 1 - i]))
  }

  function Merge(a: seq<PSet>, b: seq<PSet>): seq<PSet>
    requires |a| == |b|
  {
    SortDesc(Zip(a, b))
  }

  function Spread(s: seq<PSet>): int
    requires |s| > 0
  {
    s[0].sum - s[|s| - 1].sum
  }

  lemma DecreasingSums(s: seq<PSet>, i: int, j: int)
    requires Decreasing(s) && 0 <= i <= j < |s|
    ensures s[j].sum <= s[i].sum
  {
  }

  lemma ZipGap(a: seq<PSet>, b: seq<PSet>, i: int, j: int)
    requires |a| == |b| && Decreasing(a) && Decreasing(b) && 0 <= i < |a| && 0 <= j < |a|
    ensures Zip(a, b)[i].sum - Zip(a, b)[j].sum <= Max(Spread(a), Spread(b))
  {
  }

  lemma Occurs(s: seq<PSet>, x: PSet) returns (i: int)
    requires x in multiset(s)
    ensures 0 <= i < |s| && s[i] == x
  {
    i :| 0 <= i < |s| && s[i] == x;
  }

  // ---------- what a state's sets contain ----------

  function ItemSum(items: seq<(int, int)>): int {
    if items == [] then 0 else items[0].1 + ItemSum(items[1..])
  }

  lemma {:induction false} ItemSumAppend(a: seq<(int, int)>, b: seq<(int, int)>)
    ensures ItemSum(a + b) == ItemSum(a) + ItemSum(b)
  {
    if a == [] {
      assert a + b == b;
    } else {
      assert (a + b)[1..] == a[1..] + b;
      ItemSumAppend(a[1..], b);
    }
  }

  /** Every item carries its own non-negative length, and the running sum is exact. */
  ghost predicate Honest(x: PSet, lens: seq<nat>) {
    x.sum == ItemSum(x.items) &&
    forall t | t in x.items :: 0 <= t.0 < |lens| && t.1 == lens[t.0]
  }

  ghost predicate AllHonest(s: seq<PSet>, lens: seq<nat>) {
    forall i | 0 <= i < |s| :: Honest(s[i], lens)
  }

  lemma HonestJoin(a: PSet, b: PSet, lens: seq<nat>)
    requires Honest(a, lens) && Honest(b, lens)
    ensures Honest(Join(a, b), lens)
  {
    ItemSumAppend(a.items, b.items);
  }

  lemma {:induction false} HonestSum(x: PSet, lens: seq<nat>)
    requires Honest(x, lens)
    ensures x.sum >= 0
    decreases |x.items|
  {
    if x.items == [] {
    } else {
      HonestSum(PSet(ItemSum(x.items[1..]), x.items[1..]), lens);
      assert x.items[0] in x.items;
    }
  }

  function Ids(items: seq<(int, int)>): seq<int> {
    seq(|items|, i requires 0 <= i < |items| => items[i].0)
  }

  /** The indices held by all sets of a state, with multiplicity. */
  function Indices(s: seq<PSet>): multiset<int> {
    if s == [] then multiset{} else multiset(Ids(s[0].items)) + Indices(s[1..])
  }

  lemma IdsAppend(a: seq<(int, int)>, b: seq<(int, int)>)
    ensures Ids(a + b) == Ids(a) + Ids(b)
  {
  }

  lemma {:induction false} IndicesConcat(a: seq<PSet>, b: seq<PSet>)
    ensures Indices(a + b) == Indices(a) + Indices(b)
  {
    if a == [] {
      assert a + b == b;
    } else {
      assert (a + b)[1..] == a[1..] + b;
      IndicesConcat(a[1..], b);
    }
  }

  lemma {:induction false} IndicesInsert(x: PSet, s: seq<PSet>)
    ensures Indices(Insert(x, s)) == multiset(Ids(x.items)) + Indices(s)
  {
    if s == [] || !SetLess(x, s[0]) {
    } else {
      IndicesInsert(x, s[1..]);
    }
  }

  lemma {:induction false} IndicesSort(s: seq<PSet>)
    ensures Indices(SortDesc(s)) == Indices(s)
  {
    if s == [] {
    } else {
      IndicesSort(s[1..]);
      IndicesInsert(s[0], SortDesc(s[1..]));
    }
  }

  lemma {:induction false} IndicesZip(a: seq<PSet>, b: seq<PSet>)
    requires |a| == |b|
    ensures Indices(Zip(a, b)) == Indices(a) + Indices(b)
  {
    if a == [] {
    } else {
      var k := |a|;
      assert Zip(a, b)[1..] == Zip(a[1..], b[..k - 1]);
      IndicesZip(a[1..], b[..k - 1]);
      assert b == b[..k - 1] + [b[k - 1]];
      IndicesConcat(b[..k - 1], [b[k - 1]]);
      IdsAppend(a[0].items, b[k - 1].items);
      assert Indices([b[k - 1]]) == multiset(Ids(b[k - 1].items));
    }
  }

  // ---------- how many sets are non-empty ----------

  function NonEmpty(s: seq<PSet>): nat {
    if s == [] then 0 else (if s[0].items == [] then 0 else 1) + NonEmpty(s[1..])
  }

  lemma {:induction false} NonEmptyInsert(x: PSet, s: seq<PSet>)
    ensures NonEmpty(Insert(x, s)) == NonEmpty([x]) + NonEmpty(s)
  {
    if s == [] || !SetLess(x, s[0]) {
    } else {
      NonEmptyInsert(x, s[1..]);
    }
  }

  lemma {:induction false} NonEmptySort(s: seq<PSet>)
    ensures NonEmpty(SortDesc(s)) == NonEmpty(s)
  {
    if s == [] {
    } else {
      NonEmptySort(s[1..]);
      NonEmptyInsert(s[0], SortDesc(s[1..]));
    }
  }

  /** The first c sets, and only those, hold items. */
  ghost predicate Front(s: seq<PSet>, c: int) {
    forall i | 0 <= i < |s| :: s[i].items != [] <==> i < c
  }

  lemma {:induction false} FrontCount(s: seq<PSet>, c: nat)
    requires Front(s, c) && c <= |s|
    ensures NonEmpty(s) == c
  {
    if s == [] {
    } else {
      assert forall i | 0 <= i < |s[1..]| :: s[1..][i] == s[i + 1];
      FrontCount(s[1..], if c == 0 then 0 else c - 1);
    }
  }

  /** In decreasing order no empty set precedes a non-empty one, even when lengths are zero. */
  lemma {:induction false} DecreasingFront(s: seq<PSet>, lens: seq<nat>)
    requires Decreasing(s) && AllHonest(s, lens)
    ensures NonEmpty(s) <= |s| && Front(s, NonEmpty(s))
  {
    if s == [] {
    } else {
      DecreasingFront(s[1..], lens);
      if s[0].items == [] {
        forall j | 0 <= j < |s| ensures s[j].items == [] {
          HonestSum(s[j], lens);
        }
        AllEmpty(s);
      }
    }
  }

  lemma {:induction false} AllEmpty(s: seq<PSet>)
    requires forall j | 0 <= j < |s| :: s[j].items == []
    ensures NonEmpty(s) == 0
  {
    if s == [] {
    } else {
      AllEmpty(s[1..]);
    }
  }

  lemma {:induction false} ZipNonEmpty(a: seq<PSet>, b: seq<PSet>, p: nat, q: nat)
    requires |a| == |b| && p <= |a| && q <= |b| && Front(a, p) && Front(b, q)
    ensures NonEmpty(Zip(a, b)) == Min(|a|, p + q)
  {
    if a == [] {
    } else {
      var k := |a|;
      assert Zip(a, b)[1..] == Zip(a[1..], b[..k - 1]);
      ZipNonEmpty(a[1..], b[..k - 1], if p == 0 then 0 else p - 1, if q == k then k - 1 else q);
    }
  }
}
