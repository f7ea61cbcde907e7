/** The invariant of every Karmarkar-Karp state, and what it says of the final partition. */
module BalancedStates {
  import opened Common
  import opened PartitionModel

  // ---------- the invariant of a state ----------

  ghost predicate EqualSized(s: seq<PSet>) {
    forall i, j | 0 <= i < |s| && 0 <= j < |s| :: |s[i].items| == |s[j].items|
  }

  /** A k-way state: decreasing, exact sums, spread at most `bound`, and exactly min(k, items)
      non-empty sets, which come first. */
  ghost predicate Good(s: seq<PSet>, lens: seq<nat>, k: int, bound: int, equal: bool) {
    |s| == k > 0 && Decreasing(s) && AllHonest(s, lens) &&
    Spread(s) <= bound && Front(s, Min(k, |Indices(s)|)) && (equal ==> EqualSized(s))
  }

  lemma ZipHonest(a: seq<PSet>, b: seq<PSet>, lens: seq<nat>)
    requires |a| == |b| && AllHonest(a, lens) && AllHonest(b, lens)
    ensures AllHonest(Zip(a, b), lens)
  {
    forall i | 0 <= i < |a| ensures Honest(Zip(a, b)[i], lens) {
      HonestJoin(a[i], b[|a| - 1 - i], lens);
    }
  }

  lemma SortKeeps(z: seq<PSet>, lens: seq<nat>)
    requires AllHonest(z, lens)
    ensures AllHonest(SortDesc(z), lens)
    ensures EqualSized(z) ==> EqualSized(SortDesc(z))
  {
    SortDescSorts(z);
    var m := SortDesc(z);
    forall i | 0 <= i < |m| ensures Honest(m[i], lens) {
      assert m[i] in multiset(m);
      var i' := Occurs(z, m[i]);
    }
    if EqualSized(z) {
      forall i, j | 0 <= i < |m| && 0 <= j < |m| ensures |m[i].items| == |m[j].items| {
        assert m[i] in multiset(m) && m[j] in multiset(m);
        var i' := Occurs(z, m[i]);
        var j' := Occurs(z, m[j]);
      }
    }
  }

  ghost predicate WithinGap(z: seq<PSet>, bound: int) {
    forall i, j | 0 <= i < |z| && 0 <= j < |z| :: z[i].sum - z[j].sum <= bound
  }

  lemma SortSpread(z: seq<PSet>, bound: int)
    requires |z| > 0 && WithinGap(z, bound)
    ensures |SortDesc(z)| == |z| && Spread(SortDesc(z)) <= bound
  {
    SortDescSorts(z);
    var m := SortDesc(z);
    var last := m[|m| - 1];
    assert m[0] in multiset(m) && last in multiset(m);
    var i := Occurs(z, m[0]);
    var j := Occurs(z, last);
  }

  /** Sorting sets within a gap, as many of them filled as there are items, gives a good state. */
  lemma SortGood(z: seq<PSet>, lens: seq<nat>, bound: int, equal: bool)
    requires |z| > 0 && AllHonest(z, lens) && WithinGap(z, bound)
    requires NonEmpty(z) == Min(|z|, |Indices(z)|) && (equal ==> EqualSized(z))
    ensures Good(SortDesc(z), lens, |z|, bound, equal)
    ensures Indices(SortDesc(z)) == Indices(z)
  {
    SortDescSorts(z);
    SortKeeps(z, lens);
    SortSpread(z, bound);
    IndicesSort(z);
    NonEmptySort(z);
    DecreasingFront(SortDesc(z), lens);
  }

  lemma ZipGood(a: seq<PSet>, b: seq<PSet>, bound: int)
    requires |a| == |b| > 0 && Decreasing(a) && Decreasing(b) && Spread(a) <= bound && Spread(b) <= bound
    ensures WithinGap(Zip(a, b), bound)
    ensures EqualSized(a) && EqualSized(b) ==> EqualSized(Zip(a, b))
  {
    forall i, j | 0 <= i < |a| && 0 <= j < |a| ensures Zip(a, b)[i].sum - Zip(a, b)[j].sum <= bound {
      ZipGap(a, b, i, j);
    }
  }

  /** Merging never widens: the result's spread is at most the larger of the two. */
  lemma MergeSpread(a: seq<PSet>, b: seq<PSet>)
    requires |a| == |b| > 0 && Decreasing(a) && Decreasing(b)
    ensures |Merge(a, b)| == |a| && Decreasing(Merge(a, b))
    ensures Spread(Merge(a, b)) <= Max(Spread(a), Spread(b))
  {
    SortDescSorts(Zip(a, b));
    ZipGood(a, b, Max(Spread(a), Spread(b)));
    SortSpread(Zip(a, b), Max(Spread(a), Spread(b)));
  }

  /** Merging two good states gives a good state over the items of both. */
  lemma MergeGood(a: seq<PSet>, b: seq<PSet>, lens: seq<nat>, k: int, bound: int, equal: bool)
    requires Good(a, lens, k, bound, equal) && Good(b, lens, k, bound, equal)
    ensures Good(Merge(a, b), lens, k, bound, equal)
    ensures Indices(Merge(a, b)) == Indices(a) + Indices(b)
  {
    IndicesZip(a, b);
    ZipHonest(a, b, lens);
    ZipGood(a, b, bound);
    ZipNonEmpty(a, b, Min(k, |Indices(a)|), Min(k, |Indices(b)|));
    SortGood(Zip(a, b), lens, bound, equal);
  }

  // ---------- the initial states ----------

  /** The sets of `State(items, k)` before sorting: one item each, then empty sets. */
  function Deal(items: seq<(int, int)>, k: int): (s: seq<PSet>)
    requires |items| <= k
    ensures |s| == k
  {
    seq(k, i requires 0 <= i < k => if i < |items| then PSet(items[i].1, [items[i]]) else EMPTY_SET)
  }

  ghost predicate OwnLength(items: seq<(int, int)>, lens: seq<nat>) {
    forall t | t in items :: 0 <= t.0 < |lens| && t.1 == lens[t.0]
  }

  lemma DealHonest(items: seq<(int, int)>, k: int, lens: seq<nat>)
    requires |items| <= k && OwnLength(items, lens)
    ensures AllHonest(Deal(items, k), lens)
  {
    forall i | 0 <= i < k ensures Honest(Deal(items, k)[i], lens) {
      if i < |items| {
        assert items[i] in items;
        assert ItemSum([items[i]]) == items[i].1;
      }
    }
  }

  lemma {:induction false} DealIndices(items: seq<(int, int)>, k: int)
    requires |items| <= k
    ensures Indices(Deal(items, k)) == multiset(Ids(items))
    ensures NonEmpty(Deal(items, k)) == |items|
    decreases k
  {
    if k == 0 {
    } else if items == [] {
      assert Deal([], k)[1..] == Deal([], k - 1);
      DealIndices([], k - 1);
    } else {
      assert Deal(items, k)[1..] == Deal(items[1..], k - 1);
      DealIndices(items[1..], k - 1);
      assert Ids(items) == Ids([items[0]]) + Ids(items[1..]);
    }
  }

  /** A state of one item: its spread is at most that item's length. */
  lemma SingleGood(items: seq<(int, int)>, k: int, lens: seq<nat>, bound: int)
    requires |items| == 1 <= k && OwnLength(items, lens) && items[0].1 <= bound
    ensures Good(SortDesc(Deal(items, k)), lens, k, bound, false)
    ensures Indices(SortDesc(Deal(items, k))) == multiset(Ids(items))
  {
    assert items[0] in items;
    DealHonest(items, k, lens);
    DealIndices(items, k);
    assert |multiset(Ids(items))| == 1;
    SortGood(Deal(items, k), lens, bound, false);
  }

  /** A state dealt from k items of ascending length: its spread is last minus first. */
  lemma BlockGood(items: seq<(int, int)>, k: int, lens: seq<nat>, bound: int)
    requires |items| == k >= 1 && OwnLength(items, lens)
    requires forall i | 0 <= i < k :: items[0].1 <= items[i].1 <= items[k - 1].1
    requires items[k - 1].1 - items[0].1 <= bound
    ensures Good(SortDesc(Deal(items, k)), lens, k, bound, true)
    ensures Indices(SortDesc(Deal(items, k))) == multiset(Ids(items))
  {
    DealHonest(items, k, lens);
    DealIndices(items, k);
    assert |multiset(Ids(items))| == k;
    SortGood(Deal(items, k), lens, bound, true);
  }

  // ---------- sorting the lengths ----------

  /** `sorted` on (length, index) pairs. */
  function InsertAsc(x: (int, int), s: seq<(int, int)>): seq<(int, int)> {
    if s == [] || PairLess(x, s[0]) then [x] + s else [s[0]] + InsertAsc(x, s[1..])
  }

  function SortAsc(s: seq<(int, int)>): seq<(int, int)> {
    if s == [] then [] else InsertAsc(s[0], SortAsc(s[1..]))
  }

  ghost predicate Ascending(s: seq<(int, int)>) {
    forall i, j | 0 <= i < j < |s| :: !PairLess(s[j], s[i])
  }

  lemma {:induction false} InsertAscSorted(x: (int, int), s: seq<(int, int)>)
    requires Ascending(s)
    ensures multiset(InsertAsc(x, s)) == multiset(s) + multiset{x} && Ascending(InsertAsc(x, s))
  {
    if s != [] && !PairLess(x, s[0]) {
      InsertAscSorted(x, s[1..]);
      var t := InsertAsc(x, s[1..]);
      assert s == [s[0]] + s[1..];
      forall j | 0 <= j < |t| ensures !PairLess(t[j], s[0]) {
        assert t[j] in multiset(t);
        if t[j] != x { assert t[j] in multiset(s[1..]); }
      }
    }
  }

  lemma {:induction false} SortAscSorts(s: seq<(int, int)>)
    ensures multiset(SortAsc(s)) == multiset(s) && |SortAsc(s)| == |s| && Ascending(SortAsc(s))
  {
    if s == [] {
    } else {
      SortAscSorts(s[1..]);
      InsertAscSorted(s[0], SortAsc(s[1..]));
      assert s == [s[0]] + s[1..];
    }
    assert |multiset(SortAsc(s))| == |SortAsc(s)| && |multiset(s)| == |s|;
  }

  /** The (length, index) pairs of the input, ascending. */
  function SortedLengths(lens: seq<nat>): seq<(int, int)> {
    SortAsc(seq(|lens|, i requires 0 <= i < |lens| => (lens[i], i)))
  }

  function Swap(s: seq<(int, int)>): seq<(int, int)> {
    seq(|s|, i requires 0 <= i < |s| => (s[i].1, s[i].0))
  }

  function Range(n: nat): seq<int> { seq(n, i => i) }

  function Seconds(s: seq<(int, int)>): seq<int> {
    seq(|s|, i requires 0 <= i < |s| => s[i].1)
  }

  lemma {:induction false} InsertAscSeconds(x: (int, int), s: seq<(int, int)>)
    ensures multiset(Seconds(InsertAsc(x, s))) == multiset{x.1} + multiset(Seconds(s))
  {
    if s == [] || PairLess(x, s[0]) {
      assert Seconds([x] + s) == [x.1] + Seconds(s);
    } else {
      InsertAscSeconds(x, s[1..]);
      assert Seconds(InsertAsc(x, s)) == [s[0].1] + Seconds(InsertAsc(x, s[1..]));
      assert Seconds(s) == [s[0].1] + Seconds(s[1..]);
    }
  }

  lemma {:induction false} SortAscSeconds(s: seq<(int, int)>)
    ensures multiset(Seconds(SortAsc(s))) == multiset(Seconds(s))
  {
    if s == [] {
    } else {
      SortAscSeconds(s[1..]);
      InsertAscSeconds(s[0], SortAsc(s[1..]));
      assert Seconds(s) == [s[0].1] + Seconds(s[1..]);
    }
  }

  /** The sorted list holds every index once, each with its own length. */
  lemma SortedLengthsFacts(lens: seq<nat>)
    ensures var s := SortedLengths(lens);
      |s| == |lens| && Ascending(s) && OwnLength(Swap(s), lens) &&
      multiset(Ids(Swap(s))) == multiset(Range(|lens|))
  {
    var pairs := seq(|lens|, i requires 0 <= i < |lens| => (lens[i], i));
    var s := SortedLengths(lens);
    SortAscSorts(pairs);
    SortAscSeconds(pairs);
    assert Seconds(pairs) == Range(|lens|);
    assert Ids(Swap(s)) == Seconds(s);
    forall i | 0 <= i < |s| ensures 0 <= s[i].1 < |lens| && s[i].0 == lens[s[i].1] {
      assert s[i] in multiset(s);
      assert s[i] in pairs;
    }
  }

  // ---------- the bounds ----------

  function MaxLength(lens: seq<nat>): nat {
    if lens == [] then 0 else if lens[0] >= MaxLength(lens[1..]) then lens[0] else MaxLength(lens[1..])
  }

  lemma {:induction false} MaxLengthBounds(lens: seq<nat>, i: int)
    requires 0 <= i < |lens|
    ensures lens[i] <= MaxLength(lens)
  {
    if i == 0 {
    } else {
      MaxLengthBounds(lens[1..], i - 1);
    }
  }

  lemma {:induction false} MaxLengthAttained(lens: seq<nat>)
    requires lens != []
    ensures MaxLength(lens) in lens
  {
    if |lens| == 1 {
    } else {
      MaxLengthAttained(lens[1..]);
    }
  }

  /** The widest block of k consecutive lengths of the sorted list. */
  function WidestBlock(s: seq<(int, int)>, k: int): int
    requires k >= 1
  {
    if |s| < k then 0 else Max(s[k - 1].0 - s[0].0, WidestBlock(s[k..], k))
  }

  /** n is a whole number of steps. */
  predicate Whole(n: int, step: nat)
    requires step >= 1
    decreases n
  {
    n == 0 || (n >= step && Whole(n - step, step))
  }

  lemma {:induction false} WidestBlockBounds(s: seq<(int, int)>, k: int, offset: nat)
    requires k >= 1 && Whole(offset, k) && offset + k <= |s|
    ensures s[offset + k - 1].0 - s[offset].0 <= WidestBlock(s, k)
    decreases offset
  {
    if offset == 0 {
    } else {
      WidestBlockBounds(s[k..], k, offset - k);
    }
  }

  function SpreadBound(lens: seq<nat>, k: int, equal: bool): int
    requires k >= 1
  {
    if equal then WidestBlock(SortedLengths(lens), k) else MaxLength(lens)
  }
}
