/** `karmarkar_karp` as the repository runs it: `Set` and `State` objects updated in place and
    a heap of states from which the two least are popped and merged. */
module KarmarkarKarp {
  import opened Common
  import opened PartitionModel
  import opened BalancedStates
  import opened PartitionResult

  class Set {
    var sum: int
    var items: seq<(int, int)>

    constructor ()
      ensures View() == EMPTY_SET
    {
      sum, items := 0, [];
    }

    function View(): PSet
      reads this
    {
      PSet(sum, items)
    }

    method Add(idx: int, val: int)
      modifies this
      ensures View() == PSet(old(sum) + val, old(items) + [(idx, val)])
    {
      items := items + [(idx, val)];
      sum := sum + val;
    }

    method Merge(other: Set)
      requires other != this && other.sum == ItemSum(other.items)
      modifies this
      ensures View() == Join(old(View()), other.View())
    {
      var i := 0;
      while i < |other.items|
        invariant 0 <= i <= |other.items|
        invariant items == old(items) + other.items[..i]
        invariant sum == old(sum) + ItemSum(other.items[..i])
        invariant other.View() == old(other.View())
      {
        assert other.items[..i + 1] == other.items[..i] + [other.items[i]];
        ItemSumAppend(other.items[..i], [other.items[i]]);
        items := items + [other.items[i]];
        sum := sum + other.items[i].1;
        i := i + 1;
      }
      assert other.items[..i] == other.items;
    }
  }

  function Views(sets: seq<Set>): (v: seq<PSet>)
    reads sets
    ensures |v| == |sets|
  {
    seq(|sets|, i requires 0 <= i < |sets| reads sets => sets[i].View())
  }

  ghost predicate Distinct(sets: seq<Set>) {
    forall i, j | 0 <= i < j < |sets| :: sets[i] != sets[j]
  }

  ghost predicate Exact(s: seq<PSet>) {
    forall i | 0 <= i < |s| :: s[i].sum == ItemSum(s[i].items)
  }

  method InsertSet(x: Set, s: seq<Set>) returns (r: seq<Set>)
    requires Distinct(s) && x !in s
    ensures Distinct(r) && forall y :: y in r <==> y == x || y in s
    ensures Views(r) == Insert(x.View(), Views(s))
  {
    if s == [] || !SetLess(x.View(), s[0].View()) {
      r := [x] + s;
      assert Views(r) == [x.View()] + Views(s);
    } else {
      assert s == [s[0]] + s[1..];
      var t := InsertSet(x, s[1..]);
      r := [s[0]] + t;
      assert s[0] !in s[1..];
      assert Views(s)[1..] == Views(s[1..]);
      assert Views(r) == [s[0].View()] + Views(t);
    }
  }

  /** `sorted(sets, reverse=True)`. */
  method SortedReverse(s: seq<Set>) returns (r: seq<Set>)
    requires Distinct(s)
    ensures Distinct(r) && forall y :: y in r <==> y in s
    ensures Views(r) == SortDesc(Views(s))
  {
    if s == [] {
      r := [];
    } else {
      assert s == [s[0]] + s[1..];
      var t := SortedReverse(s[1..]);
      assert s[0] !in s[1..];
      assert Views(s)[1..] == Views(s[1..]);
      r := InsertSet(s[0], t);
    }
  }

  /** `[Set() for _ in range(k)]`. */
  method EmptySets(k: int) returns (sets: seq<Set>)
    requires k >= 0
    ensures |sets| == k && Distinct(sets) && fresh(sets)
    ensures forall j | 0 <= j < k :: sets[j].View() == EMPTY_SET
  {
    sets := [];
    for i := 0 to k
      invariant |sets| == i && Distinct(sets) && fresh(sets)
      invariant forall j | 0 <= j < i :: sets[j].View() == EMPTY_SET
    {
      var s := new Set();
      sets := sets + [s];
    }
  }

  /** One item into each of the first sets. */
  method FillSets(sets: seq<Set>, items: seq<(int, int)>)
    requires |items| <= |sets| && Distinct(sets)
    requires forall j | 0 <= j < |sets| :: sets[j].View() == EMPTY_SET
    modifies sets
    ensures Views(sets) == Deal(items, |sets|)
  {
    for i := 0 to |items|
      invariant forall j | 0 <= j < |sets| ::
        sets[j].View() == if j < i then PSet(items[j].1, [items[j]]) else EMPTY_SET
    {
      sets[i].Add(items[i].0, items[i].1);
    }
  }

  lemma DealExact(items: seq<(int, int)>, k: int)
    requires |items| <= k
    ensures Exact(Deal(items, k))
  {
  }

  class State {
    const k: int
    ghost const repr: set<Set>  // the Set objects of this state, the same ones throughout
    var sets: seq<Set>

    ghost predicate Valid()
      reads this, repr
    {
      |sets| == k >= 1 && Distinct(sets) && (forall i | 0 <= i < k :: sets[i] in repr) && Exact(Views(sets))
    }

    function View(): (v: seq<PSet>)
      requires Valid()
      reads this, repr
      ensures |v| == k >= 1
    {
      Views(sets)
    }

    constructor (items: seq<(int, int)>, k: int)
      requires k >= 1 && (|items| == 1 || |items| == k)
      ensures Valid() && fresh(repr) && this.k == k
      ensures View() == SortDesc(Deal(items, k))
    {
      var dealt := EmptySets(k);
      FillSets(dealt, items);
      var ordered := SortedReverse(dealt);
      assert Exact(Views(ordered)) by {
        DealExact(items, k);
        ExactSort(Deal(items, k));
      }
      assert |ordered| == k by { SortDescSorts(Deal(items, k)); }
      this.k, sets := k, ordered;
      repr := set s | s in ordered;
    }

    method Merge(other: State)
      requires Valid() && other.Valid() && k == other.k && other != this && repr !! other.repr
      modifies this, repr
      ensures Valid() && other.Valid() && other.View() == old(other.View())
      ensures View() == PartitionModel.Merge(old(View()), other.View())
    {
      ghost var a, b := View(), other.View();
      forall i, j | 0 <= i < k && 0 <= j < k ensures sets[i] != other.sets[j] {
        assert sets[i] in repr && other.sets[j] in other.repr;
      }
      MergeReversed(sets, other.sets);
      var ordered := SortedReverse(sets);
      MergedExact(a, b);
      assert Views(ordered) == PartitionModel.Merge(a, b);
      forall i | 0 <= i < |ordered| ensures ordered[i] in repr {
        assert ordered[i] in sets;
      }
      sets := ordered;
    }
  }

  /** Each set takes in the one at the mirrored position of the other state. */
  method MergeReversed(mine: seq<Set>, theirs: seq<Set>)
    requires |mine| == |theirs| && Distinct(mine) && Exact(Views(theirs))
    requires forall i, j | 0 <= i < |mine| && 0 <= j < |theirs| :: mine[i] != theirs[j]
    modifies mine
    ensures Views(mine) == Zip(old(Views(mine)), Views(theirs)) && Views(theirs) == old(Views(theirs))
  {
    ghost var a, b := Views(mine), Views(theirs);
    var k := |mine|;
    for i := 0 to k
      invariant Views(theirs) == b
      invariant forall j | 0 <= j < k :: mine[j].View() == if j < i then Zip(a, b)[j] else a[j]
    {
      assert theirs[k - 1 - i].View() == b[k - 1 - i];
      mine[i].Merge(theirs[k - 1 - i]);
      assert forall j | 0 <= j < k :: theirs[j].View() == b[j];
    }
  }

  lemma MergedExact(a: seq<PSet>, b: seq<PSet>)
    requires |a| == |b| && Exact(a) && Exact(b)
    ensures |PartitionModel.Merge(a, b)| == |a| && Exact(PartitionModel.Merge(a, b))
  {
    ExactZip(a, b);
    ExactSort(Zip(a, b));
    SortDescSorts(Zip(a, b));
  }

  lemma ExactSort(z: seq<PSet>)
    requires Exact(z)
    ensures Exact(SortDesc(z))
  {
    SortDescSorts(z);
    var m := SortDesc(z);
    forall i | 0 <= i < |m| ensures m[i].sum == ItemSum(m[i].items) {
      assert m[i] in multiset(m);
      var j := Occurs(z, m[i]);
    }
  }

  lemma ExactZip(a: seq<PSet>, b: seq<PSet>)
    requires |a| == |b| && Exact(a) && Exact(b)
    ensures Exact(Zip(a, b))
  {
    forall i | 0 <= i < |a| ensures Zip(a, b)[i].sum == ItemSum(Zip(a, b)[i].items) {
      ItemSumAppend(a[i].items, b[|a| - 1 - i].items);
    }
  }

  // ---------- the heap ----------

  /** `State.__lt__`: the largest spread first, then the largest first set. */
  predicate StateLess(a: seq<PSet>, b: seq<PSet>)
    requires |a| > 0 && |b| > 0
  {
    if Spread(a) != Spread(b) then Spread(a) > Spread(b) else SetLess(b[0], a[0])
  }

  predicate IsLeast(views: seq<seq<PSet>>, i: int)
    requires 0 <= i < |views| && forall j | 0 <= j < |views| :: |views[j]| > 0
  {
    forall j | 0 <= j < |views| :: !StateLess(views[j], views[i])
  }

  /** No state of the heap has a larger spread, and none of the same spread has a larger first set. */
  ghost predicate Leads(views: seq<seq<PSet>>, i: int) {
    0 <= i < |views| && NonEmptyStates(views) && forall j | 0 <= j < |views| ::
      views[j][0].sum - views[j][|views[j]| - 1].sum < views[i][0].sum - views[i][|views[i]| - 1].sum ||
      (views[j][0].sum - views[j][|views[j]| - 1].sum == views[i][0].sum - views[i][|views[i]| - 1].sum &&
       !SetLess(views[i][0], views[j][0]))
  }

  /** The least state of the heap order is a leading one. */
  lemma LeastLeads(views: seq<seq<PSet>>, i: int)
    requires NonEmptyStates(views) && 0 <= i < |views| && IsLeast(views, i)
    ensures Leads(views, i)
  {
    forall j | 0 <= j < |views|
      ensures Spread(views[j]) < Spread(views[i]) ||
              (Spread(views[j]) == Spread(views[i]) && !SetLess(views[i][0], views[j][0]))
    {
      assert !StateLess(views[j], views[i]);
    }
  }

  lemma StateLessCotransitive(a: seq<PSet>, b: seq<PSet>, c: seq<PSet>)
    requires |a| > 0 && |b| > 0 && |c| > 0 && StateLess(a, c)
    ensures StateLess(a, b) || StateLess(b, c)
  {
    if Spread(a) == Spread(b) == Spread(c) { SetLessCotransitive(c[0], b[0], a[0]); }
  }

  lemma StateLessAsymmetric(a: seq<PSet>, b: seq<PSet>)
    requires |a| > 0 && |b| > 0 && StateLess(a, b)
    ensures !StateLess(b, a)
  {
    if Spread(a) == Spread(b) { SetLessAsymmetric(b[0], a[0]); }
  }

  /** A heap has a state that no other precedes. */
  lemma {:induction false} LeastExists(views: seq<seq<PSet>>) returns (i: int)
    requires |views| > 0 && forall j | 0 <= j < |views| :: |views[j]| > 0
    ensures 0 <= i < |views| && IsLeast(views, i)
  {
    var n := |views| - 1;
    if n == 0 {
      i := 0;
      if StateLess(views[0], views[0]) { StateLessAsymmetric(views[0], views[0]); }
    } else {
      var m := LeastExists(views[..n]);
      assert forall j | 0 <= j < n :: !StateLess(views[..n][j], views[m]);
      i := if StateLess(views[n], views[m]) then n else m;
      forall j | 0 <= j < |views| ensures !StateLess(views[j], views[i]) {
        if i == n && StateLess(views[j], views[n]) {
          StateLessAsymmetric(views[j], views[n]);
          if j < n {
            assert !StateLess(views[..n][j], views[m]);
            StateLessCotransitive(views[n], views[j], views[m]);
          }
        }
      }
    }
  }

  ghost predicate GoodAt(views: seq<seq<PSet>>, i: int, lens: seq<nat>, k: int, bound: int, equal: bool) {
    0 <= i < |views| ==> Good(views[i], lens, k, bound, equal)
  }

  ghost predicate AllGood(views: seq<seq<PSet>>, lens: seq<nat>, k: int, bound: int, equal: bool) {
    forall i :: GoodAt(views, i, lens, k, bound, equal)
  }

  /** All indices held by the states of a heap. */
  function HeapIndices(views: seq<seq<PSet>>): multiset<int> {
    if views == [] then multiset{} else Indices(views[0]) + HeapIndices(views[1..])
  }

  lemma {:induction false} HeapIndicesPush(v: seq<seq<PSet>>, s: seq<PSet>)
    ensures HeapIndices(v + [s]) == HeapIndices(v) + Indices(s)
  {
    if v == [] {
      assert v + [s] == [s];
    } else {
      assert (v + [s])[1..] == v[1..] + [s];
      HeapIndicesPush(v[1..], s);
    }
  }

  function Without<T>(s: seq<T>, i: int): (r: seq<T>)
    requires 0 <= i < |s|
    ensures |r| == |s| - 1
  {
    s[..i] + s[i + 1..]
  }

  lemma WithoutRest<T>(s: seq<T>, i: int)
    requires 0 < i < |s|
    ensures Without(s, i)[0] == s[0] && Without(s, i)[1..] == Without(s[1..], i - 1)
  {
  }

  lemma {:induction false} HeapIndicesSplit(v: seq<seq<PSet>>, i: int)
    requires 0 <= i < |v|
    ensures HeapIndices(v) == Indices(v[i]) + HeapIndices(Without(v, i))
  {
    if i == 0 {
      assert Without(v, 0) == v[1..];
    } else {
      HeapIndicesSplit(v[1..], i - 1);
      WithoutRest(v, i);
    }
  }

  ghost predicate NonEmptyStates(views: seq<seq<PSet>>) {
    forall j | 0 <= j < |views| :: |views[j]| > 0
  }

  /** One round on the states' values: a leading state, then a leading one of the rest, are taken
      out and their merge is put back. */
  ghost predicate Round(v: seq<seq<PSet>>, i: int, j: int, w: seq<seq<PSet>>) {
    Leads(v, i) && Leads(Without(v, i), j) && |v[i]| == |Without(v, i)[j]| &&
    w == Without(Without(v, i), j) + [PartitionModel.Merge(v[i], Without(v, i)[j])]
  }

  /** Rounds from the given states end in `final`. */
  ghost predicate Reaches(v: seq<seq<PSet>>, final: seq<PSet>)
    decreases |v|
  {
    if |v| <= 1 then v == [final]
    else exists i, j, w: seq<seq<PSet>> :: Round(v, i, j, w) && |w| < |v| && Reaches(w, final)
  }

  lemma RoundReaches(v: seq<seq<PSet>>, i: int, j: int, w: seq<seq<PSet>>, final: seq<PSet>)
    requires |v| > 1 && Round(v, i, j, w) && Reaches(w, final)
    ensures Reaches(v, final)
  {
    assert |w| < |v|;
  }

  lemma WithoutAt(v: seq<seq<PSet>>, i: int, j: int)
    requires 0 <= i < |v| && 0 <= j < |v| - 1
    ensures Without(v, i)[j] == v[if j < i then j else j + 1]
  {
  }

  lemma GoodWithout(v: seq<seq<PSet>>, i: int, lens: seq<nat>, k: int, bound: int, equal: bool)
    requires 0 <= i < |v| && AllGood(v, lens, k, bound, equal)
    ensures AllGood(Without(v, i), lens, k, bound, equal) && GoodAt(v, i, lens, k, bound, equal)
  {
    var rest := Without(v, i);
    forall j ensures GoodAt(rest, j, lens, k, bound, equal) {
      if 0 <= j < |rest| {
        WithoutAt(v, i, j);
        assert GoodAt(v, if j < i then j else j + 1, lens, k, bound, equal);
      }
    }
  }

  lemma GoodPush(v: seq<seq<PSet>>, s: seq<PSet>, lens: seq<nat>, k: int, bound: int, equal: bool)
    requires AllGood(v, lens, k, bound, equal) && Good(s, lens, k, bound, equal)
    ensures AllGood(v + [s], lens, k, bound, equal)
    ensures HeapIndices(v + [s]) == HeapIndices(v) + Indices(s)
  {
    HeapIndicesPush(v, s);
    var w := v + [s];
    forall j ensures GoodAt(w, j, lens, k, bound, equal) {
      assert GoodAt(v, j, lens, k, bound, equal);
    }
  }

  /** Every round keeps all states good and the indices they hold together. */
  lemma RoundKeeps(v: seq<seq<PSet>>, i: int, j: int, w: seq<seq<PSet>>,
                   lens: seq<nat>, k: int, bound: int, equal: bool)
    requires Round(v, i, j, w) && AllGood(v, lens, k, bound, equal)
    ensures AllGood(w, lens, k, bound, equal) && HeapIndices(w) == HeapIndices(v)
  {
    var rest := Without(v, i);
    GoodWithout(v, i, lens, k, bound, equal);
    GoodWithout(rest, j, lens, k, bound, equal);
    HeapIndicesSplit(v, i);
    HeapIndicesSplit(rest, j);
    MergeGood(v[i], rest[j], lens, k, bound, equal);
    GoodPush(Without(rest, j), PartitionModel.Merge(v[i], rest[j]), lens, k, bound, equal);
  }

  // ---------- the heap of State objects ----------

  /** The states of the heap share no object. */
  ghost predicate Separate(pq: seq<State>) {
    forall i, j | 0 <= i < j < |pq| :: pq[i] != pq[j] && pq[i].repr !! pq[j].repr
  }

  ghost function Footprint(pq: seq<State>): set<object> {
    (set x | x in pq :: x as object) + (set x, s | x in pq && s in x.repr :: s as object)
  }

  /** The heap's states are valid k-way states with the given values. */
  ghost predicate Shows(pq: seq<State>, k: int, views: seq<seq<PSet>>)
    reads Footprint(pq)
  {
    |pq| == |views| &&
    forall i | 0 <= i < |pq| ::
      assert pq[i] in pq; assert forall s | s in pq[i].repr :: s as object in Footprint(pq);
      pq[i].Valid() && pq[i].k == k && pq[i].View() == views[i]
  }

  /** `heapq.heappop`: the position of a least state; which of several equal ones is left open. */
  method HeapPop(pq: seq<State>, ghost k: int, ghost views: seq<seq<PSet>>) returns (i: int)
    requires |pq| > 0 && k >= 1 && Shows(pq, k, views)
    ensures 0 <= i < |pq| && Leads(views, i)
  {
    var current: seq<seq<PSet>> := [];
    for x := 0 to |pq|
      invariant current == views[..x]
    {
      current := current + [pq[x].View()];
    }
    assert current == views;
    ghost var least := LeastExists(current);
    i :| 0 <= i < |pq| && IsLeast(current, i);
    LeastLeads(views, i);
  }

  lemma WithoutShows(pq: seq<State>, i: int, k: int, views: seq<seq<PSet>>)
    requires 0 <= i < |pq| && Shows(pq, k, views)
    ensures Shows(Without(pq, i), k, Without(views, i))
  {
  }

  /** `state0.merge(state1)` leaves every other state of the heap as it was. */
  method MergeInto(state0: State, state1: State, rest: seq<State>, ghost k: int, ghost views: seq<seq<PSet>>)
    requires state0.Valid() && state1.Valid() && state0.k == state1.k == k
    requires state0 != state1 && state0.repr !! state1.repr
    requires Shows(rest, k, views) && forall x | x in rest :: x != state0 && x.repr !! state0.repr
    modifies state0, state0.repr
    ensures Shows(rest, k, views) && state0.Valid()
    ensures state0.View() == PartitionModel.Merge(old(state0.View()), old(state1.View()))
  {
    assert forall i | 0 <= i < |rest| :: rest[i] in rest;
    state0.Merge(state1);
  }

  /** `heapq.heappush`. */
  lemma PushShows(pq: seq<State>, s: State, k: int, views: seq<seq<PSet>>)
    requires Shows(pq, k, views) && Separate(pq) && s.Valid() && s.k == k
    requires forall x | x in pq :: x != s && x.repr !! s.repr
    ensures Shows(pq + [s], k, views + [s.View()]) && Separate(pq + [s])
  {
  }

  /** The second state taken out, and the rest, in terms of the first heap. */
  lemma TwoShown(pq: seq<State>, i: int, j: int, k: int, views: seq<seq<PSet>>)
    requires Shows(pq, k, views) && 0 <= i < |pq| && 0 <= j < |pq| - 1
    ensures pq[i].Valid() && pq[i].k == k && pq[i].View() == views[i]
    ensures var s := Without(pq, i)[j]; s.Valid() && s.k == k && s.View() == Without(views, i)[j]
    ensures Shows(Without(Without(pq, i), j), k, Without(Without(views, i), j))
  {
  }

  lemma WithoutSeparate(pq: seq<State>, i: int)
    requires Separate(pq) && 0 <= i < |pq|
    ensures Separate(Without(pq, i))
    ensures forall x | x in Without(pq, i) :: x in pq && x != pq[i] && x.repr !! pq[i].repr
  {
    var rest := Without(pq, i);
    forall x | x in rest ensures x in pq && x != pq[i] && x.repr !! pq[i].repr {
      var m :| 0 <= m < |rest| && rest[m] == x;
      assert x == pq[if m < i then m else m + 1];
    }
  }

  lemma TwoSeparate(pq: seq<State>, i: int, j: int)
    requires Separate(pq) && 0 <= i < |pq| && 0 <= j < |pq| - 1
    ensures var s, t, rest := pq[i], Without(pq, i)[j], Without(Without(pq, i), j);
      s in pq && t in pq && s != t && s.repr !! t.repr && Separate(rest) &&
      forall x | x in rest :: x in pq && x != s && x.repr !! s.repr
  {
    WithoutSeparate(pq, i);
    WithoutSeparate(Without(pq, i), j);
    assert Without(pq, i)[j] in Without(pq, i);
  }

  /** Pops two states, the second with the first already removed. */
  method PopTwo(pq: seq<State>, ghost k: int, ghost views: seq<seq<PSet>>)
    returns (state0: State, state1: State, rest: seq<State>, ghost i: int, ghost j: int)
    requires |pq| > 1 && k >= 1 && Separate(pq) && Shows(pq, k, views)
    ensures state0 in pq && state1 in pq && (forall x | x in rest :: x in pq)
    ensures state0.Valid() && state1.Valid() && state0.k == state1.k == k
    ensures state0 != state1 && state0.repr !! state1.repr
    ensures Separate(rest) && forall x | x in rest :: x != state0 && x.repr !! state0.repr
    ensures Leads(views, i) && state0.View() == views[i]
    ensures Leads(Without(views, i), j) && state1.View() == Without(views, i)[j]
    ensures Shows(rest, k, Without(Without(views, i), j))
  {
    var first := HeapPop(pq, k, views);
    var rest0 := Without(pq, first);
    WithoutShows(pq, first, k, views);
    var second := HeapPop(rest0, k, Without(views, first));
    state0, state1, rest := pq[first], rest0[second], Without(rest0, second);
    i, j := first, second;
    TwoShown(pq, i, j, k, views);
    TwoSeparate(pq, i, j);
  }

  lemma FootprintWithin(pq: seq<State>, r: seq<State>)
    requires forall x | x in r :: x in pq
    ensures Footprint(r) <= Footprint(pq)
  {
  }

  method MergeLeastTwo(pq: seq<State>, ghost k: int, ghost views: seq<seq<PSet>>)
    returns (r: seq<State>, ghost views': seq<seq<PSet>>, ghost i: int, ghost j: int)
    requires |pq| > 1 && k >= 1 && Separate(pq) && Shows(pq, k, views)
    modifies Footprint(pq)
    ensures Separate(r) && Shows(r, k, views') && Footprint(r) <= Footprint(pq)
    ensures Round(views, i, j, views')
  {
    var state0, state1, rest;
    state0, state1, rest, i, j := PopTwo(pq, k, views);
    ghost var left := Without(Without(views, i), j);
    MergeInto(state0, state1, rest, k, left);
    PushShows(rest, state0, k, left);
    r, views' := rest + [state0], left + [state0.View()];
    FootprintWithin(pq, r);
  }

  /** What rounds reach from `current` they reach from `views`. */
  ghost predicate Onward(views: seq<seq<PSet>>, current: seq<seq<PSet>>) {
    forall final | Reaches(current, final) :: Reaches(views, final)
  }

  lemma OnwardNext(views: seq<seq<PSet>>, current: seq<seq<PSet>>, i: int, j: int, next: seq<seq<PSet>>)
    requires Onward(views, current) && |current| > 1 && Round(current, i, j, next)
    ensures Onward(views, next)
  {
    forall final | Reaches(next, final) ensures Reaches(views, final) {
      RoundReaches(current, i, j, next, final);
    }
  }

  /** Rounds until one state is left. */
  method MergeAll(pq: seq<State>, ghost k: int, ghost views: seq<seq<PSet>>,
                  ghost lens: seq<nat>, ghost bound: int, ghost equal: bool)
    returns (final: State)
    requires |pq| >= 1 && k >= 1 && Separate(pq) && Shows(pq, k, views) && AllGood(views, lens, k, bound, equal)
    modifies Footprint(pq)
    ensures final.Valid() && final.k == k && Good(final.View(), lens, k, bound, equal)
    ensures Indices(final.View()) == HeapIndices(views)
    ensures Reaches(views, final.View())
  {
    var heap := pq;
    ghost var current := views;
    while |heap| > 1
      invariant |heap| >= 1 && Separate(heap) && Shows(heap, k, current) && Footprint(heap) <= Footprint(pq)
      invariant AllGood(current, lens, k, bound, equal) && HeapIndices(current) == HeapIndices(views)
      invariant Onward(views, current)
      decreases |heap|
    {
      ghost var next: seq<seq<PSet>>, i: int, j: int;
      heap, next, i, j := MergeLeastTwo(heap, k, current);
      RoundKeeps(current, i, j, next, lens, k, bound, equal);
      OnwardNext(views, current, i, j, next);
      current := next;
    }
    final := heap[0];
    assert GoodAt(current, 0, lens, k, bound, equal);
    assert current == [current[0]];
    assert Reaches(current, current[0]);
  }

  /** A state of one item, or of a block of k ascending lengths, is good. */
  lemma ItemsGood(lens: seq<nat>, k: int, equal: bool, offset: nat, size: nat, items: seq<(int, int)>)
    requires k >= 1 && offset + size <= |lens| && size == (if equal then k else 1) && Whole(offset, size)
    requires |SortedLengths(lens)| == |lens| && items == Swap(SortedLengths(lens))[offset..offset + size]
    ensures Good(SortDesc(Deal(items, k)), lens, k, SpreadBound(lens, k, equal), equal)
    ensures Indices(SortDesc(Deal(items, k))) == multiset(Ids(items))
  {
    if equal { BlockItemsGood(lens, k, offset, items); } else { SingleItemGood(lens, k, offset, items); }
  }

  lemma BlockLengths(lens: seq<nat>, k: int, offset: nat, items: seq<(int, int)>)
    requires k >= 1 && offset + k <= |lens| && Whole(offset, k)
    requires |SortedLengths(lens)| == |lens| && items == Swap(SortedLengths(lens))[offset..offset + k]
    ensures OwnLength(items, lens) && forall i | 0 <= i < k :: items[0].1 <= items[i].1 <= items[k - 1].1
    ensures items[k - 1].1 - items[0].1 <= SpreadBound(lens, k, true)
  {
    var s := SortedLengths(lens);
    SortedLengthsFacts(lens);
    WidestBlockBounds(s, k, offset);
    OwnPart(Swap(s), offset, offset + k, lens);
    BlockItem(s, k, offset, items, 0);
    BlockItem(s, k, offset, items, k - 1);
    forall i | 0 <= i < k ensures items[0].1 <= items[i].1 <= items[k - 1].1 {
      BlockItem(s, k, offset, items, i);
    }
  }

  lemma BlockItem(s: seq<(int, int)>, k: int, offset: nat, items: seq<(int, int)>, i: int)
    requires Ascending(s) && 0 <= i < k && offset + k <= |s| && items == Swap(s)[offset..offset + k]
    ensures items[i].1 == s[offset + i].0 && s[offset].0 <= items[i].1 <= s[offset + k - 1].0
  {
  }

  lemma OwnPart(items: seq<(int, int)>, lo: nat, hi: nat, lens: seq<nat>)
    requires OwnLength(items, lens) && lo <= hi <= |items|
    ensures OwnLength(items[lo..hi], lens)
  {
  }

  lemma BlockItemsGood(lens: seq<nat>, k: int, offset: nat, items: seq<(int, int)>)
    requires k >= 1 && offset + k <= |lens| && Whole(offset, k)
    requires |SortedLengths(lens)| == |lens| && items == Swap(SortedLengths(lens))[offset..offset + k]
    ensures Good(SortDesc(Deal(items, k)), lens, k, SpreadBound(lens, k, true), true)
    ensures Indices(SortDesc(Deal(items, k))) == multiset(Ids(items))
  {
    BlockLengths(lens, k, offset, items);
    BlockGood(items, k, lens, SpreadBound(lens, k, true));
  }

  lemma SingleItemGood(lens: seq<nat>, k: int, offset: nat, items: seq<(int, int)>)
    requires k >= 1 && offset < |lens|
    requires |SortedLengths(lens)| == |lens| && items == Swap(SortedLengths(lens))[offset..offset + 1]
    ensures Good(SortDesc(Deal(items, k)), lens, k, SpreadBound(lens, k, false), false)
    ensures Indices(SortDesc(Deal(items, k))) == multiset(Ids(items))
  {
    SortedLengthsFacts(lens);
    var item := Swap(SortedLengths(lens))[offset];
    assert items == [item] && item in Swap(SortedLengths(lens));
    MaxLengthBounds(lens, item.0);
    SingleGood(items, k, lens, MaxLength(lens));
  }

  /** The (index, length) items of one initial state. */
  method TakeItems(sorted: seq<(int, int)>, offset: nat, size: nat) returns (items: seq<(int, int)>)
    requires offset + size <= |sorted|
    ensures items == Swap(sorted)[offset..offset + size]
  {
    items := [];
    for i := 0 to size
      invariant items == Swap(sorted)[offset..offset + i]
    {
      items := items + [(sorted[offset + i].1, sorted[offset + i].0)];
    }
  }

  lemma {:induction false} DivisibleIsWhole(n: nat, step: nat)
    requires step >= 1 && n % step == 0
    ensures Whole(n, step)
  {
    if n == 0 {
    } else {
      var q := n / step;
      assert n == step * q && q >= 1;
      assert n - step == step * (q - 1);
      MultipleDivides(q - 1, step);
      DivisibleIsWhole(n - step, step);
    }
  }

  lemma {:induction false} OnesAreWhole(n: nat)
    ensures Whole(n, 1)
  {
    if n == 0 {
    } else {
      OnesAreWhole(n - 1);
    }
  }

  lemma {:induction false} WholeFits(offset: nat, n: nat, step: nat)
    requires step >= 1 && Whole(offset, step) && Whole(n, step) && offset < n
    ensures offset + step <= n && Whole(offset + step, step)
    decreases n
  {
    if offset == 0 {
    } else {
      WholeFits(offset - step, n - step, step);
    }
  }

  lemma PrefixIds(all: seq<(int, int)>, offset: nat, size: nat)
    requires offset + size <= |all|
    ensures multiset(Ids(all[..offset + size])) ==
      multiset(Ids(all[..offset])) + multiset(Ids(all[offset..offset + size]))
  {
    assert all[..offset + size] == all[..offset] + all[offset..offset + size];
    IdsAppend(all[..offset], all[offset..offset + size]);
  }

  /** Builds the initial state of one block of items and pushes it. */
  method AddBlock(pq: seq<State>, sorted: seq<(int, int)>, k: int, offset: nat, size: nat, ghost views: seq<seq<PSet>>)
    returns (r: seq<State>, ghost views': seq<seq<PSet>>)
    requires k >= 1 && (size == 1 || size == k) && offset + size <= |sorted| && Separate(pq) && Shows(pq, k, views)
    requires Initial(views, sorted, k, size, offset)
    ensures r != [] && Separate(r) && fresh(Footprint(r) - Footprint(pq)) && Shows(r, k, views')
    ensures Initial(views', sorted, k, size, offset + size)
  {
    var items := TakeItems(sorted, offset, size);
    var state := new State(items, k);
    PushShows(pq, state, k, views);
    r, views' := pq + [state], views + [state.View()];
    InitialStatesNext(Swap(sorted), k, size, offset);
  }

  /** The initial states: one per block of `size` consecutive items. */
  ghost function InitialStates(items: seq<(int, int)>, k: int, size: nat, offset: nat): seq<seq<PSet>>
    requires 1 <= size <= k && offset <= |items|
    decreases offset
  {
    if offset < size then []
    else InitialStates(items, k, size, offset - size) + [SortDesc(Deal(items[offset - size..offset], k))]
  }

  /** The states built from the first `offset` pairs of the sorted list. */
  ghost predicate Initial(views: seq<seq<PSet>>, sorted: seq<(int, int)>, k: int, size: nat, offset: int) {
    1 <= size <= k && 0 <= offset <= |sorted| && views == InitialStates(Swap(sorted), k, size, offset)
  }

  lemma InitialStatesNext(items: seq<(int, int)>, k: int, size: nat, offset: nat)
    requires 1 <= size <= k && offset + size <= |items|
    ensures InitialStates(items, k, size, offset + size) ==
      InitialStates(items, k, size, offset) + [SortDesc(Deal(items[offset..offset + size], k))]
  {
  }

  /** Good states over exactly the items before `offset`. */
  ghost predicate Seeded(v: seq<seq<PSet>>, lens: seq<nat>, k: int, equal: bool, offset: nat)
    requires k >= 1
  {
    offset <= |SortedLengths(lens)| && AllGood(v, lens, k, SpreadBound(lens, k, equal), equal) &&
    HeapIndices(v) == multiset(Ids(Swap(SortedLengths(lens))[..offset]))
  }

  lemma SeedNext(v: seq<seq<PSet>>, lens: seq<nat>, k: int, equal: bool, offset: nat, size: nat, items: seq<(int, int)>)
    requires k >= 1 && offset + size <= |lens| && size == (if equal then k else 1) && Whole(offset, size)
    requires |SortedLengths(lens)| == |lens| && items == Swap(SortedLengths(lens))[offset..offset + size]
    requires Seeded(v, lens, k, equal, offset)
    ensures Seeded(v + [SortDesc(Deal(items, k))], lens, k, equal, offset + size)
  {
    ItemsGood(lens, k, equal, offset, size, items);
    GoodPush(v, SortDesc(Deal(items, k)), lens, k, SpreadBound(lens, k, equal), equal);
    PrefixIds(Swap(SortedLengths(lens)), offset, size);
  }

  /** v is the list of states built from the first `offset` items, and it is seeded. */
  ghost predicate SeededBy(v: seq<seq<PSet>>, lens: seq<nat>, k: int, equal: bool, size: nat, offset: nat) {
    k >= 1 && size == (if equal then k else 1) && |SortedLengths(lens)| == |lens| &&
    Initial(v, SortedLengths(lens), k, size, offset) && Seeded(v, lens, k, equal, offset)
  }

  lemma SeededByNext(v: seq<seq<PSet>>, lens: seq<nat>, k: int, equal: bool, size: nat, before: nat, offset: nat)
    returns (w: seq<seq<PSet>>)
    requires SeededBy(v, lens, k, equal, size, before) && offset == before + size <= |lens| && Whole(before, size)
    ensures SeededBy(w, lens, k, equal, size, offset)
  {
    var sorted := SortedLengths(lens);
    var state := StateOfBlock(sorted, k, before, offset);
    w := v + [state];
    SeedNextBlock(v, lens, k, equal, before, offset, size);
    InitialNext(v, sorted, k, size, before, offset);
  }

  ghost function StateOfBlock(sorted: seq<(int, int)>, k: int, before: nat, offset: nat): seq<PSet>
    requires before <= offset <= |sorted| && offset - before <= k
  {
    SortDesc(Deal(Swap(sorted)[before..offset], k))
  }

  lemma SeedNextBlock(v: seq<seq<PSet>>, lens: seq<nat>, k: int, equal: bool, before: nat, offset: nat, size: nat)
    requires k >= 1 && offset == before + size <= |lens| == |SortedLengths(lens)| &&
      size == (if equal then k else 1) && Whole(before, size)
    requires Seeded(v, lens, k, equal, before)
    ensures Seeded(v + [StateOfBlock(SortedLengths(lens), k, before, offset)], lens, k, equal, offset)
  {
    SeedNext(v, lens, k, equal, before, size, Swap(SortedLengths(lens))[before..offset]);
  }

  lemma InitialNext(v: seq<seq<PSet>>, sorted: seq<(int, int)>, k: int, size: nat, before: nat, offset: nat)
    requires Initial(v, sorted, k, size, before) && offset == before + size <= |sorted|
    ensures Initial(v + [StateOfBlock(sorted, k, before, offset)], sorted, k, size, offset)
  {
    InitialStatesNext(Swap(sorted), k, size, before);
  }

  lemma SeededByStart(lens: seq<nat>, k: int, equal: bool, size: nat)
    requires k >= 1 && size == (if equal then k else 1)
    ensures SeededBy([], lens, k, equal, size, 0)
  {
    SortedLengthsFacts(lens);
  }

  /** The states built from the first `offset` items are good and hold exactly those items. */
  lemma {:induction false} InitialStatesGood(lens: seq<nat>, k: int, equal: bool, size: nat, offset: nat)
    returns (v: seq<seq<PSet>>)
    requires k >= 1 && size == (if equal then k else 1) && offset <= |lens| && Whole(offset, size)
    ensures SeededBy(v, lens, k, equal, size, offset)
    decreases offset
  {
    if offset == 0 {
      v := [];
      SeededByStart(lens, k, equal, size);
    } else {
      var before := WholeBefore(offset, size);
      var u := InitialStatesGood(lens, k, equal, size, before);
      v := SeededByNext(u, lens, k, equal, size, before, offset);
    }
  }

  lemma WholeBefore(offset: nat, size: nat) returns (before: nat)
    requires size >= 1 && Whole(offset, size) && offset > 0
    ensures before < offset && offset == before + size && Whole(before, size)
  {
    before := offset - size;
  }

  /** Pushes the initial states in ascending order of length. */
  method InitialHeap(sorted: seq<(int, int)>, k: int, size: nat) returns (pq: seq<State>, ghost views: seq<seq<PSet>>)
    requires 1 <= k && (size == 1 || size == k) && Whole(|sorted|, size)
    ensures Separate(pq) && fresh(Footprint(pq)) && Shows(pq, k, views)
    ensures Initial(views, sorted, k, size, |sorted|)
    ensures sorted != [] ==> pq != []
  {
    var offset := 0;
    pq, views := [], [];
    while offset < |sorted|
      invariant 0 <= offset <= |sorted| && Whole(offset, size) && (offset > 0 ==> pq != [])
      invariant Separate(pq) && fresh(Footprint(pq)) && Shows(pq, k, views)
      invariant Initial(views, sorted, k, size, offset)
    {
      WholeFits(offset, |sorted|, size);
      pq, views := AddBlock(pq, sorted, k, offset, size, views);
      offset := offset + size;
    }
  }

  method KarmarkarKarp(seqlens: seq<nat>, k: int, equalSize: bool) returns (partitions: seq<seq<int>>)
    requires k >= 1 && seqlens != [] && (equalSize ==> |seqlens| % k == 0)
    ensures |partitions| == k && Covers(partitions, |seqlens|)
    ensures Balanced(partitions, seqlens, SpreadBound(seqlens, k, equalSize))
    ensures forall p | 0 <= p < k :: partitions[p] != [] <==> p < Min(k, |seqlens|)
    ensures equalSize ==> forall p | 0 <= p < k :: |partitions[p]| * k == |seqlens|
    ensures Differenced(seqlens, k, equalSize, partitions)
  {
    var sorted := SortedLengths(seqlens);
    SortedLengthsFacts(seqlens);
    var size := if equalSize then k else 1;
    if equalSize { DivisibleIsWhole(|sorted|, k); } else { OnesAreWhole(|sorted|); }
    var pq; ghost var views;
    pq, views := InitialHeap(sorted, k, size);
    ghost var bound := SpreadBound(seqlens, k, equalSize);
    ghost var seeded := InitialStatesGood(seqlens, k, equalSize, size, |sorted|);
    assert views == seeded;
    assert Swap(sorted)[..|sorted|] == Swap(sorted);
    var final := MergeAll(pq, k, views, seqlens, bound, equalSize);
    ghost var s := final.View();
    partitions := PartitionsOf(final.View());
    FinalPartitions(s, seqlens, k, bound, equalSize);
    assert DifferencedTo(seqlens, k, equalSize, views, s);
  }

  /** The states start from single rows, or from blocks of k rows, in ascending order. */
  ghost predicate DifferencedTo(lens: seq<nat>, k: int, equal: bool, views: seq<seq<PSet>>, final: seq<PSet>) {
    k >= 1 && SeededBy(views, lens, k, equal, if equal then k else 1, |lens|) && Reaches(views, final)
  }

  /** The partitions come from largest-first differencing of the initial states. */
  ghost predicate Differenced(lens: seq<nat>, k: int, equal: bool, partitions: seq<seq<int>>) {
    exists views, final :: DifferencedTo(lens, k, equal, views, final) && partitions == PartitionsOf(final)
  }

  /** What a good state over all indices means for the caller. */
  lemma FinalPartitions(s: seq<PSet>, lens: seq<nat>, k: int, bound: int, equal: bool)
    requires Good(s, lens, k, bound, equal) && Indices(s) == multiset(Range(|lens|))
    ensures Covers(PartitionsOf(s), |lens|) && Balanced(PartitionsOf(s), lens, bound)
    ensures forall p | 0 <= p < k :: PartitionsOf(s)[p] != [] <==> p < Min(k, |lens|)
    ensures equal ==> forall p | 0 <= p < k :: |PartitionsOf(s)[p]| * k == |lens|
  {
    GoodIsBalanced(s, lens, k, bound, equal);
    FlatIndices(s);
    assert |multiset(Range(|lens|))| == |lens|;
    if equal {
      EqualSizes(s, |lens|);
      var c := |s[0].items|;
      assert c * k == k * c;
      forall p | 0 <= p < k ensures |PartitionsOf(s)[p]| * k == |lens| { assert |PartitionsOf(s)[p]| == c; }
    }
  }
}
