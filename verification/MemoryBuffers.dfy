/** The flat weight buffers (verl/utils/memory_buffer.py): one array per dtype, parameters placed
    at aligned offsets, weights copied in place. */
module MemoryBuffers {
  import opened Common

  datatype DType = Float8 | Float16 | BFloat16 | Float32 | Float64

  function Bits(d: DType): (b: nat)
    ensures 1 <= b <= 128 && 128 % b == 0
  {
    match d
    case Float8 => 8
    case Float16 => 16
    case BFloat16 => 16
    case Float32 => 32
    case Float64 => 64
  }

  function Align(d: DType): (a: nat)
    ensures a >= 1 && a * Bits(d) == 128
  {
    128 / Bits(d)
  }

  /** `calc_padded_numel`. */
  function PaddedNumel(numel: nat, d: DType): (p: nat)
    ensures p >= numel
  {
    PaddedUp(numel, Align(d));
    (numel + Align(d) - 1) / Align(d) * Align(d)
  }

  lemma PaddedUp(numel: nat, a: nat)
    requires a >= 1
    ensures var p := (numel + a - 1) / a * a; numel <= p < numel + a && p % a == 0
  {
    var q, r := (numel + a - 1) / a, (numel + a - 1) % a;
    assert numel + a - 1 == a * q + r;
    MultipleDivides(q, a);
  }

  /** The padded size is the least multiple of the 128-bit alignment that holds the elements. */
  lemma PaddedIsLeastAligned(numel: nat, d: DType)
    ensures PaddedNumel(numel, d) % Align(d) == 0
    ensures numel <= PaddedNumel(numel, d) < numel + Align(d)
  {
    PaddedUp(numel, Align(d));
  }

  datatype Meta = Meta(numel: nat, dtype: DType)

  /** Elements of dtype d taken by the first i entries. */
  function Used(metas: seq<Meta>, i: nat, d: DType): nat
    requires i <= |metas|
  {
    if i == 0 then 0
    else Used(metas, i - 1, d) + (if metas[i - 1].dtype == d then PaddedNumel(metas[i - 1].numel, d) else 0)
  }

  /** Where entry i starts in the array of its dtype. */
  function Offset(metas: seq<Meta>, i: nat): nat
    requires i < |metas|
  {
    Used(metas, i, metas[i].dtype)
  }

  lemma {:induction false} UsedMonotone(metas: seq<Meta>, i: nat, j: nat, d: DType)
    requires i <= j <= |metas|
    ensures Used(metas, i, d) <= Used(metas, j, d)
    decreases j - i
  {
    if i == j {
    } else {
      UsedMonotone(metas, i, j - 1, d);
    }
  }

  lemma {:induction false} UsedAligned(metas: seq<Meta>, i: nat, d: DType)
    requires i <= |metas|
    ensures Used(metas, i, d) % Align(d) == 0
  {
    if i == 0 {
    } else {
      UsedAligned(metas, i - 1, d);
      if metas[i - 1].dtype == d {
        PaddedIsLeastAligned(metas[i - 1].numel, d);
        SumAligned(Used(metas, i - 1, d), PaddedNumel(metas[i - 1].numel, d), Align(d));
      }
    }
  }

  lemma SumAligned(x: nat, y: nat, a: nat)
    requires a >= 1 && x % a == 0 && y % a == 0
    ensures (x + y) % a == 0
  {
    var p, q := x / a, y / a;
    assert x == p * a && y == q * a;
    assert x + y == (p + q) * a;
    MultipleDivides(p + q, a);
  }

  /** Regions of one dtype start aligned, lie inside the array, and never overlap. */
  lemma RegionsDisjointAligned(metas: seq<Meta>, i: nat, j: nat)
    requires i < j < |metas| && metas[i].dtype == metas[j].dtype
    ensures Offset(metas, i) + metas[i].numel <= Offset(metas, j)
    ensures Offset(metas, i) % Align(metas[i].dtype) == 0 && Offset(metas, j) % Align(metas[j].dtype) == 0
    ensures Offset(metas, j) + metas[j].numel <= Used(metas, |metas|, metas[j].dtype)
  {
    var d := metas[i].dtype;
    UsedMonotone(metas, i + 1, j, d);
    UsedMonotone(metas, j + 1, |metas|, d);
    UsedAligned(metas, i, d);
    UsedAligned(metas, j, d);
  }

  /** No entry of the dtype lies between the positions. */
  ghost predicate NoneBetween(metas: seq<Meta>, i: int, j: int, d: DType) {
    forall x | i < x < j && 0 <= x < |metas| :: metas[x].dtype != d
  }

  lemma {:induction false} UsedOver(metas: seq<Meta>, i: nat, j: nat, d: DType)
    requires i <= j <= |metas| && NoneBetween(metas, i - 1, j, d)
    ensures Used(metas, j, d) == Used(metas, i, d)
    decreases j - i
  {
    if i == j {
    } else {
      UsedOver(metas, i, j - 1, d);
    }
  }

  /** Regions of one dtype are packed: the first starts at 0, each next one where the padding of the
      one before ends, and the buffer ends with the last. */
  lemma RegionsPacked(metas: seq<Meta>, i: nat, j: nat)
    requires i < |metas|
    ensures NoneBetween(metas, -1, i, metas[i].dtype) ==> Offset(metas, i) == 0
    ensures i < j < |metas| && metas[j].dtype == metas[i].dtype && NoneBetween(metas, i, j, metas[i].dtype) ==>
      Offset(metas, j) == Offset(metas, i) + PaddedNumel(metas[i].numel, metas[i].dtype)
    ensures NoneBetween(metas, i, |metas|, metas[i].dtype) ==>
      Used(metas, |metas|, metas[i].dtype) == Offset(metas, i) + PaddedNumel(metas[i].numel, metas[i].dtype)
  {
    var d := metas[i].dtype;
    if NoneBetween(metas, -1, i, d) { UsedOver(metas, 0, i, d); }
    if i < j < |metas| && NoneBetween(metas, i, j, d) { UsedOver(metas, i + 1, j, d); }
    if NoneBetween(metas, i, |metas|, d) { UsedOver(metas, i + 1, |metas|, d); }
  }

  lemma RegionInside(metas: seq<Meta>, i: nat)
    requires i < |metas|
    ensures Offset(metas, i) + metas[i].numel <= Used(metas, |metas|, metas[i].dtype)
  {
    UsedMonotone(metas, i + 1, |metas|, metas[i].dtype);
  }

  // ---------- the buffers ----------

  class MemoryBuffer {
    const numel: nat
    const dtype: DType
    const data: array<int>

    ghost predicate Valid() { data.Length == numel }

    constructor (numel: nat, dtype: DType)
      ensures Valid() && this.numel == numel && this.dtype == dtype && fresh(data)
      ensures forall i | 0 <= i < numel :: data[i] == 0
    {
      this.numel, this.dtype := numel, dtype;
      data := new int[numel](_ => 0);
    }

    /** A view of `count` elements from `start`; the range assert is the precondition. */
    method Get(count: nat, start: nat) returns (view: View)
      requires Valid() && start + count <= numel
      ensures view == View(data, start, count)
    {
      view := View(data, start, count);
    }
  }

  datatype View = View(storage: array<int>, start: nat, numel: nat) {
    ghost predicate Valid() { start + numel <= storage.Length }

    ghost function Values(): seq<int>
      requires Valid()
      reads storage
    {
      storage[start..start + numel]
    }
  }

  type Buffers = map<DType, MemoryBuffer>

  ghost function Arrays(buffers: Buffers): set<array<int>> {
    set d | d in buffers :: buffers[d].data
  }

  /** One valid buffer per dtype in use, of exactly the padded total, each with its own array. */
  ghost predicate BuiltFor(buffers: Buffers, metas: seq<Meta>) {
    (forall i | 0 <= i < |metas| :: metas[i].dtype in buffers) &&
    (forall d | d in buffers :: buffers[d].Valid() && buffers[d].numel == Used(metas, |metas|, d)) &&
    (forall d, e | d in buffers && e in buffers && d != e :: buffers[d].data != buffers[e].data)
  }

  /** `build_memory_buffer`. */
  method BuildMemoryBuffer(metas: seq<Meta>) returns (buffers: Buffers)
    ensures BuiltFor(buffers, metas) && fresh(Arrays(buffers))
    ensures buffers.Keys == set i | 0 <= i < |metas| :: metas[i].dtype
    ensures forall d | d in buffers :: buffers[d].dtype == d && forall x | 0 <= x < buffers[d].numel ::
      buffers[d].data[x] == 0
  {
    var totals: map<DType, nat> := map[];
    for i := 0 to |metas|
      invariant totals.Keys == set j | 0 <= j < i :: metas[j].dtype
      invariant forall d ::
        (d in totals ==> totals[d] == Used(metas, i, d)) && (d !in totals ==> Used(metas, i, d) == 0)
    {
      var m := metas[i];
      if m.dtype !in totals { totals := totals[m.dtype := 0]; }
      totals := totals[m.dtype := totals[m.dtype] + PaddedNumel(m.numel, m.dtype)];
    }
    buffers := map[];
    var pending := totals.Keys;
    while pending != {}
      invariant pending <= totals.Keys && buffers.Keys == totals.Keys - pending
      invariant forall d | d in buffers :: buffers[d].Valid() && buffers[d].numel == totals[d] && fresh(buffers[d].data)
      invariant forall d | d in buffers :: buffers[d].dtype == d && forall x | 0 <= x < buffers[d].numel ::
        buffers[d].data[x] == 0
      invariant forall d, e | d in buffers && e in buffers && d != e :: buffers[d].data != buffers[e].data
    {
      var d :| d in pending;
      pending := pending - {d};
      var b := new MemoryBuffer(totals[d], d);
      buffers := buffers[d := b];
    }
  }

  // ---------- references into the buffers ----------

  /** Entry i's view: its own region of the array of its dtype. */
  ghost predicate PlacedAt(view: View, buffers: Buffers, metas: seq<Meta>, i: nat)
    requires i < |metas|
  {
    metas[i].dtype in buffers && view == View(buffers[metas[i].dtype].data, Offset(metas, i), metas[i].numel)
  }

  /** The running start of every dtype, after i entries. */
  ghost predicate StartsAt(starts: map<DType, nat>, buffers: Buffers, metas: seq<Meta>, i: nat)
    requires i <= |metas|
  {
    starts.Keys == buffers.Keys && forall d | d in starts :: starts[d] == Used(metas, i, d)
  }

  lemma StartsNext(starts: map<DType, nat>, buffers: Buffers, metas: seq<Meta>, i: nat)
    requires i < |metas| && BuiltFor(buffers, metas) && StartsAt(starts, buffers, metas, i)
    ensures metas[i].dtype in starts && starts[metas[i].dtype] == Offset(metas, i)
    ensures StartsAt(starts[metas[i].dtype := starts[metas[i].dtype] + PaddedNumel(metas[i].numel, metas[i].dtype)],
      buffers, metas, i + 1)
  {
  }

  /** `build_memory_reference`: one view per entry; the range assert never fails. */
  method BuildMemoryReference(metas: seq<Meta>, buffers: Buffers) returns (views: seq<View>)
    requires BuiltFor(buffers, metas)
    ensures |views| == |metas| && forall i | 0 <= i < |metas| ::
      views[i].Valid() && PlacedAt(views[i], buffers, metas, i)
  {
    var starts: map<DType, nat> := map d | d in buffers :: 0;
    views := [];
    for i := 0 to |metas|
      invariant StartsAt(starts, buffers, metas, i)
      invariant |views| == i && forall j | 0 <= j < i :: views[j].Valid() && PlacedAt(views[j], buffers, metas, j)
    {
      var m := metas[i];
      StartsNext(starts, buffers, metas, i);
      RegionInside(metas, i);
      var view := buffers[m.dtype].Get(m.numel, starts[m.dtype]);
      starts := starts[m.dtype := starts[m.dtype] + PaddedNumel(m.numel, m.dtype)];
      views := views + [view];
    }
  }

  class Parameter {
    const dtype: DType
    const numel: nat
    var data: View

    constructor (dtype: DType, data: View)
      ensures this.dtype == dtype && numel == data.numel && this.data == data
    {
      this.dtype, this.numel, this.data := dtype, data.numel, data;
    }
  }

  function MetaOf(params: seq<Parameter>): (metas: seq<Meta>)
    ensures |metas| == |params|
  {
    seq(|params|, i requires 0 <= i < |params| => Meta(params[i].numel, params[i].dtype))
  }

  /** Distinct parameters with valid views, none of them into the buffers yet. */
  ghost predicate Outside(params: seq<Parameter>, buffers: Buffers)
    reads params
  {
    (forall i | 0 <= i < |params| ::
      params[i].data.Valid() && params[i].data.numel == params[i].numel &&
        params[i].data.storage !in Arrays(buffers)) &&
    forall i, j | 0 <= i < j < |params| :: params[i] != params[j]
  }

  /** `buffer.copy_(param.data)`. */
  method CopyInto(target: View, source: View)
    requires target.Valid() && source.Valid() && target.numel == source.numel && target.storage != source.storage
    modifies target.storage
    ensures target.Values() == old(source.Values())
    ensures forall x | 0 <= x < target.storage.Length && !(target.start <= x < target.start + target.numel) ::
      target.storage[x] == old(target.storage[x])
  {
    for x := 0 to source.numel
      invariant target.storage[target.start..target.start + x] == source.storage[source.start..source.start + x]
      invariant source.storage[..] == old(source.storage[..])
      invariant forall y | 0 <= y < target.storage.Length && !(target.start <= y < target.start + x) ::
        target.storage[y] == old(target.storage[y])
    {
      target.storage[target.start + x] := source.storage[source.start + x];
    }
  }

  /** The first i parameters are on their own regions, the others still outside the buffers. */
  ghost predicate Halfway(params: seq<Parameter>, buffers: Buffers, i: nat)
    requires i <= |params|
    reads params
  {
    BuiltFor(buffers, MetaOf(params)) &&
    (forall j | 0 <= j < i :: params[j].data.Valid() && PlacedAt(params[j].data, buffers, MetaOf(params), j)) &&
    (forall j | i <= j < |params| :: params[j].data.Valid() && params[j].data.numel == params[j].numel &&
      params[j].data.storage !in Arrays(buffers)) &&
    forall j, k | 0 <= j < k < |params| :: params[j] != params[k]
  }

  /** A view on another array, or on an earlier part of the same one. */
  ghost predicate Below(d: View, view: View) {
    d.Valid() && (d.storage == view.storage ==> d.start + d.numel <= view.start)
  }

  ghost predicate OthersBelow(params: seq<Parameter>, i: nat, view: View)
    reads params
  {
    forall j | 0 <= j < |params| && j != i :: Below(params[j].data, view)
  }

  /** Halfway through, no other parameter's view meets the region about to be filled. */
  lemma RegionFree(params: seq<Parameter>, buffers: Buffers, i: nat, view: View)
    requires i < |params| && Halfway(params, buffers, i) && PlacedAt(view, buffers, MetaOf(params), i)
    ensures OthersBelow(params, i, view)
  {
    var metas := MetaOf(params);
    forall j | 0 <= j < |params| && j != i ensures Below(params[j].data, view) {
      if j < i && metas[i].dtype == metas[j].dtype { RegionsDisjointAligned(metas, j, i); }
    }
  }

  /** Sequences that agree below `end` have the same parts below it. */
  lemma SamePart(before: seq<int>, after: seq<int>, end: nat, lo: nat, n: nat)
    requires lo + n <= end <= |before| == |after| && forall x | 0 <= x < end :: after[x] == before[x]
    ensures after[lo..lo + n] == before[lo..lo + n]
  {
  }

  /** Copies a parameter's values to its region; no other parameter's values change. */
  method CopyToRegion(params: seq<Parameter>, i: nat, view: View)
    requires i < |params| && view.Valid() && OthersBelow(params, i, view)
    requires params[i].data.Valid() && params[i].data.numel == view.numel && params[i].data.storage != view.storage
    modifies view.storage
    ensures view.Values() == old(params[i].data.Values())
    ensures OthersBelow(params, i, view)
    ensures forall j | 0 <= j < |params| && j != i :: params[j].data.Values() == old(params[j].data.Values())
  {
    CopyInto(view, params[i].data);
    forall j | 0 <= j < |params| && j != i ensures params[j].data.Values() == old(params[j].data.Values()) {
      var d := params[j].data;
      assert Below(d, view);
      if d.storage == view.storage {
        SamePart(old(view.storage[..]), view.storage[..], view.start, d.start, d.numel);
        assert d.Values() == view.storage[..][d.start..d.start + d.numel];
      }
    }
  }

  /** Copies when the weights are to be kept. */
  method CopyWhen(params: seq<Parameter>, i: nat, view: View, maintainWeight: bool)
    requires i < |params| && view.Valid() && OthersBelow(params, i, view)
    requires params[i].data.Valid() && params[i].data.numel == view.numel && params[i].data.storage != view.storage
    modifies view.storage
    ensures maintainWeight ==> view.Values() == old(params[i].data.Values())
    ensures OthersBelow(params, i, view)
    ensures forall j | 0 <= j < |params| && j != i :: params[j].data.Values() == old(params[j].data.Values())
  {
    if maintainWeight { CopyToRegion(params, i, view); }
  }

  /** One round of the loop. */
  method PlaceOne(params: seq<Parameter>, buffers: Buffers, i: nat, start: nat, maintainWeight: bool)
    requires i < |params| && Halfway(params, buffers, i) && start == Offset(MetaOf(params), i)
    requires params[i].dtype in buffers
    modifies params[i], buffers[params[i].dtype].data
    ensures Halfway(params, buffers, i + 1)
    ensures maintainWeight ==> params[i].data.Values() == old(params[i].data.Values())
    ensures forall j | 0 <= j < |params| && j != i ::
      params[j].data == old(params[j].data) && params[j].data.Values() == old(params[j].data.Values())
  {
    var p := params[i];
    ghost var metas := MetaOf(params);
    assert metas[i] == Meta(p.numel, p.dtype);
    RegionInside(metas, i);
    var view := buffers[p.dtype].Get(p.numel, start);
    RegionFree(params, buffers, i, view);
    CopyWhen(params, i, view, maintainWeight);
    p.data := view;
    assert MetaOf(params) == metas;
  }

  /** `build_memory_reference_from_module`: no range assert fails, every parameter ends up on its
      own region, and with `maintainWeight` it still holds its original values after the whole
      loop. */
  method BuildMemoryReferenceFromModule(params: seq<Parameter>, buffers: Buffers, maintainWeight: bool)
    requires BuiltFor(buffers, MetaOf(params)) && Outside(params, buffers)
    modifies params, Arrays(buffers)
    ensures forall i | 0 <= i < |params| ::
      params[i].data.Valid() && PlacedAt(params[i].data, buffers, MetaOf(params), i)
    ensures maintainWeight ==> forall i | 0 <= i < |params| :: params[i].data.Values() == old(params[i].data.Values())
  {
    var starts: map<DType, nat> := map d | d in buffers :: 0;
    ghost var metas := MetaOf(params);
    for i := 0 to |params|
      invariant StartsAt(starts, buffers, metas, i) && Halfway(params, buffers, i) && metas == MetaOf(params)
      invariant forall j | 0 <= j < |params| && (i <= j || maintainWeight) ::
        params[j].data.Values() == old(params[j].data.Values())
    {
      var p := params[i];
      StartsNext(starts, buffers, metas, i);
      assert metas[i] == Meta(p.numel, p.dtype) && buffers[p.dtype].data in Arrays(buffers);
      PlaceOne(params, buffers, i, starts[p.dtype], maintainWeight);
      starts := starts[p.dtype := starts[p.dtype] + PaddedNumel(p.numel, p.dtype)];
    }
  }
}
