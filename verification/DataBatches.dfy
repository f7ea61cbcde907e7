/** Padding, chunking and concatenating a data-parallel batch (verl/protocol.py). */
module DataBatches {
  import opened BlockSequences
  import opened Common

  /** A `DataProto` of `size` rows: the tensor rows if there is a tensor batch, the columns of the
      non-tensor batch, and the meta information shared by all parts. */
  datatype DataProto<R, V> = DataProto(size: nat, rows: Option<seq<R>>, columns: map<string, seq<V>>, meta: int) {
    ghost predicate Valid() {
      (rows.Some? ==> |rows.value| == size) && forall k | k in columns :: |columns[k]| == size
    }

    /** `slice(lo, hi)`. */
    function Slice(lo: nat, hi: nat): (d: DataProto<R, V>)
      requires Valid() && lo <= hi <= size
      ensures d.Valid() && d.size == hi - lo
    {
      DataProto(hi - lo, if rows.Some? then Some(rows.value[lo..hi]) else None,
                map k | k in columns :: columns[k][lo..hi], meta)
    }

    /** Row i: its tensors, if there is a tensor batch, and its entry in each column. */
    function Row(i: nat): DataRow<R, V>
      requires Valid() && i < size
    {
      DataRow(if rows.Some? then Some(rows.value[i]) else None, map k | k in columns :: columns[k][i])
    }

    function Rows(): (s: seq<DataRow<R, V>>)
      requires Valid()
      ensures |s| == size
    {
      seq(size, i requires 0 <= i < size => Row(i))
    }

    /** Applies a row-wise function to every row. */
    function MapRows<S, W>(h: RowFunction<R, V, S, W>): (d: DataProto<S, W>)
      requires Valid()
      ensures d.Valid() && d.size == size
    {
      DataProto(size, if h.tensor.Some? then Some(Each(h.tensor.value, Rows())) else None,
                map k | k in h.entries :: Each(h.entries[k], Rows()), meta)
    }
  }

  datatype DataRow<R, V> = DataRow(tensor: Option<R>, entries: map<string, V>)

  /** A function from rows to rows of one shape: each output reads the whole input row. */
  datatype RowFunction<!R, !V, S, W> = RowFunction(
    tensor: Option<DataRow<R, V> -> S>, entries: map<string, DataRow<R, V> -> W>)
  {
    function Apply(row: DataRow<R, V>): DataRow<S, W> {
      DataRow(if tensor.Some? then Some(tensor.value(row)) else None, map k | k in entries :: entries[k](row))
    }
  }

  /** Mapping a batch is applying the function to each of its rows. */
  lemma MappedRow<R, V, S, W>(d: DataProto<R, V>, h: RowFunction<R, V, S, W>, i: nat)
    requires d.Valid() && i < d.size
    ensures d.MapRows(h).Row(i) == h.Apply(d.Row(i)) && d.MapRows(h).size == d.size && d.MapRows(h).meta == d.meta
  {
    assert d.Rows()[i] == d.Row(i);
  }

  /** Parts that may be concatenated: the same columns, and tensors in all of them or in none. */
  ghost predicate Alike<R, V>(parts: seq<DataProto<R, V>>, d: DataProto<R, V>) {
    forall i | 0 <= i < |parts| ::
      parts[i].Valid() && parts[i].rows.Some? == d.rows.Some? && parts[i].columns.Keys == d.columns.Keys &&
        parts[i].meta == d.meta
  }

  // ---------- concatenation ----------

  function TotalSize<R, V>(parts: seq<DataProto<R, V>>): nat {
    if parts == [] then 0 else parts[0].size + TotalSize(parts[1..])
  }

  function RowsOf<R, V>(parts: seq<DataProto<R, V>>): seq<seq<R>>
    requires forall i | 0 <= i < |parts| :: parts[i].rows.Some?
  {
    seq(|parts|, i requires 0 <= i < |parts| => parts[i].rows.value)
  }

  function ColumnsOf<R, V>(parts: seq<DataProto<R, V>>, k: string): seq<seq<V>>
    requires forall i | 0 <= i < |parts| :: k in parts[i].columns
  {
    seq(|parts|, i requires 0 <= i < |parts| => parts[i].columns[k])
  }

  /** `DataProto.concat`: rows and columns end to end, the first part's meta information. */
  function Concat<R, V>(parts: seq<DataProto<R, V>>): (d: DataProto<R, V>)
    requires |parts| > 0 && Alike(parts, parts[0])
    ensures d.Valid() && d.size == TotalSize(parts)
  {
    RowsTotal(parts, parts[0]);
    DataProto(TotalSize(parts), if parts[0].rows.Some? then Some(Flatten(RowsOf(parts))) else None,
              map k | k in parts[0].columns :: Flatten(ColumnsOf(parts, k)), parts[0].meta)
  }

  lemma {:induction false} RowsTotal<R, V>(parts: seq<DataProto<R, V>>, d: DataProto<R, V>)
    requires Alike(parts, d)
    ensures d.rows.Some? ==> |Flatten(RowsOf(parts))| == TotalSize(parts)
    ensures forall k | k in d.columns :: |Flatten(ColumnsOf(parts, k))| == TotalSize(parts)
  {
    if parts == [] {
    } else {
      RowsTotal(parts[1..], d);
      if d.rows.Some? { assert RowsOf(parts)[1..] == RowsOf(parts[1..]); }
      forall k | k in d.columns ensures |Flatten(ColumnsOf(parts, k))| == TotalSize(parts) {
        assert ColumnsOf(parts, k)[1..] == ColumnsOf(parts[1..], k);
      }
    }
  }

  // ---------- padding ----------

  function Cyclic<A>(s: seq<A>, m: nat): (r: seq<A>)
    requires |s| > 0
    ensures |r| == m
  {
    seq(m, i => s[i % |s|])
  }

  /** d's rows repeated in order up to `m` rows. */
  function Repeated<R, V>(d: DataProto<R, V>, m: nat): (r: DataProto<R, V>)
    requires d.Valid() && d.size > 0
    ensures r.Valid() && r.size == m
  {
    DataProto(m, if d.rows.Some? then Some(Cyclic(d.rows.value, m)) else None,
              map k | k in d.columns :: Cyclic(d.columns[k], m), d.meta)
  }

  lemma CyclicStep<A>(s: seq<A>, m: nat, take: nat)
    requires |s| > 0 && m % |s| == 0 && take <= |s|
    ensures Cyclic(s, m) + s[..take] == Cyclic(s, m + take)
  {
    var n, r := |s|, Cyclic(s, m + take);
    forall j | 0 <= j < take ensures r[m + j] == s[j] {
      AddMultiple(m, j, n);
      RemainderSmall(j, n);
      var at := m + j;
      assert r[at] == s[at % n];
    }
    assert r[..m] == Cyclic(s, m);
    assert r[m..] == s[..take];
  }

  lemma AddMultiple(m: nat, i: nat, n: nat)
    requires n > 0 && m % n == 0
    ensures (m + i) % n == i % n
  {
    var q, p, r := m / n, i / n, i % n;
    assert m == n * q && i == n * p + r;
    assert m + i == n * (q + p) + r;
    QuotientIs(m + i, n, q + p, r);
  }

  lemma RemainderSmall(i: nat, n: nat)
    requires i < n
    ensures i % n == i
  {
  }

  function Sum(takes: seq<nat>): nat {
    if takes == [] then 0 else Sum(takes[..|takes| - 1]) + takes[|takes| - 1]
  }

  /** Whole copies, except that the last piece may be shorter. */
  predicate WholeButLast(takes: seq<nat>, n: nat) {
    (forall i | 0 <= i < |takes| - 1 :: takes[i] == n) && (takes != [] ==> takes[|takes| - 1] <= n)
  }

  /** s followed by its prefixes of the given sizes. */
  function Prefixes<A>(s: seq<A>, takes: seq<nat>): seq<seq<A>>
    requires forall i | 0 <= i < |takes| :: takes[i] <= |s|
  {
    [s] + seq(|takes|, i requires 0 <= i < |takes| => s[..takes[i]])
  }

  lemma {:induction false} WholeSum(takes: seq<nat>, n: nat)
    requires n > 0 && forall i | 0 <= i < |takes| :: takes[i] == n
    ensures (n + Sum(takes)) % n == 0
  {
    if takes == [] {
      QuotientIs(n, n, 1, 0);
    } else {
      WholeSum(takes[..|takes| - 1], n);
      AddMultiple(n + Sum(takes[..|takes| - 1]), n, n);
      QuotientIs(n, n, 1, 0);
    }
  }

  /** Joining them repeats s cyclically: position |s| + j holds s[j mod |s|]. */
  lemma {:induction false} PrefixesAreCyclic<A>(s: seq<A>, takes: seq<nat>)
    requires |s| > 0 && WholeButLast(takes, |s|)
    ensures forall i | 0 <= i < |takes| :: takes[i] <= |s|
    ensures Flatten(Prefixes(s, takes)) == Cyclic(s, |s| + Sum(takes))
  {
    if takes == [] {
      assert Prefixes(s, takes) == [s] && Flatten([s]) == s + [];
      forall i | 0 <= i < |s| ensures i % |s| == i { RemainderSmall(i, |s|); }
    } else {
      var rest, last := takes[..|takes| - 1], takes[|takes| - 1];
      PrefixesAreCyclic(s, rest);
      WholeSum(rest, |s|);
      CyclicStep(s, |s| + Sum(rest), last);
      assert Prefixes(s, takes) == Prefixes(s, rest) + [s[..last]];
      FlattenConcat(Prefixes(s, rest), [s[..last]]);
      assert Flatten([s[..last]]) == s[..last] + [];
    }
  }

  lemma {:induction false} PiecesSize<R, V>(pieces: seq<DataProto<R, V>>, takes: seq<nat>)
    requires |pieces| == |takes| && forall i | 0 <= i < |takes| :: pieces[i].size == takes[i]
    ensures TotalSize(pieces) == Sum(takes)
  {
    if pieces == [] {
    } else {
      var n := |pieces| - 1;
      PiecesSize(pieces[..n], takes[..n]);
      assert pieces == pieces[..n] + [pieces[n]];
      TotalConcat(pieces[..n], [pieces[n]]);
      assert TotalSize([pieces[n]]) == pieces[n].size + TotalSize<R, V>([]);
    }
  }

  lemma {:induction false} TotalConcat<R, V>(a: seq<DataProto<R, V>>, b: seq<DataProto<R, V>>)
    ensures TotalSize(a + b) == TotalSize(a) + TotalSize(b)
  {
    if a == [] {
      assert a + b == b;
    } else {
      assert (a + b)[1..] == a[1..] + b;
      TotalConcat(a[1..], b);
    }
  }

  /** d followed by its prefixes of the given sizes. */
  ghost predicate Copies<R, V>(d: DataProto<R, V>, takes: seq<nat>, parts: seq<DataProto<R, V>>) {
    d.Valid() && d.size > 0 && WholeButLast(takes, d.size) && |parts| == |takes| + 1 && parts[0] == d &&
    forall i | 0 <= i < |takes| :: takes[i] <= d.size && parts[i + 1] == d.Slice(0, takes[i])
  }

  lemma CopiesAlike<R, V>(d: DataProto<R, V>, takes: seq<nat>, parts: seq<DataProto<R, V>>)
    requires Copies(d, takes, parts)
    ensures Alike(parts, d) && TotalSize(parts) == d.size + Sum(takes)
  {
    forall i | 0 <= i < |parts|
      ensures parts[i].Valid() && parts[i].rows.Some? == d.rows.Some? && parts[i].columns.Keys == d.columns.Keys &&
        parts[i].meta == d.meta
    {
      if i > 0 { assert parts[i] == d.Slice(0, takes[i - 1]); }
    }
    PiecesSize(parts[1..], takes);
  }

  lemma CopiesRows<R, V>(d: DataProto<R, V>, takes: seq<nat>, parts: seq<DataProto<R, V>>)
    requires Copies(d, takes, parts) && Alike(parts, d) && d.rows.Some?
    ensures Flatten(RowsOf(parts)) == Cyclic(d.rows.value, d.size + Sum(takes))
  {
    PrefixesAreCyclic(d.rows.value, takes);
    assert RowsOf(parts) == Prefixes(d.rows.value, takes);
  }

  lemma CopiesColumn<R, V>(d: DataProto<R, V>, takes: seq<nat>, parts: seq<DataProto<R, V>>, k: string)
    requires Copies(d, takes, parts) && Alike(parts, d) && k in d.columns
    ensures Flatten(ColumnsOf(parts, k)) == Cyclic(d.columns[k], d.size + Sum(takes))
  {
    PrefixesAreCyclic(d.columns[k], takes);
    assert ColumnsOf(parts, k) == Prefixes(d.columns[k], takes);
  }

  lemma CopiesRepeat<R, V>(d: DataProto<R, V>, takes: seq<nat>, parts: seq<DataProto<R, V>>)
    requires Copies(d, takes, parts)
    ensures Alike(parts, d) && Concat(parts) == Repeated(d, d.size + Sum(takes))
  {
    CopiesAlike(d, takes, parts);
    if d.rows.Some? { CopiesRows(d, takes, parts); }
    CopiesColumns(d, takes, parts);
  }

  lemma CopiesColumns<R, V>(d: DataProto<R, V>, takes: seq<nat>, parts: seq<DataProto<R, V>>)
    requires Copies(d, takes, parts) && Alike(parts, d) && Alike(parts, parts[0])
    ensures Concat(parts).columns == Repeated(d, d.size + Sum(takes)).columns
  {
    var left, right := Concat(parts).columns, Repeated(d, d.size + Sum(takes)).columns;
    forall k | k in d.columns ensures left[k] == right[k] {
      CopiesColumn(d, takes, parts, k);
    }
  }

  /** The padding loop: slices of d until `padSize` rows are taken. */
  method PaddingPieces<R, V>(d: DataProto<R, V>, padSize: nat)
    returns (pieces: seq<DataProto<R, V>>, ghost takes: seq<nat>)
    requires d.Valid() && d.size > 0
    ensures TotalSize(pieces) == padSize && forall i | 0 <= i < |pieces| :: pieces[i].size <= d.size
    ensures Copies(d, takes, [d] + pieces) && Sum(takes) == padSize
  {
    pieces, takes := [], [];
    var remaining := padSize;
    while remaining > 0
      invariant 0 <= remaining <= padSize && Sum(takes) == padSize - remaining
      invariant remaining > 0 ==> AllWhole(takes, d.size)
      invariant WholeButLast(takes, d.size) && Copies(d, takes, [d] + pieces)
      decreases remaining
    {
      var take := Min(remaining, d.size);
      assert AllWhole(takes, d.size);
      CopiesNext(d, takes, pieces, take);
      pieces, takes := pieces + [d.Slice(0, take)], takes + [take];
      remaining := remaining - take;
    }
    forall i | 0 <= i < |takes| ensures pieces[i].size == takes[i] <= d.size {
      assert ([d] + pieces)[i + 1] == pieces[i];
    }
    PiecesSize(pieces, takes);
  }

  ghost predicate AllWhole(takes: seq<nat>, n: nat) {
    forall i | 0 <= i < |takes| :: takes[i] == n
  }

  lemma CopiesNext<R, V>(d: DataProto<R, V>, takes: seq<nat>, pieces: seq<DataProto<R, V>>, take: nat)
    requires Copies(d, takes, [d] + pieces) && AllWhole(takes, d.size) && take <= d.size
    ensures Copies(d, takes + [take], [d] + (pieces + [d.Slice(0, take)]))
    ensures Sum(takes + [take]) == Sum(takes) + take
    ensures take == d.size ==> AllWhole(takes + [take], d.size)
  {
    assert (takes + [take])[..|takes|] == takes;
    assert [d] + (pieces + [d.Slice(0, take)]) == ([d] + pieces) + [d.Slice(0, take)];
  }

  /** The padding as cyclic repetition. */
  method PadCyclic<R, V>(d: DataProto<R, V>, divisor: nat) returns (padded: DataProto<R, V>, padSize: nat)
    requires d.Valid() && divisor > 0
    ensures padSize == Missing(d.size, divisor)
    ensures d.size == 0 ==> padded == d
    ensures d.size > 0 ==> padded == Repeated(d, d.size + padSize)
  {
    if d.size % divisor != 0 {
      assert d.size > 0;
      padSize := divisor - d.size % divisor;
      var pieces; ghost var takes;
      pieces, takes := PaddingPieces(d, padSize);
      CopiesRepeat(d, takes, [d] + pieces);
      padded := Concat([d] + pieces);
    } else {
      padSize := 0;
      padded := d;
      if d.size > 0 { RepeatedOnce(d); }
    }
  }

  /** `pad_dataproto_to_divisor`: the loop ends, the size is the next multiple, and padded row n + j is
      row j mod n. */
  method PadToDivisor<R, V>(d: DataProto<R, V>, divisor: nat) returns (padded: DataProto<R, V>, padSize: nat)
    requires d.Valid() && divisor > 0
    ensures padSize == Missing(d.size, divisor)
    ensures d.size == 0 ==> padded == d
    ensures d.size > 0 ==> padded == Repeated(d, d.size + padSize)
    ensures padSize < divisor && (d.size + padSize) % divisor == 0
    ensures padded.Valid() && padded.size == d.size + padSize && padded.meta == d.meta
    ensures forall i | 0 <= i < padded.size :: padded.Row(i) == d.Row(i % d.size)
  {
    padded, padSize := PadCyclic(d, divisor);
    NextMultiple(d.size, divisor);
    if d.size > 0 { RepeatedRows(d, d.size + padSize); }
  }

  lemma NextMultiple(size: nat, divisor: nat)
    requires divisor > 0
    ensures Missing(size, divisor) < divisor && (size + Missing(size, divisor)) % divisor == 0
    ensures size == 0 ==> Missing(size, divisor) == 0
  {
    var fills := MissingFills(size, divisor);
    MultipleDivides(fills, divisor);
    if size == 0 { RemainderSmall(0, divisor); }
  }

  lemma RepeatedRows<R, V>(d: DataProto<R, V>, m: nat)
    requires d.Valid() && d.size > 0
    ensures Repeated(d, m).meta == d.meta && forall i | 0 <= i < m :: Repeated(d, m).Row(i) == d.Row(i % d.size)
  {
    forall i | 0 <= i < m ensures Repeated(d, m).Row(i) == d.Row(i % d.size) { RepeatedRow(d, m, i); }
  }

  lemma RepeatedRow<R, V>(d: DataProto<R, V>, m: nat, i: nat)
    requires d.Valid() && d.size > 0 && i < m
    ensures Repeated(d, m).Row(i) == d.Row(i % d.size) && Repeated(d, m).meta == d.meta
  {
  }

  lemma RepeatedOnce<R, V>(d: DataProto<R, V>)
    requires d.Valid() && d.size > 0
    ensures Repeated(d, d.size) == d
  {
    forall i | 0 <= i < d.size ensures i % d.size == i { RemainderSmall(i, d.size); }
    if d.rows.Some? { assert Cyclic(d.rows.value, d.size) == d.rows.value; }
    assert forall k | k in d.columns :: Cyclic(d.columns[k], d.size) == d.columns[k];
  }

  // ---------- chunks ----------

  lemma Quotient(size: nat, chunks: nat) returns (w: nat)
    requires chunks > 0 && size % chunks == 0
    ensures w == size / chunks && size == chunks * w
  {
    w := size / chunks;
  }

  function Part<R, V>(d: DataProto<R, V>, chunks: nat, w: nat, i: nat): DataProto<R, V>
    requires d.Valid() && d.size == chunks * w && i < chunks
  {
    BlockFits(chunks, w, i);
    d.Slice(i * w, i * w + w)
  }

  /** One column of every chunk: the loop that fills the per-chunk dictionaries. */
  method SplitColumn<V>(lst: seq<map<string, seq<V>>>, key: string, val: seq<V>, w: nat)
    returns (r: seq<map<string, seq<V>>>)
    requires |val| == |lst| * w
    ensures |r| == |lst| && forall i | 0 <= i < |lst| :: r[i] == lst[i][key := Block(val, |lst|, w, i)]
  {
    r := lst;
    for i := 0 to |lst|
      invariant |r| == |lst|
      invariant forall j | 0 <= j < |lst| :: r[j] == if j < i then lst[j][key := Block(val, |lst|, w, j)] else lst[j]
    {
      r := r[i := r[i][key := Block(val, |lst|, w, i)]];
    }
  }

  /** `chunk`: fails exactly when the size is not a multiple; otherwise the i-th part holds the
      i-th block of every row and column. */
  method Chunk<R, V>(d: DataProto<R, V>, chunks: nat) returns (r: Result<seq<DataProto<R, V>>>)
    requires d.Valid() && chunks > 0
    ensures r.Ok? <==> d.size % chunks == 0
    ensures r.Ok? ==> d.size == chunks * (d.size / chunks) && |r.value| == chunks
    ensures r.Ok? ==> forall i | 0 <= i < chunks :: r.value[i] == Part(d, chunks, d.size / chunks, i)
    ensures r.Ok? ==> forall i | 0 <= i < chunks :: HoldsRows(r.value[i], d, i, d.size / chunks)
  {
    if d.size % chunks != 0 { return Err("only support equal chunk"); }
    var w := Quotient(d.size, chunks);
    var width := d.size / chunks;
    var lst: seq<map<string, seq<V>>> := seq(chunks, _ => map[]);
    var keys := d.columns.Keys;
    while keys != {}
      invariant keys <= d.columns.Keys && |lst| == chunks
      invariant forall i | 0 <= i < chunks :: lst[i] == ColumnBlocks(d, d.columns.Keys - keys, chunks, width, i)
    {
      var k :| k in keys;
      keys := keys - {k};
      lst := SplitColumn(lst, k, d.columns[k], width);
    }
    var output: seq<DataProto<R, V>> := [];
    for i := 0 to chunks
      invariant |output| == i && forall j | 0 <= j < i :: output[j] == Part(d, chunks, width, j)
    {
      BlockFits(chunks, width, i);
      var rows := if d.rows.Some? then Some(Block(d.rows.value, chunks, width, i)) else None;
      assert lst[i] == Part(d, chunks, width, i).columns;
      output := output + [DataProto(width, rows, lst[i], d.meta)];
    }
    forall i | 0 <= i < chunks ensures HoldsRows(output[i], d, i, width) { PartHolds(d, chunks, width, i); }
    r := Ok(output);
  }

  /** The part holds rows i * w .. i * w + w - 1 of d, and its meta information. */
  ghost predicate HoldsRows<R, V>(part: DataProto<R, V>, d: DataProto<R, V>, i: nat, w: nat) {
    part.Valid() && d.Valid() && part.size == w && part.meta == d.meta && i * w + w <= d.size &&
    forall j | 0 <= j < w :: RowAt(part, d, i * w, j)
  }

  ghost predicate RowAt<R, V>(part: DataProto<R, V>, d: DataProto<R, V>, from: int, j: nat)
    requires part.Valid() && d.Valid()
  {
    j < part.size && 0 <= from + j < d.size && part.Row(j) == d.Row(from + j)
  }

  lemma PartHolds<R, V>(d: DataProto<R, V>, chunks: nat, w: nat, i: nat)
    requires d.Valid() && d.size == chunks * w && i < chunks
    ensures HoldsRows(Part(d, chunks, w, i), d, i, w)
  {
    BlockFits(chunks, w, i);
    var part, from := Part(d, chunks, w, i), i * w;
    forall j | 0 <= j < w ensures RowAt(part, d, from, j) {
    }
  }

  function ColumnBlocks<R, V>(d: DataProto<R, V>, keys: set<string>, chunks: nat, w: nat, i: nat): map<string, seq<V>>
    requires d.Valid() && d.size == chunks * w && i < chunks && keys <= d.columns.Keys
  {
    map k | k in keys :: Block(d.columns[k], chunks, w, i)
  }

  lemma EachBlock<S, T>(f: S -> T, x: seq<S>, n: nat, w: nat, i: nat)
    requires |x| == n * w && i < n
    ensures Each(f, Block(x, n, w, i)) == Block(Each(f, x), n, w, i)
  {
    BlockFits(n, w, i);
    var at := i * w;
    assert Each(f, x[at..at + w]) == Each(f, x)[at..at + w];
  }

  /** The parts of d, each mapped row by row. */
  ghost predicate MappedParts<R, V, S, W>(
    d: DataProto<R, V>, h: RowFunction<R, V, S, W>, n: nat, w: nat, parts: seq<DataProto<S, W>>)
  {
    d.Valid() && d.size == n * w && |parts| == n &&
    forall i | 0 <= i < n :: Part(d, n, w, i).Valid() && parts[i] == Part(d, n, w, i).MapRows(h)
  }

  lemma MappedAlike<R, V, S, W>(
    d: DataProto<R, V>, h: RowFunction<R, V, S, W>, n: nat, w: nat, parts: seq<DataProto<S, W>>)
    requires MappedParts(d, h, n, w, parts)
    ensures Alike(parts, d.MapRows(h))
  {
  }

  /** The rows of a part are a block of the rows. */
  lemma PartRows<R, V>(d: DataProto<R, V>, n: nat, w: nat, i: nat)
    requires d.Valid() && d.size == n * w && i < n
    ensures Part(d, n, w, i).Valid() && Part(d, n, w, i).Rows() == Block(d.Rows(), n, w, i)
  {
    BlockFits(n, w, i);
    var part, block, at := Part(d, n, w, i), Block(d.Rows(), n, w, i), i * w;
    forall j | 0 <= j < w ensures part.Rows()[j] == block[j] {
      assert block[j] == d.Rows()[at + j] == d.Row(at + j);
      assert part.Row(j) == d.Row(at + j);
    }
  }

  lemma {:induction false} EvenTotal<S, W>(parts: seq<DataProto<S, W>>, w: nat)
    requires forall i | 0 <= i < |parts| :: parts[i].size == w
    ensures TotalSize(parts) == |parts| * w
  {
    if parts == [] {
    } else {
      EvenTotal(parts[1..], w);
      assert |parts| * w == w + (|parts| - 1) * w;
    }
  }

  /** Joining one output of all parts gives that output of the whole batch. */
  lemma JoinOutput<R, V, T>(d: DataProto<R, V>, f: DataRow<R, V> -> T, n: nat, w: nat, outputs: seq<seq<T>>)
    requires d.Valid() && d.size == n * w && |outputs| == n
    requires forall i | 0 <= i < n :: Part(d, n, w, i).Valid() && outputs[i] == Each(f, Part(d, n, w, i).Rows())
    ensures Flatten(outputs) == Each(f, d.Rows())
  {
    var y := Each(f, d.Rows());
    forall i | 0 <= i < n ensures outputs[i] == Block(y, n, w, i) {
      PartRows(d, n, w, i);
      EachBlock(f, d.Rows(), n, w, i);
    }
    assert outputs == Blocks(y, n, w);
    FlattenOfBlocks(y, n, w);
  }

  /** Mapping every chunk and concatenating is mapping the whole batch. */
  lemma MapThenConcat<R, V, S, W>(
    d: DataProto<R, V>, h: RowFunction<R, V, S, W>, n: nat, w: nat, parts: seq<DataProto<S, W>>)
    requires MappedParts(d, h, n, w, parts) && n > 0
    ensures Alike(parts, parts[0]) && Concat(parts) == d.MapRows(h)
  {
    MappedAlike(d, h, n, w, parts);
    forall i | 0 <= i < n ensures parts[i].size == w { assert parts[i] == Part(d, n, w, i).MapRows(h); }
    EvenTotal(parts, w);
    if h.tensor.Some? { JoinOutput(d, h.tensor.value, n, w, RowsOf(parts)); }
    JoinColumns(d, h, n, w, parts);
  }

  lemma JoinColumns<R, V, S, W>(
    d: DataProto<R, V>, h: RowFunction<R, V, S, W>, n: nat, w: nat, parts: seq<DataProto<S, W>>)
    requires MappedParts(d, h, n, w, parts) && n > 0 && Alike(parts, parts[0]) && Alike(parts, d.MapRows(h))
    ensures Concat(parts).columns == d.MapRows(h).columns
  {
    var left, right := Concat(parts).columns, d.MapRows(h).columns;
    forall k | k in h.entries ensures left[k] == right[k] {
      JoinOutput(d, h.entries[k], n, w, ColumnsOf(parts, k));
    }
  }

  // ---------- the whole dispatch ----------

  /** `unpad_dataproto`. */
  function Unpad<R, V>(d: DataProto<R, V>, padSize: nat): DataProto<R, V>
    requires d.Valid() && padSize <= d.size
  {
    if padSize != 0 then d.Slice(0, d.size - padSize) else d
  }

  /** The first rows of a padded batch are the original rows. */
  lemma PaddedRows<R, V>(d: DataProto<R, V>, m: nat)
    requires d.Valid() && 0 < d.size <= m
    ensures Repeated(d, m).Rows()[..d.size] == d.Rows()
  {
    var padded := Repeated(d, m);
    forall i | 0 <= i < d.size ensures padded.Rows()[i] == d.Rows()[i] {
      RemainderSmall(i, d.size);
      assert padded.Row(i) == d.Row(i);
    }
  }

  /** So the first outputs of a padded batch are those of the original rows. */
  lemma OutputPrefix<R, V, T>(d: DataProto<R, V>, f: DataRow<R, V> -> T, m: nat)
    requires d.Valid() && 0 < d.size <= m
    ensures Each(f, Repeated(d, m).Rows())[..d.size] == Each(f, d.Rows())
  {
    PaddedRows(d, m);
    var padded := Repeated(d, m).Rows();
    assert Each(f, padded)[..d.size] == Each(f, padded[..d.size]);
  }

  lemma UnpadMapped<R, V, S, W>(d: DataProto<R, V>, h: RowFunction<R, V, S, W>, padSize: nat)
    requires d.Valid() && d.size > 0
    ensures Unpad(Repeated(d, d.size + padSize).MapRows(h), padSize) == d.MapRows(h)
  {
    if padSize == 0 {
      RepeatedOnce(d);
    } else {
      if h.tensor.Some? { OutputPrefix(d, h.tensor.value, d.size + padSize); }
      UnpadColumns(d, h, padSize);
    }
  }

  lemma UnpadColumn<R, V, S, W>(d: DataProto<R, V>, h: RowFunction<R, V, S, W>, padSize: nat, k: string)
    requires d.Valid() && d.size > 0 && k in h.entries
    ensures Repeated(d, d.size + padSize).MapRows(h).columns[k][0..d.size] == d.MapRows(h).columns[k]
  {
    var padded := Repeated(d, d.size + padSize);
    OutputPrefix(d, h.entries[k], d.size + padSize);
    var column := padded.MapRows(h).columns[k];
    assert column == Each(h.entries[k], padded.Rows());
    assert column[0..d.size] == column[..d.size];
  }

  lemma UnpadColumns<R, V, S, W>(d: DataProto<R, V>, h: RowFunction<R, V, S, W>, padSize: nat)
    requires d.Valid() && d.size > 0
    ensures Repeated(d, d.size + padSize).MapRows(h).Slice(0, d.size).columns == d.MapRows(h).columns
  {
    var mapped, right := Repeated(d, d.size + padSize).MapRows(h), d.MapRows(h).columns;
    var left := mapped.Slice(0, d.size).columns;
    forall k | k in h.entries ensures left[k] == right[k] {
      UnpadColumn(d, h, padSize, k);
    }
  }

  /** Padding a batch to the workers, running a row-wise function on every chunk, concatenating
      and unpadding is running it on the original rows; an empty batch goes through unpadded. */
  method Dispatch<R, V, S, W>(d: DataProto<R, V>, workers: nat, h: RowFunction<R, V, S, W>)
    returns (out: DataProto<S, W>)
    requires d.Valid() && workers > 0
    ensures out == d.MapRows(h)
  {
    var padded, padSize := PadToDivisor(d, workers);
    var chunks := Chunk(padded, workers);
    var width := padded.size / workers;
    var outputs: seq<DataProto<S, W>> := [];
    for i := 0 to workers
      invariant |outputs| == i
      invariant forall j | 0 <= j < i ::
        Part(padded, workers, width, j).Valid() && outputs[j] == Part(padded, workers, width, j).MapRows(h)
    {
      outputs := outputs + [chunks.value[i].MapRows(h)];
    }
    MapThenConcat(padded, h, workers, width, outputs);
    if d.size > 0 { UnpadMapped(d, h, padSize); }
    out := Unpad(Concat(outputs), padSize);
  }
}
