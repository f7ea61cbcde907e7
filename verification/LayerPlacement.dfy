/** Pipeline layer placement: `get_transformer_layer_offset` of verl/utils/megatron_utils.py, and
    when the layer ranges it starts tile the model. */
module LayerPlacement {

  import opened Common

  datatype Config = Config(
    numLayers: int, stages: int, virtualStages: Option<int>,
    first: Option<int>, last: Option<int>,
    embedding: bool, loss: bool)

  function OrZero(o: Option<int>): int { if o.Some? then o.value else 0 }
  function One(b: bool): int { if b then 1 else 0 }

  predicate Uneven(c: Config) { c.first.Some? || c.last.Some? }
  function Virtual(c: Config): int { if c.virtualStages.Some? then c.virtualStages.value else 1 }

  predicate Shape(c: Config) { c.stages >= 1 && Virtual(c) >= 1 }

  // ---------- the offset ----------

  function MiddleStages(c: Config): int { c.stages - One(c.first.Some?) - One(c.last.Some?) }
  function MiddleLayers(c: Config): int { c.numLayers - OrZero(c.first) - OrZero(c.last) }

  /** All layers, with the embedding and the loss counted as one each when configured. */
  function CountedLayers(c: Config): int { c.numLayers + One(c.embedding) + One(c.loss) }

  function UnevenOffset(c: Config, p: int): int
    requires Shape(c)
  {
    var perStage := if MiddleStages(c) > 0 then MiddleLayers(c) / MiddleStages(c) else 0;
    var middleRank := if c.first == None then p else p - 1;
    if p == 0 then 0 else middleRank * perStage + OrZero(c.first)
  }

  /** None stands for the division by zero without a middle stage. */
  function UnevenInterleavedOffset(c: Config, p: int, v: int): Option<int>
    requires Shape(c)
  {
    var inFirst, inLast := OrZero(c.first) / Virtual(c), OrZero(c.last) / Virtual(c);
    var inMiddle := MiddleLayers(c) / Virtual(c);
    var total := inFirst + inMiddle + inLast;
    if p == 0 then Some(v * total)
    else if MiddleStages(c) == 0 then None
    else Some(v * total + inFirst + (p - 1) * (inMiddle / MiddleStages(c)))
  }

  function EvenOffset(c: Config, p: int, v: int, firstStage: bool): int
    requires Shape(c)
  {
    var perStage := CountedLayers(c) / c.stages;
    var base := if c.virtualStages.Some?
      then v * (CountedLayers(c) / Virtual(c)) + p * (perStage / Virtual(c))
      else p * perStage;
    base - One(c.embedding && !firstStage)
  }

  /** `get_transformer_layer_offset`.  `firstStage` is what the calling process answers to
      `is_pipeline_first_stage`, whatever rank is asked about. */
  function LayerOffset(c: Config, p: int, v: int, firstStage: bool): Option<int>
    requires Shape(c)
  {
    if c.stages == 1 then Some(0)
    else if !Uneven(c) then Some(EvenOffset(c, p, v, firstStage))
    else if c.virtualStages.Some? then UnevenInterleavedOffset(c, p, v)
    else Some(UnevenOffset(c, p))
  }

  /** Without pipeline parallelism every offset is zero. */
  lemma OneStageStartsAtZero(c: Config, p: int, v: int, firstStage: bool)
    requires Shape(c) && c.stages == 1
    ensures LayerOffset(c, p, v, firstStage) == Some(0)
  {
  }

  // ---------- tilings ----------

  /** Every layer is in exactly one range, and every range is within the model. */
  ghost predicate Tiles(starts: seq<int>, sizes: seq<int>, layers: int) {
    |starts| == |sizes| &&
    (forall i | 0 <= i < |starts| :: 0 <= starts[i] && starts[i] + sizes[i] <= layers) &&
    (forall x | 0 <= x < layers :: Placed(starts, sizes, x)) &&
    (forall x, i, j | Holds(starts, sizes, i, x) && Holds(starts, sizes, j, x) :: i == j)
  }

  ghost predicate Holds(starts: seq<int>, sizes: seq<int>, i: int, x: int) {
    0 <= i < |starts| && i < |sizes| && starts[i] <= x < starts[i] + sizes[i]
  }

  ghost predicate Placed(starts: seq<int>, sizes: seq<int>, x: int) {
    exists i :: Holds(starts, sizes, i, x)
  }

  /** Each range starts where the one before ends. */
  ghost predicate Chained(starts: seq<int>, sizes: seq<int>, layers: int) {
    |starts| == |sizes| > 0 && starts[0] == 0 && starts[|starts| - 1] + sizes[|sizes| - 1] == layers &&
    (forall i | 0 <= i < |sizes| :: sizes[i] >= 0) &&
    forall i | 0 <= i < |starts| - 1 :: starts[i + 1] == starts[i] + sizes[i]
  }

  lemma {:induction false} ChainOrdered(starts: seq<int>, sizes: seq<int>, layers: int, i: int, j: int)
    requires Chained(starts, sizes, layers) && 0 <= i < j < |starts|
    ensures starts[i] + sizes[i] <= starts[j]
    decreases j - i
  {
    if i + 1 == j {
    } else {
      ChainOrdered(starts, sizes, layers, i, j - 1);
    }
  }

  lemma {:induction false} ChainCovers(starts: seq<int>, sizes: seq<int>, layers: int, x: int, n: int)
    requires Chained(starts, sizes, layers) && 0 < n <= |starts| && 0 <= x < starts[n - 1] + sizes[n - 1]
    ensures Placed(starts, sizes, x)
    decreases n
  {
    if starts[n - 1] <= x {
      assert Holds(starts, sizes, n - 1, x);
    } else {
      ChainCovers(starts, sizes, layers, x, n - 1);
    }
  }

  /** Chained ranges tile. */
  lemma ChainTiles(starts: seq<int>, sizes: seq<int>, layers: int)
    requires Chained(starts, sizes, layers)
    ensures Tiles(starts, sizes, layers)
  {
    var m := |starts|;
    forall i | 0 <= i < m ensures 0 <= starts[i] && starts[i] + sizes[i] <= layers {
      if i > 0 { ChainOrdered(starts, sizes, layers, 0, i); }
      if i < m - 1 { ChainOrdered(starts, sizes, layers, i, m - 1); }
    }
    forall x | 0 <= x < layers ensures Placed(starts, sizes, x) {
      ChainCovers(starts, sizes, layers, x, m);
    }
    forall x, i, j | Holds(starts, sizes, i, x) && Holds(starts, sizes, j, x) ensures i == j {
      if i < j { ChainOrdered(starts, sizes, layers, i, j); }
      if j < i { ChainOrdered(starts, sizes, layers, j, i); }
    }
  }

  // ---------- the layers of each stage ----------

  /** Layers of stage (p, v): the configured share of the first or last stage, the even share
      otherwise, less the embedding and the loss. */
  function StageLayers(c: Config, p: int, v: int): int
    requires Shape(c)
  {
    if !Uneven(c) then
      CountedLayers(c) / c.stages / Virtual(c)
      - One(c.embedding && p == 0 && v == 0) - One(c.loss && p == c.stages - 1 && v == Virtual(c) - 1)
    else if p == 0 && c.first.Some? then c.first.value / Virtual(c)
    else if p == c.stages - 1 && c.last.Some? then c.last.value / Virtual(c)
    else if MiddleStages(c) > 0 then MiddleLayers(c) / Virtual(c) / MiddleStages(c)
    else 0
  }

  /** The divisibility each branch assumes. */
  predicate Divides(c: Config)
    requires Shape(c)
  {
    if !Uneven(c) then
      CountedLayers(c) >= 0 && c.numLayers >= 0 &&
      CountedLayers(c) % c.stages == 0 && CountedLayers(c) / c.stages % Virtual(c) == 0
    else
      OrZero(c.first) >= 0 && OrZero(c.last) >= 0 && MiddleLayers(c) >= 0 && MiddleStages(c) >= 0 &&
      OrZero(c.first) % Virtual(c) == 0 && OrZero(c.last) % Virtual(c) == 0 && MiddleLayers(c) % Virtual(c) == 0 &&
      if MiddleStages(c) > 0 then MiddleLayers(c) / Virtual(c) % MiddleStages(c) == 0 else MiddleLayers(c) == 0
  }

  /** A process asking about its own stage: it is first exactly on pipeline and virtual rank 0. */
  predicate OwnFirst(p: int, v: int) { p == 0 && v == 0 }

  /** The ranges in execution order: virtual rank by virtual rank, stage by stage. */
  function Starts(c: Config): seq<int>
    requires Shape(c)
  {
    seq(c.stages * Virtual(c), t requires 0 <= t =>
      var o := LayerOffset(c, t % c.stages, t / c.stages, OwnFirst(t % c.stages, t / c.stages));
      if o.Some? then o.value else -1)
  }

  function Sizes(c: Config): seq<int>
    requires Shape(c)
  {
    seq(c.stages * Virtual(c), t requires 0 <= t => StageLayers(c, t % c.stages, t / c.stages))
  }

  // ---------- arithmetic ----------

  /** Position t is stage t % stages of round t / stages; the next position is the next stage, or
      the first one of the next round. */
  lemma NextPosition(t: nat, stages: int)
    requires stages > 0
    ensures if t % stages < stages - 1
      then (t + 1) % stages == t % stages + 1 && (t + 1) / stages == t / stages
      else (t + 1) % stages == 0 && (t + 1) / stages == t / stages + 1
  {
    var q, r := t / stages, t % stages;
    assert t == stages * q + r;
    if r < stages - 1 {
      QuotientIs(t + 1, stages, q, r + 1);
    } else {
      assert stages * (q + 1) == stages * q + stages;
      QuotientIs(t + 1, stages, q + 1, 0);
    }
  }

  lemma Position(stages: int, rounds: int, p: int, v: int)
    requires 0 <= p < stages && 0 <= v < rounds
    ensures 0 <= stages * v + p < stages * rounds
    ensures (stages * v + p) % stages == p && (stages * v + p) / stages == v
  {
    Grows(stages, v, rounds);
    assert stages * v >= 0;
    QuotientIs(stages * v + p, stages, v, p);
  }

  // ---------- chaining the stages ----------

  /** A per-stage description of a placement: where each stage of each round starts and how many
      layers it has, each starting where its predecessor ends. */
  ghost predicate StageChain(c: Config)
    requires Shape(c)
  {
    (forall p, v | 0 <= p < c.stages && 0 <= v < Virtual(c) :: StageFits(c, p, v)) &&
    LayerOffset(c, 0, 0, true) == Some(0)
  }

  ghost predicate StageFits(c: Config, p: int, v: int)
    requires Shape(c)
  {
    var o := LayerOffset(c, p, v, OwnFirst(p, v));
    o.Some? && StageLayers(c, p, v) >= 0 &&
    if p < c.stages - 1 then LayerOffset(c, p + 1, v, false) == Some(o.value + StageLayers(c, p, v))
    else if v < Virtual(c) - 1 then LayerOffset(c, 0, v + 1, false) == Some(o.value + StageLayers(c, p, v))
    else o.value + StageLayers(c, p, v) == c.numLayers
  }

  /** One range of the execution order. */
  lemma StageAt(c: Config, t: nat)
    requires Shape(c) && StageChain(c) && t < c.stages * Virtual(c)
    ensures 0 <= t % c.stages < c.stages && 0 <= t / c.stages < Virtual(c)
    ensures StageFits(c, t % c.stages, t / c.stages) && Sizes(c)[t] >= 0
    ensures Some(Starts(c)[t]) == LayerOffset(c, t % c.stages, t / c.stages, OwnFirst(t % c.stages, t / c.stages))
  {
    InGrid(t, c.stages, Virtual(c));
    assert StageFits(c, t % c.stages, t / c.stages);
  }

  lemma StageNext(c: Config, t: nat)
    requires Shape(c) && StageChain(c) && t + 1 < c.stages * Virtual(c)
    ensures Starts(c)[t + 1] == Starts(c)[t] + Sizes(c)[t]
  {
    StageAt(c, t);
    StageAt(c, t + 1);
    NextPosition(t, c.stages);
  }

  lemma StageFirst(c: Config)
    requires Shape(c) && StageChain(c)
    ensures |Starts(c)| == |Sizes(c)| == c.stages * Virtual(c) >= 1 && Starts(c)[0] == 0
  {
    Position(c.stages, Virtual(c), 0, 0);
    assert c.stages * 0 + 0 == 0;
  }

  lemma StageLast(c: Config, m: int)
    requires Shape(c) && StageChain(c) && m == c.stages * Virtual(c) >= 1
    ensures Starts(c)[m - 1] + Sizes(c)[m - 1] == c.numLayers
  {
    var p, v := c.stages - 1, Virtual(c) - 1;
    Position(c.stages, Virtual(c), p, v);
    assert c.stages * v + p == m - 1;
    StageAt(c, m - 1);
  }

  lemma StageChainTiles(c: Config)
    requires Shape(c) && StageChain(c)
    ensures Chained(Starts(c), Sizes(c), c.numLayers) && Tiles(Starts(c), Sizes(c), c.numLayers)
  {
    StageFirst(c);
    var m := |Starts(c)|;
    StageLast(c, m);
    forall t | 0 <= t < m ensures Sizes(c)[t] >= 0 { StageAt(c, t); }
    forall t | 0 <= t < m - 1 ensures Starts(c)[t + 1] == Starts(c)[t] + Sizes(c)[t] { StageNext(c, t); }
    ChainTiles(Starts(c), Sizes(c), c.numLayers);
  }

  lemma InGrid(t: nat, stages: int, rounds: int)
    requires stages > 0 && t < stages * rounds
    ensures 0 <= t % stages < stages && 0 <= t / stages < rounds
  {
    assert t == stages * (t / stages) + t % stages;
    if t / stages > rounds { Grows(stages, rounds, t / stages); }
  }

  // ---------- the even branch ----------

  /** Layers per stage and round when the counted layers divide evenly. */
  lemma EvenShare(c: Config) returns (a: int)
    requires Shape(c) && !Uneven(c) && Divides(c)
    ensures a == CountedLayers(c) / c.stages / Virtual(c) >= 0
    ensures CountedLayers(c) / c.stages == Virtual(c) * a
    ensures CountedLayers(c) == Virtual(c) * (c.stages * a)
    ensures CountedLayers(c) / Virtual(c) == c.stages * a
    ensures CountedLayers(c) > 0 ==> a >= 1
  {
    var n, k, m := CountedLayers(c), c.stages, Virtual(c);
    var per := n / k;
    a := per / m;
    assert n == k * per + n % k && per == m * a + per % m;
    assert k * (m * a) == m * (k * a);
    QuotientIs(n, m, k * a, 0);
    if a == 0 { assert k * a == 0 && m * (k * a) == 0; }
  }

  lemma EvenOffsetAt(c: Config, p: int, v: int, firstStage: bool, a: int)
    requires Shape(c) && !Uneven(c) && Divides(c) && (c.virtualStages == None ==> v == 0)
    requires a == CountedLayers(c) / c.stages / Virtual(c)
    ensures EvenOffset(c, p, v, firstStage) == v * (c.stages * a) + p * a - One(c.embedding && !firstStage)
  {
    var a' := EvenShare(c);
    QuotientIs(Virtual(c) * a, Virtual(c), a, 0);
  }

  /** Even placement, interleaved or not, with or without the embedding and the loss counted. */
  lemma EvenTiles(c: Config)
    requires Shape(c) && c.stages >= 2 && !Uneven(c) && Divides(c)
    ensures Tiles(Starts(c), Sizes(c), c.numLayers) && Chained(Starts(c), Sizes(c), c.numLayers)
  {
    var a := EvenShare(c);
    forall p, v | 0 <= p < c.stages && 0 <= v < Virtual(c) ensures StageFits(c, p, v) {
      EvenOffsetAt(c, p, v, OwnFirst(p, v), a);
      EvenNext(c.stages, Virtual(c), p, v, a);
      if p < c.stages - 1 {
        EvenOffsetAt(c, p + 1, v, false, a);
      } else if v < Virtual(c) - 1 {
        EvenOffsetAt(c, 0, v + 1, false, a);
      }
    }
    EvenOffsetAt(c, 0, 0, true, a);
    StageChainTiles(c);
  }

  lemma EvenNext(stages: int, rounds: int, p: int, v: int, a: int)
    ensures (p + 1) * a == p * a + a
    ensures (stages - 1) * a + a == stages * a
    ensures v * (stages * a) + stages * a == (v + 1) * (stages * a)
    ensures 0 * (stages * a) == 0 && 0 * a == 0
  {
  }

  // ---------- whose answer is asked ----------

  /** The starts when the process that asks about stage (p, v) answers `ask(p, v)` to
      `is_pipeline_first_stage`: the code consults that process, not its rank arguments. */
  function StartsAsked(c: Config, ask: (int, int) -> bool): seq<int>
    requires Shape(c)
  {
    seq(c.stages * Virtual(c), t requires 0 <= t =>
      var o := LayerOffset(c, t % c.stages, t / c.stages, ask(t % c.stages, t / c.stages));
      if o.Some? then o.value else -1)
  }

  /** The answer differs from the one the asked stage itself would give. */
  predicate WrongAt(c: Config, ask: (int, int) -> bool, t: int)
    requires Shape(c)
  {
    c.embedding && ask(t % c.stages, t / c.stages) != OwnFirst(t % c.stages, t / c.stages)
  }

  /** A wrong answer moves the first stage before layer 0 and any other stage one layer on. */
  lemma AskedAt(c: Config, ask: (int, int) -> bool, t: nat)
    requires Shape(c) && c.stages >= 2 && !Uneven(c) && t < c.stages * Virtual(c)
    ensures |StartsAsked(c, ask)| == |Starts(c)| == c.stages * Virtual(c)
    ensures StartsAsked(c, ask)[t] == Starts(c)[t] + (if !WrongAt(c, ask, t) then 0 else if t == 0 then -1 else 1)
  {
    var p, v := t % c.stages, t / c.stages;
    OwnFirstAt(c.stages, t);
    assert LayerOffset(c, p, v, ask(p, v)) == Some(EvenOffset(c, p, v, ask(p, v)));
    assert LayerOffset(c, p, v, OwnFirst(p, v)) == Some(EvenOffset(c, p, v, OwnFirst(p, v)));
  }

  lemma OwnFirstAt(stages: int, t: nat)
    requires stages > 0
    ensures OwnFirst(t % stages, t / stages) <==> t == 0
  {
    assert t == stages * (t / stages) + t % stages;
    assert t / stages == 0 ==> stages * (t / stages) == 0;
  }

  /** Moving one range of a chain on by a layer, and none after it, breaks the tiling. */
  lemma ShiftedFails(starts: seq<int>, moved: seq<int>, sizes: seq<int>, layers: int, t: int)
    requires Chained(starts, sizes, layers) && |moved| == |starts| && 0 <= t < |starts|
    requires moved[t] == starts[t] + 1 && (t + 1 < |starts| ==> moved[t + 1] == starts[t + 1])
    requires (t + 1 < |starts| ==> sizes[t] >= 1) && (t + 2 < |starts| ==> sizes[t + 1] >= 1)
    ensures !Tiles(moved, sizes, layers)
  {
    var m := |starts|;
    if t + 1 < m && sizes[t + 1] >= 1 {
      var x := starts[t + 1];
      assert Holds(moved, sizes, t, x) && Holds(moved, sizes, t + 1, x);
    } else {
      assert moved[t] + sizes[t] == layers + 1;
    }
  }

  lemma EvenSizesAt(c: Config, t: nat)
    requires Shape(c) && c.stages >= 2 && !Uneven(c) && Divides(c) && c.embedding && 0 < t < c.stages * Virtual(c) - 1
    ensures Sizes(c)[t] >= 1
  {
    var a := EvenShare(c);
    InGrid(t, c.stages, Virtual(c));
    var p, v := c.stages - 1, Virtual(c) - 1;
    assert t == c.stages * (t / c.stages) + t % c.stages;
    assert c.stages * v + p == c.stages * Virtual(c) - 1;
    assert c.stages * 0 == 0;
  }

  lemma LastWrong(c: Config, ask: (int, int) -> bool, n: nat) returns (t: int)
    requires Shape(c)
    ensures -1 <= t < n && (t >= 0 ==> WrongAt(c, ask, t))
    ensures forall u | t < u < n :: !WrongAt(c, ask, u)
  {
    t := -1;
    if n == 0 {
    } else if WrongAt(c, ask, n - 1) {
      t := n - 1;
    } else {
      t := LastWrong(c, ask, n - 1);
    }
  }

  /** In the even branches the starts tile if and only if no answer is wrong. */
  lemma AnswersTileIff(c: Config, ask: (int, int) -> bool)
    requires Shape(c) && c.stages >= 2 && !Uneven(c) && Divides(c)
    ensures Tiles(StartsAsked(c, ask), Sizes(c), c.numLayers) <==>
      forall t | 0 <= t < c.stages * Virtual(c) :: !WrongAt(c, ask, t)
  {
    EvenTiles(c);
    var m := c.stages * Virtual(c);
    var t := LastWrong(c, ask, m);
    var starts, moved := Starts(c), StartsAsked(c, ask);
    forall u | 0 <= u < m
      ensures moved[u] == starts[u] + (if !WrongAt(c, ask, u) then 0 else if u == 0 then -1 else 1) {
      AskedAt(c, ask, u);
    }
    if t == -1 {
      assert moved == starts;
    } else if t == 0 {
      assert moved[0] == -1;
    } else {
      if t + 1 < m { EvenSizesAt(c, t); }
      if t + 2 < m { EvenSizesAt(c, t + 1); }
      ShiftedFails(starts, moved, Sizes(c), c.numLayers, t);
    }
  }

  /** One process asking about every stage: the starts tile if and only if the embedding is not
      counted. */
  lemma OneAnswerTilesIff(c: Config, answer: bool)
    requires Shape(c) && c.stages >= 2 && !Uneven(c) && Divides(c)
    ensures Tiles(StartsAsked(c, (p, v) => answer), Sizes(c), c.numLayers) <==> !c.embedding
  {
    AnswersTileIff(c, (p, v) => answer);
    Position(c.stages, Virtual(c), 0, 0);
    Position(c.stages, Virtual(c), 1, 0);
    assert WrongAt(c, (p, v) => answer, c.stages * 0 + 0) || WrongAt(c, (p, v) => answer, c.stages * 0 + 1) ||
      !c.embedding;
  }

  /** Each pipeline rank asking about all its virtual ranks, as the weight collection does: with
      the embedding counted the starts tile if and only if there is one virtual rank and only the
      first pipeline rank answers that it is first. */
  lemma RankAnswersTileIff(c: Config, answer: int -> bool)
    requires Shape(c) && c.stages >= 2 && !Uneven(c) && Divides(c)
    ensures Tiles(StartsAsked(c, (p, v) => answer(p)), Sizes(c), c.numLayers) <==>
      !c.embedding || (Virtual(c) == 1 && forall p | 0 <= p < c.stages :: answer(p) == (p == 0))
  {
    var ask := (p, v) => answer(p);
    AnswersTileIff(c, ask);
    var m := c.stages * Virtual(c);
    if c.embedding && forall t | 0 <= t < m :: !WrongAt(c, ask, t) {
      forall p, v | 0 <= p < c.stages && 0 <= v < Virtual(c) ensures answer(p) == OwnFirst(p, v) {
        Position(c.stages, Virtual(c), p, v);
        assert !WrongAt(c, ask, c.stages * v + p);
      }
      assert Virtual(c) > 1 ==> answer(0) == OwnFirst(0, 1);
      assert forall p | 0 <= p < c.stages :: answer(p) == OwnFirst(p, 0);
    }
    if Virtual(c) == 1 && forall p | 0 <= p < c.stages :: answer(p) == (p == 0) {
      forall t | 0 <= t < m ensures !WrongAt(c, ask, t) { InGrid(t, c.stages, Virtual(c)); }
    }
  }

  // ---------- the uneven branches ----------

  /** Without virtual stages: the first and last stages get their own counts. */
  lemma UnevenTiles(c: Config)
    requires Shape(c) && c.stages >= 2 && Uneven(c) && Divides(c) && c.virtualStages == None
    ensures Tiles(Starts(c), Sizes(c), c.numLayers)
  {
    forall p, v | 0 <= p < c.stages && 0 <= v < Virtual(c) ensures StageFits(c, p, v) {
      UnevenFits(c, p);
    }
    StageChainTiles(c);
  }

  /** Layers of a middle stage without virtual stages. */
  function MiddleShare(c: Config): int {
    if MiddleStages(c) > 0 then MiddleLayers(c) / MiddleStages(c) else 0
  }

  lemma UnevenShare(c: Config)
    requires Shape(c) && Uneven(c) && Divides(c) && c.virtualStages == None
    ensures MiddleLayers(c) == MiddleStages(c) * MiddleShare(c) && MiddleShare(c) >= 0
  {
  }

  lemma UnevenStageLayers(c: Config, p: int)
    requires Shape(c) && Uneven(c) && c.virtualStages == None
    ensures StageLayers(c, p, 0) ==
      if p == 0 && c.first.Some? then c.first.value
      else if p == c.stages - 1 && c.last.Some? then c.last.value else MiddleShare(c)
  {
  }

  lemma UnevenFits(c: Config, p: int)
    requires Shape(c) && c.stages >= 2 && Uneven(c) && Divides(c) && c.virtualStages == None && 0 <= p < c.stages
    ensures StageFits(c, p, 0)
  {
    UnevenShare(c);
    UnevenStageLayers(c, p);
    UnevenSteps(MiddleStages(c), p, MiddleShare(c));
    var rank := if c.first == None then p else p - 1;
    assert LayerOffset(c, p, 0, OwnFirst(p, 0)) == Some(if p == 0 then 0 else rank * MiddleShare(c) + OrZero(c.first));
    if p < c.stages - 1 {
      assert LayerOffset(c, p + 1, 0, false) == Some((rank + 1) * MiddleShare(c) + OrZero(c.first));
    }
  }

  lemma UnevenSteps(m: int, p: int, a: int)
    ensures (p + 1) * a == p * a + a && p * a == (p - 1) * a + a
    ensures m * a == (m - 1) * a + a && 0 * a == 0
  {
  }

  /** Interleaved: with the first stage's count set and a middle stage, the ranges tile. */
  lemma UnevenInterleavedTiles(c: Config)
    requires Shape(c) && c.stages >= 2 && Divides(c) && c.virtualStages.Some?
    requires c.first.Some? && MiddleStages(c) > 0
    ensures Tiles(Starts(c), Sizes(c), c.numLayers)
  {
    forall p, v | 0 <= p < c.stages && 0 <= v < Virtual(c) ensures StageFits(c, p, v) {
      InterleavedFits(c, p, v);
    }
    assert 0 * (OrZero(c.first) / Virtual(c) + MiddleLayers(c) / Virtual(c) + OrZero(c.last) / Virtual(c)) == 0;
    StageChainTiles(c);
  }

  lemma InterleavedTotal(c: Config)
    requires Shape(c) && Uneven(c) && Divides(c)
    ensures c.numLayers ==
      Virtual(c) * (OrZero(c.first) / Virtual(c) + MiddleLayers(c) / Virtual(c) + OrZero(c.last) / Virtual(c))
    ensures OrZero(c.first) / Virtual(c) >= 0 && OrZero(c.last) / Virtual(c) >= 0 && MiddleLayers(c) / Virtual(c) >= 0
    ensures MiddleStages(c) > 0 ==>
      MiddleLayers(c) / Virtual(c) == MiddleStages(c) * (MiddleLayers(c) / Virtual(c) / MiddleStages(c)) &&
      MiddleLayers(c) / Virtual(c) / MiddleStages(c) >= 0
  {
    var k := Virtual(c);
    var f, l, m := OrZero(c.first) / k, OrZero(c.last) / k, MiddleLayers(c) / k;
    assert OrZero(c.first) == k * f && OrZero(c.last) == k * l && MiddleLayers(c) == k * m;
    assert k * (f + m + l) == k * f + k * m + k * l;
  }

  lemma InterleavedFits(c: Config, p: int, v: int)
    requires Shape(c) && c.stages >= 2 && Divides(c) && c.virtualStages.Some? && c.first.Some? && MiddleStages(c) > 0
    requires 0 <= p < c.stages && 0 <= v < Virtual(c)
    ensures StageFits(c, p, v)
  {
    InterleavedTotal(c);
    var k, n := Virtual(c), MiddleStages(c);
    var f, l, m := OrZero(c.first) / k, OrZero(c.last) / k, MiddleLayers(c) / k;
    var a, total := m / n, f + m + l;
    assert (v + 1) * total == v * total + total;
    assert p * a == (p - 1) * a + a;
    assert n * a == (n - 1) * a + a;
    assert 0 * a == 0;
    assert v == k - 1 ==> (v + 1) * total == k * total;
  }

  /** Where an empty range starts does not matter. */
  lemma EmptyRangesAnywhere(starts: seq<int>, starts': seq<int>, sizes: seq<int>, layers: int)
    requires Tiles(starts', sizes, layers) && |starts| == |starts'|
    requires forall i | 0 <= i < |starts| ::
      if sizes[i] > 0 then starts[i] == starts'[i] else 0 <= starts[i] && starts[i] + sizes[i] <= layers
    ensures Tiles(starts, sizes, layers)
  {
    forall i, x ensures Holds(starts, sizes, i, x) <==> Holds(starts', sizes, i, x) {
    }
    forall x | 0 <= x < layers ensures Placed(starts, sizes, x) {
      assert Placed(starts', sizes, x);
      var i :| Holds(starts', sizes, i, x);
      assert Holds(starts, sizes, i, x);
    }
  }

  /** Two ranges a round, of m layers and of none, both starting where the round does. */
  ghost predicate WholeRound(starts: seq<int>, sizes: seq<int>, m: int, t: int)
    requires 0 <= t < |starts| == |sizes|
  {
    starts[t] == t / 2 * m && sizes[t] == if t % 2 == 0 then m else 0
  }

  function RoundStart(m: int, t: nat): int { t / 2 * m + if t % 2 == 0 then 0 else m }

  lemma RoundNext(m: int, t: nat)
    ensures RoundStart(m, t + 1) == RoundStart(m, t) + if t % 2 == 0 then m else 0
  {
    NextPosition(t, 2);
    assert (t / 2 + 1) * m == t / 2 * m + m;
  }

  lemma RoundBounds(k: int, m: nat, t: nat)
    requires t < 2 * k
    ensures 0 <= t / 2 * m <= k * m
  {
    MulMonotone(t / 2, k, m);
    MulMonotone(0, t / 2, m);
  }

  lemma WholeRoundsTile(starts: seq<int>, sizes: seq<int>, k: int, m: nat)
    requires k >= 1 && |starts| == |sizes| == 2 * k && forall t | 0 <= t < 2 * k :: WholeRound(starts, sizes, m, t)
    ensures Tiles(starts, sizes, k * m)
  {
    var chained := seq(2 * k, t requires 0 <= t => RoundStart(m, t));
    forall t | 0 <= t < 2 * k - 1 ensures chained[t + 1] == chained[t] + sizes[t] {
      assert WholeRound(starts, sizes, m, t);
      RoundNext(m, t);
    }
    var end := 2 * k - 1;
    assert WholeRound(starts, sizes, m, 0) && WholeRound(starts, sizes, m, end);
    assert RoundStart(m, end) == (k - 1) * m + m == k * m;
    forall t | 0 <= t < 2 * k ensures sizes[t] >= 0 { assert WholeRound(starts, sizes, m, t); }
    ChainTiles(chained, sizes, k * m);
    forall t | 0 <= t < 2 * k
      ensures if sizes[t] > 0 then starts[t] == chained[t] else 0 <= starts[t] && starts[t] + sizes[t] <= k * m
    {
      assert WholeRound(starts, sizes, m, t);
      RoundBounds(k, m, t);
    }
    EmptyRangesAnywhere(starts, chained, sizes, k * m);
  }

  /** Two stages, the last one configured without layers: stage 0 takes every round whole. */
  lemma EmptyLastTiles(c: Config)
    requires Shape(c) && c.stages == 2 && Divides(c) && c.virtualStages.Some?
    requires c.first == None && c.last == Some(0)
    ensures Tiles(Starts(c), Sizes(c), c.numLayers)
  {
    InterleavedTotal(c);
    var k, m := Virtual(c), MiddleLayers(c) / Virtual(c);
    forall t | 0 <= t < 2 * k ensures WholeRound(Starts(c), Sizes(c), m, t) {
      InGrid(t, 2, k);
    }
    WholeRoundsTile(Starts(c), Sizes(c), k, m);
  }

  /** Interleaved with only the last stage's count set, stages 0 and 1 start at the same layer in
      every round: the ranges tile if and only if the middle stages get no layers at all, or stage
      1 is the last one and has none. */
  lemma UnsetFirstTilesIff(c: Config)
    requires Shape(c) && c.stages >= 2 && Divides(c) && c.virtualStages.Some?
    requires c.first == None && c.last.Some?
    ensures Tiles(Starts(c), Sizes(c), c.numLayers) <==>
      MiddleLayers(c) / Virtual(c) / MiddleStages(c) == 0 || (c.stages == 2 && c.last.value == 0)
  {
    InterleavedTotal(c);
    var k, n := Virtual(c), MiddleStages(c);
    var l, m := c.last.value / k, MiddleLayers(c) / k;
    var a, total := m / n, m + l;
    assert OrZero(c.first) / k == 0;
    assert c.last.value == k * l;
    if c.stages == 2 && c.last.value == 0 {
      EmptyLastTiles(c);
    } else if a == 0 {
      assert n * a == 0 && m == 0;
      forall p, v | 0 <= p < c.stages && 0 <= v < k ensures StageFits(c, p, v) {
        assert (p - 1) * a == 0 && p * a == 0;
        assert (v + 1) * total == v * total + total;
        assert v == k - 1 ==> (v + 1) * total == k * total;
      }
      assert 0 * total == 0;
      StageChainTiles(c);
    } else {
      SharedStart(c, a, l);
    }
  }

  lemma SharedStart(c: Config, a: int, l: int)
    requires Shape(c) && c.stages >= 2 && Divides(c) && c.virtualStages.Some?
    requires c.first == None && c.last.Some? && l == c.last.value / Virtual(c) && (c.stages == 2 ==> l >= 1)
    requires a == MiddleLayers(c) / Virtual(c) / MiddleStages(c) >= 1
    ensures !Tiles(Starts(c), Sizes(c), c.numLayers)
  {
    Position(c.stages, Virtual(c), 0, 0);
    Position(c.stages, Virtual(c), 1, 0);
    assert c.stages * 0 == 0;
    var total := OrZero(c.first) / Virtual(c) + MiddleLayers(c) / Virtual(c) + OrZero(c.last) / Virtual(c);
    assert 0 * total == 0 && 0 * (MiddleLayers(c) / Virtual(c) / MiddleStages(c)) == 0;
    assert Starts(c)[0] == 0 && Starts(c)[1] == 0;
    assert Sizes(c)[0] >= 1 && Sizes(c)[1] >= 1;
    assert Holds(Starts(c), Sizes(c), 0, 0) && Holds(Starts(c), Sizes(c), 1, 0);
  }

  /** Interleaved without any middle stage, every later stage divides by zero. */
  lemma NoMiddleStageFails(c: Config, p: int, v: int)
    requires Shape(c) && c.stages == 2 && c.virtualStages.Some? && c.first.Some? && c.last.Some? && 1 <= p < 2
    ensures LayerOffset(c, p, v, false) == None
  {
  }
}
