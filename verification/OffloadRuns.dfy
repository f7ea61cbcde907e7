/** Whole forward/backward runs of the offload handler: legal call sequences, the invariant
    that ties the handler to the run, and what every run guarantees. */
module OffloadRuns {
  import opened Common
  import opened OffloadModel

  /** Where a run stands: forward group `group` with `next` tags handed out, or backward with
      group `group` committed.  `live` holds the tensors pushed and not yet popped. */
  datatype Position = Position(backward: bool, group: int, next: nat, live: map<Tag, Tensor>)

  const START := Position(false, 0, 0, map[])

  /** A training step: forward pushes then a commit per layer; backward a commit per layer,
      after which every tag of that layer is popped, in any order, before the next commit. */
  ghost predicate Legal(c: Config, p: Position, op: Op) {
    match op
    case DoPush(t, need) =>
      !p.backward && p.group < c.numLayers && t.Valid() &&
      (need ==> forall tag | tag in p.live && tag.group == p.group && p.live[tag].key == t.key ::
        p.live[tag].flat == t.flat)
    case DoCommitForward => !p.backward && p.group < c.numLayers
    case DoCommitBackward =>
      (p.backward || p.group == c.numLayers) && p.group > 0 &&
      forall tag | tag in p.live :: tag.group < p.group
    case DoPop(Direct(t)) => p.backward
    case DoPop(Tagged(tag)) => p.backward && tag in p.live && tag.group == p.group
  }

  function Next(p: Position, op: Op): Position {
    match op
    case DoPush(t, need) =>
      if need then p.(next := p.next + 1, live := p.live[Tag(p.group, p.next) := t]) else p
    case DoCommitForward => p.(group := p.group + 1, next := 0)
    case DoCommitBackward => p.(backward := true, group := p.group - 1)
    case DoPop(Direct(_)) => p
    case DoPop(Tagged(tag)) => p.(live := p.live - {tag})
  }

  ghost predicate LegalRun(c: Config, ops: seq<Op>)
  {
    ops == [] || (LegalRun(c, ops[..|ops| - 1]) && Legal(c, After(ops[..|ops| - 1]), ops[|ops| - 1]))
  }

  function After(ops: seq<Op>): Position {
    if ops == [] then START else Next(After(ops[..|ops| - 1]), ops[|ops| - 1])
  }

  /** Executing a run from the fresh handler; `Crash` when an assert or a lookup fails. */
  datatype Outcome = Running(s: Snapshot) | Crash

  ghost function Execute(c: Config, ops: seq<Op>): Outcome
    requires c.Valid()
  {
    if ops == [] then Running(FRESH) else
      match Execute(c, ops[..|ops| - 1])
      case Crash => Crash
      case Running(s) =>
        if Enabled(c, s, ops[|ops| - 1]) then Running(Step(c, s, ops[|ops| - 1])) else Crash
  }

  // ---------- the invariant ----------

  ghost function Done(c: Config, p: Position): nat
    requires c.Valid()
  {
    Passed(c, p.group, |c.window|)
  }

  /** Groups 0 .. Mapped - 1 are the ones whose host copies the handler holds. */
  ghost function Mapped(c: Config, p: Position): int
    requires c.Valid()
  {
    if p.backward then Done(c, p)
    else if p.group == 0 then 0
    else Min(Done(c, p) + 1, |c.window|)
  }

  /** The buffers of groups below this bound are freed. */
  ghost function FreedBelow(c: Config, p: Position): int
    requires c.Valid()
  {
    if p.backward then |c.window| else Done(c, p)
  }

  type Live = map<Tag, Tensor>
  type Mapping = map<int, Copies>

  /** Where the contents of a live tag are, when groups 0 .. m-1 have host copies.  When
      offloading is `tight` (fewer offloaded groups than layers) nothing of them stays on the
      device. */
  ghost predicate Backed(st: map<Tag, Saved>, gm: Mapping, live: Live, m: int, forward: bool, tight: bool, tag: Tag) {
    tag in live ==>
      tag in st &&
      match st[tag]
      case OnDevice(u) =>
        u.SameContents(live[tag]) &&
        (forward && tag.group >= m ==> u == live[tag]) &&
        (tight ==> tag.group >= m)
      case OnHost(key, shape) =>
        tag.group < m && tag.group in gm && key == live[tag].key && shape == live[tag].shape &&
        key in gm[tag.group].flats && gm[tag.group].flats[key] == live[tag].flat
  }

  ghost predicate StoresAgree(st: map<Tag, Saved>, gm: Mapping, live: Live, m: int, forward: bool, tight: bool) {
    (forall g :: g in gm <==> 0 <= g < m) &&
    st.Keys == live.Keys &&
    forall tag :: Backed(st, gm, live, m, forward, tight, tag)
  }

  ghost predicate Buffered(buf: map<Tag, Slot>, live: Live, numOffload: int, freedBelow: int, tag: Tag) {
    (tag in buf <==> tag in live && tag.group < numOffload) &&
    (tag in buf ==> buf[tag] == if tag.group < freedBelow then Freed else Held(live[tag]))
  }

  ghost predicate BuffersAgree(buf: map<Tag, Slot>, live: Live, numOffload: int, freedBelow: int) {
    forall tag :: Buffered(buf, live, numOffload, freedBelow, tag)
  }

  ghost predicate CountersAgree(c: Config, s: Snapshot, p: Position)
    requires c.Valid()
  {
    0 <= p.group <= c.numLayers && s.currentGroup == p.group && s.tensorCount == p.next &&
    (p.backward || p.group == c.numLayers ==> p.next == 0) &&
    s.offloadedCount == (if !p.backward then Done(c, p) else if p.group == 0 then 0 else Max(1, Done(c, p)))
  }

  ghost predicate FlatsMatch(live: Live, a: Tag, b: Tag) {
    a in live && b in live && a.group == b.group && live[a].key == live[b].key ==> live[a].flat == live[b].flat
  }

  ghost predicate SharedFlats(live: Live) {
    forall a, b :: FlatsMatch(live, a, b)
  }

  ghost predicate LiveTag(c: Config, p: Position, tag: Tag) {
    tag in p.live ==>
      0 <= tag.group <= p.group && tag.group < c.numLayers && p.live[tag].Valid() &&
      (!p.backward && tag.group == p.group ==> tag.index < p.next)
  }

  ghost predicate LiveWellFormed(c: Config, p: Position) {
    SharedFlats(p.live) && forall tag :: LiveTag(c, p, tag)
  }

  ghost predicate InSync(c: Config, s: Snapshot, p: Position)
    requires c.Valid()
  {
    CountersAgree(c, s, p) && LiveWellFormed(c, p) &&
    BuffersAgree(s.tagToBuf, p.live, |c.window|, FreedBelow(c, p)) &&
    StoresAgree(s.tagToState, s.groupMapping, p.live, Mapped(c, p), !p.backward, |c.window| < c.numLayers)
  }

  lemma StartInSync(c: Config)
    requires c.Valid()
    ensures InSync(c, FRESH, START)
  {
    PassedAtEnds(c);
  }

  // ---------- each call keeps the invariant ----------

  lemma PushStores(st: map<Tag, Saved>, gm: Mapping, live: Live, m: int, tight: bool, tag: Tag, t: Tensor)
    requires StoresAgree(st, gm, live, m, true, tight) && tag !in live && (tight ==> tag.group >= m)
    ensures StoresAgree(st[tag := OnDevice(t)], gm, live[tag := t], m, true, tight)
  {
    var st', live' := st[tag := OnDevice(t)], live[tag := t];
    forall x ensures Backed(st', gm, live', m, true, tight, x) {
      assert Backed(st, gm, live, m, true, tight, x);
    }
  }

  lemma PushBuffers(buf: map<Tag, Slot>, live: Live, n: int, freed: int, tag: Tag, t: Tensor)
    requires BuffersAgree(buf, live, n, freed) && tag !in live && freed <= tag.group
    ensures BuffersAgree(if tag.group < n then buf[tag := Held(t)] else buf, live[tag := t], n, freed)
  {
    var buf', live' := if tag.group < n then buf[tag := Held(t)] else buf, live[tag := t];
    forall x ensures Buffered(buf', live', n, freed, x) {
      assert Buffered(buf, live, n, freed, x);
    }
  }

  lemma PopStores(st: map<Tag, Saved>, gm: Mapping, live: Live, m: int, tight: bool, tag: Tag)
    requires StoresAgree(st, gm, live, m, false, tight)
    ensures StoresAgree(st - {tag}, gm, live - {tag}, m, false, tight)
  {
    assert (st - {tag}).Keys == (live - {tag}).Keys;
    forall x ensures Backed(st - {tag}, gm, live - {tag}, m, false, tight, x) {
      assert Backed(st, gm, live, m, false, tight, x);
    }
  }

  lemma PopBuffers(buf: map<Tag, Slot>, live: Live, n: int, freed: int, tag: Tag)
    requires BuffersAgree(buf, live, n, freed)
    ensures BuffersAgree(buf - {tag}, live - {tag}, n, freed)
  {
    forall x ensures Buffered(buf - {tag}, live - {tag}, n, freed, x) {
      assert Buffered(buf, live, n, freed, x);
    }
  }

  lemma DoneBound(c: Config, p: Position)
    requires c.Valid() && p.group >= 0
    ensures Done(c, p) <= p.group
    ensures |c.window| < c.numLayers ==> Mapped(c, p) <= p.group
  {
    assert c.OnTime(Done(c, p) - 1);
  }

  lemma PushLive(c: Config, p: Position, t: Tensor)
    requires LiveWellFormed(c, p) && Legal(c, p, DoPush(t, true)) && p.group >= 0
    ensures Tag(p.group, p.next) !in p.live
    ensures LiveWellFormed(c, Next(p, DoPush(t, true)))
  {
    var tag, p' := Tag(p.group, p.next), Next(p, DoPush(t, true));
    assert LiveTag(c, p, tag);
    forall a, b ensures FlatsMatch(p'.live, a, b) {
      assert FlatsMatch(p.live, a, b);
    }
    forall x ensures LiveTag(c, p', x) {
      assert LiveTag(c, p, x);
    }
  }

  lemma PopLive(c: Config, p: Position, tag: Tag)
    requires LiveWellFormed(c, p)
    ensures LiveWellFormed(c, p.(live := p.live - {tag}))
  {
    var p' := p.(live := p.live - {tag});
    forall a, b ensures FlatsMatch(p'.live, a, b) {
      assert FlatsMatch(p.live, a, b);
    }
    forall x ensures LiveTag(c, p', x) {
      assert LiveTag(c, p, x);
    }
  }

  lemma CommitLive(c: Config, p: Position, op: Op)
    requires LiveWellFormed(c, p) && Legal(c, p, op) && (op.DoCommitForward? || op.DoCommitBackward?)
    ensures LiveWellFormed(c, Next(p, op))
  {
    forall x ensures LiveTag(c, Next(p, op), x) {
      assert LiveTag(c, p, x);
    }
  }

  lemma FreedBuffersAgree(buf: map<Tag, Slot>, live: Live, n: int, freed: int)
    requires BuffersAgree(buf, live, n, freed)
    ensures BuffersAgree(FreedBuffers(buf, freed), live, n, freed + 1)
  {
    var buf', freed' := FreedBuffers(buf, freed), freed + 1;
    forall x ensures Buffered(buf', live, n, freed', x) {
      assert Buffered(buf, live, n, freed, x);
    }
  }

  lemma PushInSync(c: Config, s: Snapshot, p: Position, t: Tensor, need: bool)
    requires c.Valid() && InSync(c, s, p) && Legal(c, p, DoPush(t, need))
    ensures PushEnabled(s, need)
    ensures need ==> PushHandle(s, t, need) == Tagged(Tag(p.group, p.next))
    ensures InSync(c, Push(c, s, t, need), Next(p, DoPush(t, need)))
  {
    var tag := Tag(p.group, p.next);
    DoneBound(c, p);
    if !need { return; }
    PushLive(c, p, t);
    PushStores(s.tagToState, s.groupMapping, p.live, Mapped(c, p), |c.window| < c.numLayers, tag, t);
    PushBuffers(s.tagToBuf, p.live, |c.window|, Done(c, p), tag, t);
  }

  lemma PopInSync(c: Config, s: Snapshot, p: Position, h: Handle)
    requires c.Valid() && InSync(c, s, p) && Legal(c, p, DoPop(h))
    ensures PopEnabled(s, h)
    ensures PopResult(s, h).SameContents(match h case Direct(t) => t case Tagged(tag) => p.live[tag])
    ensures InSync(c, Pop(s, h), Next(p, DoPop(h)))
  {
    DoneBound(c, p);
    if h.Tagged? {
      assert Backed(s.tagToState, s.groupMapping, p.live, Mapped(c, p), false, |c.window| < c.numLayers, h.tag);
      PopLive(c, p, h.tag);
      PopStores(s.tagToState, s.groupMapping, p.live, Mapped(c, p), |c.window| < c.numLayers, h.tag);
      PopBuffers(s.tagToBuf, p.live, |c.window|, |c.window|, h.tag);
    }
  }

  lemma OffloadAllowed(s: Snapshot, live: Live, m: int, tight: bool)
    requires SharedFlats(live) && StoresAgree(s.tagToState, s.groupMapping, live, m, true, tight)
    ensures BulkOffloadEnabled(s, m)
  {
    forall tag | tag in s.tagToState && tag.group == m ensures s.tagToState[tag] == OnDevice(live[tag]) {
      assert Backed(s.tagToState, s.groupMapping, live, m, true, tight, tag);
    }
    forall key, a, b | Owns(s.tagToState, m, key, a) && Owns(s.tagToState, m, key, b)
      ensures s.tagToState[a].tensor.flat == s.tagToState[b].tensor.flat
    {
      assert FlatsMatch(live, a, b);
    }
  }

  lemma OffloadStores(s: Snapshot, live: Live, m: int, tight: bool)
    requires StoresAgree(s.tagToState, s.groupMapping, live, m, true, tight) && m >= 0
    requires BulkOffloadEnabled(s, m)
    ensures var s' := BulkOffload(s, m);
      StoresAgree(s'.tagToState, s'.groupMapping, live, m + 1, true, tight)
  {
    var s', m' := BulkOffload(s, m), m + 1;
    forall tag ensures Backed(s'.tagToState, s'.groupMapping, live, m', true, tight, tag) {
      assert Backed(s.tagToState, s.groupMapping, live, m, true, tight, tag);
      if tag in live && tag.group == m { HostCopiesHold(s.tagToState, m, tag); }
    }
  }

  ghost predicate AllValid(live: Live) {
    forall tag | tag in live :: live[tag].Valid()
  }

  lemma LiveValid(c: Config, p: Position)
    requires LiveWellFormed(c, p)
    ensures AllValid(p.live)
  {
    forall tag | tag in p.live ensures p.live[tag].Valid() { assert LiveTag(c, p, tag); }
  }

  lemma ReloadStores(c: Config, s: Snapshot, live: Live, m: int, tight: bool)
    requires StoresAgree(s.tagToState, s.groupMapping, live, m, false, tight) && 0 < m <= |c.window|
    requires AllValid(live)
    ensures BulkReloadEnabled(c, s, m - 1)
    ensures var s' := BulkReload(c, s, m - 1);
      StoresAgree(s'.tagToState, s'.groupMapping, live, m - 1, false, tight)
  {
    forall tag | tag in s.tagToState && tag.group == m - 1 && s.tagToState[tag].OnHost?
      ensures s.tagToState[tag].key in s.groupMapping[m - 1].flats
      ensures |s.groupMapping[m - 1].flats[s.tagToState[tag].key]| == Numel(s.tagToState[tag].shape)
    {
      assert Backed(s.tagToState, s.groupMapping, live, m, false, tight, tag);
    }
    var s', m' := BulkReload(c, s, m - 1), m - 1;
    forall tag ensures Backed(s'.tagToState, s'.groupMapping, live, m', false, tight, tag) {
      assert Backed(s.tagToState, s.groupMapping, live, m, false, tight, tag);
    }
  }

  /** Committing group g moves past the window entry equal to g, if there is one. */
  lemma PassedNext(c: Config, g: int)
    requires c.Valid() && 0 <= g < c.numLayers
    ensures var k, k' := Passed(c, g, |c.window|), Passed(c, g + 1, |c.window|);
      k < |c.window| && k' == if c.window[k] == g then k + 1 else k
  {
    var k: int, k': int := Passed(c, g, |c.window|), Passed(c, g + 1, |c.window|);
    assert Ahead(c, g, k) && Ahead(c, g + 1, k');
    assert c.Increases(k, k + 1) && c.Increases(k, k' - 1) && c.Increases(k', k - 1);
  }

  lemma PassedAtEnds(c: Config)
    requires c.Valid()
    ensures Passed(c, c.numLayers, |c.window|) == |c.window|
    ensures Passed(c, 0, |c.window|) == 0
  {
    var k: int, k': int := Passed(c, c.numLayers, |c.window|), Passed(c, 0, |c.window|);
    assert Ahead(c, c.numLayers, k) && c.OnTime(k) && c.OnTime(k' - 1);
  }

  lemma WindowCommitAgrees(c: Config, s: Snapshot, live: Live, tight: bool)
    requires c.Valid() && SharedFlats(live) && 0 <= s.offloadedCount < |c.window|
    requires StoresAgree(s.tagToState, s.groupMapping, live, Min(s.offloadedCount + 1, |c.window|), true, tight)
    requires BuffersAgree(s.tagToBuf, live, |c.window|, s.offloadedCount)
    ensures WindowCommitEnabled(c, s)
    ensures var s' := WindowCommit(c, s);
      s'.currentGroup == s.currentGroup &&
      s'.offloadedCount ==
        (if c.window[s.offloadedCount] == s.currentGroup then s.offloadedCount + 1 else s.offloadedCount) &&
      StoresAgree(s'.tagToState, s'.groupMapping, live, Min(s'.offloadedCount + 1, |c.window|), true, tight) &&
      BuffersAgree(s'.tagToBuf, live, |c.window|, s'.offloadedCount)
  {
    var k := s.offloadedCount;
    FreedBuffersAgree(s.tagToBuf, live, |c.window|, k);
    if c.window[k] == s.currentGroup && k < |c.window| - 1 {
      OffloadAllowed(s, live, k + 1, tight);
      OffloadStores(s, live, k + 1, tight);
    }
  }

  lemma FirstOffload(c: Config, s: Snapshot, p: Position)
    requires c.Valid() && InSync(c, s, p) && Legal(c, p, DoCommitForward)
    ensures s.currentGroup == 0 ==> BulkOffloadEnabled(s, 0)
    ensures var s' := if s.currentGroup == 0 then BulkOffload(s, 0) else s;
      StoresAgree(s'.tagToState, s'.groupMapping, p.live, Min(Done(c, p) + 1, |c.window|), true,
        |c.window| < c.numLayers)
  {
    if p.group == 0 {
      PassedAtEnds(c);
      OffloadAllowed(s, p.live, 0, |c.window| < c.numLayers);
      OffloadStores(s, p.live, 0, |c.window| < c.numLayers);
    }
  }

  lemma CommitForwardInSync(c: Config, s: Snapshot, p: Position)
    requires c.Valid() && InSync(c, s, p) && Legal(c, p, DoCommitForward)
    ensures CommitForwardEnabled(c, s)
    ensures InSync(c, CommitForward(c, s), Next(p, DoCommitForward))
  {
    PassedNext(c, p.group);
    CommitLive(c, p, DoCommitForward);
    FirstOffload(c, s, p);
    var s1, p' := if s.currentGroup == 0 then BulkOffload(s, 0) else s, Next(p, DoCommitForward);
    WindowCommitAgrees(c, s1, p.live, |c.window| < c.numLayers);
    var s2 := WindowCommit(c, s1);
    assert s2.offloadedCount == Done(c, p') == FreedBelow(c, p') &&
      Mapped(c, p') == Min(s2.offloadedCount + 1, |c.window|);
  }

  lemma StartBackward(st: map<Tag, Saved>, gm: Mapping, live: Live, m: int, forward: bool, tight: bool)
    requires StoresAgree(st, gm, live, m, forward, tight)
    ensures StoresAgree(st, gm, live, m, false, tight)
  {
    forall tag ensures Backed(st, gm, live, m, false, tight, tag) {
      assert Backed(st, gm, live, m, forward, tight, tag);
    }
  }

  lemma CommitBackwardInSync(c: Config, s: Snapshot, p: Position)
    requires c.Valid() && InSync(c, s, p) && Legal(c, p, DoCommitBackward)
    ensures CommitBackwardEnabled(c, s)
    ensures InSync(c, CommitBackward(c, s), Next(p, DoCommitBackward))
  {
    PassedNext(c, p.group - 1);
    PassedAtEnds(c);
    CommitLive(c, p, DoCommitBackward);
    var p', tight := Next(p, DoCommitBackward), |c.window| < c.numLayers;
    var k, k' := Done(c, p), Done(c, p');
    StartBackward(s.tagToState, s.groupMapping, p.live, k, !p.backward, tight);
    assert FreedBelow(c, p) == FreedBelow(c, p') == |c.window| && Mapped(c, p') == k';
    if c.window[k'] == p'.group {
      LiveValid(c, p);
      ReloadStores(c, s, p.live, k, tight);
    }
  }

  // ---------- what every run guarantees ----------

  lemma StepInSync(c: Config, s: Snapshot, p: Position, op: Op)
    requires c.Valid() && InSync(c, s, p) && Legal(c, p, op)
    ensures Enabled(c, s, op) && InSync(c, Step(c, s, op), Next(p, op))
  {
    match op
    case DoPush(t, need) => PushInSync(c, s, p, t, need);
    case DoCommitForward => CommitForwardInSync(c, s, p);
    case DoCommitBackward => CommitBackwardInSync(c, s, p);
    case DoPop(h) => PopInSync(c, s, p, h);
  }

  /** No assert and no lookup of any call in any legal run fails. */
  lemma {:induction false} RunNeverCrashes(c: Config, ops: seq<Op>)
    requires c.Valid() && LegalRun(c, ops)
    ensures Execute(c, ops).Running? && InSync(c, Execute(c, ops).s, After(ops))
  {
    if ops == [] {
      StartInSync(c);
    } else {
      var before := ops[..|ops| - 1];
      RunNeverCrashes(c, before);
      StepInSync(c, Execute(c, before).s, After(before), ops[|ops| - 1]);
    }
  }

  /** The tensor most recently pushed under a tag, read off the calls alone. */
  function PushedUnder(ops: seq<Op>, tag: Tag): seq<Tensor> {
    if ops == [] then [] else
      var before, op := ops[..|ops| - 1], ops[|ops| - 1];
      if op.DoPush? && op.need && tag == Tag(After(before).group, After(before).next)
      then [op.tensor] else PushedUnder(before, tag)
  }

  lemma {:induction false} LiveIsPushed(c: Config, ops: seq<Op>, tag: Tag)
    requires LegalRun(c, ops) && tag in After(ops).live
    ensures PushedUnder(ops, tag) == [After(ops).live[tag]]
  {
    var before, op := ops[..|ops| - 1], ops[|ops| - 1];
    if !(op.DoPush? && op.need && tag == Tag(After(before).group, After(before).next)) {
      LiveIsPushed(c, before, tag);
    }
  }

  /** In every legal run a push hands out the run's next tag, and a pop returns the contents
      pushed under the popped tag. */
  lemma PopReturnsPushed(c: Config, ops: seq<Op>, tag: Tag)
    requires c.Valid() && LegalRun(c, ops) && Legal(c, After(ops), DoPop(Tagged(tag)))
    ensures Execute(c, ops).Running? && PopEnabled(Execute(c, ops).s, Tagged(tag))
    ensures |PushedUnder(ops, tag)| == 1
    ensures PopResult(Execute(c, ops).s, Tagged(tag)).SameContents(PushedUnder(ops, tag)[0])
  {
    RunNeverCrashes(c, ops);
    PopInSync(c, Execute(c, ops).s, After(ops), Tagged(tag));
    LiveIsPushed(c, ops, tag);
  }

  lemma PushReturnsNextTag(c: Config, ops: seq<Op>, t: Tensor)
    requires c.Valid() && LegalRun(c, ops) && Legal(c, After(ops), DoPush(t, true))
    ensures Execute(c, ops).Running?
    ensures PushHandle(Execute(c, ops).s, t, true) == Tagged(Tag(After(ops).group, After(ops).next))
  {
    RunNeverCrashes(c, ops);
    PushInSync(c, Execute(c, ops).s, After(ops), t, true);
  }

  /** A run is complete when every backward commit happened and every tag was popped. */
  predicate Complete(p: Position) { p.backward && p.group == 0 && p.live == map[] }

  /** A complete run leaves the handler as it was constructed. */
  lemma CompleteRunRestoresHandler(c: Config, ops: seq<Op>)
    requires c.Valid() && LegalRun(c, ops) && Complete(After(ops))
    ensures Execute(c, ops) == Running(FRESH)
  {
    RunNeverCrashes(c, ops);
    PassedAtEnds(c);
    var s := Execute(c, ops).s;
    assert s.tagToState == map[];
    assert forall g :: g !in s.groupMapping;
    assert s.groupMapping == map[];
    forall tag ensures tag !in s.tagToBuf { assert Buffered(s.tagToBuf, map[], |c.window|, |c.window|, tag); }
    assert s.tagToBuf == map[];
  }
}
