/** The memory claim: which groups have a tensor on the device at every point of every run, and
    for which numbers of offloaded groups that is at most two. */
module OffloadMemory {
  import opened OffloadModel
  import opened OffloadRuns

  /** The groups with a tensor on the device, in either dictionary. */
  function Resident(s: Snapshot): set<int> {
    (set tag | tag in s.tagToState && s.tagToState[tag].OnDevice? :: tag.group) +
    (set tag | tag in s.tagToBuf && s.tagToBuf[tag].Held? :: tag.group)
  }

  ghost predicate IsResident(s: Snapshot, tag: Tag) {
    (tag in s.tagToState && s.tagToState[tag].OnDevice?) || (tag in s.tagToBuf && s.tagToBuf[tag].Held?)
  }

  /** Some tensor of the group is pushed and not yet popped. */
  ghost predicate HasLive(p: Position, g: int) {
    exists tag :: tag in p.live && tag.group == g
  }

  // ---------- fewer offloaded groups than layers ----------

  lemma ResidentTag(c: Config, s: Snapshot, p: Position, tag: Tag)
    requires c.Valid() && InSync(c, s, p) && |c.window| < c.numLayers
    ensures IsResident(s, tag) <==> tag in p.live && Done(c, p) <= tag.group
  {
    PassedAtEnds(c);
    assert Buffered(s.tagToBuf, p.live, |c.window|, FreedBelow(c, p), tag);
    assert Backed(s.tagToState, s.groupMapping, p.live, Mapped(c, p), !p.backward, true, tag);
  }

  /** With fewer offloaded groups than layers, a group is on the device exactly when it has live
      tensors and its window has not passed. */
  lemma ResidentExactly(c: Config, ops: seq<Op>, g: int)
    requires c.Valid() && LegalRun(c, ops) && |c.window| < c.numLayers
    ensures Execute(c, ops).Running?
    ensures g in Resident(Execute(c, ops).s) <==> HasLive(After(ops), g) && Done(c, After(ops)) <= g
  {
    RunNeverCrashes(c, ops);
    var s, p := Execute(c, ops).s, After(ops);
    if g in Resident(s) {
      var tag: Tag :| tag.group == g && IsResident(s, tag);
      ResidentTag(c, s, p, tag);
    }
    if HasLive(p, g) && Done(c, p) <= g {
      var tag :| tag in p.live && tag.group == g;
      ResidentTag(c, s, p, tag);
    }
  }

  lemma LiveWithin(c: Config, ops: seq<Op>, g: int)
    requires c.Valid() && LegalRun(c, ops) && HasLive(After(ops), g)
    ensures 0 <= g <= After(ops).group && g < c.numLayers
  {
    RunNeverCrashes(c, ops);
    var tag :| tag in After(ops).live && tag.group == g;
    assert LiveTag(c, After(ops), tag);
  }

  // ---------- as many offloaded groups as layers ----------

  lemma {:induction false} FullWindow(c: Config, i: int)
    requires c.Valid() && |c.window| == c.numLayers && 0 <= i < |c.window|
    ensures c.window[i] == i
    decreases |c.window| - i
  {
    assert c.OnTime(i);
    if i == |c.window| - 1 {
    } else {
      FullWindow(c, i + 1);
      assert c.Increases(i, i + 1);
    }
  }

  lemma FullDone(c: Config, p: Position)
    requires c.Valid() && |c.window| == c.numLayers && 0 <= p.group <= c.numLayers
    ensures Done(c, p) == p.group
  {
    var k := Done(c, p);
    if k > 0 { FullWindow(c, k - 1); }
    if k < |c.window| {
      FullWindow(c, k);
      assert Ahead(c, p.group, k);
    }
  }

  /** The tensors of group 0 are on the host between its two commits; all others never leave. */
  ghost predicate Unmoved(st: map<Tag, Saved>, p: Position, tag: Tag) {
    tag in p.live ==> tag in st && (st[tag].OnHost? <==> tag.group == 0 && p.group > 0)
  }

  ghost predicate AllUnmoved(st: map<Tag, Saved>, p: Position) {
    forall tag :: Unmoved(st, p, tag)
  }

  lemma CommitForwardUnmoved(c: Config, s: Snapshot, p: Position)
    requires c.Valid() && InSync(c, s, p) && |c.window| == c.numLayers && AllUnmoved(s.tagToState, p)
    requires Legal(c, p, DoCommitForward) && CommitForwardEnabled(c, s)
    ensures AllUnmoved(CommitForward(c, s).tagToState, Next(p, DoCommitForward))
  {
    FullDone(c, p);
    FullWindow(c, p.group);
    var p', st' := Next(p, DoCommitForward), CommitForward(c, s).tagToState;
    forall tag ensures Unmoved(st', p', tag) {
      assert Unmoved(s.tagToState, p, tag) && LiveTag(c, p, tag);
    }
  }

  lemma CommitBackwardUnmoved(c: Config, s: Snapshot, p: Position)
    requires c.Valid() && InSync(c, s, p) && |c.window| == c.numLayers && AllUnmoved(s.tagToState, p)
    requires Legal(c, p, DoCommitBackward) && CommitBackwardEnabled(c, s)
    ensures AllUnmoved(CommitBackward(c, s).tagToState, Next(p, DoCommitBackward))
  {
    FullDone(c, p);
    FullWindow(c, p.group - 1);
    var p', st' := Next(p, DoCommitBackward), CommitBackward(c, s).tagToState;
    forall tag ensures Unmoved(st', p', tag) {
      assert Unmoved(s.tagToState, p, tag);
    }
  }

  lemma StepUnmoved(c: Config, s: Snapshot, p: Position, op: Op)
    requires c.Valid() && InSync(c, s, p) && |c.window| == c.numLayers && AllUnmoved(s.tagToState, p)
    requires Legal(c, p, op) && Enabled(c, s, op)
    ensures AllUnmoved(Step(c, s, op).tagToState, Next(p, op))
  {
    match op
    case DoCommitForward => CommitForwardUnmoved(c, s, p);
    case DoCommitBackward => CommitBackwardUnmoved(c, s, p);
    case DoPush(_, _) =>
      forall tag ensures Unmoved(Step(c, s, op).tagToState, Next(p, op), tag) { assert Unmoved(s.tagToState, p, tag); }
    case DoPop(_) =>
      forall tag ensures Unmoved(Step(c, s, op).tagToState, Next(p, op), tag) { assert Unmoved(s.tagToState, p, tag); }
  }

  /** With as many offloaded groups as layers each group after the first is offloaded before its
      tensors are pushed: in every run they stay on the device. */
  lemma {:induction false} FullWindowUnmoved(c: Config, ops: seq<Op>)
    requires c.Valid() && LegalRun(c, ops) && |c.window| == c.numLayers
    ensures Execute(c, ops).Running? && AllUnmoved(Execute(c, ops).s.tagToState, After(ops))
  {
    RunNeverCrashes(c, ops);
    if ops == [] {
    } else {
      var before, op := ops[..|ops| - 1], ops[|ops| - 1];
      RunNeverCrashes(c, before);
      FullWindowUnmoved(c, before);
      StepUnmoved(c, Execute(c, before).s, After(before), op);
    }
  }

  lemma ResidentUnmoved(c: Config, s: Snapshot, p: Position, tag: Tag)
    requires c.Valid() && InSync(c, s, p) && |c.window| == c.numLayers && AllUnmoved(s.tagToState, p)
    ensures IsResident(s, tag) <==> tag in p.live && (tag.group != 0 || p.group == 0)
  {
    FullDone(c, p);
    assert Buffered(s.tagToBuf, p.live, |c.window|, FreedBelow(c, p), tag);
    assert Unmoved(s.tagToState, p, tag);
  }

  /** So a group is on the device exactly when it has live tensors and is not group 0 between its
      commits. */
  lemma ResidentFullWindow(c: Config, ops: seq<Op>, g: int)
    requires c.Valid() && LegalRun(c, ops) && |c.window| == c.numLayers
    ensures Execute(c, ops).Running?
    ensures g in Resident(Execute(c, ops).s) <==> HasLive(After(ops), g) && (g != 0 || After(ops).group == 0)
  {
    RunNeverCrashes(c, ops);
    FullWindowUnmoved(c, ops);
    var s, p := Execute(c, ops).s, After(ops);
    if g in Resident(s) {
      var tag: Tag :| tag.group == g && IsResident(s, tag);
      ResidentUnmoved(c, s, p, tag);
    }
    if HasLive(p, g) && (g != 0 || p.group == 0) {
      var tag :| tag in p.live && tag.group == g;
      ResidentUnmoved(c, s, p, tag);
    }
  }

  // ---------- at most two groups ----------

  ghost predicate TwoGroups(c: Config)
    requires c.Valid()
  {
    forall ops | LegalRun(c, ops) :: AtMostTwo(c, ops)
  }

  ghost predicate AtMostTwo(c: Config, ops: seq<Op>)
    requires c.Valid()
  {
    Execute(c, ops).Running? && |Resident(Execute(c, ops).s)| <= 2
  }

  lemma TwoOf(r: set<int>, a: int, b: int)
    requires forall x | x in r :: x == a || x == b
    ensures |r| <= 2
  {
    var pair := {a, b};
    assert forall x | x in r :: x in pair;
    assert pair == r + (pair - r);
  }

  lemma ThreeIn(r: set<int>, a: int)
    requires a in r && a + 1 in r && a + 2 in r
    ensures |r| >= 3
  {
    var three := {a, a + 1, a + 2};
    assert forall x | x in three :: x in r;
    assert r == three + (r - three);
  }

  /** `enable_activation_offloading` offloads one group fewer than there are layers: at every
      point of every run at most two groups, the current one and the one before it, have a
      tensor on the device. */
  lemma AtMostTwoGroupsResident(numLayers: int, ops: seq<Op>)
    requires numLayers >= 2 && LegalRun(Schedule(numLayers - 1, numLayers), ops)
    ensures Schedule(numLayers - 1, numLayers).Valid()
    ensures Execute(Schedule(numLayers - 1, numLayers), ops).Running?
    ensures var r := Resident(Execute(Schedule(numLayers - 1, numLayers), ops).s);
      |r| <= 2 && forall g | g in r :: After(ops).group - 1 <= g <= After(ops).group
  {
    var c := Schedule(numLayers - 1, numLayers);
    ScheduleValid(numLayers - 1, numLayers);
    RunNeverCrashes(c, ops);
    var p, k: int := After(ops), Done(c, After(ops));
    assert Ahead(c, p.group, k);
    forall g | g in Resident(Execute(c, ops).s) ensures p.group - 1 <= g <= p.group {
      ResidentExactly(c, ops, g);
      LiveWithin(c, ops, g);
    }
    TwoOf(Resident(Execute(c, ops).s), p.group - 1, p.group);
  }

  lemma AtMostTwoOfThree(c: Config, ops: seq<Op>)
    requires c.Valid() && LegalRun(c, ops) && |c.window| == c.numLayers <= 3
    ensures AtMostTwo(c, ops)
  {
    RunNeverCrashes(c, ops);
    var r, g := Resident(Execute(c, ops).s), After(ops).group;
    forall x | x in r ensures if g == 0 then x == 0 else x == 1 || x == 2 {
      ResidentFullWindow(c, ops, x);
      LiveWithin(c, ops, x);
    }
    if g == 0 { TwoOf(r, 0, 0); } else { TwoOf(r, 1, 2); }
  }

  // ---------- a run that fills the device ----------

  const SCALAR := Tensor(Original(0), [], [0])

  /** One push in each of the groups 0 .. k, up to the last push. */
  function PushEach(k: nat): seq<Op> {
    if k == 0 then [DoPush(SCALAR, true)] else PushEach(k - 1) + [DoCommitForward] + [DoPush(SCALAR, true)]
  }

  lemma LegalSnoc(c: Config, ops: seq<Op>, op: Op)
    requires LegalRun(c, ops) && Legal(c, After(ops), op)
    ensures LegalRun(c, ops + [op]) && After(ops + [op]) == Next(After(ops), op)
  {
    var run := ops + [op];
    assert run[..|run| - 1] == ops;
  }

  ghost predicate OneEach(p: Position, k: nat) {
    !p.backward && p.group == k && p.live.Keys == set j: int | 0 <= j <= k :: Tag(j, 0)
  }

  ghost predicate Pushed(c: Config, ops: seq<Op>, k: nat) {
    LegalRun(c, ops) && OneEach(After(ops), k)
  }

  lemma PushedNext(c: Config, ops: seq<Op>, k: nat)
    requires Pushed(c, ops, k) && k + 1 < c.numLayers
    ensures Pushed(c, ops + [DoCommitForward] + [DoPush(SCALAR, true)], k + 1)
  {
    LegalSnoc(c, ops, DoCommitForward);
    var run := ops + [DoCommitForward];
    NextPush(After(run), k + 1);
    LegalSnoc(c, run, DoPush(SCALAR, true));
  }

  lemma {:induction false} PushEachLegal(c: Config, k: nat)
    requires k < c.numLayers
    ensures Pushed(c, PushEach(k), k)
  {
    if k == 0 {
      LegalSnoc(c, [], DoPush(SCALAR, true));
      assert [] + [DoPush(SCALAR, true)] == PushEach(0);
      NextPush(START, 0);
    } else {
      PushEachLegal(c, k - 1);
      PushedNext(c, PushEach(k - 1), k - 1);
    }
  }

  lemma NextPush(p: Position, k: nat)
    requires !p.backward && p.group == k && p.next == 0 && p.live.Keys == set j: int | 0 <= j < k :: Tag(j, 0)
    ensures OneEach(Next(p, DoPush(SCALAR, true)), k)
    ensures forall tag | tag in p.live :: tag.group != k
  {
    forall tag | tag in p.live ensures tag.group != k { assert tag in p.live.Keys; }
    assert Next(p, DoPush(SCALAR, true)).live.Keys == p.live.Keys + {Tag(k, 0)};
  }

  lemma PushEachLive(p: Position, k: nat, g: int)
    requires OneEach(p, k)
    ensures HasLive(p, g) <==> 0 <= g <= k
  {
    if 0 <= g <= k { assert Tag(g, 0) in p.live.Keys; }
    if HasLive(p, g) {
      var tag :| tag in p.live && tag.group == g;
      assert tag in p.live.Keys;
    }
  }

  lemma TooFewGroups(c: Config)
    requires c.Valid() && |c.window| <= c.numLayers - 2
    ensures !TwoGroups(c)
  {
    var k, ops := c.numLayers - 1, PushEach(c.numLayers - 1);
    PushEachLegal(c, k);
    RunNeverCrashes(c, ops);
    var d := Done(c, After(ops));
    assert d <= |c.window| - 1;
    forall g | k - 2 <= g <= k ensures g in Resident(Execute(c, ops).s) {
      ResidentExactly(c, ops, g);
      PushEachLive(After(ops), k, g);
    }
    ThreeIn(Resident(Execute(c, ops).s), k - 2);
    assert !AtMostTwo(c, ops);
  }

  lemma TooManyGroups(c: Config)
    requires c.Valid() && |c.window| == c.numLayers >= 4
    ensures !TwoGroups(c)
  {
    var k, ops := c.numLayers - 1, PushEach(c.numLayers - 1);
    PushEachLegal(c, k);
    RunNeverCrashes(c, ops);
    forall g | 1 <= g <= 3 ensures g in Resident(Execute(c, ops).s) {
      ResidentFullWindow(c, ops, g);
      PushEachLive(After(ops), k, g);
    }
    ThreeIn(Resident(Execute(c, ops).s), 1);
    assert !AtMostTwo(c, ops);
  }

  /** Among all numbers of offloaded groups, at most two groups are on the device at every point
      of every run if and only if one group fewer than the layers is offloaded, or all of at most
      three. */
  lemma TwoGroupsIff(numGroups: int, numLayers: int)
    requires 1 <= numGroups <= numLayers
    ensures Schedule(numGroups, numLayers).Valid()
    ensures TwoGroups(Schedule(numGroups, numLayers)) <==>
      numGroups == numLayers - 1 || (numGroups == numLayers && numLayers <= 3)
  {
    ScheduleValid(numGroups, numLayers);
    var c := Schedule(numGroups, numLayers);
    if numGroups == numLayers - 1 {
      forall ops | LegalRun(c, ops) ensures AtMostTwo(c, ops) { AtMostTwoGroupsResident(numLayers, ops); }
    } else if numGroups < numLayers {
      TooFewGroups(c);
    } else if numLayers <= 3 {
      forall ops | LegalRun(c, ops) ensures AtMostTwo(c, ops) { AtMostTwoOfThree(c, ops); }
    } else {
      TooManyGroups(c);
    }
  }
}
