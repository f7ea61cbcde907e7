/** Cleaning what was cleaned: when it cuts nothing more, and that it may. */
module TravelReclean {
  import opened Common
  import opened TravelReplay
  import opened TravelProtocol
  import opened TravelCleaning
  import opened TravelSft

  /** The turn's reason to be kept lies among the first `count` events. */
  ghost predicate Justified(events: seq<Event>, count: nat, spec: Option<TaskSpec>, x: nat)
    requires x < count <= |events|
  {
    match VerdictOn(events[x], events, spec)
    case RepairedContext(_) => exists r :: 0 <= r < count && Repairs(events[x], events[r], events)
    case WrongContext => exists r :: 0 <= r < count && LaterAspect(events[x], events[r])
    case _ => true
  }

  ghost predicate LaterAspect(e: Event, later: Event) {
    later.index > e.index && later.accepted && later.aspect.Some? && later.aspect != e.aspect
  }

  ghost predicate AllJustified(events: seq<Event>, count: nat, spec: Option<TaskSpec>)
    requires count <= |events|
  {
    forall x | 0 <= x < count :: Justified(events, count, spec, x)
  }

  /** A prefix of increasing events. */
  ghost predicate EventPrefix(kept: seq<Event>, events: seq<Event>) {
    |kept| <= |events| && (forall x | 0 <= x < |kept| :: kept[x] == events[x]) &&
    forall x, y | 0 <= x < y < |events| :: events[x].index < events[y].index
  }

  lemma RepairsInPrefix(kept: seq<Event>, events: seq<Event>, x: nat, r: nat)
    requires EventPrefix(kept, events) && x < |kept| && r < |kept|
    ensures Repairs(kept[x], kept[r], kept) <==> Repairs(events[x], events[r], events)
  {
    var e := events[x];
    if i :| 0 <= i < |events| && events[i].index < e.index && events[i].accepted && events[i].aspect.Some? {
      assert i < x;
      assert kept[i] == events[i];
    }
    if i :| 0 <= i < |kept| && kept[i].index < e.index && kept[i].accepted && kept[i].aspect.Some? {
      assert kept[i] == events[i];
    }
    assert SomeAcceptedAspectBefore(e, kept) <==> SomeAcceptedAspectBefore(e, events);
  }

  lemma FutureInPrefix(kept: seq<Event>, events: seq<Event>, x: nat)
    requires EventPrefix(kept, events) && x < |kept|
    ensures FutureRepair(kept[x], kept, 0).Some? <==>
      exists r :: 0 <= r < |kept| && Repairs(events[x], events[r], events)
  {
    FutureRepairFinds(kept[x], kept, 0);
    forall r | 0 <= r < |kept| ensures Repairs(kept[x], kept[r], kept) <==> Repairs(events[x], events[r], events) {
      RepairsInPrefix(kept, events, x, r);
    }
    if r :| 0 <= r < |kept| && Repairs(kept[x], kept[r], kept) { assert Repairs(events[x], events[r], events); }
    if r :| 0 <= r < |kept| && Repairs(events[x], events[r], events) { assert Repairs(kept[x], kept[r], kept); }
  }

  lemma LaterInPrefix(kept: seq<Event>, events: seq<Event>, x: nat)
    requires EventPrefix(kept, events) && x < |kept|
    ensures HasLaterAspect(kept[x], kept) <==> exists r :: 0 <= r < |kept| && LaterAspect(events[x], events[r])
  {
    if r :| 0 <= r < |kept| && LaterAspect(events[x], events[r]) { assert kept[r] == events[r]; }
    if HasLaterAspect(kept[x], kept) {
      var r :| 0 <= r < |kept| && kept[r].index > kept[x].index && kept[r].accepted && kept[r].aspect.Some? &&
        kept[r].aspect != kept[x].aspect;
      assert LaterAspect(events[x], events[r]);
    }
  }

  /** Judged among the kept turns, a kept turn is fatal exactly when its reason was cut away, and
      supervised exactly when it was. */
  lemma VerdictInPrefix(kept: seq<Event>, events: seq<Event>, spec: Option<TaskSpec>, x: nat)
    requires EventPrefix(kept, events) && x < |kept| && !IsFatal(events[x], events, spec)
    ensures IsFatal(kept[x], kept, spec) <==> !Justified(events, |kept|, spec, x)
    ensures VerdictOn(kept[x], kept, spec) == Supervised <==> VerdictOn(events[x], events, spec) == Supervised
  {
    FutureInPrefix(kept, events, x);
    LaterInPrefix(kept, events, x);
    FutureRepairFinds(events[x], events, 0);
  }

  // ---------- no fault is kept ----------

  lemma {:induction false} BackNotAfter(messages: seq<Message>, at: nat)
    ensures BackToAssistant(messages, at) <= at
  {
    if at == 0 || (at < |messages| && messages[at].role == Assistant) {
    } else {
      BackNotAfter(messages, at - 1);
    }
  }

  lemma FaultsNotKept(messages: seq<Message>, faults: map<nat, Kind>, spec: Option<TaskSpec>, i: nat)
    requires i in faults
    ensures i >= KeptLength(messages, CutoffOf(messages, faults, spec))
  {
    EventsIncrease(messages);
    ScanLeast(Events(messages), 0, spec, FaultCutoff(messages, faults));
    BackNotAfter(messages, LeastKey(faults));
  }

  lemma CleanFaultFree(messages: seq<Message>, faults: seq<(nat, string)>, spec: Option<TaskSpec>, requireThink: bool)
    ensures var n := KeptLength(messages, CutoffOf(messages, AllFaults(messages, faults, requireThink), spec));
      AllFaults(messages[..n], [], requireThink) == map[]
  {
    var all := AllFaults(messages, faults, requireThink);
    var n := KeptLength(messages, CutoffOf(messages, all, spec));
    forall i | 0 <= i < n && requireThink ensures !LacksThink(messages[..n][i]) {
      if LacksThink(messages[i]) { FaultsNotKept(messages, all, spec, i); }
    }
  }

  // ---------- cleaning again ----------

  /** Without faults, cleaning cuts nothing exactly when no turn is fatal. */
  lemma NothingCutIff(messages: seq<Message>, spec: Option<TaskSpec>)
    ensures CutoffOf(messages, map[], spec) == Keep <==>
      forall x | 0 <= x < |Events(messages)| :: !IsFatal(Events(messages)[x], Events(messages), spec)
  {
    EventsIncrease(messages);
    ScanLeast(Events(messages), 0, spec, Keep);
  }

  lemma KeptPrefix(messages: seq<Message>, faults: map<nat, Kind>, spec: Option<TaskSpec>)
    ensures var kept := Events(messages[..KeptLength(messages, CutoffOf(messages, faults, spec))]);
      EventPrefix(kept, Events(messages)) &&
      forall x | 0 <= x < |kept| :: !IsFatal(Events(messages)[x], Events(messages), spec)
  {
    var n := KeptLength(messages, CutoffOf(messages, faults, spec));
    var kept := Events(messages[..n]);
    KeptEvents(messages, faults, spec);
    EventsIncrease(messages);
    forall x | 0 <= x < |kept| ensures !IsFatal(Events(messages)[x], Events(messages), spec) {
      EventLinked(messages[..n], x);
      KeptEventNotFatal(messages, faults, spec, x);
    }
  }

  /** Cleaning the cleaned messages cuts nothing if and only if each kept repaired turn has a
      repair among the kept turns and each kept wrong answer a later aspect among them. */
  lemma RecleanIff(messages: seq<Message>, faults: map<nat, Kind>, spec: Option<TaskSpec>)
    ensures var cleaned := messages[..KeptLength(messages, CutoffOf(messages, faults, spec))];
      |Events(cleaned)| <= |Events(messages)| &&
      (CutoffOf(cleaned, map[], spec) == Keep <==> AllJustified(Events(messages), |Events(cleaned)|, spec))
  {
    var cleaned := messages[..KeptLength(messages, CutoffOf(messages, faults, spec))];
    var kept, events := Events(cleaned), Events(messages);
    KeptPrefix(messages, faults, spec);
    NothingCutIff(cleaned, spec);
    forall x | 0 <= x < |kept| ensures IsFatal(kept[x], kept, spec) <==> !Justified(events, |kept|, spec, x) {
      VerdictInPrefix(kept, events, spec, x);
    }
  }

  lemma {:induction false} CountAll(events: seq<Event>)
    ensures CountBefore(events, Keep) == |events|
  {
    if events == [] {
    } else {
      CountAll(events[1..]);
    }
  }

  /** Then the second cleaning returns the same messages and the same mask. */
  lemma RecleanSame(messages: seq<Message>, faults: seq<(nat, string)>, spec: Option<TaskSpec>, think: bool,
                    valid: bool, valid': bool, r: Cleaned, audit: Audit, r': Cleaned, audit': Audit)
    requires CleaningOf(r, audit, messages, faults, spec, false, think, valid)
    requires CleaningOf(r', audit', r.messages, [], spec, false, think, valid')
    ensures |Events(r.messages)| <= |Events(messages)|
    ensures audit'.cut == Keep <==> AllJustified(Events(messages), |Events(r.messages)|, spec)
    ensures audit'.cut == Keep ==> r'.messages == r.messages && r'.mask == r.mask
  {
    var all := AllFaults(messages, faults, think);
    CleanFaultFree(messages, faults, spec, think);
    RecleanIff(messages, all, spec);
    KeptPrefix(messages, all, spec);
    KeptEvents(messages, all, spec);
    if audit'.cut == Keep {
      CountAll(Events(r.messages));
      assert r.messages[..|r.messages|] == r.messages;
      SameMask(Events(r.messages), Events(messages), spec, r.mask, r'.mask);
    }
  }

  lemma SameMask(kept: seq<Event>, events: seq<Event>, spec: Option<TaskSpec>, mask: seq<int>, mask': seq<int>)
    requires EventPrefix(kept, events) && |mask| == |mask'|
    requires forall x | 0 <= x < |kept| :: !IsFatal(events[x], events, spec)
    requires MaskMatches(mask, events, |kept|, spec) && MaskMatches(mask', kept, |kept|, spec)
    ensures mask == mask'
  {
    forall x | 0 <= x < |kept|
      ensures VerdictOn(kept[x], kept, spec) == Supervised <==> VerdictOn(events[x], events, spec) == Supervised
    {
      VerdictInPrefix(kept, events, spec, x);
    }
    forall i | 0 <= i < |mask| ensures SupervisedAt(kept, |kept|, spec, i) <==> SupervisedAt(events, |kept|, spec, i) {
      if SupervisedAt(kept, |kept|, spec, i) {
        var x :| 0 <= x < |kept| && kept[x].index == i && VerdictOn(kept[x], kept, spec) == Supervised;
        assert events[x].index == i;
      }
      if SupervisedAt(events, |kept|, spec, i) {
        var x :| 0 <= x < |kept| && events[x].index == i && VerdictOn(events[x], events, spec) == Supervised;
        assert kept[x].index == i;
      }
    }
  }

  // ---------- it may cut more ----------

  const FLIGHT := Content(true, false, ["flight"], [], false, true)

  function Turn(choice: Choice): Message {
    Message(Assistant, Some(Arguments(Some(choice), FLIGHT)), true, true, SILENCE)
  }

  function Reply(f: Feedback): Message {
    Message(Tool, None, false, false, f)
  }

  /** An action refused for want of a search, a turn without an observation, and the search that
      repairs the action. */
  const RELAPSE := [
    Turn(Action), Reply(SILENCE.(rejection := Some(ActionBeforeSearch))),
    Turn(Action),
    Turn(Search), Reply(SILENCE.(ids := [OptionId(F, "1")]))]

  lemma RelapseEvents() returns (first: Event, second: Event, third: Event)
    ensures Events(RELAPSE) == [first, second, third] && Events(RELAPSE[..2]) == [first]
    ensures first == Judge(RELAPSE, 0, INITIAL) && second == Judge(RELAPSE, 2, first.after) &&
      third == Judge(RELAPSE, 3, second.after)
  {
    first := Judge(RELAPSE, 0, INITIAL);
    second := Judge(RELAPSE, 2, first.after);
    third := Judge(RELAPSE, 3, second.after);
    assert Replay(RELAPSE, 5, third.after) == [];
    assert Replay(RELAPSE, 3, second.after) == [third];
    assert Replay(RELAPSE, 2, first.after) == [second, third];
    var short := RELAPSE[..2];
    assert Judge(short, 0, INITIAL) == first;
    assert Replay(short, 2, first.after) == [];
  }

  /** The first cleaning keeps the refused action, whose repair it cuts away; the second cuts it. */
  lemma RecleanCanCut()
    ensures CutoffOf(RELAPSE, map[], None) == CutAt(2, ObservationMisaligned)
    ensures CutoffOf(RELAPSE[..2], map[], None) == CutAt(0, ActionBeforeSearch)
  {
    assert Mentioned(FLIGHT) == {"flight"};
    var first, second, third := RelapseEvents();
    var events := Events(RELAPSE);
    assert Repairs(first, events[2], events);
    FutureRepairFinds(first, events, 0);
    assert VerdictOn(events[1], events, None) == Fatal(ObservationMisaligned);
    assert Scan(events, 1, events, None, Keep) == CutAt(2, ObservationMisaligned);
    assert Scan(events, 0, events, None, Keep) == Scan(events, 1, events, None, Keep);
    assert !Repairs(first, first, [first]);
    FutureRepairFinds(first, [first], 0);
    assert VerdictOn(first, [first], None) == Fatal(ActionBeforeSearch);
  }
}
