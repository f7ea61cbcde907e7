/** What the verdict on a turn, the cut and the mask mean, stated on the turns themselves: which
    turns cut a transcript and why, which are supervised, and when nothing is cut at all. */
module TravelVerdicts {
  import opened Common
  import opened TravelReplay
  import opened TravelProtocol
  import opened TravelCleaning
  import opened TravelSft

  // ---------- the four ways a turn cuts ----------

  /** The observation says outright that the call was refused or failed. */
  predicate Refused(e: Event) { e.feedback.operationFailed || e.feedback.rejection.Some? }

  predicate Unrecoverable(kind: Kind) {
    kind.EnvironmentFailure? || kind.ObservationMisaligned? || kind.UnrepairedError? || kind.WrongTerminalAnswer? ||
    kind.ThinkMissing? || kind.CanonicalFault?
  }

  /** The answer names an option that the labels of its aspect do not list. */
  predicate KnownWrong(e: Event, spec: Option<TaskSpec>) {
    e.choice == Some(Answer) && e.answerId.Some? && e.aspect.Some? && spec.Some? &&
    e.aspect.value in spec.value.correctIds && e.answerId.value !in spec.value.correctIds[e.aspect.value]
  }

  ghost predicate Repaired(e: Event, events: seq<Event>) {
    exists r :: 0 <= r < |events| && Repairs(e, events[r], events)
  }

  ghost predicate MovesOn(e: Event, later: Event) {
    later.index > e.index && later.accepted && later.aspect.Some? && later.aspect != e.aspect
  }

  ghost predicate MovedOn(e: Event, events: seq<Event>) {
    exists r :: 0 <= r < |events| && MovesOn(e, events[r])
  }

  /** No observation; an unrecoverable error; a call neither accepted nor refused outright and
      repaired later; or a wrong answer that no other aspect follows. */
  ghost predicate MustCut(e: Event, events: seq<Event>, spec: Option<TaskSpec>) {
    !e.observed ||
    (e.kind.Some? && Unrecoverable(e.kind.value)) ||
    (!e.accepted && !(Refused(e) && Repaired(e, events))) ||
    (e.accepted && KnownWrong(e, spec) && !MovedOn(e, events))
  }

  /** The recorded reason of each. */
  ghost function Reason(e: Event): Kind {
    if !e.observed then ObservationMisaligned
    else if e.kind.Some? && (Unrecoverable(e.kind.value) || Refused(e)) then e.kind.value
    else if e.accepted then WrongTerminalAnswer
    else UnrepairedError
  }

  // ---------- verdicts, from both sides ----------

  lemma MovedOnIff(e: Event, events: seq<Event>)
    ensures HasLaterAspect(e, events) <==> MovedOn(e, events)
  {
    if r :| 0 <= r < |events| && MovesOn(e, events[r]) { assert events[r].accepted; }
    if HasLaterAspect(e, events) {
      var r :| 0 <= r < |events| && events[r].index > e.index && events[r].accepted && events[r].aspect.Some? &&
        events[r].aspect != e.aspect;
      assert MovesOn(e, events[r]);
    }
  }

  lemma RepairedIff(e: Event, events: seq<Event>)
    ensures FutureRepair(e, events, 0).Some? <==> Repaired(e, events)
    ensures FutureRepair(e, events, 0).Some? ==> FirstRepair(e, events, FutureRepair(e, events, 0).value)
  {
    FutureRepairFinds(e, events, 0);
    RepairIsFirst(e, events, 0);
  }

  ghost predicate FirstRepair(e: Event, events: seq<Event>, r: nat) {
    r < |events| && Repairs(e, events[r], events) && forall y | 0 <= y < r :: !Repairs(e, events[y], events)
  }

  lemma {:induction false} RepairIsFirst(e: Event, events: seq<Event>, from: nat)
    requires forall y | 0 <= y < from && y < |events| :: !Repairs(e, events[y], events)
    ensures FutureRepair(e, events, from).Some? ==> FirstRepair(e, events, FutureRepair(e, events, from).value)
    decreases |events| - from
  {
    if from >= |events| || Repairs(e, events[from], events) {
    } else {
      RepairIsFirst(e, events, from + 1);
    }
  }

  /** An event as a replay makes them: an accepted call has its observation and no error. */
  predicate Sound(e: Event) { e.accepted ==> e.observed && e.kind == None && !Refused(e) }

  lemma ReplaySound(messages: seq<Message>, x: nat)
    requires x < |Events(messages)|
    ensures Sound(Events(messages)[x])
  {
    EventLinked(messages, x);
  }

  /** A turn is fatal, for the given reason, exactly when it must cut. */
  lemma FatalIff(e: Event, events: seq<Event>, spec: Option<TaskSpec>)
    requires Sound(e)
    ensures IsFatal(e, events, spec) <==> MustCut(e, events, spec)
    ensures IsFatal(e, events, spec) ==> VerdictOn(e, events, spec) == Fatal(Reason(e))
  {
    MovedOnIff(e, events);
    RepairedIff(e, events);
  }

  /** An accepted turn that is no known-wrong answer is supervised, and no other turn is. */
  lemma SupervisedIff(e: Event, events: seq<Event>, spec: Option<TaskSpec>)
    requires Sound(e)
    ensures VerdictOn(e, events, spec) == Supervised <==> e.accepted && !KnownWrong(e, spec)
  {
  }

  /** An observed turn, refused outright with a recoverable kind and repaired later, is kept as
      context, with its first repair; and no other turn is. */
  lemma RepairedContextIff(e: Event, events: seq<Event>, spec: Option<TaskSpec>)
    requires Sound(e)
    ensures VerdictOn(e, events, spec).RepairedContext? <==>
      e.observed && !e.accepted && Refused(e) && e.kind.Some? && !Unrecoverable(e.kind.value) && Repaired(e, events)
    ensures VerdictOn(e, events, spec).RepairedContext? ==> FirstRepair(e, events, VerdictOn(e, events, spec).repair)
  {
    RepairedIff(e, events);
  }

  /** A known-wrong answer that another accepted aspect follows is kept as context; no other is. */
  lemma WrongContextIff(e: Event, events: seq<Event>, spec: Option<TaskSpec>)
    requires Sound(e)
    ensures VerdictOn(e, events, spec).WrongContext? <==> e.accepted && KnownWrong(e, spec) && MovedOn(e, events)
  {
    MovedOnIff(e, events);
  }

  // ---------- which turn repairs which ----------

  /** The call that makes good each kind of error. */
  predicate RightChoice(kind: Kind, failed: Option<Choice>, c: Event) {
    match kind
    case ActionBeforeSearch => c.choice == Some(Search)
    case AnswerBeforeSearch => c.choice == Some(Search) || c.choice == Some(Answer)
    case CrossAspect => true
    case RepeatedSearch => c.choice == Some(Action) || c.choice == Some(Answer)
    case InvalidParameters => c.choice == failed || failed == None || failed.value.OtherChoice?
    case InvisibleId => c.choice == Some(Answer)
    case DuplicateAnswer => c.choice == Some(Search)
    case VagueAction => c.choice == Some(Action) && c.content.long
    case _ => false
  }

  predicate OnAspect(known: Option<Aspect>, c: Event) {
    known.Some? && (c.aspect == None || c.aspect == known)
  }

  /** The aspect it must be about, where the failed turn's aspect is known, and where it is not. */
  predicate RightAspect(kind: Kind, known: Option<Aspect>, c: Event, nothingAccepted: bool) {
    match kind
    case DuplicateAnswer => known.Some? && c.aspect != known
    case CrossAspect => known.Some? && c.aspect == known
    case InvisibleId => known.Some? && c.aspect == known
    case AnswerBeforeSearch =>
      (known.Some? && c.aspect == known) ||
      (c.choice == Some(Search) && (OnAspect(known, c) || (known == None && nothingAccepted)))
    case ActionBeforeSearch => OnAspect(known, c) || (known == None && nothingAccepted)
    case _ => OnAspect(known, c)
  }

  ghost predicate NothingAcceptedBefore(e: Event, events: seq<Event>) {
    forall i | 0 <= i < |events| && events[i].index < e.index :: !(events[i].accepted && events[i].aspect.Some?)
  }

  /** A later accepted turn repairs an error exactly when it is the right call on the right aspect. */
  lemma RepairIff(e: Event, c: Event, events: seq<Event>)
    ensures var known := if e.currentBefore.Some? then e.currentBefore else e.aspect;
      Repairs(e, c, events) <==>
        c.index > e.index && c.accepted && e.kind.Some? && RightChoice(e.kind.value, e.choice, c) &&
        RightAspect(e.kind.value, known, c, NothingAcceptedBefore(e, events))
  {
    assert SomeAcceptedAspectBefore(e, events) <==> !NothingAcceptedBefore(e, events);
  }

  // ---------- the errors a cleaning retains ----------

  ghost predicate ContextAt(events: seq<Event>, x: int, r: nat) {
    0 <= x < |events| && events[x].observed && !events[x].accepted && Refused(events[x]) && events[x].kind.Some? &&
    !Unrecoverable(events[x].kind.value) && FirstRepair(events[x], events, r)
  }

  ghost predicate RetainedAt(events: seq<Event>, limit: int, entry: Retained, x: int, r: nat) {
    x < limit && ContextAt(events, x, r) && entry == Retained(events[x].index, events[x].kind, events[r].index)
  }

  /** The retained errors are exactly the kept refused turns with their kind and first repair. */
  lemma {:induction false} RetainedAre(events: seq<Event>, limit: nat, spec: Option<TaskSpec>, entry: Retained)
    requires limit <= |events| && forall x | 0 <= x < |events| :: Sound(events[x])
    ensures entry in RetainedErrors(events, limit, spec) <==> exists x, r :: RetainedAt(events, limit, entry, x, r)
  {
    if limit == 0 {
    } else {
      var n := limit - 1;
      RetainedAre(events, n, spec, entry);
      RepairedContextIff(events[n], events, spec);
      if VerdictOn(events[n], events, spec).RepairedContext? {
        var first := VerdictOn(events[n], events, spec).repair;
        if entry == Retained(events[n].index, events[n].kind, events[first].index) {
          assert RetainedAt(events, limit, entry, n, first);
        }
      }
      if x, r :| RetainedAt(events, n, entry, x, r) { assert RetainedAt(events, limit, entry, x, r); }
      if x, r :| RetainedAt(events, limit, entry, x, r) {
        if x < n { assert RetainedAt(events, n, entry, x, r); }
      }
    }
  }

  // ---------- the cut of a fault ----------

  /** Position a is where the earliest fault cuts: at its own index, or for a faulty observation
      at the nearest assistant turn before it (at the start if there is none). */
  ghost predicate CutsForFault(messages: seq<Message>, faults: map<nat, Kind>, a: nat, kind: Kind) {
    exists f: nat :: FaultAt(messages, faults, f, a, kind)
  }

  ghost predicate FaultAt(messages: seq<Message>, faults: map<nat, Kind>, f: nat, a: nat, kind: Kind) {
    f in faults && (forall g | g in faults :: f <= g) && kind == faults[f] &&
    if f < |messages| && messages[f].role == Tool
    then NearestAssistant(messages, f, a)
    else a == f
  }

  predicate NearestAssistant(messages: seq<Message>, f: nat, a: nat)
    requires f < |messages|
  {
    a <= f && (a == 0 || messages[a].role == Assistant) && forall j | a < j <= f :: messages[j].role != Assistant
  }

  lemma {:induction false} BackIsNearest(messages: seq<Message>, f: nat)
    requires f < |messages|
    ensures NearestAssistant(messages, f, BackToAssistant(messages, f))
  {
    if f == 0 || messages[f].role == Assistant {
    } else {
      BackIsNearest(messages, f - 1);
    }
  }

  lemma FaultCutMeans(messages: seq<Message>, faults: map<nat, Kind>)
    ensures faults == map[] <==> FaultCutoff(messages, faults) == Keep
    ensures FaultCutoff(messages, faults).CutAt? ==>
      CutsForFault(messages, faults, FaultCutoff(messages, faults).index, FaultCutoff(messages, faults).kind)
  {
    if faults != map[] {
      var f := LeastKey(faults);
      if f < |messages| { BackIsNearest(messages, f); }
      assert FaultAt(messages, faults, f, FaultCutoff(messages, faults).index, FaultCutoff(messages, faults).kind);
    }
  }

  // ---------- the cut of a transcript ----------

  ghost predicate CutByTurn(messages: seq<Message>, spec: Option<TaskSpec>, n: nat, kind: Kind, x: nat) {
    x < |Events(messages)| && Events(messages)[x].index == n && MustCut(Events(messages)[x], Events(messages), spec) &&
    kind == Reason(Events(messages)[x])
  }

  /** Cleaning keeps the longest prefix in which no turn must cut and no fault cuts, and the reason
      is that of the turn or of the fault at its end. */
  lemma CutMeans(messages: seq<Message>, faults: map<nat, Kind>, spec: Option<TaskSpec>)
    ensures var cut := CutoffOf(messages, faults, spec);
      var n := KeptLength(messages, cut);
      (forall x | 0 <= x < |Events(messages)| && Events(messages)[x].index < n ::
        !MustCut(Events(messages)[x], Events(messages), spec)) &&
      (forall a: nat, kind | CutsForFault(messages, faults, a, kind) :: n <= a) &&
      (cut.CutAt? ==>
        (exists x :: CutByTurn(messages, spec, cut.index, cut.kind, x)) ||
        CutsForFault(messages, faults, cut.index, cut.kind)) &&
      (n < |messages| ==> cut.CutAt? && cut.index == n)
  {
    var events, fault := Events(messages), FaultCutoff(messages, faults);
    var cut := CutoffOf(messages, faults, spec);
    EventsIncrease(messages);
    ScanLeast(events, 0, spec, fault);
    FaultCutMeans(messages, faults);
    forall x | 0 <= x < |events| ensures IsFatal(events[x], events, spec) <==> MustCut(events[x], events, spec) {
      ReplaySound(messages, x);
      FatalIff(events[x], events, spec);
    }
    forall a: nat, kind | CutsForFault(messages, faults, a, kind) ensures KeptLength(messages, cut) <= a {
      OneFaultCut(messages, faults, a, kind);
    }
    if cut != fault {
      var x :| 0 <= x < |events| && CutsAt(cut, events[x], events, spec);
      ReplaySound(messages, x);
      FatalIff(events[x], events, spec);
      assert CutByTurn(messages, spec, cut.index, cut.kind, x);
    }
  }

  lemma OneFaultCut(messages: seq<Message>, faults: map<nat, Kind>, a: nat, kind: Kind)
    requires CutsForFault(messages, faults, a, kind)
    ensures FaultCutoff(messages, faults) == CutAt(a, kind)
  {
    var f: nat :| FaultAt(messages, faults, f, a, kind);
    var first := LeastKey(faults);
    assert first == f;
    if f < |messages| && messages[f].role == Tool {
      BackIsNearest(messages, f);
      OneNearest(messages, f, a, BackToAssistant(messages, f));
    }
  }

  lemma OneNearest(messages: seq<Message>, f: nat, a: nat, b: nat)
    requires f < |messages| && NearestAssistant(messages, f, a) && NearestAssistant(messages, f, b)
    ensures a == b
  {
  }

  // ---------- the mask ----------

  ghost predicate TaughtAt(messages: seq<Message>, spec: Option<TaskSpec>, i: int, x: nat) {
    x < |Events(messages)| && Events(messages)[x].index == i && Events(messages)[x].accepted &&
    !KnownWrong(Events(messages)[x], spec)
  }

  lemma {:induction false} BeforeCut(events: seq<Event>, cut: Cutoff, x: nat)
    requires forall a, b | 0 <= a < b < |events| :: events[a].index < events[b].index
    requires x < |events|
    ensures x < CountBefore(events, cut) <==> Before(events[x].index, cut)
  {
    if x == 0 {
    } else {
      BeforeCut(events[1..], cut, x - 1);
      assert events[0].index < events[x].index;
    }
  }

  /** In a cleaned record the mask is 1 exactly at the accepted turns that are no known-wrong
      answer, and 0 everywhere else. */
  lemma MaskMeans(r: Cleaned, audit: Audit, messages: seq<Message>, faults: seq<(nat, string)>, spec: Option<TaskSpec>,
                  requireThink: bool, schemaValid: bool)
    requires CleaningOf(r, audit, messages, faults, spec, false, requireThink, schemaValid)
    ensures |r.mask| == |r.messages| && forall i | 0 <= i < |r.mask| ::
      r.mask[i] == if exists x :: TaughtAt(messages, spec, i, x) then 1 else 0
  {
    var events, count := Events(messages), CountBefore(Events(messages), audit.cut);
    EventsIncrease(messages);
    forall i | 0 <= i < |r.mask|
      ensures SupervisedAt(events, count, spec, i) <==> exists x :: TaughtAt(messages, spec, i, x)
    {
      if SupervisedAt(events, count, spec, i) {
        var x :| 0 <= x < count <= |events| && events[x].index == i && VerdictOn(events[x], events, spec) == Supervised;
        ReplaySound(messages, x);
        SupervisedIff(events[x], events, spec);
        assert TaughtAt(messages, spec, i, x);
      }
      if x: nat :| TaughtAt(messages, spec, i, x) {
        ReplaySound(messages, x);
        SupervisedIff(events[x], events, spec);
        BeforeCut(events, audit.cut, x);
        assert x < count;
      }
    }
  }

  /** Without faults, a transcript whose turns are all accepted and not known to be wrong is kept
      whole, with mask 1 at every assistant turn. */
  lemma KeptWhole(r: Cleaned, audit: Audit, messages: seq<Message>, faults: seq<(nat, string)>, spec: Option<TaskSpec>,
                  requireThink: bool, schemaValid: bool)
    requires CleaningOf(r, audit, messages, faults, spec, false, requireThink, schemaValid)
    requires faults == [] && (requireThink ==> forall i | 0 <= i < |messages| :: !LacksThink(messages[i]))
    requires forall x | 0 <= x < |Events(messages)| ::
      Events(messages)[x].accepted && !KnownWrong(Events(messages)[x], spec)
    ensures audit.cut == Keep && r.messages == messages
    ensures forall i | 0 <= i < |messages| :: r.mask[i] == if messages[i].role == Assistant then 1 else 0
  {
    var all := AllFaults(messages, faults, requireThink);
    assert all == map[];
    CutMeans(messages, all, spec);
    FaultCutMeans(messages, all);
    if audit.cut.CutAt? {
      var x :| CutByTurn(messages, spec, audit.cut.index, audit.cut.kind, x);
      ReplaySound(messages, x);
      assert false;
    }
    assert messages[..|messages|] == messages;
    MaskMeans(r, audit, messages, faults, spec, requireThink, schemaValid);
    forall i | 0 <= i < |messages| ensures r.mask[i] == if messages[i].role == Assistant then 1 else 0 {
      if messages[i].role == Assistant {
        KeptAssistantHasEvent(messages, i);
        var x :| 0 <= x < |Events(messages)| && Events(messages)[x].index == i;
        assert TaughtAt(messages, spec, i, x);
      }
      if x: nat :| TaughtAt(messages, spec, i, x) { EventLinked(messages, x); }
    }
  }
}
