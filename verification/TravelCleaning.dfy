/** Cleaning a replayed transcript: which turns are supervised, which are kept as context, where
    the transcript is cut, and what the result is classified as. */
module TravelCleaning {
  import opened Common
  import opened TravelReplay
  import opened TravelProtocol

  /** The labels of a task: its aspects and, where known, each aspect's correct options. */
  datatype TaskSpec = TaskSpec(aspects: seq<Aspect>, correctIds: map<Aspect, set<OptionId>>) {
    predicate HasLabels() { aspects != [] && forall a | a in aspects :: a in correctIds }
  }

  // ---------- repairs ----------

  function ReferenceAspect(e: Event): Option<Aspect> {
    if e.currentBefore.Some? then e.currentBefore else e.aspect
  }

  predicate SomeAcceptedAspectBefore(e: Event, events: seq<Event>) {
    exists i | 0 <= i < |events| :: events[i].index < e.index && events[i].accepted && events[i].aspect.Some?
  }

  predicate KnownChoice(c: Option<Choice>) { c.Some? && !c.value.OtherChoice? }

  /** One candidate turn of `_future_repair`. */
  predicate Repairs(e: Event, candidate: Event, events: seq<Event>) {
    candidate.index > e.index && candidate.accepted && e.kind.Some? &&
    var reference := ReferenceAspect(e);
    var same := reference.Some? && (candidate.aspect == reference || candidate.aspect == None);
    var bootstrap := reference == None && !SomeAcceptedAspectBefore(e, events) && candidate.choice == Some(Search);
    match e.kind.value
    case ActionBeforeSearch => candidate.choice == Some(Search) && (same || bootstrap)
    case AnswerBeforeSearch =>
      (candidate.choice == Some(Search) && (same || bootstrap)) ||
      (candidate.choice == Some(Answer) && reference.Some? && candidate.aspect == reference)
    case CrossAspect => reference.Some? && candidate.aspect == reference
    case RepeatedSearch => (candidate.choice == Some(Action) || candidate.choice == Some(Answer)) && same
    case InvalidParameters => (candidate.choice == e.choice || !KnownChoice(e.choice)) && same
    case InvisibleId => candidate.choice == Some(Answer) && reference.Some? && candidate.aspect == reference
    case DuplicateAnswer => candidate.choice == Some(Search) && reference.Some? && candidate.aspect != reference
    case VagueAction => candidate.choice == Some(Action) && candidate.content.long && same
    case _ => false
  }

  /** `_future_repair`: the first repairing turn, from position `from` on. */
  function FutureRepair(e: Event, events: seq<Event>, from: nat): Option<nat>
    decreases |events| - from
  {
    if from >= |events| then None
    else if Repairs(e, events[from], events) then Some(from)
    else FutureRepair(e, events, from + 1)
  }

  lemma {:induction false} FutureRepairFinds(e: Event, events: seq<Event>, from: nat)
    ensures FutureRepair(e, events, from).Some? <==>
      exists i :: from <= i < |events| && Repairs(e, events[i], events)
    ensures FutureRepair(e, events, from).Some? ==>
      from <= FutureRepair(e, events, from).value < |events| &&
      Repairs(e, events[FutureRepair(e, events, from).value], events)
    decreases |events| - from
  {
    if from >= |events| || Repairs(e, events[from], events) {
    } else {
      FutureRepairFinds(e, events, from + 1);
    }
  }

  /** What a repair is: a later accepted call.  When the aspect of the failed turn is known it
      stays on that aspect, except after a duplicate answer, where it searches another one; when
      it is not known, only the transcript's first accepted aspect can repair, by searching. */
  lemma RepairMeans(messages: seq<Message>, x: nat, r: nat)
    requires x < |Events(messages)| && r < |Events(messages)|
    requires Repairs(Events(messages)[x], Events(messages)[r], Events(messages))
    ensures x < r && Events(messages)[r].accepted && KnownChoice(Events(messages)[r].choice)
    ensures var e, c := Events(messages)[x], Events(messages)[r];
      match ReferenceAspect(e)
      case Some(a) =>
        if e.kind == Some(DuplicateAnswer) then c.choice == Some(Search) && c.aspect != Some(a)
        else c.aspect == Some(a) || c.aspect == None
      case None =>
        e.kind.value in {ActionBeforeSearch, AnswerBeforeSearch} && c.choice == Some(Search) &&
        forall y | 0 <= y < x :: !(Events(messages)[y].accepted && Events(messages)[y].aspect.Some?)
  {
    EventsIncrease(messages);
    EventLinked(messages, r);
    assert SomeAcceptedAspectBefore(Events(messages)[x], Events(messages)) <==>
      exists y :: 0 <= y < |Events(messages)| && Events(messages)[y].index < Events(messages)[x].index &&
        Events(messages)[y].accepted && Events(messages)[y].aspect.Some?;
  }

  // ---------- the verdict on one turn ----------

  predicate HasLaterAspect(e: Event, events: seq<Event>) {
    exists i | 0 <= i < |events| ::
      events[i].index > e.index && events[i].accepted && events[i].aspect.Some? && events[i].aspect != e.aspect
  }

  datatype Truth = Unknown | Right | Wrong

  /** `_answer_correct`. */
  function AnswerCorrect(e: Event, spec: Option<TaskSpec>): Truth {
    if e.answerId == None || e.aspect == None || spec == None then Unknown
    else if e.aspect.value !in spec.value.correctIds then Unknown
    else if e.answerId.value in spec.value.correctIds[e.aspect.value] then Right else Wrong
  }

  datatype Verdict = Supervised | RepairedContext(repair: nat) | WrongContext | Fatal(kind: Kind)

  function VerdictOn(e: Event, events: seq<Event>, spec: Option<TaskSpec>): Verdict {
    if !e.observed then Fatal(ObservationMisaligned)
    else if e.kind.Some? && !Recoverable(e.kind.value) then Fatal(e.kind.value)
    else if !e.accepted then
      var repair := if IsRejected(e.feedback) then FutureRepair(e, events, 0) else None;
      if repair.Some? then RepairedContext(repair.value)
      else if IsRejected(e.feedback) && e.kind.Some? then Fatal(e.kind.value)
      else Fatal(UnrepairedError)
    else if e.choice == Some(Answer) && AnswerCorrect(e, spec) == Wrong then
      if HasLaterAspect(e, events) then WrongContext else Fatal(WrongTerminalAnswer)
    else Supervised
  }

  // ---------- the cut ----------

  /** From an observation back to its assistant turn (or to the start). */
  function BackToAssistant(messages: seq<Message>, at: nat): nat {
    if at == 0 || (at < |messages| && messages[at].role == Assistant) then at
    else BackToAssistant(messages, at - 1)
  }

  /** Where the earliest canonical fault cuts. */
  function FaultCut(messages: seq<Message>, first: nat): nat {
    if first < |messages| && messages[first].role == Tool then BackToAssistant(messages, first) else first
  }

  /** The kept length and why, if anything is cut. */
  datatype Cutoff = Keep | CutAt(index: nat, kind: Kind)

  predicate Before(index: nat, cut: Cutoff) { cut.CutAt? ==> index < cut.index }

  /** Scans the events in order from position i: the first fatal one before the fault's cut, or
      else the fault's cut itself. */
  function Scan(events: seq<Event>, i: nat, all: seq<Event>, spec: Option<TaskSpec>, fault: Cutoff): Cutoff
    decreases |events| - i
  {
    if i >= |events| || !Before(events[i].index, fault) then fault
    else match VerdictOn(events[i], all, spec)
      case Fatal(kind) => CutAt(events[i].index, kind)
      case _ => Scan(events, i + 1, all, spec, fault)
  }

  ghost predicate IsFatal(e: Event, events: seq<Event>, spec: Option<TaskSpec>) {
    VerdictOn(e, events, spec).Fatal?
  }

  ghost predicate CutsAt(cut: Cutoff, e: Event, events: seq<Event>, spec: Option<TaskSpec>) {
    IsFatal(e, events, spec) && cut == CutAt(e.index, VerdictOn(e, events, spec).kind)
  }

  /** The scan's cut is the least of the fault's cut and the fatal turns. */
  lemma {:induction false} ScanLeast(events: seq<Event>, i: nat, spec: Option<TaskSpec>, fault: Cutoff)
    requires forall x, y | 0 <= x < y < |events| :: events[x].index < events[y].index
    requires forall x | 0 <= x < i && x < |events| :: !IsFatal(events[x], events, spec)
    ensures var cut := Scan(events, i, events, spec, fault);
      (forall x | 0 <= x < |events| && Before(events[x].index, cut) :: !IsFatal(events[x], events, spec)) &&
      (cut == fault || exists x :: 0 <= x < |events| && CutsAt(cut, events[x], events, spec)) &&
      (fault.CutAt? ==> cut.CutAt? && cut.index <= fault.index)
    decreases |events| - i
  {
    if i >= |events| || !Before(events[i].index, fault) || IsFatal(events[i], events, spec) {
    } else {
      ScanLeast(events, i + 1, spec, fault);
    }
  }

  // ---------- canonical faults ----------

  /** Index and code of each canonical fault; for one index the last code wins. */
  function FoldFaults(faults: seq<(nat, string)>): map<nat, Kind> {
    if faults == [] then map[]
    else FoldFaults(faults[..|faults| - 1])[faults[|faults| - 1].0 := CanonicalFault(faults[|faults| - 1].1)]
  }

  predicate LacksThink(m: Message) { m.role == Assistant && m.hasToolCalls && !m.hasReasoning }

  /** Faults plus, under the strict policy, the turns without reasoning. */
  function AllFaults(messages: seq<Message>, faults: seq<(nat, string)>, requireThink: bool): map<nat, Kind> {
    var folded := FoldFaults(faults);
    folded + map i: nat | requireThink && 0 <= i < |messages| && LacksThink(messages[i]) && i !in folded :: ThinkMissing
  }

  ghost function FaultCutoff(messages: seq<Message>, faults: map<nat, Kind>): Cutoff {
    if faults == map[] then Keep else
      var first := LeastKey(faults);
      CutAt(FaultCut(messages, first), faults[first])
  }

  ghost predicate IsLeast(k: nat, keys: set<nat>) {
    k in keys && forall x | x in keys :: k <= x
  }

  lemma {:induction false} LeastExists(keys: set<nat>)
    requires keys != {}
    ensures exists k :: IsLeast(k, keys)
  {
    var x :| x in keys;
    var rest := keys - {x};
    if rest == {} {
      forall y | y in keys ensures x <= y {
        assert y == x || y in rest;
      }
      assert IsLeast(x, keys);
    } else {
      LeastExists(rest);
      var k :| IsLeast(k, rest);
      LeastExtends(k, rest, x);
      assert keys == rest + {x};
    }
  }

  lemma LeastExtends(k: nat, rest: set<nat>, x: nat)
    requires IsLeast(k, rest)
    ensures IsLeast(if x < k then x else k, rest + {x})
  {
  }

  ghost function LeastKey(faults: map<nat, Kind>): (k: nat)
    requires faults != map[]
    ensures k in faults && forall x | x in faults :: k <= x
  {
    assert faults.Keys != {} by { var x :| x in faults; assert x in faults.Keys; }
    LeastExists(faults.Keys);
    var k :| IsLeast(k, faults.Keys);
    assert forall x | x in faults :: x in faults.Keys;
    k
  }

  // ---------- what is kept ----------

  ghost function CutoffOf(messages: seq<Message>, faults: map<nat, Kind>, spec: Option<TaskSpec>): Cutoff {
    Scan(Events(messages), 0, Events(messages), spec, FaultCutoff(messages, faults))
  }

  function KeptLength(messages: seq<Message>, cut: Cutoff): (n: nat)
    ensures n <= |messages|
  {
    if cut.CutAt? && cut.index < |messages| then cut.index else |messages|
  }

  lemma EventsIncrease(messages: seq<Message>)
    ensures forall x, y | 0 <= x < y < |Events(messages)| :: Events(messages)[x].index < Events(messages)[y].index
  {
    forall x, y | 0 <= x < y < |Events(messages)| ensures Events(messages)[x].index < Events(messages)[y].index {
      EventLinked(messages, x);
    }
  }

  lemma {:induction false} BackStops(messages: seq<Message>, at: nat)
    requires at < |messages|
    ensures BackToAssistant(messages, at) <= at
    ensures BackToAssistant(messages, at) > 0 ==> messages[BackToAssistant(messages, at)].role == Assistant
  {
    if at == 0 || messages[at].role == Assistant {
    } else {
      BackStops(messages, at - 1);
    }
  }

  /** A turn the cleaning may not keep: one with a fatal verdict, or where a fault cuts. */
  ghost predicate FatalTurn(messages: seq<Message>, faults: map<nat, Kind>, spec: Option<TaskSpec>, i: int) {
    (exists x :: 0 <= x < |Events(messages)| && Events(messages)[x].index == i &&
      IsFatal(Events(messages)[x], Events(messages), spec)) ||
    (FaultCutoff(messages, faults).CutAt? && FaultCutoff(messages, faults).index == i)
  }

  /** The kept messages are the longest prefix without a fatal turn, and no exchange is split. */
  lemma LongestCleanPrefix(messages: seq<Message>, faults: map<nat, Kind>, spec: Option<TaskSpec>)
    ensures var n := KeptLength(messages, CutoffOf(messages, faults, spec));
      (forall i | 0 <= i < n :: !FatalTurn(messages, faults, spec, i)) &&
      (n < |messages| ==> FatalTurn(messages, faults, spec, n)) && SafeCut(messages, n)
  {
    var events, fault := Events(messages), FaultCutoff(messages, faults);
    var cut := CutoffOf(messages, faults, spec);
    var n := KeptLength(messages, cut);
    EventsIncrease(messages);
    ScanLeast(events, 0, spec, fault);
    if cut != fault {
      var x :| 0 <= x < |events| && CutsAt(cut, events[x], events, spec);
      EventLinked(messages, x);
    } else if fault.CutAt? {
      var first := LeastKey(faults);
      if first < |messages| && messages[first].role == Tool { BackStops(messages, first); }
    }
  }

  lemma KeptEventNotFatal(messages: seq<Message>, faults: map<nat, Kind>, spec: Option<TaskSpec>, x: nat)
    requires x < |Events(messages)| &&
      Events(messages)[x].index < KeptLength(messages, CutoffOf(messages, faults, spec))
    ensures !IsFatal(Events(messages)[x], Events(messages), spec)
  {
    LongestCleanPrefix(messages, faults, spec);
    assert !FatalTurn(messages, faults, spec, Events(messages)[x].index);
  }

  /** Every kept assistant turn keeps its observation and is exactly one of: accepted and
      supervised; explicitly rejected with a recoverable kind and repaired by a later accepted
      turn of the input; or a known-wrong answer followed by another accepted aspect. */
  lemma KeptTurnKinds(messages: seq<Message>, faults: map<nat, Kind>, spec: Option<TaskSpec>, x: nat)
    requires x < |Events(messages)|
    requires Events(messages)[x].index < KeptLength(messages, CutoffOf(messages, faults, spec))
    ensures var events := Events(messages); var e := events[x];
      e.index + 1 < KeptLength(messages, CutoffOf(messages, faults, spec)) && messages[e.index + 1].role == Tool &&
      match VerdictOn(e, events, spec)
      case Supervised => e.accepted && !(e.choice == Some(Answer) && AnswerCorrect(e, spec) == Wrong)
      case RepairedContext(r) =>
        !e.accepted && IsRejected(e.feedback) && e.kind.Some? && Recoverable(e.kind.value) &&
        r < |events| && events[r].index > e.index && events[r].accepted && Repairs(e, events[r], events)
      case WrongContext =>
        e.accepted && e.choice == Some(Answer) && AnswerCorrect(e, spec) == Wrong && HasLaterAspect(e, events)
      case Fatal(_) => false
  {
    var events := Events(messages);
    var e := events[x];
    KeptEventNotFatal(messages, faults, spec, x);
    LongestCleanPrefix(messages, faults, spec);
    EventLinked(messages, x);
    FutureRepairFinds(e, events, 0);
  }

  /** Every assistant message of the kept prefix has an event, so the kinds above cover it. */
  lemma KeptAssistantHasEvent(messages: seq<Message>, i: nat)
    requires i < |messages| && messages[i].role == Assistant
    ensures exists x :: 0 <= x < |Events(messages)| && Events(messages)[x].index == i
  {
    AssistantHasEvent(messages, 0, INITIAL, i);
    assert Replay(messages, 0, INITIAL) == Events(messages);
  }

  // ---------- metrics ----------

  predicate Counts(e: Event) { e.accepted && e.choice == Some(Answer) && e.aspect.Some? && e.answerId.Some? }

  /** The last accepted answer of each aspect. */
  function Answers(events: seq<Event>): map<Aspect, OptionId> {
    if events == [] then map[] else
      var e, rest := events[|events| - 1], Answers(events[..|events| - 1]);
      if Counts(e) then rest[e.aspect.value := e.answerId.value] else rest
  }

  lemma {:induction false} AnswersFrom(events: seq<Event>, a: Aspect)
    requires a in Answers(events)
    ensures exists x ::
      0 <= x < |events| && Counts(events[x]) && events[x].aspect == Some(a) &&
      events[x].answerId == Some(Answers(events)[a])
  {
    var e, rest := events[|events| - 1], events[..|events| - 1];
    if !(Counts(e) && e.aspect.value == a) {
      AnswersFrom(rest, a);
      var x :| 0 <= x < |rest| && Counts(rest[x]) && rest[x].aspect == Some(a) &&
        rest[x].answerId == Some(Answers(rest)[a]);
      assert events[x] == rest[x];
    }
  }

  /** `completion` is the share of the task's aspects answered correctly. */
  datatype Metrics = Metrics(available: bool, answered: set<Aspect>, correct: set<Aspect>, completion: real,
                             success: bool)

  function CorrectAspects(answers: map<Aspect, OptionId>, spec: TaskSpec): set<Aspect> {
    set a | a in spec.aspects && a in answers && a in spec.correctIds && answers[a] in spec.correctIds[a]
  }

  /** `recompute_metrics` from the answers of a replay. */
  function MetricsOf(answers: map<Aspect, OptionId>, spec: Option<TaskSpec>): Metrics {
    if spec == None || !spec.value.HasLabels() then Metrics(false, answers.Keys, {}, 0.0, false)
    else
      var correct, total := CorrectAspects(answers, spec.value), |spec.value.aspects|;
      Metrics(true, answers.Keys, correct, |correct| as real / total as real,
        total > 0 && |answers| >= total && forall a | a in spec.value.aspects :: a in correct)
  }

  datatype Category = StrictGold | RecoverableCorrect | PartialCorrect | TotallyWrong | InfrastructureInvalid

  /** `classify_trajectory`. */
  function Classify(metrics: Metrics, retained: bool, infrastructureInvalid: bool): Category {
    if infrastructureInvalid then InfrastructureInvalid
    else if metrics.success && retained then RecoverableCorrect
    else if metrics.success then StrictGold
    else if metrics.completion > 0.0 then PartialCorrect
    else TotallyWrong
  }

  /** The sample weight of a class. */
  function Weight(category: Category): real {
    match category
    case StrictGold => 1.0
    case RecoverableCorrect => 1.0
    case PartialCorrect => 0.5
    case TotallyWrong => 0.0
    case InfrastructureInvalid => 0.0
  }

  /** The completion ratio is positive exactly when some aspect is answered correctly, and one
      exactly when all the aspects of a task that lists each once are. */
  lemma CompletionMeans(answers: map<Aspect, OptionId>, spec: TaskSpec)
    requires spec.HasLabels()
    ensures var metrics := MetricsOf(answers, Some(spec));
      0.0 <= metrics.completion <= 1.0 &&
      (metrics.completion > 0.0 <==> metrics.correct != {}) &&
      (metrics.completion == 1.0 ==> metrics.success) &&
      ((forall i, j | 0 <= i < j < |spec.aspects| :: spec.aspects[i] != spec.aspects[j]) ==>
        (metrics.completion == 1.0 <==> metrics.success))
  {
    var correct, total := CorrectAspects(answers, spec), |spec.aspects|;
    var listed := set a | a in spec.aspects;
    ListedCount(spec.aspects);
    Subset(correct, listed);
    Subset(correct, answers.Keys);
    assert |answers.Keys| == |answers|;
    Ratio(|correct|, total);
    if |correct| == total { assert correct == listed; }
    if MetricsOf(answers, Some(spec)).success { assert correct == listed; }
  }

  lemma Ratio(a: nat, b: nat)
    requires 0 < b && a <= b
    ensures 0.0 <= a as real / b as real <= 1.0
    ensures a as real / b as real > 0.0 <==> a > 0
    ensures a as real / b as real == 1.0 <==> a == b
  {
  }

  lemma Subset<T>(a: set<T>, b: set<T>)
    requires a <= b
    ensures |a| <= |b| && (|a| == |b| ==> a == b)
  {
    assert b == a + (b - a);
  }

  lemma {:induction false} ListedCount(s: seq<Aspect>)
    ensures |set a | a in s| <= |s|
    ensures (forall i, j | 0 <= i < j < |s| :: s[i] != s[j]) ==> |set a | a in s| == |s|
  {
    if s == [] {
    } else {
      ListedCount(s[1..]);
      assert (set a | a in s) == (set a | a in s[1..]) + {s[0]};
    }
  }
}
