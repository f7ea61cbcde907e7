/** `clean_trajectory` and `is_sft_eligible`: the cleaning loop over a transcript, and what an
    eligible record is guaranteed to teach. */
module TravelSft {
  import opened Common
  import opened TravelReplay
  import opened TravelProtocol
  import opened TravelCleaning

  datatype Cleaned = Cleaned(messages: seq<Message>, mask: seq<int>, category: Category, weight: real)

  /** A retained error: its turn, its kind, and the turn that repairs it. */
  datatype Retained = Retained(index: nat, kind: Option<Kind>, repairIndex: nat)
  datatype Audit = Audit(cut: Cutoff, retained: seq<Retained>, metrics: Metrics, metricsUnavailable: bool)

  ghost predicate SupervisedAt(events: seq<Event>, limit: int, spec: Option<TaskSpec>, i: int) {
    exists x :: 0 <= x < limit <= |events| && events[x].index == i && VerdictOn(events[x], events, spec) == Supervised
  }

  /** The mask is 1 exactly at the supervised turns. */
  ghost predicate MaskMatches(mask: seq<int>, events: seq<Event>, limit: int, spec: Option<TaskSpec>) {
    forall i | 0 <= i < |mask| :: mask[i] == if SupervisedAt(events, limit, spec, i) then 1 else 0
  }

  ghost predicate RetainedBefore(events: seq<Event>, limit: int, spec: Option<TaskSpec>) {
    exists x :: 0 <= x < limit <= |events| && VerdictOn(events[x], events, spec).RepairedContext?
  }

  /** The retained errors among the first `limit` events, in order. */
  function RetainedErrors(events: seq<Event>, limit: nat, spec: Option<TaskSpec>): seq<Retained>
    requires limit <= |events|
  {
    if limit == 0 then [] else
      var e, before := events[limit - 1], RetainedErrors(events, limit - 1, spec);
      match VerdictOn(e, events, spec)
      case RepairedContext(repair) =>
        FutureRepairFinds(e, events, 0);
        before + [Retained(e.index, e.kind, events[repair].index)]
      case _ => before
  }

  /** Number of events whose turn lies before the cut. */
  function CountBefore(events: seq<Event>, cut: Cutoff): (c: nat)
    ensures c <= |events|
  {
    if events == [] || !Before(events[0].index, cut) then 0 else 1 + CountBefore(events[1..], cut)
  }

  /** The outcome for a valid record: the longest clean prefix, its mask and its class. */
  ghost function ExpectedClass(messages: seq<Message>, cut: Cutoff, spec: Option<TaskSpec>, missingThink: bool,
                               schemaValid: bool): Category {
    var events := Events(messages);
    var metrics := MetricsOf(Answers(Events(messages[..KeptLength(messages, cut)])), spec);
    if !metrics.available || missingThink || !schemaValid then InfrastructureInvalid
    else Classify(metrics, RetainedBefore(events, CountBefore(events, cut), spec), false)
  }

  // ---------- the loops ----------

  method CollectFaults(faults: seq<(nat, string)>) returns (all: map<nat, Kind>)
    ensures all == FoldFaults(faults)
  {
    all := map[];
    for i := 0 to |faults|
      invariant all == FoldFaults(faults[..i])
    {
      assert faults[..i + 1][..i] == faults[..i];
      all := all[faults[i].0 := CanonicalFault(faults[i].1)];
    }
    assert faults[..|faults|] == faults;
  }

  ghost function ThinkFaults(messages: seq<Message>, n: nat, folded: map<nat, Kind>): map<nat, Kind>
    requires n <= |messages|
  {
    map j: nat | 0 <= j < n && LacksThink(messages[j]) && j !in folded :: ThinkMissing
  }

  lemma ThinkFaultsNext(messages: seq<Message>, n: nat, folded: map<nat, Kind>)
    requires n < |messages|
    ensures folded + ThinkFaults(messages, n + 1, folded) ==
      if LacksThink(messages[n]) && n !in folded + ThinkFaults(messages, n, folded)
      then (folded + ThinkFaults(messages, n, folded))[n := ThinkMissing]
      else folded + ThinkFaults(messages, n, folded)
  {
  }

  method MarkMissingThink(messages: seq<Message>, folded: map<nat, Kind>) returns (all: map<nat, Kind>, missing: bool)
    ensures all == folded + ThinkFaults(messages, |messages|, folded)
    ensures missing <==> exists i :: 0 <= i < |messages| && LacksThink(messages[i])
  {
    all, missing := folded, false;
    for i := 0 to |messages|
      invariant all == folded + ThinkFaults(messages, i, folded)
      invariant missing <==> exists j :: 0 <= j < i && LacksThink(messages[j])
    {
      ThinkFaultsNext(messages, i, folded);
      if LacksThink(messages[i]) {
        if i !in all { all := all[i := ThinkMissing]; }
        missing := true;
      }
    }
  }

  method FirstFault(messages: seq<Message>, faults: map<nat, Kind>) returns (cut: Cutoff)
    ensures cut == FaultCutoff(messages, faults)
  {
    if faults == map[] { return Keep; }
    var first: nat :| first in faults.Keys;
    var rest := faults.Keys - {first};
    while rest != {}
      invariant rest <= faults.Keys && first in faults.Keys
      invariant forall k | k in faults.Keys && k !in rest :: first <= k
      decreases rest
    {
      var k: nat :| k in rest;
      rest := rest - {k};
      if k < first { first := k; }
    }
    assert first == LeastKey(faults);
    var index: nat := first;
    if index < |messages| && messages[index].role == Tool {
      while index > 0 && messages[index].role != Assistant
        invariant index <= first < |messages| && BackToAssistant(messages, index) == BackToAssistant(messages, first)
      {
        index := index - 1;
      }
    }
    cut := CutAt(index, faults[first]);
  }

  /** `recompute_metrics`. */
  method RecomputeMetrics(messages: seq<Message>, spec: Option<TaskSpec>) returns (metrics: Metrics)
    ensures metrics == MetricsOf(Answers(Events(messages)), spec)
  {
    var events := MakeEvents(messages);
    var answers: map<Aspect, OptionId> := map[];
    for i := 0 to |events|
      invariant answers == Answers(events[..i])
    {
      assert events[..i + 1][..i] == events[..i];
      if Counts(events[i]) { answers := answers[events[i].aspect.value := events[i].answerId.value]; }
    }
    assert events[..|events|] == events;
    metrics := MetricsOf(answers, spec);
  }

  ghost predicate AllBefore(events: seq<Event>, c: int, cut: Cutoff) {
    forall x | 0 <= x < c <= |events| :: Before(events[x].index, cut)
  }

  lemma CountStops(events: seq<Event>, cut: Cutoff, c: nat)
    requires c <= |events| && AllBefore(events, c, cut)
    requires c < |events| ==> !Before(events[c].index, cut)
    ensures CountBefore(events, cut) == c
  {
    if c > 0 {
      CountStops(events[1..], cut, c - 1);
    }
  }

  lemma MaskNext(mask: seq<int>, events: seq<Event>, i: nat, spec: Option<TaskSpec>)
    requires i < |events| && events[i].index < |mask| && MaskMatches(mask, events, i, spec)
    ensures MaskMatches(if VerdictOn(events[i], events, spec) == Supervised then mask[events[i].index := 1] else mask,
      events, i + 1, spec)
  {
  }

  lemma RetainedNext(events: seq<Event>, i: nat, spec: Option<TaskSpec>)
    requires i < |events|
    ensures RetainedBefore(events, i + 1, spec) <==>
      (RetainedBefore(events, i, spec) || VerdictOn(events[i], events, spec).RepairedContext?)
  {
  }

  /** What the loop over the events knows after i of them. */
  ghost predicate Judged(messages: seq<Message>, i: nat, spec: Option<TaskSpec>, fault: Cutoff, mask: seq<int>,
                         retained: bool, errors: seq<Retained>) {
    var events := Events(messages);
    i <= |events| && |mask| == |messages| && AllBefore(events, i, fault) &&
    Scan(events, i, events, spec, fault) == Scan(events, 0, events, spec, fault) &&
    MaskMatches(mask, events, i, spec) && (retained <==> RetainedBefore(events, i, spec)) &&
    errors == RetainedErrors(events, i, spec)
  }

  lemma JudgedNext(messages: seq<Message>, i: nat, spec: Option<TaskSpec>, fault: Cutoff, mask: seq<int>,
                   retained: bool, errors: seq<Retained>)
    requires i < |Events(messages)| && Judged(messages, i, spec, fault, mask, retained, errors)
    requires Before(Events(messages)[i].index, fault)
    ensures Events(messages)[i].index < |mask|
    ensures var e := Events(messages)[i]; var verdict := VerdictOn(e, Events(messages), spec);
      (verdict.RepairedContext? ==> verdict.repair < |Events(messages)|) &&
      (!verdict.Fatal? ==> Judged(messages, i + 1, spec, fault,
        if verdict == Supervised then mask[e.index := 1] else mask, retained || verdict.RepairedContext?,
        if verdict.RepairedContext? then errors + [Retained(e.index, e.kind, Events(messages)[verdict.repair].index)]
          else errors))
  {
    var events := Events(messages);
    EventLinked(messages, i);
    MaskNext(mask, events, i, spec);
    RetainedNext(events, i, spec);
    FutureRepairFinds(events[i], events, 0);
  }

  /** The outcome of the loop: the scan's cut, 1 in the mask exactly at the supervised turns before
      it, and the repaired errors before it. */
  ghost predicate Outcome(messages: seq<Message>, spec: Option<TaskSpec>, fault: Cutoff, cut: Cutoff, mask: seq<int>,
                          retained: bool, errors: seq<Retained>) {
    var events := Events(messages);
    var count := CountBefore(events, cut);
    cut == Scan(events, 0, events, spec, fault) && |mask| == |messages| && MaskMatches(mask, events, count, spec) &&
    (retained <==> RetainedBefore(events, count, spec)) && errors == RetainedErrors(events, count, spec)
  }

  lemma JudgedEnds(messages: seq<Message>, i: nat, spec: Option<TaskSpec>, fault: Cutoff, mask: seq<int>,
                   retained: bool, errors: seq<Retained>)
    requires Judged(messages, i, spec, fault, mask, retained, errors)
    ensures i == |Events(messages)| || !Before(Events(messages)[i].index, fault) ==>
      Outcome(messages, spec, fault, fault, mask, retained, errors)
    ensures i < |Events(messages)| && Before(Events(messages)[i].index, fault) ==>
      match VerdictOn(Events(messages)[i], Events(messages), spec)
      case Fatal(kind) => Outcome(messages, spec, fault, CutAt(Events(messages)[i].index, kind), mask, retained, errors)
      case _ => true
  {
    var events := Events(messages);
    EventsIncrease(messages);
    if i == |events| || !Before(events[i].index, fault) {
      CountStops(events, fault, i);
    } else if VerdictOn(events[i], events, spec).Fatal? {
      CountStops(events, CutAt(events[i].index, VerdictOn(events[i], events, spec).kind), i);
    }
  }

  /** The loop over the events: where it cuts, what it masks, what it retains. */
  method JudgeEvents(messages: seq<Message>, spec: Option<TaskSpec>, fault: Cutoff)
    returns (cut: Cutoff, mask: seq<int>, retained: bool, errors: seq<Retained>)
    ensures Outcome(messages, spec, fault, cut, mask, retained, errors)
  {
    var events := MakeEvents(messages);
    mask, retained, errors, cut := seq(|messages|, _ => 0), false, [], fault;
    var i := 0;
    while i < |events| && Before(events[i].index, fault)
      invariant 0 <= i <= |events| && cut == fault
      invariant Judged(messages, i, spec, fault, mask, retained, errors)
    {
      var e := events[i];
      JudgedEnds(messages, i, spec, fault, mask, retained, errors);
      JudgedNext(messages, i, spec, fault, mask, retained, errors);
      var verdict := VerdictOn(e, events, spec);
      if verdict.Fatal? {
        cut := CutAt(e.index, verdict.kind);
        return;
      }
      if verdict.RepairedContext? {
        retained := true;
        errors := errors + [Retained(e.index, e.kind, events[verdict.repair].index)];
      }
      if verdict.Supervised? { mask := mask[e.index := 1]; }
      i := i + 1;
    }
    JudgedEnds(messages, i, spec, fault, mask, retained, errors);
  }

  /** What the cleaning returns.  An infrastructure-invalid record keeps all its messages and
      supervises none; any other keeps the prefix before the cut, supervised turn by turn. */
  ghost predicate CleaningOf(r: Cleaned, audit: Audit, messages: seq<Message>, faults: seq<(nat, string)>,
                             spec: Option<TaskSpec>,
                             infrastructureInvalid: bool, requireThink: bool, schemaValid: bool) {
    |r.mask| == |r.messages| && r.weight == Weight(r.category) &&
    audit.metrics == MetricsOf(Answers(Events(r.messages)), spec) &&
    (audit.metricsUnavailable <==> !infrastructureInvalid && !audit.metrics.available) &&
    if infrastructureInvalid then
      r.messages == messages && (forall i | 0 <= i < |r.mask| :: r.mask[i] == 0) &&
        r.category == InfrastructureInvalid &&
      audit.retained == []
    else
      var missingThink := requireThink && exists i :: 0 <= i < |messages| && LacksThink(messages[i]);
      audit.cut == CutoffOf(messages, AllFaults(messages, faults, requireThink), spec) &&
      r.messages == messages[..KeptLength(messages, audit.cut)] &&
      MaskMatches(r.mask, Events(messages), CountBefore(Events(messages), audit.cut), spec) &&
      audit.retained == RetainedErrors(Events(messages), CountBefore(Events(messages), audit.cut), spec) &&
      r.category == ExpectedClass(messages, audit.cut, spec, missingThink, schemaValid)
  }

  /** The parts of a cleaning, put together. */
  lemma CleaningHolds(messages: seq<Message>, faults: seq<(nat, string)>, spec: Option<TaskSpec>, requireThink: bool,
                      schemaValid: bool, cut: Cutoff, mask: seq<int>, retained: bool, errors: seq<Retained>,
                      metrics: Metrics, category: Category)
    requires var all := AllFaults(messages, faults, requireThink);
      Outcome(messages, spec, FaultCutoff(messages, all), cut, mask, retained, errors)
    requires metrics == MetricsOf(Answers(Events(messages[..KeptLength(messages, cut)])), spec)
    requires var missingThink := requireThink && exists i :: 0 <= i < |messages| && LacksThink(messages[i]);
      category == if !metrics.available || missingThink || !schemaValid then InfrastructureInvalid
        else Classify(metrics, retained, false)
    ensures var n := KeptLength(messages, cut);
      CleaningOf(Cleaned(messages[..n], mask[..n], category, Weight(category)),
        Audit(cut, errors, metrics, !metrics.available),
        messages, faults, spec, false, requireThink, schemaValid)
  {
  }

  /** The cleaning of a record that is not infrastructure-invalid from the start. */
  method CleanValid(messages: seq<Message>, faults: seq<(nat, string)>, spec: Option<TaskSpec>, requireThink: bool,
                    schemaValid: bool)
    returns (r: Cleaned, audit: Audit)
    ensures CleaningOf(r, audit, messages, faults, spec, false, requireThink, schemaValid)
  {
    var allFaults := CollectFaults(faults);
    var missingThink := false;
    if requireThink { allFaults, missingThink := MarkMissingThink(messages, allFaults); }
    assert allFaults == AllFaults(messages, faults, requireThink);
    var fault := FirstFault(messages, allFaults);
    var cut, mask, retained, errors := JudgeEvents(messages, spec, fault);
    var n := KeptLength(messages, cut);
    var metrics := RecomputeMetrics(messages[..n], spec);
    var category, weight := Decide(metrics, retained, missingThink, schemaValid);
    r := Cleaned(messages[..n], mask[..n], category, weight);
    audit := Audit(cut, errors, metrics, !metrics.available);
    CleaningHolds(messages, faults, spec, requireThink, schemaValid, cut, mask, retained, errors, metrics, category);
  }

  /** The whole cleaning.  `schemaValid` is the verdict of the schema check on the result. */
  method CleanTrajectory(messages: seq<Message>, faults: seq<(nat, string)>, spec: Option<TaskSpec>,
                         infrastructureInvalid: bool, requireThink: bool, schemaValid: bool)
    returns (r: Cleaned, audit: Audit)
    ensures CleaningOf(r, audit, messages, faults, spec, infrastructureInvalid, requireThink, schemaValid)
  {
    if infrastructureInvalid {
      var metrics := RecomputeMetrics(messages, spec);
      var category := Classify(metrics, false, true);
      r := Cleaned(messages, seq(|messages|, _ => 0), category, Weight(category));
      audit := Audit(Keep, [], metrics, false);
    } else {
      r, audit := CleanValid(messages, faults, spec, requireThink, schemaValid);
    }
  }

  /** The class and the sample weight of a record that is not infrastructure-invalid from the start. */
  method Decide(metrics: Metrics, retained: bool, missingThink: bool, schemaValid: bool)
    returns (category: Category, weight: real)
    ensures weight == Weight(category)
    ensures category ==
      if !metrics.available || missingThink || !schemaValid then InfrastructureInvalid
        else Classify(metrics, retained, false)
  {
    category := Classify(metrics, retained, false);
    weight := Weight(category);
    if !metrics.available { category, weight := InfrastructureInvalid, 0.0; }
    if missingThink { category, weight := InfrastructureInvalid, 0.0; }
    if !schemaValid { category, weight := InfrastructureInvalid, 0.0; }
  }

  // ---------- eligibility ----------

  predicate IsSftEligible(r: Cleaned, audit: Option<Audit>) {
    r.category in {StrictGold, RecoverableCorrect, PartialCorrect} &&
    !(audit.Some? && audit.value.metricsUnavailable) &&
    exists i | 0 <= i < |r.mask| :: r.mask[i] != 0
  }

  /** The record has a supervised Answer turn for the aspect, with one of its correct options. */
  ghost predicate TeachesAspect(r: Cleaned, spec: TaskSpec, a: Aspect) {
    a in spec.aspects && exists x :: 0 <= x < |Events(r.messages)| && TeachesAt(r, Events(r.messages)[x], spec, a)
  }

  ghost predicate TeachesAt(r: Cleaned, e: Event, spec: TaskSpec, a: Aspect) {
    e.aspect == Some(a) && CorrectlyAnswers(e, spec) && e.index < |r.mask| && r.mask[e.index] == 1
  }

  ghost predicate CorrectlyAnswers(e: Event, spec: TaskSpec) {
    Counts(e) && e.aspect.value in spec.aspects && e.aspect.value in spec.correctIds &&
    e.answerId.value in spec.correctIds[e.aspect.value]
  }

  lemma {:induction false} UptoIsPrefix(events: seq<Event>, n: nat, x: nat)
    requires x < |Upto(events, n)|
    ensures x < |events| && Upto(events, n)[x] == events[x] && events[x].index < n
  {
    if x == 0 {
    } else {
      UptoIsPrefix(events[1..], n, x - 1);
    }
  }

  lemma {:induction false} UptoWithinCount(events: seq<Event>, cut: Cutoff, n: nat, x: nat)
    requires x < |Upto(events, n)| && (cut.CutAt? ==> n <= cut.index)
    ensures x < CountBefore(events, cut)
  {
    if x == 0 {
    } else {
      UptoWithinCount(events[1..], cut, n, x - 1);
    }
  }

  /** A correct answer among the metrics of the cleaned messages was supervised. */
  lemma CorrectAnswerSupervised(messages: seq<Message>, faults: map<nat, Kind>, spec: TaskSpec,
                                mask: seq<int>, a: Aspect)
    requires var cut := CutoffOf(messages, faults, Some(spec));
      var n := KeptLength(messages, cut);
      |mask| == n && MaskMatches(mask, Events(messages), CountBefore(Events(messages), cut), Some(spec)) &&
      a in CorrectAspects(Answers(Events(messages[..n])), spec)
    ensures forall category, weight ::
      TeachesAspect(Cleaned(messages[..KeptLength(messages, CutoffOf(messages, faults, Some(spec)))], mask, category,
        weight), spec, a)
  {
    var cut := CutoffOf(messages, faults, Some(spec));
    var n := KeptLength(messages, cut);
    var events, kept := Events(messages), Events(messages[..n]);
    LongestCleanPrefix(messages, faults, Some(spec));
    EventsCausal(messages, n);
    AnswersFrom(kept, a);
    var x :| 0 <= x < |kept| && Counts(kept[x]) && kept[x].aspect == Some(a) &&
      kept[x].answerId == Some(Answers(kept)[a]);
    UptoIsPrefix(events, n, x);
    UptoWithinCount(events, cut, n, x);
    KeptEventNotFatal(messages, faults, Some(spec), x);
    KeptTurnKinds(messages, faults, Some(spec), x);
    assert AnswerCorrect(events[x], Some(spec)) == Right;
    assert SupervisedAt(events, CountBefore(events, cut), Some(spec), events[x].index);
    assert CorrectlyAnswers(kept[x], spec);
    forall category, weight ensures TeachesAspect(Cleaned(messages[..n], mask, category, weight), spec, a) {
      assert TeachesAt(Cleaned(messages[..n], mask, category, weight), kept[x], spec, a);
    }
  }

  lemma {:induction false} CountWithinUpto(events: seq<Event>, cut: Cutoff, n: nat, x: nat)
    requires x < CountBefore(events, cut)
    requires (cut.CutAt? && cut.index <= n) || forall y | 0 <= y < |events| :: events[y].index < n
    ensures x < |Upto(events, n)|
  {
    if x == 0 {
    } else {
      CountWithinUpto(events[1..], cut, n, x - 1);
    }
  }

  /** The events of the kept messages are the events before the cut. */
  lemma KeptEvents(messages: seq<Message>, faults: map<nat, Kind>, spec: Option<TaskSpec>)
    ensures var cut := CutoffOf(messages, faults, spec);
      var kept := Events(messages[..KeptLength(messages, cut)]);
      |kept| == CountBefore(Events(messages), cut) && forall x | 0 <= x < |kept| :: kept[x] == Events(messages)[x]
  {
    var cut := CutoffOf(messages, faults, spec);
    var n, events := KeptLength(messages, cut), Events(messages);
    LongestCleanPrefix(messages, faults, spec);
    EventsCausal(messages, n);
    var kept, count := Upto(events, n), CountBefore(events, cut);
    forall y | 0 <= y < |events| ensures events[y].index < |messages| { EventLinked(messages, y); }
    if |kept| > count { UptoWithinCount(events, cut, n, count); }
    if count > |kept| { CountWithinUpto(events, cut, n, |kept|); }
    forall x | 0 <= x < |kept| ensures kept[x] == events[x] { UptoIsPrefix(events, n, x); }
  }

  /** What the classes mean.  A gold or recoverable record teaches every aspect of the task; in a
      gold one every kept turn was accepted, in a recoverable one some kept turn was not; a
      partially correct record teaches some aspect, a totally wrong one answers none correctly. */
  lemma ClassMeans(r: Cleaned, audit: Audit, messages: seq<Message>, faults: seq<(nat, string)>, spec: Option<TaskSpec>,
                   infrastructureInvalid: bool, requireThink: bool, schemaValid: bool)
    requires CleaningOf(r, audit, messages, faults, spec, infrastructureInvalid, requireThink, schemaValid)
    ensures r.category in {StrictGold, RecoverableCorrect, PartialCorrect} ==> spec.Some?
    ensures r.category in {StrictGold, RecoverableCorrect} ==>
      spec.value.aspects != [] && forall a | a in spec.value.aspects :: TeachesAspect(r, spec.value, a)
    ensures r.category == PartialCorrect ==> exists a :: TeachesAspect(r, spec.value, a)
    ensures r.category == TotallyWrong ==> spec.Some? && audit.metrics.correct == {}
    ensures r.category == StrictGold ==> forall x | 0 <= x < |Events(r.messages)| :: Events(r.messages)[x].accepted
    ensures r.category == RecoverableCorrect ==>
      exists x :: 0 <= x < |Events(r.messages)| && !Events(r.messages)[x].accepted
  {
    if r.category == TotallyWrong { CompletionMeans(Answers(Events(r.messages)), spec.value); }
    if r.category in {StrictGold, RecoverableCorrect, PartialCorrect} {
      var all := AllFaults(messages, faults, requireThink);
      forall a | a in audit.metrics.correct ensures TeachesAspect(r, spec.value, a) {
        CorrectAnswerSupervised(messages, all, spec.value, r.mask, a);
        assert r == Cleaned(r.messages, r.mask, r.category, r.weight);
      }
      CompletionMeans(Answers(Events(r.messages)), spec.value);
      if r.category == PartialCorrect {
        var a :| a in audit.metrics.correct;
        assert TeachesAspect(r, spec.value, a);
      } else {
        RetainedMeans(messages, all, spec);
      }
    }
  }

  /** Repaired context was retained exactly when some kept turn was not accepted. */
  lemma RetainedMeans(messages: seq<Message>, faults: map<nat, Kind>, spec: Option<TaskSpec>)
    ensures var cut := CutoffOf(messages, faults, spec);
      var kept := Events(messages[..KeptLength(messages, cut)]);
      RetainedBefore(Events(messages), CountBefore(Events(messages), cut), spec) <==>
      exists x :: 0 <= x < |kept| && !kept[x].accepted
  {
    var cut := CutoffOf(messages, faults, spec);
    var events, kept := Events(messages), Events(messages[..KeptLength(messages, cut)]);
    KeptEvents(messages, faults, spec);
    forall x | 0 <= x < |kept| ensures !kept[x].accepted <==> VerdictOn(events[x], events, spec).RepairedContext? {
      EventLinked(messages[..KeptLength(messages, cut)], x);
      KeptTurnKinds(messages, faults, spec, x);
    }
    if RetainedBefore(events, CountBefore(events, cut), spec) {
      var x :| 0 <= x < CountBefore(events, cut) <= |events| && VerdictOn(events[x], events, spec).RepairedContext?;
      assert !kept[x].accepted;
    }
    if x :| 0 <= x < |kept| && !kept[x].accepted {
      assert VerdictOn(events[x], events, spec).RepairedContext?;
    }
  }

  /** Every record the cleaner makes eligible, asked with or without its audit, teaches a correct
      answer; unless it is only partially correct, it teaches every aspect of the task. */
  method CleanAndSelect(messages: seq<Message>, faults: seq<(nat, string)>, spec: Option<TaskSpec>,
                        infrastructureInvalid: bool, requireThink: bool, schemaValid: bool, withAudit: bool)
    returns (r: Cleaned, audit: Audit, eligible: bool)
    ensures CleaningOf(r, audit, messages, faults, spec, infrastructureInvalid, requireThink, schemaValid)
    ensures eligible <==> IsSftEligible(r, if withAudit then Some(audit) else None)
    ensures eligible ==> spec.Some? && exists a :: TeachesAspect(r, spec.value, a)
    ensures eligible && r.category != PartialCorrect ==> forall a | a in spec.value.aspects ::
      TeachesAspect(r, spec.value, a)
  {
    r, audit := CleanTrajectory(messages, faults, spec, infrastructureInvalid, requireThink, schemaValid);
    eligible := IsSftEligible(r, if withAudit then Some(audit) else None);
    ClassMeans(r, audit, messages, faults, spec, infrastructureInvalid, requireThink, schemaValid);
    if eligible && r.category != PartialCorrect {
      assert TeachesAspect(r, spec.value, spec.value.aspects[0]);
    }
  }
}
