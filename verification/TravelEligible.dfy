/** Metrics, classes and eligibility, stated on the turns of a cleaned record, from both sides. */
module TravelEligible {
  import opened Common
  import opened TravelReplay
  import opened TravelCleaning
  import opened TravelSft

  // ---------- answers and metrics ----------

  predicate Answering(e: Event, a: Aspect) {
    e.accepted && e.choice == Some(Answer) && e.aspect == Some(a) && e.answerId.Some?
  }

  /** Event x is the last accepted answer for the aspect. */
  ghost predicate LastAnswer(events: seq<Event>, a: Aspect, x: int) {
    0 <= x < |events| && Answering(events[x], a) && forall y | x < y < |events| :: !Answering(events[y], a)
  }

  /** The recorded answers are the last accepted ones, aspect by aspect. */
  lemma {:induction false} AnswersAre(events: seq<Event>, a: Aspect)
    ensures a in Answers(events) <==> exists x :: LastAnswer(events, a, x)
    ensures forall x | LastAnswer(events, a, x) ::
      a in Answers(events) && Some(Answers(events)[a]) == events[x].answerId
  {
    if events == [] {
    } else {
      var n := |events| - 1;
      var rest := events[..n];
      AnswersAre(rest, a);
      if Answering(events[n], a) {
        assert LastAnswer(events, a, n);
      } else {
        forall x
          ensures LastAnswer(events, a, x) <==> LastAnswer(rest, a, x)
          ensures LastAnswer(events, a, x) ==> 0 <= x < n && rest[x] == events[x]
        {
          SameLast(events, a, x);
        }
      }
    }
  }

  lemma SameLast(events: seq<Event>, a: Aspect, x: int)
    requires events != [] && !Answering(events[|events| - 1], a)
    ensures LastAnswer(events, a, x) <==> LastAnswer(events[..|events| - 1], a, x)
    ensures LastAnswer(events, a, x) ==> 0 <= x < |events| - 1 && events[..|events| - 1][x] == events[x]
  {
    var rest := events[..|events| - 1];
    if LastAnswer(rest, a, x) {
      forall y | x < y < |events| ensures !Answering(events[y], a) {
        assert y < |rest| ==> events[y] == rest[y];
      }
    }
    if LastAnswer(events, a, x) {
      forall y | x < y < |rest| ensures !Answering(rest[y], a) { assert events[y] == rest[y]; }
    }
  }

  predicate Labelled(spec: Option<TaskSpec>) {
    spec.Some? && spec.value.aspects != [] && forall a | a in spec.value.aspects :: a in spec.value.correctIds
  }

  /** The last accepted answer of a task's aspect names one of its correct options. */
  ghost predicate AnsweredRight(events: seq<Event>, spec: TaskSpec, a: Aspect) {
    a in spec.aspects && a in spec.correctIds && exists x :: RightLast(events, spec, a, x)
  }

  ghost predicate RightLast(events: seq<Event>, spec: TaskSpec, a: Aspect, x: int)
    requires a in spec.correctIds
  {
    LastAnswer(events, a, x) && events[x].answerId.value in spec.correctIds[a]
  }

  lemma CorrectAre(events: seq<Event>, spec: TaskSpec, a: Aspect)
    ensures a in CorrectAspects(Answers(events), spec) <==> AnsweredRight(events, spec, a)
  {
    AnswersAre(events, a);
    if a in CorrectAspects(Answers(events), spec) {
      var x :| LastAnswer(events, a, x);
      assert RightLast(events, spec, a, x);
    }
  }

  /** Every metric, on the events: labels known, aspects answered, aspects answered right, their
      share of the task, and success when all are right and no fewer were answered. */
  lemma MetricsMean(events: seq<Event>, spec: Option<TaskSpec>)
    ensures var metrics := MetricsOf(Answers(events), spec);
      (metrics.available <==> Labelled(spec)) &&
      (forall a :: a in metrics.answered <==> exists x :: LastAnswer(events, a, x)) &&
      (Labelled(spec) ==>
        (forall a :: a in metrics.correct <==> AnsweredRight(events, spec.value, a)) &&
        metrics.completion == |metrics.correct| as real / |spec.value.aspects| as real) &&
      (!Labelled(spec) ==> metrics.correct == {} && metrics.completion == 0.0) &&
      (metrics.success <==>
        Labelled(spec) && |metrics.answered| >= |spec.value.aspects| &&
        forall a | a in spec.value.aspects :: AnsweredRight(events, spec.value, a))
  {
    var answers, metrics := Answers(events), MetricsOf(Answers(events), spec);
    forall a ensures a in metrics.answered <==> exists x :: LastAnswer(events, a, x) { AnswersAre(events, a); }
    assert |answers.Keys| == |answers|;
    if Labelled(spec) {
      forall a ensures a in metrics.correct <==> AnsweredRight(events, spec.value, a) {
        CorrectAre(events, spec.value, a);
      }
    }
  }

  // ---------- classes ----------

  /** Nothing about the input makes the record invalid. */
  ghost predicate InputFine(messages: seq<Message>, spec: Option<TaskSpec>, infrastructureInvalid: bool,
                            requireThink: bool, schemaValid: bool) {
    !infrastructureInvalid && Labelled(spec) && schemaValid &&
    (requireThink ==> forall i | 0 <= i < |messages| :: !LacksThink(messages[i]))
  }

  ghost predicate AllRight(r: Cleaned, audit: Audit, spec: TaskSpec) {
    |audit.metrics.answered| >= |spec.aspects| &&
    forall a | a in spec.aspects :: AnsweredRight(Events(r.messages), spec, a)
  }

  ghost predicate SomeRight(r: Cleaned, spec: TaskSpec) {
    exists a :: AnsweredRight(Events(r.messages), spec, a)
  }

  lemma RetainedIff(messages: seq<Message>, faults: map<nat, Kind>, spec: Option<TaskSpec>)
    ensures var cut := CutoffOf(messages, faults, spec);
      var kept := Events(messages[..KeptLength(messages, cut)]);
      RetainedBefore(Events(messages), CountBefore(Events(messages), cut), spec) <==>
      !forall x | 0 <= x < |kept| :: kept[x].accepted
  {
    RetainedMeans(messages, faults, spec);
  }

  /** The class of a cleaned record, exactly: valid or not; all right, with or without a refused
      turn; some right; none right.  The weight follows the class. */
  lemma ClassIff(r: Cleaned, audit: Audit, messages: seq<Message>, faults: seq<(nat, string)>, spec: Option<TaskSpec>,
                 infrastructureInvalid: bool, requireThink: bool, schemaValid: bool)
    requires CleaningOf(r, audit, messages, faults, spec, infrastructureInvalid, requireThink, schemaValid)
    ensures var fine := InputFine(messages, spec, infrastructureInvalid, requireThink, schemaValid);
      var clean := forall x | 0 <= x < |Events(r.messages)| :: Events(r.messages)[x].accepted;
      (r.category == InfrastructureInvalid <==> !fine) &&
      (r.category == StrictGold <==> fine && AllRight(r, audit, spec.value) && clean) &&
      (r.category == RecoverableCorrect <==> fine && AllRight(r, audit, spec.value) && !clean) &&
      (r.category == PartialCorrect <==> fine && !AllRight(r, audit, spec.value) && SomeRight(r, spec.value)) &&
      (r.category == TotallyWrong <==> fine && !AllRight(r, audit, spec.value) && !SomeRight(r, spec.value))
    ensures r.weight == match r.category
      case StrictGold => 1.0
      case RecoverableCorrect => 1.0
      case PartialCorrect => 0.5
      case _ => 0.0
  {
    var events := Events(r.messages);
    MetricsMean(events, spec);
    if InputFine(messages, spec, infrastructureInvalid, requireThink, schemaValid) {
      RetainedIff(messages, AllFaults(messages, faults, requireThink), spec);
      CompletionMeans(Answers(events), spec.value);
      if SomeRight(r, spec.value) {
        var a :| AnsweredRight(events, spec.value, a);
        assert a in audit.metrics.correct;
      }
      if audit.metrics.correct != {} {
        var a :| a in audit.metrics.correct;
        assert AnsweredRight(events, spec.value, a);
      }
    }
  }

  lemma AllIsSome(r: Cleaned, audit: Audit, spec: TaskSpec)
    requires AllRight(r, audit, spec) && spec.aspects != []
    ensures SomeRight(r, spec)
  {
    assert AnsweredRight(Events(r.messages), spec, spec.aspects[0]);
  }

  /** A record with some aspect right has a supervised turn. */
  lemma RightIsTaught(r: Cleaned, audit: Audit, messages: seq<Message>, faults: seq<(nat, string)>,
                      spec: Option<TaskSpec>, infrastructureInvalid: bool, requireThink: bool, schemaValid: bool)
    requires CleaningOf(r, audit, messages, faults, spec, infrastructureInvalid, requireThink, schemaValid)
    requires r.category in {StrictGold, RecoverableCorrect, PartialCorrect}
    ensures exists i :: 0 <= i < |r.mask| && r.mask[i] != 0
  {
    ClassIff(r, audit, messages, faults, spec, infrastructureInvalid, requireThink, schemaValid);
    ClassMeans(r, audit, messages, faults, spec, infrastructureInvalid, requireThink, schemaValid);
    var a := if r.category == PartialCorrect then var b :| TeachesAspect(r, spec.value, b); b
      else spec.value.aspects[0];
    assert TeachesAspect(r, spec.value, a);
    var x :| 0 <= x < |Events(r.messages)| && TeachesAt(r, Events(r.messages)[x], spec.value, a);
    assert r.mask[Events(r.messages)[x].index] != 0;
  }

  /** A cleaned record is eligible, asked with or without its audit, if and only if its input is
      fine and some aspect of the task is answered right in it. */
  lemma EligibleIff(r: Cleaned, audit: Audit, messages: seq<Message>, faults: seq<(nat, string)>,
                    spec: Option<TaskSpec>, infrastructureInvalid: bool, requireThink: bool, schemaValid: bool,
                    withAudit: bool)
    requires CleaningOf(r, audit, messages, faults, spec, infrastructureInvalid, requireThink, schemaValid)
    ensures IsSftEligible(r, if withAudit then Some(audit) else None) <==>
      InputFine(messages, spec, infrastructureInvalid, requireThink, schemaValid) && SomeRight(r, spec.value)
  {
    ClassIff(r, audit, messages, faults, spec, infrastructureInvalid, requireThink, schemaValid);
    if InputFine(messages, spec, infrastructureInvalid, requireThink, schemaValid) {
      MetricsMean(Events(r.messages), spec);
      if AllRight(r, audit, spec.value) { AllIsSome(r, audit, spec.value); }
      if SomeRight(r, spec.value) {
        RightIsTaught(r, audit, messages, faults, spec, infrastructureInvalid, requireThink, schemaValid);
      }
    }
  }

  // ---------- the faults of a transcript ----------

  /** Fault j is the last one reported for the index. */
  ghost predicate LastFault(faults: seq<(nat, string)>, i: nat, j: int) {
    0 <= j < |faults| && faults[j].0 == i && forall k | j < k < |faults| :: faults[k].0 != i
  }

  lemma {:induction false} FoldedAre(faults: seq<(nat, string)>, i: nat)
    ensures i in FoldFaults(faults) <==> exists j :: LastFault(faults, i, j)
    ensures forall j | LastFault(faults, i, j) ::
      i in FoldFaults(faults) && FoldFaults(faults)[i] == CanonicalFault(faults[j].1)
  {
    if faults == [] {
    } else {
      var n := |faults| - 1;
      var rest := faults[..n];
      FoldedAre(rest, i);
      if faults[n].0 == i {
        assert LastFault(faults, i, n);
      } else {
        forall j
          ensures LastFault(faults, i, j) <==> LastFault(rest, i, j)
          ensures LastFault(faults, i, j) ==> 0 <= j < n && rest[j] == faults[j]
        {
          assert 0 <= j < n ==> faults[j] == rest[j];
          if LastFault(rest, i, j) {
            forall k | j < k < |faults| ensures faults[k].0 != i { assert k < n ==> faults[k] == rest[k]; }
          }
          if LastFault(faults, i, j) {
            forall k | j < k < |rest| ensures rest[k].0 != i { assert faults[k] == rest[k]; }
          }
        }
      }
    }
  }

  /** The faults of a transcript: those reported, the last code for each index, and under the strict
      policy the assistant turns that call a tool without reasoning. */
  lemma FaultsAre(messages: seq<Message>, faults: seq<(nat, string)>, requireThink: bool, i: nat)
    ensures var reported := exists j :: LastFault(faults, i, j);
      var thoughtless := requireThink && i < |messages| && messages[i].role == Assistant &&
        messages[i].hasToolCalls && !messages[i].hasReasoning;
      var all := AllFaults(messages, faults, requireThink);
      (i in all <==> reported || thoughtless) &&
      (forall j | LastFault(faults, i, j) :: all[i] == CanonicalFault(faults[j].1)) &&
      (!reported && thoughtless ==> all[i] == ThinkMissing)
  {
    FoldedAre(faults, i);
  }
}
