/** What one turn's event says, read off its message and observation, and what the explicit state
    lines of an observation do. */
module TravelLines {
  import opened Common
  import opened TravelReplay
  import opened TravelProtocol

  // ---------- one turn, read off its message ----------

  function LetterAspect(letter: Letter): string {
    match letter
    case A => "apartment"
    case C => "rental_car"
    case F => "flight"
    case H => "hotel"
    case R => "restaurant"
  }

  /** The aspect the call names: an answer's single option, or else the single hint. */
  predicate Names(call: Arguments, a: Aspect) {
    if call.choice == Some(Answer) && |call.content.ids| == 1
    then LetterAspect(call.content.ids[0].letter) == a
    else call.content.hints == [a]
  }

  predicate AnswersWith(call: Arguments, id: OptionId) {
    call.choice == Some(Answer) && call.content.exact && call.content.ids == [id]
  }

  /** What the event records of its message and observation. */
  lemma TurnReads(m: Message, index: nat, observed: bool, f: Feedback, s: PublicState)
    requires m.call.Some?
    ensures var e := JudgeTurn(m, index, observed, f, s);
      e.index == index && e.observed == observed && e.feedback == f &&
      e.choice == m.call.value.choice && e.content == m.call.value.content &&
      (forall a | Names(m.call.value, a) :: e.aspect == Some(a)) &&
      ((forall a :: !Names(m.call.value, a)) ==> e.aspect == s.current) &&
      (forall id :: e.answerId == Some(id) <==> AnswersWith(m.call.value, id)) &&
      e.currentBefore == (if s.current.Some? then s.current else if f.current.Shown? then f.current.value else None)
  {
    var call := m.call.value;
    if |call.content.hints| == 1 { assert call.content.hints == [call.content.hints[0]]; }
    if |call.content.ids| == 1 {
      assert call.content.ids == [call.content.ids[0]];
      assert call.choice == Some(Answer) ==> Names(call, LetterAspect(call.content.ids[0].letter));
    }
    if !(call.choice == Some(Answer) && |call.content.ids| == 1) && |call.content.hints| == 1 {
      assert Names(call, call.content.hints[0]);
    }
  }

  /** Line by line, the state after a turn: the shown value, or the value before where no line is
      shown; and on top what an accepted search or answer adds. */
  lemma TurnState(m: Message, index: nat, observed: bool, f: Feedback, s: PublicState)
    ensures var e := JudgeTurn(m, index, observed, f, s);
      var opens, closes := e.accepted && e.choice == Some(Search) && e.aspect.Some?,
        e.accepted && e.choice == Some(Answer) && e.aspect.Some? && e.answerId.Some?;
      e.after.current == (if opens then e.aspect else if closes then None
        else if f.current.Shown? then f.current.value else s.current) &&
      e.after.searched == (if f.searched.Shown? then f.searched.value else s.searched) +
        (if opens then {e.aspect.value} else {}) &&
      e.after.answered == (if f.answered.Shown? then f.answered.value else s.answered) +
        (if closes then {e.aspect.value} else {}) &&
      e.after.visible == (if opens && f.ids != [] then set id | id in f.ids
        else if f.visible.Shown? then f.visible.value else s.visible)
  {
  }

  // ---------- which error a turn makes ----------

  ghost predicate MentionsTwo(content: Content) {
    exists a, b :: a != b && MentionsAspect(content, a) && MentionsAspect(content, b)
  }

  predicate MentionsAspect(content: Content, a: Aspect) {
    a in content.hints || exists id | id in content.ids :: LetterAspect(id.letter) == a
  }

  lemma MentionedIff(content: Content)
    ensures |Mentioned(content)| > 1 <==> MentionsTwo(content)
  {
    var all := Mentioned(content);
    forall a ensures a in all <==> MentionsAspect(content, a) {
    }
    if |all| > 1 {
      var a :| a in all;
      assert all == {a} + (all - {a});
      var b :| b in all - {a};
      assert a != b && MentionsAspect(content, a) && MentionsAspect(content, b);
    }
    if a, b :| a != b && MentionsAspect(content, a) && MentionsAspect(content, b) {
      var pair := {a, b};
      assert pair <= all && all == pair + (all - pair);
    }
  }

  /** A known choice with some text. */
  predicate WellFormed(m: Message) {
    m.call.Some? && m.call.value.choice.Some? && !m.call.value.choice.value.OtherChoice? &&
    m.call.value.content.isText && !m.call.value.content.blank
  }

  /** About one aspect, the open one if one is open. */
  ghost predicate OneAspect(m: Message, current: Option<Aspect>, aspect: Option<Aspect>)
    requires m.call.Some?
  {
    !MentionsTwo(m.call.value.content) && (current.Some? && aspect.Some? ==> aspect == current)
  }

  predicate OpenAndSearched(current: Option<Aspect>, s: PublicState) { current.Some? && current.value in s.searched }

  ghost predicate NoExactId(m: Message)
    requires m.call.Some?
  {
    !(m.call.value.content.exact && |m.call.value.content.ids| == 1)
  }

  /** A turn without an explicit rejection: each kind of error, exactly when it arises. */
  lemma KindIff(m: Message, index: nat, observed: bool, f: Feedback, s: PublicState)
    requires f.rejection == None
    ensures var e := JudgeTurn(m, index, observed, f, s);
      var fits := WellFormed(m) && OneAspect(m, e.currentBefore, e.aspect);
      var open := OpenAndSearched(e.currentBefore, s);
      (e.kind == Some(InvalidParameters) <==>
        !WellFormed(m) || (fits && e.choice == Some(Answer) && open && NoExactId(m))) &&
      (e.kind == Some(CrossAspect) <==> WellFormed(m) && !fits) &&
      (e.kind == Some(RepeatedSearch) <==> fits && e.choice == Some(Search) && open) &&
      (e.kind == Some(ActionBeforeSearch) <==> fits && e.choice == Some(Action) && !open) &&
      (e.kind == Some(AnswerBeforeSearch) <==> fits && e.choice == Some(Answer) && !open) &&
      (e.kind == Some(InvisibleId) <==>
        fits && e.choice == Some(Answer) && open && !NoExactId(m) && m.call.value.content.ids[0] !in s.visible) &&
      (e.kind == Some(DuplicateAnswer) <==>
        fits && e.choice == Some(Answer) && open && !NoExactId(m) && m.call.value.content.ids[0] in s.visible &&
        e.currentBefore.value in s.answered) &&
      (e.kind == Some(EnvironmentFailure) <==>
        fits && e.choice == Some(Search) && !open && observed && !f.operationFailed && f.ids == []) &&
      (e.kind.Some? ==> e.kind.value in {InvalidParameters, CrossAspect, RepeatedSearch, ActionBeforeSearch,
                                         AnswerBeforeSearch, InvisibleId, DuplicateAnswer, EnvironmentFailure})
  {
    if m.call.Some? { MentionedIff(m.call.value.content); }
  }

  /** An explicit rejection is the error, whatever the call was. */
  lemma RejectionIsKind(m: Message, index: nat, observed: bool, f: Feedback, s: PublicState)
    requires f.rejection.Some?
    ensures JudgeTurn(m, index, observed, f, s).kind == f.rejection && !JudgeTurn(m, index, observed, f, s).accepted
  {
  }

  // ---------- truthful lines ----------

  function Unlined(f: Feedback): Feedback {
    f.(current := Absent, searched := Absent, answered := Absent, visible := Absent)
  }

  /** The transcript without its state lines. */
  function WithoutLines(messages: seq<Message>): (r: seq<Message>)
    ensures |r| == |messages|
  {
    seq(|messages|, i requires 0 <= i < |messages| => messages[i].(feedback := Unlined(messages[i].feedback)))
  }

  lemma WithoutLinesPlain(messages: seq<Message>)
    ensures Plain(WithoutLines(messages))
  {
  }

  /** Every shown line states what s has. */
  predicate StatesTruth(f: Feedback, s: PublicState) {
    (f.current.Shown? ==> f.current.value == s.current) && (f.searched.Shown? ==> f.searched.value == s.searched) &&
    (f.answered.Shown? ==> f.answered.value == s.answered) && (f.visible.Shown? ==> f.visible.value == s.visible)
  }

  /** Every shown line states what the replay without lines has reached after its turn. */
  ghost predicate Truthful(messages: seq<Message>) {
    forall x :: TruthfulAt(messages, x)
  }

  ghost predicate TruthfulAt(messages: seq<Message>, x: int) {
    var plain := Events(WithoutLines(messages));
    0 <= x < |plain| ==> StatesTruth(ObservationOf(messages, plain[x].index), plain[x].after)
  }

  /** A turn that searches an aspect again, accepted without lines, whose observation shows the
      current aspect: with the line the aspect reads as open and searched. */
  predicate ReopensTurn(e: Event, f: Feedback, before: PublicState) {
    e.accepted && e.choice == Some(Search) && e.aspect.Some? && e.aspect.value in before.searched && f.current.Shown?
  }

  ghost predicate ReopensAt(messages: seq<Message>, x: int) {
    var plain := Events(WithoutLines(messages));
    0 <= x < |plain| && ReopensTurn(plain[x], ObservationOf(messages, plain[x].index), StateBefore(plain, x, INITIAL))
  }

  /** The same turn, judged the same, with the same state after it. */
  ghost predicate SameTurn(a: Event, b: Event) {
    a.index == b.index && a.observed == b.observed && a.choice == b.choice && a.content == b.content &&
    a.aspect == b.aspect && a.kind == b.kind && a.answerId == b.answerId && a.accepted == b.accepted &&
    a.after == b.after && a.feedback.ids == b.feedback.ids
  }

  /** One turn with truthful lines is judged as without them, unless it reopens an aspect. */
  lemma TurnSame(m: Message, m': Message, index: nat, observed: bool, f: Feedback, s: PublicState)
    requires m.call == m'.call && (s.current.Some? ==> s.current.value in s.searched)
    requires StatesTruth(f, JudgeTurn(m', index, observed, Unlined(f), s).after)
    ensures var plain, lined := JudgeTurn(m', index, observed, Unlined(f), s), JudgeTurn(m, index, observed, f, s);
      if ReopensTurn(plain, f, s) then lined.kind == Some(RepeatedSearch) && !lined.accepted else SameTurn(lined, plain)
  {
    PlainStep(m', index, observed, Unlined(f), s);
  }

  /** Which messages have events does not depend on the states. */
  lemma {:induction false} SameShape(messages: seq<Message>, index: nat, s: PublicState, s': PublicState)
    ensures |Replay(messages, index, s)| == |Replay(WithoutLines(messages), index, s')|
    ensures forall x | 0 <= x < |Replay(messages, index, s)| ::
      Replay(messages, index, s)[x].index == Replay(WithoutLines(messages), index, s')[x].index
    decreases |messages| - index
  {
    var plain := WithoutLines(messages);
    if index >= |messages| {
    } else if messages[index].role != Assistant {
      SameShape(messages, index + 1, s, s');
    } else {
      assert HasObservation(plain, index) == HasObservation(messages, index);
      SameShape(messages, NextIndex(messages, index), Judge(messages, index, s).after, Judge(plain, index, s').after);
    }
  }

  lemma SearchedWhileOpen(messages: seq<Message>, i: nat)
    requires Plain(messages) && i <= |Events(messages)|
    ensures var s := StateBefore(Events(messages), i, INITIAL); s.current.Some? ==> s.current.value in s.searched
  {
    ReplayTracks(messages, i);
  }

  lemma UnlinedObservation(messages: seq<Message>, index: nat)
    ensures HasObservation(WithoutLines(messages), index) == HasObservation(messages, index)
    ensures ObservationOf(WithoutLines(messages), index) == Unlined(ObservationOf(messages, index))
  {
  }

  /** Event x with lines against event x without, when the states before them are the same. */
  lemma EventSame(messages: seq<Message>, x: nat)
    requires TruthfulAt(messages, x) && x < |Events(WithoutLines(messages))|
    requires |Events(messages)| == |Events(WithoutLines(messages))|
    requires StateBefore(Events(messages), x, INITIAL) == StateBefore(Events(WithoutLines(messages)), x, INITIAL)
    ensures var plain, lined := Events(WithoutLines(messages))[x], Events(messages)[x];
      if ReopensAt(messages, x) then lined.kind == Some(RepeatedSearch) && !lined.accepted && plain.accepted
      else SameTurn(lined, plain)
  {
    var bare := WithoutLines(messages);
    var s := StateBefore(Events(bare), x, INITIAL);
    SameShape(messages, 0, INITIAL, INITIAL);
    var index := Events(messages)[x].index;
    EventLinked(messages, x);
    EventLinked(bare, x);
    WithoutLinesPlain(messages);
    SearchedWhileOpen(bare, x);
    UnlinedObservation(messages, index);
    TurnSame(messages[index], bare[index], index, HasObservation(messages, index), ObservationOf(messages, index), s);
  }

  lemma {:induction false} SameUpTo(messages: seq<Message>, n: nat)
    requires Truthful(messages) && n <= |Events(WithoutLines(messages))|
    requires forall x | 0 <= x < n :: !ReopensAt(messages, x)
    ensures |Events(messages)| == |Events(WithoutLines(messages))|
    ensures forall x | 0 <= x < n :: SameTurn(Events(messages)[x], Events(WithoutLines(messages))[x])
  {
    SameShape(messages, 0, INITIAL, INITIAL);
    if n == 0 {
    } else {
      SameUpTo(messages, n - 1);
      assert TruthfulAt(messages, n - 1);
      EventSame(messages, n - 1);
    }
  }

  ghost predicate SameReplay(messages: seq<Message>) {
    |Events(messages)| == |Events(WithoutLines(messages))| &&
    forall x | 0 <= x < |Events(messages)| :: SameTurn(Events(messages)[x], Events(WithoutLines(messages))[x])
  }

  lemma {:induction false} FirstReopen(messages: seq<Message>, n: nat) returns (x: int)
    ensures -1 <= x < n && (x >= 0 ==> ReopensAt(messages, x))
    ensures forall y | 0 <= y < (if x >= 0 then x else n) :: !ReopensAt(messages, y)
  {
    if n == 0 {
      x := -1;
    } else {
      x := FirstReopen(messages, n - 1);
      if x == -1 && ReopensAt(messages, n - 1) { x := n - 1; }
    }
  }

  /** With truthful lines the replay gives the same accepted turns, errors and states as without any,
      if and only if no accepted search of an already searched aspect shows the current aspect. */
  lemma TruthfulSameIff(messages: seq<Message>)
    requires Truthful(messages)
    ensures SameReplay(messages) <==> forall x :: !ReopensAt(messages, x)
  {
    var n := |Events(WithoutLines(messages))|;
    var x := FirstReopen(messages, n);
    if x == -1 {
      SameUpTo(messages, n);
      forall y ensures !ReopensAt(messages, y) { assert 0 <= y < n ==> !ReopensAt(messages, y); }
    } else {
      SameUpTo(messages, x);
      assert TruthfulAt(messages, x);
      EventSame(messages, x);
      assert !SameTurn(Events(messages)[x], Events(WithoutLines(messages))[x]);
    }
  }

  /** So the protocol of transcripts without lines holds with truthful ones too. */
  lemma LinedAnswerHasOneSearch(messages: seq<Message>, i: nat, last: int)
    requires Truthful(messages) && forall x :: !ReopensAt(messages, x)
    requires i < |Events(messages)| && Closes(Events(messages)[i]) && -1 <= last < i
    requires last >= 0 ==> Closes(Events(messages)[last])
    requires forall x | last < x < i :: !Closes(Events(messages)[x])
    ensures var events := Events(messages);
      exists j :: last < j < i && Opens(events[j]) && events[j].aspect == events[i].aspect &&
        events[i].answerId.Some? && events[i].answerId.value in events[j].feedback.ids &&
        forall x | last < x < i && Opens(events[x]) :: x == j
  {
    var events, plain := Events(messages), Events(WithoutLines(messages));
    TruthfulSameIff(messages);
    WithoutLinesPlain(messages);
    forall x | 0 <= x < |events| ensures Opens(events[x]) == Opens(plain[x]) && Closes(events[x]) == Closes(plain[x]) {
      assert SameTurn(events[x], plain[x]);
    }
    AnswerHasOneSearch(WithoutLines(messages), i, last);
    var j :| last < j < i && Opens(plain[j]) && plain[j].aspect == plain[i].aspect && plain[i].answerId.Some? &&
      plain[i].answerId.value in plain[j].feedback.ids && forall x | last < x < i && Opens(plain[x]) :: x == j;
    assert SameTurn(events[j], plain[j]) && SameTurn(events[i], plain[i]);
  }

  lemma LinedAnswersAreDistinct(messages: seq<Message>, i: nat, j: nat)
    requires Truthful(messages) && forall x :: !ReopensAt(messages, x)
    requires i < j < |Events(messages)| && Closes(Events(messages)[i]) && Closes(Events(messages)[j])
    ensures Events(messages)[i].aspect.Some? && Events(messages)[i].aspect != Events(messages)[j].aspect
  {
    TruthfulSameIff(messages);
    WithoutLinesPlain(messages);
    var events, plain := Events(messages), Events(WithoutLines(messages));
    assert SameTurn(events[i], plain[i]) && SameTurn(events[j], plain[j]);
    AnswersAreDistinct(WithoutLines(messages), i, j);
  }

  lemma LinedNoSearchWhileOpen(messages: seq<Message>, i: nat, j: nat)
    requires Truthful(messages) && forall x :: !ReopensAt(messages, x)
    requires j < i < |Events(messages)|
    requires Events(messages)[i].accepted && Events(messages)[i].choice == Some(Search) && Opens(Events(messages)[j])
    ensures ClosedBetween(Events(messages), j, i)
  {
    TruthfulSameIff(messages);
    WithoutLinesPlain(messages);
    var events, plain := Events(messages), Events(WithoutLines(messages));
    assert SameTurn(events[i], plain[i]) && SameTurn(events[j], plain[j]);
    NoSearchWhileOpen(WithoutLines(messages), i, j);
    var y :| j < y < i <= |plain| && Closes(plain[y]);
    assert SameTurn(events[y], plain[y]);
  }

  // ---------- a reopened aspect ----------

  const HINTED := Content(true, false, ["flight"], [], false, true)
  const FIRST_ID := OptionId(F, "1")
  const ANSWERED := Content(true, false, [], [FIRST_ID], true, false)

  function Call(choice: Choice, content: Content): Message {
    Message(Assistant, Some(Arguments(Some(choice), content)), true, true, SILENCE)
  }

  function Observed(f: Feedback): Message {
    Message(Tool, None, false, false, f)
  }

  /** A flight is searched, answered, and searched again, and the last observation shows it as the
      current aspect. */
  const REOPENED := [
    Call(Search, HINTED), Observed(SILENCE.(ids := [FIRST_ID])),
    Call(Answer, ANSWERED), Observed(SILENCE),
    Call(Search, HINTED), Observed(SILENCE.(ids := [FIRST_ID], current := Shown(Some("flight"))))]

  /** Its line is truthful, and makes the accepted search a repeated one. */
  lemma LineReopens()
    ensures Truthful(REOPENED) && ReopensAt(REOPENED, 2)
    ensures !SameReplay(REOPENED)
  {
    var plain := WithoutLines(REOPENED);
    assert Mentioned(HINTED) == {"flight"} && Mentioned(ANSWERED) == {"flight"};
    var first := Judge(plain, 0, INITIAL);
    var second := Judge(plain, 2, first.after);
    var third := Judge(plain, 4, second.after);
    assert first.after == PublicState(Some("flight"), {"flight"}, {}, {FIRST_ID});
    assert second.after == PublicState(None, {"flight"}, {"flight"}, {FIRST_ID});
    assert third.after == PublicState(Some("flight"), {"flight"}, {"flight"}, {FIRST_ID});
    assert Replay(plain, 6, third.after) == [];
    assert Replay(plain, 4, second.after) == [third];
    assert Replay(plain, 2, first.after) == [second, third];
    assert Events(plain) == [first, second, third];
    forall x ensures TruthfulAt(REOPENED, x) {
      if 0 <= x < 3 { assert x == 0 || x == 1 || x == 2; }
    }
    assert ReopensAt(REOPENED, 2);
    TruthfulSameIff(REOPENED);
  }
}
