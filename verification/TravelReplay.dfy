/** Replaying a public TravelGym transcript (clean_travel_trajectories.py): every assistant
    turn becomes an event, judged against the state that the observations before it show. */
module TravelReplay {

  import opened Common

  type Aspect = string

  /** Option ids such as F12: the letter fixes the aspect. */
  datatype Letter = A | C | F | H | R
  datatype OptionId = OptionId(letter: Letter, digits: string)

  function AspectOf(letter: Letter): Aspect {
    match letter
    case F => "flight"
    case H => "hotel"
    case A => "apartment"
    case C => "rental_car"
    case R => "restaurant"
  }

  datatype Choice = Search | Action | Answer | OtherChoice(name: string)

  /** A call's content as the text helpers see it: whether it is a non-blank string, the aspects
      its words hint at, the option ids in it, whether it is exactly one id, and whether it has
      at least twelve characters. */
  datatype Content = Content(isText: bool, blank: bool, hints: seq<Aspect>, ids: seq<OptionId>, exact: bool, long: bool)

  datatype Arguments = Arguments(choice: Option<Choice>, content: Content)

  datatype Kind =
    | ActionBeforeSearch | AnswerBeforeSearch | CrossAspect | RepeatedSearch
    | InvalidParameters | InvisibleId | DuplicateAnswer | VagueAction
    | EnvironmentFailure | ObservationMisaligned | UnrepairedError | WrongTerminalAnswer
    | ThinkMissing | CanonicalFault(code: string)

  predicate Recoverable(kind: Kind) {
    kind in {ActionBeforeSearch, AnswerBeforeSearch, CrossAspect, RepeatedSearch,
             InvalidParameters, InvisibleId, DuplicateAnswer, VagueAction}
  }

  /** A state line of an observation: absent, or shown with its value. */
  datatype Line<T> = Absent | Shown(value: T)

  /** An observation as parsed: its rejection kind, the bare "operation failed" marker, its
      public state lines and the option ids in it. */
  datatype Feedback = Feedback(
    rejection: Option<Kind>, operationFailed: bool,
    current: Line<Option<Aspect>>, searched: Line<set<Aspect>>, answered: Line<set<Aspect>>,
    visible: Line<set<OptionId>>, ids: seq<OptionId>)

  const SILENCE := Feedback(None, false, Absent, Absent, Absent, Absent, [])

  predicate IsRejected(f: Feedback) { f.operationFailed || f.rejection.Some? }

  datatype Role = System | User | Assistant | Tool

  datatype Message = Message(role: Role, call: Option<Arguments>, hasToolCalls: bool, hasReasoning: bool,
                             feedback: Feedback)

  /** What the public transcript has established so far. */
  datatype PublicState = PublicState(current: Option<Aspect>, searched: set<Aspect>, answered: set<Aspect>,
                                     visible: set<OptionId>)

  const INITIAL := PublicState(None, {}, {}, {})

  datatype Event = Event(
    index: nat, observed: bool, choice: Option<Choice>, content: Content, aspect: Option<Aspect>,
    feedback: Feedback, kind: Option<Kind>, currentBefore: Option<Aspect>,
    answerId: Option<OptionId>, accepted: bool, after: PublicState)

  // ---------- the text helpers ----------

  const NO_CONTENT := Content(false, true, [], [], false, false)

  function ChoiceOf(m: Message): Option<Choice> {
    if m.call.Some? then m.call.value.choice else None
  }

  function ContentOf(m: Message): Content {
    if m.call.Some? then m.call.value.content else NO_CONTENT
  }

  /** `_aspect_from_text`. */
  function AspectFromText(content: Content, choice: Option<Choice>): Option<Aspect> {
    if choice == Some(Answer) && |content.ids| == 1 then Some(AspectOf(content.ids[0].letter))
    else if |content.hints| == 1 then Some(content.hints[0])
    else None
  }

  /** `_mentioned_aspects`, as a set. */
  function Mentioned(content: Content): set<Aspect> {
    (set a | a in content.hints) + (set id | id in content.ids :: AspectOf(id.letter))
  }

  function ExactId(content: Content): Option<OptionId> {
    if |content.ids| == 1 && content.exact then Some(content.ids[0]) else None
  }

  function ArgumentError(choice: Option<Choice>, content: Content): Option<Kind> {
    if choice == None || choice.value.OtherChoice? then Some(InvalidParameters)
    else if !content.isText || content.blank then Some(InvalidParameters)
    else if |Mentioned(content)| > 1 then Some(CrossAspect)
    else None
  }

  /** `_infer_protocol_error`. */
  function ProtocolError(choice: Option<Choice>, content: Content, aspect: Option<Aspect>,
                         current: Option<Aspect>, before: PublicState): Option<Kind> {
    if choice == None then None
    else if current.Some? && aspect.Some? && aspect != current then Some(CrossAspect)
    else match choice.value
      case Search =>
        if current.Some? && current.value in before.searched then Some(RepeatedSearch) else None
      case Action =>
        if current == None || current.value !in before.searched then Some(ActionBeforeSearch) else None
      case Answer =>
        if current == None || current.value !in before.searched then Some(AnswerBeforeSearch)
        else if ExactId(content) == None then Some(InvalidParameters)
        else if ExactId(content).value !in before.visible then Some(InvisibleId)
        else if current.value in before.answered then Some(DuplicateAnswer)
        else None
      case OtherChoice(_) => None
  }

  // ---------- one turn ----------

  function PublicCurrent(f: Feedback): Option<Aspect> {
    if f.current.Shown? then f.current.value else None
  }

  /** The state an observation shows, line by line, over the state before. */
  function Shows(f: Feedback, s: PublicState): PublicState {
    PublicState(
      if f.current.Shown? then f.current.value else s.current,
      if f.searched.Shown? then f.searched.value else s.searched,
      if f.answered.Shown? then f.answered.value else s.answered,
      if f.visible.Shown? then f.visible.value else s.visible)
  }

  function IdSet(ids: seq<OptionId>): set<OptionId> { set id | id in ids }

  /** What an accepted call adds: a search opens its aspect and shows its options, an answer
      closes its aspect. */
  function Settle(choice: Option<Choice>, aspect: Option<Aspect>, answerId: Option<OptionId>, f: Feedback,
                  s: PublicState): PublicState {
    if choice == Some(Search) && aspect.Some? then
      s.(current := aspect, searched := s.searched + {aspect.value},
         visible := if f.ids != [] then IdSet(f.ids) else s.visible)
    else if choice == Some(Answer) && aspect.Some? && answerId.Some? then
      s.(answered := s.answered + {aspect.value}, current := None)
    else s
  }

  predicate HasObservation(messages: seq<Message>, index: nat) {
    index + 1 < |messages| && messages[index + 1].role == Tool
  }

  function ObservationOf(messages: seq<Message>, index: nat): Feedback {
    if HasObservation(messages, index) then messages[index + 1].feedback else SILENCE
  }

  /** The event of the assistant turn at `index`, given the state before it. */
  function Judge(messages: seq<Message>, index: nat, before: PublicState): Event
    requires index < |messages|
  {
    JudgeTurn(messages[index], index, HasObservation(messages, index), ObservationOf(messages, index), before)
  }

  function JudgeTurn(m: Message, index: nat, observed: bool, f: Feedback, before: PublicState): Event {
    var choice, content := ChoiceOf(m), ContentOf(m);
    var aspect := if AspectFromText(content, choice).Some? then AspectFromText(content, choice) else before.current;
    var currentBefore := if before.current.Some? then before.current else PublicCurrent(f);
    var kind0 :=
      if f.rejection.Some? then f.rejection
      else if ArgumentError(choice, content).Some? then ArgumentError(choice, content)
      else ProtocolError(choice, content, aspect, currentBefore, before);
    var passed := m.call.Some? && observed && !IsRejected(f) && kind0 == None;
    var empty := passed && choice == Some(Search) && f.ids == [];
    var accepted := passed && !empty;
    var answerId := if choice == Some(Answer) then ExactId(content) else None;
    var shown := Shows(f, before);
    Event(index, observed, choice, content, aspect, f, if empty then Some(EnvironmentFailure) else kind0,
          currentBefore, answerId, accepted,
          if accepted then Settle(choice, aspect, answerId, f, shown) else shown)
  }

  // ---------- the whole transcript ----------

  function NextIndex(messages: seq<Message>, index: nat): nat {
    if HasObservation(messages, index) then index + 2 else index + 1
  }

  /** The events from position `index` on. */
  function Replay(messages: seq<Message>, index: nat, before: PublicState): seq<Event>
    decreases |messages| - index
  {
    if index >= |messages| then []
    else if messages[index].role != Assistant then Replay(messages, index + 1, before)
    else [Judge(messages, index, before)] +
         Replay(messages, NextIndex(messages, index), Judge(messages, index, before).after)
  }

  function Events(messages: seq<Message>): seq<Event> { Replay(messages, 0, INITIAL) }

  /** `_make_events`: the reducer's loop. */
  method MakeEvents(messages: seq<Message>) returns (events: seq<Event>)
    ensures events == Events(messages)
  {
    events := [];
    var state, index := INITIAL, 0;
    while index < |messages|
      invariant events + Replay(messages, index, state) == Events(messages)
      decreases |messages| - index
    {
      if messages[index].role != Assistant {
        index := index + 1;
      } else {
        var event := Judge(messages, index, state);
        assert [event] + Replay(messages, NextIndex(messages, index), event.after) == Replay(messages, index, state);
        assert events + ([event] + Replay(messages, NextIndex(messages, index), event.after))
            == (events + [event]) + Replay(messages, NextIndex(messages, index), event.after);
        events := events + [event];
        state, index := event.after, NextIndex(messages, index);
      }
    }
  }
}
