/** What a replay guarantees: it is causal, and without explicit state lines its accepted turns
    follow the search-then-answer protocol aspect by aspect. */
module TravelProtocol {
  import opened Common
  import opened TravelReplay

  // ---------- events follow one another ----------

  function StateBefore(events: seq<Event>, i: nat, start: PublicState): PublicState
    requires i <= |events|
  {
    if i == 0 then start else events[i - 1].after
  }

  /** Event i is the judgement of its assistant turn in the state its predecessor left. */
  ghost predicate Linked(messages: seq<Message>, events: seq<Event>, start: PublicState, i: nat) {
    i < |events| ==>
      events[i].index < |messages| && messages[events[i].index].role == Assistant &&
      events[i] == Judge(messages, events[i].index, StateBefore(events, i, start)) &&
      forall j | i < j < |events| ::
        events[i].index < events[j].index && (events[i].observed ==> events[i].index + 1 < events[j].index)
  }

  lemma {:induction false} ReplayLinked(messages: seq<Message>, index: nat, start: PublicState, i: nat)
    ensures Linked(messages, Replay(messages, index, start), start, i)
    ensures forall j | 0 <= j < |Replay(messages, index, start)| :: index <= Replay(messages, index, start)[j].index
    decreases |messages| - index, i
  {
    if index >= |messages| {
    } else {
      if messages[index].role != Assistant {
        ReplayLinked(messages, index + 1, start, i);
      } else {
        var next, after := NextIndex(messages, index), Judge(messages, index, start).after;
        ReplayLinked(messages, next, after, if i == 0 then 0 else i - 1);
        assert Replay(messages, index, start)[1..] == Replay(messages, next, after);
      }
    }
  }

  lemma EventLinked(messages: seq<Message>, i: nat)
    ensures Linked(messages, Events(messages), INITIAL, i)
  {
    ReplayLinked(messages, 0, INITIAL, i);
  }

  /** Every assistant turn that is not itself inside another turn's exchange has its event. */
  lemma {:induction false} AssistantHasEvent(messages: seq<Message>, index: nat, start: PublicState, at: nat)
    requires index <= at < |messages| && messages[at].role == Assistant
    ensures exists i :: 0 <= i < |Replay(messages, index, start)| && Replay(messages, index, start)[i].index == at
    decreases |messages| - index
  {
    var events := Replay(messages, index, start);
    if messages[index].role != Assistant {
      AssistantHasEvent(messages, index + 1, start, at);
    } else if at == index {
      assert events[0].index == at;
    } else {
      var next, after := NextIndex(messages, index), Judge(messages, index, start).after;
      AssistantHasEvent(messages, next, after, at);
      var i :| 0 <= i < |Replay(messages, next, after)| && Replay(messages, next, after)[i].index == at;
      assert events[i + 1] == Replay(messages, next, after)[i];
    }
  }

  // ---------- causality ----------

  /** A cut that does not separate an assistant turn from its observation. */
  predicate SafeCut(messages: seq<Message>, n: nat) {
    n <= |messages| && (0 < n < |messages| ==> messages[n].role != Tool)
  }

  /** The events of the turns before position n. */
  function Upto(events: seq<Event>, n: nat): seq<Event> {
    if events == [] || events[0].index >= n then [] else [events[0]] + Upto(events[1..], n)
  }

  /** Replaying a safely cut prefix yields exactly the prefix of the events. */
  lemma {:induction false} ReplayCausal(messages: seq<Message>, n: nat, index: nat, start: PublicState)
    requires SafeCut(messages, n)
    ensures Replay(messages[..n], index, start) == Upto(Replay(messages, index, start), n)
    decreases |messages| - index
  {
    if index >= n {
      ReplayLinked(messages, index, start, 0);
    } else {
      assert messages[..n][index] == messages[index];
      if messages[index].role != Assistant {
        ReplayCausal(messages, n, index + 1, start);
      } else {
        assert HasObservation(messages[..n], index) == HasObservation(messages, index);
        ReplayCausal(messages, n, NextIndex(messages, index), Judge(messages, index, start).after);
      }
    }
  }

  lemma EventsCausal(messages: seq<Message>, n: nat)
    requires SafeCut(messages, n)
    ensures Events(messages[..n]) == Upto(Events(messages), n)
  {
    ReplayCausal(messages, n, 0, INITIAL);
  }

  // ---------- which calls are accepted ----------

  /** The public protocol, stated for calls that are allowed: a call is observed and not refused,
      well formed and about one aspect, not about another aspect than the open one, and: a search
      does not repeat and returns options; an action follows the search of its aspect; an answer
      names one visible option of a searched, not yet answered aspect. */
  predicate Allowed(m: Message, observed: bool, f: Feedback, s: PublicState) {
    m.call.Some? && observed && !f.operationFailed && f.rejection == None &&
    var content := m.call.value.content;
    var current := if s.current.Some? then s.current else PublicCurrent(f);
    var named := AspectFromText(content, m.call.value.choice);
    content.isText && !content.blank && |Mentioned(content)| <= 1 &&
    (current.Some? && named.Some? ==> named == current) &&
    match m.call.value.choice
    case Some(Search) => (current.Some? ==> current.value !in s.searched) && f.ids != []
    case Some(Action) => current.Some? && current.value in s.searched
    case Some(Answer) =>
      current.Some? && current.value in s.searched && current.value !in s.answered &&
      exists id | id in s.visible :: content.exact && content.ids == [id]
    case _ => false
  }

  lemma AcceptedIffAllowed(m: Message, index: nat, observed: bool, f: Feedback, s: PublicState)
    ensures JudgeTurn(m, index, observed, f, s).accepted <==> Allowed(m, observed, f, s)
  {
    var content := ContentOf(m);
    if m.call.Some? && content.exact && |content.ids| == 1 {
      assert content.ids == [content.ids[0]];
    }
  }

  // ---------- the protocol without state lines ----------

  predicate PlainFeedback(f: Feedback) {
    f.current.Absent? && f.searched.Absent? && f.answered.Absent? && f.visible.Absent?
  }

  ghost predicate Plain(messages: seq<Message>) {
    forall i | 0 <= i < |messages| :: PlainFeedback(messages[i].feedback)
  }

  predicate Opens(e: Event) { e.accepted && e.choice == Some(Search) && e.aspect.Some? }
  predicate Closes(e: Event) { e.accepted && e.choice == Some(Answer) }

  /** One plain turn: only an opening search or a closing answer changes the state, and each is
      accepted only in the right state. */
  lemma PlainStep(m: Message, index: nat, observed: bool, f: Feedback, s: PublicState)
    requires PlainFeedback(f) && (s.current.Some? ==> s.current.value in s.searched)
    ensures var e := JudgeTurn(m, index, observed, f, s);
      (e.accepted && e.choice == Some(Search) ==> s.current == None && f.ids != []) &&
      (Closes(e) ==> (e.aspect.Some? && e.answerId.Some? && s.current == e.aspect &&
                      e.answerId.value in s.visible && e.aspect.value !in s.answered))
    ensures var e := JudgeTurn(m, index, observed, f, s);
      e.after == if Opens(e) then PublicState(e.aspect, s.searched + {e.aspect.value}, s.answered, IdSet(f.ids))
                 else if Closes(e) then s.(current := None, answered := s.answered + {e.aspect.value})
                 else s
  {
  }

  /** Search j opened an aspect that no turn before i has answered, and between the answer
      before j and i it is the only opening search. */
  ghost predicate OpenedBy(events: seq<Event>, i: nat, j: nat) {
    j < i <= |events| && Opens(events[j]) &&
    (forall x | j < x < i :: !Opens(events[x]) && !Closes(events[x])) &&
    AllClosed(events, j)
  }

  ghost predicate ClosedBetween(events: seq<Event>, x: nat, i: nat) {
    exists y :: x < y < i <= |events| && Closes(events[y])
  }

  /** Every aspect opened before i was answered before i. */
  ghost predicate AllClosed(events: seq<Event>, i: nat) {
    i <= |events| && forall x | 0 <= x < i && Opens(events[x]) :: ClosedBetween(events, x, i)
  }

  ghost predicate AnsweredBefore(events: seq<Event>, i: nat, a: Aspect) {
    exists y :: 0 <= y < i <= |events| && Closes(events[y]) && events[y].aspect == Some(a)
  }

  ghost predicate OpenIn(events: seq<Event>, i: nat, j: int, s: PublicState) {
    j >= 0 && OpenedBy(events, i, j) && s.current == events[j].aspect && s.visible == IdSet(events[j].feedback.ids)
  }

  ghost predicate Tracks(events: seq<Event>, i: nat, s: PublicState) {
    (s.current == None ==> AllClosed(events, i)) &&
    (s.current.Some? ==> s.current.value in s.searched && exists j :: OpenIn(events, i, j, s)) &&
    forall a :: a in s.answered <==> AnsweredBefore(events, i, a)
  }

  lemma PlainJudged(messages: seq<Message>, i: nat)
    requires Plain(messages) && i < |Events(messages)|
    ensures var events := Events(messages);
      events[i].index < |messages| &&
      PlainFeedback(ObservationOf(messages, events[i].index)) &&
        events[i].feedback == ObservationOf(messages, events[i].index) &&
      events[i] == JudgeTurn(messages[events[i].index], events[i].index, HasObservation(messages, events[i].index),
        ObservationOf(messages, events[i].index), StateBefore(events, i, INITIAL))
  {
    EventLinked(messages, i);
  }

  lemma TracksNext(events: seq<Event>, i: nat, s: PublicState)
    requires i < |events| && Tracks(events, i, s)
    requires events[i].accepted && events[i].choice == Some(Search) ==> s.current == None
    requires Closes(events[i]) ==> events[i].aspect.Some? && s.current == events[i].aspect
    requires var e := events[i];
      e.after == if Opens(e)
        then PublicState(e.aspect, s.searched + {e.aspect.value}, s.answered, IdSet(e.feedback.ids))
                 else if Closes(e) then s.(current := None, answered := s.answered + {e.aspect.value})
                 else s
    ensures Tracks(events, i + 1, events[i].after)
  {
    var e := events[i];
    forall a ensures a in e.after.answered <==> AnsweredBefore(events, i + 1, a) {
      assert a in s.answered <==> AnsweredBefore(events, i, a);
    }
    if Opens(e) {
      assert OpenIn(events, i + 1, i, e.after);
    } else if Closes(e) {
      var j :| OpenIn(events, i, j, s);
      forall x | 0 <= x < i + 1 && Opens(events[x]) ensures ClosedBetween(events, x, i + 1) {
        assert Closes(events[i]);
      }
    } else if s.current == None {
      forall x | 0 <= x < i + 1 && Opens(events[x]) ensures ClosedBetween(events, x, i + 1) {
        assert ClosedBetween(events, x, i);
      }
    } else {
      var j :| OpenIn(events, i, j, s);
      assert OpenIn(events, i + 1, j, e.after);
    }
  }

  lemma {:induction false} ReplayTracks(messages: seq<Message>, i: nat)
    requires Plain(messages) && i <= |Events(messages)|
    ensures Tracks(Events(messages), i, StateBefore(Events(messages), i, INITIAL))
  {
    if i == 0 {
    } else {
      ReplayTracks(messages, i - 1);
      var events := Events(messages);
      var s, e := StateBefore(events, i - 1, INITIAL), events[i - 1];
      PlainJudged(messages, i - 1);
      PlainStep(messages[e.index], e.index, HasObservation(messages, e.index), ObservationOf(messages, e.index), s);
      TracksNext(events, i - 1, s);
    }
  }

  /** No search is accepted while an aspect is open. */
  lemma NoSearchWhileOpen(messages: seq<Message>, i: nat, j: nat)
    requires Plain(messages) && j < i < |Events(messages)|
    requires Events(messages)[i].accepted && Events(messages)[i].choice == Some(Search) && Opens(Events(messages)[j])
    ensures ClosedBetween(Events(messages), j, i)
  {
    ReplayTracks(messages, i);
    var events := Events(messages);
    var s, e := StateBefore(events, i, INITIAL), events[i];
    PlainJudged(messages, i);
    PlainStep(messages[e.index], e.index, HasObservation(messages, e.index), ObservationOf(messages, e.index), s);
  }

  /** Since the accepted answer before it (position `last`, or -1), an accepted answer has
      exactly one accepted aspect-setting search; it is for the same aspect and its observation
      listed the answered id. */
  lemma AnswerHasOneSearch(messages: seq<Message>, i: nat, last: int)
    requires Plain(messages) && i < |Events(messages)| && Closes(Events(messages)[i]) && -1 <= last < i
    requires last >= 0 ==> Closes(Events(messages)[last])
    requires forall x | last < x < i :: !Closes(Events(messages)[x])
    ensures var events := Events(messages);
      exists j :: last < j < i && Opens(events[j]) && events[j].aspect == events[i].aspect &&
        events[i].answerId.Some? && events[i].answerId.value in events[j].feedback.ids &&
        forall x | last < x < i && Opens(events[x]) :: x == j
  {
    ReplayTracks(messages, i);
    var events := Events(messages);
    var s, e := StateBefore(events, i, INITIAL), events[i];
    PlainJudged(messages, i);
    PlainStep(messages[e.index], e.index, HasObservation(messages, e.index), ObservationOf(messages, e.index), s);
    var j :| OpenIn(events, i, j, s);
    assert last < j;
    assert AllClosed(events, j);
  }

  /** Accepted answers are for distinct aspects. */
  lemma AnswersAreDistinct(messages: seq<Message>, i: nat, j: nat)
    requires Plain(messages) && i < j < |Events(messages)|
    requires Closes(Events(messages)[i]) && Closes(Events(messages)[j])
    ensures Events(messages)[i].aspect.Some? && Events(messages)[i].aspect != Events(messages)[j].aspect
  {
    var events := Events(messages);
    ReplayTracks(messages, i);
    PlainJudged(messages, i);
    PlainStep(messages[events[i].index], events[i].index, HasObservation(messages, events[i].index),
      ObservationOf(messages, events[i].index), StateBefore(events, i, INITIAL));
    ReplayTracks(messages, j);
    PlainJudged(messages, j);
    PlainStep(messages[events[j].index], events[j].index, HasObservation(messages, events[j].index),
      ObservationOf(messages, events[j].index), StateBefore(events, j, INITIAL));
    assert AnsweredBefore(events, j, events[i].aspect.value);
  }
}
