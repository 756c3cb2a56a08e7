/**
 The turn driver (`generate_bot_responses`): one user message in, the bot's
 replies out, with the session advanced and saved only when the answer was
 recorded.
 */
module Driver {
  import opened Quiz
  import opened Recorder
  import opened Sequencer
  import opened Summary
  import PyText

  /** One bot reply: a plain text, or the final report. */
  datatype Reply = Message(text: string) | Report(report: FinalReport)

  /**
   What a turn produces: the replies in order, the session as it is left,
   and whether `session.save()` was called (at most once per turn).
   */
  datatype Turn = Turn(replies: seq<Reply>, session: Session, saved: bool)

  /** Python's `not current_question_id`: true for a missing id and for id 0. */
  predicate Falsy(id: Option<int>)
  {
    id.None? || id.value == 0
  }

  /** The id a sequencer answer stores as the new current question (`None` at the end). */
  function NextId(n: Next): (id: Option<int>)
  {
    if n.Ask? then Some(n.id) else None
  }

  /**
   One turn. A rejected answer yields exactly the error text (a welcome
   queued before the recorder ran is dropped) and leaves the session
   unsaved. An accepted answer yields the welcome when the current id is
   falsy, followed by the next question's text, or by the final report when
   there is no next question or its text is empty; the returned id becomes
   the current one and the session is saved.
   */
  function GenerateBotResponses(qs: seq<Question>, welcome: string, message: string, s: Session): (r: Turn)
    ensures r.saved <==> s.currentQuestionId.Some? && s.currentQuestionId.value in IdSet(qs) && !PyText.AllWhitespace(message)
    ensures !r.saved ==> r.session == s && |r.replies| == 1
    ensures s.currentQuestionId.None? ==> r.replies == [Message(ErrorText(NoCurrentQuestion))]
    ensures s.currentQuestionId.Some? && s.currentQuestionId.value !in IdSet(qs) ==> r.replies == [Message(ErrorText(InvalidQuestionId))]
    ensures s.currentQuestionId.Some? && s.currentQuestionId.value in IdSet(qs) && PyText.AllWhitespace(message) ==>
              r.replies == [Message(ErrorText(EmptyAnswer))]
    ensures r.saved ==>
      && |r.replies| == (if s.currentQuestionId == Some(0) then 2 else 1)
      && (s.currentQuestionId == Some(0) ==> r.replies[0] == Message(welcome))
      && r.session.quizAnswers == RecordCurrentAnswer(qs, message, s.currentQuestionId, s).session.quizAnswers
  {
    var id := s.currentQuestionId;
    var greeting := if Falsy(id) then [Message(welcome)] else [];
    var recording := RecordCurrentAnswer(qs, message, id, s);
    if recording.status.Rejected? then
      Turn([Message(ErrorText(recording.status.error))], s, false)
    else
      var next := GetNextQuestion(qs, id);
      var reply :=
        if next.Ask? && next.text != "" then Message(next.text)
        else Report(GenerateFinalResponse(qs, recording.session));
      Turn(greeting + [reply], recording.session.(currentQuestionId := NextId(next)), true)
  }

  /**
   An accepted answer to the question first found at position `i` moves on
   to the question at `i + 1` and asks it, or shows the final report when
   its text is empty; after the last question there is no current question
   and the final report is shown.
   */
  lemma AcceptedTurn(qs: seq<Question>, welcome: string, message: string, s: Session, i: int)
    requires s.currentQuestionId.Some? && FirstAt(qs, s.currentQuestionId.value, i)
    requires !PyText.AllWhitespace(message)
    ensures var r := GenerateBotResponses(qs, welcome, message, s);
      var last := r.replies[|r.replies| - 1];
      && r.saved
      && r.session.quizAnswers.Some? && s.currentQuestionId.value in r.session.quizAnswers.value
      && if i < |qs| - 1 then
        && r.session.currentQuestionId == Some(qs[i + 1].id)
        && last == (if qs[i + 1].question != "" then Message(qs[i + 1].question)
                    else Report(GenerateFinalResponse(qs, r.session)))
      else
        && r.session.currentQuestionId.None?
        && last == Report(GenerateFinalResponse(qs, r.session))
  {
  }

  /**
   A current id that no question carries is refused on every turn: the
   recorder rejects it before the sequencer could restart the quiz, so the
   session stays on that id.
   */
  lemma UnknownIdRefused(qs: seq<Question>, welcome: string, message: string, s: Session)
    requires s.currentQuestionId.Some? && s.currentQuestionId.value !in IdSet(qs)
    ensures GenerateBotResponses(qs, welcome, message, s) == Turn([Message(ErrorText(InvalidQuestionId))], s, false)
  {
  }

  /** A turn keeps every answer key a question id of the list. */
  lemma TurnKeepsKeysValid(qs: seq<Question>, welcome: string, message: string, s: Session)
    requires AnswersKeyed(qs, s)
    ensures AnswersKeyed(qs, GenerateBotResponses(qs, welcome, message, s).session)
  {
    RecordKeepsKeysValid(qs, message, s.currentQuestionId, s);
  }

  /** The replies of every turn and the session after the last one, for a run of messages. */
  datatype Conversation = Conversation(turns: seq<seq<Reply>>, session: Session)

  /** Feeds the messages one by one, each turn starting from the session the previous one left. */
  function Converse(qs: seq<Question>, welcome: string, messages: seq<string>, s: Session): (c: Conversation)
    ensures |c.turns| == |messages|
    decreases |messages|
  {
    if |messages| == 0 then Conversation([], s)
    else
      var t := GenerateBotResponses(qs, welcome, messages[0], s);
      var rest := Converse(qs, welcome, messages[1..], t.session);
      Conversation([t.replies] + rest.turns, rest.session)
  }

  /**
   Without a current question the quiz never starts: whatever the user
   sends, every turn answers only "No current question available" and the
   session stays as it was.
   */
  lemma {:induction false} StuckWithoutCurrentQuestion(qs: seq<Question>, welcome: string, messages: seq<string>, s: Session)
    requires s.currentQuestionId.None?
    ensures Converse(qs, welcome, messages, s).session == s
    ensures forall k :: 0 <= k < |messages| ==>
              Converse(qs, welcome, messages, s).turns[k] == [Message(ErrorText(NoCurrentQuestion))]
    decreases |messages|
  {
    if |messages| > 0 {
      StuckWithoutCurrentQuestion(qs, welcome, messages[1..], s);
    }
  }

  /**
   An accepted answer to the question at position `i` records it and moves
   on to the next position, or to no current question after the last one.
   */
  lemma AnswerStep(qs: seq<Question>, welcome: string, message: string, i: int, answers: Option<map<int, AnswerRecord>>)
    requires UniqueIds(qs)
    requires 0 <= i < |qs| && !PyText.AllWhitespace(message)
    ensures var t := GenerateBotResponses(qs, welcome, message, Session(Some(qs[i].id), answers));
            && t.saved
            && t.session.currentQuestionId == (if i == |qs| - 1 then None else Some(qs[i + 1].id))
            && t.session.quizAnswers.Some?
            && t.session.quizAnswers.value.Keys == AnswersOrEmpty(Session(None, answers)).Keys + {qs[i].id}
  {
    assert FirstAt(qs, qs[i].id, i) by { IndexOfUnique(qs, i); }
    assert qs[i].id in IdSet(qs);
  }

  /** No message of the run is blank, so the recorder accepts each of them. */
  predicate NoneBlank(messages: seq<string>)
  {
    |messages| == 0 || (!PyText.AllWhitespace(messages[0]) && NoneBlank(messages[1..]))
  }

  /** `NoneBlank` holds exactly when every message has a non-whitespace character. */
  lemma {:induction false} NoneBlankEveryMessage(messages: seq<string>)
    ensures NoneBlank(messages) <==> forall k :: 0 <= k < |messages| ==> !PyText.AllWhitespace(messages[k])
    decreases |messages|
  {
    if |messages| > 0 {
      NoneBlankEveryMessage(messages[1..]);
      assert forall k :: 1 <= k < |messages| ==> messages[k] == messages[1..][k - 1];
    }
  }

  /**
   Answering every remaining question, from the one at position `i` to the
   last, with a non-blank message ends with no current question and an
   answer recorded for each of those questions, whatever was recorded before.
   */
  lemma {:induction false} AnswerToTheEnd(qs: seq<Question>, welcome: string, messages: seq<string>, i: int, answers: Option<map<int, AnswerRecord>>)
    requires UniqueIds(qs)
    requires 0 <= i < |qs| && |messages| == |qs| - i
    requires NoneBlank(messages)
    ensures var end := Converse(qs, welcome, messages, Session(Some(qs[i].id), answers)).session;
            && end.currentQuestionId.None?
            && end.quizAnswers.Some?
            && end.quizAnswers.value.Keys == AnswersOrEmpty(Session(None, answers)).Keys + IdSet(qs[i..])
    decreases |qs| - i
  {
    var s := Session(Some(qs[i].id), answers);
    var next := GenerateBotResponses(qs, welcome, messages[0], s).session;
    var end := Converse(qs, welcome, messages, s).session;
    assert end == Converse(qs, welcome, messages[1..], next).session;
    AnswerStep(qs, welcome, messages[0], i, answers);
    IdSetFrom(qs, i);
    if i < |qs| - 1 {
      AnswerToTheEnd(qs, welcome, messages[1..], i + 1, next.quizAnswers);
    } else {
      assert end == next;
    }
  }

  /** A two-question quiz used to pin down concrete turns. */
  const Sample := [Question(1, "Q1", "A"), Question(2, "Q2", "B")]

  /** In the two-question quiz a fresh session is refused, and the welcome is dropped. */
  lemma SampleFreshSessionRefused(welcome: string)
    ensures GenerateBotResponses(Sample, welcome, "ignored", FreshSession)
         == Turn([Message(ErrorText(NoCurrentQuestion))], FreshSession, false)
  {
  }

  /** In the two-question quiz a correct first answer is recorded and "Q2" is asked next. */
  lemma SampleFirstAnswer(welcome: string)
    ensures var t := GenerateBotResponses(Sample, welcome, "A", Session(Some(1), None));
            && t.replies == [Message("Q2")]
            && t.session == Session(Some(2), Some(map[1 := AnswerRecord("A", true)]))
            && t.saved
  {
    assert FirstAt(Sample, 1, 0);
    assert 1 in IdSet(Sample);
    assert !PyText.AllWhitespace("A") by { assert "A"[0] == 'A'; }
    var t := GenerateBotResponses(Sample, welcome, "A", Session(Some(1), None));
    var m := t.session.quizAnswers.value;
    assert m.Keys == {1} && m[1] == AnswerRecord("A", true);
    assert m == map[1 := AnswerRecord("A", true)];
  }

  /** In the two-question quiz a wrong second answer ends the quiz at 1 of 2, "Good effort". */
  lemma SampleLastAnswer(welcome: string)
    ensures var t := GenerateBotResponses(Sample, welcome, "X", Session(Some(2), Some(map[1 := AnswerRecord("A", true)])));
            && t.replies == [Report(Scored(2, 1, GoodEffort))]
            && t.session.currentQuestionId.None?
            && t.saved
  {
    var s := Session(Some(2), Some(map[1 := AnswerRecord("A", true)]));
    assert FirstAt(Sample, 2, 1);
    assert 2 in IdSet(Sample);
    assert !PyText.AllWhitespace("X") by { assert "X"[0] == 'X'; }
    var recording := RecordCurrentAnswer(Sample, "X", Some(2), s);
    assert recording.status == Ok;
    var m := recording.session.quizAnswers.value;
    assert m.Keys == {1, 2} && m[1].isCorrect && !m[2].isCorrect;
    assert CorrectKeys(m) == {1};
    assert GetNextQuestion(Sample, Some(2)) == Finished;
    PercentageThresholds(1, 2);
    assert GenerateFinalResponse(Sample, recording.session) == Scored(2, 1, GoodEffort);
    assert GenerateBotResponses(Sample, welcome, "X", s)
        == Turn([Report(Scored(2, 1, GoodEffort))], recording.session.(currentQuestionId := None), true);
  }
}
