/**
 The answer recorder (`record_current_answer`): validates the pending
 question id and the answer text, then stores or overwrites the answer
 record for that question in the session.
 */
module Recorder {
  import opened Quiz
  import PyText

  /** The three rejections, in the order they are tested. */
  datatype RecordError = NoCurrentQuestion | InvalidQuestionId | EmptyAnswer

  /** The user-facing text of each rejection. */
  function ErrorText(e: RecordError): (text: string)
  {
    match e
    case NoCurrentQuestion => "No current question available"
    case InvalidQuestionId => "Invalid question ID"
    case EmptyAnswer => "Please provide an answer"
  }

  /** The `(success, error)` pair `record_current_answer` returns, with `Ok` for `(True, "")`. */
  datatype Status = Ok | Rejected(error: RecordError)

  /** The status together with the session as the recorder leaves it. */
  datatype Recording = Recording(status: Status, session: Session)

  /** The answers already in the session, or the empty mapping the recorder creates. */
  function AnswersOrEmpty(s: Session): (answers: map<int, AnswerRecord>)
  {
    if s.quizAnswers.Some? then s.quizAnswers.value else map[]
  }

  /** Every recorded answer belongs to a question of the list. */
  predicate AnswersKeyed(qs: seq<Question>, s: Session)
  {
    s.quizAnswers.Some? ==> s.quizAnswers.value.Keys <= IdSet(qs)
  }

  /**
   Records `answer` for the pending question `id`. A rejection leaves the
   session as it was; a success writes exactly one entry, graded by raw
   string equality against the first question carrying `id`.
   */
  function RecordCurrentAnswer(qs: seq<Question>, answer: string, id: Option<int>, s: Session): (r: Recording)
    ensures r.status.Rejected? ==> r.session == s
    ensures id.None? ==> r.status == Rejected(NoCurrentQuestion)
    ensures id.Some? && id.value !in IdSet(qs) ==> r.status == Rejected(InvalidQuestionId)
    ensures id.Some? && id.value in IdSet(qs) && PyText.AllWhitespace(answer) ==> r.status == Rejected(EmptyAnswer)
    ensures r.status == Ok <==> id.Some? && id.value in IdSet(qs) && !PyText.AllWhitespace(answer)
    ensures r.status == Ok ==>
      && r.session.currentQuestionId == s.currentQuestionId
      && r.session.quizAnswers.Some?
      && r.session.quizAnswers.value.Keys == AnswersOrEmpty(s).Keys + {id.value}
      && (forall k :: k in AnswersOrEmpty(s) && k != id.value ==> r.session.quizAnswers.value[k] == AnswersOrEmpty(s)[k])
      && r.session.quizAnswers.value[id.value].userAnswer == answer
      && (forall i :: FirstAt(qs, id.value, i) ==>
            r.session.quizAnswers.value[id.value].isCorrect == (answer == qs[i].correctAnswer))
  {
    if id.None? then Recording(Rejected(NoCurrentQuestion), s)
    else
      var current := FindQuestion(qs, id.value);
      if current.None? then Recording(Rejected(InvalidQuestionId), s)
      else if PyText.IsBlank(answer) then Recording(Rejected(EmptyAnswer), s)
      else
        var answers := AnswersOrEmpty(s);
        var entry := AnswerRecord(answer, answer == current.value.correctAnswer);
        assert forall i :: FirstAt(qs, id.value, i) ==> qs[i] == current.value by {
          forall i | FirstAt(qs, id.value, i) ensures qs[i] == current.value {
            var j :| FirstAt(qs, id.value, j) && current.value == qs[j];
            FirstAtUnique(qs, id.value, i, j);
          }
        }
        Recording(Ok, s.(quizAnswers := Some(answers[id.value := entry])))
  }

  /** Recording keeps every answer key a question id of the list. */
  lemma RecordKeepsKeysValid(qs: seq<Question>, answer: string, id: Option<int>, s: Session)
    requires AnswersKeyed(qs, s)
    ensures AnswersKeyed(qs, RecordCurrentAnswer(qs, answer, id, s).session)
  {
  }

  /**
   Answering the same question twice keeps only the second answer: the
   result is the same as if the first answer had never been given.
   */
  lemma RepeatAnswerOverwrites(qs: seq<Question>, first: string, second: string, id: int, s: Session)
    requires RecordCurrentAnswer(qs, first, Some(id), s).status == Ok
    requires !PyText.AllWhitespace(second)
    ensures RecordCurrentAnswer(qs, second, Some(id), RecordCurrentAnswer(qs, first, Some(id), s).session)
         == RecordCurrentAnswer(qs, second, Some(id), s)
  {
    var answers := AnswersOrEmpty(s);
    var q := FindQuestion(qs, id).value;
    var e1 := AnswerRecord(first, first == q.correctAnswer);
    var e2 := AnswerRecord(second, second == q.correctAnswer);
    var once := RecordCurrentAnswer(qs, first, Some(id), s).session;
    assert once == s.(quizAnswers := Some(answers[id := e1]));
    assert AnswersOrEmpty(once)[id := e2] == answers[id := e2];
  }

  /** Answering the same question with the same text twice changes nothing the second time. */
  lemma RecordIdempotent(qs: seq<Question>, answer: string, id: Option<int>, s: Session)
    ensures var once := RecordCurrentAnswer(qs, answer, id, s);
            RecordCurrentAnswer(qs, answer, id, once.session) == once
  {
    var once := RecordCurrentAnswer(qs, answer, id, s);
    if once.status == Ok {
      RepeatAnswerOverwrites(qs, answer, answer, id.value, s);
      var m := once.session.quizAnswers.value;
      var m2 := RecordCurrentAnswer(qs, answer, id, once.session).session.quizAnswers.value;
      assert m2.Keys == m.Keys;
      assert forall k :: k in m ==> m2[k] == m[k];
    }
  }
}
