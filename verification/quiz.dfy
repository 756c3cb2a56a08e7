/**
 The data the quiz turn engine works on: the static, ordered question list,
 the per-user session record and the answer records kept in it, together
 with the two linear scans the engine performs over the question list.
 */
module Quiz {

  /** Python's `None` / value distinction for an optional session field. */
  datatype Option<+T> = None | Some(value: T)

  /** One entry of the static question list; its position in the list is the quiz order. */
  datatype Question = Question(id: int, question: string, correctAnswer: string)

  /** What the recorder stores for an answered question. */
  datatype AnswerRecord = AnswerRecord(userAnswer: string, isCorrect: bool)

  /** The two session fields the engine reads and writes; `None` means the key is absent. */
  datatype Session = Session(currentQuestionId: Option<int>, quizAnswers: Option<map<int, AnswerRecord>>)

  /** The session of a conversation that has never been touched. */
  const FreshSession := Session(None, None)

  /** The set of ids that occur in the question list. */
  function IdSet(qs: seq<Question>): (ids: set<int>)
  {
    set i | 0 <= i < |qs| :: qs[i].id
  }

  /** No two questions of the list share an id. */
  predicate UniqueIds(qs: seq<Question>)
  {
    forall i, j :: 0 <= i < j < |qs| ==> qs[i].id != qs[j].id
  }

  /** Position `i` is the first one in list order whose question carries `id`. */
  predicate FirstAt(qs: seq<Question>, id: int, i: int)
  {
    && 0 <= i < |qs|
    && qs[i].id == id
    && forall j :: 0 <= j < i ==> qs[j].id != id
  }

  /** The first position from `k` on whose question carries `id`, or -1 when there is none. */
  function IndexFrom(qs: seq<Question>, id: int, k: nat): (r: int)
    requires k <= |qs|
    ensures r == -1 <==> forall j :: k <= j < |qs| ==> qs[j].id != id
    ensures r != -1 ==> k <= r < |qs| && qs[r].id == id && forall j :: k <= j < r ==> qs[j].id != id
    decreases |qs| - k
  {
    if k == |qs| then -1
    else if qs[k].id == id then k
    else IndexFrom(qs, id, k + 1)
  }

  /**
   The position of the first question carrying `id`, or -1 when there is
   none: the `next(..., -1)` scan over `enumerate` in the sequencer.
   */
  function IndexOf(qs: seq<Question>, id: int): (r: int)
    ensures -1 <= r < |qs|
    ensures r == -1 <==> id !in IdSet(qs)
    ensures r != -1 ==> FirstAt(qs, id, r)
  {
    IndexFrom(qs, id, 0)
  }

  /**
   The first question carrying `id`, if any: the `next(..., None)` lookup
   the recorder uses to find the pending question.
   */
  function FindQuestion(qs: seq<Question>, id: int): (r: Option<Question>)
    ensures r.None? <==> id !in IdSet(qs)
    ensures r.Some? ==> exists i :: FirstAt(qs, id, i) && r.value == qs[i]
  {
    var i := IndexOf(qs, id);
    if i == -1 then None else Some(qs[i])
  }

  /** The first position of an id is unique. */
  lemma FirstAtUnique(qs: seq<Question>, id: int, i: int, j: int)
    requires FirstAt(qs, id, i) && FirstAt(qs, id, j)
    ensures i == j
  {
  }

  /** With unique ids, every question is found at its own position. */
  lemma IndexOfUnique(qs: seq<Question>, i: int)
    requires UniqueIds(qs)
    requires 0 <= i < |qs|
    ensures IndexOf(qs, qs[i].id) == i
  {
    var k := IndexOf(qs, qs[i].id);
    FirstAtUnique(qs, qs[i].id, k, i);
  }

  /** A list never has more distinct ids than entries; exactly as many when ids are unique. */
  lemma {:induction false} IdSetSize(qs: seq<Question>)
    ensures |IdSet(qs)| <= |qs|
    ensures UniqueIds(qs) ==> |IdSet(qs)| == |qs|
  {
    if |qs| > 0 {
      var last := qs[|qs| - 1];
      var init := qs[..|qs| - 1];
      IdSetSize(init);
      assert IdSet(qs) == IdSet(init) + {last.id} by {
        forall x | x in IdSet(qs) ensures x in IdSet(init) + {last.id} {
          var i :| 0 <= i < |qs| && qs[i].id == x;
          if i < |qs| - 1 { assert init[i].id == x; }
        }
      }
      if UniqueIds(qs) {
        assert UniqueIds(init);
        assert last.id !in IdSet(init);
      }
    }
  }

  /** The ids from position `i` on are the id at `i` and those after it. */
  lemma IdSetFrom(qs: seq<Question>, i: int)
    requires 0 <= i < |qs|
    ensures IdSet(qs[i..]) == {qs[i].id} + (if i + 1 < |qs| then IdSet(qs[i + 1..]) else {})
  {
    forall x | x in IdSet(qs[i..]) ensures x in {qs[i].id} + (if i + 1 < |qs| then IdSet(qs[i + 1..]) else {}) {
      var j :| 0 <= j < |qs[i..]| && qs[i..][j].id == x;
      if j > 0 { assert qs[i + 1..][j - 1].id == x; }
    }
    if i + 1 < |qs| {
      forall x | x in IdSet(qs[i + 1..]) ensures x in IdSet(qs[i..]) {
        var j :| 0 <= j < |qs[i + 1..]| && qs[i + 1..][j].id == x;
        assert qs[i..][j + 1].id == x;
      }
    }
    assert qs[i..][0].id == qs[i].id;
  }
}
