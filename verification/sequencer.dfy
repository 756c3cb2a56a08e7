/**
 The question sequencer (`get_next_question`): a pure function from the
 current question id to the question that follows it in list order.
 */
module Sequencer {
  import opened Quiz

  /** `(text, id)` of the question to ask next, or `(None, None)`. */
  datatype Next = Ask(text: string, id: int) | Finished

  /** The sequencer's answer for asking `q` next. */
  function AskFor(q: Question): (n: Next)
  {
    Ask(q.question, q.id)
  }

  /**
   The question after `id` in list order. No id starts at the first
   question; an id first found at the last position finishes the quiz; an
   id found nowhere has index -1, so it restarts at the first question,
   except on an empty list where -1 is also the last index. Reading the
   first question of an empty list raises IndexError in `get_next_question`, hence the
   precondition.
   */
  function GetNextQuestion(qs: seq<Question>, id: Option<int>): (r: Next)
    requires id.None? ==> |qs| > 0
    ensures id.None? ==> r == AskFor(qs[0])
    ensures forall i :: id.Some? && FirstAt(qs, id.value, i) ==>
              r == if i == |qs| - 1 then Finished else AskFor(qs[i + 1])
    ensures id.Some? && id.value !in IdSet(qs) ==>
              r == if |qs| == 0 then Finished else AskFor(qs[0])
  {
    if id.None? then AskFor(qs[0])
    else
      var index := IndexOf(qs, id.value);
      assert forall i :: FirstAt(qs, id.value, i) ==> i == index by {
        forall i | FirstAt(qs, id.value, i) ensures i == index {
          assert id.value in IdSet(qs);
          FirstAtUnique(qs, id.value, i, index);
        }
      }
      if index == |qs| - 1 then Finished
      else AskFor(qs[index + 1])
  }

  /** The ids of the questions from position `k` on, in list order. */
  function IdsFrom(qs: seq<Question>, k: nat): (r: seq<int>)
    ensures |r| == if k <= |qs| then |qs| - k else 0
    ensures forall j :: 0 <= j < |r| ==> r[j] == qs[k + j].id
    decreases |qs| - k
  {
    if k >= |qs| then [] else [qs[k].id] + IdsFrom(qs, k + 1)
  }

  /**
   Up to `steps` calls of the sequencer, each fed the id the previous one
   returned, starting from `id`; the ids it hands out, stopping early when
   it reports the end of the quiz.
   */
  function Walk(qs: seq<Question>, id: Option<int>, steps: nat): (ids: seq<int>)
    requires |qs| > 0
    decreases steps
  {
    if steps == 0 then []
    else
      match GetNextQuestion(qs, id)
      case Finished => []
      case Ask(_, next) => [next] + Walk(qs, Some(next), steps - 1)
  }

  /** With unique ids, the question at position `i` is followed by the one at `i + 1`, the last by the end. */
  lemma NextAtPosition(qs: seq<Question>, i: int)
    requires UniqueIds(qs)
    requires 0 <= i < |qs|
    ensures GetNextQuestion(qs, Some(qs[i].id)) == if i == |qs| - 1 then Finished else AskFor(qs[i + 1])
  {
    IndexOfUnique(qs, i);
    assert FirstAt(qs, qs[i].id, i);
  }

  /** One step of the walk from the question at position `i`. */
  lemma WalkStep(qs: seq<Question>, i: int, steps: nat)
    requires UniqueIds(qs)
    requires 0 <= i < |qs|
    ensures Walk(qs, Some(qs[i].id), steps)
         == if steps == 0 || i == |qs| - 1 then [] else [qs[i + 1].id] + Walk(qs, Some(qs[i + 1].id), steps - 1)
  {
    NextAtPosition(qs, i);
  }

  /** From the question at position `i`, the walk hands out the remaining ids and then stops. */
  lemma {:induction false} WalkFrom(qs: seq<Question>, i: int, steps: nat)
    requires UniqueIds(qs)
    requires 0 <= i < |qs|
    requires steps >= |qs| - 1 - i
    ensures Walk(qs, Some(qs[i].id), steps) == IdsFrom(qs, i + 1)
    decreases |qs| - i
  {
    WalkStep(qs, i, steps);
    if i < |qs| - 1 {
      WalkFrom(qs, i + 1, steps - 1);
    }
  }

  /**
   Starting with no current question and feeding each returned id back in,
   the sequencer hands out every id of the list exactly once, in list
   order, and answers the last id with the end of the quiz: extra steps add
   nothing.
   */
  lemma Traversal(qs: seq<Question>, extra: nat)
    requires |qs| > 0 && UniqueIds(qs)
    ensures Walk(qs, None, |qs| + extra) == IdsFrom(qs, 0)
    ensures GetNextQuestion(qs, Some(qs[|qs| - 1].id)) == Finished
  {
    WalkFrom(qs, 0, |qs| - 1 + extra);
    NextAtPosition(qs, |qs| - 1);
  }
}
