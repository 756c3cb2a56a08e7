# Quiz bot turn engine, in Dafny

This project models the turn engine of a Python quiz bot (`reply_factory.py`).
Each incoming user message runs one turn against a per-user session and a
static, ordered list of questions. The turn has four parts:

- the **answer recorder** (`record_current_answer`) checks the pending
  question id and the answer text in a fixed order. It then stores or
  overwrites one answer record, keyed by question id.
- the **question sequencer** (`get_next_question`) maps the current id to the
  next question in list order, or to "finished".
- the **score summariser** (`generate_final_response`) counts the correct
  records and picks one of four performance tiers.
- the **driver** (`generate_bot_responses`) composes the three. It decides the
  replies, stores the next id in the session and saves the session.

Everything is modelled with immutable datatypes and pure functions:

- The question list and the welcome text are parameters (`qs: seq<Question>`, `welcome`).
- The session is a value of `Session`, with `None` standing for an absent key.
- A turn returns a `Turn`: the replies, the session as the turn leaves it, and a `saved` flag for the call to `session.save()`.

Files and modules:

| file | module | contents |
|---|---|---|
| `quiz.dfy` | `Quiz` | questions, answer records, session; the linear scans for an id |
| `pytext.dfy` | `PyText` | `str.strip()` and the blank-answer test |
| `recorder.dfy` | `Recorder` | `record_current_answer` and its error precedence |
| `sequencer.dfy` | `Sequencer` | `get_next_question` and the traversal of the whole list |
| `summary.dfy` | `Summary` | `generate_final_response`, tiers and score bounds |
| `driver.dfy` | `Driver` | `generate_bot_responses`, multi-turn runs, a concrete two-question quiz |

## Behaviour as written

The model follows the code. In four places the code does something its names
and docstrings do not suggest:

- **`get_next_question` called on its own restarts on an unknown id.** Its scan
  yields -1 for an unknown id, and it then returns the question at index 0. It
  does not report completion. Only on an empty list is -1 also the last index,
  so "finished" comes back there (`Sequencer.GetNextQuestion`). Within a turn
  this branch cannot be reached: the recorder rejects an unknown id first with
  "Invalid question ID", and the session stays on that id
  (`Driver.UnknownIdRefused`).
- **`generate_final_response` scores a present but empty answer map.** It gives
  0 out of the list length at the lowest tier. Only an absent map gives the "No
  answers recorded" text (`Summary.EmptyAnswersScoreZero`). Within a turn the
  summariser never sees an empty map, because the accepted answer has just been
  recorded in it (`Driver.AcceptedTurn`).
- **A rejected turn drops the welcome.** It returns the error text alone, although the
  welcome was already queued. A fresh session is therefore answered
  `["No current question available"]` and never advances
  (`Driver.StuckWithoutCurrentQuestion`, `Driver.SampleFreshSessionRefused`).
  A reader might expect the welcome and the error together here.
- **The two "not started" tests differ.**
  - The welcome uses Python truthiness, so an id of `0` also gets it.
  - The recorder tests for `None` only.
  - The driver tests the truthiness of the next question's *text*. A question whose
    text is empty leads to the final report, but its id is still stored as the
    current one.

## Model

| member | source | states |
|---|---|---|
| `Quiz.IndexFrom` | reply_factory.py:84 | the scan from position k returns -1 exactly when no question from k on carries the id; otherwise it returns the first such position |
| `Quiz.IndexOf` | reply_factory.py:84 | the result is -1 exactly when no question carries the id; otherwise it is the first position whose question carries it |
| `Quiz.FindQuestion` | reply_factory.py:47-50 | no question is found exactly when the id is not in the list; a found question is the first one in list order with that id |
| `Quiz.IdSetSize` | reply_factory.py:109-110 | a list has at most as many distinct ids as entries, and exactly as many when ids are unique |
| `PyText.TrimStartSpec` | reply_factory.py:53 | the leading-whitespace trim drops a whitespace prefix and leaves a suffix that does not start with whitespace |
| `PyText.TrimEndSpec` | reply_factory.py:53 | the trailing-whitespace trim drops a whitespace suffix and leaves a prefix that does not end with whitespace |
| `PyText.Strip` | reply_factory.py:53 | `answer.strip()` is empty exactly when the answer is all whitespace |
| `PyText.StripIsSlice` | reply_factory.py:53 | the stripped text is the slice of the input that starts right after the leading whitespace |
| `PyText.StripDropsWhitespace` | reply_factory.py:53 | every character outside the stripped slice is whitespace |
| `PyText.StripEnds` | reply_factory.py:53 | a non-empty stripped text starts and ends with a non-whitespace character |
| `PyText.IsBlank` | reply_factory.py:53 | `not answer or len(answer.strip()) == 0` holds exactly when every character of the answer is whitespace |
| `Recorder.RecordCurrentAnswer` | reply_factory.py:43-66 | errors in precedence order: no id, then unknown id, then blank answer; on any error the session is unchanged. Success happens exactly when none applies. It then creates the map if absent, writes the raw answer graded against the first question with that id, and leaves every other entry and the current id unchanged |
| `Recorder.RecordKeepsKeysValid` | reply_factory.py:47-61 | recording keeps every answer key a question id of the list |
| `Recorder.RepeatAnswerOverwrites` | reply_factory.py:61-64 | a second, non-blank answer to the same question replaces the first; the result is as if the first had never been given |
| `Recorder.RecordIdempotent` | reply_factory.py:43-66 | recording the same answer twice equals recording it once |
| `Sequencer.GetNextQuestion` | reply_factory.py:79-92 | no id gives the first question. An id first found at the last position gives "finished", and one found earlier gives the following question. An unknown id gives the first question, or "finished" on an empty list |
| `Sequencer.IdsFrom` | reply_factory.py:79-92 | lists the ids from position k on, one per question, in list order |
| `Sequencer.NextAtPosition` | reply_factory.py:84-92 | with unique ids, the question at position i is followed by the one at i+1, and the last one by "finished" |
| `Sequencer.WalkStep` | reply_factory.py:84-92 | with unique ids, one step of the walk from position i hands out the id at i+1, or stops at the last position |
| `Sequencer.WalkFrom` | reply_factory.py:84-92 | with unique ids, feeding ids back from position i yields the ids after i in order and then stops |
| `Sequencer.Traversal` | reply_factory.py:79-92 | with unique ids, walking from no id yields every id exactly once in list order; the last id gives "finished", so extra steps add nothing |
| `Summary.PercentageThresholds` | reply_factory.py:113-121 | the percentage is 100 iff correct = total, at least 75 iff 4·correct ≥ 3·total, at least 50 iff 2·correct ≥ total |
| `Summary.ScaledPercentage` | reply_factory.py:113-121 | the percentage meets or equals a bound exactly when 100·correct meets or equals bound·total |
| `Summary.TierOf` | reply_factory.py:116-123 | the integer tier choice equals the tier the percentage chain picks |
| `Summary.TierMonotone` | reply_factory.py:116-123 | for counts up to the total, more correct answers never give a worse tier |
| `Summary.GenerateFinalResponse` | reply_factory.py:105-123 | the "no answers" report comes exactly when the map is absent. Otherwise the total is the list length, the correct count is the number of records marked correct, and the tier is picked by the percentage |
| `Summary.ScoreBounds` | reply_factory.py:108-113 | when every key is a question id, correct ≤ answers ≤ total, so the percentage lies in [0, 100] |
| `Summary.ClosingLine` | reply_factory.py:105-131 | the rendered report ends with the "No answers recorded" message exactly when no answers were recorded; a scored report ends with a sentence that reads back as its tier |
| `Summary.ClosingLineNamesTier` | reply_factory.py:116-131 | two scored reports end with the same sentence exactly when they have the same tier |
| `Summary.TierTextRoundTrip` | reply_factory.py:116-123 | each tier's sentence reads back as that tier, so the four sentences are distinct |
| `Summary.EmptyAnswersScoreZero` | reply_factory.py:105-123 | a present but empty answer map scores 0 of the list length at the lowest tier |
| `Summary.AllCorrectIsExcellent` | reply_factory.py:108-117 | with unique ids, a correct answer for every question gives full marks and the top tier |
| `Driver.GenerateBotResponses` | reply_factory.py:5-28 | saves exactly when the recorder accepts. On rejection the replies are just the error text, for each error in precedence order, and the session is unchanged. On acceptance the welcome comes first only for id 0, one more reply follows, and the answers are the recorder's (the next id and the last reply are stated by `Driver.AcceptedTurn`) |
| `Driver.AcceptedTurn` | reply_factory.py:12-25 | an accepted answer to the question first found at position i saves the session with that answer recorded, so the map the report reads is never empty. Before the last position it makes the question at i+1 current and asks its text, or shows the report if that text is empty. At the last position it clears the current id and shows the report |
| `Driver.UnknownIdRefused` | reply_factory.py:12-15 | a current id no question carries gets only "Invalid question ID", unsaved, with the session unchanged; the sequencer's restart branch is never reached from a turn |
| `Driver.NoneBlankEveryMessage` | reply_factory.py:53 | a run of messages has no blank message exactly when every message has a non-whitespace character |
| `Driver.TurnKeepsKeysValid` | reply_factory.py:12-25 | a turn keeps every answer key a question id of the list |
| `Driver.StuckWithoutCurrentQuestion` | reply_factory.py:8-15 | without a current id, every message of any conversation gets only "No current question available", and the session never changes |
| `Driver.AnswerStep` | reply_factory.py:12-25 | with unique ids, a non-blank answer at position i is saved, recorded, and moves to position i+1, or to no id after the last |
| `Driver.AnswerToTheEnd` | reply_factory.py:12-25 | with unique ids, answering every remaining question with non-blank messages ends with no current id and an answer recorded for each of those questions |
| `Driver.SampleFreshSessionRefused` | reply_factory.py:8-15 | in a two-question quiz a fresh session gets only the error text, unsaved |
| `Driver.SampleFirstAnswer` | reply_factory.py:12-28 | a correct answer to question 1 records it as correct and asks "Q2" |
| `Driver.SampleLastAnswer` | reply_factory.py:17-28 | a wrong answer to the last question ends the quiz at 1 of 2, "Good effort" |

## Left out

- Session persistence. `session.save()` is the boolean `Turn.saved`, because a turn calls it at most once. Django's storage and serialisation are not modelled. Among other things, a JSON-backed session turns integer answer keys into strings when it is reloaded.
- The constants module. It is not part of this model. The question list and the welcome text are parameters.
- Python exceptions:
  - The sequencer reads index 0 of an empty list when there is no id (IndexError).
  - The summariser divides by an empty list's length (ZeroDivisionError).
  - Both are preconditions. The driver needs neither, because the recorder rejects every turn on an empty list first.
- Summary.GenerateFinalResponse: the float division `correct / total * 100` is read as an exact rational. The tier agrees with IEEE double arithmetic whenever the list is shorter than about 10^12 questions; that bound is not proved.
- Summary.GenerateFinalResponse: the report is a structured value (total, correct, tier), not the rendered text. Only its closing line is rendered (`Summary.ClosingLine`); the "Quiz Completed!" header, the count lines and the `:.1f` percentage formatting are not modelled.
- PyText.IsWhitespace lists the code points Python's `str.isspace` accepts. It is not derived from the Unicode database.
- Only the value types the code expects are modelled: a string message, an optional integer id, and records with the two fields. Sessions holding other Python values are not.
