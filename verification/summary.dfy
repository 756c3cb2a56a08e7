/**
 The score summariser (`generate_final_response`): counts the correct
 answer records and places the score in one of four performance tiers.
 */
module Summary {
  import opened Quiz

  /** The four performance tiers, best first. */
  datatype Tier = Excellent | GreatJob | GoodEffort | KeepLearning

  /** The sentence the report ends with for each tier. */
  function TierText(t: Tier): (text: string)
  {
    match t
    case Excellent => "Excellent! You're a Python pro!"
    case GreatJob => "Great job! You have a solid understanding of Python."
    case GoodEffort => "Good effort. You're on the right track with Python."
    case KeepLearning => "Keep learning! There's room for improvement in your Python knowledge."
  }

  /** Position of a tier from the bottom; a higher rank is a better tier. */
  function Rank(t: Tier): (rank: nat)
  {
    match t
    case KeepLearning => 0
    case GoodEffort => 1
    case GreatJob => 2
    case Excellent => 3
  }

  /**
   The final report: the fixed "no answers" text, or the three numbers and
   the tier the rendered report is made of.
   */
  datatype FinalReport = NoAnswersRecorded | Scored(total: nat, correct: nat, tier: Tier)

  const NoAnswersText := "No answers recorded. Please complete the quiz."

  /** The keys whose record is marked correct. */
  function CorrectKeys(answers: map<int, AnswerRecord>): (keys: set<int>)
  {
    set k | k in answers && answers[k].isCorrect
  }

  /** The score percentage, computed exactly (`generate_final_response` divides in floating point). */
  function Percentage(correct: nat, total: nat): (p: real)
    requires total > 0
  {
    (correct as real / total as real) * 100.0
  }

  /** The `if/elif` chain of `generate_final_response`, read on the percentage. */
  function TierByPercentage(p: real): (t: Tier)
  {
    if p == 100.0 then Excellent
    else if p >= 75.0 then GreatJob
    else if p >= 50.0 then GoodEffort
    else KeepLearning
  }

  /** Scaling by the positive total turns each percentage threshold into an integer comparison. */
  lemma PercentageThresholds(correct: nat, total: nat)
    requires total > 0
    ensures Percentage(correct, total) == 100.0 <==> correct == total
    ensures Percentage(correct, total) >= 75.0 <==> 4 * correct >= 3 * total
    ensures Percentage(correct, total) >= 50.0 <==> 2 * correct >= total
  {
    ScaledPercentage(correct, total, 100);
    ScaledPercentage(correct, total, 75);
    ScaledPercentage(correct, total, 50);
  }

  /** The percentage compares with `bound` as 100 times the correct count compares with `bound` times the total. */
  lemma ScaledPercentage(correct: nat, total: nat, bound: nat)
    requires total > 0
    ensures Percentage(correct, total) >= bound as real <==> 100 * correct >= bound * total
    ensures Percentage(correct, total) == bound as real <==> 100 * correct == bound * total
  {
    var c, t := correct as real, total as real;
    var p := Percentage(correct, total);
    assert (c / t) * t == c;
    assert p * t == 100.0 * c;
    ScaledCompare(p, t, bound as real);
    assert (100 * correct) as real == 100.0 * c;
    assert (bound * total) as real == bound as real * t;
  }

  /** Multiplying by a positive number keeps comparisons. */
  lemma ScaledCompare(q: real, t: real, bound: real)
    requires t > 0.0
    ensures q >= bound <==> q * t >= bound * t
    ensures q == bound <==> q * t == bound * t
  {
    if q > bound { assert (q - bound) * t > 0.0; }
    if q < bound { assert (bound - q) * t > 0.0; }
  }

  /**
   The tier in integer arithmetic: it is the tier the `if/elif` chain of
   `generate_final_response` picks.
   */
  function TierOf(correct: nat, total: nat): (r: Tier)
    requires total > 0
    ensures r == TierByPercentage(Percentage(correct, total))
  {
    PercentageThresholds(correct, total);
    if correct == total then Excellent
    else if 4 * correct >= 3 * total then GreatJob
    else if 2 * correct >= total then GoodEffort
    else KeepLearning
  }

  /**
   More correct answers never give a worse tier, up to a full score. Above
   the total the chain is not monotone: the top tier needs a percentage of
   exactly 100, so 3 of 2 ranks below 2 of 2. `ScoreBounds` rules such
   counts out while every answer key is a question id.
   */
  lemma TierMonotone(c1: nat, c2: nat, total: nat)
    requires total > 0 && c1 <= c2 <= total
    ensures Rank(TierOf(c1, total)) <= Rank(TierOf(c2, total))
  {
  }

  /**
   The line the rendered report ends with: the whole "no answers" message,
   or the tier's sentence after the total, correct and score lines.
   */
  function ClosingLine(r: FinalReport): (line: string)
    ensures line == NoAnswersText <==> r.NoAnswersRecorded?
    ensures r.Scored? ==> TierOfText(line) == Some(r.tier)
  {
    if r.NoAnswersRecorded? then NoAnswersText
    else
      TierTextRoundTrip(r.tier);
      TierText(r.tier)
  }

  /** The closing lines of two scored reports agree exactly when their tiers do. */
  lemma ClosingLineNamesTier(r1: FinalReport, r2: FinalReport)
    requires r1.Scored? && r2.Scored?
    ensures ClosingLine(r1) == ClosingLine(r2) <==> r1.tier == r2.tier
  {
    TierTextRoundTrip(r1.tier);
    TierTextRoundTrip(r2.tier);
  }

  /** The tier whose sentence a line is, if it is one of the four. */
  function TierOfText(line: string): (t: Option<Tier>)
  {
    if line == TierText(Excellent) then Some(Excellent)
    else if line == TierText(GreatJob) then Some(GreatJob)
    else if line == TierText(GoodEffort) then Some(GoodEffort)
    else if line == TierText(KeepLearning) then Some(KeepLearning)
    else None
  }

  /** Each tier's sentence reads back as that tier: no two tiers share a sentence. */
  lemma TierTextRoundTrip(t: Tier)
    ensures TierOfText(TierText(t)) == Some(t)
  {
  }

  /**
   Builds the final report. Only an absent answer mapping gives the "no
   answers" text; a present but empty one is scored as 0 correct. The
   total is the length of the question list, not the number of answers;
   dividing by an empty list raises ZeroDivisionError in
   `generate_final_response`, hence the precondition.
   */
  function GenerateFinalResponse(qs: seq<Question>, s: Session): (r: FinalReport)
    requires s.quizAnswers.Some? ==> |qs| > 0
    ensures r == NoAnswersRecorded <==> s.quizAnswers.None?
    ensures r.Scored? ==>
      && r.total == |qs|
      && r.correct == |CorrectKeys(s.quizAnswers.value)|
      && r.tier == TierByPercentage(Percentage(r.correct, r.total))
  {
    if s.quizAnswers.None? then NoAnswersRecorded
    else
      var correct := |CorrectKeys(s.quizAnswers.value)|;
      Scored(|qs|, correct, TierOf(correct, |qs|))
  }

  /**
   With every answer keyed by a question id, the correct count is at most
   the number of answers, which is at most the list length, so the
   percentage lies between 0 and 100.
   */
  lemma ScoreBounds(qs: seq<Question>, answers: map<int, AnswerRecord>)
    requires |qs| > 0 && answers.Keys <= IdSet(qs)
    ensures |CorrectKeys(answers)| <= |answers| <= |qs|
    ensures 0.0 <= Percentage(|CorrectKeys(answers)|, |qs|) <= 100.0
  {
    SubsetSize(CorrectKeys(answers), answers.Keys);
    SubsetSize(answers.Keys, IdSet(qs));
    IdSetSize(qs);
    ScaledPercentage(|CorrectKeys(answers)|, |qs|, 0);
    ScaledPercentage(|CorrectKeys(answers)|, |qs|, 100);
  }

  /** A subset is no larger than its superset. */
  lemma SubsetSize(a: set<int>, b: set<int>)
    requires a <= b
    ensures |a| <= |b|
  {
    assert b == a + (b - a);
    assert a * (b - a) == {};
  }

  /** A present but empty answer mapping is scored 0 out of the list length, at the lowest tier. */
  lemma EmptyAnswersScoreZero(qs: seq<Question>, s: Session)
    requires |qs| > 0 && s.quizAnswers == Some(map[])
    ensures GenerateFinalResponse(qs, s) == Scored(|qs|, 0, KeepLearning)
  {
    assert CorrectKeys(map[]) == {};
  }

  /**
   With unique ids, a correct answer for every question gives a full score
   and the top tier.
   */
  lemma AllCorrectIsExcellent(qs: seq<Question>, s: Session)
    requires |qs| > 0 && UniqueIds(qs)
    requires s.quizAnswers.Some? && s.quizAnswers.value.Keys == IdSet(qs)
    requires forall k :: k in s.quizAnswers.value ==> s.quizAnswers.value[k].isCorrect
    ensures GenerateFinalResponse(qs, s) == Scored(|qs|, |qs|, Excellent)
  {
    var answers := s.quizAnswers.value;
    assert CorrectKeys(answers) == IdSet(qs);
    IdSetSize(qs);
  }
}
