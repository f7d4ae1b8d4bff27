/**
 * The clinician's review screen: answers of a completed assignment are
 * shown next to their questions, multiple-choice answers are scored
 * automatically, every other answered question needs a manual score, and
 * "Submit Final Score" builds the per-answer scores and a percentage for the
 * scoring call.
 */
module ReviewTest {
  import opened Js

  const MultipleChoiceCode := "MULTIPLE-CHOICE"

  datatype Category = Category(code: string, name: string)

  /** A question of the assigned test, as the review screen reads it. */
  datatype Question = Question(
    id: string,
    description: string,
    category: Category,
    points: real,
    options: Option<seq<string>>,
    correctOption: Option<int>)

  /** An answer as the screen keeps it (`questionId`). */
  datatype Answer = Answer(questionId: string, answer: string, isCorrect: Option<bool>, score: Option<real>)

  /** An answer as the server stores it under `results.answers` (`question`). */
  datatype StoredAnswer = StoredAnswer(question: string, answer: string, isCorrect: Option<bool>, score: Option<real>)

  datatype Results = Results(answers: Option<seq<StoredAnswer>>, notes: Option<string>)

  /** The assigned test fetched by id: its test's questions and its results, if any. */
  datatype Assignment = Assignment(questions: seq<Question>, results: Option<Results>)

  /**
   * One element of the submitted `answers` list: an answer whose question is
   * not in the test is passed on as it was loaded; the others are renamed back
   * to `question` and carry their final score.
   */
  datatype ScoredEntry =
    | Unmatched(original: Answer)
    | Scored(question: string, answer: string, score: real)

  /** The payload of the scoring call. */
  datatype ScoreRequest = ScoreRequest(id: string, scorePercent: int, notes: Option<string>, answers: seq<ScoredEntry>)

  /** The rename done while loading: `question` becomes `questionId`; nothing else changes. */
  function FromStored(s: StoredAnswer): (a: Answer)
    ensures a.questionId == s.question && a.answer == s.answer
    ensures a.isCorrect == s.isCorrect && a.score == s.score
  {
    Answer(s.question, s.answer, s.isCorrect, s.score)
  }

  function LoadAnswers(stored: seq<StoredAnswer>): (r: seq<Answer>)
    ensures |r| == |stored|
    ensures forall i :: 0 <= i < |r| ==> r[i] == FromStored(stored[i])
  {
    seq(|stored|, i requires 0 <= i < |stored| => FromStored(stored[i]))
  }

  /**
   * `calculateAutoScore`: a multiple-choice question that has options and a
   * correct option earns its points when the answer parses to the correct
   * index and 0 otherwise (an unparseable answer included); `None` means the
   * question must be scored by hand.
   */
  function AutoScore(q: Question, a: Answer): (r: Option<real>)
    ensures r.Some? <==> q.category.code == MultipleChoiceCode && q.options.Some? && q.correctOption.Some?
    ensures r.Some? && ParseInt(a.answer) == Some(q.correctOption.value) ==> r.value == q.points
    ensures r.Some? && ParseInt(a.answer) != Some(q.correctOption.value) ==> r.value == 0.0
  {
    if q.category.code == MultipleChoiceCode && q.options.Some? && q.correctOption.Some? then
      Some(if ParseInt(a.answer) == Some(q.correctOption.value) then q.points else 0.0)
    else
      None
  }

  /** The answer that was recorded as the option at index `k` earns the points exactly when `k` is the correct option. */
  lemma AutoScoreOfOption(q: Question, a: Answer, k: nat)
    requires q.category.code == MultipleChoiceCode && q.options.Some? && q.correctOption.Some?
    requires a.answer == ShowNat(k)
    requires q.points != 0.0
    ensures AutoScore(q, a) == Some(q.points) <==> k == q.correctOption.value
    ensures AutoScore(q, a) == Some(0.0) <==> k != q.correctOption.value
  {
    ParseShowNat(k);
  }

  function AnswerQuestionId(a: Answer): string
  {
    a.questionId
  }

  function QuestionId(q: Question): string
  {
    q.id
  }

  /** `answers.find(a => a.questionId === id)` */
  function FindAnswer(answers: seq<Answer>, id: string): Option<Answer>
  {
    FindByKey(answers, AnswerQuestionId, id)
  }

  /** `questions.find(q => q._id === id)` */
  function FindQuestion(questions: seq<Question>, id: string): Option<Question>
  {
    FindByKey(questions, QuestionId, id)
  }

  /**
   * The filter of the validation step: the question has an answer, that answer
   * has no automatic score, and no manual score was entered for the question
   * (an entered 0 counts as a score).
   */
  predicate MissingScore(q: Question, answers: seq<Answer>, manual: map<string, real>)
  {
    match FindAnswer(answers, q.id)
    case None => false
    case Some(a) => AutoScore(q, a).None? && q.id !in manual
  }

  function MissingScores(questions: seq<Question>, answers: seq<Answer>, manual: map<string, real>): (r: seq<Question>)
    ensures forall q :: q in r <==> q in questions && MissingScore(q, answers, manual)
  {
    if questions == [] then []
    else
      var rest := MissingScores(questions[1..], answers, manual);
      assert forall q :: q in questions <==> q == questions[0] || q in questions[1..];
      if MissingScore(questions[0], answers, manual) then [questions[0]] + rest else rest
  }

  /** Submission is blocked exactly when some answered, hand-scored question has no manual score. */
  lemma {:induction false} MissingScoresEmpty(questions: seq<Question>, answers: seq<Answer>, manual: map<string, real>)
    ensures MissingScores(questions, answers, manual) == [] <==>
              forall q :: (q in questions && FindAnswer(answers, q.id).Some? &&
                           AutoScore(q, FindAnswer(answers, q.id).value).None?) ==> q.id in manual
  {
    var r := MissingScores(questions, answers, manual);
    if r != [] {
      assert r[0] in r;
    }
  }

  /** A question nobody answered never blocks submission. */
  lemma UnansweredNeverMissing(q: Question, answers: seq<Answer>, manual: map<string, real>)
    requires forall i :: 0 <= i < |answers| ==> answers[i].questionId != q.id
    ensures !MissingScore(q, answers, manual)
  {
  }

  /** The final score of an answer to `q`: the automatic score, else the manual one (a missing one counts as 0). */
  function FinalScore(q: Question, a: Answer, manual: map<string, real>): (r: real)
    ensures AutoScore(q, a).Some? ==> r == AutoScore(q, a).value
    ensures AutoScore(q, a).None? && a.questionId in manual ==> r == manual[a.questionId]
    ensures AutoScore(q, a).None? && a.questionId !in manual ==> r == 0.0
  {
    match AutoScore(q, a)
    case Some(s) => s
    case None => if a.questionId in manual then manual[a.questionId] else 0.0
  }

  /** What one answer adds to the total score. */
  function ScoreOf(questions: seq<Question>, a: Answer, manual: map<string, real>): real
  {
    match FindQuestion(questions, a.questionId)
    case None => 0.0
    case Some(q) => FinalScore(q, a, manual)
  }

  /** What one answer adds to the total points. */
  function PointsOf(questions: seq<Question>, a: Answer): real
  {
    match FindQuestion(questions, a.questionId)
    case None => 0.0
    case Some(q) => q.points
  }

  function TotalScore(questions: seq<Question>, answers: seq<Answer>, manual: map<string, real>): real
  {
    if answers == [] then 0.0
    else TotalScore(questions, answers[..|answers| - 1], manual) + ScoreOf(questions, answers[|answers| - 1], manual)
  }

  function TotalPoints(questions: seq<Question>, answers: seq<Answer>): real
  {
    if answers == [] then 0.0
    else TotalPoints(questions, answers[..|answers| - 1]) + PointsOf(questions, answers[|answers| - 1])
  }

  function ScoreEntry(questions: seq<Question>, a: Answer, manual: map<string, real>): ScoredEntry
  {
    match FindQuestion(questions, a.questionId)
    case None => Unmatched(a)
    case Some(q) => Scored(a.questionId, a.answer, FinalScore(q, a, manual))
  }

  function ScoredAnswers(questions: seq<Question>, answers: seq<Answer>, manual: map<string, real>): seq<ScoredEntry>
  {
    seq(|answers|, i requires 0 <= i < |answers| => ScoreEntry(questions, answers[i], manual))
  }

  /**
   * The submitted list has one entry per loaded answer, in order: an answer
   * whose question is not in the test is passed through unchanged, the others
   * keep their question id and answer text and carry their final score.
   */
  lemma ScoredAnswersShape(questions: seq<Question>, answers: seq<Answer>, manual: map<string, real>, i: int)
    requires 0 <= i < |answers|
    ensures |ScoredAnswers(questions, answers, manual)| == |answers|
    ensures var e := ScoredAnswers(questions, answers, manual)[i];
            (e.Unmatched? <==> forall j :: 0 <= j < |questions| ==> questions[j].id != answers[i].questionId) &&
            (e.Unmatched? ==> e.original == answers[i]) &&
            (e.Scored? ==> e.question == answers[i].questionId && e.answer == answers[i].answer)
  {
  }

  /**
   * Loading renames `question` to `questionId` and submission renames it back:
   * each scored entry names the question and answer text the server stored.
   */
  lemma LoadThenScoreKeepsIds(questions: seq<Question>, stored: seq<StoredAnswer>, manual: map<string, real>, i: int)
    requires 0 <= i < |stored|
    ensures var e := ScoredAnswers(questions, LoadAnswers(stored), manual)[i];
            (e.Scored? ==> e.question == stored[i].question && e.answer == stored[i].answer) &&
            (e.Unmatched? ==> e.original.questionId == stored[i].question && e.original.answer == stored[i].answer &&
                              e.original.isCorrect == stored[i].isCorrect && e.original.score == stored[i].score)
  {
    ScoredAnswersShape(questions, LoadAnswers(stored), manual, i);
  }

  /**
   * The loop of `handleSubmit`: walks the answers once, accumulating the total
   * score and total points while building the list that is sent.
   */
  method ScoreAnswers(questions: seq<Question>, answers: seq<Answer>, manual: map<string, real>)
    returns (scored: seq<ScoredEntry>, totalScore: real, totalPoints: real)
    ensures scored == ScoredAnswers(questions, answers, manual)
    ensures totalScore == TotalScore(questions, answers, manual)
    ensures totalPoints == TotalPoints(questions, answers)
  {
    scored, totalScore, totalPoints := [], 0.0, 0.0;
    var i := 0;
    while i < |answers|
      invariant 0 <= i <= |answers|
      invariant scored == ScoredAnswers(questions, answers[..i], manual)
      invariant totalScore == TotalScore(questions, answers[..i], manual)
      invariant totalPoints == TotalPoints(questions, answers[..i])
    {
      Snoc(questions, answers, manual, i);
      var entry, score, points := ScoreOne(questions, answers[i], manual);
      scored := scored + [entry];
      totalScore := totalScore + score;
      totalPoints := totalPoints + points;
      i := i + 1;
    }
    assert answers[..i] == answers;
  }

  /**
   * The callback of the `map` in `handleSubmit` for one answer: its entry in
   * the submitted list and what it adds to the total score and total points.
   */
  method ScoreOne(questions: seq<Question>, a: Answer, manual: map<string, real>)
    returns (entry: ScoredEntry, score: real, points: real)
    ensures entry == ScoreEntry(questions, a, manual)
    ensures score == ScoreOf(questions, a, manual) && points == PointsOf(questions, a)
    ensures entry.Unmatched? <==> FindQuestion(questions, a.questionId).None?
    ensures entry.Unmatched? ==> entry == Unmatched(a) && score == 0.0 && points == 0.0
  {
    var question := FindQuestion(questions, a.questionId);
    if question.None? {
      return Unmatched(a), 0.0, 0.0;
    }
    var q := question.value;
    var finalScore := FinalScore(q, a, manual);
    entry, score, points := Scored(a.questionId, a.answer, finalScore), finalScore, q.points;
  }

  /** One more answer adds one entry and its contribution to each total. */
  lemma Snoc(questions: seq<Question>, answers: seq<Answer>, manual: map<string, real>, i: int)
    requires 0 <= i < |answers|
    ensures ScoredAnswers(questions, answers[..i + 1], manual) ==
            ScoredAnswers(questions, answers[..i], manual) + [ScoreEntry(questions, answers[i], manual)]
    ensures TotalScore(questions, answers[..i + 1], manual) ==
            TotalScore(questions, answers[..i], manual) + ScoreOf(questions, answers[i], manual)
    ensures TotalPoints(questions, answers[..i + 1]) == TotalPoints(questions, answers[..i]) + PointsOf(questions, answers[i])
  {
    assert answers[..i + 1][..i] == answers[..i];
  }

  /** The rounded percentage, 0 when there are no points (no division by zero). */
  function Percentage(totalScore: real, totalPoints: real): (p: int)
    ensures totalPoints <= 0.0 ==> p == 0
    ensures totalPoints > 0.0 ==> totalScore / totalPoints * 100.0 - 0.5 < p as real <= totalScore / totalPoints * 100.0 + 0.5
  {
    if totalPoints > 0.0 then Round(totalScore / totalPoints * 100.0) else 0
  }

  lemma PercentageBounds(totalScore: real, totalPoints: real)
    requires 0.0 <= totalScore <= totalPoints
    ensures 0 <= Percentage(totalScore, totalPoints) <= 100
  {
    if totalPoints > 0.0 {
      assert totalScore / totalPoints <= 1.0;
    }
  }

  /** Worked values of the review percentage, including the zero-points fallback; they document rather than prove. */
  lemma PercentageExamples()
    ensures Percentage(2.0, 3.0) == 67
    ensures Percentage(3.0, 4.0) == 75
    ensures Percentage(5.0, 0.0) == 0
  {
    assert 200.0 / 3.0 * 1.0 == 200.0 / 3.0;
  }

  /** Manual scores kept within the points the input field offers (its `max` is not enforced by the code). */
  ghost predicate ScoresWithinPoints(questions: seq<Question>, manual: map<string, real>)
  {
    (forall q :: q in questions ==> q.points >= 0.0) &&
    (forall q :: q in questions && q.id in manual ==> 0.0 <= manual[q.id] <= q.points)
  }

  /** With non-negative points and manual scores within them, the total score never exceeds the total points. */
  lemma {:induction false} TotalsBounded(questions: seq<Question>, answers: seq<Answer>, manual: map<string, real>)
    requires ScoresWithinPoints(questions, manual)
    ensures 0.0 <= TotalScore(questions, answers, manual) <= TotalPoints(questions, answers)
  {
    if answers != [] {
      TotalsBounded(questions, answers[..|answers| - 1], manual);
    }
  }

  /** Adding a question no answer refers to changes neither total. */
  lemma {:induction false} UnansweredAddsNothing(questions: seq<Question>, q: Question, answers: seq<Answer>, manual: map<string, real>)
    requires forall i :: 0 <= i < |answers| ==> answers[i].questionId != q.id
    ensures TotalScore(questions + [q], answers, manual) == TotalScore(questions, answers, manual)
    ensures TotalPoints(questions + [q], answers) == TotalPoints(questions, answers)
  {
    if answers != [] {
      var last := answers[|answers| - 1];
      FindByKeyAppend(questions, q, QuestionId, last.questionId);
      UnansweredAddsNothing(questions, q, answers[..|answers| - 1], manual);
    }
  }

  /** The screen's state. */
  class ReviewPage {
    var test: Option<Assignment>
    var answers: seq<Answer>
    var manualScores: map<string, real>
    var notes: string
    var isSubmitting: bool

    constructor ()
      ensures test == None && answers == [] && manualScores == map[] && notes == [] && !isSubmitting
    {
      test, answers, manualScores, notes, isSubmitting := None, [], map[], [], false;
    }

    /**
     * `loadTestData`: `fetched` is the assigned test the server returned, or
     * `None` when the request failed (only a toast is shown). Stored answers
     * are renamed; stored non-empty notes are copied.
     */
    method LoadTestData(fetched: Option<Assignment>)
      modifies this
      ensures fetched.None? ==> test == old(test) && answers == old(answers) && notes == old(notes)
      ensures fetched.Some? ==> test == fetched
      ensures answers == if fetched.Some? && fetched.value.results.Some? && fetched.value.results.value.answers.Some?
                         then LoadAnswers(fetched.value.results.value.answers.value) else old(answers)
      ensures notes == if fetched.Some? && fetched.value.results.Some? && fetched.value.results.value.notes.Some? &&
                          fetched.value.results.value.notes.value != []
                       then fetched.value.results.value.notes.value else old(notes)
      ensures manualScores == old(manualScores) && isSubmitting == old(isSubmitting)
    {
      if fetched.Some? {
        test := fetched;
        var results := fetched.value.results;
        if results.Some? && results.value.answers.Some? {
          answers := LoadAnswers(results.value.answers.value);
        }
        if results.Some? && results.value.notes.Some? && results.value.notes.value != [] {
          notes := results.value.notes.value;
        }
      }
    }

    /** `handleManualScoreChange`: records the score under the question id, overwriting an earlier one. */
    method ManualScoreChange(questionId: string, score: real)
      modifies this
      ensures manualScores == old(manualScores)[questionId := score]
      ensures test == old(test) && answers == old(answers) && notes == old(notes) && isSubmitting == old(isSubmitting)
    {
      manualScores := manualScores[questionId := score];
    }

    /**
     * `handleSubmit` for assignment `id`: nothing is sent while the test is not
     * loaded or while some manual score is missing; otherwise the request
     * handed to `apiClient.scoreTest` is returned. The client defines no such
     * method, so that call always throws and the page shows the failure toast
     * without navigating; the page's own state ends as modelled here.
     */
    method Submit(id: string) returns (request: Option<ScoreRequest>)
      modifies this
      ensures request.None? <==> old(test).None? || MissingScores(old(test).value.questions, answers, manualScores) != []
      ensures request.Some? ==>
                var qs := old(test).value.questions;
                request.value == ScoreRequest(id,
                                              Percentage(TotalScore(qs, answers, manualScores), TotalPoints(qs, answers)),
                                              NotesPayload(notes),
                                              ScoredAnswers(qs, answers, manualScores))
      ensures request.Some? ==> !isSubmitting
      ensures request.None? ==> isSubmitting == old(isSubmitting)
      ensures test == old(test) && answers == old(answers) && manualScores == old(manualScores) && notes == old(notes)
    {
      if test.None? {
        return None;
      }
      var missing := MissingScores(test.value.questions, answers, manualScores);
      if |missing| > 0 {
        return None;
      }
      var scored, totalScore, totalPoints := ScoreAnswers(test.value.questions, answers, manualScores);
      var percentage := Percentage(totalScore, totalPoints);
      isSubmitting := true;
      request := Some(ScoreRequest(id, percentage, NotesPayload(notes), scored));
      isSubmitting := false;
    }
  }

  /** `notes.trim() || undefined` */
  function NotesPayload(notes: string): (r: Option<string>)
    ensures r.None? <==> IsBlank(notes)
    ensures r.Some? ==> r.value == Trim(notes)
  {
    if Trim(notes) == [] then None else Some(Trim(notes))
  }
}
