/** Scoring of a submitted answer form against a quiz's questions: the answer
    matcher (exact, case-sensitive comparison of the submitted label with the
    question's correct label), the count of correct answers and the percentage. */
module Scoring {
  import opened Entities
  import opened Sequences

  /** Decimal digits of `n`, as Java's `Long.toString` prints a non-negative id. */
  function NatToString(n: nat): (s: string)
    ensures |s| >= 1
    ensures forall i :: 0 <= i < |s| ==> '0' <= s[i] <= '9'
  {
    if n < 10 then [Digit(n)] else NatToString(n / 10) + [Digit(n % 10)]
  }

  function Digit(d: nat): (c: char)
    requires d < 10
    ensures '0' <= c <= '9'
    ensures c as int - '0' as int == d
  {
    ['0', '1', '2', '3', '4', '5', '6', '7', '8', '9'][d]
  }

  /** The number a string of decimal digits denotes, most significant first. */
  function DecimalValue(s: string): nat
    requires forall i :: 0 <= i < |s| ==> '0' <= s[i] <= '9'
  {
    if s == [] then 0
    else DecimalValue(s[..|s| - 1]) * 10 + (s[|s| - 1] as int - '0' as int)
  }

  /** Reading the printed digits back gives the identity that was printed. */
  lemma {:induction false} NatToStringRoundTrip(n: nat)
    ensures DecimalValue(NatToString(n)) == n
  {
    if n >= 10 {
      var prefix := NatToString(n / 10);
      var s := prefix + [Digit(n % 10)];
      assert s[..|s| - 1] == prefix;
      NatToStringRoundTrip(n / 10);
    }
  }

  /** The name of the form field that carries the answer to question `id`. */
  function AnswerKey(id: QuestionId): string {
    "question_" + NatToString(id)
  }

  /** Distinct questions read distinct form fields. */
  lemma AnswerKeyInjective(a: QuestionId, b: QuestionId)
    ensures AnswerKey(a) == AnswerKey(b) ==> a == b
  {
    if AnswerKey(a) == AnswerKey(b) {
      assert NatToString(a) == AnswerKey(a)[9..];
      assert NatToString(b) == AnswerKey(b)[9..];
      NatToStringRoundTrip(a);
      NatToStringRoundTrip(b);
    }
  }

  /** The answer matcher: the answer to `q` is present and exactly equal to
      its correct option label. Absent answers and any other string (another
      label, a lower-case label, a malformed value) are wrong. */
  predicate AnsweredCorrectly(answers: map<string, string>, q: Question) {
    var key := AnswerKey(q.id);
    key in answers && answers[key] == q.correctOption
  }

  /** Whatever else the form holds, the answer to `q` is right exactly when
      the value submitted in its own field equals its correct label. */
  lemma OwnFieldDecides(answers: map<string, string>, q: Question, value: string)
    ensures AnsweredCorrectly(answers[AnswerKey(q.id) := value], q) <==> value == q.correctOption
  {
  }

  /** The value submitted for another question does not affect whether `q`
      is answered correctly. */
  lemma OtherQuestionsFieldIgnored(answers: map<string, string>, q: Question, other: QuestionId, value: string)
    requires other != q.id
    ensures AnsweredCorrectly(answers[AnswerKey(other) := value], q) == AnsweredCorrectly(answers, q)
  {
    AnswerKeyInjective(other, q.id);
  }

  function CorrectlyAnswered(answers: map<string, string>): Question -> bool {
    q => AnsweredCorrectly(answers, q)
  }

  /** The number of questions of `questions` answered correctly, counted
      over the questions (not over the answers). */
  function Score(questions: seq<Question>, answers: map<string, string>): (n: nat)
    ensures n <= |questions|
  {
    |Filter(questions, CorrectlyAnswered(answers))|
  }

  /** `correct` out of `total`, as a percentage; 0 when there are no questions. */
  function Percentage(correct: nat, total: nat): (p: real)
    ensures total == 0 ==> p == 0.0
    ensures total > 0 ==> p * total as real == correct as real * 100.0
    ensures correct <= total ==> 0.0 <= p <= 100.0
    ensures correct <= total && total > 0 ==> (p == 100.0 <==> correct == total)
    ensures p == 0.0 <==> total == 0 || correct == 0
  {
    if total > 0 then correct as real / total as real * 100.0 else 0.0
  }

  /** A record whose percentage is computed from its score and total, with
      a score no larger than the total, satisfies the submission invariant. */
  lemma PercentageIsWellScored(s: Submission)
    requires 0 <= s.score <= s.totalQuestions
    requires s.percentage == Percentage(s.score, s.totalQuestions)
    ensures WellScored(s)
  {
  }

  /** Scoring the questions one after another: the score of a longer list is
      the score of its prefix plus one when the next question is answered
      correctly. */
  lemma ScoreAppend(questions: seq<Question>, q: Question, answers: map<string, string>)
    ensures Score(questions + [q], answers)
         == Score(questions, answers) + if AnsweredCorrectly(answers, q) then 1 else 0
  {
    FilterConcat(questions, [q], CorrectlyAnswered(answers));
  }

  /** The scoring loop: walks the questions once and counts those whose
      submitted answer is present and equal to the correct label. */
  method CountCorrectAnswers(questions: seq<Question>, answers: map<string, string>)
    returns (correctAnswers: nat)
    ensures correctAnswers == Score(questions, answers)
  {
    correctAnswers := 0;
    for i := 0 to |questions|
      invariant correctAnswers == Score(questions[..i], answers)
    {
      var question := questions[i];
      var key := AnswerKey(question.id);
      ScoreAppend(questions[..i], question, answers);
      assert questions[..i + 1] == questions[..i] + [question];
      if key in answers {
        var userAnswer := answers[key];
        if userAnswer == question.correctOption {
          correctAnswers := correctAnswers + 1;
        }
      }
    }
    assert questions[..|questions|] == questions;
  }

  /** The order in which the questions are listed does not change the
      score: any permutation of the questions scores the same. */
  lemma ScorePermutation(a: seq<Question>, b: seq<Question>, answers: map<string, string>)
    requires multiset(a) == multiset(b)
    ensures Score(a, answers) == Score(b, answers)
  {
    var p := CorrectlyAnswered(answers);
    forall x: Question
      ensures multiset(Filter(a, p))[x] == multiset(Filter(b, p))[x]
    {
      FilterMultiplicity(a, p, x);
      FilterMultiplicity(b, p, x);
    }
    assert multiset(Filter(a, p)) == multiset(Filter(b, p));
    assert |Filter(a, p)| == |multiset(Filter(a, p))| == |multiset(Filter(b, p))| == |Filter(b, p)|;
  }

  /** Every question answered with its correct label scores them all. */
  lemma AllCorrectScoresAll(questions: seq<Question>, answers: map<string, string>)
    requires forall q :: q in questions ==> AnswerKey(q.id) in answers && answers[AnswerKey(q.id)] == q.correctOption
    ensures Score(questions, answers) == |questions|
    ensures |questions| > 0 ==> Percentage(Score(questions, answers), |questions|) == 100.0
  {
    FilterAll(questions, CorrectlyAnswered(answers));
  }

  /** An empty answer form scores nothing. */
  lemma NoAnswersScoresNothing(questions: seq<Question>)
    ensures Score(questions, map[]) == 0
    ensures Percentage(Score(questions, map[]), |questions|) == 0.0
  {
  }

  /** A form field that is not the answer key of any question (another
      request parameter, an answer to a question of another quiz) does not
      change the score. */
  lemma UnrelatedKeyIgnored(questions: seq<Question>, answers: map<string, string>, key: string, value: string)
    requires forall q :: q in questions ==> AnswerKey(q.id) != key
    ensures Score(questions, answers[key := value]) == Score(questions, answers)
  {
    FilterAgreeing(questions, CorrectlyAnswered(answers[key := value]), CorrectlyAnswered(answers));
  }

  /** A quiz with correct labels A, B, C, D for questions 1 to 4, answered
      A, B, X and (for question 4) not at all, scores 2 of 4, that is 50%.
      A lower-case "d" for question 4 would not change that. */
  lemma FourQuestionScenario()
    ensures
      var qs := [Question(1, "q1", "a", "b", "c", "d", "A", 7),
                 Question(2, "q2", "a", "b", "c", "d", "B", 7),
                 Question(3, "q3", "a", "b", "c", "d", "C", 7),
                 Question(4, "q4", "a", "b", "c", "d", "D", 7)];
      var answers := map["question_1" := "A", "question_2" := "B", "question_3" := "X"];
      && Score(qs, answers) == 2
      && Percentage(Score(qs, answers), |qs|) == 50.0
      && Score(qs, answers["question_4" := "d"]) == 2
  {
    var q1 := Question(1, "q1", "a", "b", "c", "d", "A", 7);
    var q2 := Question(2, "q2", "a", "b", "c", "d", "B", 7);
    var q3 := Question(3, "q3", "a", "b", "c", "d", "C", 7);
    var q4 := Question(4, "q4", "a", "b", "c", "d", "D", 7);
    var answers := map["question_1" := "A", "question_2" := "B", "question_3" := "X"];
    var answers' := answers["question_4" := "d"];
    SmallAnswerKeys();
    assert answers["question_1"] == "A";
    assert AnsweredCorrectly(answers, q1);
    assert AnsweredCorrectly(answers, q2);
    assert !AnsweredCorrectly(answers, q3);
    assert !AnsweredCorrectly(answers, q4);
    assert [q1, q2, q3, q4] == [q1, q2, q3] + [q4];
    assert [q1, q2, q3] == [q1, q2] + [q3];
    assert [q1, q2] == [q1] + [q2];
    assert [q1] == [] + [q1];
    ScoreAppend([], q1, answers);
    ScoreAppend([q1], q2, answers);
    ScoreAppend([q1, q2], q3, answers);
    ScoreAppend([q1, q2, q3], q4, answers);
    ScoreAppend([], q1, answers');
    ScoreAppend([q1], q2, answers');
    ScoreAppend([q1, q2], q3, answers');
    ScoreAppend([q1, q2, q3], q4, answers');
  }

  lemma SmallAnswerKeys()
    ensures AnswerKey(1) == "question_1"
    ensures AnswerKey(2) == "question_2"
    ensures AnswerKey(3) == "question_3"
    ensures AnswerKey(4) == "question_4"
  {
  }
}
