/** The candidate's side of the platform: submitting an answer form for
    scoring, and the candidate's own result statistics. The authenticated
    user is passed in already resolved to an identity (none when the
    principal has no user record); the current time is passed in as `now`. */
module CandidateQuiz {
  import opened Entities
  import opened Scoring
  import opened Statistics
  import opened QuizStore
  import opened SubmissionStore

  /** What the results page shows: the history, most recent first, its
      average percentage and its best percentage. */
  datatype CandidateResults = CandidateResults(
    submissions: seq<Submission>,
    averageScore: real,
    bestScore: real)

  class CandidateQuizController {
    const quizRepository: QuizRepository
    const questionRepository: QuestionRepository
    const submissionRepository: SubmissionRepository

    ghost predicate Valid()
      reads quizRepository, questionRepository, submissionRepository
    {
      quizRepository.Valid() && questionRepository.Valid() && submissionRepository.Valid()
    }

    constructor (quizzes: QuizRepository, questions: QuestionRepository, submissions: SubmissionRepository)
      ensures quizRepository == quizzes
      ensures questionRepository == questions
      ensures submissionRepository == submissions
    {
      quizRepository := quizzes;
      questionRepository := questions;
      submissionRepository := submissions;
    }

    /** Scores the answer form `answers` (field "question_<id>" to option
        label) against the questions of quiz `id` and stores one new
        submission. An unknown quiz, then an unresolved candidate, fails
        before anything is stored. */
    method SubmitQuiz(id: QuizId, answers: map<string, string>, candidate: Option<UserId>, now: int)
      returns (r: Result<Submission>)
      requires Valid()
      modifies submissionRepository
      ensures Valid()
      ensures quizRepository.FindById(id).None? ==>
        r == Err(QuizNotFound) && submissionRepository.submissions == old(submissionRepository.submissions)
      ensures quizRepository.FindById(id).Some? && candidate.None? ==>
        r == Err(UserNotFound) && submissionRepository.submissions == old(submissionRepository.submissions)
      ensures quizRepository.FindById(id).Some? && candidate.Some? ==>
        var questions := questionRepository.FindByQuizId(id);
        && r.Ok?
        && r.value.score == Score(questions, answers)
        && r.value.totalQuestions == |questions|
        && r.value.percentage == Percentage(Score(questions, answers), |questions|)
        && WellScored(r.value)
        && r.value.candidateId == candidate.value
        && r.value.quizId == id
        && r.value.submissionTime == now
        && (forall i :: 0 <= i < |old(submissionRepository.submissions)| ==>
              old(submissionRepository.submissions)[i].id != r.value.id)
        && submissionRepository.submissions == old(submissionRepository.submissions) + [r.value]
    {
      var quiz := quizRepository.FindById(id);
      if quiz.None? {
        return Err(QuizNotFound);
      }
      if candidate.None? {
        return Err(UserNotFound);
      }
      var questions := questionRepository.FindByQuizId(id);

      var correctAnswers := CountCorrectAnswers(questions, answers);
      var totalQuestions := |questions|;
      var score := Percentage(correctAnswers, totalQuestions);
      var submission := Submission(0, correctAnswers, totalQuestions, score, now, candidate.value, quiz.value.id);
      var saved := submissionRepository.Save(submission);
      PercentageIsWellScored(saved);
      return Ok(saved);
    }

    /** The candidate's history, most recent first, with its average and its
        best percentage; both are 0 for an empty history. */
    function ViewResults(candidate: Option<UserId>): (r: Result<CandidateResults>)
      reads submissionRepository
      ensures candidate.None? ==> r == Err(UserNotFound)
      ensures candidate.Some? ==>
        && r.Ok?
        && r.value.submissions == submissionRepository.FindByCandidateIdOrderBySubmissionTimeDesc(candidate.value)
        && var ps := Percentages(r.value.submissions);
        && (ps == [] ==> r.value.averageScore == 0.0 && r.value.bestScore == 0.0)
        && (ps != [] ==>
              && r.value.bestScore in ps
              && (forall i :: 0 <= i < |ps| ==> ps[i] <= r.value.bestScore)
              && r.value.averageScore == Average(ps).value
              && r.value.averageScore <= r.value.bestScore)
    {
      match candidate
      case None => Err(UserNotFound)
      case Some(c) =>
        var submissions := submissionRepository.FindByCandidateIdOrderBySubmissionTimeDesc(c);
        var ps := Percentages(submissions);
        var averageScore := Average(ps).GetOr(0.0);
        var bestScore := Maximum(ps).GetOr(0.0);
        assert ps != [] ==> averageScore <= bestScore by {
          if ps != [] {
            AverageBetweenMinimumAndMaximum(ps);
          }
        }
        Ok(CandidateResults(submissions, averageScore, bestScore))
    }

    /** Submitting twice with the same answers stores two distinct records
        with equal scores: submissions are never deduplicated. */
    method SubmitTwice(id: QuizId, answers: map<string, string>, candidate: UserId, now: int)
      returns (first: Result<Submission>, second: Result<Submission>)
      requires Valid()
      requires quizRepository.FindById(id).Some?
      modifies submissionRepository
      ensures Valid()
      ensures first.Ok? && second.Ok?
      ensures first.value.id != second.value.id
      ensures first.value.score == second.value.score
      ensures first.value.percentage == second.value.percentage
      ensures submissionRepository.submissions
           == old(submissionRepository.submissions) + [first.value, second.value]
    {
      first := SubmitQuiz(id, answers, Some(candidate), now);
      second := SubmitQuiz(id, answers, Some(candidate), now);
      assert first.value in submissionRepository.submissions[..|submissionRepository.submissions| - 1];
    }
  }

  /** The statistics of the results page do not depend on the order of the
      history: they are those of the candidate's submissions in any order. */
  lemma ResultsIndependentOfHistoryOrder(repository: SubmissionRepository, candidate: UserId)
    ensures
      var ordered := Percentages(repository.FindByCandidateIdOrderBySubmissionTimeDesc(candidate));
      var stored := Percentages(repository.FindByCandidateId(candidate));
      Average(ordered) == Average(stored) && Maximum(ordered) == Maximum(stored)
  {
    PercentagesPermutation(
      repository.FindByCandidateIdOrderBySubmissionTimeDesc(candidate),
      repository.FindByCandidateId(candidate));
    AggregatesOrderIndependent(
      Percentages(repository.FindByCandidateIdOrderBySubmissionTimeDesc(candidate)),
      Percentages(repository.FindByCandidateId(candidate)));
  }
}
