/** The persistent entities of the quiz platform (Quiz, Question, Submission) as
    plain values. References between entities are identifiers instead of
    object-graph links: a Question names its quiz by id, a Submission names its
    candidate and its quiz by id. */
module Entities {

  type QuizId = nat
  type QuestionId = nat
  type SubmissionId = nat
  type UserId = nat

  /** Optional value, standing for a Java reference that may be absent
      (an empty Optional, or a null map lookup). */
  datatype Option<+T> = None | Some(value: T) {
    function GetOr(default: T): T {
      match this
      case Some(v) => v
      case None => default
    }
  }

  /** Why a request fails: an entity that a controller looks up does not exist. */
  datatype Error = QuizNotFound | UserNotFound

  /** The outcome of a controller action: a value, or the exception it throws. */
  datatype Result<+T> = Ok(value: T) | Err(error: Error)

  /** A quiz. Its questions are not a field: they are the questions whose
      `quizId` is this quiz's id (the inverse side of the question-to-quiz
      relation). */
  datatype Quiz = Quiz(
    id: QuizId,
    title: string,
    description: string,
    durationInMinutes: int,
    recruiterId: UserId)

  /** A multiple-choice question with four options and the label of the right one. */
  datatype Question = Question(
    id: QuestionId,
    questionText: string,
    optionA: string,
    optionB: string,
    optionC: string,
    optionD: string,
    correctOption: string,
    quizId: QuizId)

  /** One scored attempt of a candidate at a quiz. `submissionTime` is an
      abstract, totally ordered timestamp. */
  datatype Submission = Submission(
    id: SubmissionId,
    score: int,
    totalQuestions: int,
    percentage: real,
    submissionTime: int,
    candidateId: UserId,
    quizId: QuizId)

  /** The invariant of a stored submission record: the score counts correct
      answers among all questions, and the percentage lies between 0 and 100. */
  ghost predicate WellScored(s: Submission) {
    && 0 <= s.score <= s.totalQuestions
    && 0.0 <= s.percentage <= 100.0
    && (s.totalQuestions == 0 ==> s.percentage == 0.0)
    && (s.totalQuestions > 0 ==> s.percentage * s.totalQuestions as real == s.score as real * 100.0)
  }
}
