/** The recruiter's side of the platform: the recruiter's own quiz list,
    adding a question to a quiz, the per-quiz result statistics, and editing
    a quiz's title, description and duration. The authenticated recruiter is
    passed in already resolved to an identity (none when the principal has no
    user record). */
module RecruiterQuiz {
  import opened Entities
  import opened Sequences
  import opened Statistics
  import opened QuizStore
  import opened SubmissionStore

  /** What the quiz results page shows: the quiz, its submissions, and their
      average, highest and lowest percentage. */
  datatype QuizResults = QuizResults(
    quiz: Quiz,
    submissions: seq<Submission>,
    averageScore: real,
    highestScore: real,
    lowestScore: real)

  function OwnedBy(recruiterId: UserId): Quiz -> bool {
    (q: Quiz) => q.recruiterId == recruiterId
  }

  class RecruiterQuizController {
    const quizRepository: QuizRepository
    const questionRepository: QuestionRepository
    const submissionRepository: SubmissionRepository

    ghost predicate Valid()
      reads quizRepository, questionRepository, submissionRepository
    {
      quizRepository.Valid() && questionRepository.Valid() && submissionRepository.Valid()
    }

    constructor (quizzes: QuizRepository, questions: QuestionRepository, submissions: SubmissionRepository)
      ensures quizRepository == quizzes
      ensures questionRepository == questions
      ensures submissionRepository == submissions
    {
      quizRepository := quizzes;
      questionRepository := questions;
      submissionRepository := submissions;
    }

    /** The quizzes owned by `recruiter`, in the order of the quiz table. */
    function ListQuizzes(recruiter: Option<UserId>): (r: Result<seq<Quiz>>)
      reads quizRepository
      ensures recruiter.None? ==> r == Err(UserNotFound)
      ensures recruiter.Some? ==>
        && r.Ok?
        && (forall q :: q in r.value <==> q in quizRepository.quizzes && q.recruiterId == recruiter.value)
        && IsSubsequence(r.value, quizRepository.quizzes)
    {
      match recruiter
      case None => Err(UserNotFound)
      case Some(id) => Ok(Filter(quizRepository.quizzes, OwnedBy(id)))
    }

    /** Adds to quiz `id` a new question made of the form's text, four
        options and correct label; the form's identity and quiz are not used. */
    method CreateQuestion(id: QuizId, form: Question) returns (r: Result<Question>)
      requires Valid()
      modifies questionRepository
      ensures Valid()
      ensures quizRepository.FindById(id).None? ==>
        r == Err(QuizNotFound) && questionRepository.questions == old(questionRepository.questions)
      ensures quizRepository.FindById(id).Some? ==>
        && r.Ok?
        && r.value.questionText == form.questionText
        && r.value.optionA == form.optionA
        && r.value.optionB == form.optionB
        && r.value.optionC == form.optionC
        && r.value.optionD == form.optionD
        && r.value.correctOption == form.correctOption
        && r.value.quizId == id
        && (forall i :: 0 <= i < |old(questionRepository.questions)| ==>
              old(questionRepository.questions)[i].id != r.value.id)
        && questionRepository.questions == old(questionRepository.questions) + [r.value]
    {
      var quiz := quizRepository.FindById(id);
      if quiz.None? {
        return Err(QuizNotFound);
      }
      var newQuestion := Question(0, form.questionText, form.optionA, form.optionB,
                                  form.optionC, form.optionD, form.correctOption, quiz.value.id);
      var saved := questionRepository.Save(newQuestion);
      return Ok(saved);
    }

    /** The submissions to quiz `id` with their average, highest and lowest
        percentage. Without submissions these are 0, 0 and 100. */
    method ViewQuizResults(id: QuizId) returns (r: Result<QuizResults>)
      ensures quizRepository.FindById(id).None? ==> r == Err(QuizNotFound)
      ensures quizRepository.FindById(id).Some? ==>
        && r.Ok?
        && r.value.quiz == quizRepository.FindById(id).value
        && r.value.submissions == submissionRepository.FindByQuizId(id)
        && var ps := Percentages(r.value.submissions);
        && (ps == [] ==>
              r.value.averageScore == 0.0 && r.value.highestScore == 0.0 && r.value.lowestScore == 100.0)
        && (ps != [] ==>
              && r.value.averageScore == Average(ps).value
              && r.value.highestScore in ps
              && (forall i :: 0 <= i < |ps| ==> ps[i] <= r.value.highestScore)
              && r.value.lowestScore in ps
              && (forall i :: 0 <= i < |ps| ==> r.value.lowestScore <= ps[i])
              && r.value.lowestScore <= r.value.averageScore <= r.value.highestScore)
    {
      var quiz := quizRepository.FindById(id);
      if quiz.None? {
        return Err(QuizNotFound);
      }
      var submissions := submissionRepository.FindByQuizId(id);
      var ps := Percentages(submissions);

      var averageScore := 0.0;
      var highestScore := 0.0;
      var lowestScore := 100.0;
      if submissions != [] {
        averageScore := Average(ps).GetOr(0.0);
        highestScore := Maximum(ps).GetOr(0.0);
        lowestScore := Minimum(ps).GetOr(100.0);
        AverageBetweenMinimumAndMaximum(ps);
      }
      return Ok(QuizResults(quiz.value, submissions, averageScore, highestScore, lowestScore));
    }

    /** Copies the form's title, description and duration onto quiz `id`
        and saves it; its identity and owner stay, and so does every other
        quiz. */
    method UpdateQuiz(id: QuizId, form: Quiz) returns (r: Result<Quiz>)
      requires Valid()
      modifies quizRepository
      ensures Valid()
      ensures old(quizRepository.FindById(id)).None? ==>
        r == Err(QuizNotFound) && quizRepository.quizzes == old(quizRepository.quizzes)
      ensures old(quizRepository.FindById(id)).Some? ==>
        var existing := old(quizRepository.FindById(id)).value;
        && r.Ok?
        && r.value.id == existing.id
        && r.value.recruiterId == existing.recruiterId
        && r.value.title == form.title
        && r.value.description == form.description
        && r.value.durationInMinutes == form.durationInMinutes
        && |quizRepository.quizzes| == |old(quizRepository.quizzes)|
        && (forall i :: 0 <= i < |quizRepository.quizzes| ==>
              quizRepository.quizzes[i] == if old(quizRepository.quizzes)[i].id == id then r.value else old(quizRepository.quizzes)[i])
    {
      var existingQuiz := quizRepository.FindById(id);
      if existingQuiz.None? {
        return Err(QuizNotFound);
      }
      var updated := existingQuiz.value.(
        title := form.title,
        description := form.description,
        durationInMinutes := form.durationInMinutes);
      var saved := quizRepository.Save(updated);
      return Ok(saved);
    }
  }

  /** The statistics do not depend on the order in which the submissions are
      listed. */
  lemma QuizStatisticsOrderIndependent(a: seq<Submission>, b: seq<Submission>)
    requires multiset(a) == multiset(b)
    ensures Average(Percentages(a)) == Average(Percentages(b))
    ensures Maximum(Percentages(a)) == Maximum(Percentages(b))
    ensures Minimum(Percentages(a)) == Minimum(Percentages(b))
  {
    PercentagesPermutation(a, b);
    AggregatesOrderIndependent(Percentages(a), Percentages(b));
  }

  /** Every quiz of the recruiter's list appears in it exactly as often as in
      the quiz table, and no quiz of another recruiter appears. */
  lemma ListQuizzesMultiplicity(controller: RecruiterQuizController, recruiterId: UserId, q: Quiz)
    ensures controller.ListQuizzes(Some(recruiterId)).Ok?
    ensures multiset(controller.ListQuizzes(Some(recruiterId)).value)[q]
         == if q.recruiterId == recruiterId then multiset(controller.quizRepository.quizzes)[q] else 0
  {
    FilterMultiplicity(controller.quizRepository.quizzes, OwnedBy(recruiterId), q);
  }
}
