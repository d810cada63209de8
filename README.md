# Quiz platform: scoring and statistics, in Dafny

A model of the part of the quiz platform that has real semantics: candidates
submit an answer form for a quiz, the platform scores it and stores a
submission record, and recruiters and candidates see aggregate statistics
over the stored submissions.

- `entities.dfy` (module `Entities`): Quiz, Question and Submission as
  values that refer to each other by plain integer identities. It also holds
  `Option`, `Result` and the two failures (`QuizNotFound`, `UserNotFound`),
  plus `WellScored`, the submission invariant
  (`0 <= score <= totalQuestions`, percentage consistent with both).
- `sequences.dfy` (module `Sequences`): `Filter`, the order-preserving
  filter that the stream filters and the derived repository queries stand
  on. Its lemmas cover concatenation, multiplicity and subsequence order.
- `scoring.dfy` (module `Scoring`): the answer key `"question_" + id`, the
  exact-equality answer matcher, `Score` (how many questions are answered
  correctly, counted over the questions), the guarded `Percentage`, and
  `CountCorrectAnswers`, the scoring loop proved against `Score`.
- `statistics.dfy` (module `Statistics`): `Average`, `Maximum` and
  `Minimum` of a list of percentages. Each returns `None` on an empty list,
  as Java's `OptionalDouble` does, and the caller supplies the default.
- `quiz_store.dfy` (module `QuizStore`): the quiz and question tables as
  classes holding a sequence and an identity counter. They offer lookup by
  id, save, and questions by quiz.
- `submission_store.dfy` (module `SubmissionStore`): the append-only
  submission table. It has `Save` and the three derived queries. The
  newest-first query is a sort by submission time.
- `candidate_controller.dfy` (module `CandidateQuiz`): `SubmitQuiz` and
  `ViewResults`.
- `recruiter_controller.dfy` (module `RecruiterQuiz`): `ListQuizzes`,
  `CreateQuestion`, `ViewQuizResults` and `UpdateQuiz`.

The controllers are classes that hold their repositories as constant
fields, as the source's controllers hold final repository references.
Methods that store something name the repository they change in
`modifies`. The authenticated user arrives already resolved, as an
`Option<UserId>`; `None` means the principal has no user record. The
current time arrives as the integer `now`.

Answers are compared as whole strings with `String.equals`, so a
lower-case label is wrong. A submission also fails when the candidate
cannot be resolved; the quiz is checked first.

The asymmetric defaults for quiz results with no submissions (average 0,
highest 0, lowest 100) are kept exactly as the code has them.

## Model

| member | source | states |
|---|---|---|
| `Scoring.NatToStringRoundTrip` | src/main/java/com/quizapp/quiz_platform/controller/CandidateQuizController.java:65 | The decimal digits printed for a question id, read back, give that id. |
| `Scoring.AnswerKeyInjective` | src/main/java/com/quizapp/quiz_platform/controller/CandidateQuizController.java:65 | Distinct question ids give distinct form field names `"question_" + id`, so each question reads only its own field. |
| `Scoring.OwnFieldDecides` | src/main/java/com/quizapp/quiz_platform/controller/CandidateQuizController.java:65-66 | Whatever else the form holds, a question is answered correctly exactly when the value in its own field equals its correct label. |
| `Scoring.OtherQuestionsFieldIgnored` | src/main/java/com/quizapp/quiz_platform/controller/CandidateQuizController.java:65-66 | The value submitted for another question never changes whether a question is answered correctly. |
| `Scoring.CountCorrectAnswers` | src/main/java/com/quizapp/quiz_platform/controller/CandidateQuizController.java:61-69 | The scoring loop returns exactly `Score(questions, answers)`: the number of questions whose key `"question_" + id` is present in the form with a value equal to the correct label. |
| `Scoring.Score` | src/main/java/com/quizapp/quiz_platform/controller/CandidateQuizController.java:61-69 | The number of correct answers never exceeds the number of questions. |
| `Scoring.ScoreAppend` | src/main/java/com/quizapp/quiz_platform/controller/CandidateQuizController.java:64-69 | Each further question adds one to the score when answered correctly and nothing otherwise, so the loop increments by at most one per question. |
| `Scoring.Percentage` | src/main/java/com/quizapp/quiz_platform/controller/CandidateQuizController.java:71 | The percentage is 0 with no questions. Otherwise percentage × total = correct × 100. It lies in [0, 100] when correct ≤ total. It is 100 exactly when every question is correct, and 0 exactly when none is or there are no questions. |
| `Scoring.PercentageIsWellScored` | src/main/java/com/quizapp/quiz_platform/controller/CandidateQuizController.java:71-79 | A record whose percentage is computed from its score and total, with score ≤ total, satisfies the submission invariant. |
| `Scoring.ScorePermutation` | src/main/java/com/quizapp/quiz_platform/controller/CandidateQuizController.java:59-69 | Listing the questions in any other order gives the same score, so the unordered question query cannot change a submission's result. |
| `Scoring.AllCorrectScoresAll` | src/main/java/com/quizapp/quiz_platform/controller/CandidateQuizController.java:64-71 | A form that answers every question with its correct label scores all n questions, and 100% when n > 0. |
| `Scoring.NoAnswersScoresNothing` | src/main/java/com/quizapp/quiz_platform/controller/CandidateQuizController.java:64-71 | An empty form scores 0 and 0%. |
| `Scoring.UnrelatedKeyIgnored` | src/main/java/com/quizapp/quiz_platform/controller/CandidateQuizController.java:65-66 | Adding or changing a form field that is no question's answer key leaves the score unchanged. |
| `Scoring.FourQuestionScenario` | src/main/java/com/quizapp/quiz_platform/controller/CandidateQuizController.java:61-71 | Correct labels A, B, C, D answered A, B, X and blank give 2 of 4, 50%. A lower-case "d" for the fourth question still gives 2. |
| `Statistics.Percentages` | src/main/java/com/quizapp/quiz_platform/controller/CandidateQuizController.java:107-108 | One percentage per submission, position by position, as `mapToDouble` yields them. |
| `Statistics.PercentagesPermutation` | src/main/java/com/quizapp/quiz_platform/controller/CandidateQuizController.java:107-108 | Reordering the submissions reorders their percentages and changes nothing else. |
| `Statistics.SumPermutation` | src/main/java/com/quizapp/quiz_platform/controller/CandidateQuizController.java:107-109 | The sum behind `average()` does not depend on the order of the values. |
| `Statistics.SumBounds` | src/main/java/com/quizapp/quiz_platform/controller/CandidateQuizController.java:107-109 | A sum of n values between lo and hi lies between n × lo and n × hi. |
| `Statistics.Average` | src/main/java/com/quizapp/quiz_platform/controller/CandidateQuizController.java:107-110 | The average is absent exactly for an empty list; otherwise average × count = sum. |
| `Statistics.Maximum` | src/main/java/com/quizapp/quiz_platform/controller/CandidateQuizController.java:112-115 | The maximum is absent exactly for an empty list; otherwise it is one of the values and at least every value. |
| `Statistics.Minimum` | src/main/java/com/quizapp/quiz_platform/controller/RecruiterQuizController.java:118-121 | The minimum is absent exactly for an empty list; otherwise it is one of the values and at most every value. |
| `Statistics.AverageBetweenMinimumAndMaximum` | src/main/java/com/quizapp/quiz_platform/controller/RecruiterQuizController.java:107-121 | For a non-empty list, minimum ≤ average ≤ maximum. |
| `Statistics.AggregatesOrderIndependent` | src/main/java/com/quizapp/quiz_platform/controller/RecruiterQuizController.java:108-121 | Lists that are permutations of each other have the same average, maximum and minimum. |
| `Statistics.TwoSubmissionExample` | src/main/java/com/quizapp/quiz_platform/controller/RecruiterQuizController.java:107-121 | Percentages [40, 90] give average 65, highest 90 and lowest 40. |
| `Statistics.ThreeSubmissionExample` | src/main/java/com/quizapp/quiz_platform/controller/CandidateQuizController.java:107-115 | Percentages [80, 60, 100] give average 80 and best 100. |
| `QuizStore.QuizRepository.FindById` | src/main/java/com/quizapp/quiz_platform/repository/QuizRepository.java:6 | The lookup returns a stored quiz with that id. It returns none only when no stored quiz has that id. |
| `QuizStore.QuizRepository.Save` | src/main/java/com/quizapp/quiz_platform/repository/QuizRepository.java:6 | Saving a quiz whose id is stored replaces that entry in place. Saving one whose id is not stored appends it under a fresh id. Identities stay distinct. |
| `QuizStore.QuestionRepository.Save` | src/main/java/com/quizapp/quiz_platform/controller/RecruiterQuizController.java:90 | A new question is appended under an id no stored question has. The stored questions are kept. |
| `QuizStore.QuestionRepository.FindByQuizId` | src/main/java/com/quizapp/quiz_platform/controller/CandidateQuizController.java:59 | This returns exactly the stored questions of that quiz, in table order. |
| `QuizStore.QuestionQueriesPartition` | src/main/java/com/quizapp/quiz_platform/controller/CandidateQuizController.java:59 | Each stored question appears in its own quiz's query as often as it is stored, and in no other quiz's query. |
| `SubmissionStore.SubmissionRepository.Save` | src/main/java/com/quizapp/quiz_platform/repository/SubmissionRepository.java:8 | Exactly one record is appended, with an id no stored record has. Every existing record is unchanged. |
| `SubmissionStore.SubmissionRepository.FindByCandidateId` | src/main/java/com/quizapp/quiz_platform/repository/SubmissionRepository.java:9 | This returns exactly the stored submissions of that candidate, in storage order. The list is empty, not an error, when there are none. |
| `SubmissionStore.SubmissionRepository.FindByQuizId` | src/main/java/com/quizapp/quiz_platform/repository/SubmissionRepository.java:10 | This returns exactly the stored submissions to that quiz, in storage order. The list is empty when there are none. |
| `SubmissionStore.SubmissionRepository.FindByCandidateIdOrderBySubmissionTimeDesc` | src/main/java/com/quizapp/quiz_platform/repository/SubmissionRepository.java:11 | The result is a permutation of `FindByCandidateId` and is non-increasing in submission time. |
| `SubmissionStore.SortNewestFirst` | src/main/java/com/quizapp/quiz_platform/repository/SubmissionRepository.java:11 | Ordering by time descending gives a permutation of the input with non-increasing times. The order of equal times is left open. |
| `SubmissionStore.QuizQueriesPartition` | src/main/java/com/quizapp/quiz_platform/repository/SubmissionRepository.java:10 | Each stored submission appears in its own quiz's query as often as it is stored, and in no other quiz's query. |
| `SubmissionStore.CandidateQueriesPartition` | src/main/java/com/quizapp/quiz_platform/repository/SubmissionRepository.java:9 | Each stored submission appears in its own candidate's query as often as it is stored, and in no other candidate's query. |
| `SubmissionStore.AppendExtendsQuizQuery` | src/main/java/com/quizapp/quiz_platform/repository/SubmissionRepository.java:8-10 | After an append, the saved record's own quiz query gains that record at its end, and every other quiz query is unchanged. |
| `SubmissionStore.AppendExtendsCandidateQuery` | src/main/java/com/quizapp/quiz_platform/repository/SubmissionRepository.java:8-9 | After an append, the saved record's own candidate query gains that record at its end, and every other candidate query is unchanged. |
| `CandidateQuiz.CandidateQuizController.SubmitQuiz` | src/main/java/com/quizapp/quiz_platform/controller/CandidateQuizController.java:50-81 | An unknown quiz, and then an unresolved candidate, fail with the store unchanged. Otherwise the call appends exactly one new submission and returns it, with `score = Score(questions, answers)`, `totalQuestions = |questions|`, the guarded percentage, the given candidate, quiz and time, and a fresh id; the record satisfies the submission invariant. |
| `CandidateQuiz.CandidateQuizController.SubmitTwice` | src/main/java/com/quizapp/quiz_platform/controller/CandidateQuizController.java:74-81 | Two identical submits store two records with distinct ids and equal scores; nothing is deduplicated. |
| `CandidateQuiz.CandidateQuizController.ViewResults` | src/main/java/com/quizapp/quiz_platform/controller/CandidateQuizController.java:100-115 | An unresolved candidate fails. Otherwise the call returns the newest-first history. An empty history gives average 0 and best 0. Otherwise best is one of the percentages and at least every one, average is their mean, and average ≤ best. |
| `CandidateQuiz.ResultsIndependentOfHistoryOrder` | src/main/java/com/quizapp/quiz_platform/controller/CandidateQuizController.java:104-115 | The average and best of the newest-first history equal those of the candidate's submissions in storage order. |
| `RecruiterQuiz.RecruiterQuizController.ListQuizzes` | src/main/java/com/quizapp/quiz_platform/controller/RecruiterQuizController.java:30-34 | An unresolved recruiter fails. Otherwise the list holds exactly the stored quizzes whose recruiter id is the current recruiter's, in their original relative order. |
| `RecruiterQuiz.ListQuizzesMultiplicity` | src/main/java/com/quizapp/quiz_platform/controller/RecruiterQuizController.java:33-34 | A quiz of the recruiter appears in the list as often as in the table, and a quiz of another recruiter never appears. |
| `RecruiterQuiz.RecruiterQuizController.CreateQuestion` | src/main/java/com/quizapp/quiz_platform/controller/RecruiterQuizController.java:75-90 | An unknown quiz id fails and saves nothing. Otherwise one question is appended under a fresh id. Its text, four options and correct label are the form's, and its quiz is the looked-up quiz. |
| `RecruiterQuiz.RecruiterQuizController.ViewQuizResults` | src/main/java/com/quizapp/quiz_platform/controller/RecruiterQuizController.java:94-122 | An unknown quiz fails. With no submissions the results are average 0, highest 0 and lowest 100. Otherwise highest and lowest are percentages that bound every percentage from above and below, average is the mean, and lowest ≤ average ≤ highest. |
| `RecruiterQuiz.QuizStatisticsOrderIndependent` | src/main/java/com/quizapp/quiz_platform/controller/RecruiterQuizController.java:107-121 | Reordering the submissions does not change their average, highest or lowest percentage. |
| `RecruiterQuiz.RecruiterQuizController.UpdateQuiz` | src/main/java/com/quizapp/quiz_platform/controller/RecruiterQuizController.java:141-151 | An unknown id fails and changes nothing. Otherwise title, description and duration come from the form, while id and recruiter are kept. The quiz is replaced in place and every other quiz is unchanged. Questions live in the question table, which the call does not touch. |

## Left out

- Spring MVC plumbing is not modelled: model attributes, view names, redirects and request binding. The controller methods return their data as a `Result`.
- Authentication is replaced by an explicit identity. `findByUsername` becomes an `Option<UserId>` parameter. The user entity and its repository are not part of this model.
- DashboardController is not modelled; it only picks a redirect from the security context.
- DatabaseSeeder is not modelled; it is start-up fixture data and console output.
- Read-only page actions are not modelled, because they only look entities up for display:
  - candidate `listQuizzes`, `takeQuiz` and `viewSubmissions`. The last one is `FindByCandidateIdOrderBySubmissionTimeDesc` after user resolution.
  - recruiter `newQuizForm`, `viewQuestions`, `newQuestionForm` and `editQuizForm`.
- Recruiter `createQuiz` is not modelled: it is quiz authoring, outside scoring and statistics.
- JPA object graphs, cascades, orphan removal and transactions are not modelled. `Quiz.questions` is not a field: the questions of a quiz are the rows whose `quizId` is its id. Generated identities are a counter in each repository, starting at 1.
- The question repository is modelled only through the two calls the controllers make, `findByQuizId` and `save`, in `QuizStore.QuestionRepository`.
- `QuizStore.QuestionRepository.Save` and `SubmissionStore.SubmissionRepository.Save` model only the insertion of a new entity, which is the only way the controllers call them. The merge of an entity that already has an identity is not modelled.
- `LocalDateTime.now()` is replaced by an integer `now` parameter, so submission times are abstract integers.
- Double-precision arithmetic is modelled as exact `real` arithmetic. That covers the percentage and `DoubleStream.average`'s summation; rounding is not modelled.
- Java `int` overflow of `correctAnswers` and `totalQuestions` is not modelled. Both are bounded by the size of the question list.
- Null fields are not modelled: a quiz without a recruiter (which `listQuizzes` would dereference), a question with a null correct option, and null form values. Every string and reference field is present.
- Concurrency between simultaneous submits is not modelled; it is left to the storage layer.
- `SubmissionStore.SubmissionRepository.FindByCandidateIdOrderBySubmissionTimeDesc`: the database's order among equal timestamps is unspecified. The model keeps storage order among equal times, but its contract promises only a permutation that is non-increasing in time.
- The submission repository's `findByCandidateId` and `findByQuizId`, the question repository's `findByQuizId`, and the quiz repository's `findAll` have no ORDER BY, so the database's order for them is unspecified. The model fixes it to storage order. The statistics computed from the submission lists and the score computed from the question list are proved not to depend on that order.
