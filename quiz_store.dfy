/** The quiz and question tables, as the controllers use them: look a quiz up
    by id, list all quizzes, save a quiz, save a question, and find the
    questions of a quiz. */
module QuizStore {
  import opened Entities
  import opened Sequences

  /** The position of the quiz with identity `id`, if there is one. */
  function IndexOf(quizzes: seq<Quiz>, id: QuizId): (r: Option<nat>)
    ensures r.Some? ==> r.value < |quizzes| && quizzes[r.value].id == id
    ensures r.None? ==> forall i :: 0 <= i < |quizzes| ==> quizzes[i].id != id
  {
    if quizzes == [] then None
    else if quizzes[0].id == id then Some(0)
    else
      match IndexOf(quizzes[1..], id)
      case None => None
      case Some(i) => Some(i + 1)
  }

  class QuizRepository {
    var quizzes: seq<Quiz>
    var nextId: QuizId

    /** Identities are distinct and below the next identity to hand out. */
    ghost predicate Valid()
      reads this
    {
      && (forall i :: 0 <= i < |quizzes| ==> quizzes[i].id < nextId)
      && (forall i, j :: 0 <= i < j < |quizzes| ==> quizzes[i].id != quizzes[j].id)
    }

    constructor ()
      ensures Valid() && quizzes == []
    {
      quizzes := [];
      nextId := 1;
    }

    /** The stored quiz with identity `id`, or none. */
    function FindById(id: QuizId): (r: Option<Quiz>)
      reads this
      ensures r.Some? ==> r.value in quizzes && r.value.id == id
      ensures r.None? ==> forall i :: 0 <= i < |quizzes| ==> quizzes[i].id != id
    {
      match IndexOf(quizzes, id)
      case Some(i) => Some(quizzes[i])
      case None => None
    }

    /** Saves `quiz`: it replaces the stored quiz with the same identity in
        place, or, when there is none, is appended under a fresh identity. */
    method Save(quiz: Quiz) returns (saved: Quiz)
      requires Valid()
      modifies this
      ensures Valid()
      ensures old(IndexOf(quizzes, quiz.id)).Some? ==>
        && saved == quiz
        && quizzes == old(quizzes)[old(IndexOf(quizzes, quiz.id)).value := quiz]
      ensures old(IndexOf(quizzes, quiz.id)).None? ==>
        && saved == quiz.(id := old(nextId))
        && quizzes == old(quizzes) + [saved]
    {
      match IndexOf(quizzes, quiz.id)
      case Some(i) =>
        quizzes := quizzes[i := quiz];
        saved := quiz;
      case None =>
        saved := quiz.(id := nextId);
        quizzes := quizzes + [saved];
        nextId := nextId + 1;
    }
  }

  function BelongsTo(quizId: QuizId): Question -> bool {
    (q: Question) => q.quizId == quizId
  }

  class QuestionRepository {
    var questions: seq<Question>
    var nextId: QuestionId

    /** Identities are distinct and below the next identity to hand out. */
    ghost predicate Valid()
      reads this
    {
      && (forall i :: 0 <= i < |questions| ==> questions[i].id < nextId)
      && (forall i, j :: 0 <= i < j < |questions| ==> questions[i].id != questions[j].id)
    }

    constructor ()
      ensures Valid() && questions == []
    {
      questions := [];
      nextId := 1;
    }

    /** Saves a new question: it is appended under a fresh identity (the
        identity the argument carries is ignored, as that of a new entity). */
    method Save(question: Question) returns (saved: Question)
      requires Valid()
      modifies this
      ensures Valid()
      ensures saved == question.(id := old(nextId))
      ensures forall i :: 0 <= i < |old(questions)| ==> old(questions)[i].id != saved.id
      ensures questions == old(questions) + [saved]
    {
      saved := question.(id := nextId);
      questions := questions + [saved];
      nextId := nextId + 1;
    }

    /** The questions of quiz `quizId`, in the order they were stored. */
    function FindByQuizId(quizId: QuizId): (r: seq<Question>)
      reads this
      ensures forall q :: q in r <==> q in questions && q.quizId == quizId
      ensures IsSubsequence(r, questions)
    {
      Filter(questions, BelongsTo(quizId))
    }
  }

  /** Every stored question is returned by the query for its own quiz, as
      often as it is stored, and by no other quiz's query. */
  lemma QuestionQueriesPartition(repository: QuestionRepository, q: Question, quizId: QuizId)
    ensures multiset(repository.FindByQuizId(quizId))[q]
         == if q.quizId == quizId then multiset(repository.questions)[q] else 0
  {
    FilterMultiplicity(repository.questions, BelongsTo(quizId), q);
  }
}
