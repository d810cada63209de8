/** The submission table: an append-only store of scored attempts with three
    derived queries (by candidate, by quiz, and by candidate newest first). */
module SubmissionStore {
  import opened Entities
  import opened Sequences

  function ByCandidate(candidateId: UserId): Submission -> bool {
    (s: Submission) => s.candidateId == candidateId
  }

  function ByQuiz(quizId: QuizId): Submission -> bool {
    (s: Submission) => s.quizId == quizId
  }

  /** Most recent first: submission times never increase along the list. */
  ghost predicate NewestFirst(ss: seq<Submission>) {
    forall i, j :: 0 <= i < j < |ss| ==> ss[j].submissionTime <= ss[i].submissionTime
  }

  /** Inserts `s` into a newest-first list, before every entry that is at
      most as recent. Sorting inserts earlier-stored entries into the sorted
      rest, so entries with equal times keep their storage order. */
  function InsertNewestFirst(s: Submission, ss: seq<Submission>): (r: seq<Submission>)
    requires NewestFirst(ss)
    ensures NewestFirst(r)
    ensures multiset(r) == multiset(ss) + multiset{s}
    ensures |r| == |ss| + 1 && (r[0] == s || (ss != [] && r[0] == ss[0]))
  {
    if ss == [] then [s]
    else if ss[0].submissionTime <= s.submissionTime then
      PrependNewestFirst(s, ss);
      [s] + ss
    else
      var rest := InsertNewestFirst(s, ss[1..]);
      assert ss == [ss[0]] + ss[1..];
      assert rest[0].submissionTime <= ss[0].submissionTime;
      PrependNewestFirst(ss[0], rest);
      [ss[0]] + rest
  }

  /** A record at least as recent as the head of a newest-first list can be
      put in front of it. */
  lemma PrependNewestFirst(s: Submission, ss: seq<Submission>)
    requires NewestFirst(ss)
    requires ss != [] ==> ss[0].submissionTime <= s.submissionTime
    ensures NewestFirst([s] + ss)
  {
    var r := [s] + ss;
    forall i, j | 0 <= i < j < |r|
      ensures r[j].submissionTime <= r[i].submissionTime
    {
      if i > 0 {
        assert r[i] == ss[i - 1] && r[j] == ss[j - 1];
      } else {
        assert r[j] == ss[j - 1];
        assert ss[j - 1].submissionTime <= ss[0].submissionTime;
      }
    }
  }

  /** The list ordered by submission time, most recent first. The relative
      order of entries with equal times is not part of the contract. */
  function SortNewestFirst(ss: seq<Submission>): (r: seq<Submission>)
    ensures NewestFirst(r)
    ensures multiset(r) == multiset(ss)
  {
    if ss == [] then []
    else
      assert ss == [ss[0]] + ss[1..];
      InsertNewestFirst(ss[0], SortNewestFirst(ss[1..]))
  }

  class SubmissionRepository {
    var submissions: seq<Submission>
    var nextId: SubmissionId

    /** Identities are distinct and below the next identity to hand out. */
    ghost predicate Valid()
      reads this
    {
      && (forall i :: 0 <= i < |submissions| ==> submissions[i].id < nextId)
      && (forall i, j :: 0 <= i < j < |submissions| ==> submissions[i].id != submissions[j].id)
    }

    constructor ()
      ensures Valid() && submissions == []
    {
      submissions := [];
      nextId := 1;
    }

    /** Saves a new submission: it is appended under a fresh identity, and
        the records already stored stay as they are. */
    method Save(submission: Submission) returns (saved: Submission)
      requires Valid()
      modifies this
      ensures Valid()
      ensures saved == submission.(id := old(nextId))
      ensures forall i :: 0 <= i < |old(submissions)| ==> old(submissions)[i].id != saved.id
      ensures submissions == old(submissions) + [saved]
    {
      saved := submission.(id := nextId);
      submissions := submissions + [saved];
      nextId := nextId + 1;
    }

    /** The submissions of candidate `candidateId`, in storage order; empty
        when there are none. */
    function FindByCandidateId(candidateId: UserId): (r: seq<Submission>)
      reads this
      ensures forall s :: s in r <==> s in submissions && s.candidateId == candidateId
      ensures IsSubsequence(r, submissions)
    {
      Filter(submissions, ByCandidate(candidateId))
    }

    /** The submissions to quiz `quizId`, in storage order; empty when there
        are none. */
    function FindByQuizId(quizId: QuizId): (r: seq<Submission>)
      reads this
      ensures forall s :: s in r <==> s in submissions && s.quizId == quizId
      ensures IsSubsequence(r, submissions)
    {
      Filter(submissions, ByQuiz(quizId))
    }

    /** The submissions of candidate `candidateId`, most recent first. */
    function FindByCandidateIdOrderBySubmissionTimeDesc(candidateId: UserId): (r: seq<Submission>)
      reads this
      ensures multiset(r) == multiset(FindByCandidateId(candidateId))
      ensures NewestFirst(r)
    {
      SortNewestFirst(FindByCandidateId(candidateId))
    }
  }

  /** Every stored submission is returned by the query for its own quiz, as
      often as it is stored, and by no other quiz's query. */
  lemma QuizQueriesPartition(repository: SubmissionRepository, s: Submission, quizId: QuizId)
    ensures multiset(repository.FindByQuizId(quizId))[s]
         == if s.quizId == quizId then multiset(repository.submissions)[s] else 0
  {
    FilterMultiplicity(repository.submissions, ByQuiz(quizId), s);
  }

  /** Likewise for the queries by candidate. */
  lemma CandidateQueriesPartition(repository: SubmissionRepository, s: Submission, candidateId: UserId)
    ensures multiset(repository.FindByCandidateId(candidateId))[s]
         == if s.candidateId == candidateId then multiset(repository.submissions)[s] else 0
  {
    FilterMultiplicity(repository.submissions, ByCandidate(candidateId), s);
  }

  /** Appending a record extends the query for its quiz by that record, at
      the end, and leaves every other quiz's query as it was. */
  lemma {:induction false} AppendExtendsQuizQuery(submissions: seq<Submission>, saved: Submission, quizId: QuizId)
    ensures Filter(submissions + [saved], ByQuiz(quizId))
         == Filter(submissions, ByQuiz(quizId)) + if saved.quizId == quizId then [saved] else []
  {
    FilterConcat(submissions, [saved], ByQuiz(quizId));
  }

  /** Likewise for the queries by candidate. */
  lemma {:induction false} AppendExtendsCandidateQuery(submissions: seq<Submission>, saved: Submission, candidateId: UserId)
    ensures Filter(submissions + [saved], ByCandidate(candidateId))
         == Filter(submissions, ByCandidate(candidateId)) + if saved.candidateId == candidateId then [saved] else []
  {
    FilterConcat(submissions, [saved], ByCandidate(candidateId));
  }
}
