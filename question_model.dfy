/** The stored Question record, its foreign key to topics, and the topic-to-questions relationship
    with its cascading delete. */
module QuestionModel {
  import opened Wrappers
  import opened TopicModel

  /** Primary key of a question: a random UUID, modelled by its numeric value. */
  datatype QuestionId = QuestionId(uuid: nat)

  /** A row of the questions table. There is no owner field: a question's owner is its topic's. */
  datatype Question = Question(
    topicId: TopicId,
    questionText: string,
    answerText: string,
    revisionCount: nat,
    createdAt: Time,
    lastRevisedAt: Option<Time>)

  /** A freshly inserted question: the count starts at 0 and it has never been revised. */
  function NewQuestion(topicId: TopicId, questionText: string, answerText: string, now: Time): (q: Question)
    ensures RevisionConsistent(q) && q.lastRevisedAt.None?
  {
    Question(topicId, questionText, answerText, 0, now, None)
  }

  /** The revision bookkeeping agrees: a question has a last-revision time exactly when it was revised. */
  predicate RevisionConsistent(q: Question) {
    q.revisionCount == 0 <==> q.lastRevisedAt.None?
  }

  /** The question after one revision at time `now`: its count goes up, its bookkeeping agrees,
      and nothing but the two revision fields changes. */
  function Revised(q: Question, now: Time): (r: Question)
    ensures r.revisionCount == q.revisionCount + 1 && r.lastRevisedAt == Some(now)
    ensures RevisionConsistent(r)
    ensures r.(revisionCount := q.revisionCount, lastRevisedAt := q.lastRevisedAt) == q
  {
    q.(revisionCount := q.revisionCount + 1, lastRevisedAt := Some(now))
  }

  /** The question after one revision at each of `nows`, in order. */
  function RevisedSuccessively(q: Question, nows: seq<Time>): (r: Question)
    ensures r.revisionCount == q.revisionCount + |nows|
    ensures r.lastRevisedAt == if nows == [] then q.lastRevisedAt else Some(nows[|nows| - 1])
    ensures r.(revisionCount := q.revisionCount, lastRevisedAt := q.lastRevisedAt) == q
    decreases |nows|
  {
    if nows == [] then q
    else Revised(RevisedSuccessively(q, nows[..|nows| - 1]), nows[|nows| - 1])
  }

  /** One more revision after a run of revisions is the run extended by that time: each successful
      revise call moves a question one step along `RevisedSuccessively`. */
  lemma RevisingOnceMore(q: Question, nows: seq<Time>, now: Time)
    ensures Revised(RevisedSuccessively(q, nows), now) == RevisedSuccessively(q, nows + [now])
  {
    assert (nows + [now])[..|nows|] == nows;
  }

  /** Revising a new question k times gives count k, the time of the last revision,
      and consistent bookkeeping. */
  lemma RevisingNewQuestion(topicId: TopicId, questionText: string, answerText: string, created: Time, nows: seq<Time>)
    ensures var r := RevisedSuccessively(NewQuestion(topicId, questionText, answerText, created), nows);
      && r.revisionCount == |nows|
      && (nows != [] ==> r.lastRevisedAt == Some(nows[|nows| - 1]))
      && RevisionConsistent(r)
  {
  }

  /** The ids of the questions that belong to topic `tid` (a topic's `questions` relationship). */
  function QuestionsOf(questions: map<QuestionId, Question>, tid: TopicId): set<QuestionId> {
    set qid | qid in questions && questions[qid].topicId == tid
  }

  /** Referential integrity: every question's topic id names an existing topic. */
  predicate Intact(topics: map<TopicId, Topic>, questions: map<QuestionId, Question>) {
    forall qid | qid in questions :: questions[qid].topicId in topics
  }

  /** The question exists and its parent topic belongs to `uid`. */
  predicate OwnsQuestion(topics: map<TopicId, Topic>, questions: map<QuestionId, Question>, qid: QuestionId, uid: Uid) {
    qid in questions && OwnsTopic(topics, questions[qid].topicId, uid)
  }

  /** Under referential integrity a question's owner is exactly its parent topic's owner.
      A corollary of the definition of OwnsQuestion, with Intact supplying the topic. */
  lemma OwnerIsTopicOwner(topics: map<TopicId, Topic>, questions: map<QuestionId, Question>, qid: QuestionId, uid: Uid)
    requires Intact(topics, questions)
    requires qid in questions
    ensures OwnsQuestion(topics, questions, qid, uid) <==> topics[questions[qid].topicId].userId == uid
  {
  }

  /** The questions table after deleting topic `tid`: its questions go with it, nothing else changes. */
  function Cascade(questions: map<QuestionId, Question>, tid: TopicId): (r: map<QuestionId, Question>)
    ensures r.Keys == questions.Keys - QuestionsOf(questions, tid)
    ensures forall qid | qid in r :: r[qid] == questions[qid]
    ensures QuestionsOf(r, tid) == {}
  {
    map qid | qid in questions && questions[qid].topicId != tid :: questions[qid]
  }

  /** Deleting a topic together with its cascade leaves no orphan question. */
  lemma CascadeKeepsIntegrity(topics: map<TopicId, Topic>, questions: map<QuestionId, Question>, tid: TopicId)
    requires Intact(topics, questions)
    ensures Intact(topics - {tid}, Cascade(questions, tid))
  {
  }

  /** Between two states of the table, no surviving question changed its topic or creation time. */
  predicate FixedFieldsKept(before: map<QuestionId, Question>, after: map<QuestionId, Question>) {
    forall qid | qid in before && qid in after ::
      after[qid].topicId == before[qid].topicId && after[qid].createdAt == before[qid].createdAt
  }

  /** Between two states of the table, no surviving question's revision count went down. */
  predicate CountsNeverDecrease(before: map<QuestionId, Question>, after: map<QuestionId, Question>) {
    forall qid | qid in before && qid in after :: before[qid].revisionCount <= after[qid].revisionCount
  }

  /** Over any history of steps that each keep these two relations, a question present throughout
      keeps its topic and creation time, and its count is at least the one it started with. */
  lemma {:induction false} QuestionFieldsAlongHistory(history: seq<map<QuestionId, Question>>, qid: QuestionId)
    requires |history| > 0
    requires forall i | 0 <= i < |history| :: qid in history[i]
    requires forall i | 0 < i < |history| ::
      FixedFieldsKept(history[i - 1], history[i]) && CountsNeverDecrease(history[i - 1], history[i])
    ensures history[0][qid].revisionCount <= history[|history| - 1][qid].revisionCount
    ensures history[|history| - 1][qid].topicId == history[0][qid].topicId
    ensures history[|history| - 1][qid].createdAt == history[0][qid].createdAt
    decreases |history|
  {
    if |history| > 1 {
      var prefix := history[..|history| - 1];
      QuestionFieldsAlongHistory(prefix, qid);
      var last := |history| - 1;
      assert FixedFieldsKept(history[last - 1], history[last]) && CountsNeverDecrease(history[last - 1], history[last]);
    }
  }

  /** The step relation every handler keeps: topics keep owner and creation time, questions keep
      topic and creation time, and no revision count decreases. */
  predicate StableStep(
    topicsBefore: map<TopicId, Topic>, questionsBefore: map<QuestionId, Question>,
    topicsAfter: map<TopicId, Topic>, questionsAfter: map<QuestionId, Question>)
  {
    && ImmutableFieldsKept(topicsBefore, topicsAfter)
    && FixedFieldsKept(questionsBefore, questionsAfter)
    && CountsNeverDecrease(questionsBefore, questionsAfter)
  }
}
