/** The request and response shapes of the question endpoints, and what a partial update means. */
module QuestionSchemas {
  import opened Wrappers
  import opened TopicModel
  import opened QuestionModel

  /** Body of a create request: both texts are required. */
  datatype QuestionCreate = QuestionCreate(questionText: string, answerText: string)

  /** Body of an update request: each field is optional, and None means "leave unchanged". */
  datatype QuestionUpdate = QuestionUpdate(questionText: Option<string>, answerText: Option<string>)

  /** An update body with every field left at its default. */
  const NoChanges := QuestionUpdate(None, None)

  /** What a caller sees of a question; lastRevisedAt is None until the first revision. */
  datatype QuestionRead = QuestionRead(
    id: QuestionId,
    topicId: TopicId,
    questionText: string,
    answerText: string,
    revisionCount: nat,
    createdAt: Time,
    lastRevisedAt: Option<Time>)

  /** The response for the question stored under `id`. */
  function ReadQuestion(id: QuestionId, q: Question): QuestionRead {
    QuestionRead(id, q.topicId, q.questionText, q.answerText, q.revisionCount, q.createdAt, q.lastRevisedAt)
  }

  /** The response hides nothing: two stored questions give the same response exactly when
      they are the same question under the same id. */
  lemma ReadQuestionShowsAll(id: QuestionId, q: Question, id': QuestionId, q': Question)
    ensures ReadQuestion(id, q) == ReadQuestion(id', q') <==> id == id' && q == q'
  {
  }

  /** The question after applying a partial update: a field is replaced exactly when the update
      carries a value for it (the empty string included); everything else is kept. */
  function Patched(q: Question, patch: QuestionUpdate): (r: Question)
    ensures patch.questionText.None? ==> r.questionText == q.questionText
    ensures patch.questionText.Some? ==> r.questionText == patch.questionText.value
    ensures patch.answerText.None? ==> r.answerText == q.answerText
    ensures patch.answerText.Some? ==> r.answerText == patch.answerText.value
    ensures r.(questionText := q.questionText, answerText := q.answerText) == q
  {
    q.(questionText := patch.questionText.GetOr(q.questionText),
       answerText := patch.answerText.GetOr(q.answerText))
  }

  /** An update with no fields set changes nothing. A corollary of the contract of Patched. */
  lemma PatchingNothing(q: Question)
    ensures Patched(q, NoChanges) == q
  {
  }

  /** Sending the same update twice has the effect of sending it once. */
  lemma PatchIdempotent(q: Question, patch: QuestionUpdate)
    ensures Patched(Patched(q, patch), patch) == Patched(q, patch)
  {
  }

  /** An explicit empty question text clears that text and leaves the answer alone,
      unlike an omitted one. A corollary of the contract of Patched. */
  lemma PatchingEmptyText(q: Question)
    ensures Patched(q, QuestionUpdate(Some(""), None)).questionText == ""
    ensures Patched(q, QuestionUpdate(Some(""), None)).answerText == q.answerText
  {
  }
}
