/** The route handlers of the topic and question endpoints, as methods on one store that holds
    both tables. Each handler is one atomic unit of work: it either fails with an HTTP error and
    leaves the store as it was, or commits all of its changes. */
module Routers {
  import opened Wrappers
  import opened TopicModel
  import opened QuestionModel
  import opened TopicSchemas
  import opened QuestionSchemas

  /** The HTTP errors the handlers raise, with their detail text. */
  datatype HttpError = NotFound404(detail: string) | Forbidden403(detail: string)

  const TopicNotFound := NotFound404("Topic not found or access denied")
  const QuestionNotFound := NotFound404("Question not found")
  const AccessDenied := Forbidden403("Access denied")

  /** The acknowledgement messages of the two delete endpoints. */
  const TopicDeleted := "Topic and related questions deleted"
  const QuestionDeleted := "Question deleted"

  class Store {
    var topics: map<TopicId, Topic>
    var questions: map<QuestionId, Question>

    /** Every question references an existing topic, and its revision bookkeeping agrees. */
    ghost predicate Valid()
      reads this
    {
      && Intact(topics, questions)
      && forall qid | qid in questions :: RevisionConsistent(questions[qid])
    }

    constructor ()
      ensures Valid()
      ensures topics == map[] && questions == map[]
    {
      topics := map[];
      questions := map[];
    }

    // ---------------------------------------------------------------- topics

    /** POST /topics: store a new topic owned by the caller under the fresh id `id`. */
    method CreateTopic(data: TopicCreate, uid: Uid, id: TopicId, now: Time) returns (r: TopicRead)
      requires Valid()
      requires id !in topics
      modifies this
      ensures Valid()
      ensures topics == old(topics)[id := Topic(uid, data.name, now)]
      ensures questions == old(questions)
      ensures r == ReadTopic(id, topics[id])
      ensures StableStep(old(topics), old(questions), topics, questions)
    {
      var newTopic := Topic(uid, data.name, now);
      topics := topics[id := newTopic];
      r := ReadTopic(id, newTopic);
    }

    /** GET /topics: the caller's topics, and only those. */
    method ListTopics(uid: Uid) returns (r: set<TopicRead>)
      ensures forall tr | tr in r :: OwnsTopic(topics, tr.id, uid) && tr == ReadTopic(tr.id, topics[tr.id])
      ensures forall id | OwnsTopic(topics, id, uid) :: ReadTopic(id, topics[id]) in r
    {
      r := set id | id in topics && topics[id].userId == uid :: ReadTopic(id, topics[id]);
    }

    /** PUT /topics/{id}: rename one of the caller's topics. A missing topic and someone else's
        topic give the same 404. */
    method UpdateTopic(topicId: TopicId, data: TopicUpdate, uid: Uid) returns (r: Result<TopicRead, HttpError>)
      requires Valid()
      modifies this
      ensures Valid()
      ensures questions == old(questions)
      ensures !OwnsTopic(old(topics), topicId, uid) ==> r == Err(TopicNotFound) && topics == old(topics)
      ensures OwnsTopic(old(topics), topicId, uid) ==>
        && topics == old(topics)[topicId := old(topics)[topicId].(name := data.name)]
        && r == Ok(ReadTopic(topicId, topics[topicId]))
      ensures StableStep(old(topics), old(questions), topics, questions)
    {
      var topic := Get(topics, topicId);
      if topic.None? || topic.value.userId != uid {
        return Err(TopicNotFound);
      }
      var renamed := topic.value.(name := data.name);
      topics := topics[topicId := renamed];
      r := Ok(ReadTopic(topicId, renamed));
    }

    /** DELETE /topics/{id}: delete one of the caller's topics and, by cascade, all its questions.
        A missing topic and someone else's topic give the same 404. */
    method DeleteTopic(topicId: TopicId, uid: Uid) returns (r: Result<string, HttpError>)
      requires Valid()
      modifies this
      ensures Valid()
      ensures !OwnsTopic(old(topics), topicId, uid) ==>
        r == Err(TopicNotFound) && topics == old(topics) && questions == old(questions)
      ensures OwnsTopic(old(topics), topicId, uid) ==>
        && r == Ok(TopicDeleted)
        && topics == old(topics) - {topicId}
        && questions == Cascade(old(questions), topicId)
      ensures r.Ok? ==> forall qid | qid in old(questions) ::
        qid in questions <==> old(questions)[qid].topicId != topicId
      ensures StableStep(old(topics), old(questions), topics, questions)
    {
      var topic := Get(topics, topicId);
      if topic.None? || topic.value.userId != uid {
        return Err(TopicNotFound);
      }
      CascadeKeepsIntegrity(topics, questions, topicId);
      topics := topics - {topicId};
      questions := Cascade(questions, topicId);
      r := Ok(TopicDeleted);
    }

    // ------------------------------------------------------------- questions

    /** POST /topics/{topic_id}/questions: add a question, never revised, under the fresh id `id`
        to one of the caller's topics. */
    method CreateQuestion(topicId: TopicId, data: QuestionCreate, uid: Uid, id: QuestionId, now: Time)
      returns (r: Result<QuestionRead, HttpError>)
      requires Valid()
      requires id !in questions
      modifies this
      ensures Valid()
      ensures topics == old(topics)
      ensures !OwnsTopic(old(topics), topicId, uid) ==> r == Err(TopicNotFound) && questions == old(questions)
      ensures OwnsTopic(old(topics), topicId, uid) ==>
        && questions == old(questions)[id := NewQuestion(topicId, data.questionText, data.answerText, now)]
        && questions[id].revisionCount == 0 && questions[id].lastRevisedAt == None
        && r == Ok(ReadQuestion(id, questions[id]))
      ensures StableStep(old(topics), old(questions), topics, questions)
    {
      var topic := Get(topics, topicId);
      if topic.None? || topic.value.userId != uid {
        return Err(TopicNotFound);
      }
      var newQuestion := NewQuestion(topicId, data.questionText, data.answerText, now);
      questions := questions[id := newQuestion];
      r := Ok(ReadQuestion(id, newQuestion));
    }

    /** GET /topics/{topic_id}/questions: after the topic ownership check, exactly the questions
        of that topic. */
    method ListQuestions(topicId: TopicId, uid: Uid) returns (r: Result<set<QuestionRead>, HttpError>)
      ensures !OwnsTopic(topics, topicId, uid) ==> r == Err(TopicNotFound)
      ensures OwnsTopic(topics, topicId, uid) ==> r.Ok?
      ensures r.Ok? ==> forall qr | qr in r.value ::
        qr.id in QuestionsOf(questions, topicId) && qr == ReadQuestion(qr.id, questions[qr.id])
      ensures r.Ok? ==> forall qid | qid in QuestionsOf(questions, topicId) ::
        ReadQuestion(qid, questions[qid]) in r.value
    {
      var topic := Get(topics, topicId);
      if topic.None? || topic.value.userId != uid {
        return Err(TopicNotFound);
      }
      r := Ok(set qid | qid in questions && questions[qid].topicId == topicId :: ReadQuestion(qid, questions[qid]));
    }

    /** GET /questions/{id}: 404 for a missing question, 403 when its topic belongs to someone else,
        otherwise the question. */
    method GetQuestion(questionId: QuestionId, uid: Uid) returns (r: Result<QuestionRead, HttpError>)
      requires Valid()
      ensures questionId !in questions ==> r == Err(QuestionNotFound)
      ensures questionId in questions && !OwnsQuestion(topics, questions, questionId, uid) ==> r == Err(AccessDenied)
      ensures OwnsQuestion(topics, questions, questionId, uid) ==> r == Ok(ReadQuestion(questionId, questions[questionId]))
    {
      var question := Get(questions, questionId);
      if question.None? {
        return Err(QuestionNotFound);
      }
      if topics[question.value.topicId].userId != uid {
        return Err(AccessDenied);
      }
      r := Ok(ReadQuestion(questionId, question.value));
    }

    /** PUT /questions/{id}: apply a partial update to one of the caller's questions. A missing
        question and someone else's question give the same 404. */
    method UpdateQuestion(questionId: QuestionId, patch: QuestionUpdate, uid: Uid) returns (r: Result<QuestionRead, HttpError>)
      requires Valid()
      modifies this
      ensures Valid()
      ensures topics == old(topics)
      ensures !OwnsQuestion(old(topics), old(questions), questionId, uid) ==>
        r == Err(QuestionNotFound) && questions == old(questions)
      ensures OwnsQuestion(old(topics), old(questions), questionId, uid) ==>
        && questions == old(questions)[questionId := Patched(old(questions)[questionId], patch)]
        && r == Ok(ReadQuestion(questionId, questions[questionId]))
      ensures StableStep(old(topics), old(questions), topics, questions)
    {
      var question := Get(questions, questionId);
      if question.None? || topics[question.value.topicId].userId != uid {
        return Err(QuestionNotFound);
      }
      var q := question.value;
      if patch.questionText.Some? {
        q := q.(questionText := patch.questionText.value);
      }
      if patch.answerText.Some? {
        q := q.(answerText := patch.answerText.value);
      }
      questions := questions[questionId := q];
      r := Ok(ReadQuestion(questionId, q));
    }

    /** DELETE /questions/{id}: delete one of the caller's questions, and nothing else. A missing
        question and someone else's question give the same 404. */
    method DeleteQuestion(questionId: QuestionId, uid: Uid) returns (r: Result<string, HttpError>)
      requires Valid()
      modifies this
      ensures Valid()
      ensures topics == old(topics)
      ensures !OwnsQuestion(old(topics), old(questions), questionId, uid) ==>
        r == Err(QuestionNotFound) && questions == old(questions)
      ensures OwnsQuestion(old(topics), old(questions), questionId, uid) ==>
        r == Ok(QuestionDeleted) && questions == old(questions) - {questionId}
      ensures StableStep(old(topics), old(questions), topics, questions)
    {
      var question := Get(questions, questionId);
      if question.None? || topics[question.value.topicId].userId != uid {
        return Err(QuestionNotFound);
      }
      questions := questions - {questionId};
      r := Ok(QuestionDeleted);
    }

    /** POST /questions/{id}/revise: count one more revision of one of the caller's questions and
        record its time. A missing question and someone else's question give the same 404. */
    method ReviseQuestion(questionId: QuestionId, uid: Uid, now: Time) returns (r: Result<QuestionRead, HttpError>)
      requires Valid()
      modifies this
      ensures Valid()
      ensures topics == old(topics)
      ensures !OwnsQuestion(old(topics), old(questions), questionId, uid) ==>
        r == Err(QuestionNotFound) && questions == old(questions)
      ensures OwnsQuestion(old(topics), old(questions), questionId, uid) ==>
        && questions == old(questions)[questionId := Revised(old(questions)[questionId], now)]
        && questions[questionId].revisionCount == old(questions)[questionId].revisionCount + 1
        && questions[questionId].lastRevisedAt == Some(now)
        && r == Ok(ReadQuestion(questionId, questions[questionId]))
      ensures StableStep(old(topics), old(questions), topics, questions)
    {
      var question := Get(questions, questionId);
      if question.None? || topics[question.value.topicId].userId != uid {
        return Err(QuestionNotFound);
      }
      var q := question.value;
      q := q.(revisionCount := q.revisionCount + 1);
      q := q.(lastRevisedAt := Some(now));
      questions := questions[questionId := q];
      r := Ok(ReadQuestion(questionId, q));
    }
  }

  /** A session of calls on one store, checked from the handlers' contracts alone: a topic and a
      question are created, revised twice by the owner and once by someone else, and the topic's
      deletion takes the question with it. */
  method ExampleSession() {
    var store := new Store();
    var t1, q1 := TopicId(1), QuestionId(1);

    var topic := store.CreateTopic(TopicCreate("Algorithms"), "u1", t1, 100);
    assert topic.name == "Algorithms";
    var listed := store.ListTopics("u2");
    assert topic !in listed;

    var created := store.CreateQuestion(t1, QuestionCreate("What is a heap?", "A tree ..."), "u1", q1, 101);
    assert created.Ok? && created.value.revisionCount == 0 && created.value.lastRevisedAt == None;
    ghost var unrevised := store.questions[q1];

    var revised := store.ReviseQuestion(q1, "u1", 102);
    revised := store.ReviseQuestion(q1, "u1", 103);
    assert store.questions[q1] == RevisedSuccessively(unrevised, [102, 103]);
    assert revised == Ok(ReadQuestion(q1, store.questions[q1]));
    assert revised.value.revisionCount == 2 && revised.value.lastRevisedAt == Some(103);

    var foreign := store.ReviseQuestion(q1, "u2", 104);
    assert foreign == Err(QuestionNotFound) && store.questions[q1].revisionCount == 2;
    var peek := store.GetQuestion(q1, "u2");
    assert peek == Err(AccessDenied);

    var deleted := store.DeleteTopic(t1, "u1");
    assert deleted == Ok(TopicDeleted);
    var gone := store.GetQuestion(q1, "u1");
    assert gone == Err(QuestionNotFound);
  }
}
