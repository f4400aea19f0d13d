# Topic and question store, modelled in Dafny

This project models the core of a small multi-tenant note-taking backend. Users own **topics**.
Each topic holds **questions**: a question/answer pair with a revision counter. Every route
handler checks that the caller owns the resource it touches. For a question the check goes
through its parent topic, because a question has no owner field of its own. Deleting a topic
deletes its questions with it.

The store is two in-memory tables, held by the class `Routers.Store`:

- `topics: map<TopicId, Topic>`. A topic has an owner (`userId`), a `name` and `createdAt`.
- `questions: map<QuestionId, Question>`. A question has `topicId`, `questionText`,
  `answerText`, `revisionCount` and `lastRevisedAt` (an `Option`).

Each route handler is a method on `Store`. It takes the caller's uid and, where needed, the
current time `now` and a fresh id. It either returns an HTTP error and leaves both tables
unchanged, or it changes the tables as the handler commits them. The class invariant
`Store.Valid()` has two parts:

- referential integrity: every question's `topicId` is a key of `topics`;
- consistent revision bookkeeping: a question has a `lastRevisedAt` exactly when its count is
  positive.

Every handler preserves `Valid()`. Every mutating handler also keeps `StableStep`: no topic
changes its owner or creation time, no question changes its topic or creation time, and no
revision count decreases. The lemmas `TopicFieldsAlongHistory` and `QuestionFieldsAlongHistory`
extend this from one step to any history of steps.

Modules and the source files they model:

| module | file | models |
|---|---|---|
| `Wrappers` | wrappers.dfy | no source file: `Option`, `Result`, and a lookup that returns None for a missing key (standing for a session's `get`) |
| `TopicModel` | topic_model.dfy | app/models/topic.py: the `Topic` row and the immutability of its owner and creation time; also the `OwnsTopic` predicate the routers' owner check is stated with |
| `QuestionModel` | question_model.dfy | app/models/question.py: the `Question` row, its defaults and its foreign key. Also the `questions` relationship of app/models/topic.py and its cascading delete, which need both record types |
| `TopicSchemas` | topic_schemas.dfy | app/schemas/topic.py: `TopicCreate`, `TopicUpdate`, `TopicRead` and the projection that drops the owner |
| `QuestionSchemas` | question_schemas.dfy | app/schemas/question.py: `QuestionCreate`, `QuestionUpdate` (optional fields), `QuestionRead`, and the meaning of a partial update |
| `Routers` | routers.dfy | app/routers/topics.py and app/routers/questions.py: the ten handlers as methods of `Store`, the owner check each handler makes (directly on the topic, or through a question's parent topic), and the HTTP errors with their detail texts |

The method `Routers.ExampleSession` replays a typical session as a client of the handlers'
contracts. Its steps: create a topic and a question, revise the question twice as the owner,
try a revision as another user (404, count unchanged) and a read as another user (403), then
delete the topic. After the delete the question is gone.

The owner field is the source's `user_id`, here `userId`.

## Model

| member | source | states |
|---|---|---|
| `Routers.Store.Valid` | app/models/question.py:13-24 | the store's invariant: the foreign key holds (`Intact`), and every question's revision count is 0 exactly when it has no last-revision time |
| `TopicModel.OwnsTopic` | app/routers/topics.py:42-44 | the owner check of the topic handlers (also topics.py:58-60, questions.py:24-26 and 45-47): the topic exists and its `userId` is the caller |
| `QuestionModel.OwnsQuestion` | app/routers/questions.py:76-78 | the owner check of the question handlers (also lines 97-99 and 112-114): the question exists and the caller owns its parent topic |
| `QuestionModel.Intact` | app/models/question.py:13-17 | the foreign key: every question's `topicId` is a key of the topics table |
| `QuestionModel.NewQuestion` | app/models/question.py:19-24 | a new row with the column defaults: count 0 and no last-revision time, so its revision bookkeeping is consistent |
| `QuestionModel.Revised` | app/routers/questions.py:116-117 | one revision: the count goes up by one, the last-revision time becomes `now`, the bookkeeping stays consistent, and no other field changes |
| `TopicSchemas.ReadTopic` | app/schemas/topic.py:11-15 | the `TopicRead` response of a stored topic: id, name and creation time, without the owner |
| `QuestionSchemas.ReadQuestion` | app/schemas/question.py:14-21 | the `QuestionRead` response of a stored question: its id and every stored field |
| `Routers.Store.CreateTopic` | app/routers/topics.py:13-23 | exactly one new key (the fresh id) is added; its owner is the caller, its name is the given name, its creation time is `now`; every other topic and every question is unchanged; the response is the new topic's projection |
| `Routers.Store.ListTopics` | app/routers/topics.py:25-33 | the result holds exactly the projections of the caller's topics, so no topic owned by another uid is in it |
| `Routers.Store.UpdateTopic` | app/routers/topics.py:35-50 | a missing topic and another user's topic both give the same 404 and leave the store unchanged; on success only that topic's `name` changes (id, owner and creation time kept), and the response is the renamed topic |
| `Routers.Store.DeleteTopic` | app/routers/topics.py:52-64 | the same 404 with no change for a missing or foreign topic; on success the topic is removed and a question survives exactly when it belongs to another topic, with the invariant kept (no orphans) |
| `Routers.Store.CreateQuestion` | app/routers/questions.py:15-36 | 404 with no change when the topic is missing or not the caller's; otherwise exactly one new question under the fresh id, with the given topic and texts, count 0 and no revision time; topics unchanged |
| `Routers.Store.ListQuestions` | app/routers/questions.py:38-49 | 404 unless the caller owns the topic; otherwise exactly the projections of the questions whose topic is that topic |
| `Routers.Store.GetQuestion` | app/routers/questions.py:51-66 | 404 when the question is absent, 403 when its topic belongs to someone else, otherwise the question's projection; the store is never changed |
| `Routers.Store.UpdateQuestion` | app/routers/questions.py:68-88 | 404 with no change when the question is missing or not the caller's; otherwise only that question changes, to its partially updated form, and the response shows it |
| `Routers.Store.DeleteQuestion` | app/routers/questions.py:90-103 | 404 with no change when the question is missing or not the caller's; otherwise exactly that key is removed; its topic and every other question remain |
| `Routers.Store.ReviseQuestion` | app/routers/questions.py:105-122 | 404 with no change when the question is missing or not the caller's; otherwise that question's count becomes old+1 and its revision time becomes `now`, nothing else changes |
| `QuestionModel.RevisedSuccessively` | app/routers/questions.py:116-117 | k revisions in a row add k to the count and leave the time of the last one (or the old time if k = 0); every other field is kept |
| `QuestionModel.RevisingOnceMore` | app/routers/questions.py:116-117 | one more revision at `now` after a run of revisions equals the run extended by `now`, so each successful revise call advances the question one step of `RevisedSuccessively` |
| `QuestionModel.RevisingNewQuestion` | app/models/question.py:21-24 | a new question (count 0, no revision time) revised k times has count k, the time of the last revision, and consistent bookkeeping |
| `QuestionModel.QuestionsOf` | app/models/topic.py:20-23 | a topic's `questions` relationship: the ids of exactly the stored questions whose `topicId` is that topic |
| `QuestionModel.Cascade` | app/models/topic.py:19-23 | deleting a topic removes exactly the questions of its `questions` relationship; every other question is kept as it was; the topic then has no questions left |
| `QuestionModel.CascadeKeepsIntegrity` | app/models/question.py:13-17 | when a topic and its cascade are deleted together, every remaining question still references an existing topic |
| `QuestionModel.OwnerIsTopicOwner` | app/models/question.py:8-26 | a question has no owner of its own: the caller owns a question exactly when the caller owns the question's topic |
| `QuestionModel.QuestionFieldsAlongHistory` | app/models/question.py:11-24 | over any history of handler steps, a question keeps its topic and creation time, and its revision count never goes down |
| `TopicModel.TopicFieldsAlongHistory` | app/models/topic.py:14-17 | over any history of handler steps, a topic keeps the owner and creation time it was created with |
| `TopicSchemas.ReadTopicHidesOwner` | app/schemas/topic.py:11-15 | the topic response never depends on the owner |
| `TopicSchemas.ReadTopicShowsExactly` | app/schemas/topic.py:11-14 | two topic responses are equal if and only if id, name and creation time agree, so the response carries exactly those three fields |
| `QuestionSchemas.ReadQuestionShowsAll` | app/schemas/question.py:14-21 | two question responses are equal if and only if id and stored question agree, so the response carries every stored field |
| `QuestionSchemas.Patched` | app/routers/questions.py:80-83 | a text is replaced exactly when the update carries a value for it (the empty string included); a `None` field keeps its old value; all other fields are kept |
| `QuestionSchemas.PatchingNothing` | app/schemas/question.py:10-12 | an update with both fields left at their default `None` changes nothing |
| `QuestionSchemas.PatchIdempotent` | app/routers/questions.py:80-83 | applying the same update twice gives the same question as applying it once |
| `QuestionSchemas.PatchingEmptyText` | app/routers/questions.py:80-81 | an explicit empty question text clears the question text and keeps the answer |

## Left out

- Authentication (app/dependencies.py): the Firebase client setup, reading credentials from the environment, the "Bearer " header check and token verification are external. The caller is a verified uid passed as a plain string. The 401 outcome is not modelled.
- Storage (app/database.py): the engine, the sessions and `commit`/`refresh` are I/O. Each handler is one atomic method on the two maps. Transaction failures (a 500) are not modelled.
- Application wiring (app/main.py): CORS, schema creation at startup, the health check and router registration.
- Concurrency: handlers run one at a time. Concurrent revisions of the same question, and whether increments can be lost, are not modelled.
- UUID generation: each create method takes a fresh id with `requires id !in topics` (or `questions`). The model does not show that two creates never draw the same id. The history lemmas therefore speak of a key that stays present throughout.
- The clock: `datetime.utcnow()` is a `now: Time` parameter. Timestamp formats are not modelled.
- Request validation: a body missing a required field is rejected by the framework before the handler runs. The schema datatypes make such bodies impossible to write, so there is no validation-error outcome.
- List order: the list handlers return sets. The source returns lists in storage order and promises no order. Ids are unique, so a set loses only the order.
- Revision count width: the count is a `nat`. The source's integer column has a width, but reaching its bound would take more than two billion revisions, so it is not modelled.
