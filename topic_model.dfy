/** The stored Topic record: a user-owned grouping of questions. */
module TopicModel {

  /** The caller's identity: the uid the identity provider verified, used verbatim as owner. */
  type Uid = string

  /** A timestamp; the wall clock is not modelled, callers pass the current time in. */
  type Time = int

  /** Primary key of a topic: a random UUID, modelled by its numeric value. */
  datatype TopicId = TopicId(uuid: nat)

  /** A row of the topics table. The id is not a field: it is the key under which the row is stored. */
  datatype Topic = Topic(userId: Uid, name: string, createdAt: Time)

  /** The topic exists and belongs to `uid`: the one check every topic-level handler makes. */
  predicate OwnsTopic(topics: map<TopicId, Topic>, id: TopicId, uid: Uid) {
    id in topics && topics[id].userId == uid
  }

  /** Between two states of the table, no surviving topic changed its owner or its creation time. */
  predicate ImmutableFieldsKept(before: map<TopicId, Topic>, after: map<TopicId, Topic>) {
    forall id | id in before && id in after ::
      after[id].userId == before[id].userId && after[id].createdAt == before[id].createdAt
  }

  /** Over any history of steps that each keep the immutable fields, a topic present throughout
      ends with the owner and creation time it started with. */
  lemma {:induction false} TopicFieldsAlongHistory(history: seq<map<TopicId, Topic>>, id: TopicId)
    requires |history| > 0
    requires forall i | 0 <= i < |history| :: id in history[i]
    requires forall i | 0 < i < |history| :: ImmutableFieldsKept(history[i - 1], history[i])
    ensures history[|history| - 1][id].userId == history[0][id].userId
    ensures history[|history| - 1][id].createdAt == history[0][id].createdAt
    decreases |history|
  {
    if |history| > 1 {
      var prefix := history[..|history| - 1];
      TopicFieldsAlongHistory(prefix, id);
      assert ImmutableFieldsKept(history[|history| - 2], history[|history| - 1]);
    }
  }
}
