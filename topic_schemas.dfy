/** The request and response shapes of the topic endpoints. */
module TopicSchemas {
  import opened TopicModel

  /** Body of a create request: only a name, so the owner can only come from the verified caller. */
  datatype TopicCreate = TopicCreate(name: string)

  /** Body of an update request: the name is required, so an update always replaces it. */
  datatype TopicUpdate = TopicUpdate(name: string)

  /** What a caller sees of a topic: no owner. */
  datatype TopicRead = TopicRead(id: TopicId, name: string, createdAt: Time)

  /** The response for the topic stored under `id`. */
  function ReadTopic(id: TopicId, t: Topic): TopicRead {
    TopicRead(id, t.name, t.createdAt)
  }

  /** The owner never reaches the caller: topics that differ only in owner look the same. */
  lemma ReadTopicHidesOwner(id: TopicId, t: Topic, other: Uid)
    ensures ReadTopic(id, t.(userId := other)) == ReadTopic(id, t)
  {
  }

  /** Two stored topics give the same response exactly when id, name and creation time agree:
      the response shows those three fields and nothing else. */
  lemma ReadTopicShowsExactly(id: TopicId, t: Topic, id': TopicId, t': Topic)
    ensures ReadTopic(id, t) == ReadTopic(id', t') <==> id == id' && t.name == t'.name && t.createdAt == t'.createdAt
  {
  }
}
