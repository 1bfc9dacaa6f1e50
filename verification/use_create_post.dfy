/** The post creation hook (src/hooks/useCreatePost.ts): shape the insert
    payload from the form, insert it, and open the new post. */
module UseCreatePost {
  import opened Wrappers
  import opened Service
  import opened AppTypes

  datatype State = State(loading: bool, error: Option<string>)

  /** The inserted columns. */
  datatype Payload = Payload(
    title: string,
    content: Option<string>,
    imageUrl: Option<string>,
    secretKey: Option<string>,
    authorId: string,
    upvotes: int,
    category: Option<string>)

  datatype Created = Created(table: map<string, Post>, state: State, navigateTo: Option<string>)

  /** The payload: the title verbatim, the author id given, no upvotes, and
      every empty optional field as `null`. The form's flag is not sent. */
  function PayloadFor(data: PostFormData, userId: string): (p: Payload)
    ensures p.title == data.title && p.authorId == userId && p.upvotes == 0
    ensures p.content == OrNull(data.content) && p.imageUrl == OrNull(data.imageUrl)
    ensures p.secretKey == OrNull(data.secretKey) && p.category == OrNull(data.category)
  {
    Payload(data.title, OrNull(data.content), OrNull(data.imageUrl), OrNull(data.secretKey),
            userId, 0, OrNull(data.category))
  }

  /** The row the backend stores for a payload, with its own id and time. */
  function RowFor(p: Payload, newId: string, now: int): Post {
    Post(newId, p.title, p.content, p.imageUrl, now, None, p.authorId, p.upvotes, p.secretKey, p.category, None)
  }

  /** `createPost`: the error is cleared first. On success the row is
      stored and the page moves to `/post/<new id>`; on failure nothing is
      stored, there is no navigation and the error is set. Loading is false
      afterwards. */
  function CreatePost(
    table: map<string, Post>, data: PostFormData, userId: string,
    newId: string, now: int, reply: Reply): (r: Created)
    requires newId !in table
    ensures !r.state.loading
    ensures r.navigateTo.Some? <==> reply.Ok?
    ensures reply.Ok? ==>
      && r.navigateTo.value == "/post/" + newId
      && r.state.error.None?
      && r.table == table[newId := RowFor(PayloadFor(data, userId), newId, now)]
    ensures reply.Failed? ==> r.table == table && r.state.error == Some(Message(reply.fault))
  {
    if reply.Failed? then Created(table, State(false, Some(Message(reply.fault))), None)
    else
      var row := RowFor(PayloadFor(data, userId), newId, now);
      Created(table[newId := row], State(false, None), Some("/post/" + newId))
  }

  /** A new post starts with no upvotes and no flag, whatever the form
      held. */
  lemma NewPostHasNoVotesNorFlag(table: map<string, Post>, data: PostFormData, userId: string, newId: string, now: int)
    requires newId !in table
    ensures var p := CreatePost(table, data, userId, newId, now, Ok).table[newId];
      p.upvotes == 0 && p.flag.None? && p.title == data.title && p.authorId == userId
  {
  }
}
