/** The post edit hook (src/hooks/useEditPost.ts): the stored secret key is
    read back and must equal the supplied key before the update is
    written. */
module UseEditPost {
  import opened Wrappers
  import opened Service
  import opened AppTypes

  datatype State = State(loading: bool, error: Option<string>)

  const Initial: State := State(false, None)

  /** The columns the update writes. */
  datatype Update = Update(
    title: string,
    content: Option<string>,
    imageUrl: Option<string>,
    secretKey: string,
    updatedAt: int,
    flag: Option<string>)

  datatype Edited = Edited(table: map<string, Post>, state: State, written: Option<Update>, ok: bool)

  /** The key check: the row was read and its secret key is exactly the
      supplied one (a row without a key never passes). */
  predicate KeyVerified(table: map<string, Post>, postId: string, secretKey: string, read: Reply) {
    read.Ok? && postId in table && table[postId].secretKey == Some(secretKey)
  }

  /** The update built from the form: the title verbatim, empty content,
      image URL and flag as `null`, the verified key, the current time. */
  function UpdateFor(data: PostFormData, secretKey: string, now: int): (u: Update)
    ensures u.title == data.title && u.secretKey == secretKey && u.updatedAt == now
    ensures u.content == OrNull(data.content)
    ensures u.imageUrl == OrNull(data.imageUrl)
    ensures u.flag == OrNull(data.flag)
  {
    Update(data.title, OrNull(data.content), OrNull(data.imageUrl), secretKey, now, OrNull(data.flag))
  }

  function Apply(p: Post, u: Update): Post {
    p.(title := u.title, content := u.content, imageUrl := u.imageUrl,
       secretKey := Some(u.secretKey), updatedAt := Some(u.updatedAt), flag := u.flag)
  }

  /** `editPost`: loading is set and the error cleared first. An unverified
      key returns false with "Invalid secret key" and writes nothing; a
      verified one writes the update, and the result is true exactly when
      the update succeeds. Loading is never reset. */
  function EditPost(
    table: map<string, Post>, state: State, postId: string, data: PostFormData,
    secretKey: string, now: int, read: Reply, update: Reply): (r: Edited)
    ensures r.state.loading
    ensures r.written.Some? <==> KeyVerified(table, postId, secretKey, read)
    ensures r.ok <==> KeyVerified(table, postId, secretKey, read) && update.Ok?
    ensures r.ok ==> r.state.error.None?
    ensures !KeyVerified(table, postId, secretKey, read) ==>
      r.table == table && r.state.error == Some(InvalidSecretKey)
    ensures r.written.Some? && !r.ok ==> r.table == table && r.state.error == Some(Message(update.fault))
    ensures r.written.Some? ==> r.written.value == UpdateFor(data, secretKey, now)
    ensures r.ok ==>
      && r.table.Keys == table.Keys
      && (forall k :: k in table && k != postId ==> r.table[k] == table[k])
      && r.table[postId] == Apply(table[postId], r.written.value)
  {
    var started := State(true, None);
    if !KeyVerified(table, postId, secretKey, read) then
      Edited(table, started.(error := Some(Message(KeyMismatch))), None, false)
    else
      var u := UpdateFor(data, secretKey, now);
      if update.Failed? then
        Edited(table, started.(error := Some(Message(update.fault))), Some(u), false)
      else
        Edited(table[postId := Apply(table[postId], u)], started, Some(u), true)
  }

  /** A successful edit never changes the stored secret key, nor the
      author, the count, the category or the creation time. */
  lemma EditKeepsSecretAndIdentity(
    table: map<string, Post>, state: State, postId: string, data: PostFormData,
    secretKey: string, now: int, read: Reply)
    requires EditPost(table, state, postId, data, secretKey, now, read, Ok).ok
    ensures var p := EditPost(table, state, postId, data, secretKey, now, read, Ok).table[postId];
      && p.secretKey == table[postId].secretKey
      && p.id == table[postId].id && p.authorId == table[postId].authorId
      && p.upvotes == table[postId].upvotes && p.category == table[postId].category
      && p.createdAt == table[postId].createdAt
  {
  }

  /** The hook starts idle, and after its first edit, whatever the outcome,
      it reports loading for good. */
  lemma LoadingStaysOnAfterFirstEdit(
    table: map<string, Post>, postId: string, data: PostFormData,
    secretKey: string, now: int, read: Reply, update: Reply)
    ensures !Initial.loading
    ensures EditPost(table, Initial, postId, data, secretKey, now, read, update).state.loading
  {
  }
}
