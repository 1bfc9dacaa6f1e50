/** The comments hook (src/hooks/useComments.ts) over the camelCase
    `comments` table: loading a post's comments, and adding, deleting and
    editing one. Each operation maps the table and the hook's state to the
    new table, the new state and the boolean the hook returns. */
module UseComments {
  import opened Wrappers
  import opened Ordering
  import opened Service
  import opened AppTypes

  /** The hook's state: the local comment list, the loading flag and the
      last error message. */
  datatype State = State(comments: seq<Comment>, loading: bool, error: Option<string>)

  datatype Step = Step(table: map<string, Comment>, state: State, ok: bool)

  /** The row-to-comment transform of the hook: a field-for-field copy. */
  function FromRow(row: Comment): Comment {
    Comment(row.id, row.content, row.postId, row.authorId, row.createdAt, row.secretKey)
  }

  /** The mount effect: on success the comments become copies of the stored
      rows of `postId`, each once, oldest first; on failure the list stays
      and the error is set. Loading ends either way. */
  method Load(table: map<string, Comment>, postId: string, state: State, reply: Reply)
    returns (next: State)
    requires CommentTable(table)
    ensures !next.loading
    ensures reply.Failed? ==> next == State(state.comments, false, Some(Message(reply.fault)))
    ensures reply.Ok? ==>
      && next.error == state.error
      && DistinctRowsOf(next.comments, table, CommentId)
      && (forall i :: 0 <= i < |next.comments| ==> next.comments[i].postId == postId)
      && (forall k :: k in table && table[k].postId == postId ==> table[k] in next.comments)
      && SortedBy(next.comments, CommentCreatedAt)
  {
    if reply.Failed? {
      return State(state.comments, false, Some(Message(reply.fault)));
    }
    assert KeyedById(table, CommentId);
    var rows := SelectSorted(table, CommentId, (c: Comment) => c.postId == postId, CommentCreatedAt);
    var copies := seq(|rows|, i requires 0 <= i < |rows| => FromRow(rows[i]));
    assert copies == rows;
    next := State(copies, false, state.error);
  }

  /** A failed call sets the error, returns false and changes nothing
      else. */
  function Fail(table: map<string, Comment>, state: State, f: Fault): (s: Step)
    ensures s.table == table && !s.ok
    ensures s.state == state.(error := Some(Message(f)))
  {
    Step(table, state.(error := Some(Message(f))), false)
  }

  /** `addComment`: inserts a row with a backend-assigned id and the current
      time. On success that one comment is appended after the earlier ones
      and the result is true; the error is left as it was. */
  function AddComment(
    table: map<string, Comment>, state: State, postId: string, content: string,
    userId: string, secretKey: Option<string>, newId: string, now: int, reply: Reply): (s: Step)
    requires newId !in table
    ensures s.ok <==> reply.Ok?
    ensures s.state.loading == state.loading
    ensures !s.ok ==> s.table == table && s.state.comments == state.comments
    ensures reply.Failed? ==> s == Fail(table, state, reply.fault)
    ensures s.ok ==>
      && s.state.error == state.error
      && |s.state.comments| == |state.comments| + 1
      && s.state.comments[..|state.comments|] == state.comments
      && s.state.comments[|state.comments|] == Comment(newId, content, postId, userId, now, secretKey)
      && s.table == table[newId := Comment(newId, content, postId, userId, now, secretKey)]
  {
    if reply.Failed? then Fail(table, state, reply.fault)
    else
      var row := Comment(newId, content, postId, userId, now, secretKey);
      Step(table[newId := row], state.(comments := state.comments + [FromRow(row)]), true)
  }

  /** The secret key the existence check reads: `null` data (a missing row
      or a failed select) reads as no key. */
  function StoredKey(table: map<string, Comment>, id: string, read: Reply): Option<string> {
    if read.Ok? && id in table then table[id].secretKey else None
  }

  /** The key gate of `deleteComment`: it applies only when a non-empty key
      is supplied, and then passes only on an exact match. */
  predicate DeleteAllowed(table: map<string, Comment>, id: string, secretKey: Option<string>, read: Reply) {
    secretKey.None? || secretKey.value == "" || StoredKey(table, id, read) == secretKey
  }

  /** The local list without the entries of `id`, others in order. */
  function Without(comments: seq<Comment>, id: string): (r: seq<Comment>)
    ensures IsSubsequence(r, comments)
    ensures forall c :: c in r <==> c in comments && c.id != id
    ensures forall c :: c in comments && c.id != id ==> multiset(r)[c] == multiset(comments)[c]
  {
    Filter(comments, (c: Comment) => c.id != id)
  }

  /** `deleteComment`: a refused key returns false with "Invalid secret
      key" and touches nothing; otherwise the delete is issued, and when it
      succeeds the row leaves the table and its entries the local list. */
  function DeleteComment(
    table: map<string, Comment>, state: State, id: string, secretKey: Option<string>,
    read: Reply, delete: Reply): (s: Step)
    ensures s.state.loading == state.loading
    ensures !DeleteAllowed(table, id, secretKey, read) ==> s == Fail(table, state, KeyMismatch)
    ensures DeleteAllowed(table, id, secretKey, read) && delete.Failed? ==> s == Fail(table, state, delete.fault)
    ensures s.ok <==> DeleteAllowed(table, id, secretKey, read) && delete.Ok?
    ensures !s.ok ==> s.table == table && s.state.comments == state.comments
    ensures s.ok ==>
      && s.table == table - {id}
      && s.state.comments == Without(state.comments, id)
      && s.state.error == state.error
  {
    if !DeleteAllowed(table, id, secretKey, read) then Fail(table, state, KeyMismatch)
    else if delete.Failed? then Fail(table, state, delete.fault)
    else Step(table - {id}, state.(comments := Without(state.comments, id)), true)
  }

  /** With a non-empty key, a comment with no stored key (or no row at all)
      is never deleted. */
  lemma DeleteNeedsMatchingKey(table: map<string, Comment>, state: State, id: string, key: string, read: Reply, delete: Reply)
    requires key != ""
    requires id !in table || table[id].secretKey != Some(key)
    ensures DeleteComment(table, state, id, Some(key), read, delete) == Fail(table, state, KeyMismatch)
  {
  }

  /** Without a key the gate is skipped: anyone can delete any comment. */
  lemma DeleteWithoutKeyIsUnguarded(table: map<string, Comment>, state: State, id: string, read: Reply)
    ensures DeleteComment(table, state, id, None, read, Ok).ok
    ensures DeleteComment(table, state, id, Some(""), read, Ok).table == table - {id}
  {
  }

  /** The local list with the content of the entries of `id` replaced. */
  function WithContent(comments: seq<Comment>, id: string, content: string): (r: seq<Comment>)
    ensures |r| == |comments|
    ensures forall i :: 0 <= i < |comments| ==>
      r[i] == if comments[i].id == id then comments[i].(content := content) else comments[i]
  {
    seq(|comments|, i requires 0 <= i < |comments| =>
      if comments[i].id == id then comments[i].(content := content) else comments[i])
  }

  /** `editComment`: no key is checked. On success only the content of the
      matching row and of the matching local entries changes. */
  function EditComment(table: map<string, Comment>, state: State, id: string, content: string, reply: Reply): (s: Step)
    ensures s.ok <==> reply.Ok?
    ensures s.state.loading == state.loading
    ensures !s.ok ==> s == Fail(table, state, reply.fault)
    ensures s.ok ==>
      && s.state.error == state.error
      && s.table.Keys == table.Keys
      && (forall k :: k in table && k != id ==> s.table[k] == table[k])
      && (id in table ==> s.table[id] == table[id].(content := content))
      && s.state.comments == WithContent(state.comments, id, content)
  {
    if reply.Failed? then Fail(table, state, reply.fault)
    else
      var table' := if id in table then table[id := table[id].(content := content)] else table;
      Step(table', state.(comments := WithContent(state.comments, id, content)), true)
  }

  /** An edit keeps every field of every entry except the matching
      entries' content. */
  lemma EditChangesOnlyContent(table: map<string, Comment>, state: State, id: string, content: string, i: nat)
    requires i < |state.comments|
    ensures var c := EditComment(table, state, id, content, Ok).state.comments[i];
      && c.(content := state.comments[i].content) == state.comments[i]
      && (state.comments[i].id != id ==> c == state.comments[i])
  {
  }
}
