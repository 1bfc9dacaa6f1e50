/** The post detail page (src/pages/PostDetail.tsx): the reference thread
    beside a post, upvoting, adding comments, deleting a post with its secret
    key, and the reply link. Each handler maps the backend table, the page's
    local state and its inputs to the new table, the new local state and
    what the user is told. */
module PostDetail {
  import opened Wrappers
  import opened Text
  import opened Ordering
  import opened Service
  import opened ForumSchema
  import opened Toasts

  // ---------------------------------------------------------------------
  // Reference threads

  /** The thread base: the reference id without its trailing run of decimal
      digits, removed by a regular-expression replace. */
  function ThreadBase(referenceId: string): (base: string)
    ensures StartsWith(referenceId, base)
    ensures forall i :: |base| <= i < |referenceId| ==> IsDigit(referenceId[i])
    ensures |base| > 0 ==> !IsDigit(base[|base| - 1])
  {
    if |referenceId| > 0 && IsDigit(referenceId[|referenceId| - 1]) then
      ThreadBase(referenceId[..|referenceId| - 1])
    else
      referenceId
  }

  /** The base is determined by its three properties: any split of the id
      into a head that does not end in a digit and an all-digit tail has the
      base as its head. */
  lemma ThreadBaseUnique(referenceId: string, head: string)
    requires StartsWith(referenceId, head)
    requires forall i :: |head| <= i < |referenceId| ==> IsDigit(referenceId[i])
    requires |head| > 0 ==> !IsDigit(head[|head| - 1])
    ensures ThreadBase(referenceId) == head
  {
  }

  /** Stripping the digits twice is stripping them once. */
  lemma ThreadBaseIdempotent(referenceId: string)
    ensures ThreadBase(ThreadBase(referenceId)) == ThreadBase(referenceId)
  {
    var base := ThreadBase(referenceId);
    ThreadBaseUnique(base, base);
  }

  /** Thread membership, the backend's LIKE pattern read as a prefix test:
      the post has a reference id and it starts with `base`. */
  predicate InThread(base: string, p: Post) {
    p.referenceId.Some? && StartsWith(p.referenceId.value, base)
  }

  /** A post with a reference id always belongs to its own thread. */
  lemma OwnThread(p: Post)
    requires p.referenceId.Some?
    ensures InThread(ThreadBase(p.referenceId.value), p)
  {
  }

  /** The guard of the thread lookup: a post with a non-empty reference id. */
  predicate HasReference(post: Option<Post>) {
    post.Some? && post.value.referenceId.Some? && post.value.referenceId.value != ""
  }

  /** `fetchThreadPosts`: with no (or an empty) reference id nothing is
      looked up. Otherwise the base is looked up; on success the thread is
      every stored post whose reference id starts with the base, each once,
      oldest first, and on failure the previous thread list stays. */
  method FetchThreadPosts(posts: map<string, Post>, post: Option<Post>, reply: Reply, previous: seq<Post>)
    returns (lookup: Option<string>, thread: seq<Post>)
    requires PostTable(posts)
    ensures lookup.Some? <==> HasReference(post)
    ensures lookup.Some? ==> lookup.value == ThreadBase(post.value.referenceId.value)
    ensures lookup.None? || reply.Failed? ==> thread == previous
    ensures lookup.Some? && reply.Ok? ==>
      && DistinctRowsOf(thread, posts, PostId)
      && (forall i :: 0 <= i < |thread| ==> InThread(lookup.value, thread[i]))
      && (forall k :: k in posts && InThread(lookup.value, posts[k]) ==> posts[k] in thread)
      && SortedBy(thread, PostCreatedAt)
    ensures lookup.Some? && reply.Ok? && post.value.id in posts && posts[post.value.id] == post.value ==>
      post.value in thread
  {
    if !HasReference(post) {
      return None, previous;
    }
    var base := ThreadBase(post.value.referenceId.value);
    lookup := Some(base);
    if reply.Failed? {
      return lookup, previous;
    }
    assert KeyedById(posts, PostId);
    thread := SelectSorted(posts, PostId, (p: Post) => InThread(base, p), PostCreatedAt);
    OwnThread(post.value);
  }

  // ---------------------------------------------------------------------
  // Comments shown on the page

  /** `fetchComments`: on success the comments of the route's post, oldest
      first; on failure the list stays. */
  method FetchComments(comments: map<string, Comment>, routeId: string, reply: Reply, previous: seq<Comment>)
    returns (shown: seq<Comment>)
    requires CommentTable(comments)
    ensures reply.Failed? ==> shown == previous
    ensures reply.Ok? ==>
      && DistinctRowsOf(shown, comments, CommentId)
      && (forall i :: 0 <= i < |shown| ==> shown[i].postId == routeId)
      && (forall k :: k in comments && comments[k].postId == routeId ==> comments[k] in shown)
      && SortedBy(shown, CommentCreatedAt)
  {
    if reply.Failed? {
      return previous;
    }
    assert KeyedById(comments, CommentId);
    shown := SelectSorted(comments, CommentId, (c: Comment) => c.postId == routeId, CommentCreatedAt);
  }

  /** The anonymous author id: the one saved under 'userId' unless it is
      missing or empty, else a fresh random one. */
  function AuthorId(saved: Option<string>, random: string): (id: string)
    ensures saved.Some? && saved.value != "" ==> id == saved.value
    ensures saved.None? || saved.value == "" ==> id == random
  {
    if saved.Some? && saved.value != "" then saved.value else random
  }

  datatype CommentAdded = CommentAdded(
    comments: map<string, Comment>,
    shown: seq<Comment>,
    savedUserId: string,
    toast: Toast)

  /** `handleAddComment`: the author id is saved, then a comment row with a
      backend-assigned id and timestamp is inserted. On success exactly that
      row is appended to the shown list; on failure nothing changes but the
      saved author id. */
  function AddComment(
    comments: map<string, Comment>, shown: seq<Comment>, routeId: string, content: string,
    savedUserId: Option<string>, randomId: string, newId: string, now: int, reply: Reply): (r: CommentAdded)
    requires newId !in comments
    ensures r.savedUserId == AuthorId(savedUserId, randomId)
    ensures reply.Failed? ==>
      r.comments == comments && r.shown == shown && r.toast == Error("Failed to add comment")
    ensures reply.Ok? ==>
      && |r.shown| == |shown| + 1
      && r.shown[..|shown|] == shown
      && r.shown[|shown|] == Comment(newId, routeId, content, r.savedUserId, now)
      && r.comments.Keys == comments.Keys + {newId}
      && (forall k :: k in comments ==> r.comments[k] == comments[k])
      && r.comments[newId] == r.shown[|shown|]
      && r.toast == Success("Comment added!")
  {
    var userId := AuthorId(savedUserId, randomId);
    if reply.Failed? then
      CommentAdded(comments, shown, userId, Error("Failed to add comment"))
    else
      var row := Comment(newId, routeId, content, userId, now);
      CommentAdded(comments[newId := row], shown + [row], userId, Success("Comment added!"))
  }

  // ---------------------------------------------------------------------
  // Upvotes and deletion

  datatype Upvoted = Upvoted(posts: map<string, Post>, post: Option<Post>, toast: Toast)

  /** `handleUpvote`: writes the page's own count plus one into the row. On
      success the shown post differs from before only in its count, raised
      by one; on failure neither the table nor the page changes. */
  function Upvote(posts: map<string, Post>, post: Option<Post>, reply: Reply): (r: Upvoted)
    ensures post.None? || reply.Failed? ==> r.posts == posts && r.post == post
    ensures post.None? ==> r.toast == NoToast
    ensures post.Some? && reply.Failed? ==> r.toast == Error("Failed to upvote post")
    ensures post.Some? && reply.Ok? ==>
      && r.post.Some?
      && r.post.value.upvotes == post.value.upvotes + 1
      && r.post.value.(upvotes := post.value.upvotes) == post.value
      && r.posts.Keys == posts.Keys
      && (forall k :: k in posts && k != post.value.id ==> r.posts[k] == posts[k])
      && (post.value.id in posts ==>
            r.posts[post.value.id] == posts[post.value.id].(upvotes := post.value.upvotes + 1))
      && r.toast == Success("Post upvoted!")
  {
    if post.None? then Upvoted(posts, post, NoToast)
    else if reply.Failed? then Upvoted(posts, post, Error("Failed to upvote post"))
    else
      var p := post.value;
      var written := p.upvotes + 1;
      var posts' := if p.id in posts then posts[p.id := posts[p.id].(upvotes := written)] else posts;
      Upvoted(posts', Some(p.(upvotes := written)), Success("Post upvoted!"))
  }

  /** The write is absolute: whatever another client stored meanwhile, the
      row ends at the count this page saw plus one. */
  lemma UpvoteOverwritesStoredCount(posts: map<string, Post>, p: Post, stored: int)
    requires p.id in posts && posts[p.id].upvotes == stored
    ensures Upvote(posts, Some(p), Ok).posts[p.id].upvotes == p.upvotes + 1
  {
  }

  datatype DeleteOutcome = NotAttempted | InvalidKey | DeleteFailed | Deleted

  datatype PostDeleted = PostDeleted(posts: map<string, Post>, outcome: DeleteOutcome, toast: Toast)

  /** `handleDelete`: with no post or an empty key nothing happens. A key
      that differs from the post's secret key (also when the post has none)
      is refused with "Invalid secret key". Only an exactly equal key issues
      the delete, which removes the row when it succeeds and otherwise
      changes nothing and shows "Failed to delete post". */
  function DeletePost(posts: map<string, Post>, post: Option<Post>, key: string, reply: Reply): (r: PostDeleted)
    ensures post.None? || key == "" ==> r == PostDeleted(posts, NotAttempted, NoToast)
    ensures post.Some? && key != "" && post.value.secretKey != Some(key) ==>
      r == PostDeleted(posts, InvalidKey, Error(InvalidSecretKey))
    ensures r.posts != posts ==> post.Some? && post.value.secretKey == Some(key) && key != ""
    ensures r.outcome.Deleted? <==> post.Some? && key != "" && post.value.secretKey == Some(key) && reply.Ok?
    ensures r.outcome.Deleted? ==> r.posts == posts - {post.value.id} && r.toast == Success("Post deleted!")
    ensures r.outcome.DeleteFailed? ==> r.posts == posts && r.toast == Error("Failed to delete post")
    ensures post.Some? && key != "" && post.value.secretKey == Some(key) && reply.Failed? ==>
      r == PostDeleted(posts, DeleteFailed, Error("Failed to delete post"))
  {
    if post.None? || key == "" then PostDeleted(posts, NotAttempted, NoToast)
    else if Some(key) != post.value.secretKey then PostDeleted(posts, InvalidKey, Error(InvalidSecretKey))
    else if reply.Failed? then PostDeleted(posts, DeleteFailed, Error("Failed to delete post"))
    else PostDeleted(posts - {post.value.id}, Deleted, Success("Post deleted!"))
  }

  /** A post with no secret key can never be deleted from this page. */
  lemma KeylessPostIsPermanent(posts: map<string, Post>, p: Post, key: string, reply: Reply)
    requires p.secretKey.None?
    ensures DeletePost(posts, Some(p), key, reply).posts == posts
  {
  }

  // ---------------------------------------------------------------------
  // Reply link

  /** The "repost with reference" link: `/create?reference=` followed by
      the reference id when it is set and non-empty, else the post id. */
  function ReplyLink(p: Post): (link: string)
    ensures StartsWith(link, "/create?reference=")
    ensures p.referenceId.Some? && p.referenceId.value != "" ==>
      link[|"/create?reference="|..] == p.referenceId.value
    ensures p.referenceId.None? || p.referenceId.value == "" ==>
      link[|"/create?reference="|..] == p.id
  {
    var target := if p.referenceId.Some? && p.referenceId.value != "" then p.referenceId.value else p.id;
    "/create?reference=" + target
  }

  /** A post whose reference id is the reply link's target joins the
      thread of the replied-to post: with a reference id, the target shares
      its base; without one, the target is the post id, whose own thread
      the reply opens. */
  lemma ReplyJoinsThread(p: Post, q: Post)
    requires q.referenceId == Some(ReplyLink(p)[|"/create?reference="|..])
    ensures p.referenceId.Some? && p.referenceId.value != "" ==> InThread(ThreadBase(p.referenceId.value), q)
    ensures p.referenceId.None? || p.referenceId.value == "" ==> InThread(ThreadBase(p.id), q)
  {
  }
}
