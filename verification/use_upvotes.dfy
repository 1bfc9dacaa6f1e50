/** The upvote hook (src/hooks/useUpvotes.ts): read the stored count, write
    it back plus one. */
module UseUpvotes {
  import opened Service
  import opened AppTypes

  datatype Upvoted = Upvoted(table: map<string, Post>, ok: bool, loading: bool)

  /** The count the read yields: the stored one, or 0 when the row is
      missing or the read fails. */
  function ReadCount(table: map<string, Post>, postId: string, read: Reply): (n: int)
    ensures read.Ok? && postId in table ==> n == table[postId].upvotes
    ensures read.Failed? || postId !in table ==> n == 0
  {
    if read.Ok? && postId in table then table[postId].upvotes else 0
  }

  /** `upvotePost`: writes only the `upvotes` column, with the read count
      plus one; true exactly when the update reports no error (also when no
      row matched); loading is false afterwards. */
  function UpvotePost(table: map<string, Post>, postId: string, read: Reply, update: Reply): (r: Upvoted)
    ensures !r.loading
    ensures r.ok <==> update.Ok?
    ensures !r.ok || postId !in table ==> r.table == table
    ensures r.ok && postId in table ==>
      && r.table == table[postId := table[postId].(upvotes := ReadCount(table, postId, read) + 1)]
  {
    if update.Failed? then Upvoted(table, false, false)
    else
      var written := ReadCount(table, postId, read) + 1;
      var table' := if postId in table then table[postId := table[postId].(upvotes := written)] else table;
      Upvoted(table', true, false)
  }

  /** Only the count changes: every other column of the row, and every
      other row, stays. */
  lemma UpvoteTouchesOnlyCount(table: map<string, Post>, postId: string, read: Reply, update: Reply)
    requires postId in table
    ensures var t := UpvotePost(table, postId, read, update).table;
      && t.Keys == table.Keys
      && (forall k :: k in table && k != postId ==> t[k] == table[k])
      && t[postId].(upvotes := table[postId].upvotes) == table[postId]
  {
  }

  /** Two calls in sequence on a stored row raise its count by exactly two. */
  lemma TwoUpvotesAddTwo(table: map<string, Post>, postId: string)
    requires postId in table
    ensures var once := UpvotePost(table, postId, Ok, Ok).table;
      UpvotePost(once, postId, Ok, Ok).table[postId].upvotes == table[postId].upvotes + 2
  {
  }

  /** A failed read followed by a successful write resets the count to 1. */
  lemma FailedReadResetsCount(table: map<string, Post>, postId: string, f: Fault)
    requires postId in table
    ensures UpvotePost(table, postId, Failed(f), Ok).table[postId].upvotes == 1
  {
  }
}
