/** The camelCase record schema of src/lib/types.ts, used by the hooks and
    the feed components. Optional text form fields hold "" when absent:
    every handler treats `undefined` and "" alike (both are falsy). */
module AppTypes {
  import opened Wrappers
  import ForumSchema

  /** A post row as the hooks read and write it. `content` and `category`
      are declared non-optional, but the hooks write `null` into them. */
  datatype Post = Post(
    id: string,
    title: string,
    content: Option<string>,
    imageUrl: Option<string>,
    createdAt: int,
    updatedAt: Option<int>,
    authorId: string,
    upvotes: int,
    secretKey: Option<string>,
    category: Option<string>,
    flag: Option<string>)

  datatype Comment = Comment(
    id: string,
    content: string,
    postId: string,
    authorId: string,
    createdAt: int,
    secretKey: Option<string>)

  datatype PostFormData = PostFormData(
    title: string,
    content: string,
    imageUrl: string,
    secretKey: string,
    category: string,
    flag: string)

  datatype PrimaryColor = Indigo | Blue | Purple | Rose | Emerald
  datatype FontSize = Small | Medium | Large
  datatype CardStyle = Minimal | Bordered | Elevated

  datatype ThemeSettings = ThemeSettings(
    colorScheme: ForumSchema.ColorScheme,
    primaryColor: PrimaryColor,
    fontSize: FontSize,
    showPreviewContent: bool,
    cardStyle: CardStyle)

  function PostId(p: Post): string { p.id }
  function CommentId(c: Comment): string { c.id }
  function CommentCreatedAt(c: Comment): int { c.createdAt }
  function PostCreatedAt(p: Post): int { p.createdAt }

  ghost predicate PostTable(posts: map<string, Post>) {
    forall k :: k in posts ==> posts[k].id == k
  }

  ghost predicate CommentTable(comments: map<string, Comment>) {
    forall k :: k in comments ==> comments[k].id == k
  }
}
