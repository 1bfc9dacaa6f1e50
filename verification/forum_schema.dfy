/** The snake_case record schema of the backend's `posts` and `comments`
    tables, and the feed preference record, as declared in
    src/lib/supabase.ts. Timestamps are instants, modelled as integers. */
module ForumSchema {
  import opened Wrappers

  datatype PostFlag = TechQuestion | Framework | Frontend | Backend | Technology

  /** The string value of a flag, as stored. */
  function FlagValue(f: PostFlag): string {
    match f
    case TechQuestion => "TECH QUESTION"
    case Framework => "FRAMEWORK"
    case Frontend => "FRONTEND"
    case Backend => "BACKEND"
    case Technology => "TECHNOLOGY"
  }

  /** A row of `posts`: id, title, content, image_url, video_url,
      reference_id, upvotes, created_at, user_id, secret_key, flag. */
  datatype Post = Post(
    id: string,
    title: string,
    content: Option<string>,
    imageUrl: Option<string>,
    videoUrl: Option<string>,
    referenceId: Option<string>,
    upvotes: int,
    createdAt: int,
    userId: string,
    secretKey: Option<string>,
    flag: Option<PostFlag>)

  /** A row of `comments`: id, post_id, content, user_id, created_at. */
  datatype Comment = Comment(
    id: string,
    postId: string,
    content: string,
    userId: string,
    createdAt: int)

  datatype ColorScheme = Light | Dark | System

  datatype UserPreferences = UserPreferences(
    theme: ColorScheme,
    showContentOnFeed: bool,
    showImagesOnFeed: bool,
    showVideosOnFeed: bool)

  function PostId(p: Post): string { p.id }
  function PostCreatedAt(p: Post): int { p.createdAt }
  function CommentId(c: Comment): string { c.id }
  function CommentCreatedAt(c: Comment): int { c.createdAt }

  /** The backend's tables, each row stored under its own id. */
  ghost predicate PostTable(posts: map<string, Post>) {
    forall k :: k in posts ==> posts[k].id == k
  }

  ghost predicate CommentTable(comments: map<string, Comment>) {
    forall k :: k in comments ==> comments[k].id == k
  }
}
