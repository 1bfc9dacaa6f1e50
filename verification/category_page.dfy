/** The category page (src/pages/CategoryPage.tsx): the newest-first feed
    narrowed to the route's category by exact, case-sensitive equality. */
module CategoryPage {
  import opened Wrappers
  import opened Ordering
  import opened AppTypes

  function InCategory(category: string): Post -> bool {
    (p: Post) => p.category == Some(category)
  }

  /** `categoryPosts`: every fetched post whose category is exactly the
      route's, in fetched order; a newest-first feed stays newest-first. */
  function CategoryPosts(posts: seq<Post>, category: string): (r: seq<Post>)
    ensures IsSubsequence(r, posts)
    ensures forall p :: p in r ==> p.category == Some(category)
    ensures forall p :: p in posts && p.category == Some(category) ==> multiset(r)[p] == multiset(posts)[p]
    ensures SortedDescBy(posts, PostCreatedAt) ==> SortedDescBy(r, PostCreatedAt)
  {
    var r := Filter(posts, InCategory(category));
    DescOrderKept(r, posts, PostCreatedAt);
    r
  }

  datatype View = Skeletons | Cards(posts: seq<Post>) | NoPosts(text: string)

  /** Skeletons while loading; otherwise the category's posts, or the
      "No posts found" message exactly when there are none. */
  function Render(posts: seq<Post>, category: string, isLoading: bool): (v: View)
    ensures isLoading <==> v.Skeletons?
    ensures !isLoading ==> (v.NoPosts? <==> |CategoryPosts(posts, category)| == 0)
    ensures v.Cards? ==> v.posts == CategoryPosts(posts, category)
    ensures v.NoPosts? ==> v.text == "No posts found in this category."
  {
    var shown := CategoryPosts(posts, category);
    if isLoading then Skeletons
    else if |shown| > 0 then Cards(shown)
    else NoPosts("No posts found in this category.")
  }
}
