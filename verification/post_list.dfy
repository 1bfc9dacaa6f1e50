/** The home feed (src/components/posts/PostList.tsx): a case-insensitive
    title search over the fetched posts, then the matches grouped by
    category into the record the component renders. */
module PostList {
  import opened Text
  import opened Ordering
  import opened AppTypes

  /** The search test: the lower-cased title contains the lower-cased
      query. */
  predicate TitleMatches(query: string, p: Post) {
    Contains(ToLower(p.title), ToLower(query))
  }

  function Matching(query: string): Post -> bool {
    (p: Post) => TitleMatches(query, p)
  }

  /** `filteredPosts`: the posts whose title matches, each as often as it
      was fetched, in fetched order. */
  function Search(posts: seq<Post>, query: string): (r: seq<Post>)
    ensures IsSubsequence(r, posts)
    ensures forall p :: p in r <==> p in posts && TitleMatches(query, p)
    ensures forall p :: p in posts && TitleMatches(query, p) ==> multiset(r)[p] == multiset(posts)[p]
  {
    Filter(posts, Matching(query))
  }

  /** An empty query keeps every post. */
  lemma EmptyQueryKeepsAll(posts: seq<Post>)
    ensures Search(posts, "") == posts
  {
    forall p | p in posts ensures Matching("")(p) {
      assert OccursAt(ToLower(p.title), ToLower(""), 0);
    }
    FilterAll(posts, Matching(""));
  }

  /** The record key a post is grouped under: its category, and the text
      "null" for a post stored without one (JavaScript's property-key
      conversion). */
  function GroupKey(p: Post): string {
    if p.category.Some? then p.category.value else "null"
  }

  function KeyIs(k: string): Post -> bool {
    (p: Post) => GroupKey(p) == k
  }

  /** The posts of group `k`, in list order. */
  function Members(xs: seq<Post>, k: string): seq<Post> {
    Filter(xs, KeyIs(k))
  }

  /** The property names every object literal inherits from
      `Object.prototype` (ECMAScript, section 20.1.3). Read from `{}`, each
      gives a function, or the prototype itself for `__proto__`: a truthy
      value without a `push` method. */
  const InheritedNames: set<string> := {
    "constructor", "hasOwnProperty", "isPrototypeOf", "propertyIsEnumerable",
    "toLocaleString", "toString", "valueOf", "__proto__",
    "__defineGetter__", "__defineSetter__", "__lookupGetter__", "__lookupSetter__"}

  /** What the `reduce` ends with: the record it built, or a thrown
      TypeError. */
  datatype Grouping = Built(groups: map<string, seq<Post>>) | Threw

  /** `groupedPosts`: the `reduce` over `{}` that pushes each post, left to
      right, onto the array under its key. An own key always holds a
      non-empty array, so the guard creates an array only for a fresh key.
      An inherited key already reads as truthy, so no array is created and
      the `push` throws. */
  function Group(xs: seq<Post>): (g: Grouping)
    ensures g.Built? ==> forall k :: k in g.groups ==> |g.groups[k]| > 0
    decreases |xs|
  {
    if |xs| == 0 then Built(map[])
    else
      var acc := Group(xs[..|xs| - 1]);
      var p := xs[|xs| - 1];
      var k := GroupKey(p);
      if acc.Threw? then Threw
      else if k in acc.groups then Built(acc.groups[k := acc.groups[k] + [p]])
      else if k in InheritedNames then Threw
      else Built(acc.groups[k := [p]])
  }

  /** The `reduce` throws exactly when some listed post is keyed by an
      inherited name; a record it builds has no inherited key. */
  lemma {:induction false} GroupThrowsIff(xs: seq<Post>)
    ensures Group(xs).Threw? <==> exists p :: p in xs && GroupKey(p) in InheritedNames
    ensures Group(xs).Built? ==> forall k :: k in Group(xs).groups ==> k !in InheritedNames
    decreases |xs|
  {
    if |xs| > 0 {
      var init := xs[..|xs| - 1];
      var p := xs[|xs| - 1];
      assert xs == init + [p];
      GroupThrowsIff(init);
      if Group(xs).Threw? && Group(init).Built? {
        assert GroupKey(p) in InheritedNames;
      }
    }
  }

  /** When the `reduce` succeeds, the groups are keyed by exactly the keys
      of the listed posts, and group `k` is the sublist of the posts with
      key `k`. */
  lemma GroupContents(xs: seq<Post>)
    ensures Group(xs).Built? ==> forall k :: k in Group(xs).groups <==> KeyListed(xs, k)
    ensures Group(xs).Built? ==> forall k :: k in Group(xs).groups ==> Group(xs).groups[k] == Members(xs, k)
    ensures Group(xs).Built? ==> forall k :: k !in Group(xs).groups ==> Members(xs, k) == []
  {
    if Group(xs).Built? {
      BuiltContents(xs, Group(xs).groups);
    }
  }

  lemma {:induction false} BuiltContents(xs: seq<Post>, g: map<string, seq<Post>>)
    requires Group(xs) == Built(g)
    ensures forall k :: k in g <==> KeyListed(xs, k)
    ensures forall k :: k in g ==> g[k] == Members(xs, k)
    ensures forall k :: k !in g ==> Members(xs, k) == []
    decreases |xs|
  {
    if |xs| > 0 {
      var init := xs[..|xs| - 1];
      var p := xs[|xs| - 1];
      assert xs == init + [p];
      assert Group(init).Built?;
      var acc := Group(init).groups;
      BuiltContents(init, acc);
      var q := GroupKey(p);
      assert Group(xs) == (if q in acc then Built(acc[q := acc[q] + [p]]) else Built(acc[q := [p]]));
      forall k ensures Members(xs, k) == Members(init, k) + (if q == k then [p] else []) {
        FilterSnoc(init, p, KeyIs(k));
      }
      forall k | k in g ensures g[k] == Members(xs, k) {
        if k != q {
          assert g[k] == acc[k];
        }
      }
      forall k | k !in g ensures Members(xs, k) == [] {
        assert k != q && k !in acc;
      }
      forall k ensures KeyListed(xs, k) <==> KeyListed(init, k) || k == q {
        KeyListedSnoc(init, p, k);
      }
    }
  }

  /** Some listed post has key `k`. */
  ghost predicate KeyListed(xs: seq<Post>, k: string) {
    exists p :: p in xs && GroupKey(p) == k
  }

  lemma KeyListedSnoc(xs: seq<Post>, p: Post, k: string)
    ensures KeyListed(xs + [p], k) <==> KeyListed(xs, k) || GroupKey(p) == k
  {
    if KeyListed(xs, k) {
      var r :| r in xs && GroupKey(r) == k;
      assert r in xs + [p];
    }
    if GroupKey(p) == k {
      assert p in xs + [p];
    }
  }

  /** When the `reduce` succeeds, every listed post lies in the group of its
      key and in no other. */
  lemma EachPostInOneGroup(xs: seq<Post>, p: Post, k: string)
    requires p in xs
    ensures Group(xs).Built? ==> GroupKey(p) in Group(xs).groups && p in Group(xs).groups[GroupKey(p)]
    ensures Group(xs).Built? && k != GroupKey(p) && k in Group(xs).groups ==> p !in Group(xs).groups[k]
  {
    if Group(xs).Built? {
      var g := Group(xs).groups;
      BuiltContents(xs, g);
      var m := Members(xs, GroupKey(p));
      assert KeyIs(GroupKey(p))(p);
      assert multiset(m)[p] == multiset(xs)[p] > 0;
      assert KeyListed(xs, GroupKey(p));
      if k in g && k != GroupKey(p) {
        assert !KeyIs(k)(p);
        assert p !in Members(xs, k);
      }
    }
  }

  /** The distinct keys of `xs`, in order of first appearance. */
  function Keys(xs: seq<Post>): (ks: seq<string>)
    decreases |xs|
  {
    if |xs| == 0 then []
    else
      var ks := Keys(xs[..|xs| - 1]);
      var k := GroupKey(xs[|xs| - 1]);
      if k in ks then ks else ks + [k]
  }

  /** The total size of the groups named in `ks`. */
  function SizeSum(groups: map<string, seq<Post>>, ks: seq<string>): nat {
    if |ks| == 0 then 0
    else (if ks[0] in groups then |groups[ks[0]]| else 0) + SizeSum(groups, ks[1..])
  }

  ghost predicate Distinct(ks: seq<string>) {
    forall i, j :: 0 <= i < j < |ks| ==> ks[i] != ks[j]
  }

  /** Growing one group by one post grows the sum over distinct keys
      holding it by one, and leaves a sum without it unchanged. */
  lemma {:induction false} SizeSumGrow(g: map<string, seq<Post>>, g': map<string, seq<Post>>, ks: seq<string>, k: string)
    requires Distinct(ks)
    requires k in g' && |g'[k]| == (if k in g then |g[k]| else 0) + 1
    requires forall j :: j != k ==> (j in g <==> j in g') && (j in g ==> g'[j] == g[j])
    ensures SizeSum(g', ks) == SizeSum(g, ks) + (if k in ks then 1 else 0)
    decreases |ks|
  {
    if |ks| > 0 {
      assert Distinct(ks[1..]);
      SizeSumGrow(g, g', ks[1..], k);
      if ks[0] == k {
        assert k !in ks[1..];
      }
    }
  }

  /** When the `reduce` succeeds, the group sizes add up to the number of
      grouped posts, counting each key once. */
  lemma {:induction false} GroupSizesSum(xs: seq<Post>)
    ensures Distinct(Keys(xs))
    ensures Group(xs).Built? ==> forall k :: k in Keys(xs) <==> k in Group(xs).groups
    ensures Group(xs).Built? ==> SizeSum(Group(xs).groups, Keys(xs)) == |xs|
    decreases |xs|
  {
    if |xs| > 0 {
      var init := xs[..|xs| - 1];
      var k := GroupKey(xs[|xs| - 1]);
      GroupSizesSum(init);
      if Group(xs).Built? {
        var g := Group(init).groups;
        var g' := Group(xs).groups;
        var ks := Keys(init);
        SizeSumGrow(g, g', ks, k);
        if k !in ks {
          SizeSumGrow(g, g', ks + [k], k);
          assert Distinct(ks + [k]);
          SizeSumSnoc(g, ks, k);
          SizeSumSnoc(g', ks, k);
        }
      }
    }
  }

  lemma {:induction false} SizeSumSnoc(g: map<string, seq<Post>>, ks: seq<string>, k: string)
    ensures SizeSum(g, ks + [k]) == SizeSum(g, ks) + (if k in g then |g[k]| else 0)
    decreases |ks|
  {
    if |ks| == 0 {
      assert [k][1..] == [];
    } else {
      assert (ks + [k])[1..] == ks[1..] + [k];
      SizeSumSnoc(g, ks[1..], k);
    }
  }

  /** When the `reduce` succeeds, the record is empty exactly when no post
      matched. */
  lemma GroupEmptyIff(xs: seq<Post>)
    ensures Group(xs).Built? ==> (|Group(xs).groups| == 0 <==> |xs| == 0)
  {
    if |xs| > 0 && Group(xs).Built? {
      assert GroupKey(xs[|xs| - 1]) in Group(xs).groups;
    }
  }

  /** `Crashed` stands for the render throwing. */
  datatype View = Crashed | Skeletons | Groups(groups: map<string, seq<Post>>) | EmptyMessage(text: string)

  /** What the feed shows. The grouping runs before the loading test, so a
      matching post keyed by an inherited name crashes the render even
      while loading. Otherwise: skeletons while loading, then the groups of
      the matching posts, or, exactly when nothing matched, a message that
      depends on whether a query was typed. */
  function Render(posts: seq<Post>, query: string, isLoading: bool): (v: View)
    ensures v.Crashed? <==> exists p :: p in posts && TitleMatches(query, p) && GroupKey(p) in InheritedNames
    ensures !v.Crashed? ==> (isLoading <==> v.Skeletons?)
    ensures !v.Crashed? && !isLoading ==> (v.EmptyMessage? <==> |Search(posts, query)| == 0)
    ensures v.Groups? ==> Group(Search(posts, query)) == Built(v.groups) && |v.groups| > 0
    ensures v.EmptyMessage? && query != "" ==> v.text == "No posts found matching your search."
    ensures v.EmptyMessage? && query == "" ==> v.text == "No posts yet. Be the first to create one!"
  {
    var g := Group(Search(posts, query));
    GroupThrowsIff(Search(posts, query));
    GroupEmptyIff(Search(posts, query));
    if g.Threw? then Crashed
    else if isLoading then Skeletons
    else if |g.groups| > 0 then Groups(g.groups)
    else if query != "" then EmptyMessage("No posts found matching your search.")
    else EmptyMessage("No posts yet. Be the first to create one!")
  }

  /** A matching post in the category `constructor` crashes the feed,
      whether or not it is loading. */
  lemma InheritedCategoryCrashes(p: Post, query: string, isLoading: bool)
    requires GroupKey(p) == "constructor" && TitleMatches(query, p)
    ensures Render([p], query, isLoading) == Crashed
  {
    assert p in [p];
  }
}
