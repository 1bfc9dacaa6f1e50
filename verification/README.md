# Forum front-end logic, modelled in Dafny

The forum is a React front-end over a hosted table backend: posts with an
optional reference id (which threads reposts together), an optional secret
key (which guards deletion and editing), an upvote count and a category or
flag; comments attached to posts; and browser-side preferences for the feed
and the theme. This project models the sequential logic beneath the
rendering: the handlers of the post page and the data hooks, the feed's
search and grouping, media URL handling, the form guards, and the
preference and theme state.

Every handler is a pure function (or, where a loop over the table is
needed, a method) from the backend tables, the component's local state and
its inputs to the new tables, the new local state and what the component
reports (its boolean result, toast, error text or navigation target).

- The backend is a `map<string, Row>` keyed by row id. Each backend call
  takes a `Reply` argument, either `Ok` or `Failed(fault)`, so that every
  error path is explicit. A fault's message is shown only when the thrown
  value is an `Error`, and "An unknown error occurred" otherwise
  (`Service.Message`).
- Two row schemas coexist, as in the source: the snake_case schema of
  `src/lib/supabase.ts` (`ForumSchema`, used by the post page) and the
  camelCase one of `src/lib/types.ts` (`AppTypes`, used by the hooks and
  the feed). Each module uses the schema its source file imports.
- Timestamps are integers, and a server-side `order` is stated as the
  sortedness of the result.
- Optional form strings are `string`, with `""` for an absent value, so
  `x || null` is `Service.OrNull`.
- Whether `new URL(u)` accepts a string is a predicate parameter. Whether
  the system prefers a dark scheme is a boolean parameter.
- `localStorage` is a map from keys to JSON entries: blank, a value, or
  malformed text (`Storage`).

Shared modules: `Wrappers` (Option), `Text` (JavaScript `trim`, ASCII
`toLowerCase`, `includes`, prefix and suffix tests), `Ordering` (filter,
subsequences, sortedness, and selecting the sorted matching rows of a
table), `Service`, `Toasts`, `Storage`, `ForumSchema` and `AppTypes`. Every other
module follows one source file.

Behaviours of the source that the model reproduces on purpose:
- The feed's grouping builds into `{}`. A post whose category is a name
  inherited from `Object.prototype`, such as `constructor`, makes the
  `push` throw, and the feed crashes (`PostList.Crashed`).
- A bare 11-character YouTube id matches the second pattern of
  `getYouTubeVideoId`. That pattern has no capture group, so no id comes
  back and the URL is rejected.
- `useEditPost` sets `loading` and never resets it.
- A comment delete with an empty or absent key skips the key check.
- Editing a comment checks no key.
- The edit form never holds a flag, so every edit saved through it writes
  the flag as `null`.
- The upvote on the post page writes the page's own count plus one,
  whatever the row holds.
- Reading the saved theme has no `catch`, so malformed saved text makes
  the hook throw (`UseTheme.ParseThrows`).

## Model

| member | source | states |
|---|---|---|
| Text.Trim | src/components/MediaUpload.tsx:110 | `trim` returns a contiguous piece of the input with no JavaScript white space at either end, everything cut off before and after it is white space, and it is empty exactly when the input is all white space |
| Text.ToLower | src/components/posts/PostList.tsx:23 | lower-casing keeps the length and maps each character to its ASCII lower case |
| Text.Contains | src/components/posts/PostList.tsx:23 | `includes` holds exactly when the needle occurs at some position of the text |
| Ordering.Filter | src/components/posts/PostList.tsx:22-24 | `Array.filter` keeps an order-preserving sublist: it contains exactly the kept elements, each as often as in the input |
| Ordering.SelectSorted | src/pages/PostDetail.tsx:63-67 | a select with an `order(..., ascending)` yields each matching row of the table exactly once, only matching rows, sorted by the key ascending |
| Ordering.DescOrderKept | src/hooks/usePosts.ts:15-18 | filtering a newest-first list leaves it newest-first |
| Service.OrNull | src/hooks/useCreatePost.ts:18 | `s \|\| null` is null exactly for the empty string and otherwise the string itself |
| Storage.Load | src/hooks/useFeedPreferences.tsx:14-15 | a read finds a parsed value exactly when the key holds JSON, a parse failure exactly when the key holds malformed text, and nothing otherwise |
| Storage.Save | src/hooks/useFeedPreferences.tsx:23 | after a save the key reads back the saved value, and every other key reads as before |
| PostDetail.ThreadBase | src/pages/PostDetail.tsx:60 | the base is a prefix of the reference id, the removed tail is all decimal digits, and the base does not end in a digit |
| PostDetail.ThreadBaseUnique | src/pages/PostDetail.tsx:60 | those three properties determine the base, so the removed run is the maximal trailing run of digits |
| PostDetail.ThreadBaseIdempotent | src/pages/PostDetail.tsx:60 | stripping the trailing digits twice gives the same base as stripping them once |
| PostDetail.OwnThread | src/pages/PostDetail.tsx:60-66 | a post with a reference id always falls inside the thread of its own base |
| PostDetail.FetchThreadPosts | src/pages/PostDetail.tsx:56-74 | a lookup happens exactly when the post has a non-empty reference id, for its base. With no lookup or a failed lookup the previous thread list stays. On success the thread holds every stored post whose reference id starts with the base, each once, and nothing else, oldest first, and, when the table still holds the viewed post as shown, the viewed post is among them |
| PostDetail.FetchComments | src/pages/PostDetail.tsx:76-88 | on success the shown comments are exactly the stored comments of the route's post, each once, oldest first; on failure the list stays |
| PostDetail.AuthorId | src/pages/PostDetail.tsx:107-109 | the comment author is the saved user id unless it is missing or empty, else the fresh random id |
| PostDetail.AddComment | src/pages/PostDetail.tsx:106-122 | the author id is saved either way. On success exactly one new row is stored and appended after the earlier comments, which keep their order, with "Comment added!". On failure the table and list are unchanged and "Failed to add comment" is shown |
| PostDetail.Upvote | src/pages/PostDetail.tsx:90-104 | with no post nothing happens. On failure nothing changes and "Failed to upvote post" is shown. On success the shown post differs only in its count, raised by one, the stored row gets that count, other rows stay, and "Post upvoted!" is shown |
| PostDetail.UpvoteOverwritesStoredCount | src/pages/PostDetail.tsx:93-96 | the stored count after a successful upvote is the page's count plus one, whatever the row held |
| PostDetail.DeletePost | src/pages/PostDetail.tsx:124-140 | with no post or an empty key nothing happens. A key that differs from the stored secret key, also when the post has none, is refused with "Invalid secret key" and the table is unchanged. The row is removed exactly when the key is equal and the delete succeeds. A failed delete changes nothing and shows "Failed to delete post" |
| PostDetail.KeylessPostIsPermanent | src/pages/PostDetail.tsx:125-130 | a post stored without a secret key can never be deleted from the post page |
| PostDetail.ReplyLink | src/pages/PostDetail.tsx:174 | the reply link is `/create?reference=` followed by the reference id when it is non-empty, else the post id |
| PostDetail.ReplyJoinsThread | src/pages/PostDetail.tsx:174 | a post whose reference id is the link's target falls in the replied-to post's thread, or, for a post without a reference, in the thread based on its id |
| UseComments.Load | src/hooks/useComments.ts:10-45 | loading ends either way. On success the comments are field-for-field copies of the stored rows of the post, each once, oldest first. On failure the list stays and the error message is set |
| UseComments.Fail | src/hooks/useComments.ts:77-84 | a failed call returns false, sets the error message, and changes neither the table nor the list |
| UseComments.AddComment | src/hooks/useComments.ts:47-85 | the call returns true exactly when the insert succeeds. Then exactly one comment with the given content, author and key is stored and appended after the earlier ones, which keep their order. A failure returns false, sets the error message, and leaves the list and table unchanged |
| UseComments.Without | src/hooks/useComments.ts:107 | the list after a delete is the old list without the entries of that id, the others in their original order and multiplicity |
| UseComments.DeleteComment | src/hooks/useComments.ts:87-117 | a key gate that refuses returns false with "Invalid secret key" and touches nothing. The call returns true exactly when the gate passes and the delete succeeds, and then the row leaves the table and its entries leave the list. A failed delete after the gate returns false, sets the error message, and changes nothing else |
| UseComments.DeleteNeedsMatchingKey | src/hooks/useComments.ts:89-98 | with a non-empty key, a comment whose stored key differs, or that is missing, is not deleted and the call fails with "Invalid secret key" |
| UseComments.DeleteWithoutKeyIsUnguarded | src/hooks/useComments.ts:89-104 | with an empty or absent key no key is checked and any comment is deleted |
| UseComments.WithContent | src/hooks/useComments.ts:128-132 | the local edit keeps the list's length and replaces only the content of entries with the matching id |
| UseComments.EditComment | src/hooks/useComments.ts:119-142 | no key is checked. The call returns true exactly when the update succeeds, and then only the content of the matching row and entries changes. A failure changes nothing but the error |
| UseComments.EditChangesOnlyContent | src/hooks/useComments.ts:128-132 | an edit keeps every field of every entry except the content of the matching entries |
| UseEditPost.UpdateFor | src/hooks/useEditPost.ts:26-36 | the update writes the title verbatim, empty content, image URL and flag as null, the supplied key and the current time |
| UseEditPost.EditPost | src/hooks/useEditPost.ts:9-48 | loading is set and stays set. An update is written exactly when the row was read and its secret key equals the supplied one; otherwise the result is false with "Invalid secret key" and nothing is written. The result is true exactly when that update succeeds, with no error left. A failed update sets its message |
| UseEditPost.LoadingStaysOnAfterFirstEdit | src/hooks/useEditPost.ts:6-10 | the hook starts with loading off, and after its first edit, whatever the outcome, loading stays on |
| UseEditPost.EditKeepsSecretAndIdentity | src/hooks/useEditPost.ts:21-32 | a successful edit never changes the stored secret key, nor the row's author, count, category or creation time |
| UseUpvotes.ReadCount | src/hooks/useUpvotes.ts:10-18 | the count read is the stored one, or 0 when the row is missing or the read fails |
| UseUpvotes.UpvotePost | src/hooks/useUpvotes.ts:7-30 | only the row's count is written, as the read count plus one. The result is true exactly when the update reports no error. Loading is false afterwards |
| UseUpvotes.UpvoteTouchesOnlyCount | src/hooks/useUpvotes.ts:16-19 | every other column of the row, and every other row, keeps its value |
| UseUpvotes.TwoUpvotesAddTwo | src/hooks/useUpvotes.ts:10-19 | two sequential upvotes of a stored row raise its count by exactly two |
| UseUpvotes.FailedReadResetsCount | src/hooks/useUpvotes.ts:18 | a failed read followed by a successful write sets the count to 1 |
| UseCreatePost.PayloadFor | src/hooks/useCreatePost.ts:16-24 | the payload has the title verbatim, the given author id, zero upvotes, and null for each empty optional field |
| UseCreatePost.CreatePost | src/hooks/useCreatePost.ts:12-45 | loading is false afterwards. On success exactly the new row is stored, the error is clear, and the page moves to `/post/<new id>`. On failure nothing is stored, there is no navigation, and the error is set |
| UseCreatePost.NewPostHasNoVotesNorFlag | src/hooks/useCreatePost.ts:16-24 | the insert sends zero upvotes and no flag, whatever the form held, with the title and author as given |
| MediaUpload.IdRun | src/components/MediaUpload.tsx:25 | the greedy id run stops exactly at the first `&`, newline, `?` or `#` |
| MediaUpload.FirstMatch | src/components/MediaUpload.tsx:25 | the search finds the first position at which one of the three markers is followed by a character other than the four stop characters, or reports that there is none |
| MediaUpload.VideoId | src/components/MediaUpload.tsx:23-34 | an id is captured exactly when some marker is followed by a character other than the four stop characters `&`, newline, `?` and `#`. It is then the non-empty run after the leftmost such marker, ending at a stop character or the end. Without a marker, a bare 11-character id matches only the group-less pattern |
| MediaUpload.BareIdCapturesNothing | src/components/MediaUpload.tsx:26-31 | a bare 11-character id contains no marker, so no id is returned for it |
| MediaUpload.ValidateUrl | src/components/MediaUpload.tsx:36-50 | an image URL is valid exactly when it parses and ends in an image extension, ignoring case. A video URL is valid exactly when it has a YouTube id, or it parses and ends in a video extension |
| MediaUpload.BareIdRejected | src/components/MediaUpload.tsx:42 | a bare 11-character id is never a valid video URL |
| MediaUpload.ProcessVideoUrl | src/components/MediaUpload.tsx:52-58 | a URL with a captured id becomes the embed URL of that id; any other URL is returned unchanged |
| MediaUpload.EmbedUrlCapturesId | src/components/MediaUpload.tsx:55 | an embed URL built from an id captures that same id again |
| MediaUpload.ProcessVideoUrlIdempotent | src/components/MediaUpload.tsx:52-58 | normalising an already normalised URL changes nothing |
| MediaUpload.Initial | src/components/MediaUpload.tsx:18-21 | the picker starts idle and closed, with the current URL as the field text and, when non-empty, as the preview |
| MediaUpload.SubmitUrl | src/components/MediaUpload.tsx:108-131 | the input is trimmed. Empty or invalid input reports nothing, changes no state and shows its error. A valid image URL is reported trimmed, a valid video URL normalised, and it becomes the preview and closes the field |
| MediaUpload.SubmittedVideoUrlIsNormal | src/components/MediaUpload.tsx:126-128 | a reported video URL is already in normal form |
| MediaUpload.CheckFile | src/components/MediaUpload.tsx:63-77 | a file is passed on to upload exactly when its MIME type has the kind's prefix, with uploading still on; any other file is refused with the kind's message, and uploading is off after these early returns |
| MediaUpload.ImagePickerRefusesWhatImageInputForwards | src/components/MediaUpload.tsx:69-72 | a non-image file within the size limit is refused by the image picker, while the plain image input forwards it |
| MediaUpload.ClearMedia | src/components/MediaUpload.tsx:133-138 | clearing removes the preview, empties and closes the URL field, and reports the empty string |
| MediaUpload.ClearedPickerAsksForUrl | src/components/MediaUpload.tsx:133-138 | a cleared picker is the first render without a current URL, upload flag aside, and submitting it reports nothing and asks for a URL |
| ImageUpload.FileChange | src/components/posts/ImageUpload.tsx:10-20 | no file changes nothing. A file over 5242880 bytes sets the size error and is not forwarded. Any other file, of any type, clears the error and is forwarded once |
| ImageUpload.ForwardedWithinLimit | src/components/posts/ImageUpload.tsx:13-18 | a forwarded file is the chosen one and never larger than 5242880 bytes |
| ImageUpload.ErrorReflectsLastFile | src/components/posts/ImageUpload.tsx:10-20 | after any series of file choices no error shows exactly when the last chosen file was within the limit; cancelled choices keep the error as it was |
| PostList.Search | src/components/posts/PostList.tsx:22-24 | the filtered list is an order-preserving sublist holding exactly the posts whose lower-cased title contains the lower-cased query, each as often as fetched |
| PostList.EmptyQueryKeepsAll | src/components/posts/PostList.tsx:22-24 | an empty query keeps every post |
| PostList.Group | src/components/posts/PostList.tsx:34-40 | the `reduce` over `{}` either throws or builds a record in which every key holds a non-empty array, which is why the guard creates an array only for a key not seen before |
| PostList.GroupThrowsIff | src/components/posts/PostList.tsx:34-40 | the `reduce` throws exactly when some filtered post's category is a name inherited from `Object.prototype` (`constructor`, `toString`, `__proto__` and the rest), and a record it builds has no such key |
| PostList.GroupContents | src/components/posts/PostList.tsx:34-40 | when the `reduce` does not throw, the groups are keyed by exactly the categories of the listed posts, and each group is the order-preserving sublist of the posts of its category |
| PostList.EachPostInOneGroup | src/components/posts/PostList.tsx:34-40 | when the `reduce` does not throw, every listed post lies in the group of its category and in no other group |
| PostList.GroupSizesSum | src/components/posts/PostList.tsx:34-40 | when the `reduce` does not throw, the group sizes add up to the number of filtered posts |
| PostList.GroupEmptyIff | src/components/posts/PostList.tsx:65 | when the `reduce` does not throw, there are no groups exactly when no post matched |
| PostList.Render | src/components/posts/PostList.tsx:34-85 | the render crashes exactly when a matching post has a category inherited from `Object.prototype`, also while loading, since the grouping runs first. Otherwise skeletons show exactly while loading, then the groups of the matches, or, exactly when nothing matched, the message for a typed query or for an empty feed |
| PostList.InheritedCategoryCrashes | src/components/posts/PostList.tsx:35-38 | a single matching post in the category `constructor` crashes the feed, loading or not |
| CategoryPage.CategoryPosts | src/pages/CategoryPage.tsx:12 | the category list is the order-preserving sublist of every fetched post whose category equals the route's exactly, case included. A newest-first feed stays newest-first |
| CategoryPage.Render | src/pages/CategoryPage.tsx:19-35 | skeletons show exactly while loading. Otherwise the category's posts show, or "No posts found in this category." exactly when there are none |
| EditPostForm.Prefill | src/components/posts/EditPostForm.tsx:26-34 | once the post is loaded, the form takes its title and its content and image URL, with missing ones as ""; the key and errors stay |
| EditPostForm.Validate | src/components/posts/EditPostForm.tsx:36-53 | the form is valid exactly when the title has a non-space character, the image URL is empty or parses, and the key is non-empty. Each failing condition records its own message, and passing fields record none |
| EditPostForm.Change | src/components/posts/EditPostForm.tsx:64-73 | a change sets only the named field and clears only that field's error |
| EditPostForm.Submit | src/components/posts/EditPostForm.tsx:75-84 | the errors are recorded, and `editPost` is called exactly when validation passes. The page moves to `/post/<postId>` exactly when that call returns true |
| EditPostForm.FormStaysFlagFree | src/components/posts/EditPostForm.tsx:16-34 | no flag ever enters the form's data |
| EditPostForm.FormEditClearsFlag | src/hooks/useEditPost.ts:34 | a successful edit through the form stores the post with no flag |
| KeyedCommentForm.Start | src/components/comments/CommentForm.tsx:13-20 | blank content calls nothing and changes nothing. Otherwise loading is set, the error cleared, and the content passed as typed, with an empty key passed as undefined |
| KeyedCommentForm.Finish | src/components/comments/CommentForm.tsx:22-28 | success clears content and key; failure sets the error text and keeps both; loading ends either way |
| KeyedCommentForm.SubmitLockedWhilePending | src/components/comments/CommentForm.tsx:63 | the button is disabled for blank content and from the click until the call returns, and enabled again after a failure, as the content is kept |
| KeyedCommentForm.SubmissionEnds | src/components/comments/CommentForm.tsx:13-29 | a whole submission ends with a reset form on success, and with the typed content and key kept beside the error on failure |
| PlainCommentForm.Start | src/components/CommentForm.tsx:12-17 | blank content calls nothing; otherwise the form is submitting and the content is passed exactly as typed |
| PlainCommentForm.Finish | src/components/CommentForm.tsx:17-19 | after the awaited call the content is cleared, whatever the outcome, and submitting ends |
| PlainCommentForm.NoDoubleSubmit | src/components/CommentForm.tsx:31-35 | while the call is pending both the input and the button are disabled |
| PostFlagSelect.Click | src/components/PostFlagSelect.tsx:53-55 | clicking the current flag yields no flag; clicking any other yields that flag; the result is always none or one of the listed flags |
| PostFlagSelect.FlagsAreExactlyThePostFlags | src/components/PostFlagSelect.tsx:9-37 | the buttons list each post flag once, with distinct stored values |
| PostFlagSelect.OneHighlight | src/components/PostFlagSelect.tsx:56-60 | at most one button is highlighted, and exactly one when a flag is set |
| PostFlagSelect.ClickTwice | src/components/PostFlagSelect.tsx:53-55 | with no flag or this button's flag selected, two clicks on the button restore the selection |
| PostFlagSelect.ClickTwiceOnOther | src/components/PostFlagSelect.tsx:53-55 | with another flag selected, two clicks on a button leave no flag: the first selects the button's flag and the second clears it |
| FeedPreferences.InitialPreferences | src/hooks/useFeedPreferences.tsx:12-19 | the initial preferences are the saved ones when present and parseable, else the defaults |
| FeedPreferences.Toggle | src/hooks/useFeedPreferences.tsx:29-48 | a toggle negates exactly its own switch and leaves every other field unchanged |
| FeedPreferences.ToggleTwice | src/hooks/useFeedPreferences.tsx:29-48 | the same toggle twice restores the preferences |
| FeedPreferences.Saved | src/hooks/useFeedPreferences.tsx:21-27 | after the save effect the preferences read back under 'feedPreferences', and every other key is untouched |
| FeedPreferences.ReloadSeesLastToggle | src/hooks/useFeedPreferences.tsx:12-27 | after a toggle, a reload starts from the toggled preferences |
| FeedPreferences.FreshStartUsesDefaults | src/hooks/useFeedPreferences.tsx:4-19 | a browser with nothing saved starts from theme 'system' with all three switches on, and stores them |
| UseTheme.InitialTheme | src/hooks/useTheme.ts:13-16 | the initial theme is the saved one when it parses and the default when nothing is saved; malformed saved text throws |
| UseTheme.Apply | src/hooks/useTheme.ts:21-49 | `dark` is on the root exactly for a dark scheme, or a system scheme with a dark system preference. Exactly one size class is on: small gives text-sm, large text-lg, medium text-base. `data-primary` names the primary colour. Every other class and attribute stays |
| UseTheme.Run | src/hooks/useTheme.ts:18-50 | the effect saves the theme under 'theme-settings' and applies it to the root |
| UseTheme.ReloadRestoresTheme | src/hooks/useTheme.ts:13-19 | a reload after the effect starts from the saved theme |
| UseTheme.ApplyIdempotent | src/hooks/useTheme.ts:24-49 | re-applying the same theme to its own result changes nothing |

## Left out

- The backend client and its query builder are not modelled. Each call is a map update plus a `Reply` argument.
- SQL `LIKE` is read as a plain prefix test. The `%` and `_` wildcards inside a base are not modelled.
- A server `order` is stated only as sortedness. How ties between equal timestamps are ordered is left open.
- Row ids and timestamps chosen by the backend or by `new Date()` are parameters.
- Storage uploads and public URLs (src/components/MediaUpload.tsx:79-105) are foreign calls. The model stops at the file type check.
- The `Math.random` user id of the post page is a parameter. The random file name of an upload is not modelled, as the model stops before the upload.
- `fetchPost` on the post page is not modelled, including its navigation home on an error: it is a plain fetch.
- `usePost`, `usePosts`, `useProfile`, `useAuth` and `PostActions` are not modelled: they wrap backend or auth calls with no logic of their own. `usePosts` is used only for its newest-first order.
- `src/hooks/useUpvote.ts` is not modelled: it passes a remote-procedure builder as a column value, so its meaning depends on the client library.
- Concurrency is not modelled. This covers overlapping upvotes losing one another's update, and async results arriving after unmount. Calls are sequential.
- `toLowerCase` folds ASCII letters only; Unicode case mapping is not modelled.
- `new URL(...)` is an abstract predicate, and `window.matchMedia` is a boolean.
- JSON is treated as an identity encoding: what is saved reads back unchanged. Saved text that parses to another shape, such as `null`, is not modelled.
- Storage quota errors on `setItem` are not modelled. The preferences hook catches and logs them; the theme hook would throw.
- PostList.Render: a crash is the single `Crashed` view; what React shows after the throw is not modelled. The groups are a map from category to posts. The `Object.entries` display order of the categories is not modelled, including the rule that integer-like keys come first.
- A post without a category is grouped under the text "null". This is JavaScript's key conversion for a `null` column.
- The backend's default for columns the insert leaves out is not modelled; the created row has no `updatedAt` and no flag.
- Rendering is not modelled: JSX, classes, skeleton markup, the toast library, routing, and the components the core only displays.
