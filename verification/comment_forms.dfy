/** The comment form with an optional secret key
    (src/components/comments/CommentForm.tsx). Submission is split at its
    `await`: `Start` runs up to the `onSubmit` call, `Finish` after it
    returns. */
module KeyedCommentForm {
  import opened Wrappers
  import opened Text

  datatype State = State(content: string, secretKey: string, loading: bool, error: Option<string>)

  const Initial: State := State("", "", false, None)

  datatype Started = Ignored | Calling(pending: State, content: string, secretKey: Option<string>)

  /** Blank content calls nothing and changes nothing. Otherwise loading is
      set, the error cleared, and `onSubmit` receives the content as typed
      and the key, with an empty key as `undefined`. */
  function Start(s: State): (r: Started)
    ensures r.Ignored? <==> IsBlank(s.content)
    ensures r.Calling? ==>
      && r.content == s.content
      && (r.secretKey.None? <==> s.secretKey == "")
      && (r.secretKey.Some? ==> r.secretKey.value == s.secretKey)
      && r.pending == s.(loading := true, error := None)
  {
    if IsBlank(s.content) then Ignored
    else Calling(s.(loading := true, error := None), s.content, if s.secretKey == "" then None else Some(s.secretKey))
  }

  const FailureText: string := "Failed to post comment. Please try again."

  /** After `onSubmit` returns: success clears content and key, failure
      sets the error and keeps both; loading ends either way. */
  function Finish(pending: State, success: bool): (r: State)
    ensures !r.loading
    ensures success ==> r.content == "" && r.secretKey == "" && r.error == pending.error
    ensures !success ==>
      r.content == pending.content && r.secretKey == pending.secretKey && r.error == Some(FailureText)
  {
    if success then pending.(content := "", secretKey := "", loading := false)
    else pending.(error := Some(FailureText), loading := false)
  }

  /** The submit button is disabled while loading or while the content is
      blank. */
  predicate SubmitDisabled(s: State) {
    s.loading || IsBlank(s.content)
  }

  /** The button stays disabled from the click until the call returns, and
      after a failure it is enabled again, since the typed content is
      kept. */
  lemma SubmitLockedWhilePending(s: State)
    ensures IsBlank(s.content) ==> SubmitDisabled(s)
    ensures Start(s).Calling? ==> SubmitDisabled(Start(s).pending)
    ensures Start(s).Calling? ==> !SubmitDisabled(Finish(Start(s).pending, false))
  {
  }

  /** A whole submission ends with loading off; on failure the typed
      content and key survive. */
  lemma SubmissionEnds(s: State, success: bool)
    requires Start(s).Calling?
    ensures var r := Finish(Start(s).pending, success);
      && !r.loading
      && (success ==> r == Initial)
      && (!success ==> r == State(s.content, s.secretKey, false, Some(FailureText)))
  {
  }
}

/** The single-line comment form of the post page
    (src/components/CommentForm.tsx). */
module PlainCommentForm {
  import opened Text

  datatype State = State(content: string, isSubmitting: bool)

  const Initial: State := State("", false)

  datatype Started = Ignored | Calling(pending: State, content: string)

  /** Blank content calls nothing; otherwise the form is marked submitting
      and `onSubmit` receives the content exactly as typed. */
  function Start(s: State): (r: Started)
    ensures r.Ignored? <==> IsBlank(s.content)
    ensures r.Calling? ==> r.content == s.content && r.pending == s.(isSubmitting := true)
  {
    if IsBlank(s.content) then Ignored else Calling(s.(isSubmitting := true), s.content)
  }

  /** After the awaited call the content is cleared, whatever its outcome,
      and submitting ends. */
  function Finish(pending: State): (r: State)
    ensures r.content == "" && !r.isSubmitting
  {
    pending.(content := "", isSubmitting := false)
  }

  /** The button is disabled while submitting or while the content is
      blank; the input only while submitting. */
  predicate SubmitDisabled(s: State) {
    s.isSubmitting || IsBlank(s.content)
  }

  predicate InputDisabled(s: State) {
    s.isSubmitting
  }

  /** While the call is pending the form cannot be submitted again. */
  lemma NoDoubleSubmit(s: State)
    requires Start(s).Calling?
    ensures SubmitDisabled(Start(s).pending) && InputDisabled(Start(s).pending)
    ensures Finish(Start(s).pending) == Initial
  {
  }
}
