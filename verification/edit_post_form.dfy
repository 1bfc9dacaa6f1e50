/** The post edit form (src/components/posts/EditPostForm.tsx): prefill
    from the loaded post, per-field editing, validation, and submission
    through the edit hook. */
module EditPostForm {
  import opened Wrappers
  import opened Text
  import opened Service
  import opened AppTypes
  import UseEditPost

  datatype Field = Title | Content | ImageUrl

  /** One message slot per field of `Partial<PostFormData>` the form uses. */
  datatype Errors = Errors(
    title: Option<string>,
    content: Option<string>,
    imageUrl: Option<string>,
    secretKey: Option<string>)

  const NoErrors: Errors := Errors(None, None, None, None)

  datatype Form = Form(data: PostFormData, secretKey: string, errors: Errors)

  /** The form's data holds only title, content and image URL. */
  function FormData(title: string, content: string, imageUrl: string): PostFormData {
    PostFormData(title, content, imageUrl, "", "", "")
  }

  const Initial: Form := Form(FormData("", "", ""), "", NoErrors)

  /** The prefill effect: once the post is loaded the form data becomes its
      title, with missing content or image URL as "". The key and the
      errors stay. */
  function Prefill(f: Form, post: Option<Post>): (r: Form)
    ensures post.None? ==> r == f
    ensures post.Some? ==>
      && r.data.title == post.value.title
      && r.data.content == post.value.content.GetOr("")
      && r.data.imageUrl == post.value.imageUrl.GetOr("")
      && r.data.flag == "" && r.data.category == ""
      && r.secretKey == f.secretKey && r.errors == f.errors
  {
    if post.None? then f
    else
      var p := post.value;
      f.(data := FormData(p.title, if p.content.Some? then p.content.value else "",
                          if p.imageUrl.Some? then p.imageUrl.value else ""))
  }

  const TitleRequired: string := "Title is required"
  const InvalidUrl: string := "Please enter a valid URL"
  const KeyRequired: string := "Secret key is required to edit the post"

  /** `validateForm`: the recorded errors and whether there are none. */
  function Validate(f: Form, isParseable: string -> bool): (r: (bool, Errors))
    ensures r.1.title.Some? <==> IsBlank(f.data.title)
    ensures r.1.imageUrl.Some? <==> f.data.imageUrl != "" && !isParseable(f.data.imageUrl)
    ensures r.1.secretKey.Some? <==> f.secretKey == ""
    ensures r.1.content.None?
    ensures r.1.title.Some? ==> r.1.title.value == TitleRequired
    ensures r.1.imageUrl.Some? ==> r.1.imageUrl.value == InvalidUrl
    ensures r.1.secretKey.Some? ==> r.1.secretKey.value == KeyRequired
    ensures r.0 <==> !IsBlank(f.data.title) && (f.data.imageUrl == "" || isParseable(f.data.imageUrl)) && f.secretKey != ""
  {
    var errors := Errors(
      if IsBlank(f.data.title) then Some(TitleRequired) else None,
      None,
      if f.data.imageUrl != "" && !isParseable(f.data.imageUrl) then Some(InvalidUrl) else None,
      if f.secretKey == "" then Some(KeyRequired) else None);
    (errors == NoErrors, errors)
  }

  function FieldValue(d: PostFormData, field: Field): string {
    match field
    case Title => d.title
    case Content => d.content
    case ImageUrl => d.imageUrl
  }

  function FieldError(e: Errors, field: Field): Option<string> {
    match field
    case Title => e.title
    case Content => e.content
    case ImageUrl => e.imageUrl
  }

  /** `handleChange`: the named field takes the value and loses its error
      if it had one; everything else stays. */
  function Change(f: Form, field: Field, value: string): (r: Form)
    ensures FieldValue(r.data, field) == value && FieldError(r.errors, field).None?
    ensures forall other :: other != field ==>
      FieldValue(r.data, other) == FieldValue(f.data, other) && FieldError(r.errors, other) == FieldError(f.errors, other)
    ensures r.secretKey == f.secretKey && r.errors.secretKey == f.errors.secretKey
    ensures r.data.secretKey == f.data.secretKey && r.data.category == f.data.category && r.data.flag == f.data.flag
  {
    var data := match field
      case Title => f.data.(title := value)
      case Content => f.data.(content := value)
      case ImageUrl => f.data.(imageUrl := value);
    var errors := if FieldError(f.errors, field).None? then f.errors
      else match field
        case Title => f.errors.(title := None)
        case Content => f.errors.(content := None)
        case ImageUrl => f.errors.(imageUrl := None);
    f.(data := data, errors := errors)
  }

  /** The key field has its own handler, which leaves the errors alone. */
  function SetSecretKey(f: Form, value: string): Form {
    f.(secretKey := value)
  }

  datatype Submitted = Submitted(
    form: Form,
    edit: Option<UseEditPost.Edited>,
    navigateTo: Option<string>)

  /** `handleSubmit`: a form that fails validation records its errors and
      never calls `editPost`; a valid one calls it with its data and key,
      and moves to `/post/<postId>` exactly when it returns true. */
  function Submit(
    f: Form, isParseable: string -> bool, table: map<string, Post>, hook: UseEditPost.State,
    postId: string, now: int, read: Reply, update: Reply): (r: Submitted)
    ensures r.form == f.(errors := Validate(f, isParseable).1)
    ensures r.edit.Some? <==> Validate(f, isParseable).0
    ensures r.edit.Some? ==> r.edit.value == UseEditPost.EditPost(table, hook, postId, f.data, f.secretKey, now, read, update)
    ensures r.navigateTo.Some? <==> r.edit.Some? && r.edit.value.ok
    ensures r.navigateTo.Some? ==> r.navigateTo.value == "/post/" + postId
  {
    var (valid, errors) := Validate(f, isParseable);
    var f' := f.(errors := errors);
    if !valid then Submitted(f', None, None)
    else
      var edited := UseEditPost.EditPost(table, hook, postId, f.data, f.secretKey, now, read, update);
      Submitted(f', Some(edited), if edited.ok then Some("/post/" + postId) else None)
  }

  /** The form never holds a flag: neither the initial data, the prefill
      nor a change sets one. */
  ghost predicate FlagFree(f: Form) {
    f.data.flag == ""
  }

  lemma FormStaysFlagFree(f: Form, post: Option<Post>, field: Field, value: string, key: string)
    requires FlagFree(f)
    ensures FlagFree(Initial)
    ensures FlagFree(Prefill(f, post)) && FlagFree(Change(f, field, value)) && FlagFree(SetSecretKey(f, key))
  {
  }

  /** So an edit saved through this form always writes the flag as
      `null`, erasing any flag the post had. */
  lemma FormEditClearsFlag(
    f: Form, isParseable: string -> bool, table: map<string, Post>, hook: UseEditPost.State,
    postId: string, now: int, read: Reply)
    requires FlagFree(f)
    requires Submit(f, isParseable, table, hook, postId, now, read, Ok).navigateTo.Some?
    ensures Submit(f, isParseable, table, hook, postId, now, read, Ok).edit.value.table[postId].flag.None?
  {
  }
}
