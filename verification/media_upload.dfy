/** The media picker (src/components/MediaUpload.tsx): YouTube id
    extraction, URL validation and normalisation, the URL form, the file
    type check and clearing. Whether `new URL(u)` accepts a string is left
    to the browser and given as a predicate. */
module MediaUpload {
  import opened Wrappers
  import opened Text
  import opened Toasts
  import ImageUpload

  datatype MediaKind = Image | Video

  // ---------------------------------------------------------------------
  // The first pattern: one of three markers, then a captured run of
  // characters other than the four stop characters.

  const WatchMarker: string := "youtube.com/watch?v="
  const ShortMarker: string := "youtu.be/"
  const EmbedMarker: string := "youtube.com/embed/"

  /** The characters that end a captured id. */
  predicate IsStop(c: char) {
    c == '&' || c == '\n' || c == '?' || c == '#'
  }

  /** `marker` occurs at `i` and is followed by at least one character
      other than the four stop characters. */
  predicate MarkerMatch(s: string, i: nat, marker: string) {
    i + |marker| < |s| && s[i..i + |marker|] == marker && !IsStop(s[i + |marker|])
  }

  /** Where the capture group starts when the pattern matches at `i`,
      trying the three alternatives in order. */
  function MarkerEnd(s: string, i: nat): Option<nat> {
    if MarkerMatch(s, i, WatchMarker) then Some(i + |WatchMarker|)
    else if MarkerMatch(s, i, ShortMarker) then Some(i + |ShortMarker|)
    else if MarkerMatch(s, i, EmbedMarker) then Some(i + |EmbedMarker|)
    else None
  }

  /** The length of the greedy run of non-stop characters the group
      captures. */
  function IdRun(s: string): (n: nat)
    ensures n <= |s|
    ensures forall i :: 0 <= i < n ==> !IsStop(s[i])
    ensures n < |s| ==> IsStop(s[n])
  {
    if |s| == 0 || IsStop(s[0]) then 0 else 1 + IdRun(s[1..])
  }

  /** `p` is where the regular expression's match starts: the pattern
      matches there and at no earlier position. */
  ghost predicate LeftmostMatch(s: string, p: nat) {
    MarkerEnd(s, p).Some? && forall k: nat :: k < p ==> MarkerEnd(s, k).None?
  }

  /** The first position at or after `from` where the pattern matches. */
  function FirstMatch(s: string, from: nat): (p: Option<nat>)
    decreases |s| - from
    ensures p.Some? ==> from <= p.value < |s| && MarkerEnd(s, p.value).Some?
    ensures p.Some? ==> forall k: nat :: from <= k < p.value ==> MarkerEnd(s, k).None?
    ensures p.None? ==> forall k: nat :: from <= k ==> MarkerEnd(s, k).None?
  {
    if from >= |s| then None
    else if MarkerEnd(s, from).Some? then Some(from)
    else FirstMatch(s, from + 1)
  }

  /** The outcome of `getYouTubeVideoId`: the captured id, a match of the
      second pattern, a whole string of eleven `[A-Za-z0-9_-]` characters
      (which has no group, so the captured value is undefined), or no
      match. */
  datatype VideoIdMatch = Captured(id: string) | MatchedWithoutGroup | NoMatch

  predicate IsIdChar(c: char) {
    ('a' <= c <= 'z') || ('A' <= c <= 'Z') || ('0' <= c <= '9') || c == '_' || c == '-'
  }

  predicate IsBareId(s: string) {
    |s| == 11 && forall i :: 0 <= i < |s| ==> IsIdChar(s[i])
  }

  /** `getYouTubeVideoId`: the non-empty run of non-stop characters after the
      leftmost marker that is followed by one. */
  function VideoId(url: string): (r: VideoIdMatch)
    ensures r.Captured? <==> exists p: nat :: MarkerEnd(url, p).Some?
    ensures r.Captured? ==> |r.id| > 0 && forall i :: 0 <= i < |r.id| ==> !IsStop(r.id[i])
    ensures r.Captured? ==> exists p: nat ::
      && LeftmostMatch(url, p)
      && var start := MarkerEnd(url, p).value;
         && start + |r.id| <= |url| && url[start..start + |r.id|] == r.id
         && (start + |r.id| == |url| || IsStop(url[start + |r.id|]))
    ensures r.MatchedWithoutGroup? <==> !r.Captured? && IsBareId(url)
  {
    match FirstMatch(url, 0)
    case Some(p) =>
      var start := MarkerEnd(url, p).value;
      var id := url[start..start + IdRun(url[start..])];
      assert LeftmostMatch(url, p);
      Captured(id)
    case None =>
      if IsBareId(url) then MatchedWithoutGroup else NoMatch
  }

  /** A bare 11-character video id has no marker, so no id is captured. */
  lemma BareIdCapturesNothing(url: string)
    requires IsBareId(url)
    ensures VideoId(url) == MatchedWithoutGroup
  {
    forall p: nat ensures MarkerEnd(url, p).None? {
      MarkerHasSeparator(url, p);
    }
  }

  /** Every marker holds a `.` at offset 5 or 7, which no character of a
      bare id is. */
  lemma MarkerHasSeparator(s: string, i: nat)
    ensures MarkerEnd(s, i).Some? ==> s[i + 5] == '.' || s[i + 7] == '.'
  {
    if MarkerMatch(s, i, WatchMarker) {
      assert s[i + 7] == WatchMarker[7];
    } else if MarkerMatch(s, i, ShortMarker) {
      assert s[i + 5] == ShortMarker[5];
    } else if MarkerMatch(s, i, EmbedMarker) {
      assert s[i + 7] == EmbedMarker[7];
    }
  }

  /** Every marker starts with `y`. */
  lemma MarkerStartsWithY(s: string, i: nat)
    ensures MarkerEnd(s, i).Some? ==> s[i] == 'y'
  {
    if MarkerMatch(s, i, WatchMarker) {
      assert s[i] == WatchMarker[0];
    } else if MarkerMatch(s, i, ShortMarker) {
      assert s[i] == ShortMarker[0];
    } else if MarkerMatch(s, i, EmbedMarker) {
      assert s[i] == EmbedMarker[0];
    }
  }

  // ---------------------------------------------------------------------
  // Validation and normalisation

  /** `url` ends in a dot and one of `exts`, ignoring ASCII case (every
      `ext` is lower case). */
  predicate HasExtension(url: string, exts: seq<string>) {
    exists e :: e in exts && EndsWith(ToLower(url), "." + e)
  }

  const ImageExtensions: seq<string> := ["jpg", "jpeg", "png", "gif", "webp"]
  const VideoExtensions: seq<string> := ["mp4", "webm", "ogg"]

  /** `validateUrl`: an image URL must parse and carry an image extension;
      a video URL must either parse and have a YouTube id or a video
      extension, or not parse and have a YouTube id. */
  function ValidateUrl(kind: MediaKind, url: string, parseable: bool): (ok: bool)
    ensures kind == Image ==> (ok <==> parseable && HasExtension(url, ImageExtensions))
    ensures kind == Video ==> (ok <==> VideoId(url).Captured? || (parseable && HasExtension(url, VideoExtensions)))
  {
    if parseable then
      if kind == Image then HasExtension(url, ImageExtensions)
      else VideoId(url).Captured? || HasExtension(url, VideoExtensions)
    else
      kind == Video && VideoId(url).Captured?
  }

  /** A bare video id is never a valid video URL. */
  lemma BareIdRejected(url: string, parseable: bool)
    requires IsBareId(url)
    ensures !ValidateUrl(Video, url, parseable)
  {
    BareIdCapturesNothing(url);
    forall e | e in VideoExtensions
      ensures !EndsWith(ToLower(url), "." + e)
    {
      DotBeforeExtension(ToLower(url), e);
    }
  }

  lemma DotBeforeExtension(s: string, e: string)
    ensures EndsWith(s, "." + e) ==> |s| > |e| && s[|s| - |e| - 1] == '.'
  {
    if EndsWith(s, "." + e) {
      assert s[|s| - |e| - 1] == ("." + e)[0];
    }
  }

  const EmbedPrefix: string := "https://www.youtube.com/embed/"

  /** `processVideoUrl`: the embed URL of the captured id, else the input. */
  function ProcessVideoUrl(url: string): (r: string)
    ensures VideoId(url).Captured? ==> r == EmbedPrefix + VideoId(url).id
    ensures !VideoId(url).Captured? ==> r == url
  {
    match VideoId(url)
    case Captured(id) => EmbedPrefix + id
    case _ => url
  }

  /** A string without stop characters is one id run. */
  lemma IdRunWhole(s: string)
    requires forall i :: 0 <= i < |s| ==> !IsStop(s[i])
    ensures IdRun(s) == |s|
  {
  }

  /** The embed URL of an id captures that same id again. */
  lemma EmbedUrlCapturesId(id: string)
    requires |id| > 0 && forall i :: 0 <= i < |id| ==> !IsStop(id[i])
    ensures VideoId(EmbedPrefix + id) == Captured(id)
  {
    var s := EmbedPrefix + id;
    var start := |EmbedPrefix|;
    forall k: nat | k < 12 ensures MarkerEnd(s, k).None? {
      MarkerStartsWithY(s, k);
      assert s[k] == EmbedPrefix[k];
    }
    EmbedMarkerAt12(id);
    assert FirstMatch(s, 0) == Some(12);
    assert s[start..] == id;
    IdRunWhole(id);
  }

  lemma EmbedMarkerAt12(id: string)
    requires |id| > 0 && !IsStop(id[0])
    ensures MarkerEnd(EmbedPrefix + id, 12) == Some(|EmbedPrefix|)
  {
    var s := EmbedPrefix + id;
    assert s[12..12 + |EmbedMarker|] == EmbedMarker;
    assert !MarkerMatch(s, 12, WatchMarker) by { assert s[24] != WatchMarker[12]; }
    assert !MarkerMatch(s, 12, ShortMarker) by { assert s[17] != ShortMarker[5]; }
    assert s[|EmbedPrefix|] == id[0];
  }

  /** Normalising an already normalised URL changes nothing. */
  lemma ProcessVideoUrlIdempotent(url: string)
    ensures ProcessVideoUrl(ProcessVideoUrl(url)) == ProcessVideoUrl(url)
  {
    if VideoId(url).Captured? {
      EmbedUrlCapturesId(VideoId(url).id);
    }
  }

  // ---------------------------------------------------------------------
  // The component's handlers

  datatype State = State(uploading: bool, preview: Option<string>, showUrlInput: bool, urlInput: string)

  /** The first render: the current URL (if non-empty) is the preview and
      the URL field's text. */
  function Initial(currentUrl: Option<string>): (s: State)
    ensures !s.uploading && !s.showUrlInput
    ensures s.urlInput == currentUrl.GetOr("")
    ensures s.preview.Some? <==> currentUrl.Some? && currentUrl.value != ""
    ensures s.preview.Some? ==> s.preview.value == s.urlInput
  {
    var url := currentUrl.GetOr("");
    State(false, if url == "" then None else Some(url), false, url)
  }

  /** What a handler did: the new state, the URL passed to
      `onUploadComplete` (if it was called), and the toast shown. */
  datatype Handled = Handled(state: State, reported: Option<string>, toast: Toast)

  function InvalidUrlText(kind: MediaKind): string {
    if kind == Image then "Please enter a valid image URL"
    else "Please enter a valid video URL (YouTube or direct video file)"
  }

  /** `handleUrlSubmit`: the input is trimmed. Empty or invalid input
      reports nothing and changes no state; a valid image URL is reported
      as trimmed, a valid video URL normalised. */
  function SubmitUrl(kind: MediaKind, s: State, isParseable: string -> bool): (h: Handled)
    ensures Trim(s.urlInput) == "" ==> h == Handled(s, None, Error("Please enter a URL"))
    ensures Trim(s.urlInput) != "" && !ValidateUrl(kind, Trim(s.urlInput), isParseable(Trim(s.urlInput))) ==>
      h == Handled(s, None, Error(InvalidUrlText(kind)))
    ensures h.reported.Some? <==> Trim(s.urlInput) != "" && ValidateUrl(kind, Trim(s.urlInput), isParseable(Trim(s.urlInput)))
    ensures h.reported.Some? && kind == Image ==> h.reported.value == Trim(s.urlInput)
    ensures h.reported.Some? && kind == Video ==> h.reported.value == ProcessVideoUrl(Trim(s.urlInput))
    ensures h.reported.Some? ==>
      h.state == s.(preview := h.reported, showUrlInput := false) && h.toast == Success("URL added successfully!")
  {
    var trimmed := Trim(s.urlInput);
    if trimmed == "" then Handled(s, None, Error("Please enter a URL"))
    else if !ValidateUrl(kind, trimmed, isParseable(trimmed)) then Handled(s, None, Error(InvalidUrlText(kind)))
    else
      var final := if kind == Video then ProcessVideoUrl(trimmed) else trimmed;
      Handled(s.(preview := Some(final), showUrlInput := false), Some(final), Success("URL added successfully!"))
  }

  /** A video URL reported by the form is already normalised. */
  lemma SubmittedVideoUrlIsNormal(s: State, isParseable: string -> bool)
    ensures var h := SubmitUrl(Video, s, isParseable);
      h.reported.Some? ==> ProcessVideoUrl(h.reported.value) == h.reported.value
  {
    ProcessVideoUrlIdempotent(Trim(s.urlInput));
  }

  datatype MediaFile = MediaFile(name: string, mimeType: string, size: int)

  /** How `handleFileUpload` ends before the storage upload: no file, a
      refused type, or accepted for upload. */
  datatype FileCheck = NoFile | WrongType(text: string) | ToUpload(file: MediaFile)

  function RequiredPrefix(kind: MediaKind): string {
    if kind == Image then "image/" else "video/"
  }

  /** The type check of `handleFileUpload`, which runs with `uploading`
      already set: a file whose MIME type lacks the kind's prefix is refused
      before any preview or upload. After those early returns the `finally`
      block has turned `uploading` off again; an accepted file goes on to
      the upload with `uploading` still on. */
  function CheckFile(kind: MediaKind, s: State, file: Option<MediaFile>): (r: (State, FileCheck))
    ensures file.None? <==> r.1.NoFile?
    ensures r.1.ToUpload? <==> file.Some? && StartsWith(file.value.mimeType, RequiredPrefix(kind))
    ensures r.1.ToUpload? ==> r.1.file == file.value && r.0 == s.(uploading := true)
    ensures !r.1.ToUpload? ==> r.0 == s.(uploading := false)
    ensures r.1.WrongType? ==>
      r.1.text == (if kind == Image then "Please select an image file" else "Please select a video file")
  {
    if file.None? then (s.(uploading := false), NoFile)
    else if !StartsWith(file.value.mimeType, RequiredPrefix(kind)) then
      (s.(uploading := false),
       WrongType(if kind == Image then "Please select an image file" else "Please select a video file"))
    else (s.(uploading := true), ToUpload(file.value))
  }

  /** The image picker is stricter than the plain image input: a file of a
      non-image type that is within the size limit is refused here but
      forwarded there. */
  lemma ImagePickerRefusesWhatImageInputForwards(s: State, error: Option<string>, f: ImageUpload.File)
    requires !StartsWith(f.mimeType, "image/") && f.size <= ImageUpload.MaxBytes
    ensures CheckFile(Image, s, Some(MediaFile(f.name, f.mimeType, f.size))).1 == WrongType("Please select an image file")
    ensures ImageUpload.FileChange(error, Some(f)).forwarded == Some(f)
  {
  }

  /** `clearMedia`: no preview, an empty closed URL field, and the empty
      string reported. */
  function ClearMedia(s: State): (h: Handled)
    ensures h.state.preview.None? && h.state.urlInput == "" && !h.state.showUrlInput
    ensures h.state.uploading == s.uploading
    ensures h.reported == Some("") && h.toast == NoToast
  {
    Handled(s.(preview := None, urlInput := "", showUrlInput := false), Some(""), NoToast)
  }

  /** Clearing returns the picker to its first render without a current
      URL (the upload flag aside), so submitting the cleared field reports
      nothing and asks for a URL. */
  lemma ClearedPickerAsksForUrl(kind: MediaKind, s: State, isParseable: string -> bool)
    ensures ClearMedia(s).state == Initial(None).(uploading := s.uploading)
    ensures SubmitUrl(kind, ClearMedia(s).state, isParseable) ==
      Handled(ClearMedia(s).state, None, Error("Please enter a URL"))
  {
  }
}
