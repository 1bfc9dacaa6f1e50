/** The image file input (src/components/posts/ImageUpload.tsx): a 5 MiB
    limit and no type check. */
module ImageUpload {
  import opened Wrappers

  const MaxBytes: int := 5 * 1024 * 1024

  datatype File = File(name: string, mimeType: string, size: int)

  /** The error shown and the file handed to `onUpload`, if it was called. */
  datatype Changed = Changed(error: Option<string>, forwarded: Option<File>)

  /** `handleFileChange`: no file changes nothing; a file over 5242880
      bytes sets the size error and is not forwarded; any other file, of
      any type, clears the error and is forwarded once. */
  function FileChange(error: Option<string>, file: Option<File>): (r: Changed)
    ensures file.None? ==> r == Changed(error, None)
    ensures file.Some? && file.value.size > 5242880 ==>
      r == Changed(Some("File size must be less than 5MB."), None)
    ensures file.Some? && file.value.size <= 5242880 ==> r == Changed(None, file)
  {
    if file.None? then Changed(error, None)
    else if file.value.size > MaxBytes then Changed(Some("File size must be less than 5MB."), None)
    else Changed(None, file)
  }

  /** A forwarded file is always the chosen one and within the limit. */
  lemma ForwardedWithinLimit(error: Option<string>, file: Option<File>)
    ensures var r := FileChange(error, file);
      r.forwarded.Some? ==> r.forwarded == file && r.forwarded.value.size <= MaxBytes
  {
  }

  /** The error shown after a series of file changes, starting from
      `error`. */
  function ErrorAfter(error: Option<string>, files: seq<Option<File>>): Option<string>
    decreases |files|
  {
    if |files| == 0 then error
    else FileChange(ErrorAfter(error, files[..|files| - 1]), files[|files| - 1]).error
  }

  /** The last file actually chosen in a series of changes, if any. */
  function LastFile(files: seq<Option<File>>): Option<File>
    decreases |files|
  {
    if |files| == 0 then None
    else if files[|files| - 1].Some? then files[|files| - 1]
    else LastFile(files[..|files| - 1])
  }

  /** Cancelled choices leave the error alone, so after any series of
      changes no error shows exactly when the last chosen file was within
      the limit, and with no file chosen the initial error stays. */
  lemma {:induction false} ErrorReflectsLastFile(error: Option<string>, files: seq<Option<File>>)
    ensures LastFile(files).None? ==> ErrorAfter(error, files) == error
    ensures LastFile(files).Some? ==>
      (ErrorAfter(error, files).None? <==> LastFile(files).value.size <= MaxBytes)
    decreases |files|
  {
    if |files| > 0 {
      ErrorReflectsLastFile(error, files[..|files| - 1]);
    }
  }
}
