/** The boundary to the hosted backend. Each backend call of a handler is
    given its reply as a parameter: it either succeeds or fails with a fault.
    The row data a successful call returns is computed from the table model
    by the handler itself. */
module Service {
  import opened Wrappers

  /** A failure the backend client reports. `isError` says whether the
      thrown value is an `Error` instance (which depends on the client
      library's version); only then do the handlers show its message. */
  datatype Fault = Fault(isError: bool, message: string)

  datatype Reply = Ok | Failed(fault: Fault)

  const UnknownError: string := "An unknown error occurred"
  const InvalidSecretKey: string := "Invalid secret key"

  /** The text a hook's `catch` block stores in its `error` state. */
  function Message(f: Fault): string {
    if f.isError then f.message else UnknownError
  }

  /** The error thrown by the hooks on a key mismatch is an `Error`. */
  const KeyMismatch: Fault := Fault(true, InvalidSecretKey)

  /** `s || null`: an empty string becomes `null`. */
  function OrNull(s: string): (r: Option<string>)
    ensures r.None? <==> s == ""
    ensures r.Some? ==> r.value == s
  {
    if s == "" then None else Some(s)
  }
}
