/** The toast notifications the pages show (react-hot-toast). */
module Toasts {

  /** No toast, a success toast or an error toast, with its text. */
  datatype Toast = NoToast | Success(text: string) | Error(text: string)
}
