/** What a call through the axios client of web/src/api/client.js returns
    to its caller: the response's data, or the rejection. */
module Api {
  import opened Wrappers

  /** A rejected call: `err.response?.status` (`None` when no response
      arrived), `err.response?.data?.detail` and `err.message`. */
  datatype HttpError = HttpError(status: Option<int>, detail: Option<string>, message: string)

  datatype Reply<T> = Success(value: T) | Failure(error: HttpError)

  /** `err.response?.data?.detail || fallback`: an absent or empty detail is
      falsy. */
  function ErrorText(e: HttpError, fallback: string): (r: string)
    ensures e.detail.Some? && e.detail.value != "" ==> r == e.detail.value
    ensures e.detail.None? || e.detail.value == "" ==> r == fallback
  {
    match e.detail
    case Some(d) => if d != "" then d else fallback
    case None => fallback
  }
}
