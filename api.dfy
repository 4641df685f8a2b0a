/**
 * `src/utils/api.ts`: what a failed request can throw, and `handleApiError`,
 * which turns any caught value into an `Error`.
 */
module Api {
  import opened Wrappers
  import opened Types

  /** The `response` of an axios error: an HTTP status and, when the body is truthy, the body. */
  datatype ErrorResponse = ErrorResponse(status: nat, data: Option<ResponseData>)

  /** An axios error: its `code` (such as `ECONNABORTED`), its response if one arrived, and its message. */
  datatype AxiosFailure = AxiosFailure(code: Option<string>, response: Option<ErrorResponse>, message: string) {
    predicate HasStatus(s: nat) { response.Some? && response.value.status == s }

    /** `error.response?.data?.message || fallback`: the body's message unless it is absent or empty. */
    function DataMessageOr(fallback: string): (m: string)
      ensures m == fallback || (response.Some? && response.value.data.Some? && response.value.data.value.message == Some(m))
      ensures m == "" ==> fallback == ""
    {
      if response.Some? && response.value.data.Some? && response.value.data.value.message.Some?
         && response.value.data.value.message.value != ""
      then response.value.data.value.message.value
      else fallback
    }
  }

  /** A value caught by a `catch` clause. */
  datatype Thrown =
    | ApiException(apiError: ResponseData)   // `new ApiException(data)`
    | Axios(failure: AxiosFailure)           // `axios.isAxiosError(error)` holds
    | PlainError(message: string)            // any other `Error`
    | NonError                               // a thrown value that is not an `Error`
  {
    predicate IsError() { !NonError? }

    /** `error.message`; an `ApiException` takes the message of the body it wraps. */
    function Message(): string
      requires IsError()
    {
      match this
      case ApiException(e) => e.message.GetOr("")
      case Axios(f) => f.message
      case PlainError(m) => m
    }
  }

  /** How an awaited call ended: with a value, or by throwing. */
  datatype Call<T> = Returned(value: T) | Threw(thrown: Thrown)

  /**
   * A chat-completion envelope: `response.data.choices[0].message.content`,
   * `None` when it is missing or `null` (both are treated as an answer that
   * does not parse, although `JSON.parse(null)` yields `null`).
   */
  datatype Completion = Completion(content: Option<string>)

  const TimeoutMessage := "Превышено время ожидания"
  const BadGatewayMessage := "Сервер временно недоступен (502 Bad Gateway)"
  const UnknownMessage := "Произошла неизвестная ошибка"

  /** `handleApiError`: never throws, always yields an `Error`. */
  function HandleApiError(error: Thrown): (r: Thrown)
    ensures r.IsError() && !r.Axios?
    ensures error.ApiException? || error.PlainError? ==> r == error
    ensures error.NonError? ==> r == PlainError(UnknownMessage)
    ensures error.Axios? && error.failure.code == Some("ECONNABORTED") ==> r == PlainError(TimeoutMessage)
    ensures error.Axios? && error.failure.code != Some("ECONNABORTED") ==>
      r == (if error.failure.HasStatus(502) then PlainError(BadGatewayMessage)
            else if error.failure.response.Some? && error.failure.response.value.data.Some?
            then ApiException(error.failure.response.value.data.value)
            else PlainError(error.failure.message))
  {
    match error
    case ApiException(_) => error
    case Axios(f) =>
      if f.code == Some("ECONNABORTED") then PlainError(TimeoutMessage)
      else if f.HasStatus(502) then PlainError(BadGatewayMessage)
      else if f.response.Some? && f.response.value.data.Some? then ApiException(f.response.value.data.value)
      else PlainError(f.message)
    case PlainError(_) => error
    case NonError => PlainError(UnknownMessage)
  }

  /** What `handleApiError` returns is already handled: a second application changes nothing. */
  lemma HandleApiErrorIdempotent(error: Thrown)
    ensures HandleApiError(HandleApiError(error)) == HandleApiError(error)
  {
  }
}
