/**
 * `src/utils/ai.ts`: the answers of `verifyCheckWithAI`, `analyzeContract`
 * and `improveLine` once the chat-completion request has settled. The
 * request is an input (`Call<Completion>`), and `JSON.parse` is the
 * `decode` parameter (`None` when the text does not parse).
 */
module Ai {
  import opened Wrappers
  import opened Types
  import opened Api
  import Strings

  const BadGatewayRetryMessage := "Сервер временно недоступен (502 Bad Gateway). Пожалуйста, попробуйте позже."
  const BadGatewayShortMessage := "Сервер временно недоступен. Пожалуйста, попробуйте позже."
  const RateLimitMessage := "Превышен лимит запросов. Пожалуйста, подождите немного."
  const ServerErrorMessage := "Произошла ошибка при обращении к серверу"
  const UnknownServerMessage := "Неизвестная ошибка при обращении к серверу"
  const MalformedMessage := "Некорректный ответ от AI. Пожалуйста, попробуйте еще раз."
  const ImproveFailedMessage := "Не удалось улучшить строку. Пожалуйста, попробуйте еще раз."

  /**
   * The outer `catch` shared by the three requests: 502, then 429, then the
   * vendor's message for any other axios error; `nonAxios` for everything else.
   */
  function CatchMessage(error: Thrown, badGateway: string, nonAxios: string): (m: string)
    ensures !error.Axios? ==> m == nonAxios
    ensures error.Axios? && error.failure.HasStatus(502) ==> m == badGateway
    ensures error.Axios? && error.failure.HasStatus(429) ==> m == RateLimitMessage
    ensures error.Axios? && !error.failure.HasStatus(502) && !error.failure.HasStatus(429) ==>
      m == error.failure.DataMessageOr(ServerErrorMessage)
  {
    match error
    case Axios(f) =>
      if f.HasStatus(502) then badGateway
      else if f.HasStatus(429) then RateLimitMessage
      else f.DataMessageOr(ServerErrorMessage)
    case _ => nonAxios
  }

  /**
   * The body of the outer `try` for the JSON requests: read the content and
   * parse it; the inner `catch` replaces a parse failure by an ordinary
   * `Error` carrying the "malformed response" message.
   */
  function ParseCompletion<T>(call: Call<Completion>, decode: string -> Option<T>): (r: Call<T>)
    ensures call.Threw? ==> r == Threw(call.thrown)
    ensures r.Returned? <==> call.Returned? && call.value.content.Some? && decode(call.value.content.value).Some?
    ensures r.Returned? ==> r.value == decode(call.value.content.value).value
    ensures r.Threw? && call.Returned? ==> r.thrown == PlainError(MalformedMessage)
  {
    match call
    case Threw(e) => Threw(e)
    case Returned(c) =>
      if c.content.Some? && decode(c.content.value).Some? then Returned(decode(c.content.value).value)
      else Threw(PlainError(MalformedMessage))
  }

  /** A JSON request with the catch clauses of `verifyCheckWithAI` and `analyzeContract`. */
  function RequestJson<T>(call: Call<Completion>, decode: string -> Option<T>): (r: Result<T>)
    ensures r.Success? <==> call.Returned? && call.value.content.Some? && decode(call.value.content.value).Some?
    ensures r.Success? ==> r.value == decode(call.value.content.value).value
    ensures r.Failure? && call.Returned? ==> r.error == UnknownServerMessage
    ensures call.Threw? ==> r == Failure(CatchMessage(call.thrown, BadGatewayRetryMessage, UnknownServerMessage))
  {
    match ParseCompletion(call, decode)
    case Returned(v) => Success(v)
    case Threw(e) => Failure(CatchMessage(e, BadGatewayRetryMessage, UnknownServerMessage))
  }

  /** `verifyCheckWithAI`: the decoded opinion unchanged, or the message of the error it throws. */
  function VerifyCheckWithAI(call: Call<Completion>, decode: string -> Option<AiVerificationDetails>): Result<AiVerificationDetails> {
    RequestJson(call, decode)
  }

  /** `analyzeContract`: the same request and the same catch clauses as `verifyCheckWithAI`. */
  function AnalyzeContract(call: Call<Completion>, decode: string -> Option<ContractAnalysis>): Result<ContractAnalysis> {
    RequestJson(call, decode)
  }

  /**
   * The nested `catch`: a response that does not parse is reported as an
   * unknown error, never as a malformed response; the malformed-response
   * text can only reach the caller as the vendor's own message.
   */
  lemma {:induction false} MalformedMessageHidden<T>(call: Call<Completion>, decode: string -> Option<T>)
    ensures call.Returned? && RequestJson(call, decode).Failure? ==>
      RequestJson(call, decode).error == UnknownServerMessage
    ensures RequestJson(call, decode).Failure? && RequestJson(call, decode).error == MalformedMessage ==>
      call.Threw? && call.thrown.Axios? && call.thrown.failure.response.Some? &&
      call.thrown.failure.response.value.data.Some? &&
      call.thrown.failure.response.value.data.value.message == Some(MalformedMessage)
  {
    var r := RequestJson(call, decode);
    if r.Failure? && r.error == MalformedMessage {
      assert MalformedMessage != UnknownServerMessage;
      assert call.Threw?;
      assert MalformedMessage != BadGatewayRetryMessage && MalformedMessage != RateLimitMessage;
      assert MalformedMessage != ServerErrorMessage;
    }
  }

  /** `improveLine`: the trimmed completion, or the message of the error it throws. */
  function ImproveLine(call: Call<Completion>): (r: Result<string>)
    ensures r.Success? <==> call.Returned? && call.value.content.Some?
    ensures r.Success? ==> r.value == Strings.Trim(call.value.content.value)
    ensures r.Failure? && call.Returned? ==> r.error == ImproveFailedMessage
    ensures call.Threw? ==> r == Failure(CatchMessage(call.thrown, BadGatewayShortMessage, ImproveFailedMessage))
  {
    match call
    case Returned(c) =>
      if c.content.Some? then Success(Strings.Trim(c.content.value))
      else Failure(ImproveFailedMessage)
    case Threw(e) => Failure(CatchMessage(e, BadGatewayShortMessage, ImproveFailedMessage))
  }
}
