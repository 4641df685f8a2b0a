/**
 * `src/utils/bankApi.ts`: the record `verifyWithBankApi` builds once the
 * POST to the bank's verification endpoint has settled. The request itself
 * is an input.
 */
module BankApi {
  import opened Wrappers
  import opened Types
  import opened Api
  import Strings

  /** The `operationData` argument: what is sent to the bank. */
  datatype OperationData = OperationData(
    operationId: string,
    amount: Option<real>,
    timestamp: Option<string>,
    sender: Option<string>,
    recipient: Option<string>)

  /** The body of a successful response. */
  datatype BankResponse = BankResponse(
    verified: bool,
    timestamp: Option<string>,
    amount: Option<real>,
    sender: Option<string>,
    recipient: Option<string>,
    reference: Option<string>,
    additionalInfo: Option<map<string, string>>)

  const DefaultErrorMessage := "Ошибка при проверке операции"
  const NotFoundMessage := "Операция не найдена в системе банка"
  const UnauthorizedMessage := "Ошибка авторизации при проверке в банке"
  const BadRequestMessage := "Неверные параметры запроса"
  const InternalErrorMessage := "Внутренняя ошибка сервера банка"
  const RethrowPrefix := "Ошибка при проверке в банке: "

  /** The message a failed verification carries for an HTTP status. */
  function StatusMessage(status: Option<nat>): (m: string)
    ensures status == Some(404) ==> m == NotFoundMessage
    ensures status == Some(401) ==> m == UnauthorizedMessage
    ensures status == Some(400) ==> m == BadRequestMessage
    ensures status == Some(500) ==> m == InternalErrorMessage
    ensures status !in {Some(404), Some(401), Some(400), Some(500)} ==> m == DefaultErrorMessage
  {
    match status
    case Some(404) => NotFoundMessage
    case Some(401) => UnauthorizedMessage
    case Some(400) => BadRequestMessage
    case Some(500) => InternalErrorMessage
    case _ => DefaultErrorMessage
  }

  function Status(f: AxiosFailure): Option<nat> {
    if f.response.Some? then Some(f.response.value.status) else None
  }

  /**
   * The record the catch clause returns for an axios error: unverified, the
   * operation id echoed, the other fields null, the message of a recognised
   * status (the default otherwise), and the response as the status in
   * decimal, the vendor message or the error's own, and the raw body.
   */
  function FailureRecordOf(operationId: string, f: AxiosFailure): (v: BankApiVerification)
    ensures !v.verified && v.operationId == Some(operationId)
    ensures v.timestamp.None? && v.amount.None? && v.sender.None? && v.recipient.None?
    ensures v.bankReference.None? && v.additionalInfo.None?
    ensures v.error == Some(StatusMessage(Status(f)))
    ensures v.apiResponse.Some?
    ensures v.apiResponse.value.message == Some(f.DataMessageOr(f.message))
    ensures v.apiResponse.value.details == (if f.response.Some? then f.response.value.data else None)
    ensures v.apiResponse.value.code.Some? <==> f.response.Some?
    ensures f.response.Some? ==>
      var c := v.apiResponse.value.code.value;
      && (forall i :: 0 <= i < |c| ==> Strings.IsDigit(c[i]))
      && Strings.DigitsValue(c, 10) == f.response.value.status
  {
    var status := if f.response.Some? then f.response.value.status else 0;
    Strings.NatToStringRoundTrip(status);
    var code := if f.response.Some? then Some(Strings.NatToString(f.response.value.status)) else None;
    var details := if f.response.Some? then f.response.value.data else None;
    BankApiVerification(
      false, Some(operationId), None, None, None, None, None, None,
      Some(StatusMessage(Status(f))),
      Some(ApiResponseInfo(code, Some(f.DataMessageOr(f.message)), details)))
  }

  /**
   * The catch clause for an axios error, as written: the record is built
   * with the default message, which a recognised status then replaces.
   */
  method FailureRecord(operationId: string, f: AxiosFailure) returns (v: BankApiVerification)
    ensures v == FailureRecordOf(operationId, f)
  {
    var code := if f.response.Some? then Some(Strings.NatToString(f.response.value.status)) else None;
    var details := if f.response.Some? then f.response.value.data else None;
    v := BankApiVerification(
      false, Some(operationId), None, None, None, None, None, None,
      Some(DefaultErrorMessage),
      Some(ApiResponseInfo(code, Some(f.DataMessageOr(f.message)), details)));
    if f.HasStatus(404) {
      v := v.(error := Some(NotFoundMessage));
    } else if f.HasStatus(401) {
      v := v.(error := Some(UnauthorizedMessage));
    } else if f.HasStatus(400) {
      v := v.(error := Some(BadRequestMessage));
    } else if f.HasStatus(500) {
      v := v.(error := Some(InternalErrorMessage));
    }
  }

  /**
   * `verifyWithBankApi`: a response is copied into a verified-or-not record;
   * an axios failure becomes the record of `FailureRecordOf`; any other failure
   * is rethrown with a prefix.
   */
  method VerifyWithBankApi(bank: Bank, operationData: OperationData, call: Call<BankResponse>)
    returns (r: Result<BankApiVerification>)
    ensures call.Returned? ==> r.Success? && r.value == BankApiVerification(
      call.value.verified, Some(operationData.operationId), call.value.timestamp, call.value.amount,
      call.value.sender, call.value.recipient, call.value.reference, call.value.additionalInfo, None, None)
    ensures call.Threw? && call.thrown.Axios? ==>
      r == Success(FailureRecordOf(operationData.operationId, call.thrown.failure))
    ensures call.Threw? && !call.thrown.Axios? ==>
      r == Failure(RethrowPrefix + HandleApiError(call.thrown).Message())
  {
    match call
    case Returned(data) =>
      r := Success(BankApiVerification(
        data.verified, Some(operationData.operationId), data.timestamp, data.amount,
        data.sender, data.recipient, data.reference, data.additionalInfo, None, None));
    case Threw(e) =>
      if e.Axios? {
        var apiError := FailureRecord(operationData.operationId, e.failure);
        r := Success(apiError);
      } else {
        var error2 := HandleApiError(e);
        r := Failure(RethrowPrefix + error2.Message());
      }
  }
}
