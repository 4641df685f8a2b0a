/**
 * The records of `src/types.ts`. TypeScript optional fields (`x?: T`) and
 * `T | null` fields are `Option<T>`; JavaScript numbers that are only copied
 * are `real`.
 */
module Types {
  import opened Wrappers

  newtype byte = x: int | 0 <= x < 256

  /** A browser `File`, reduced to what the core reads: its name, its MIME type and its bytes. */
  datatype File = File(name: string, mimeType: string, content: seq<byte>) {
    function Size(): nat { |content| }
  }

  datatype Bank = Vtb | Tinkoff | Alfa | Sber | UnknownBank

  datatype CheckType = Sbp | TinkoffPhoneTransfer | AlfaInternalTransfer | UnknownTransfer

  datatype Legitimacy = Legitimate | Suspicious | Forged

  /** A `[boolean, string]` tuple of the report: a verdict and its label. */
  datatype Verdict = Verdict(ok: bool, caption: string)

  datatype Results = Results(fileSize: Verdict, pageSize: Verdict, font: Verdict, metadata: string)

  datatype CheckData = CheckData(
    bank: Bank,
    checkType: CheckType,
    operationId: Option<string>,
    transferDate: Option<string>,
    recipient: Option<string>,
    recipientPhone: Option<string>)

  datatype TechnicalDetails = TechnicalDetails(
    fileWeight: string, pageSize: string, blocks: string, fonts: string,
    images: string, editor: string, metadata: string)

  /** The text model's opinion, as decoded from its JSON answer. */
  datatype AiVerificationDetails = AiVerificationDetails(
    conclusion: string,
    legitimacy: Legitimacy,
    confidence: real,
    warnings: seq<string>,
    checkData: CheckData,
    technicalDetails: TechnicalDetails)

  datatype ExtractedData = ExtractedData(
    amount: Option<string>,
    date: Option<string>,
    bankName: Option<string>,
    operationType: Option<string>,
    sender: Option<string>,
    recipient: Option<string>,
    recipientPhone: Option<string>,
    operationId: Option<string>,
    reference: Option<string>)

  /**
   * The vision model's opinion. `confidence` is `parseInt(value) / 100` in
   * the source; here it is the integer percentage before the division, and
   * `None` stands for NaN.
   */
  datatype VisionAnalysis = VisionAnalysis(
    verified: bool,
    confidence: Option<int>,
    extractedData: ExtractedData,
    rawAnalysis: string,
    warning: Option<string>)

  datatype VerificationReport = VerificationReport(
    id: string,
    timestamp: string,
    fileName: string,
    bank: Bank,
    checkType: CheckType,
    fileUrl: string,
    results: Results,
    aiVerification: Option<AiVerificationDetails>,
    visionAnalysis: Option<VisionAnalysis>)

  datatype StoredCheck = StoredCheck(
    id: string, timestamp: string, fileName: string, fileUrl: string, report: VerificationReport)

  datatype FileValidation = FileValidation(valid: bool, error: Option<string>)

  /** The body of a failed HTTP response (an `ApiError`); the core reads only its `message`. */
  datatype ResponseData = ResponseData(message: Option<string>)

  datatype ApiResponseInfo = ApiResponseInfo(
    code: Option<string>, message: Option<string>, details: Option<ResponseData>)

  datatype BankApiVerification = BankApiVerification(
    verified: bool,
    operationId: Option<string>,
    timestamp: Option<string>,
    amount: Option<real>,
    sender: Option<string>,
    recipient: Option<string>,
    bankReference: Option<string>,
    additionalInfo: Option<map<string, string>>,
    error: Option<string>,
    apiResponse: Option<ApiResponseInfo>)

  /** Imported by `sbp.ts` but not declared in `types.ts`; its shape is that of the records `sbp.ts` builds. */
  datatype SbpVerificationResult = SbpVerificationResult(
    verified: bool,
    operationId: string,
    timestamp: Option<string>,
    amount: Option<real>,
    sender: Option<string>,
    recipient: Option<string>,
    error: Option<string>)

  datatype ContractPoint = ContractPoint(lineNumber: int, text: string, comment: string)

  datatype Severity = High | Medium | Low

  datatype ContractRisk = ContractRisk(severity: Severity, description: string, recommendation: Option<string>)

  datatype CommentKind = Strength | Weakness | Neutral

  datatype LineComment = LineComment(lineNumber: int, text: string, kind: CommentKind, suggestion: Option<string>)

  datatype ContractAnalysis = ContractAnalysis(
    strengths: seq<ContractPoint>,
    weaknesses: seq<ContractPoint>,
    risks: seq<ContractRisk>,
    lineComments: seq<LineComment>,
    recommendations: Option<seq<string>>,
    summary: Option<string>)
}
