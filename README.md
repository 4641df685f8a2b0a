# truecheck receipt verification, modelled in Dafny

truecheck is a browser app that checks Russian bank receipts (PDF payment
confirmations). This project models its `src/utils/` layer:

- the verification pipeline (`verifyCheck`):
  - rejects anything but a PDF;
  - takes the extracted text and scans the first 1024 bytes for PDF markers;
  - guesses the bank and transfer type with a fixed rule chain;
  - asks a text model and then a vision model for an opinion;
  - merges the answers into one `VerificationReport`, letting a confident text model override the guess;
- the vision model's `Key: value` answer parser;
- the 50-entry check history in `localStorage`;
- the receipt-text field extractor (amount, date, phone, bank);
- the SBP (Faster Payments System) operation-id extractor and verifier;
- upload validation and file extensions;
- the HTTP error normaliser, and what the text-model, bank-API and SBP requests return once the request has settled.

There is one module per source file:

- `Verification`, `Vision`, `Storage`, `Ocr`, `Sbp`, `Files`, `Api`, `Ai` and `BankApi` model the source files;
- `Types` holds the records of `src/types.ts`;
- `Wrappers` holds `Option` and `Result`;
- `Strings` models the JavaScript string built-ins the code relies on;
- `Patterns` holds a small backtracking matcher for `RegExp#test`.

Regular expressions are hand-written matchers over `seq<char>`, each in the
engine's leftmost-first order. Several things are parameters of the
operations rather than things the model does:

- every network request, as a `Call<T>` (`Returned(value)` or `Threw(thrown)`);
- `JSON.parse`, as a `decode` function;
- the extracted text, and the fresh UUID, time stamp and object URL.

Where the source mutates, the model does too:

- `analyzeCheckImage`'s line loop is a `while` loop over the same local variables, proved against a fold over the parsed lines (`Vision.Run`);
- the history is a class whose one field is the storage slot;
- the record-building functions (`parseCheckText`, `verifyCheck`, `analyzePdfMetadata`, the bank-API catch) are methods that update a record field by field.

Details of the code that are easy to misread, which the model keeps as written:

- `verifyCheck` overrides the bank and transfer type from the text model only inside the vision `try`. The override therefore happens only when the vision analysis succeeded, not whenever the text model is confident.
- The empty-text test is `!extractedText`. Text made only of white space passes it; it is not trimmed.
- The VTB SBP id is `a` + 32 *decimal* digits (`\d{32}`, case-insensitive), not hex digits.
- The vision parser treats `N/A` as absent for sender, recipient and reference. `None` is treated as absent only for the warning.
- The vision confidence is not clamped.

## Model

| member | source | states |
|---|---|---|
| Verification.PdfPrefix | src/utils/verification.ts:12-13 | the scanned string has one character per byte, with the byte's code, and is at most 1024 long |
| Verification.VersionIsDecimal | src/utils/verification.ts:18-21 | a found PDF version is digits, one dot, digits, and `%PDF-` followed by it occurs in the header |
| Verification.VersionAtIff | src/utils/verification.ts:18 | the version pattern matches at a position iff `%PDF-`, digits, a dot and a digit start there |
| Verification.VersionPresentIff | src/utils/verification.ts:18-21 | a version is found iff `%PDF-` followed by digits, a dot and a digit occurs somewhere in the first 1024 characters |
| Verification.AnalyzePdfMetadata | src/utils/verification.ts:11-63 | the push-and-reassign scan yields exactly the header report of the first 1024 bytes |
| Verification.OnlyPrefixMatters | src/utils/verification.ts:12-13 | two files that agree on their first 1024 bytes get the same page size, fonts and metadata |
| Verification.PageSizeIff | src/utils/verification.ts:47-50 | the page size is `(true, 'Стандартный A4')` iff `/MediaBox` occurs, else `(false, 'Не определено')` |
| Verification.FontIff | src/utils/verification.ts:52-57 | fonts are ok iff `/Font` occurs; a `/FontFile` (which contains `/Font`) gives 'Встроенные шрифты', `/Font` without `/FontFile` gives 'Системные шрифты', and no `/Font` gives 'Не определено' |
| Verification.SummaryEmptyIff | src/utils/verification.ts:15-62 | the metadata text is 'Метаданные не обнаружены' iff no finding was pushed |
| Verification.FindingsFollowMarkers | src/utils/verification.ts:15-45 | each of `/Linearized`, `/Pages`, `/Encrypt` and `/ModDate` contributes its finding iff it occurs, and the version finding is there iff `%PDF-`, digits, a dot and a digit occur |
| Verification.DetectedBankIsFirstMentioned | src/utils/verification.ts:74-105 | the bank is the first of VTB, Tinkoff, Alfa (in that priority) one of whose markers occurs in the lower-cased text |
| Verification.UnknownBankIff | src/utils/verification.ts:74-105 | the bank is 'unknown' iff none of the seven markers occurs in the lower-cased text |
| Verification.DetectionConsistent | src/utils/verification.ts:78-104 | the bank is never 'sber'; the type is the bank's own or 'UnknownTransfer'; 'unknown' pairs with 'UnknownTransfer' |
| Verification.SbpIdTestIff | src/utils/verification.ts:80 | `/a\d{32}/i` matches iff some `a` or `A` is followed by 32 decimal digits |
| Verification.VtbSbpIff | src/utils/verification.ts:78-84 | a VTB check is 'sbp' iff the lower-cased text has 'sbp' or 'сбп' or the text has an SBP id |
| Verification.HundredthsNearest | src/utils/verification.ts:124 | the size label's hundredths are the nearest to the size in MiB, a tie rounding up as `toFixed` does |
| Verification.FixedTwoRoundTrip | src/utils/verification.ts:124 | the label has exactly two decimals, and its digits read back give the hundredths count |
| Verification.VerifyCheck | src/utils/verification.ts:107-176 | non-PDF is rejected before anything is called; extraction, empty-text and text-model failures propagate; on success the report is fully determined, and vision is consulted last |
| Verification.ClassificationWithoutVision | src/utils/verification.ts:157-169 | without a vision answer the heuristic bank and type stand, whatever the text model's confidence |
| Verification.ThresholdIsStrict | src/utils/verification.ts:163 | a confidence of exactly 0.8 does not override the heuristic classification |
| Vision.KeyOfIff | src/utils/vision.ts:61-91 | each of the ten `case` keys is selected iff the lower-cased key is that word, and every other key is ignored (`Other`) |
| Vision.ParseLineParts | src/utils/vision.ts:60 | a line splits on its first `': '` into a trimmed key and a trimmed value running to the next `': '`; without one the value is absent |
| Vision.Step | src/utils/vision.ts:61-92 | one `switch` pass fails exactly on an amount or legitimate line with no value; an unrecognised key changes nothing |
| Vision.VisitLine | src/utils/vision.ts:59-93 | the `forEach` callback updates the closed-over variables exactly as one `switch` pass does |
| Vision.ParseAnalysis | src/utils/vision.ts:50-101 | the line loop yields the fold of the `switch` over the parsed lines, or fails when the fold does |
| Vision.AnalyzeCheckImage | src/utils/vision.ts:5-106 | the analysis succeeds iff the request returned content that parses; every failure carries the one catch message |
| Vision.RunFailsIff | src/utils/vision.ts:59-93 | the parse fails iff some line is an `amount` or `legitimate` line without `': '` |
| Vision.RunFinal | src/utils/vision.ts:59-93 | each field holds what the last line writing it wrote, later lines overriding earlier ones; untouched fields stay absent |
| Vision.StepWrites | src/utils/vision.ts:61-92 | one line changes exactly the field its own key writes |
| Vision.RunVerified | src/utils/vision.ts:83-85 | `verified` is true iff the last `legitimate` line's value lower-cases to 'yes' |
| Vision.RunConfidence | src/utils/vision.ts:86-88 | the confidence is the `parseInt` of the last `confidence` line (NaN as `None`), unclamped; 0 without one |
| Vision.FieldAdmissible | src/utils/vision.ts:74-91 | a field's final value is one its key can write |
| Vision.FieldValues | src/utils/vision.ts:62-91 | the amount is only digits, `.` and `,`; sender, recipient, reference and warning are never empty or 'N/A'; the warning is never 'None'; phone and operation id are never set |
| Storage.NewHistory | src/utils/storage.ts:7 | the new list puts the check first, keeps the newest 49 earlier entries, and has length min(n + 1, 50) |
| Storage.HistoryStore.GetCheckHistory | src/utils/storage.ts:11-15 | an absent key reads as the empty list, otherwise as the stored list |
| Storage.HistoryStore.SaveCheckToHistory | src/utils/storage.ts:5-9 | the slot becomes the new list built from the old history; the check is first |
| Storage.HistoryStore.ClearHistory | src/utils/storage.ts:17-19 | the key is removed and the history reads as empty |
| Storage.NoDeduplication | src/utils/storage.ts:5-9 | saving the same check twice stores it twice |
| Storage.SaveAllNewestFirst | src/utils/storage.ts:5-9 | after any run of saves the history is the newest 50 checks, newest first |
| Ocr.IsImageFile | src/utils/ocr.ts:16-18 | a file is an image iff its type starts with 'image/'; a PDF never is |
| Ocr.AmountIsDigits | src/utils/ocr.ts:33-36 | a found amount is a non-empty string of digits |
| Ocr.AmountPresentIff | src/utils/ocr.ts:33-36 | an amount is found iff some digit is followed, after optional white space, by `₽` |
| Ocr.AmountIsFirstMatch | src/utils/ocr.ts:33-36 | the amount is read from the leftmost position where the pattern matches, which is no later than any digit that white space and `₽` follow |
| Ocr.DateIsFirstMatch | src/utils/ocr.ts:39-42 | the date is the first DD.DD.DDDD run of the text, and absent iff there is none |
| Ocr.PhoneIsElevenDigits | src/utils/ocr.ts:45-48 | a found phone is eleven digits starting with 7 or 8 |
| Ocr.PhoneIsFirstMatch | src/utils/ocr.ts:45-48 | a found phone is the digits of the leftmost match of the pattern, with no match at any earlier position |
| Ocr.PhoneAbsentIff | src/utils/ocr.ts:45-48 | no phone is found iff the pattern matches nowhere in the text |
| Ocr.PhoneFromFirstAttempt | src/utils/ocr.ts:45-48 | a found phone is read from the first position where the pattern attempt succeeds, every earlier attempt failing |
| Ocr.ParseCheckText | src/utils/ocr.ts:29-56 | each field comes from its own pattern only; the bank is 'tinkoff' iff a marker occurs; sender and recipient are never set |
| Ocr.PhoneShapeAtSound | src/utils/ocr.ts:45 | whatever the phone search finds at a position is a match of `(?:\+7\|8)[\s(]*\d{3}[)\s]*\d{3}[-\s]*\d{2}[-\s]*\d{2}` there |
| Ocr.PhoneShapeAtComplete | src/utils/ocr.ts:45 | wherever that pattern matches at a position, the search finds exactly that match |
| Ocr.NothingFoundGivesEmptyRecord | src/utils/ocr.ts:29-56 | text in which the amount, date and phone patterns match nowhere gives no amount, date or phone |
| Sbp.CaptureAtIff | src/utils/sbp.ts:25-27 | `[\s:]*([\d-]+)` matches at a position iff separators and then a digit or hyphen follow |
| Sbp.MatchIff | src/utils/sbp.ts:24-28 | a pattern matches iff one of its labels occurs, ignoring case, followed by separators and a digit or hyphen |
| Sbp.MatchLabelsAtFirst | src/utils/sbp.ts:25-27 | at one position the alternatives are tried in order: from any index up to the first label that matches there, the attempt gives that label's capture |
| Sbp.MatchLabelsAtHasFirst | src/utils/sbp.ts:25-27 | when the alternatives from an index on give a capture at a position and none before that index matches there, some alternative is the first that matches |
| Sbp.MatchFromLeftmost | src/utils/sbp.ts:31 | the search from a position returns the capture of the leftmost match at or after it |
| Sbp.MatchIsLeftmost | src/utils/sbp.ts:31-33 | `text.match(pattern)[1]` is the run after the leftmost label occurrence, read through the first alternative that matches there |
| Sbp.MatchHasLeftmost | src/utils/sbp.ts:31-32 | a pattern matches iff it has a leftmost match |
| Sbp.MatchFromHasLeftmost | src/utils/sbp.ts:31 | when the search from a position finds something, a leftmost match at or after that position exists |
| Sbp.ExtractSbpOperationId | src/utils/sbp.ts:22-38 | the id comes from the first pattern that matches, with all non-digits removed; it is absent iff no pattern matches |
| Sbp.ExtractedIdOfFirst | src/utils/sbp.ts:30-34 | when pattern k matches and no earlier pattern does, the id is the digits of pattern k's capture (with `MatchIsLeftmost`, of the run after its leftmost label occurrence) |
| Sbp.HyphensOnlyGiveEmptyId | src/utils/sbp.ts:28-33 | when the first pattern that matches captures only hyphens, the extracted id is present and empty |
| Sbp.HyphensOnlyWitness | src/utils/sbp.ts:24-33 | for the text `SBPID: ---`, the first pattern does not match, the second captures `---`, and the id is present and empty |
| Sbp.VerifySbpOperation | src/utils/sbp.ts:40-94 | no key means no request and a fixed error; the result is verified iff the response has both parties; 404 and 401 have their own messages |
| Files.ValidateFile | src/utils/files.ts:13-38 | the size bound is checked first, then the type; valid iff within 10 MiB and of an accepted type |
| Files.IsValidTypeIff | src/utils/files.ts:22-28 | the type is accepted iff the lower-cased MIME type is one of five, or the lower-cased name ends in one of six extensions |
| Files.ExactLimitPasses | src/utils/files.ts:15 | a file of exactly 10 MiB passes the size test |
| Files.SliceAfterDot | src/utils/files.ts:51 | the unsigned shift maps a missing or leading dot past the end of the name |
| Files.GetFileExtensionSpec | src/utils/files.ts:50-52 | the extension is the lower-cased text after the last dot, or empty when there is no dot or only a leading one |
| Files.GetFileExtensionHasNoDot | src/utils/files.ts:50-52 | an extension never contains a dot |
| Api.HandleApiError | src/utils/api.ts:20-41 | always an `Error`, never an axios error; ECONNABORTED before 502 before the body; ApiException and plain errors pass through; a non-Error gets the generic message |
| Api.HandleApiErrorIdempotent | src/utils/api.ts:20-41 | normalising an already normalised error changes nothing |
| Ai.CatchMessage | src/utils/ai.ts:166-178 | an axios error maps to the 502 message, the 429 message or the vendor's message with a fallback; anything else maps to the caller's fixed message |
| Ai.ParseCompletion | src/utils/ai.ts:157-165 | the content is decoded, or an unparsable answer becomes the malformed-response error |
| Ai.RequestJson | src/utils/ai.ts:150-178 | success iff the request returned content that decodes; a returned-but-bad answer fails with the unknown-error message |
| Ai.MalformedMessageHidden | src/utils/ai.ts:159-177 | the malformed-response message is swallowed by the outer catch; it reaches the caller only as the vendor's own message |
| Ai.ImproveLine | src/utils/ai.ts:77-98 | the trimmed completion, or the message of the catch clauses with their own 502 and fallback texts |
| BankApi.StatusMessage | src/utils/bankApi.ts:56-64 | 404, 401, 400 and 500 get their own messages; any other status, or none, gets the default |
| BankApi.FailureRecordOf | src/utils/bankApi.ts:40-66 | an axios failure gives an unverified record echoing the id, with every other field null, the status's message as the error, the vendor message and body as the API response, and the status as a decimal code that reads back as the status |
| BankApi.FailureRecord | src/utils/bankApi.ts:40-66 | the catch block's field-by-field updates build exactly that record |
| BankApi.VerifyWithBankApi | src/utils/bankApi.ts:17-70 | a response is copied field by field; an axios failure gives exactly the failure record; anything else is rethrown with a prefix and the normalised message |

`Ai.VerifyCheckWithAI` (src/utils/ai.ts:101-179) and `Ai.AnalyzeContract`
(src/utils/ai.ts:12-58) are `Ai.RequestJson` applied to their own decoders.
The two functions share every catch clause.

## Left out

- Network transport, endpoints, API keys, prompts, request bodies, `temperature` and `max_tokens`. Each request is an input outcome, and the prompt contents are not modelled.
- `checkServerStatus` (src/utils/api.ts:43-52): it is only a HEAD request, i.e. pure I/O.
- pdf.js text extraction and page rendering, tesseract (`extractTextFromImage`), `FileReader`, object URLs and `crypto.randomUUID`: their results are parameters.
- `formatFileSize` (src/utils/files.ts:40-48): it uses floating-point `Math.log`; it is not modelled.
- The `catch` of `analyzePdfMetadata` (src/utils/verification.ts:64-71) is not modelled: nothing in its `try` can throw on a byte buffer.
- `Vision.RunConfidence`: the confidence is the integer percentage before `/ 100`. `None` stands for NaN, and the float division is not modelled.
- `toLowerCase` covers basic Latin and Cyrillic only. Other scripts are left unchanged.
- JSON shapes are trusted: a decoded value is assumed to have the declared type. `null` and `undefined` are merged into `None`.
- A completion whose `content` is `null`: `JSON.parse(null)` yields `null`, so `verifyCheckWithAI` and `analyzeContract` (src/utils/ai.ts:157-160) resolve with `null`. The model merges that `null` into `None` with a missing content and treats it as an answer that does not parse: the request fails with the unknown-error message, and `VerifyCheck` reports a failure.
- In `verifyWithBankApi`, a falsy response body is treated like an absent one.
- A missing `sender`/`recipient` in the SBP response is the only way that request's success path can throw. Other malformed bodies are not modelled.
- `Files.GetFileExtensionSpec`: stated for names shorter than 2^32 characters, which JavaScript engines never reach.
- `Storage.SaveAllNewestFirst`: stated for a stored list of at most 50 entries, the only kind `saveCheckToHistory` writes.
- Storage is a single in-memory slot. Other tabs, quota errors and a corrupted stored value are not modelled. `JSON.stringify` and `JSON.parse` are taken to be inverse.
- Concurrency and `async` scheduling: each operation runs its awaited steps in order.
