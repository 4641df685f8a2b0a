/**
 * `src/utils/vision.ts`: how `analyzeCheckImage` reads the vision model's
 * `Key: value` answer into a `VisionAnalysis`. Rendering the page and the
 * request are left to the caller, which passes in how the request ended.
 */
module Vision {
  import opened Wrappers
  import opened Types
  import opened Strings
  import opened Api

  const FailureMessage := "Failed to analyze check image. Please try again."

  /** The keys the `switch` recognises, after `toLowerCase`; `Other` for every other key. */
  datatype Key =
    | AmountKey | DateKey | BankKey | OperationKey | SenderKey | RecipientKey | ReferenceKey
    | LegitimateKey | ConfidenceKey | WarningKey | Other

  /** The ten keys of the `switch`, lower-case. */
  const KeyWords: seq<string> :=
    ["amount", "date", "bank", "operation", "sender", "recipient", "reference", "legitimate", "confidence", "warning"]

  /** The `case` a key selects: its lower-cased form, compared with each of the ten keys in turn. */
  function KeyOf(key: string): Key {
    var l := Lower(key);
    if l == "amount" then AmountKey
    else if l == "date" then DateKey
    else if l == "bank" then BankKey
    else if l == "operation" then OperationKey
    else if l == "sender" then SenderKey
    else if l == "recipient" then RecipientKey
    else if l == "reference" then ReferenceKey
    else if l == "legitimate" then LegitimateKey
    else if l == "confidence" then ConfidenceKey
    else if l == "warning" then WarningKey
    else Other
  }

  /** A key is matched ignoring case; a key that is none of the ten is `Other`. */
  lemma KeyOfIff(key: string)
    ensures KeyOf(key) == AmountKey <==> Lower(key) == "amount"
    ensures KeyOf(key) == DateKey <==> Lower(key) == "date"
    ensures KeyOf(key) == BankKey <==> Lower(key) == "bank"
    ensures KeyOf(key) == OperationKey <==> Lower(key) == "operation"
    ensures KeyOf(key) == SenderKey <==> Lower(key) == "sender"
    ensures KeyOf(key) == RecipientKey <==> Lower(key) == "recipient"
    ensures KeyOf(key) == ReferenceKey <==> Lower(key) == "reference"
    ensures KeyOf(key) == LegitimateKey <==> Lower(key) == "legitimate"
    ensures KeyOf(key) == ConfidenceKey <==> Lower(key) == "confidence"
    ensures KeyOf(key) == WarningKey <==> Lower(key) == "warning"
    ensures KeyOf(key) == Other <==> Lower(key) !in KeyWords
  {
  }

  /** A line split on `': '`: the first two parts, trimmed; the value is absent when the line has no `': '`. */
  datatype Entry = Entry(key: string, value: Option<string>)

  /** `line.split(': ').map(s => s.trim())`, of which the first two parts are kept. */
  function ParseLine(line: string): Entry {
    var parts := Split(line, ": ");
    Entry(Trim(parts[0]), if |parts| >= 2 then Some(Trim(parts[1])) else None)
  }

  /**
   * The key is the text before the first `': '`, the value the text up to
   * the next one, both trimmed; anything after a second `': '` is dropped.
   * Without `': '` the whole line is the key and the value is absent.
   */
  lemma ParseLineParts(line: string)
    ensures !Contains(line, ": ") ==> ParseLine(line) == Entry(Trim(line), None)
    ensures Contains(line, ": ") ==>
      var i := IndexOf(line, ": ").value;
      ParseLine(line) == Entry(Trim(line[..i]), Some(Trim(BeforeSep(line[i + 2..], ": "))))
  {
    var parts := Split(line, ": ");
    SplitFirst(line, ": ");
    SplitSecond(line, ": ");
    if Contains(line, ": ") {
      var i := IndexOf(line, ": ").value;
      assert parts[0] == line[..i];
      assert parts[1] == BeforeSep(line[i + 2..], ": ");
    } else {
      assert parts[0] == line;
      assert |parts| < 2;
    }
  }

  /** Every line of the answer, parsed. */
  function ParseLines(lines: seq<string>): (es: seq<Entry>)
    ensures |es| == |lines| && forall i :: 0 <= i < |lines| ==> es[i] == ParseLine(lines[i])
  {
    seq(|lines|, i requires 0 <= i < |lines| => ParseLine(lines[i]))
  }

  /** What the parse has gathered so far: the variables `analyzeCheckImage` updates line by line. */
  datatype Opinion = Opinion(data: ExtractedData, verified: bool, confidence: Option<int>, warning: Option<string>)

  const NoData := ExtractedData(None, None, None, None, None, None, None, None, None)

  /** `verified = false`, `confidence = 0`, `warning = undefined`, and an empty record. */
  const Initial := Opinion(NoData, false, Some(0), None)

  /** The class kept by `value.replace(/[^\d.,]/g, '')`. */
  predicate IsAmountChar(c: char) { IsDigit(c) || c == '.' || c == ',' }

  /** `value && value !== 'N/A'`. */
  predicate Meaningful(v: Option<string>) { v.Some? && v.value != "" && v.value != "N/A" }

  /** A line that dereferences a missing value: `amount` and `legitimate` without `': '`. */
  predicate Throws(e: Entry) {
    (KeyOf(e.key) == AmountKey || KeyOf(e.key) == LegitimateKey) && e.value.None?
  }

  /** `parseInt(value) / 100`, as the integer percentage; `parseInt(undefined)` is NaN. */
  function Confidence(v: Option<string>): Option<int> {
    match v
    case None => None
    case Some(t) => ParseInt(t)
  }

  /** One pass of the `switch`: `None` when the line throws; a line with another key changes nothing. */
  function Step(o: Opinion, e: Entry): (r: Option<Opinion>)
    ensures r.None? <==> Throws(e)
    ensures KeyOf(e.key) == Other ==> r == Some(o)
  {
    var d := o.data;
    match KeyOf(e.key)
    case AmountKey =>
      if e.value.None? then None else Some(o.(data := d.(amount := Some(Filter(e.value.value, IsAmountChar)))))
    case DateKey => Some(o.(data := d.(date := e.value)))
    case BankKey => Some(o.(data := d.(bankName := e.value)))
    case OperationKey => Some(o.(data := d.(operationType := e.value)))
    case SenderKey => Some(if Meaningful(e.value) then o.(data := d.(sender := e.value)) else o)
    case RecipientKey => Some(if Meaningful(e.value) then o.(data := d.(recipient := e.value)) else o)
    case ReferenceKey => Some(if Meaningful(e.value) then o.(data := d.(reference := e.value)) else o)
    case LegitimateKey =>
      if e.value.None? then None else Some(o.(verified := Lower(e.value.value) == "yes"))
    case ConfidenceKey => Some(o.(confidence := Confidence(e.value)))
    case WarningKey =>
      Some(if Meaningful(e.value) && e.value.value != "None" then o.(warning := e.value) else o)
    case Other => Some(o)
  }

  /** The parse of the first entries, applied in order; `None` once one throws. */
  function Run(es: seq<Entry>): Option<Opinion>
    decreases |es|
  {
    if es == [] then Some(Initial)
    else match Run(es[..|es| - 1])
      case None => None
      case Some(o) => Step(o, es[|es| - 1])
  }

  /** The answer read into the result record; `rawAnalysis` is the answer itself. */
  function Assemble(o: Opinion, analysis: string): VisionAnalysis {
    VisionAnalysis(o.verified, o.confidence, o.data, analysis, o.warning)
  }

  /** The lines of an answer, parsed. */
  function Entries(analysis: string): seq<Entry> {
    ParseLines(Split(analysis, "\n"))
  }

  /** The parsing part of `analyzeCheckImage`: the `forEach` over the lines of the answer. */
  method ParseAnalysis(analysis: string) returns (r: Option<VisionAnalysis>)
    ensures var run := Run(Entries(analysis));
      r == if run.None? then None else Some(Assemble(run.value, analysis))
  {
    var lines := Split(analysis, "\n");
    ghost var es := ParseLines(lines);
    assert es == Entries(analysis);
    var extractedData := NoData;
    var verified := false;
    var confidence: Option<int> := Some(0);
    var warning: Option<string> := None;
    var i := 0;
    while i < |lines|
      invariant 0 <= i <= |lines|
      invariant Run(es[..i]) == Some(Opinion(extractedData, verified, confidence, warning))
    {
      assert es[i] == ParseLine(lines[i]);
      RunExtend(es, i);
      var ok;
      ok, extractedData, verified, confidence, warning := VisitLine(lines[i], extractedData, verified, confidence, warning);
      if !ok {
        FailedPrefix(es, i + 1);
        return None;
      }
      i := i + 1;
    }
    assert es[..i] == es;
    r := Some(VisionAnalysis(verified, confidence, extractedData, analysis, warning));
  }

  /**
   * The `forEach` callback: splits one line and runs the `switch`, updating
   * the variables it closes over; `ok` is false when the line throws.
   */
  method VisitLine(line: string, extractedData: ExtractedData, verified: bool, confidence: Option<int>, warning: Option<string>)
    returns (ok: bool, extractedData': ExtractedData, verified': bool, confidence': Option<int>, warning': Option<string>)
    ensures var step := Step(Opinion(extractedData, verified, confidence, warning), ParseLine(line));
      && (ok <==> step.Some?)
      && (ok ==> step.value == Opinion(extractedData', verified', confidence', warning'))
  {
    ok, extractedData', verified', confidence', warning' := true, extractedData, verified, confidence, warning;
    var entry := ParseLine(line);
    var key, value := entry.key, entry.value;
    var k := KeyOf(key);
    if k == AmountKey {
      if value.None? {
        ok := false;
        return;
      }
      extractedData' := extractedData.(amount := Some(Filter(value.value, IsAmountChar)));
    } else if k == DateKey {
      extractedData' := extractedData.(date := value);
    } else if k == BankKey {
      extractedData' := extractedData.(bankName := value);
    } else if k == OperationKey {
      extractedData' := extractedData.(operationType := value);
    } else if k == SenderKey {
      if Meaningful(value) { extractedData' := extractedData.(sender := value); }
    } else if k == RecipientKey {
      if Meaningful(value) { extractedData' := extractedData.(recipient := value); }
    } else if k == ReferenceKey {
      if Meaningful(value) { extractedData' := extractedData.(reference := value); }
    } else if k == LegitimateKey {
      if value.None? {
        ok := false;
        return;
      }
      verified' := Lower(value.value) == "yes";
    } else if k == ConfidenceKey {
      confidence' := Confidence(value);
    } else if k == WarningKey {
      if Meaningful(value) && value.value != "None" { warning' := value; }
    }
  }

  /** One more entry is one more step. */
  lemma RunExtend(es: seq<Entry>, i: nat)
    requires i < |es| && Run(es[..i]).Some?
    ensures Run(es[..i + 1]) == Step(Run(es[..i]).value, es[i])
  {
    var upto := es[..i + 1];
    assert upto[..|upto| - 1] == es[..i] && upto[|upto| - 1] == es[i];
  }

  /** Once the parse of the first `i` entries has failed, later entries change nothing. */
  lemma {:induction false} FailedPrefix(es: seq<Entry>, i: nat)
    requires i <= |es| && Run(es[..i]).None?
    ensures Run(es).None?
    decreases |es| - i
  {
    if i == |es| {
      assert es[..i] == es;
    } else {
      var upto := es[..i + 1];
      assert upto[..|upto| - 1] == es[..i];
      FailedPrefix(es, i + 1);
    }
  }

  /**
   * `analyzeCheckImage` from the request onwards: a failed request, an
   * answer with no content, or a line that throws all end in the one
   * error message of its `catch`.
   */
  method AnalyzeCheckImage(call: Call<Completion>) returns (r: Result<VisionAnalysis>)
    ensures r.Failure? ==> r.error == FailureMessage
    ensures r.Success? <==> call.Returned? && call.value.content.Some? && Run(Entries(call.value.content.value)).Some?
    ensures r.Success? ==> r.value == Assemble(Run(Entries(call.value.content.value)).value, call.value.content.value)
  {
    if call.Threw? || call.value.content.None? {
      return Failure(FailureMessage);
    }
    var analysis := call.value.content.value;
    var parsed := ParseAnalysis(analysis);
    if parsed.None? {
      return Failure(FailureMessage);
    }
    return Success(parsed.value);
  }

  // ------------------------------------------------------ what a parse keeps

  /** The text fields of the result, the warning among them. */
  datatype Field =
    | AmountField | DateField | BankNameField | OperationTypeField | SenderField
    | RecipientField | RecipientPhoneField | OperationIdField | ReferenceField | WarningField

  function Get(o: Opinion, f: Field): Option<string> {
    match f
    case AmountField => o.data.amount
    case DateField => o.data.date
    case BankNameField => o.data.bankName
    case OperationTypeField => o.data.operationType
    case SenderField => o.data.sender
    case RecipientField => o.data.recipient
    case RecipientPhoneField => o.data.recipientPhone
    case OperationIdField => o.data.operationId
    case ReferenceField => o.data.reference
    case WarningField => o.warning
  }

  /**
   * The same `switch` read by field: what an entry writes into field `f`,
   * or `None` when it leaves the field alone. Only the field's own key
   * writes it; the phone and the operation id are never written.
   */
  function Writes(e: Entry, f: Field): Option<Option<string>> {
    var k := KeyOf(e.key);
    match f
    case AmountField => if k == AmountKey && e.value.Some? then Some(Some(Filter(e.value.value, IsAmountChar))) else None
    case DateField => if k == DateKey then Some(e.value) else None
    case BankNameField => if k == BankKey then Some(e.value) else None
    case OperationTypeField => if k == OperationKey then Some(e.value) else None
    case SenderField => if k == SenderKey && Meaningful(e.value) then Some(e.value) else None
    case RecipientField => if k == RecipientKey && Meaningful(e.value) then Some(e.value) else None
    case RecipientPhoneField => None
    case OperationIdField => None
    case ReferenceField => if k == ReferenceKey && Meaningful(e.value) then Some(e.value) else None
    case WarningField =>
      if k == WarningKey && Meaningful(e.value) && e.value.value != "None" then Some(e.value) else None
  }

  /** One entry changes a field exactly as the by-field table says. */
  lemma StepWrites(o: Opinion, e: Entry, f: Field)
    requires !Throws(e)
    ensures Step(o, e).Some?
    ensures Get(Step(o, e).value, f) == if Writes(e, f).Some? then Writes(e, f).value else Get(o, f)
  {
    match f
    case AmountField =>
    case DateField =>
    case BankNameField =>
    case OperationTypeField =>
    case SenderField =>
    case RecipientField =>
    case RecipientPhoneField =>
    case OperationIdField =>
    case ReferenceField =>
    case WarningField =>
  }

  /** The last entry satisfying `p`. */
  function LastWhere(es: seq<Entry>, p: Entry -> bool): (r: Option<nat>)
    ensures r.Some? ==> r.value < |es| && p(es[r.value])
    ensures r.Some? ==> forall k :: r.value < k < |es| ==> !p(es[k])
    ensures r.None? ==> forall k :: 0 <= k < |es| ==> !p(es[k])
    decreases |es|
  {
    if es == [] then None
    else if p(es[|es| - 1]) then Some(|es| - 1)
    else LastWhere(es[..|es| - 1], p)
  }

  predicate WritesTo(f: Field, e: Entry) { Writes(e, f).Some? }

  /** The value a field ends with: that of the last entry writing it, absent when none does. */
  function Final(es: seq<Entry>, f: Field): Option<string> {
    match LastWhere(es, e => WritesTo(f, e))
    case None => None
    case Some(k) => Writes(es[k], f).value
  }

  /** Later lines overwrite earlier ones, and each field holds what its last writing line wrote. */
  lemma {:induction false} RunFinal(es: seq<Entry>, f: Field)
    requires Run(es).Some?
    ensures Get(Run(es).value, f) == Final(es, f)
    decreases |es|
  {
    if es != [] {
      var front := es[..|es| - 1];
      var last := es[|es| - 1];
      RunFinal(front, f);
      StepWrites(Run(front).value, last, f);
      var p := e => WritesTo(f, e);
      if !p(last) {
        assert LastWhere(es, p) == LastWhere(front, p);
        if LastWhere(front, p).Some? {
          assert es[LastWhere(front, p).value] == front[LastWhere(front, p).value];
        }
      }
    }
  }

  /** A parse fails exactly when some line is an `amount` or `legitimate` line without `': '`. */
  lemma {:induction false} RunFailsIff(es: seq<Entry>)
    ensures Run(es).None? <==> exists k :: 0 <= k < |es| && Throws(es[k])
    decreases |es|
  {
    if es != [] {
      RunFailsIff(es[..|es| - 1]);
      RunLastFails(es);
      SomeOfSnoc(es, es[..|es| - 1], Throws);
    }
  }

  /** The parse of a non-empty list fails when that of all but its last entry does, or the last one throws. */
  lemma RunLastFails(es: seq<Entry>)
    requires es != []
    ensures Run(es).None? <==> Run(es[..|es| - 1]).None? || Throws(es[|es| - 1])
  {
    var front, last := es[..|es| - 1], es[|es| - 1];
    if Run(front).Some? {
      assert Run(es) == Step(Run(front).value, last);
    }
  }

  /** Some element satisfies `p` when one of all but the last does, or the last does. */
  lemma SomeOfSnoc<T>(s: seq<T>, front: seq<T>, p: T -> bool)
    requires s != [] && front == s[..|s| - 1]
    ensures (exists k :: 0 <= k < |s| && p(s[k])) <==>
      (exists k :: 0 <= k < |front| && p(front[k])) || p(s[|s| - 1])
  {
    if exists k :: 0 <= k < |s| && p(s[k]) {
      var k :| 0 <= k < |s| && p(s[k]);
      if k < |front| { assert s[k] == front[k]; }
    }
    if exists k :: 0 <= k < |front| && p(front[k]) {
      var k :| 0 <= k < |front| && p(front[k]);
      assert s[k] == front[k];
    }
  }

  predicate IsLegitimate(e: Entry) { KeyOf(e.key) == LegitimateKey }

  /** Only a `legitimate` line sets `verified`. */
  lemma StepVerified(o: Opinion, e: Entry)
    requires Step(o, e).Some?
    ensures Step(o, e).value.verified == if IsLegitimate(e) then Lower(e.value.value) == "yes" else o.verified
  {
  }

  /** `verified` is decided by the last `legitimate` line alone, and is false without one. */
  lemma {:induction false} RunVerified(es: seq<Entry>)
    requires Run(es).Some?
    ensures Run(es).value.verified <==>
      match LastWhere(es, IsLegitimate)
      case None => false
      case Some(k) => es[k].value.Some? && Lower(es[k].value.value) == "yes"
    decreases |es|
  {
    if es != [] {
      var front := es[..|es| - 1];
      var last := es[|es| - 1];
      RunVerified(front);
      StepVerified(Run(front).value, last);
      if !IsLegitimate(last) {
        assert LastWhere(es, IsLegitimate) == LastWhere(front, IsLegitimate);
        if LastWhere(front, IsLegitimate).Some? {
          assert es[LastWhere(front, IsLegitimate).value] == front[LastWhere(front, IsLegitimate).value];
        }
      }
    }
  }

  predicate IsConfidence(e: Entry) { KeyOf(e.key) == ConfidenceKey }

  /** Only a `confidence` line sets the confidence. */
  lemma StepConfidence(o: Opinion, e: Entry)
    requires Step(o, e).Some?
    ensures Step(o, e).value.confidence == if IsConfidence(e) then Confidence(e.value) else o.confidence
  {
  }

  /** `confidence` is the `parseInt` of the last `confidence` line's value, unclamped; 0 without one. */
  lemma {:induction false} RunConfidence(es: seq<Entry>)
    requires Run(es).Some?
    ensures Run(es).value.confidence ==
      match LastWhere(es, IsConfidence)
      case None => Some(0)
      case Some(k) => Confidence(es[k].value)
    decreases |es|
  {
    if es != [] {
      var front := es[..|es| - 1];
      var last := es[|es| - 1];
      RunConfidence(front);
      StepConfidence(Run(front).value, last);
      if !IsConfidence(last) {
        assert LastWhere(es, IsConfidence) == LastWhere(front, IsConfidence);
        if LastWhere(front, IsConfidence).Some? {
          assert es[LastWhere(front, IsConfidence).value] == front[LastWhere(front, IsConfidence).value];
        }
      }
    }
  }

  /**
   * What a written field may hold: the amount only digits, `.` and `,`;
   * sender, recipient, reference and warning never empty or `N/A` (the
   * warning never `None` either); the phone and the operation id nothing.
   */
  predicate Admissible(f: Field, v: Option<string>) {
    match f
    case AmountField => v.Some? && forall i :: 0 <= i < |v.value| ==> IsAmountChar(v.value[i])
    case SenderField => Meaningful(v)
    case RecipientField => Meaningful(v)
    case ReferenceField => Meaningful(v)
    case WarningField => Meaningful(v) && v.value != "None"
    case RecipientPhoneField => false
    case OperationIdField => false
    case _ => true
  }

  lemma WritesAdmissible(e: Entry, f: Field)
    ensures Writes(e, f).Some? ==> Admissible(f, Writes(e, f).value)
  {
    if e.value.Some? {
      FilterKeeps(e.value.value, IsAmountChar);
    }
  }

  /**
   * Whatever a parse leaves in a field was written by one of the lines, so
   * it is admissible: a later `N/A` or `None` never clears a sender,
   * recipient, reference or warning, and the phone and operation id stay
   * absent.
   */
  lemma FieldAdmissible(es: seq<Entry>, f: Field)
    requires Run(es).Some?
    ensures Get(Run(es).value, f).None? || Admissible(f, Get(Run(es).value, f))
  {
    RunFinal(es, f);
    match LastWhere(es, e => WritesTo(f, e))
    case None =>
    case Some(k) => WritesAdmissible(es[k], f);
  }

  /** The field constraints spelled out on the result record. */
  lemma FieldValues(es: seq<Entry>)
    requires Run(es).Some?
    ensures var d := Run(es).value.data;
      && (d.amount.Some? ==> forall i :: 0 <= i < |d.amount.value| ==> IsAmountChar(d.amount.value[i]))
      && (d.sender.Some? ==> d.sender.value != "" && d.sender.value != "N/A")
      && (d.recipient.Some? ==> d.recipient.value != "" && d.recipient.value != "N/A")
      && (d.reference.Some? ==> d.reference.value != "" && d.reference.value != "N/A")
      && d.recipientPhone.None? && d.operationId.None?
    ensures var w := Run(es).value.warning;
      w.Some? ==> w.value != "" && w.value != "N/A" && w.value != "None"
  {
    forall f | true
      ensures Get(Run(es).value, f).None? || Admissible(f, Get(Run(es).value, f))
    {
      FieldAdmissible(es, f);
    }
    AdmissibleOpinion(Run(es).value);
  }

  /** An opinion whose every field is absent or admissible, spelled out field by field. */
  lemma AdmissibleOpinion(o: Opinion)
    requires forall f :: Get(o, f).None? || Admissible(f, Get(o, f))
    ensures var d := o.data;
      && (d.amount.Some? ==> forall i :: 0 <= i < |d.amount.value| ==> IsAmountChar(d.amount.value[i]))
      && (d.sender.Some? ==> d.sender.value != "" && d.sender.value != "N/A")
      && (d.recipient.Some? ==> d.recipient.value != "" && d.recipient.value != "N/A")
      && (d.reference.Some? ==> d.reference.value != "" && d.reference.value != "N/A")
      && d.recipientPhone.None? && d.operationId.None?
    ensures o.warning.Some? ==> o.warning.value != "" && o.warning.value != "N/A" && o.warning.value != "None"
  {
    assert Get(o, AmountField).None? || Admissible(AmountField, Get(o, AmountField));
    assert Get(o, SenderField).None? || Admissible(SenderField, Get(o, SenderField));
    assert Get(o, RecipientField).None? || Admissible(RecipientField, Get(o, RecipientField));
    assert Get(o, ReferenceField).None? || Admissible(ReferenceField, Get(o, ReferenceField));
    assert Get(o, RecipientPhoneField).None? || Admissible(RecipientPhoneField, Get(o, RecipientPhoneField));
    assert Get(o, OperationIdField).None? || Admissible(OperationIdField, Get(o, OperationIdField));
    assert Get(o, WarningField).None? || Admissible(WarningField, Get(o, WarningField));
  }
}
