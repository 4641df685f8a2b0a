/**
 * `src/utils/sbp.ts`: finding an SBP (Faster Payments System) operation id
 * in receipt text, and the record `verifySbpOperation` returns once its
 * request has settled.
 */
module Sbp {
  import opened Wrappers
  import opened Types
  import opened Api
  import opened Strings

  // ------------------------------------------------------------ the patterns

  /**
   * A pattern of the shape `/(?:L1|L2|…)[\s:]*([\d-]+)/i`: one of the labels,
   * matched ignoring case, then any run of white space and colons, then the
   * captured run of digits and hyphens.
   */
  datatype LabelPattern = LabelPattern(labels: seq<string>)

  /**
   * The three patterns, in the order they are tried. `SBP(?:ID|ИД)` is
   * written out as its two labels.
   */
  const Patterns: seq<LabelPattern> := [
    LabelPattern(["ID операции", "Идентификатор операции", "Операция"]),
    LabelPattern(["SBPID", "SBPИД"]),
    LabelPattern(["СБПID", "СБПИД"])
  ]

  /** Equality under the `i` flag. */
  predicate SameIgnoringCase(a: char, b: char) { LowerChar(a) == LowerChar(b) }

  predicate LabelAt(s: string, lit: string, p: nat) {
    p + |lit| <= |s| && forall k :: 0 <= k < |lit| ==> SameIgnoringCase(s[p + k], lit[k])
  }

  predicate IsSeparator(c: char) { IsSpace(c) || c == ':' }

  predicate IsIdChar(c: char) { IsDigit(c) || c == '-' }

  /** `[\s:]*([\d-]+)` at position `q`: the captured run, if there is one. */
  function CaptureAt(s: string, q: nat): (r: Option<string>)
    requires q <= |s|
    ensures r.Some? ==> r.value != [] && forall i :: 0 <= i < |r.value| ==> IsIdChar(r.value[i])
  {
    var gap := PrefixWhile(s[q..], IsSeparator);
    var run := PrefixWhile(s[q + |gap|..], IsIdChar);
    if run == [] then None else Some(run)
  }

  /** Whether `[\s:]*[\d-]` can match at `q`: some separators, then a digit or hyphen. */
  lemma CaptureAtIff(s: string, q: nat)
    requires q <= |s|
    ensures CaptureAt(s, q).Some? <==>
      exists e :: q <= e < |s| && IsIdChar(s[e]) && forall k :: q <= k < e ==> IsSeparator(s[k])
  {
    var gap := PrefixWhile(s[q..], IsSeparator);
    var e := q + |gap|;
    forall k | q <= k < e ensures IsSeparator(s[k]) { assert s[k] == gap[k - q]; }
    assert e < |s| ==> !IsSeparator(s[e]) && s[e..][0] == s[e] by {
      if e < |s| { assert s[e] == s[q..][|gap|]; }
    }
  }

  /** Alternative `k` of the labels matches at `p`: the label, ignoring case, then a capture. */
  predicate MatchesAt(s: string, labels: seq<string>, p: nat, k: nat) {
    p <= |s| && k < |labels| && LabelAt(s, labels[k], p) && CaptureAt(s, p + |labels[k]|).Some?
  }

  /** The alternatives from the `k`-th on, tried in order at position `p`. */
  function MatchLabelsAt(s: string, labels: seq<string>, p: nat, k: nat): (r: Option<string>)
    requires p <= |s|
    ensures r.Some? ==> r.value != [] && forall i :: 0 <= i < |r.value| ==> IsIdChar(r.value[i])
    decreases |labels| - k
  {
    if k >= |labels| then None
    else if MatchesAt(s, labels, p, k) then CaptureAt(s, p + |labels[k]|)
    else MatchLabelsAt(s, labels, p, k + 1)
  }

  /** `text.match(pattern)[1]`: the leftmost position at or after `p` where an alternative matches. */
  function MatchFrom(s: string, labels: seq<string>, p: nat): (r: Option<string>)
    requires p <= |s|
    ensures r.Some? ==> r.value != [] && forall i :: 0 <= i < |r.value| ==> IsIdChar(r.value[i])
    decreases |s| - p
  {
    var here := MatchLabelsAt(s, labels, p, 0);
    if here.Some? then here
    else if p == |s| then None
    else MatchFrom(s, labels, p + 1)
  }

  function Match(text: string, pattern: LabelPattern): Option<string> {
    MatchFrom(text, pattern.labels, 0)
  }

  lemma {:induction false} MatchLabelsAtIff(s: string, labels: seq<string>, p: nat, k: nat)
    requires p <= |s|
    ensures MatchLabelsAt(s, labels, p, k).Some? <==> exists j: nat :: k <= j && MatchesAt(s, labels, p, j)
    decreases |labels| - k
  {
    if k < |labels| && !MatchesAt(s, labels, p, k) {
      MatchLabelsAtIff(s, labels, p, k + 1);
      forall j: nat | k <= j && MatchesAt(s, labels, p, j) ensures k + 1 <= j {}
    }
  }

  lemma {:induction false} MatchFromIff(s: string, labels: seq<string>, p: nat)
    requires p <= |s|
    ensures MatchFrom(s, labels, p).Some? <==> exists q: nat, k: nat :: p <= q && MatchesAt(s, labels, q, k)
    decreases |s| - p
  {
    MatchLabelsAtIff(s, labels, p, 0);
    if MatchLabelsAt(s, labels, p, 0).Some? {
      var k: nat :| 0 <= k && MatchesAt(s, labels, p, k);
      assert p <= p && MatchesAt(s, labels, p, k);
    } else if p == |s| {
      forall q: nat, k: nat | p <= q ensures !MatchesAt(s, labels, q, k) {}
    } else {
      MatchFromIff(s, labels, p + 1);
      forall q: nat, k: nat | p <= q && MatchesAt(s, labels, q, k) ensures p + 1 <= q {}
    }
  }

  /**
   * A pattern matches exactly when one of its labels occurs (ignoring case)
   * and is followed by white space and colons and then a digit or hyphen.
   */
  lemma MatchIff(text: string, pattern: LabelPattern)
    ensures Match(text, pattern).Some? <==>
      exists p: nat, k: nat :: MatchesAt(text, pattern.labels, p, k)
  {
    MatchFromIff(text, pattern.labels, 0);
  }

  /** Alternative `k` is the first of the labels that matches at `p`. */
  predicate FirstAlternativeAt(s: string, labels: seq<string>, p: nat, k: nat) {
    MatchesAt(s, labels, p, k) && forall j: nat :: j < k ==> !MatchesAt(s, labels, p, j)
  }

  /** No alternative of the labels matches at `q`. */
  predicate NoAlternativeAt(s: string, labels: seq<string>, q: nat) {
    forall j: nat :: j < |labels| ==> !MatchesAt(s, labels, q, j)
  }

  /**
   * The leftmost match at or after `p`: alternative `k` is the first that
   * matches at `q`, and nothing matches between `p` and `q`.
   */
  predicate LeftmostMatch(s: string, labels: seq<string>, p: nat, q: nat, k: nat) {
    && p <= q
    && FirstAlternativeAt(s, labels, q, k)
    && forall q': nat :: p <= q' < q ==> NoAlternativeAt(s, labels, q')
  }

  /** The alternatives are tried in order: the first that matches gives the capture. */
  lemma {:induction false} MatchLabelsAtFirst(s: string, labels: seq<string>, p: nat, i: nat, k: nat)
    requires i <= k && FirstAlternativeAt(s, labels, p, k)
    ensures MatchLabelsAt(s, labels, p, i) == CaptureAt(s, p + |labels[k]|)
    decreases k - i
  {
    if i < k {
      assert !MatchesAt(s, labels, p, i);
      MatchLabelsAtFirst(s, labels, p, i + 1, k);
    }
  }

  lemma {:induction false} MatchLabelsAtHasFirst(s: string, labels: seq<string>, p: nat, i: nat)
    requires p <= |s| && MatchLabelsAt(s, labels, p, i).Some?
    requires forall j: nat :: j < i ==> !MatchesAt(s, labels, p, j)
    ensures exists k: nat :: FirstAlternativeAt(s, labels, p, k)
    decreases |labels| - i
  {
    if MatchesAt(s, labels, p, i) {
      assert FirstAlternativeAt(s, labels, p, i);
    } else {
      MatchLabelsAtHasFirst(s, labels, p, i + 1);
    }
  }

  /** The search scans left to right: the leftmost match gives the capture. */
  lemma {:induction false} MatchFromLeftmost(s: string, labels: seq<string>, p: nat, q: nat, k: nat)
    requires p <= |s| && LeftmostMatch(s, labels, p, q, k)
    ensures MatchFrom(s, labels, p) == CaptureAt(s, q + |labels[k]|)
    decreases q - p
  {
    if q == p {
      MatchLabelsAtFirst(s, labels, p, 0, k);
    } else {
      assert NoAlternativeAt(s, labels, p);
      MatchLabelsAtIff(s, labels, p, 0);
      MatchFromLeftmost(s, labels, p + 1, q, k);
    }
  }

  lemma {:induction false} MatchFromHasLeftmost(s: string, labels: seq<string>, p: nat)
    requires p <= |s| && MatchFrom(s, labels, p).Some?
    ensures exists q: nat, k: nat :: LeftmostMatch(s, labels, p, q, k)
    decreases |s| - p
  {
    if MatchLabelsAt(s, labels, p, 0).Some? {
      MatchLabelsAtHasFirst(s, labels, p, 0);
      var k: nat :| FirstAlternativeAt(s, labels, p, k);
      assert LeftmostMatch(s, labels, p, p, k);
    } else {
      MatchLabelsAtIff(s, labels, p, 0);
      assert NoAlternativeAt(s, labels, p);
      MatchFromHasLeftmost(s, labels, p + 1);
      var q: nat, k: nat :| LeftmostMatch(s, labels, p + 1, q, k);
      assert LeftmostMatch(s, labels, p, q, k);
    }
  }

  /**
   * `text.match(pattern)[1]` is the run captured after the leftmost label
   * occurrence, taking the first alternative of the pattern that matches there.
   */
  lemma MatchIsLeftmost(text: string, pattern: LabelPattern, q: nat, k: nat)
    requires LeftmostMatch(text, pattern.labels, 0, q, k)
    ensures Match(text, pattern) == CaptureAt(text, q + |pattern.labels[k]|)
    ensures Match(text, pattern).Some?
  {
    MatchFromLeftmost(text, pattern.labels, 0, q, k);
  }

  /** A pattern matches exactly when it has a leftmost match. */
  lemma MatchHasLeftmost(text: string, pattern: LabelPattern)
    ensures Match(text, pattern).Some? <==>
      exists q: nat, k: nat :: LeftmostMatch(text, pattern.labels, 0, q, k)
  {
    MatchFromLeftmostIff(text, pattern.labels);
  }

  lemma MatchFromLeftmostIff(s: string, labels: seq<string>)
    ensures MatchFrom(s, labels, 0).Some? <==> exists q: nat, k: nat :: LeftmostMatch(s, labels, 0, q, k)
  {
    if MatchFrom(s, labels, 0).Some? {
      MatchFromHasLeftmost(s, labels, 0);
    } else {
      forall q: nat, k: nat ensures LeftmostMatch(s, labels, 0, q, k) ==> MatchFrom(s, labels, 0).Some? {
        if LeftmostMatch(s, labels, 0, q, k) {
          MatchFromLeftmost(s, labels, 0, q, k);
        }
      }
    }
  }

  /**
   * What `extractSbpOperationId` returns for `text` when it tries `patterns`
   * in order: nothing iff no pattern matches, and otherwise the digits of the
   * run captured by the first pattern that matches.
   */
  predicate IsExtractedId(text: string, patterns: seq<LabelPattern>, r: Option<string>) {
    && (r.None? <==> forall k :: 0 <= k < |patterns| ==> Match(text, patterns[k]).None?)
    && (r.Some? ==> exists k ::
      && 0 <= k < |patterns|
      && Match(text, patterns[k]).Some?
      && (forall j :: 0 <= j < k ==> Match(text, patterns[j]).None?)
      && r.value == Filter(Match(text, patterns[k]).value, IsDigit))
  }

  method ExtractSbpOperationId(text: string) returns (r: Option<string>)
    ensures IsExtractedId(text, Patterns, r)
    ensures r.Some? ==> forall i :: 0 <= i < |r.value| ==> IsDigit(r.value[i])
  {
    var i := 0;
    while i < |Patterns|
      invariant 0 <= i <= |Patterns|
      invariant forall j :: 0 <= j < i ==> Match(text, Patterns[j]).None?
    {
      var m := Match(text, Patterns[i]);
      if m.Some? {
        FilterKeeps(m.value, IsDigit);
        return Some(Filter(m.value, IsDigit));
      }
      i := i + 1;
    }
    return None;
  }

  /** The id is the digits of the capture of the first pattern that matches. */
  lemma ExtractedIdOfFirst(text: string, patterns: seq<LabelPattern>, r: Option<string>, k: nat)
    requires IsExtractedId(text, patterns, r)
    requires k < |patterns| && Match(text, patterns[k]).Some?
    requires forall j :: 0 <= j < k ==> Match(text, patterns[j]).None?
    ensures r == Some(Filter(Match(text, patterns[k]).value, IsDigit))
  {
    assert r.Some?;
    var k' :| 0 <= k' < |patterns| && Match(text, patterns[k']).Some?
      && (forall j :: 0 <= j < k' ==> Match(text, patterns[j]).None?)
      && r.value == Filter(Match(text, patterns[k']).value, IsDigit);
    assert k' == k;
  }

  /**
   * A run made only of hyphens is still a match: when the first pattern that
   * matches captures one, the id is present and empty.
   */
  lemma HyphensOnlyGiveEmptyId(text: string, patterns: seq<LabelPattern>, k: nat, run: string, r: Option<string>)
    requires k < |patterns| && Match(text, patterns[k]) == Some(run)
    requires forall j :: 0 <= j < k ==> Match(text, patterns[j]).None?
    requires forall i :: 0 <= i < |run| ==> run[i] == '-'
    requires IsExtractedId(text, patterns, r)
    ensures r == Some([])
  {
    ExtractedIdOfFirst(text, patterns, r, k);
    FilterNone(run, IsDigit);
  }

  /** No label of the first pattern occurs in `SBPID: ---`. */
  lemma NoOperationLabel(text: string)
    requires text == "SBPID: ---"
    ensures Match(text, Patterns[0]).None?
  {
    var labels := Patterns[0].labels;
    forall p: nat, k: nat ensures !MatchesAt(text, labels, p, k) {
      if k == 2 && p + 8 <= |text| {
        assert LowerChar(text[p]) != LowerChar(labels[2][0]);
      }
    }
    MatchIff(text, Patterns[0]);
  }

  /** The second pattern captures the hyphens of `SBPID: ---`. */
  lemma SbpIdLabel(text: string)
    requires text == "SBPID: ---"
    ensures Match(text, Patterns[1]) == Some("---")
  {
    var labels := Patterns[1].labels;
    assert LabelAt(text, labels[0], 0);
    var gap := PrefixWhile(text[5..], IsSeparator);
    assert text[5..] == ": ---";
    assert |gap| == 2 by {
      assert IsSeparator(text[5..][0]) && IsSeparator(text[5..][1]) && !IsSeparator(text[5..][2]);
    }
    var run := PrefixWhile(text[7..], IsIdChar);
    assert text[7..] == "---";
    assert |run| == 3;
    assert run == "---";
    assert CaptureAt(text, 5) == Some("---");
    assert MatchLabelsAt(text, labels, 0, 0) == Some("---");
  }

  /** `SBPID: ---` is matched by the second pattern only, and its id is empty. */
  lemma HyphensOnlyWitness(text: string, r: Option<string>)
    requires text == "SBPID: ---" && IsExtractedId(text, Patterns, r)
    ensures r == Some([])
  {
    NoOperationLabel(text);
    SbpIdLabel(text);
    assert forall j :: 0 <= j < 1 ==> Match(text, Patterns[j]).None?;
    assert forall i :: 0 <= i < |"---"| ==> "---"[i] == '-';
    HyphensOnlyGiveEmptyId(text, Patterns, 1, "---", r);
  }

  // ----------------------------------------------------- verifySbpOperation

  datatype Party = Party(bank: string, account: string)

  /** The body of a successful response; a missing party makes reading its bank throw. */
  datatype SbpApiResponse = SbpApiResponse(
    operationId: string, status: string, timestamp: string, amount: real,
    sender: Option<Party>, recipient: Option<Party>)

  const KeyMissingMessage := "SBP API key not configured"
  const NotFoundMessage := "SBP operation not found"
  const InvalidKeyMessage := "Invalid SBP API key"
  const FailedMessage := "Failed to verify SBP operation"

  /** `!SBP_API_KEY`: the key is unset or empty. */
  predicate KeyConfigured(apiKey: Option<string>) { apiKey.Some? && apiKey.value != "" }

  /**
   * `verifySbpOperation`: without a key nothing is requested; otherwise the
   * request's outcome decides the record. It never throws.
   */
  method VerifySbpOperation(apiKey: Option<string>, operationId: string, call: Call<SbpApiResponse>)
    returns (r: SbpVerificationResult)
    ensures r.operationId == operationId
    ensures !KeyConfigured(apiKey) ==>
      r == SbpVerificationResult(false, operationId, None, None, None, None, Some(KeyMissingMessage))
    ensures r.verified <==>
      KeyConfigured(apiKey) && call.Returned? && call.value.sender.Some? && call.value.recipient.Some?
    ensures r.verified ==> r == SbpVerificationResult(
      true, operationId, Some(call.value.timestamp), Some(call.value.amount),
      Some(call.value.sender.value.bank), Some(call.value.recipient.value.bank), None)
    ensures !r.verified ==>
      r.timestamp.None? && r.amount.None? && r.sender.None? && r.recipient.None? && r.error.Some?
    ensures KeyConfigured(apiKey) && !r.verified ==>
      r.error.value == (if call.Threw? && call.thrown.Axios? && call.thrown.failure.HasStatus(404) then NotFoundMessage
                        else if call.Threw? && call.thrown.Axios? && call.thrown.failure.HasStatus(401) then InvalidKeyMessage
                        else FailedMessage)
  {
    if !KeyConfigured(apiKey) {
      return SbpVerificationResult(false, operationId, None, None, None, None, Some(KeyMissingMessage));
    }
    if call.Returned? && call.value.sender.Some? && call.value.recipient.Some? {
      var data := call.value;
      return SbpVerificationResult(
        true, operationId, Some(data.timestamp), Some(data.amount),
        Some(data.sender.value.bank), Some(data.recipient.value.bank), None);
    }
    var errorMessage := FailedMessage;
    if call.Threw? && call.thrown.Axios? {
      if call.thrown.failure.HasStatus(404) {
        errorMessage := NotFoundMessage;
      } else if call.thrown.failure.HasStatus(401) {
        errorMessage := InvalidKeyMessage;
      }
    }
    r := SbpVerificationResult(false, operationId, None, None, None, None, Some(errorMessage));
  }
}
