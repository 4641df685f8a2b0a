/**
 * `src/utils/verification.ts`: the verification pipeline. The PDF header
 * scan, the rule chain that guesses the bank and the transfer type from the
 * extracted text, and `verifyCheck`, which runs the collaborators in order
 * and merges their answers into one report. The collaborators' answers
 * (the extracted text, the text model's and the vision model's opinions)
 * and the fresh id, time stamp and object URL are parameters.
 */
module Verification {
  import opened Wrappers
  import opened Types
  import opened Strings
  import opened Patterns

  // ------------------------------------------------------------ PDF header

  /** How many leading bytes of the file are scanned. */
  const ScannedBytes: nat := 1024

  /** `String.fromCharCode` over the first 1024 bytes: one character per byte. */
  function PdfPrefix(content: seq<byte>): (s: string)
    ensures |s| == Min(|content|, ScannedBytes)
    ensures forall i :: 0 <= i < |s| ==> s[i] as int == content[i] as int
  {
    seq(Min(|content|, ScannedBytes), i requires 0 <= i < Min(|content|, ScannedBytes) => content[i] as int as char)
  }

  /**
   * `/%PDF-(\d+\.\d+)/` attempted at `p`: the end of the captured version.
   * Both digit runs are greedy, and the first can only be followed by the
   * dot when it is taken whole, so backtracking never finds another match.
   */
  function VersionAt(s: string, p: nat): (e: Option<nat>)
    ensures e.Some? ==> p + 5 < e.value <= |s|
  {
    if !OccursAt(s, "%PDF-", p) then None
    else
      var j := SkipWhile(s, p + 5, IsDigit);
      if j == p + 5 || j == |s| || s[j] != '.' then None
      else
        var k := SkipWhile(s, j + 1, IsDigit);
        if k == j + 1 then None else Some(k)
  }

  /** `versionMatch[1]`: the version of the leftmost `%PDF-` header that carries one. */
  function Version(s: string): Option<string> {
    match FirstMatch(|s|, (p: nat) => VersionAt(s, p), 0)
    case None => None
    case Some((p, e)) => Some(s[p + 5..e])
  }

  /** A version as the header writes it: digits, one dot, digits. */
  predicate IsDecimal(v: string) {
    exists j | 0 < j < |v| - 1 :: v[j] == '.' && DigitsAt(v, 0, j) && DigitsAt(v, j + 1, |v| - j - 1)
  }

  lemma VersionIsDecimal(s: string)
    ensures Version(s).Some? ==> IsDecimal(Version(s).value)
    ensures Version(s).Some? ==> Contains(s, "%PDF-" + Version(s).value)
  {
    match FirstMatch(|s|, (p: nat) => VersionAt(s, p), 0)
    case None =>
    case Some((p, e)) =>
      assert VersionAt(s, p) == Some(e);
      VersionAtDecimal(s, p, e);
      VersionAtOccurs(s, p, e);
  }

  /** The version captured by a header at `p` is digits, a dot and digits. */
  lemma VersionAtDecimal(s: string, p: nat, e: nat)
    requires VersionAt(s, p) == Some(e)
    ensures IsDecimal(s[p + 5..e])
  {
    var v := s[p + 5..e];
    var j := SkipWhile(s, p + 5, IsDigit);
    assert v[j - p - 5] == '.';
    assert DigitsAt(v, 0, j - p - 5);
    assert DigitsAt(v, j - p - 4, |v| - (j - p - 4));
  }

  /** The captured version follows `%PDF-` at `p`. */
  lemma VersionAtOccurs(s: string, p: nat, e: nat)
    requires VersionAt(s, p) == Some(e)
    ensures OccursAt(s, "%PDF-" + s[p + 5..e], p)
  {
    assert s[p..e] == s[p..p + 5] + s[p + 5..e];
  }

  /**
   * `%PDF-` at `p`, then digits up to a dot at `j`, then a digit: the
   * header `/%PDF-(\d+\.\d+)/` accepts at `p`, read off the text directly.
   */
  predicate VersionHeaderAt(s: string, p: nat, j: nat) {
    && OccursAt(s, "%PDF-", p) && p + 5 < j && j + 1 < |s|
    && DigitsAt(s, p + 5, j - p - 5) && s[j] == '.' && IsDigit(s[j + 1])
  }

  /** The search at `p` succeeds exactly where a header starts. */
  lemma VersionAtIff(s: string, p: nat)
    ensures VersionAt(s, p).Some? <==> exists j: nat :: VersionHeaderAt(s, p, j)
  {
    if VersionAt(s, p).Some? {
      var j := SkipWhile(s, p + 5, IsDigit);
      assert VersionHeaderAt(s, p, j);
    }
    if exists j: nat :: VersionHeaderAt(s, p, j) {
      var j: nat :| VersionHeaderAt(s, p, j);
      SkipWhileLands(s, p + 5, j, IsDigit);
      assert IsDigit(s[j + 1]);
    }
  }

  /** A version is found iff the text holds a header somewhere. */
  lemma VersionPresentIff(s: string)
    ensures Version(s).Some? <==> exists p: nat, j: nat :: VersionHeaderAt(s, p, j)
  {
    var m := (q: nat) => VersionAt(s, q);
    match FirstMatch(|s|, m, 0)
    case None =>
      forall p: nat, j: nat ensures !VersionHeaderAt(s, p, j) {
        VersionAtIff(s, p);
        if p <= |s| {
          assert m(p).None?;
        }
      }
    case Some((p, e)) =>
      assert m(p).Some?;
      VersionAtIff(s, p);
  }

  const NoMetadata := "Метаданные не обнаружены"
  const LinearizedFinding := "Оптимизирован для веба: Да"
  const PagesFinding := "Структура страниц: Корректная"
  const EncryptedFinding := "⚠️ Файл зашифрован"
  const ModifiedFinding := "Имеет историю изменений"
  const Undetermined := "Не определено"
  const StandardA4 := "Стандартный A4"
  const EmbeddedFonts := "Встроенные шрифты"
  const SystemFonts := "Системные шрифты"

  function VersionFinding(v: string): string { "PDF версия: " + v }

  /** The version finding, when there is a version. */
  function VersionPart(version: Option<string>): seq<string> {
    match version case Some(v) => [VersionFinding(v)] case None => []
  }

  /** A finding pushed when its marker test holds. */
  function Opt(found: bool, finding: string): seq<string> { if found then [finding] else [] }

  /** The findings pushed for a version and the outcomes of the four marker tests, in push order. */
  function FindingsOf(version: Option<string>, linearized: bool, pages: bool, encrypted: bool, modified: bool): seq<string> {
    VersionPart(version)
    + Opt(linearized, LinearizedFinding)
    + Opt(pages, PagesFinding)
    + Opt(encrypted, EncryptedFinding)
    + Opt(modified, ModifiedFinding)
  }

  /** The findings of the header scan. */
  function Findings(s: string): seq<string> {
    FindingsOf(Version(s), Contains(s, "/Linearized"), Contains(s, "/Pages"), Contains(s, "/Encrypt"), Contains(s, "/ModDate"))
  }

  /** The summary: the findings one per line, or a fixed phrase when there are none. */
  function Summary(findings: seq<string>): string {
    if |findings| > 0 then Join(findings, "\n") else NoMetadata
  }

  datatype PdfMetadata = PdfMetadata(pageSize: Verdict, font: Verdict, metadata: string)

  /** What the header scan reports about the scanned prefix `s`. */
  function MetadataOf(s: string): PdfMetadata {
    PdfMetadata(
      if Contains(s, "/MediaBox") then Verdict(true, StandardA4) else Verdict(false, Undetermined),
      if !Contains(s, "/Font") then Verdict(false, Undetermined)
      else if Contains(s, "/FontFile") then Verdict(true, EmbeddedFonts)
      else Verdict(true, SystemFonts),
      Summary(Findings(s)))
  }

  /**
   * `analyzePdfMetadata`: scan the first 1024 bytes, pushing one finding
   * per marker and settling the page-size and font verdicts.
   */
  method AnalyzePdfMetadata(content: seq<byte>) returns (r: PdfMetadata)
    ensures r == MetadataOf(PdfPrefix(content))
  {
    var pdfString := PdfPrefix(content);
    var metadata: seq<string> := [];
    var versionMatch := Version(pdfString);
    if versionMatch.Some? {
      metadata := metadata + [VersionFinding(versionMatch.value)];
    }
    assert metadata == VersionPart(versionMatch);
    var isLinearized := Contains(pdfString, "/Linearized");
    if isLinearized {
      metadata := metadata + [LinearizedFinding];
    }
    assert metadata == VersionPart(versionMatch) + Opt(isLinearized, LinearizedFinding);
    var hasPages := Contains(pdfString, "/Pages");
    if hasPages {
      metadata := metadata + [PagesFinding];
    }
    ghost var upToPages := VersionPart(versionMatch) + Opt(isLinearized, LinearizedFinding) + Opt(hasPages, PagesFinding);
    assert metadata == upToPages;
    var isEncrypted := Contains(pdfString, "/Encrypt");
    if isEncrypted {
      metadata := metadata + [EncryptedFinding];
    }
    assert metadata == upToPages + Opt(isEncrypted, EncryptedFinding);
    var hasModDate := Contains(pdfString, "/ModDate");
    if hasModDate {
      metadata := metadata + [ModifiedFinding];
    }
    assert metadata == upToPages + Opt(isEncrypted, EncryptedFinding) + Opt(hasModDate, ModifiedFinding);
    var pageSize := Verdict(false, Undetermined);
    if Contains(pdfString, "/MediaBox") {
      pageSize := Verdict(true, StandardA4);
    }
    var fonts := Verdict(false, Undetermined);
    if Contains(pdfString, "/Font") {
      var embeddedFonts := Contains(pdfString, "/FontFile");
      fonts := Verdict(true, if embeddedFonts then EmbeddedFonts else SystemFonts);
    }
    r := PdfMetadata(pageSize, fonts, if |metadata| > 0 then Join(metadata, "\n") else NoMetadata);
  }

  /** Bytes from offset 1024 on never change what the scan reports. */
  lemma OnlyPrefixMatters(a: seq<byte>, b: seq<byte>)
    requires a[..Min(|a|, ScannedBytes)] == b[..Min(|b|, ScannedBytes)]
    ensures MetadataOf(PdfPrefix(a)) == MetadataOf(PdfPrefix(b))
  {
    var n := Min(|a|, ScannedBytes);
    assert |b[..Min(|b|, ScannedBytes)]| == n;
    forall i | 0 <= i < n
      ensures PdfPrefix(a)[i] == PdfPrefix(b)[i]
    {
      assert a[i] == a[..n][i];
      assert b[i] == b[..Min(|b|, ScannedBytes)][i];
    }
    assert PdfPrefix(a) == PdfPrefix(b);
  }

  /** The page size is the standard one exactly when a `/MediaBox` occurs, and undetermined otherwise. */
  lemma PageSizeIff(s: string)
    ensures MetadataOf(s).pageSize.ok <==> Contains(s, "/MediaBox")
    ensures MetadataOf(s).pageSize.caption == (if Contains(s, "/MediaBox") then StandardA4 else Undetermined)
  {
  }

  /**
   * Fonts are found exactly when a `/Font` occurs. A `/FontFile` (which
   * contains `/Font`) makes them embedded, a `/Font` alone makes them
   * system fonts, and without `/Font` they are undetermined.
   */
  lemma FontIff(s: string)
    ensures MetadataOf(s).font.ok <==> Contains(s, "/Font")
    ensures Contains(s, "/FontFile") ==> MetadataOf(s).font.caption == EmbeddedFonts
    ensures Contains(s, "/Font") && !Contains(s, "/FontFile") ==> MetadataOf(s).font.caption == SystemFonts
    ensures !Contains(s, "/Font") ==> MetadataOf(s).font.caption == Undetermined
  {
    if Contains(s, "/FontFile") {
      var i :| 0 <= i <= |s| - 9 && OccursAt(s, "/FontFile", i);
      assert s[i..i + 5] == s[i..i + 9][..5];
      assert OccursAt(s, "/Font", i);
    }
  }

  /** A join starts with the first part's first character. */
  lemma JoinHead(parts: seq<string>, sep: string)
    requires |parts| > 0 && |parts[0]| > 0
    ensures |Join(parts, sep)| > 0 && Join(parts, sep)[0] == parts[0][0]
  {
  }

  /** No finding starts like the fixed phrase: the first finding opens with another letter. */
  lemma FirstFindingHead(version: Option<string>, linearized: bool, pages: bool, encrypted: bool, modified: bool)
    ensures var f := FindingsOf(version, linearized, pages, encrypted, modified);
      f != [] ==> |f[0]| > 0 && f[0][0] != NoMetadata[0]
  {
    var f := FindingsOf(version, linearized, pages, encrypted, modified);
    assert NoMetadata[0] == 'М';
    if version.Some? {
      assert f[0] == VersionFinding(version.value) && f[0][0] == 'P';
    } else if linearized {
      assert f[0] == LinearizedFinding && f[0][0] == 'О';
    } else if pages {
      assert f[0] == PagesFinding && f[0][0] == 'С';
    } else if encrypted {
      assert f[0] == EncryptedFinding && f[0][0] == '⚠';
    } else if modified {
      assert f[0] == ModifiedFinding && f[0][0] == 'И';
    }
  }

  /** The summary is the fixed phrase exactly when nothing was found. */
  lemma SummaryEmptyIff(s: string)
    ensures Summary(Findings(s)) == NoMetadata <==> Findings(s) == []
  {
    var f := Findings(s);
    FirstFindingHead(Version(s), Contains(s, "/Linearized"), Contains(s, "/Pages"), Contains(s, "/Encrypt"), Contains(s, "/ModDate"));
    if f != [] {
      JoinHead(f, "\n");
    }
  }

  /** The five kinds of finding are told apart by their first character. */
  lemma FindingsOfMembers(version: Option<string>, linearized: bool, pages: bool, encrypted: bool, modified: bool)
    ensures var f := FindingsOf(version, linearized, pages, encrypted, modified);
      && (LinearizedFinding in f <==> linearized)
      && (PagesFinding in f <==> pages)
      && (EncryptedFinding in f <==> encrypted)
      && (ModifiedFinding in f <==> modified)
      && ((exists v :: VersionFinding(v) in f) <==> version.Some?)
  {
    assert LinearizedFinding[0] == 'О' && PagesFinding[0] == 'С' && EncryptedFinding[0] == '⚠';
    assert ModifiedFinding[0] == 'И';
    forall v ensures VersionFinding(v)[0] == 'P' {}
    if version.Some? {
      assert VersionFinding(version.value) in VersionPart(version);
    }
  }

  /** Each marker contributes its finding exactly when it occurs. */
  lemma FindingsFollowMarkers(s: string)
    ensures LinearizedFinding in Findings(s) <==> Contains(s, "/Linearized")
    ensures PagesFinding in Findings(s) <==> Contains(s, "/Pages")
    ensures EncryptedFinding in Findings(s) <==> Contains(s, "/Encrypt")
    ensures ModifiedFinding in Findings(s) <==> Contains(s, "/ModDate")
    ensures (exists v :: VersionFinding(v) in Findings(s)) <==> Version(s).Some?
    ensures (exists v :: VersionFinding(v) in Findings(s)) <==> exists p: nat, j: nat :: VersionHeaderAt(s, p, j)
  {
    VersionPresentIff(s);
    FindingsOfMembers(Version(s), Contains(s, "/Linearized"), Contains(s, "/Pages"), Contains(s, "/Encrypt"), Contains(s, "/ModDate"));
  }

  // --------------------------------------------------- bank and transfer type

  /** `/a\d{32}/i`: an SBP operation id. */
  const SbpIdPattern: seq<Atom> := [One(LetterA)] + Times(Digit, 32)

  /** `/\+7\s?\(\d{3}\)\s?\d{3}[-\s]?\d{2}[-\s]?\d{2}/`: a Russian phone number. */
  const PhonePattern: seq<Atom> :=
    Literal("+7") + [Maybe(Space), One(Exactly('('))] + Times(Digit, 3) + [One(Exactly(')')), Maybe(Space)]
    + Times(Digit, 3) + [Maybe(DashOrSpace)] + Times(Digit, 2) + [Maybe(DashOrSpace)] + Times(Digit, 2)

  /** `/\d{3}\*+\d{4}/`: a masked account number. */
  const MaskedAccountPattern: seq<Atom> := Times(Digit, 3) + [Many(Exactly('*'))] + Times(Digit, 4)

  datatype Classification = Classification(bank: Bank, checkType: CheckType)

  predicate MentionsVtb(lower: string) { Contains(lower, "втб") || Contains(lower, "vtb") }

  predicate MentionsTinkoff(lower: string) {
    Contains(lower, "тинькофф") || Contains(lower, "tinkoff") || Contains(lower, "т-банк")
  }

  predicate MentionsAlfa(lower: string) { Contains(lower, "альфа") || Contains(lower, "alfa") }

  /** `detectBankAndType`: the first bank whose marker occurs, then that bank's own transfer test. */
  function DetectBankAndType(text: string): Classification {
    var textLower := Lower(text);
    if MentionsVtb(textLower) then
      if Contains(textLower, "sbp") || Contains(textLower, "сбп") || Test(SbpIdPattern, text)
      then Classification(Vtb, Sbp)
      else Classification(Vtb, UnknownTransfer)
    else if MentionsTinkoff(textLower) then
      if Contains(textLower, "телефон") || Test(PhonePattern, text)
      then Classification(Tinkoff, TinkoffPhoneTransfer)
      else Classification(Tinkoff, UnknownTransfer)
    else if MentionsAlfa(textLower) then
      if Contains(textLower, "внутренний перевод") || Test(MaskedAccountPattern, text)
      then Classification(Alfa, AlfaInternalTransfer)
      else Classification(Alfa, UnknownTransfer)
    else Classification(UnknownBank, UnknownTransfer)
  }

  /** The banks the classifier knows, in the order it tries them, each with its markers. */
  const BankMarkers: seq<(Bank, seq<string>)> := [
    (Vtb, ["втб", "vtb"]),
    (Tinkoff, ["тинькофф", "tinkoff", "т-банк"]),
    (Alfa, ["альфа", "alfa"])
  ]

  /** The first bank of `table` one of whose markers occurs in `lower`. */
  function FirstMentioned(lower: string, table: seq<(Bank, seq<string>)>): (b: Bank)
    ensures b == UnknownBank || exists i | 0 <= i < |table| :: table[i].0 == b
  {
    if table == [] then UnknownBank
    else if exists m | m in table[0].1 :: Contains(lower, m) then table[0].0
    else FirstMentioned(lower, table[1..])
  }

  /** When no bank of the table is `UnknownBank`, the result is `UnknownBank` exactly when no marker occurs. */
  lemma {:induction false} FirstMentionedUnknown(lower: string, table: seq<(Bank, seq<string>)>)
    requires forall i | 0 <= i < |table| :: table[i].0 != UnknownBank
    ensures FirstMentioned(lower, table) == UnknownBank <==>
      forall i, m | 0 <= i < |table| && m in table[i].1 :: !Contains(lower, m)
  {
    if table != [] {
      FirstMentionedUnknown(lower, table[1..]);
      assert forall i | 1 <= i < |table| :: table[i] == table[1..][i - 1];
    }
  }

  lemma MentionsTwo(lower: string, a: string, b: string)
    ensures (exists m | m in [a, b] :: Contains(lower, m)) <==> Contains(lower, a) || Contains(lower, b)
  {
    assert a in [a, b] && b in [a, b];
  }

  lemma MentionsThree(lower: string, a: string, b: string, c: string)
    ensures (exists m | m in [a, b, c] :: Contains(lower, m)) <==> Contains(lower, a) || Contains(lower, b) || Contains(lower, c)
  {
    assert a in [a, b, c] && b in [a, b, c] && c in [a, b, c];
  }

  /** The table unrolled: the same three tests as the rule chain, in the same order. */
  lemma FirstMentionedUnrolled(lower: string)
    ensures FirstMentioned(lower, BankMarkers) ==
      if MentionsVtb(lower) then Vtb
      else if MentionsTinkoff(lower) then Tinkoff
      else if MentionsAlfa(lower) then Alfa
      else UnknownBank
  {
    var t1 := BankMarkers[1..];
    var t2 := t1[1..];
    assert t1[0] == BankMarkers[1] && t2[0] == BankMarkers[2] && t2[1..] == [];
    MentionsTwo(lower, "втб", "vtb");
    MentionsThree(lower, "тинькофф", "tinkoff", "т-банк");
    MentionsTwo(lower, "альфа", "alfa");
    assert FirstMentioned(lower, t2) == if MentionsAlfa(lower) then Alfa else UnknownBank;
    assert FirstMentioned(lower, t1) == if MentionsTinkoff(lower) then Tinkoff else FirstMentioned(lower, t2);
  }

  /** The marker tests of the rule chain, read as a table: VTB beats Tinkoff, which beats Alfa. */
  lemma DetectedBankIsFirstMentioned(text: string)
    ensures DetectBankAndType(text).bank == FirstMentioned(Lower(text), BankMarkers)
  {
    FirstMentionedUnrolled(Lower(text));
  }

  /** The bank is unknown exactly when none of the seven markers occurs in the lower-cased text. */
  lemma UnknownBankIff(text: string)
    ensures DetectBankAndType(text).bank == UnknownBank <==>
      forall i, m | 0 <= i < |BankMarkers| && m in BankMarkers[i].1 :: !Contains(Lower(text), m)
  {
    DetectedBankIsFirstMentioned(text);
    FirstMentionedUnknown(Lower(text), BankMarkers);
  }

  /** The transfer type a bank's own test can yield. */
  function OwnType(b: Bank): CheckType {
    match b
    case Vtb => Sbp
    case Tinkoff => TinkoffPhoneTransfer
    case Alfa => AlfaInternalTransfer
    case _ => UnknownTransfer
  }

  /** The pair is always consistent: never Sber, and a type is the bank's own or unknown. */
  lemma DetectionConsistent(text: string)
    ensures DetectBankAndType(text).bank != Sber
    ensures DetectBankAndType(text).checkType in {OwnType(DetectBankAndType(text).bank), UnknownTransfer}
    ensures DetectBankAndType(text).bank == UnknownBank ==> DetectBankAndType(text).checkType == UnknownTransfer
  {
  }

  /** An `a` or `A` followed by 32 decimal digits starts at `p`. */
  predicate SbpIdAt(s: string, p: nat) {
    p < |s| && (s[p] == 'a' || s[p] == 'A') && DigitsAt(s, p + 1, 32)
  }

  lemma SbpIdMatchAt(s: string, p: nat)
    requires p <= |s|
    ensures MatchAt(SbpIdPattern, s, p) <==> SbpIdAt(s, p)
  {
    assert SbpIdPattern[0] == One(LetterA);
    assert SbpIdPattern[1..] == Times(Digit, 32) + [];
    if p < |s| {
      TimesThen(Digit, 32, [], s, p + 1);
    }
  }

  /** The SBP id test holds exactly when some `a`/`A` is followed by 32 digits. */
  lemma SbpIdTestIff(s: string)
    ensures Test(SbpIdPattern, s) <==> exists p: nat :: SbpIdAt(s, p)
  {
    forall p: nat | p <= |s| ensures MatchAt(SbpIdPattern, s, p) <==> SbpIdAt(s, p) {
      SbpIdMatchAt(s, p);
    }
  }

  /** A VTB check is an SBP transfer exactly when it says so or carries an SBP operation id. */
  lemma VtbSbpIff(text: string)
    requires DetectBankAndType(text).bank == Vtb
    ensures DetectBankAndType(text).checkType == Sbp <==>
      (Contains(Lower(text), "sbp") || Contains(Lower(text), "сбп") || exists p: nat :: SbpIdAt(text, p))
  {
    SbpIdTestIff(text);
  }

  // ------------------------------------------------------------- file size

  const MiB: nat := 1024 * 1024

  /**
   * `(size / 1024 / 1024).toFixed(2)` as a count of hundredths. Dividing an
   * integer byte count by powers of two is exact, and `toFixed` takes the
   * nearest hundredth, the larger one on a tie.
   */
  function Hundredths(size: nat): nat { (100 * size + MiB / 2) / MiB }

  /** The hundredths count is the nearest one to the size in MiB, a tie going up. */
  lemma HundredthsNearest(size: nat)
    ensures 100 * size - MiB / 2 < Hundredths(size) * MiB <= 100 * size + MiB / 2
  {
  }

  /** A count of hundredths written with two decimals. */
  function FixedTwo(n: nat): string {
    NatToString(n / 100) + "." + [DigitChar(n % 100 / 10), DigitChar(n % 10)]
  }

  /** The formatted size, with the unit. */
  function FileSizeLabel(size: nat): string { FixedTwo(Hundredths(size)) + " MB" }

  /** Reading the digits of the label back, the point left out, gives the count of hundredths. */
  lemma {:induction false} FixedTwoRoundTrip(n: nat)
    ensures |FixedTwo(n)| >= 4 && FixedTwo(n)[|FixedTwo(n)| - 3] == '.'
    ensures DigitsValue(FixedTwo(n)[..|FixedTwo(n)| - 3] + FixedTwo(n)[|FixedTwo(n)| - 2..], 10) == n
  {
    var w := NatToString(n / 100);
    var a, b := DigitChar(n % 100 / 10), DigitChar(n % 10);
    var r := FixedTwo(n);
    assert r == w + ['.', a, b];
    assert r[..|r| - 3] == w && r[|r| - 2..] == [a, b];
    var ds := w + [a, b];
    assert ds[..|ds| - 1] == w + [a];
    assert (w + [a])[..|w|] == w;
    NatToStringRoundTrip(n / 100);
  }

  // ----------------------------------------------------------- verifyCheck

  const PdfType := "application/pdf"
  const PdfOnlyMessage := "Поддерживаются только PDF файлы"
  const NoTextMessage := "Не удалось извлечь текст из файла"

  /** The text model's confidence above which its bank and transfer type replace the heuristic ones. */
  const ConfidenceThreshold: real := 0.8

  /** The collaborators `verifyCheck` consults, in the order it consults them. */
  datatype Collaborator = TextExtractor | TextModel | VisionModel

  /** The classification the report ends with: the text model's when vision succeeded and it is confident enough. */
  function FinalClassification(text: string, ai: AiVerificationDetails, visionSucceeded: bool): Classification {
    if visionSucceeded && ai.confidence > ConfidenceThreshold
    then Classification(ai.checkData.bank, ai.checkData.checkType)
    else DetectBankAndType(text)
  }

  /**
   * `verifyCheck`. `extracted`, `ai` and `vision` are what text extraction,
   * `verifyCheckWithAI` and `analyzeCheckImage` would give (a failure
   * carries the message of the error they throw); `consulted` lists the
   * ones that are actually called.
   */
  method VerifyCheck(file: File, extracted: Result<string>, ai: Result<AiVerificationDetails>,
                     vision: Result<VisionAnalysis>, id: string, timestamp: string, fileUrl: string)
    returns (r: Result<VerificationReport>, consulted: seq<Collaborator>)
    ensures file.mimeType != PdfType ==> r == Failure(PdfOnlyMessage) && consulted == []
    ensures file.mimeType == PdfType && extracted.Failure? ==>
      r == Failure(extracted.error) && consulted == [TextExtractor]
    ensures file.mimeType == PdfType && extracted == Success("") ==>
      r == Failure(NoTextMessage) && consulted == [TextExtractor]
    ensures file.mimeType == PdfType && extracted.Success? && extracted.value != "" && ai.Failure? ==>
      r == Failure(ai.error) && consulted == [TextExtractor, TextModel]
    ensures r.Success? <==> file.mimeType == PdfType && extracted.Success? && extracted.value != "" && ai.Success?
    ensures r.Success? ==> consulted == [TextExtractor, TextModel, VisionModel]
    ensures r.Success? ==>
      var report := r.value;
      report.id == id && report.timestamp == timestamp && report.fileName == file.name && report.fileUrl == fileUrl
      && report.results == Results(
           Verdict(true, FileSizeLabel(file.Size())),
           MetadataOf(PdfPrefix(file.content)).pageSize,
           MetadataOf(PdfPrefix(file.content)).font,
           MetadataOf(PdfPrefix(file.content)).metadata)
      && report.aiVerification == Some(ai.value)
      && report.visionAnalysis == (if vision.Success? then Some(vision.value) else None)
      && Classification(report.bank, report.checkType) == FinalClassification(extracted.value, ai.value, vision.Success?)
  {
    consulted := [];
    if file.mimeType != PdfType {
      return Failure(PdfOnlyMessage), consulted;
    }
    consulted := consulted + [TextExtractor];
    if extracted.Failure? {
      return Failure(extracted.error), consulted;
    }
    var extractedText := extracted.value;
    if extractedText == "" {
      return Failure(NoTextMessage), consulted;
    }
    var detected := DetectBankAndType(extractedText);
    var formattedSize := FileSizeLabel(file.Size());
    var pdf := AnalyzePdfMetadata(file.content);
    var report := VerificationReport(
      id, timestamp, file.name, detected.bank, detected.checkType, fileUrl,
      Results(Verdict(true, formattedSize), pdf.pageSize, pdf.font, pdf.metadata),
      None, None);
    consulted := consulted + [TextModel];
    if ai.Failure? {
      return Failure(ai.error), consulted;
    }
    var aiResult := ai.value;
    report := report.(aiVerification := Some(aiResult));
    consulted := consulted + [VisionModel];
    if vision.Success? {
      report := report.(visionAnalysis := Some(vision.value));
      if aiResult.confidence > ConfidenceThreshold {
        report := report.(bank := aiResult.checkData.bank, checkType := aiResult.checkData.checkType);
      }
    }
    return Success(report), consulted;
  }

  /** A report never replaces the heuristic classification unless the vision model answered. */
  lemma ClassificationWithoutVision(text: string, ai: AiVerificationDetails)
    ensures FinalClassification(text, ai, false) == DetectBankAndType(text)
  {
  }

  /** A confident text model overrides the heuristics only above the threshold, not at it. */
  lemma ThresholdIsStrict(text: string, ai: AiVerificationDetails)
    requires ai.confidence == ConfidenceThreshold
    ensures FinalClassification(text, ai, true) == DetectBankAndType(text)
  {
  }
}
