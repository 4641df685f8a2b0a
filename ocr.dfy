/**
 * `src/utils/ocr.ts`: `isImageFile` and `parseCheckText`, which picks an
 * amount, a date, a phone number and a bank marker out of recognised text.
 * The three regular expressions are written out as matchers that follow the
 * backtracking order of JavaScript's engine.
 */
module Ocr {
  import opened Wrappers
  import opened Types
  import opened Strings

  /** `isImageFile`: the MIME type starts with `image/`; such a file is never taken for a PDF. */
  function IsImageFile(file: File): (r: bool)
    ensures r <==> |file.mimeType| >= 6 && file.mimeType[..6] == "image/"
    ensures r ==> file.mimeType != "application/pdf"
  {
    assert "application/pdf"[..6] == "applic";
    StartsWith(file.mimeType, "image/")
  }

  /** The record `parseCheckText` fills (`ExtractedCheckData`). */
  datatype CheckText = CheckText(
    amount: Option<string>,
    date: Option<string>,
    sender: Option<string>,
    recipient: Option<string>,
    phone: Option<string>,
    bank: Option<string>)

  const Ruble: char := '\U{20BD}'

  // ------------------------------------------------------------------ amount

  /** `\s*₽` at `i`. */
  predicate RubleAfter(s: string, i: nat)
    requires i <= |s|
  {
    var j := SkipWhile(s, i, IsSpace);
    j < |s| && s[j] == Ruble
  }

  predicate GroupChar(c: char) { IsDigit(c) || IsSpace(c) }

  /**
   * `(?:\s?\d{3})*\s*₽` from `i`, tried in backtracking order (another
   * group with a space, another without, then the tail): where the star
   * stops, so where the captured group ends.
   */
  function GroupsEnd(s: string, i: nat): (e: Option<nat>)
    requires i <= |s|
    ensures e.Some? ==> i <= e.value <= |s| && RubleAfter(s, e.value)
    ensures e.Some? ==> forall k :: i <= k < e.value ==> GroupChar(s[k])
    ensures e.Some? && e.value > i ==> IsDigit(s[e.value - 1])
    decreases |s| - i
  {
    var spaced := if i < |s| && IsSpace(s[i]) && DigitsAt(s, i + 1, 3) then GroupsEnd(s, i + 4) else None;
    if spaced.Some? then spaced
    else
      var bare := if DigitsAt(s, i, 3) then GroupsEnd(s, i + 3) else None;
      if bare.Some? then bare
      else if RubleAfter(s, i) then Some(i)
      else None
  }

  /** `(\d{1,3}(?:\s?\d{3})*)\s*₽` attempted at `p`: the end of group 1, `\d{1,3}` trying 3, 2, 1 digits. */
  function AmountAt(s: string, p: nat): (e: Option<nat>)
    ensures e.Some? ==> p < e.value <= |s| && RubleAfter(s, e.value)
    ensures e.Some? ==> IsDigit(s[p]) && IsDigit(s[e.value - 1])
    ensures e.Some? ==> forall k :: p <= k < e.value ==> GroupChar(s[k])
  {
    if p >= |s| then None
    else
      var three := if DigitsAt(s, p, 3) then GroupsEnd(s, p + 3) else None;
      if three.Some? then three
      else
        var two := if DigitsAt(s, p, 2) then GroupsEnd(s, p + 2) else None;
        if two.Some? then two
        else if DigitsAt(s, p, 1) then GroupsEnd(s, p + 1)
        else None
  }

  /** The leftmost amount match: its start and the end of its group. */
  function AmountMatch(s: string): Option<(nat, nat)> {
    FirstMatch(|s|, p => AmountAt(s, p), 0)
  }

  predicate NotSpace(c: char) { !IsSpace(c) }

  /** `amountMatch[1].replace(/\s/g, '')`. */
  function Amount(s: string): Option<string> {
    match AmountMatch(s)
    case None => None
    case Some((p, e)) => Some(Filter(s[p..e], NotSpace))
  }

  /** A found amount is a non-empty run of digits: only white space is removed from a group of digits and white space. */
  lemma AmountIsDigits(s: string)
    ensures Amount(s).Some? ==> |Amount(s).value| > 0
    ensures Amount(s).Some? ==> forall i :: 0 <= i < |Amount(s).value| ==> IsDigit(Amount(s).value[i])
  {
    match AmountMatch(s)
    case None =>
    case Some((p, e)) =>
      assert AmountAt(s, p) == Some(e);
      GroupDigits(s, p, e);
  }

  /** The group of a match at `p` ending at `e`, its white space removed, is a non-empty run of digits. */
  lemma GroupDigits(s: string, p: nat, e: nat)
    requires p < e <= |s| && IsDigit(s[p])
    requires forall k :: p <= k < e ==> GroupChar(s[k])
    ensures var a := Filter(s[p..e], NotSpace); |a| > 0 && forall i :: 0 <= i < |a| ==> IsDigit(a[i])
  {
    var g := s[p..e];
    assert g[0] == s[p];
    forall k | 0 <= k < |g| ensures GroupChar(g[k]) {
      assert g[k] == s[p + k];
    }
    FilterKeeps(g, NotSpace);
    FilterWithin(g, NotSpace, GroupChar);
  }

  /** Position `q` holds a digit that white space and then `₽` follow. */
  predicate DigitBeforeRuble(s: string, q: nat) {
    q < |s| && IsDigit(s[q]) && RubleAfter(s, q + 1)
  }

  /** A single digit followed by white space and `₽` always lets the amount pattern match at its position. */
  lemma AmountAtDigitBeforeRuble(s: string, q: nat)
    requires DigitBeforeRuble(s, q)
    ensures AmountAt(s, q).Some?
  {
    var j := SkipWhile(s, q + 1, IsSpace);
    assert !IsDigit(s[q + 1]) by {
      if j == q + 1 { assert s[q + 1] == Ruble; } else { assert IsSpace(s[q + 1]); }
    }
    if IsSpace(s[q + 1]) {
      assert SkipWhile(s, q + 2, IsSpace) == j;
      assert !IsDigit(s[q + 2]) by {
        if j == q + 2 { assert s[q + 2] == Ruble; } else { assert IsSpace(s[q + 2]); }
      }
    }
    assert GroupsEnd(s, q + 1) == Some(q + 1);
  }

  /** When the amount pattern matches, the last digit of its group is followed by white space and `₽`. */
  lemma AmountMatchEndsBeforeRuble(s: string)
    requires Amount(s).Some?
    ensures exists q: nat :: DigitBeforeRuble(s, q)
  {
    var (p, e) := AmountMatch(s).value;
    assert AmountAt(s, p) == Some(e);
    assert DigitBeforeRuble(s, e - 1);
  }

  /** A digit followed by white space and `₽` anywhere makes the amount pattern match. */
  lemma DigitBeforeRubleGivesAmount(s: string, q: nat)
    requires DigitBeforeRuble(s, q)
    ensures Amount(s).Some?
  {
    AmountAtDigitBeforeRuble(s, q);
    assert (p => AmountAt(s, p))(q).Some?;
  }

  /** The amount is present exactly when some digit is followed, after optional white space, by `₽`. */
  lemma AmountPresentIff(s: string)
    ensures Amount(s).Some? <==> exists q: nat :: DigitBeforeRuble(s, q)
  {
    if Amount(s).Some? {
      AmountMatchEndsBeforeRuble(s);
    }
    if exists q: nat :: DigitBeforeRuble(s, q) {
      var q: nat :| DigitBeforeRuble(s, q);
      DigitBeforeRubleGivesAmount(s, q);
    }
  }

  /**
   * The amount is read from the leftmost position where the pattern matches,
   * which is no later than any digit that white space and `₽` follow.
   */
  lemma AmountIsFirstMatch(s: string)
    ensures Amount(s).Some? ==> exists p: nat, e: nat ::
      && AmountAt(s, p) == Some(e)
      && Amount(s).value == Filter(s[p..e], NotSpace)
      && (forall p': nat :: p' < p ==> AmountAt(s, p').None?)
      && (forall q: nat :: DigitBeforeRuble(s, q) ==> p <= q)
  {
    var m := (x: nat) => AmountAt(s, x);
    match FirstMatch(|s|, m, 0)
    case None =>
    case Some((p, e)) =>
      assert AmountAt(s, p) == Some(e);
      forall p': nat | p' < p ensures AmountAt(s, p').None? {
        assert m(p').None?;
      }
      forall q: nat | DigitBeforeRuble(s, q) ensures p <= q {
        AmountAtDigitBeforeRuble(s, q);
        assert m(q).Some?;
      }
  }

  // -------------------------------------------------------------------- date

  /** `\d{2}\.\d{2}\.\d{4}`: ten characters. */
  predicate IsDateShape(d: string) {
    |d| == 10 && d[2] == '.' && d[5] == '.' &&
    forall k :: 0 <= k < 10 && k != 2 && k != 5 ==> IsDigit(d[k])
  }

  /** A date-shaped run of ten characters starts at `p`. */
  predicate DateOccursAt(s: string, p: nat) {
    p + 10 <= |s| && IsDateShape(s[p..p + 10])
  }

  function DateAt(s: string, p: nat): (e: Option<nat>)
    ensures e.Some? <==> DateOccursAt(s, p)
    ensures e.Some? ==> e.value == p + 10
  {
    if DateOccursAt(s, p) then Some(p + 10) else None
  }

  /** `text.match(/(\d{2}\.\d{2}\.\d{4})/)[1]`. */
  function Date(s: string): Option<string> {
    match FirstMatch(|s|, p => DateAt(s, p), 0)
    case None => None
    case Some((p, e)) => Some(s[p..e])
  }

  /** The date, when present, has the shape DD.DD.DDDD and is the first such run in the text; it is absent only when there is none. */
  lemma DateIsFirstMatch(s: string)
    ensures Date(s).Some? ==> IsDateShape(Date(s).value)
    ensures Date(s).Some? ==> exists p: nat ::
      && DateOccursAt(s, p)
      && Date(s).value == s[p..p + 10]
      && forall p': nat :: p' < p ==> !DateOccursAt(s, p')
    ensures Date(s).None? <==> forall p: nat :: !DateOccursAt(s, p)
  {
    var m := FirstMatch(|s|, p => DateAt(s, p), 0);
    match m
    case Some((p, e)) =>
      assert DateAt(s, p) == Some(e);
      forall p': nat | p' < p ensures !DateOccursAt(s, p') {
        assert (q => DateAt(s, q))(p').None?;
      }
    case None =>
      forall p: nat ensures !DateOccursAt(s, p) {
        if p <= |s| {
          assert (q => DateAt(s, q))(p).None?;
        }
      }
  }

  // ------------------------------------------------------------------- phone

  predicate OpenChar(c: char) { IsSpace(c) || c == '(' }
  predicate CloseChar(c: char) { c == ')' || IsSpace(c) }
  predicate DashChar(c: char) { c == '-' || IsSpace(c) }

  /**
   * Where the pieces of `(?:\+7|8)[\s(]*\d{3}[)\s]*\d{3}[-\s]*\d{2}[-\s]*\d{2}`
   * sit in a match: the prefix ends at `i1`, the digit blocks start at
   * `j1`..`j4`. None of the classes holds a digit, so each `*` takes its
   * whole run and the match is unique.
   */
  datatype PhoneShape = PhoneShape(i1: nat, j1: nat, j2: nat, j3: nat, j4: nat)

  predicate ShapeOk(s: string, p: nat, h: PhoneShape) {
    && p < h.i1 <= h.j1 && h.j1 + 3 <= h.j2 && h.j2 + 3 <= h.j3 && h.j3 + 2 <= h.j4 && h.j4 + 2 <= |s|
    && ((h.i1 == p + 2 && s[p] == '+' && s[p + 1] == '7') || (h.i1 == p + 1 && s[p] == '8'))
    && (forall k :: h.i1 <= k < h.j1 ==> OpenChar(s[k]))
    && (forall k :: h.j1 + 3 <= k < h.j2 ==> CloseChar(s[k]))
    && (forall k :: h.j2 + 3 <= k < h.j3 ==> DashChar(s[k]))
    && (forall k :: h.j3 + 2 <= k < h.j4 ==> DashChar(s[k]))
    && DigitsAt(s, h.j1, 3) && DigitsAt(s, h.j2, 3) && DigitsAt(s, h.j3, 2) && DigitsAt(s, h.j4, 2)
  }

  /**
   * One `[class]*\d{n}` step from `i`: the separator run is skipped whole,
   * then `n` digits must follow. The block's start, if they do.
   */
  function BlockAfter(s: string, i: nat, cls: char -> bool, n: nat): (j: Option<nat>)
    requires i <= |s|
    ensures j.Some? ==> i <= j.value && DigitsAt(s, j.value, n)
    ensures j.Some? ==> forall k :: i <= k < j.value ==> cls(s[k])
  {
    var j := SkipWhile(s, i, cls);
    if DigitsAt(s, j, n) then Some(j) else None
  }

  /** The pattern at `p`: the prefix, then the four blocks in turn. */
  function PhoneShapeAt(s: string, p: nat): Option<PhoneShape> {
    var i1 := PrefixEnd(s, p);
    if i1 == 0 then None else FirstBlockFrom(s, i1)
  }

  /** Where `(?:\+7|8)` ends when it matches at `p`; 0 when it does not. */
  function PrefixEnd(s: string, p: nat): (i1: nat)
    ensures i1 == 0 || (p < i1 <= |s|)
  {
    if p + 2 <= |s| && s[p] == '+' && s[p + 1] == '7' then p + 2
    else if p < |s| && s[p] == '8' then p + 1
    else 0
  }

  /** `\d{3}` after `[\s(]*`, then the rest of the pattern. */
  function FirstBlockFrom(s: string, i1: nat): (r: Option<PhoneShape>)
    requires i1 <= |s|
  {
    match BlockAfter(s, i1, OpenChar, 3)
    case None => None
    case Some(j1) => SecondBlockFrom(s, i1, j1)
  }

  /** `\d{3}` after `[)\s]*`, then the rest of the pattern. */
  function SecondBlockFrom(s: string, i1: nat, j1: nat): (r: Option<PhoneShape>)
    requires j1 + 3 <= |s|
  {
    match BlockAfter(s, j1 + 3, CloseChar, 3)
    case None => None
    case Some(j2) => ThirdBlockFrom(s, i1, j1, j2)
  }

  /** `\d{2}` after `[-\s]*`, then the last block. */
  function ThirdBlockFrom(s: string, i1: nat, j1: nat, j2: nat): (r: Option<PhoneShape>)
    requires j2 + 3 <= |s|
  {
    match BlockAfter(s, j2 + 3, DashChar, 2)
    case None => None
    case Some(j3) => FourthBlockFrom(s, i1, j1, j2, j3)
  }

  /** The last `[-\s]*\d{2}`: the whole shape, once it is found. */
  function FourthBlockFrom(s: string, i1: nat, j1: nat, j2: nat, j3: nat): (r: Option<PhoneShape>)
    requires j3 + 2 <= |s|
  {
    match BlockAfter(s, j3 + 2, DashChar, 2)
    case None => None
    case Some(j4) => Some(PhoneShape(i1, j1, j2, j3, j4))
  }

  /** What the search finds is a match of the pattern. */
  lemma PhoneShapeAtSound(s: string, p: nat)
    ensures PhoneShapeAt(s, p).Some? ==> ShapeOk(s, p, PhoneShapeAt(s, p).value)
  {
  }

  /**
   * The converse of `PhoneShapeAtSound`: wherever the pattern can
   * match at `p`, the search finds exactly that match.
   */
  lemma PhoneShapeAtComplete(s: string, p: nat, h: PhoneShape)
    requires ShapeOk(s, p, h)
    ensures PhoneShapeAt(s, p) == Some(h)
  {
    FourthBlockFound(s, h);
    ThirdBlockFound(s, h);
    SecondBlockFound(s, h);
    FirstBlockFound(s, h);
    PrefixFound(s, p, h);
  }

  // Each step of the search, given that it lands where the shape says.

  lemma PrefixFound(s: string, p: nat, h: PhoneShape)
    requires p < h.i1 <= |s|
    requires (h.i1 == p + 2 && s[p] == '+' && s[p + 1] == '7') || (h.i1 == p + 1 && s[p] == '8')
    requires FirstBlockFrom(s, h.i1) == Some(h)
    ensures PhoneShapeAt(s, p) == Some(h)
  {
    assert PrefixEnd(s, p) == h.i1;
  }

  lemma FirstBlockFound(s: string, h: PhoneShape)
    requires h.i1 <= h.j1 && DigitsAt(s, h.j1, 3) && forall k :: h.i1 <= k < h.j1 ==> OpenChar(s[k])
    requires SecondBlockFrom(s, h.i1, h.j1) == Some(h)
    ensures FirstBlockFrom(s, h.i1) == Some(h)
  {
    BlockLands(s, h.i1, h.j1, 3, OpenChar);
  }

  lemma SecondBlockFound(s: string, h: PhoneShape)
    requires h.j1 + 3 <= h.j2 && DigitsAt(s, h.j2, 3) && forall k :: h.j1 + 3 <= k < h.j2 ==> CloseChar(s[k])
    requires ThirdBlockFrom(s, h.i1, h.j1, h.j2) == Some(h)
    ensures SecondBlockFrom(s, h.i1, h.j1) == Some(h)
  {
    BlockLands(s, h.j1 + 3, h.j2, 3, CloseChar);
  }

  lemma ThirdBlockFound(s: string, h: PhoneShape)
    requires h.j2 + 3 <= h.j3 && DigitsAt(s, h.j3, 2) && forall k :: h.j2 + 3 <= k < h.j3 ==> DashChar(s[k])
    requires FourthBlockFrom(s, h.i1, h.j1, h.j2, h.j3) == Some(h)
    ensures ThirdBlockFrom(s, h.i1, h.j1, h.j2) == Some(h)
  {
    BlockLands(s, h.j2 + 3, h.j3, 2, DashChar);
  }

  lemma FourthBlockFound(s: string, h: PhoneShape)
    requires h.j3 + 2 <= h.j4 && DigitsAt(s, h.j4, 2) && forall k :: h.j3 + 2 <= k < h.j4 ==> DashChar(s[k])
    ensures FourthBlockFrom(s, h.i1, h.j1, h.j2, h.j3) == Some(h)
  {
    BlockLands(s, h.j3 + 2, h.j4, 2, DashChar);
  }

  /** A separator run followed by a digit block: none of the classes holds a digit. */
  lemma BlockLands(s: string, i: nat, j: nat, n: nat, cls: char -> bool)
    requires cls == OpenChar || cls == CloseChar || cls == DashChar
    requires i <= j && n > 0 && DigitsAt(s, j, n)
    requires forall k :: i <= k < j ==> cls(s[k])
    ensures BlockAfter(s, i, cls, n) == Some(j)
  {
    assert IsDigit(s[j]);
    SkipWhileLands(s, i, j, cls);
  }

  /** The phone pattern attempted at `p`: the end of the whole match. */
  function PhoneAt(s: string, p: nat): (e: Option<nat>)
    ensures e.Some? ==> p < e.value <= |s|
  {
    PhoneShapeAtSound(s, p);
    match PhoneShapeAt(s, p)
    case None => None
    case Some(h) => Some(h.j4 + 2)
  }

  /** `phoneMatch[0].replace(/\D/g, '')`. */
  function Phone(s: string): Option<string> {
    match FirstMatch(|s|, p => PhoneAt(s, p), 0)
    case None => None
    case Some((p, e)) => Some(Filter(s[p..e], IsDigit))
  }

  /**
   * The phone is the digits of the leftmost match of the pattern, and it is
   * absent only when the pattern matches nowhere.
   */
  /** The pattern matches at `p` with shape `h`, and nowhere before `p`. */
  ghost predicate PhoneLeftmost(s: string, p: nat, h: PhoneShape) {
    ShapeOk(s, p, h) && forall p': nat, h': PhoneShape :: p' < p ==> !ShapeOk(s, p', h')
  }

  lemma PhoneIsFirstMatch(s: string)
    ensures Phone(s).Some? ==> exists p: nat, h: PhoneShape ::
      PhoneLeftmost(s, p, h) && Phone(s).value == Filter(s[p..h.j4 + 2], IsDigit)
  {
    if Phone(s).Some? {
      PhoneFromFirstAttempt(s);
      PhoneAttemptIsLeftmost(s, Phone(s).value);
    }
  }

  lemma PhoneAttemptIsLeftmost(s: string, d: string)
    requires exists p: nat, e: nat ::
      && PhoneAt(s, p) == Some(e)
      && d == Filter(s[p..e], IsDigit)
      && forall p': nat :: p' < p ==> PhoneAt(s, p').None?
    ensures exists p: nat, h: PhoneShape :: PhoneLeftmost(s, p, h) && d == Filter(s[p..h.j4 + 2], IsDigit)
  {
    var p: nat, e: nat :| && PhoneAt(s, p) == Some(e)
      && d == Filter(s[p..e], IsDigit)
      && forall p': nat :: p' < p ==> PhoneAt(s, p').None?;
    PhoneFirstFound(s, p, e);
    var h: PhoneShape :| PhoneLeftmost(s, p, h) && e == h.j4 + 2;
    PhoneLeftmostWitness(s, d, p, e, h);
  }

  lemma PhoneLeftmostWitness(s: string, d: string, p: nat, e: nat, h: PhoneShape)
    requires PhoneLeftmost(s, p, h) && e == h.j4 + 2
    requires d == Filter(s[p..e], IsDigit)
    ensures exists p: nat, h: PhoneShape :: PhoneLeftmost(s, p, h) && d == Filter(s[p..h.j4 + 2], IsDigit)
  {
    assert PhoneLeftmost(s, p, h) && d == Filter(s[p..h.j4 + 2], IsDigit);
  }

  /** The phone comes from the first position where the pattern attempt succeeds. */
  lemma PhoneFromFirstAttempt(s: string)
    ensures Phone(s).Some? ==> exists p: nat, e: nat ::
      && PhoneAt(s, p) == Some(e)
      && Phone(s).value == Filter(s[p..e], IsDigit)
      && forall p': nat :: p' < p ==> PhoneAt(s, p').None?
  {
    match FirstMatch(|s|, p => PhoneAt(s, p), 0)
    case None =>
    case Some((p, e)) =>
      assert PhoneAt(s, p) == Some(e);
      forall p': nat | p' < p ensures PhoneAt(s, p').None? {
        assert (q => PhoneAt(s, q))(p').None?;
      }
  }

  lemma PhoneFirstFound(s: string, p: nat, e: nat)
    requires PhoneAt(s, p) == Some(e)
    requires forall p': nat :: p' < p ==> PhoneAt(s, p').None?
    ensures exists h: PhoneShape :: PhoneLeftmost(s, p, h) && e == h.j4 + 2
  {
    PhoneAtShape(s, p);
    var h := PhoneShapeAt(s, p).value;
    NoShapeBefore(s, p, h);
  }

  lemma PhoneAtShape(s: string, p: nat)
    requires PhoneAt(s, p).Some?
    ensures PhoneShapeAt(s, p).Some?
    ensures ShapeOk(s, p, PhoneShapeAt(s, p).value)
    ensures PhoneAt(s, p).value == PhoneShapeAt(s, p).value.j4 + 2
  {
    PhoneShapeAtSound(s, p);
  }

  lemma NoShapeBefore(s: string, p: nat, h: PhoneShape)
    requires ShapeOk(s, p, h)
    requires forall p': nat :: p' < p ==> PhoneAt(s, p').None?
    ensures PhoneLeftmost(s, p, h)
  {
    forall p': nat, h': PhoneShape | p' < p ensures !ShapeOk(s, p', h') {
      PhoneAtWhereShape(s, p', h');
    }
  }

  /** No phone is found iff the pattern matches nowhere. */
  lemma PhoneAbsentIff(s: string)
    ensures Phone(s).None? <==> forall p: nat, h: PhoneShape :: !ShapeOk(s, p, h)
  {
    match FirstMatch(|s|, p => PhoneAt(s, p), 0)
    case None =>
      forall p: nat, h: PhoneShape ensures !ShapeOk(s, p, h) {
        PhoneAtWhereShape(s, p, h);
        if p <= |s| {
          assert (q => PhoneAt(s, q))(p).None?;
        }
      }
    case Some((p, e)) =>
      assert PhoneAt(s, p) == Some(e);
      PhoneShapeAtSound(s, p);
      assert ShapeOk(s, p, PhoneShapeAt(s, p).value);
  }

  lemma PhoneAtWhereShape(s: string, p: nat, h: PhoneShape)
    ensures ShapeOk(s, p, h) ==> PhoneAt(s, p).Some?
  {
    if ShapeOk(s, p, h) {
      PhoneShapeAtComplete(s, p, h);
    }
  }

  lemma FilterSlices(s: string, a: nat, b: nat, c: nat, keep: char -> bool)
    requires a <= b <= c <= |s|
    ensures Filter(s[a..c], keep) == Filter(s[a..b], keep) + Filter(s[b..c], keep)
  {
    assert s[a..c] == s[a..b] + s[b..c];
    FilterConcat(s[a..b], s[b..c], keep);
  }

  /** A run of separator characters contributes no digit. */
  lemma NoDigitsIn(s: string, a: nat, b: nat, cls: char -> bool)
    requires a <= b <= |s|
    requires forall k :: a <= k < b ==> cls(s[k])
    requires forall c :: cls(c) ==> !IsDigit(c)
    ensures Filter(s[a..b], IsDigit) == []
  {
    var t := s[a..b];
    forall i | 0 <= i < |t| ensures !IsDigit(t[i]) {
      assert t[i] == s[a + i];
    }
    FilterNone(t, IsDigit);
  }

  lemma AllDigitsIn(s: string, a: nat, n: nat)
    requires DigitsAt(s, a, n)
    ensures Filter(s[a..a + n], IsDigit) == s[a..a + n]
  {
    var t := s[a..a + n];
    forall i | 0 <= i < |t| ensures IsDigit(t[i]) {
      assert t[i] == s[a + i];
    }
    FilterAll(t, IsDigit);
  }

  lemma PrefixDigit(s: string, p: nat, i1: nat)
    requires (i1 == p + 2 && i1 <= |s| && s[p] == '+' && s[p + 1] == '7') || (i1 == p + 1 && p < |s| && s[p] == '8')
    ensures Filter(s[p..i1], IsDigit) == [s[i1 - 1]]
    ensures s[i1 - 1] == '7' || s[i1 - 1] == '8'
  {
    var t := s[p..i1];
    if i1 == p + 2 {
      assert t == ['+', '7'];
      assert t[1..] == ['7'];
      assert t[1..][1..] == [];
    } else {
      assert t == ['8'];
      assert t[1..] == [];
    }
  }

  /** A block of `n` digits at `a` and then separators up to `b`: the digits that survive are the block's. */
  lemma BlockThenSeparators(s: string, a: nat, n: nat, b: nat, c: nat, cls: char -> bool)
    requires DigitsAt(s, a, n) && a + n <= b <= c <= |s|
    requires forall k :: a + n <= k < b ==> cls(s[k])
    requires forall c :: cls(c) ==> !IsDigit(c)
    ensures Filter(s[a..c], IsDigit) == s[a..a + n] + Filter(s[b..c], IsDigit)
  {
    FilterSlices(s, a, a + n, c, IsDigit);
    FilterSlices(s, a + n, b, c, IsDigit);
    NoDigitsIn(s, a + n, b, cls);
    AllDigitsIn(s, a, n);
    var block, gap, rest := Filter(s[a..a + n], IsDigit), Filter(s[a + n..b], IsDigit), Filter(s[b..c], IsDigit);
    assert Filter(s[a..c], IsDigit) == block + (gap + rest);
    assert gap + rest == rest;
  }

  /** The digits of a phone match: the 7 or 8 of the prefix and the four blocks. */
  lemma PhoneMatchDigits(s: string, p: nat, h: PhoneShape)
    requires ShapeOk(s, p, h)
    ensures Filter(s[p..h.j4 + 2], IsDigit) ==
      [s[h.i1 - 1]] + (s[h.j1..h.j1 + 3] + (s[h.j2..h.j2 + 3] + (s[h.j3..h.j3 + 2] + s[h.j4..h.j4 + 2])))
  {
    PhoneBlocks(s, h.j1, h.j2, h.j3, h.j4);
    PrefixThenBlocks(s, p, h.i1, h.j1, h.j4 + 2,
      s[h.j1..h.j1 + 3] + (s[h.j2..h.j2 + 3] + (s[h.j3..h.j3 + 2] + s[h.j4..h.j4 + 2])));
  }

  /** The prefix `+7` or `8` and the separators after it leave one digit before the first block. */
  lemma PrefixThenBlocks(s: string, p: nat, i1: nat, j1: nat, e: nat, blocks: string)
    requires (i1 == p + 2 && i1 <= |s| && s[p] == '+' && s[p + 1] == '7') || (i1 == p + 1 && p < |s| && s[p] == '8')
    requires i1 <= j1 <= e <= |s|
    requires forall k :: i1 <= k < j1 ==> OpenChar(s[k])
    requires Filter(s[j1..e], IsDigit) == blocks
    ensures Filter(s[p..e], IsDigit) == [s[i1 - 1]] + blocks
  {
    FilterSlices(s, i1, j1, e, IsDigit);
    NoDigitsIn(s, i1, j1, OpenChar);
    var f1 := Filter(s[j1..e], IsDigit);
    var f0 := Filter(s[i1..e], IsDigit);
    assert f0 == [] + f1;
    assert f0 == f1;
    FilterSlices(s, p, i1, e, IsDigit);
    PrefixDigit(s, p, i1);
  }

  /** The four digit blocks of a phone match, with the separators between them dropped. */
  lemma PhoneBlocks(s: string, j1: nat, j2: nat, j3: nat, j4: nat)
    requires j1 + 3 <= j2 && j2 + 3 <= j3 && j3 + 2 <= j4 && j4 + 2 <= |s|
    requires DigitsAt(s, j1, 3) && DigitsAt(s, j2, 3) && DigitsAt(s, j3, 2) && DigitsAt(s, j4, 2)
    requires forall k :: j1 + 3 <= k < j2 ==> CloseChar(s[k])
    requires forall k :: j2 + 3 <= k < j3 ==> DashChar(s[k])
    requires forall k :: j3 + 2 <= k < j4 ==> DashChar(s[k])
    ensures Filter(s[j1..j4 + 2], IsDigit) == s[j1..j1 + 3] + (s[j2..j2 + 3] + (s[j3..j3 + 2] + s[j4..j4 + 2]))
  {
    var e := j4 + 2;
    LastBlocks(s, j3, j4);
    MiddleBlock(s, j2, j3, e);
    assert forall c :: CloseChar(c) ==> !IsDigit(c);
    BlockThenSeparators(s, j1, 3, j2, e, CloseChar);
  }

  /** A slice of `n` digits is all digits. */
  lemma SliceDigits(s: string, j: nat, n: nat)
    requires DigitsAt(s, j, n)
    ensures DigitsAt(s[j..j + n], 0, n)
  {
    var t := s[j..j + n];
    forall k | 0 <= k < n ensures IsDigit(t[k]) {
      assert t[k] == s[j + k];
    }
  }

  /** Two runs of digits joined are a run of digits. */
  lemma JoinDigits(a: string, b: string)
    requires DigitsAt(a, 0, |a|) && DigitsAt(b, 0, |b|)
    ensures DigitsAt(a + b, 0, |a + b|)
  {
    forall k | 0 <= k < |a + b| ensures IsDigit((a + b)[k]) {
      if k < |a| { assert (a + b)[k] == a[k]; } else { assert (a + b)[k] == b[k - |a|]; }
    }
  }

  /** `\d{2}[-\s]*\d{2}` at the end of a match: the four digits. */
  lemma LastBlocks(s: string, j3: nat, j4: nat)
    requires DigitsAt(s, j3, 2) && DigitsAt(s, j4, 2) && j3 + 2 <= j4
    requires forall k :: j3 + 2 <= k < j4 ==> DashChar(s[k])
    ensures Filter(s[j3..j4 + 2], IsDigit) == s[j3..j3 + 2] + s[j4..j4 + 2]
  {
    assert forall c :: DashChar(c) ==> !IsDigit(c);
    AllDigitsIn(s, j4, 2);
    BlockThenSeparators(s, j3, 2, j4, j4 + 2, DashChar);
  }

  lemma MiddleBlock(s: string, j2: nat, j3: nat, e: nat)
    requires DigitsAt(s, j2, 3) && j2 + 3 <= j3 <= e <= |s|
    requires forall k :: j2 + 3 <= k < j3 ==> DashChar(s[k])
    ensures Filter(s[j2..e], IsDigit) == s[j2..j2 + 3] + Filter(s[j3..e], IsDigit)
  {
    assert forall c :: DashChar(c) ==> !IsDigit(c);
    BlockThenSeparators(s, j2, 3, j3, e, DashChar);
  }

  /** A found phone number is exactly eleven digits and starts with 7 or 8. */
  lemma PhoneIsElevenDigits(s: string)
    ensures Phone(s).Some? ==> |Phone(s).value| == 11
    ensures Phone(s).Some? ==> Phone(s).value[0] == '7' || Phone(s).value[0] == '8'
    ensures Phone(s).Some? ==> forall i :: 0 <= i < 11 ==> IsDigit(Phone(s).value[i])
  {
    match FirstMatch(|s|, p => PhoneAt(s, p), 0)
    case None =>
    case Some((p, e)) =>
      assert PhoneAt(s, p) == Some(e);
      PhoneDigitsAt(s, p, e);
  }

  lemma PhoneDigitsAt(s: string, p: nat, e: nat)
    requires PhoneAt(s, p) == Some(e)
    ensures var d := Filter(s[p..e], IsDigit);
      |d| == 11 && (d[0] == '7' || d[0] == '8') && forall i :: 0 <= i < 11 ==> IsDigit(d[i])
  {
    PhoneShapeAtSound(s, p);
    ShapeDigits(s, p, PhoneShapeAt(s, p).value);
  }

  /** The digits of a phone match are eleven, the first a 7 or an 8. */
  lemma ShapeDigits(s: string, p: nat, h: PhoneShape)
    requires ShapeOk(s, p, h)
    ensures var d := Filter(s[p..h.j4 + 2], IsDigit);
      |d| == 11 && (d[0] == '7' || d[0] == '8') && forall i :: 0 <= i < 11 ==> IsDigit(d[i])
  {
    PhoneMatchDigits(s, p, h);
    PrefixDigit(s, p, h.i1);
    var lead, a, b, c, d := [s[h.i1 - 1]], s[h.j1..h.j1 + 3], s[h.j2..h.j2 + 3], s[h.j3..h.j3 + 2], s[h.j4..h.j4 + 2];
    SliceDigits(s, h.j1, 3);
    SliceDigits(s, h.j2, 3);
    SliceDigits(s, h.j3, 2);
    SliceDigits(s, h.j4, 2);
    JoinDigits(c, d);
    JoinDigits(b, c + d);
    JoinDigits(a, b + (c + d));
    JoinDigits(lead, a + (b + (c + d)));
  }

  // -------------------------------------------------------------------- bank

  const TinkoffMarkers: seq<string> := ["ТИНЬКОФФ", "Т-БАНК", "T-BANK"]

  /** The marker test of `parseCheckText`, case-sensitive. */
  predicate MentionsTinkoff(s: string) {
    Contains(s, TinkoffMarkers[0]) || Contains(s, TinkoffMarkers[1]) || Contains(s, TinkoffMarkers[2])
  }

  /**
   * `parseCheckText`: each field is filled by its own pattern only; the
   * sender and the recipient are declared but never filled.
   */
  method ParseCheckText(text: string) returns (data: CheckText)
    ensures data.amount == Amount(text) && data.date == Date(text) && data.phone == Phone(text)
    ensures data.bank.Some? <==> MentionsTinkoff(text)
    ensures data.bank.Some? ==> data.bank.value == "tinkoff"
    ensures data.sender.None? && data.recipient.None?
  {
    data := CheckText(None, None, None, None, None, None);
    var amountMatch := AmountMatch(text);
    if amountMatch.Some? {
      var (p, e) := amountMatch.value;
      data := data.(amount := Some(Filter(text[p..e], NotSpace)));
    }
    var date := Date(text);
    if date.Some? {
      data := data.(date := date);
    }
    var phone := Phone(text);
    if phone.Some? {
      data := data.(phone := phone);
    }
    if Contains(text, "ТИНЬКОФФ") || Contains(text, "Т-БАНК") || Contains(text, "T-BANK") {
      data := data.(bank := Some("tinkoff"));
    }
  }

  /** Text with none of the patterns gives the empty record. */
  lemma NothingFoundGivesEmptyRecord(text: string)
    requires forall q: nat :: !DigitBeforeRuble(text, q)
    requires forall p: nat :: !DateOccursAt(text, p)
    requires forall p: nat, h: PhoneShape :: !ShapeOk(text, p, h)
    ensures Amount(text).None? && Date(text).None? && Phone(text).None?
  {
    AmountPresentIff(text);
    DateIsFirstMatch(text);
    forall p: nat ensures PhoneAt(text, p).None? {
      PhoneShapeAtSound(text, p);
    }
  }
}
