/**
 * `RegExp#test` for the unanchored patterns of the bank classifier: a
 * pattern is a sequence of atoms, each a character class that occurs
 * exactly once, at most once (`?`) or at least once (`+`). A pattern
 * matches at a position when some choice of repetitions consumes it
 * there, which is what the backtracking engine searches for.
 */
module Patterns {
  import opened Strings

  /** The character classes the classifier's patterns use. */
  datatype Class =
    | Exactly(c: char)   // a literal character
    | LetterA            // `a` under the `i` flag: `a` or `A`
    | Digit              // `\d`
    | Space              // `\s`
    | DashOrSpace        // `[-\s]`

  predicate In(k: Class, c: char) {
    match k
    case Exactly(d) => c == d
    case LetterA => c == 'a' || c == 'A'
    case Digit => IsDigit(c)
    case Space => IsSpace(c)
    case DashOrSpace => c == '-' || IsSpace(c)
  }

  datatype Atom = One(k: Class) | Maybe(k: Class) | Many(k: Class)

  /** `k{n}`: the atom `One(k)` written `n` times. */
  function Times(k: Class, n: nat): (p: seq<Atom>)
    ensures |p| == n && forall i :: 0 <= i < n ==> p[i] == One(k)
  {
    if n == 0 then [] else [One(k)] + Times(k, n - 1)
  }

  function Literal(s: string): (p: seq<Atom>)
    ensures |p| == |s|
  {
    if s == [] then [] else [One(Exactly(s[0]))] + Literal(s[1..])
  }

  /** Some way of matching the whole of `pat` starting at `i` in `s`. */
  predicate MatchAt(pat: seq<Atom>, s: string, i: nat)
    requires i <= |s|
    decreases |s| - i, |pat|
  {
    if pat == [] then true
    else
      match pat[0]
      case One(k) => i < |s| && In(k, s[i]) && MatchAt(pat[1..], s, i + 1)
      case Maybe(k) => (i < |s| && In(k, s[i]) && MatchAt(pat[1..], s, i + 1)) || MatchAt(pat[1..], s, i)
      case Many(k) => i < |s| && In(k, s[i]) && (MatchAt(pat, s, i + 1) || MatchAt(pat[1..], s, i + 1))
  }

  /** `pattern.test(s)`: the pattern matches somewhere in `s`. */
  predicate Test(pat: seq<Atom>, s: string) {
    exists i | 0 <= i <= |s| :: MatchAt(pat, s, i)
  }

  /** `k{n}` followed by `rest` matches at `i` when `n` characters of class `k` start there and `rest` follows. */
  lemma {:induction false} TimesThen(k: Class, n: nat, rest: seq<Atom>, s: string, i: nat)
    requires i <= |s|
    ensures MatchAt(Times(k, n) + rest, s, i) <==>
      (i + n <= |s| && (forall j | i <= j < i + n :: In(k, s[j])) && MatchAt(rest, s, i + n))
    decreases n
  {
    if n > 0 {
      var p := Times(k, n) + rest;
      assert p[0] == One(k);
      assert p[1..] == Times(k, n - 1) + rest;
      if i < |s| {
        TimesThen(k, n - 1, rest, s, i + 1);
      }
    } else {
      assert Times(k, 0) + rest == rest;
    }
  }
}
