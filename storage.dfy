/**
 * `src/utils/storage.ts`: the check history, a newest-first list of at most
 * 50 entries kept under one `localStorage` key. The slot holds the decoded
 * list (`JSON.stringify` and `JSON.parse` are taken to be inverse), or
 * nothing when the key is absent.
 */
module Storage {
  import opened Wrappers
  import opened Types
  import opened Strings

  const MaxEntries: nat := 50

  /** `[check, ...history].slice(0, 50)`. */
  function NewHistory(check: StoredCheck, history: seq<StoredCheck>): (r: seq<StoredCheck>)
    ensures |r| == Min(|history| + 1, MaxEntries)
    ensures r[0] == check
    ensures r[1..] == history[..Min(|history|, MaxEntries - 1)]
  {
    var all := [check] + history;
    assert all[1..] == history;
    all[..Min(|all|, MaxEntries)]
  }

  /** The history store: the one `localStorage` slot it reads and writes. */
  class HistoryStore {
    var slot: Option<seq<StoredCheck>>

    /** A store whose key has never been written. */
    constructor ()
      ensures slot == None
    {
      slot := None;
    }

    /** What `getCheckHistory` reads: the stored list, or the empty list when nothing is stored. */
    function History(): seq<StoredCheck>
      reads this
    {
      if slot.None? then [] else slot.value
    }

    /** `getCheckHistory`: nothing stored reads as the empty list. */
    method GetCheckHistory() returns (h: seq<StoredCheck>)
      ensures slot.None? ==> h == []
      ensures slot.Some? ==> h == slot.value
    {
      if slot.None? {
        return [];
      }
      return slot.value;
    }

    /** `saveCheckToHistory`: read, put the check in front, keep the newest 50, write back. */
    method SaveCheckToHistory(check: StoredCheck)
      modifies this
      ensures slot == Some(NewHistory(check, old(History())))
      ensures History()[0] == check
      ensures |History()| == Min(|old(History())| + 1, MaxEntries)
    {
      var history := GetCheckHistory();
      var newHistory := ([check] + history)[..Min(|history| + 1, MaxEntries)];
      slot := Some(newHistory);
    }

    /** `clearHistory`: the key is removed, so a later read gives the empty list. */
    method ClearHistory()
      modifies this
      ensures slot == None && History() == []
    {
      slot := None;
    }
  }

  /** Saving adds an entry even when one with the same id is already there. */
  lemma NoDeduplication(check: StoredCheck, history: seq<StoredCheck>)
    ensures NewHistory(check, NewHistory(check, history))[..2] == [check, check]
  {
    var once := NewHistory(check, history);
    var twice := NewHistory(check, once);
    assert twice[1..] == once[..Min(|once|, MaxEntries - 1)];
    assert twice[1] == once[0];
  }

  function Reverse<T>(s: seq<T>): (r: seq<T>)
    ensures |r| == |s|
    ensures forall i :: 0 <= i < |s| ==> r[i] == s[|s| - 1 - i]
  {
    if s == [] then [] else Reverse(s[1..]) + [s[0]]
  }

  /** The history after saving `checks` in order, starting from `history`. */
  function SaveAll(history: seq<StoredCheck>, checks: seq<StoredCheck>): seq<StoredCheck>
    decreases |checks|
  {
    if checks == [] then history
    else SaveAll(NewHistory(checks[0], history), checks[1..])
  }

  /**
   * After any run of saves the history holds the newest 50 of all checks
   * ever saved, newest first: only the oldest entries fall off. (A stored
   * list is never longer than 50, since only `saveCheckToHistory` writes it.)
   */
  lemma {:induction false} SaveAllNewestFirst(history: seq<StoredCheck>, checks: seq<StoredCheck>)
    requires |history| <= MaxEntries
    ensures SaveAll(history, checks) == (Reverse(checks) + history)[..Min(|checks| + |history|, MaxEntries)]
    decreases |checks|
  {
    if checks != [] {
      var c, rest := checks[0], checks[1..];
      var h1 := NewHistory(c, history);
      SaveAllNewestFirst(h1, rest);
      var n := Min(|checks| + |history|, MaxEntries);
      var lhs := (Reverse(rest) + h1)[..Min(|rest| + |h1|, MaxEntries)];
      var rhs := (Reverse(checks) + history)[..n];
      assert Reverse(checks) == Reverse(rest) + [c];
      assert |lhs| == n;
      forall i | 0 <= i < n ensures lhs[i] == rhs[i] {
        if i < |rest| {
          assert lhs[i] == Reverse(rest)[i];
          assert rhs[i] == Reverse(rest)[i];
        } else if i == |rest| {
          assert lhs[i] == h1[0];
        } else {
          assert lhs[i] == h1[i - |rest|];
          assert h1[i - |rest|] == h1[1..][i - |rest| - 1];
          assert rhs[i] == history[i - |rest| - 1];
        }
      }
      assert lhs == rhs;
    }
  }
}
