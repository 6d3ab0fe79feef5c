/**
 * Bracket arithmetic over the program text: the nesting change of a stretch of
 * source, the forward scan that skips a loop body, and the stack of open loops
 * that sequential execution up to a cursor position leaves behind.
 */
module Brackets {
  import opened Types

  /** How one character changes the nesting depth. */
  function Delta(ch: char): int {
    if ch == '[' then 1 else if ch == ']' then -1 else 0
  }

  /** The nesting change of s[i..j]: the number of '[' minus the number of ']'. */
  function Net(s: seq<char>, i: nat, j: nat): int
    requires i <= j <= |s|
    decreases j - i
  {
    if i == j then 0 else Delta(s[i]) + Net(s, i + 1, j)
  }

  lemma {:induction false} NetSplit(s: seq<char>, i: nat, j: nat, k: nat)
    requires i <= j <= k <= |s|
    ensures Net(s, i, k) == Net(s, i, j) + Net(s, j, k)
    decreases j - i
  {
    if i < j {
      NetSplit(s, i + 1, j, k);
    }
  }

  lemma NetLast(s: seq<char>, i: nat, j: nat)
    requires i < j <= |s|
    ensures Net(s, i, j) == Net(s, i, j - 1) + Delta(s[j - 1])
  {
    NetSplit(s, i, j - 1, j);
  }

  /**
   * The forward scan of a `[` whose cell is zero, started at position i with
   * `depth` brackets already opened: the position just after the ']' that
   * closes depth 0, or None if the text ends first.
   */
  function MatchClose(s: seq<char>, i: nat, depth: nat): (r: Option<nat>)
    ensures r.Some? ==> i < r.value <= |s| && s[r.value - 1] == ']'
    decreases |s| - i
  {
    if i >= |s| then None
    else if s[i] == ']' && depth == 0 then Some(i + 1)
    else if s[i] == '[' then MatchClose(s, i + 1, depth + 1)
    else if s[i] == ']' then MatchClose(s, i + 1, depth - 1)
    else MatchClose(s, i + 1, depth)
  }

  /**
   * Position j holds the ']' that a scan from i at the given depth stops at:
   * the depth reaches 0 exactly there, and at every earlier ']' it was still positive.
   */
  ghost predicate IsMatch(s: seq<char>, i: nat, depth: nat, j: nat) {
    i <= j < |s| && s[j] == ']' && depth + Net(s, i, j) == 0 &&
    forall k :: i <= k < j && s[k] == ']' ==> depth + Net(s, i, k) > 0
  }

  /** The scan stops at the first ']' at depth 0. */
  lemma {:induction false} MatchCloseSound(s: seq<char>, i: nat, depth: nat)
    requires MatchClose(s, i, depth).Some?
    ensures IsMatch(s, i, depth, MatchClose(s, i, depth).value - 1)
    decreases |s| - i
  {
    if s[i] == ']' && depth == 0 {
    } else {
      var d := depth + Delta(s[i]);
      assert d >= 0;
      var j := MatchClose(s, i, depth).value - 1;
      assert MatchClose(s, i + 1, d) == MatchClose(s, i, depth);
      MatchCloseSound(s, i + 1, d);
      forall k | i <= k < j && s[k] == ']'
        ensures depth + Net(s, i, k) > 0
      {
        if k > i {
          assert Net(s, i, k) == Delta(s[i]) + Net(s, i + 1, k);
        }
      }
    }
  }

  /** Conversely, the scan finds every position that is the first ']' at depth 0. */
  lemma {:induction false} MatchCloseComplete(s: seq<char>, i: nat, depth: nat, j: nat)
    requires IsMatch(s, i, depth, j)
    ensures MatchClose(s, i, depth) == Some(j + 1)
    decreases j - i
  {
    if j == i {
    } else {
      assert s[i] == ']' ==> depth + Net(s, i, i) > 0;
      var d := depth + Delta(s[i]);
      assert d >= 0;
      forall k | i + 1 <= k <= j
        ensures depth + Net(s, i, k) == d + Net(s, i + 1, k)
      {
      }
      assert IsMatch(s, i + 1, d, j);
      MatchCloseComplete(s, i + 1, d, j);
    }
  }

  /** If the rest of the text closes more loops than are open, the scan finds a ']'. */
  lemma {:induction false} MatchCloseExists(s: seq<char>, i: nat, depth: nat)
    requires i <= |s|
    requires depth + Net(s, i, |s|) < 0
    ensures MatchClose(s, i, depth).Some?
    decreases |s| - i
  {
    if i < |s| && !(s[i] == ']' && depth == 0) {
      MatchCloseExists(s, i + 1, depth + Delta(s[i]));
    }
  }

  /**
   * The open-bracket stack that executing s[..j] in order leaves: one entry,
   * the position just after it, for every '[' not yet closed. A ']' with no
   * open '[' leaves the stack empty.
   */
  function Opens(s: seq<char>, j: nat): seq<nat>
    requires j <= |s|
  {
    if j == 0 then []
    else
      var o := Opens(s, j - 1);
      if s[j - 1] == '[' then o + [j]
      else if s[j - 1] == ']' && o != [] then o[..|o| - 1]
      else o
  }

  /**
   * Every entry of the stack lies just after a '[' at or before j, and the stack
   * at that entry is the part of the current stack up to and including the entry.
   */
  lemma {:induction false} OpensEntries(s: seq<char>, j: nat)
    requires j <= |s|
    ensures forall k :: 0 <= k < |Opens(s, j)| ==>
      0 < Opens(s, j)[k] <= j && s[Opens(s, j)[k] - 1] == '[' &&
      Opens(s, Opens(s, j)[k]) == Opens(s, j)[..k + 1]
  {
    if j > 0 {
      OpensEntries(s, j - 1);
      var o := Opens(s, j - 1);
      var o' := Opens(s, j);
      forall k | 0 <= k < |o'|
        ensures 0 < o'[k] <= j && s[o'[k] - 1] == '[' && Opens(s, o'[k]) == o'[..k + 1]
      {
        if s[j - 1] == '[' {
          if k < |o| {
            assert o'[k] == o[k] && o'[..k + 1] == o[..k + 1];
          } else {
            assert o'[k] == j && o'[..k + 1] == o';
          }
        } else if s[j - 1] == ']' && o != [] {
          assert o'[k] == o[k] && o'[..k + 1] == o[..k + 1];
        }
      }
    }
  }

  /**
   * A successful forward scan from i at the given depth closes depth + 1 of the
   * loops open at i: the stack at its end is the stack at i without its top depth + 1 entries.
   */
  lemma {:induction false} OpensAfterMatch(s: seq<char>, i: nat, depth: nat)
    requires i <= |s| && MatchClose(s, i, depth).Some?
    requires |Opens(s, i)| > depth
    ensures Opens(s, MatchClose(s, i, depth).value) == Opens(s, i)[..|Opens(s, i)| - depth - 1]
    decreases |s| - i
  {
    var o := Opens(s, i);
    var o' := Opens(s, i + 1);
    if s[i] == ']' && depth == 0 {
    } else if s[i] == '[' {
      OpensAfterMatch(s, i + 1, depth + 1);
      assert o'[..|o'| - (depth + 1) - 1] == o[..|o| - depth - 1];
    } else if s[i] == ']' {
      OpensAfterMatch(s, i + 1, depth - 1);
      assert o'[..|o'| - (depth - 1) - 1] == o[..|o| - depth - 1];
    } else {
      OpensAfterMatch(s, i + 1, depth);
    }
  }

  /** Brackets properly nested: no prefix closes more than it opens, and the whole text closes all it opens. */
  ghost predicate Balanced(s: seq<char>) {
    Net(s, 0, |s|) == 0 && forall k :: 0 <= k <= |s| ==> Net(s, 0, k) >= 0
  }

  /** While no prefix closes more than it opens, the stack is as deep as the nesting. */
  lemma {:induction false} OpensDepth(s: seq<char>, j: nat)
    requires j <= |s|
    requires forall k :: 0 <= k <= j ==> Net(s, 0, k) >= 0
    ensures |Opens(s, j)| == Net(s, 0, j)
  {
    if j > 0 {
      OpensDepth(s, j - 1);
      NetLast(s, 0, j);
    }
  }
}
