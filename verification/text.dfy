/**
 * Python's `str.split(sep)` and `sep.join(parts)` on non-empty separators.
 *
 * `split` scans left to right, cuts at every occurrence of the separator
 * (occurrences do not overlap) and keeps the pieces in between, so the
 * result always has one more piece than there are cuts.
 */
module Text {
  import opened Common

  /** `sep` occurs in `s` starting at index `k`. */
  predicate OccursAt(s: string, sep: string, k: nat) {
    k + |sep| <= |s| && s[k..k + |sep|] == sep
  }

  /** `sep` occurs somewhere in `s` (Python's `sep in s`). */
  ghost predicate Contains(s: string, sep: string) {
    exists k: nat :: OccursAt(s, sep, k)
  }

  /** The first index at or after `i` where `sep` occurs (Python's `s.find(sep, i)`). */
  function FindFrom(s: string, sep: string, i: nat): (r: Option<nat>)
    requires |sep| > 0 && i <= |s|
    ensures r.Some? ==> i <= r.value && OccursAt(s, sep, r.value)
    ensures r.Some? ==> forall k: nat :: i <= k < r.value ==> !OccursAt(s, sep, k)
    ensures r.None? ==> forall k: nat :: i <= k ==> !OccursAt(s, sep, k)
    decreases |s| - i
  {
    if i + |sep| > |s| then None
    else if s[i..i + |sep|] == sep then Some(i)
    else FindFrom(s, sep, i + 1)
  }

  /** `s.split(sep)`. */
  function Split(s: string, sep: string): (parts: seq<string>)
    requires |sep| > 0
    ensures |parts| >= 1
    decreases |s|
  {
    match FindFrom(s, sep, 0)
    case None => [s]
    case Some(j) => [s[..j]] + Split(s[j + |sep|..], sep)
  }

  /** `sep.join(parts)`: starts with the first piece. */
  function Join(parts: seq<string>, sep: string): (s: string)
    ensures |parts| > 0 ==> |parts[0]| <= |s| && s[..|parts[0]|] == parts[0]
  {
    if |parts| == 0 then ""
    else if |parts| == 1 then parts[0]
    else parts[0] + sep + Join(parts[1..], sep)
  }

  /** Joining the pieces of a split with the same separator gives back the text. */
  lemma {:induction false} JoinSplit(s: string, sep: string)
    requires |sep| > 0
    ensures Join(Split(s, sep), sep) == s
    decreases |s|
  {
    match FindFrom(s, sep, 0)
    case None =>
    case Some(j) =>
      var rest := s[j + |sep|..];
      var tail := Split(rest, sep);
      JoinSplit(rest, sep);
      assert Split(s, sep) == [s[..j]] + tail;
      assert ([s[..j]] + tail)[1..] == tail;
      assert s == s[..j] + s[j..j + |sep|] + rest;
  }

  /** The pieces after the first, joined again, are the text after the first cut, or nothing without a cut. */
  lemma JoinRest(s: string, sep: string)
    requires |sep| > 0
    ensures FindFrom(s, sep, 0).None? ==> Join(Split(s, sep)[1..], sep) == ""
    ensures FindFrom(s, sep, 0).Some? ==> Join(Split(s, sep)[1..], sep) == s[FindFrom(s, sep, 0).value + |sep|..]
  {
    match FindFrom(s, sep, 0)
    case None =>
      assert Split(s, sep) == [s];
    case Some(j) =>
      SplitRest(s, sep, j);
      JoinSplit(s[j + |sep|..], sep);
  }

  /** The pieces after the first are the split of the text after the first cut. */
  lemma SplitRest(s: string, sep: string, j: nat)
    requires |sep| > 0 && FindFrom(s, sep, 0) == Some(j)
    ensures Split(s, sep)[1..] == Split(s[j + |sep|..], sep)
  {
    var tail := Split(s[j + |sep|..], sep);
    assert Split(s, sep) == [s[..j]] + tail;
  }

  /** No occurrence of `sep` lies wholly before index `j`, so the prefix up to `j` is free of it. */
  lemma PrefixFree(s: string, sep: string, j: nat)
    requires |sep| > 0 && j <= |s|
    requires forall k: nat :: k < j ==> !OccursAt(s, sep, k)
    ensures !Contains(s[..j], sep)
  {
    forall k: nat | OccursAt(s[..j], sep, k)
      ensures false
    {
      assert s[..j][k..k + |sep|] == s[k..k + |sep|];
      assert OccursAt(s, sep, k);
    }
  }

  /** Every piece of a split is free of the separator: a piece is the text between two cuts. */
  lemma {:induction false} SplitPiecesFree(s: string, sep: string)
    requires |sep| > 0
    ensures forall i :: 0 <= i < |Split(s, sep)| ==> !Contains(Split(s, sep)[i], sep)
    decreases |s|
  {
    match FindFrom(s, sep, 0)
    case None =>
      assert Split(s, sep) == [s];
    case Some(j) =>
      var rest := s[j + |sep|..];
      PrefixFree(s, sep, j);
      SplitPiecesFree(rest, sep);
      assert Split(s, sep) == [s[..j]] + Split(rest, sep);
  }

  /** A split has a second piece exactly when the separator occurs in the text. */
  lemma SplitHasSecond(s: string, sep: string)
    requires |sep| > 0
    ensures |Split(s, sep)| >= 2 <==> Contains(s, sep)
  {
    match FindFrom(s, sep, 0)
    case None =>
      if Contains(s, sep) {
        var k: nat :| OccursAt(s, sep, k);
      }
    case Some(j) =>
      assert OccursAt(s, sep, j);
  }

  /** Text free of the separator splits into itself alone. */
  lemma SplitFree(s: string, sep: string)
    requires |sep| > 0 && !Contains(s, sep)
    ensures Split(s, sep) == [s]
  {
    match FindFrom(s, sep, 0)
    case None =>
    case Some(j) =>
  }

  /**
   * When no occurrence of `sep` starts inside `a` (none lies within `a` followed by
   * all but the last character of `sep`), the first cut of `a + sep + b` is right after `a`.
   */
  lemma SplitAfterFirst(a: string, sep: string, b: string)
    requires |sep| > 0
    requires !Contains(a + sep[..|sep| - 1], sep)
    ensures Split(a + sep + b, sep) == [a] + Split(b, sep)
  {
    var s := a + sep + b;
    var head := a + sep[..|sep| - 1];
    assert s[|a|..|a| + |sep|] == sep;
    assert OccursAt(s, sep, |a|);
    forall k: nat | k < |a| && OccursAt(s, sep, k)
      ensures OccursAt(head, sep, k)
    {
      assert head[k..k + |sep|] == s[k..k + |sep|];
    }
    assert forall k: nat :: k < |a| ==> !OccursAt(s, sep, k);
    var found := FindFrom(s, sep, 0);
    assert found == Some(|a|);
    assert s[..|a|] == a;
    assert s[|a| + |sep|..] == b;
  }

  /** A one-character separator occurs in `s` exactly when that character is in `s`. */
  lemma ContainsChar(s: string, c: char)
    ensures Contains(s, [c]) <==> c in s
  {
    if c in s {
      var k :| 0 <= k < |s| && s[k] == c;
      assert OccursAt(s, [c], k);
    }
    if Contains(s, [c]) {
      var k: nat :| OccursAt(s, [c], k);
      assert s[k] == s[k..k + 1][0];
    }
  }

  /** The first copy of character `c` in `a + [c] + b` is the one right after `a` when `a` is free of it. */
  lemma SplitAtChar(a: string, c: char, b: string)
    requires c !in a
    ensures Split(a + [c] + b, [c]) == [a] + Split(b, [c])
  {
    ContainsChar(a, c);
    assert [c][..0] == [];
    assert a + [c][..0] == a;
    SplitAfterFirst(a, [c], b);
  }

  /** A split on one character has one more piece than there are copies of that character. */
  lemma {:induction false} SplitCharCount(s: string, c: char)
    ensures |Split(s, [c])| == multiset(s)[c] + 1
    decreases |s|
  {
    match FindFrom(s, [c], 0)
    case None =>
      ContainsChar(s, c);
      SplitFree(s, [c]);
    case Some(j) =>
      assert s[j] == s[j..j + 1][0];
      PrefixFree(s, [c], j);
      ContainsChar(s[..j], c);
      SplitAtChar(s[..j], c, s[j + 1..]);
      assert s == s[..j] + [c] + s[j + 1..];
      SplitCharCount(s[j + 1..], c);
      assert multiset(s) == multiset(s[..j]) + multiset([c]) + multiset(s[j + 1..]);
  }
}
