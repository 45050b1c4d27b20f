/**
 * Replacement of every occurrence of a pattern in a string, scanning left to right and
 * never overlapping two occurrences, as Foundation's `replacingOccurrences(of:with:)`
 * does; characters are compared one code point at a time.
 */
module Replace {

  /** `p` occurs in `s` starting at index `i`. */
  predicate IsAt(s: string, p: string, i: int) {
    0 <= i && i + |p| <= |s| && s[i..i + |p|] == p
  }

  /** `p` occurs somewhere in `s`. */
  predicate Occurs(s: string, p: string) {
    exists i | 0 <= i <= |s| :: IsAt(s, p, i)
  }

  /**
   * Replaces every occurrence of `p` in `s` by `r`. An empty pattern, or a pattern
   * replaced by itself, leaves `s` alone.
   */
  function ReplaceAll(s: string, p: string, r: string): (res: string)
    ensures |p| == 0 ==> res == s
    ensures r == p ==> res == s
  {
    if r == p then
      ReplaceWithItself(s, p, 0);
      ReplaceFrom(s, p, r, 0)
    else
      ReplaceFrom(s, p, r, 0)
  }

  /** The replace-all scan of `s[k..]`. */
  function ReplaceFrom(s: string, p: string, r: string, k: nat): string
    requires k <= |s|
    decreases |s| - k
  {
    if |p| == 0 || |s| - k < |p| then s[k..]
    else if IsAt(s, p, k) then r + ReplaceFrom(s, p, r, k + |p|)
    else [s[k]] + ReplaceFrom(s, p, r, k + 1)
  }

  /** The number of occurrences of `p` that the replace-all scan finds in `s[k..]`. */
  function CountFrom(s: string, p: string, k: nat): nat
    requires k <= |s|
    decreases |s| - k
  {
    if |p| == 0 || |s| - k < |p| then 0
    else if IsAt(s, p, k) then 1 + CountFrom(s, p, k + |p|)
    else CountFrom(s, p, k + 1)
  }

  /** The number of occurrences of `p` that replace-all finds in `s`. */
  function Count(s: string, p: string): nat {
    CountFrom(s, p, 0)
  }

  /** Where the pattern does not occur from `k` on, the scan copies `s[k..]`. */
  lemma {:induction false} NoOccurrenceFrom(s: string, p: string, r: string, k: nat)
    requires k <= |s|
    requires forall j | k <= j <= |s| :: !IsAt(s, p, j)
    ensures ReplaceFrom(s, p, r, k) == s[k..]
    ensures CountFrom(s, p, k) == 0
    decreases |s| - k
  {
    if |p| == 0 || |s| - k < |p| {
    } else {
      assert !IsAt(s, p, k);
      NoOccurrenceFrom(s, p, r, k + 1);
      assert s[k..] == [s[k]] + s[k + 1..];
    }
  }

  /** A string in which the pattern does not occur is left unchanged. */
  lemma NoOccurrenceUnchanged(s: string, p: string, r: string)
    requires !Occurs(s, p)
    ensures ReplaceAll(s, p, r) == s
    ensures Count(s, p) == 0
  {
    NoOccurrenceFrom(s, p, r, 0);
  }

  /** Proof hint, kept apart to keep its callers cheap: where the pattern does not start, the scan copies one character. */
  lemma CopyStep(s: string, p: string, r: string, k: nat)
    requires |p| > 0 && k + |p| <= |s| && !IsAt(s, p, k)
    ensures ReplaceFrom(s, p, r, k) == [s[k]] + ReplaceFrom(s, p, r, k + 1)
  {
  }

  /** Proof hint, kept apart to keep its callers cheap: where the pattern starts, the scan emits the replacement. */
  lemma MatchStep(s: string, p: string, r: string, k: nat)
    requires |p| > 0 && IsAt(s, p, k)
    ensures ReplaceFrom(s, p, r, k) == r + ReplaceFrom(s, p, r, k + |p|)
  {
  }

  /** Proof hint: a suffix splits at any later index. */
  lemma SplitAt(s: string, k: nat, m: nat)
    requires k <= m <= |s|
    ensures s[k..] == s[k..m] + s[m..]
  {
  }

  /** Proof hint: concatenation is associative. */
  lemma ConcatAssoc(a: string, b: string, c: string)
    ensures a + (b + c) == (a + b) + c
  {
  }

  /** Replacing the pattern by itself changes nothing. */
  lemma {:induction false} ReplaceWithItself(s: string, p: string, k: nat)
    requires k <= |s|
    ensures ReplaceFrom(s, p, p, k) == s[k..]
    decreases |s| - k, 1
  {
    if |p| == 0 || |s| - k < |p| {
    } else if IsAt(s, p, k) {
      ItselfAfterMatch(s, p, k);
    } else {
      ItselfAfterCopy(s, p, k);
    }
  }

  lemma {:induction false} ItselfAfterMatch(s: string, p: string, k: nat)
    requires |p| > 0 && IsAt(s, p, k)
    ensures ReplaceFrom(s, p, p, k) == s[k..]
    decreases |s| - k, 0
  {
    MatchStep(s, p, p, k);
    ReplaceWithItself(s, p, k + |p|);
    SplitAt(s, k, k + |p|);
  }

  lemma {:induction false} ItselfAfterCopy(s: string, p: string, k: nat)
    requires |p| > 0 && k + |p| <= |s| && !IsAt(s, p, k)
    ensures ReplaceFrom(s, p, p, k) == s[k..]
    decreases |s| - k, 0
  {
    CopyStep(s, p, p, k);
    ReplaceWithItself(s, p, k + 1);
    SplitAt(s, k, k + 1);
    assert s[k..k + 1] == [s[k]];
  }

  /** Every occurrence found changes the length by the difference of the two lengths. */
  lemma {:induction false} ReplaceFromLength(s: string, p: string, r: string, k: nat)
    requires k <= |s|
    ensures |ReplaceFrom(s, p, r, k)| == |s| - k + CountFrom(s, p, k) * (|r| - |p|)
    decreases |s| - k
  {
    if |p| == 0 || |s| - k < |p| {
    } else if IsAt(s, p, k) {
      ReplaceFromLength(s, p, r, k + |p|);
      Distribute(CountFrom(s, p, k + |p|), |r| - |p|);
    } else {
      ReplaceFromLength(s, p, r, k + 1);
    }
  }

  /** Proof hint: the nonlinear step of the length formula, kept out of the induction. */
  lemma Distribute(c: int, d: int)
    ensures (c + 1) * d == c * d + d
  {
  }

  /** The length of a replace-all result, in terms of the occurrences it replaced. */
  lemma ReplaceAllLength(s: string, p: string, r: string)
    ensures |ReplaceAll(s, p, r)| == |s| + Count(s, p) * (|r| - |p|)
  {
    ReplaceFromLength(s, p, r, 0);
  }

  /** The first occurrence of a pattern that occurs at index `k` or earlier. */
  lemma {:induction false} FirstIndex(s: string, p: string, k: int) returns (i: int)
    requires IsAt(s, p, k)
    ensures 0 <= i <= k && IsAt(s, p, i)
    ensures forall j | 0 <= j < i :: !IsAt(s, p, j)
    decreases k
  {
    if j :| 0 <= j < k && IsAt(s, p, j) {
      i := FirstIndex(s, p, j);
    } else {
      i := k;
    }
  }

  /**
   * Between `k` and the next occurrence at `i` the scan copies, the occurrence becomes
   * `r`, and the scan resumes right after it.
   */
  lemma {:induction false} NextOccurrence(s: string, p: string, r: string, k: nat, i: int)
    requires |p| > 0 && k <= i && IsAt(s, p, i)
    requires forall j | k <= j < i :: !IsAt(s, p, j)
    ensures ReplaceFrom(s, p, r, k) == s[k..i] + r + ReplaceFrom(s, p, r, i + |p|)
    decreases i - k, 1
  {
    if k == i {
      MatchStep(s, p, r, k);
      assert s[k..i] == [];
    } else {
      CopyBeforeOccurrence(s, p, r, k, i);
    }
  }

  lemma {:induction false} CopyBeforeOccurrence(s: string, p: string, r: string, k: nat, i: int)
    requires |p| > 0 && k < i && IsAt(s, p, i)
    requires forall j | k <= j < i :: !IsAt(s, p, j)
    ensures ReplaceFrom(s, p, r, k) == s[k..i] + r + ReplaceFrom(s, p, r, i + |p|)
    decreases i - k, 0
  {
    var rest := ReplaceFrom(s, p, r, i + |p|);
    CopyStep(s, p, r, k);
    NextOccurrence(s, p, r, k + 1, i);
    assert [s[k]] + s[k + 1..i] == s[k..i];
    ConcatAssoc([s[k]], s[k + 1..i] + r, rest);
    ConcatAssoc([s[k]], s[k + 1..i], r);
  }

  /** The scan counts the next occurrence and resumes right after it. */
  lemma {:induction false} NextOccurrenceCount(s: string, p: string, k: nat, i: int)
    requires |p| > 0 && k <= i && IsAt(s, p, i)
    requires forall j | k <= j < i :: !IsAt(s, p, j)
    ensures CountFrom(s, p, k) == 1 + CountFrom(s, p, i + |p|)
    decreases i - k
  {
    if k < i {
      assert !IsAt(s, p, k) && |s| - k >= |p|;
      NextOccurrenceCount(s, p, k + 1, i);
    }
  }

  /** Proof hint: the nonlinear step of the length argument, kept out of its caller. */
  lemma NonzeroProduct(c: int, d: int)
    requires c >= 1 && d != 0
    ensures c * d != 0
  {
  }

  /** Replacing an occurrence by a different text of the same length changes the string. */
  lemma SameLengthReplacementChanges(s: string, p: string, r: string, i: int)
    requires |p| > 0 && |r| == |p| && r != p && IsAt(s, p, i)
    requires forall j | 0 <= j < i :: !IsAt(s, p, j)
    ensures ReplaceAll(s, p, r) != s
  {
    NextOccurrence(s, p, r, 0, i);
    var res := ReplaceAll(s, p, r);
    assert res[i..i + |r|] == r;
    assert s[i..i + |p|] == p;
  }

  /** Replacing an occurrence by a text of another length changes the length. */
  lemma OtherLengthReplacementChanges(s: string, p: string, r: string, i: int)
    requires |p| > 0 && |r| != |p| && IsAt(s, p, i)
    requires forall j | 0 <= j < i :: !IsAt(s, p, j)
    ensures |ReplaceAll(s, p, r)| != |s|
  {
    NextOccurrenceCount(s, p, 0, i);
    ReplaceAllLength(s, p, r);
    NonzeroProduct(Count(s, p), |r| - |p|);
  }

  /** An occurrence replaced by a different text always shows in the result. */
  lemma OccurrenceChanges(s: string, p: string, r: string)
    requires |p| > 0 && r != p && Occurs(s, p)
    ensures ReplaceAll(s, p, r) != s
  {
    var k :| 0 <= k <= |s| && IsAt(s, p, k);
    var i := FirstIndex(s, p, k);
    if |r| == |p| {
      SameLengthReplacementChanges(s, p, r, i);
    } else {
      OtherLengthReplacementChanges(s, p, r, i);
    }
  }

  /**
   * Replace-all leaves a string unchanged exactly when the pattern does not occur in it
   * or is replaced by itself.
   */
  lemma UnchangedIff(s: string, p: string, r: string)
    requires |p| > 0
    ensures ReplaceAll(s, p, r) == s <==> (r == p || !Occurs(s, p))
  {
    if r == p {
      ReplaceWithItself(s, p, 0);
    } else if !Occurs(s, p) {
      NoOccurrenceUnchanged(s, p, r);
    } else {
      OccurrenceChanges(s, p, r);
    }
  }

  /** A pattern that holds a character the string lacks does not occur in it. */
  lemma MissingCharNoOccurrence(s: string, p: string, c: char)
    requires c in p && c !in s
    ensures !Occurs(s, p)
  {
  }

  /** A string that is the pattern itself becomes the replacement. */
  lemma ReplaceWholePattern(p: string, r: string)
    requires |p| > 0
    ensures ReplaceAll(p, p, r) == r
  {
    assert IsAt(p, p, 0);
    assert ReplaceFrom(p, p, r, |p|) == [];
  }
}
