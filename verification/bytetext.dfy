/** Searching a byte string for one byte or for another string. */
module ByteText {
  predicate OccursAt(s: string, x: string, i: nat) {
    i + |x| <= |s| && s[i..i + |x|] == x
  }

  predicate Contains(s: string, x: string) {
    exists i: nat :: i <= |s| && OccursAt(s, x, i)
  }

  /** strings.IndexByte from position i: the first c at or after it, or |s|. */
  function IndexFrom(s: string, i: nat, c: char): (j: nat)
    requires i <= |s|
    ensures i <= j <= |s| && (j < |s| ==> s[j] == c) && forall k :: i <= k < j ==> s[k] != c
    decreases |s| - i
  {
    if i == |s| || s[i] == c then i else IndexFrom(s, i + 1, c)
  }

  /** What comes before the start of the search does not matter. */
  lemma {:induction false} IndexShifts(x: string, y: string, i: nat, c: char)
    requires i <= |y|
    ensures IndexFrom(x + y, |x| + i, c) == |x| + IndexFrom(y, i, c)
    decreases |y| - i
  {
    if i < |y| && y[i] != c {
      IndexShifts(x, y, i + 1, c);
    }
  }
}
