/** The string operations the emailer relies on. */
module Text {

  /** `sub` occurs in `s` starting at position `i`. */
  predicate OccursAt(s: string, sub: string, i: int)
    requires 0 <= i <= |s| - |sub|
  {
    s[i..i + |sub|] == sub
  }

  /** `sub` occurs in `s` as a contiguous run of characters; this is Python's `sub in s`
      on strings, so the empty string occurs in every string. */
  predicate Contains(s: string, sub: string) {
    exists i :: 0 <= i <= |s| - |sub| && OccursAt(s, sub, i)
  }

  /** A fragment embedded anywhere in a longer string is found. */
  lemma ContainsEmbedded(before: string, sub: string, after: string)
    ensures Contains(before + sub + after, sub)
  {
    var s := before + sub + after;
    assert OccursAt(s, sub, |before|);
  }
}
