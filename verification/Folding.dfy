/** The ASCII case folding used for JIDs and digests. */
module Folding {
  import opened Bytes

  function AsciiLower(c: char): char {
    if 'A' <= c <= 'Z' then (c as int + 32) as char else c
  }

  /** Two strings fold alike exactly when g_ascii_strcasecmp calls them equal. */
  function Fold(s: string): string {
    seq(|s|, i requires 0 <= i < |s| => AsciiLower(s[i]))
  }

  /** Equal, or a capital letter from A to Z and its own small letter. */
  predicate SameLetter(a: char, b: char) {
    || a == b
    || (65 <= a as int <= 90 && b as int == a as int + 32)
    || (65 <= b as int <= 90 && a as int == b as int + 32)
  }

  predicate SameName(a: string, b: string) {
    |a| == |b| && forall i :: 0 <= i < |a| ==> SameLetter(a[i], b[i])
  }

  lemma LowerIff(a: char, b: char)
    ensures AsciiLower(a) == AsciiLower(b) <==> SameLetter(a, b)
  {
  }

  /** What folding keeps apart and what it does not. */
  lemma FoldIff(a: string, b: string)
    ensures Fold(a) == Fold(b) <==> SameName(a, b)
  {
    hide AsciiLower, SameLetter;
    forall i | 0 <= i < |a| && i < |b|
      ensures Fold(a)[i] == Fold(b)[i] <==> SameLetter(a[i], b[i])
    {
      LowerIff(a[i], b[i]);
    }
  }

  /** g_ascii_strncasecmp(a, b, n) == 0 */
  predicate SameFoldedPrefix(a: string, b: string, n: nat) {
    Fold(a[..Min(n, |a|)]) == Fold(b[..Min(n, |b|)])
  }

  /** The first n characters agree up to the case of a letter, or both strings end before that. */
  lemma SameFoldedPrefixIff(a: string, b: string, n: nat)
    ensures SameFoldedPrefix(a, b, n) <==>
              && (|a| == |b| || (|a| >= n && |b| >= n))
              && forall i :: 0 <= i < n && i < |a| ==> SameLetter(a[i], b[i])
  {
    hide Fold, SameLetter;
    FoldIff(a[..Min(n, |a|)], b[..Min(n, |b|)]);
  }
}
