/** The character scans and the substring search the string code is made of. */
module Scan {

  predicate OccursAt(s: string, pat: string, pos: nat) {
    pos + |pat| <= |s| && s[pos..pos + |pat|] == pat
  }

  /** `s.find(pat)` stored in an int: the first occurrence, or -1. */
  method Find(s: string, pat: string) returns (pos: int)
    ensures pos < 0 ==> forall i: nat :: !OccursAt(s, pat, i)
    ensures pos >= 0 ==> OccursAt(s, pat, pos) && forall i: nat :: i < pos ==> !OccursAt(s, pat, i)
  {
    pos := 0;
    while pos + |pat| <= |s|
      invariant 0 <= pos
      invariant forall i: nat :: i < pos ==> !OccursAt(s, pat, i)
    {
      if s[pos..pos + |pat|] == pat {
        return;
      }
      pos := pos + 1;
    }
    pos := -1;
  }

  /** Moves right from an index to the character c, or to the end; stop is where that is. */
  method ScanRight(s: string, from: nat, c: char, ghost stop: nat) returns (i: nat)
    requires from <= stop <= |s| && (stop < |s| ==> s[stop] == c)
    requires forall k :: from <= k < stop ==> s[k] != c
    ensures i == stop
  {
    i := from;
    while i < |s| && s[i] != c
      invariant from <= i <= stop
    {
      i := i + 1;
    }
  }

  /** Moves left from an index to the character c at stop. */
  method ScanLeft(s: string, from: nat, c: char, ghost stop: nat) returns (i: nat)
    requires stop <= from < |s| && s[stop] == c
    requires forall k :: stop < k <= from ==> s[k] != c
    ensures i == stop
  {
    i := from;
    while s[i] != c
      invariant stop <= i <= from
      decreases i
    {
      i := i - 1;
    }
  }
}
