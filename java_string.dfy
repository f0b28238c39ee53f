/**
 * `java.lang.String.trim()`: removes every leading and trailing character
 * whose code is at most U+0020 (space and the ASCII control characters).
 * Other Unicode spaces, such as U+00A0, are kept.
 */
module JavaString {

  /** The characters `trim` strips. */
  predicate IsTrimmed(c: char) {
    c <= ' '
  }

  /** A string that `trim` empties: every character is at most U+0020. */
  predicate IsBlank(s: string) {
    forall i | 0 <= i < |s| :: IsTrimmed(s[i])
  }

  /** The length of the leading run of trimmed characters (the index `trim` starts at). */
  function LeadingBlanks(s: string): (n: nat)
    ensures n <= |s|
    ensures forall i | 0 <= i < n :: IsTrimmed(s[i])
    ensures n < |s| ==> !IsTrimmed(s[n])
  {
    if s == [] || !IsTrimmed(s[0]) then 0 else 1 + LeadingBlanks(s[1..])
  }

  /** The length of the trailing run of trimmed characters. */
  function TrailingBlanks(s: string): (n: nat)
    ensures n <= |s|
    ensures forall i | |s| - n <= i < |s| :: IsTrimmed(s[i])
    ensures n < |s| ==> !IsTrimmed(s[|s| - n - 1])
  {
    if s == [] || !IsTrimmed(s[|s| - 1]) then 0 else 1 + TrailingBlanks(s[..|s| - 1])
  }

  /**
   * The result of `s.trim()`: the slice `s[a..a + |r|]` such that everything
   * before and after it is trimmed and the slice neither starts nor ends with
   * a trimmed character.
   */
  function Trim(s: string): (r: string)
    ensures exists a | 0 <= a <= |s| - |r| :: IsTrimOf(r, s, a)
  {
    var a := LeadingBlanks(s);
    if a == |s| then
      assert IsTrimOf([], s, a);
      []
    else
      var e := |s| - TrailingBlanks(s);
      assert a < e;
      assert IsTrimOf(s[a..e], s, a);
      s[a..e]
  }

  /** `r` is `s` with the blank prefix `s[..a]` and a blank suffix removed. */
  ghost predicate IsTrimOf(r: string, s: string, a: int)
  {
    && 0 <= a <= |s| - |r|
    && r == s[a..a + |r|]
    && (forall i | 0 <= i < a :: IsTrimmed(s[i]))
    && (forall i | a + |r| <= i < |s| :: IsTrimmed(s[i]))
    && (r == [] || (!IsTrimmed(r[0]) && !IsTrimmed(r[|r| - 1])))
  }

  /** `s.trim().isEmpty()` holds exactly when every character of `s` is at most U+0020. */
  lemma TrimEmptyIffBlank(s: string)
    ensures Trim(s) == [] <==> IsBlank(s)
  {
    var r := Trim(s);
    var a :| 0 <= a <= |s| - |r| && IsTrimOf(r, s, a);
    if r == [] {
      forall i | 0 <= i < |s| ensures IsTrimmed(s[i]) {
        if i >= a {
          assert a + |r| <= i;
        }
      }
    } else {
      assert s[a] == r[0];
    }
  }

  /** Trimming twice is trimming once. */
  lemma TrimIdempotent(s: string)
    ensures Trim(Trim(s)) == Trim(s)
  {
    var r := Trim(s);
    var r2 := Trim(r);
    var a :| 0 <= a <= |r| - |r2| && IsTrimOf(r2, r, a);
    if r != [] {
      assert !IsTrimmed(r[0]) && !IsTrimmed(r[|r| - 1]);
      assert a == 0;
      assert |r2| == |r|;
    }
  }
}
