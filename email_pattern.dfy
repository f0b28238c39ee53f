/**
 * A hand-written recogniser for the one e-mail pattern the suite uses,
 *   ^[A-Za-z0-9._%+-]+@[A-Za-z0-9.-]+\.[A-Za-z]{2,}$
 * matched against the whole string. It is an ad-hoc shape check, not the
 * address grammar of RFC 5322.
 */
module EmailPattern {

  import opened Wrappers

  predicate IsAsciiLetter(c: char) {
    'A' <= c <= 'Z' || 'a' <= c <= 'z'
  }

  predicate IsAsciiDigit(c: char) {
    '0' <= c <= '9'
  }

  /** The class `[A-Za-z0-9._%+-]` of the part before the `@`. */
  predicate IsLocalChar(c: char) {
    IsAsciiLetter(c) || IsAsciiDigit(c) || c == '.' || c == '_' || c == '%' || c == '+' || c == '-'
  }

  /** The class `[A-Za-z0-9.-]` of the part between the `@` and the final dot. */
  predicate IsDomainChar(c: char) {
    IsAsciiLetter(c) || IsAsciiDigit(c) || c == '.' || c == '-'
  }

  /**
   * The pattern's meaning, split at the `@` (index `at`) and at the dot that
   * precedes the top-level domain (index `dot`): one or more local characters,
   * `@`, one or more domain characters, `.`, and at least two ASCII letters
   * up to the end.
   */
  ghost predicate EmailShape(s: string, at: int, dot: int)
  {
    && 0 < at && at + 1 < dot && dot + 3 <= |s|
    && (forall i | 0 <= i < at :: IsLocalChar(s[i]))
    && s[at] == '@'
    && (forall i | at < i < dot :: IsDomainChar(s[i]))
    && s[dot] == '.'
    && (forall i | dot < i < |s| :: IsAsciiLetter(s[i]))
  }

  /** The whole of `s` matches the pattern, for some way of splitting it. */
  ghost predicate MatchesEmailPattern(s: string)
  {
    exists at, dot | 0 <= at < |s| && 0 <= dot < |s| :: EmailShape(s, at, dot)
  }

  /** The index of the first occurrence of `c` in `s`, if any. */
  function FirstIndexOf(s: string, c: char): (r: Option<nat>)
    ensures r.None? <==> forall i | 0 <= i < |s| :: s[i] != c
    ensures r.Some? ==> r.value < |s| && s[r.value] == c && forall i | 0 <= i < r.value :: s[i] != c
  {
    if s == [] then None
    else if s[0] == c then Some(0)
    else match FirstIndexOf(s[1..], c)
      case None => None
      case Some(k) => Some(k + 1)
  }

  /** The index of the last occurrence of `c` in `s`, if any. */
  function LastIndexOf(s: string, c: char): (r: Option<nat>)
    ensures r.None? <==> forall i | 0 <= i < |s| :: s[i] != c
    ensures r.Some? ==> r.value < |s| && s[r.value] == c && forall i | r.value < i < |s| :: s[i] != c
  {
    if s == [] then None
    else if s[|s| - 1] == c then Some(|s| - 1)
    else LastIndexOf(s[..|s| - 1], c)
  }

  /**
   * The recogniser: split at the first `@` and at the last `.`, then check
   * each part against its character class and the length bounds.
   */
  function IsValidEmail(s: string): (b: bool)
    ensures b ==> '@' in s && '.' in s
  {
    match FirstIndexOf(s, '@')
    case None => false
    case Some(at) =>
      match LastIndexOf(s, '.')
      case None => false
      case Some(dot) =>
        && 0 < at && at + 1 < dot && dot + 3 <= |s|
        && (forall i | 0 <= i < at :: IsLocalChar(s[i]))
        && (forall i | at < i < dot :: IsDomainChar(s[i]))
        && (forall i | dot < i < |s| :: IsAsciiLetter(s[i]))
  }

  /** The recogniser accepts exactly the strings the pattern matches. */
  lemma IsValidEmailCorrect(s: string)
    ensures IsValidEmail(s) <==> MatchesEmailPattern(s)
  {
    if IsValidEmail(s) {
      var at := FirstIndexOf(s, '@').value;
      var dot := LastIndexOf(s, '.').value;
      assert EmailShape(s, at, dot);
    }
    if MatchesEmailPattern(s) {
      var at, dot :| 0 <= at < |s| && 0 <= dot < |s| && EmailShape(s, at, dot);
      var first := FirstIndexOf(s, '@');
      assert first == Some(at) by {
        assert !IsLocalChar('@');
      }
      var last := LastIndexOf(s, '.');
      assert last == Some(dot) by {
        assert !IsAsciiLetter('.');
      }
    }
  }

  /** A string the pattern accepts contains exactly one `@`. */
  lemma MatchHasExactlyOneAt(s: string)
    requires MatchesEmailPattern(s)
    ensures multiset(s)['@'] == 1
  {
    var at, dot :| 0 <= at < |s| && 0 <= dot < |s| && EmailShape(s, at, dot);
    var before, after := s[..at], s[at + 1..];
    assert s == before + [s[at]] + after;
    assert '@' !in before by {
      assert !IsLocalChar('@');
    }
    assert '@' !in after by {
      assert !IsDomainChar('@') && !IsAsciiLetter('@');
      forall i | 0 <= i < |after| ensures after[i] != '@' {
        assert after[i] == s[at + 1 + i];
      }
    }
    assert multiset(s) == multiset(before) + multiset{'@'} + multiset(after);
  }

  /**
   * In a string the pattern accepts, the top-level domain is what follows the
   * last dot: at least two ASCII letters, and that dot lies after the `@`
   * with at least one domain character between them.
   */
  lemma MatchTopLevelDomainFollowsLastDot(s: string)
    requires MatchesEmailPattern(s)
    ensures LastIndexOf(s, '.').Some? && FirstIndexOf(s, '@').Some?
    ensures |s| - LastIndexOf(s, '.').value - 1 >= 2
    ensures forall i | LastIndexOf(s, '.').value < i < |s| :: IsAsciiLetter(s[i])
    ensures FirstIndexOf(s, '@').value + 1 < LastIndexOf(s, '.').value
  {
    IsValidEmailCorrect(s);
  }

  /** The pattern is looser than the address grammar: it accepts a doubled dot. */
  lemma PatternAcceptsDoubledDot()
    ensures IsValidEmail("a@b..com")
  {
    assert EmailShape("a@b..com", 1, 4);
    IsValidEmailCorrect("a@b..com");
  }

  /** The pattern accepts a domain made of a single hyphen. */
  lemma PatternAcceptsHyphenDomain()
    ensures IsValidEmail("a@-.io")
  {
    assert EmailShape("a@-.io", 1, 3);
    IsValidEmailCorrect("a@-.io");
  }

  /** A string without `@`, such as "not-an-email", is rejected. */
  lemma PatternRejectsMissingAt()
    ensures !IsValidEmail("not-an-email")
  {
    var s := "not-an-email";
    assert forall i | 0 <= i < |s| :: s[i] != '@';
  }

  /** A one-letter top-level domain is rejected. */
  lemma PatternRejectsShortTopLevelDomain()
    ensures !IsValidEmail("a@b.c")
  {
    var s := "a@b.c";
    assert s[3] == '.' && s[4] != '.';
    assert LastIndexOf(s, '.') == Some(3);
  }
}
