/**
 * The two anchored regular expressions of the service's utility module,
 * `^[a-zA-Z ._-]*$` (REGEX_FULL_WORD) and `^[a-zA-Z]+$` (REGEX_WORD),
 * written as the matchers they denote: a star that consumes one
 * character of the class at a time up to the end of the input, and a
 * plus, which is one such character followed by a star.
 * A `char` is a Unicode scalar value, as a Rust `char` is.
 */
module Utils {

  predicate IsAsciiLetter(c: char) {
    ('a' <= c <= 'z') || ('A' <= c <= 'Z')
  }

  /** The character class `[a-zA-Z ._-]`; `.` is literal inside a class and `-` is literal in last position. */
  predicate IsFullWordChar(c: char) {
    IsAsciiLetter(c) || c == ' ' || c == '.' || c == '_' || c == '-'
  }

  /** `^[a-zA-Z ._-]*$`: it accepts exactly the strings all of whose characters are in its class. */
  predicate MatchesFullWord(s: string): (b: bool)
    ensures b <==> forall i :: 0 <= i < |s| ==> IsFullWordChar(s[i])
  {
    if |s| == 0 then true
    else
      assert forall i :: 1 <= i < |s| ==> s[i] == s[1..][i - 1];
      IsFullWordChar(s[0]) && MatchesFullWord(s[1..])
  }

  /** `^[a-zA-Z]*$`, the tail of REGEX_WORD: it consumes exactly the strings of ASCII letters. */
  predicate LettersStar(s: string): (b: bool)
    ensures b <==> forall i :: 0 <= i < |s| ==> IsAsciiLetter(s[i])
  {
    if |s| == 0 then true
    else
      assert forall i :: 1 <= i < |s| ==> s[i] == s[1..][i - 1];
      IsAsciiLetter(s[0]) && LettersStar(s[1..])
  }

  /** `^[a-zA-Z]+$`: it accepts exactly the non-empty strings of ASCII letters. */
  predicate MatchesWord(s: string): (b: bool)
    ensures b <==> |s| > 0 && forall i :: 0 <= i < |s| ==> IsAsciiLetter(s[i])
  {
    if |s| == 0 then false
    else
      assert forall i :: 1 <= i < |s| ==> s[i] == s[1..][i - 1];
      IsAsciiLetter(s[0]) && LettersStar(s[1..])
  }

  /** The star admits the empty string. */
  lemma FullWordAcceptsEmpty()
    ensures MatchesFullWord("")
    ensures !MatchesWord("")
  {
  }

  /** Every string REGEX_WORD accepts, REGEX_FULL_WORD accepts too. */
  lemma WordImpliesFullWord(s: string)
    requires MatchesWord(s)
    ensures MatchesFullWord(s)
  {
  }

  /** A single character outside the class, a digit for one, rejects the whole string. */
  lemma FullWordRejectsOutsider(s: string, i: int)
    requires 0 <= i < |s| && !IsFullWordChar(s[i])
    ensures !MatchesFullWord(s)
  {
  }

  /** The star distributes over concatenation: a string matches iff both of its parts do. */
  lemma FullWordConcat(a: string, b: string)
    ensures MatchesFullWord(a + b) <==> MatchesFullWord(a) && MatchesFullWord(b)
  {
    assert forall i :: 0 <= i < |a| ==> (a + b)[i] == a[i];
    assert forall i :: 0 <= i < |b| ==> (a + b)[|a| + i] == b[i];
  }

  /** The examples written beside REGEX_FULL_WORD: "abdelaziz" alone, and joined to "said" by a space, `-`, `_` or `.`. */
  lemma FullWordExamples(sep: char)
    requires sep in {' ', '-', '_', '.'}
    ensures MatchesFullWord("abdelaziz")
    ensures MatchesFullWord("abdelaziz" + [sep] + "said")
  {
    var first, rest := "abdelaziz", [sep] + "said";
    assert MatchesFullWord(first) && MatchesFullWord(rest);
    FullWordConcat(first, rest);
    assert "abdelaziz" + [sep] + "said" == first + rest;
  }

  /** The example written beside REGEX_WORD. */
  lemma WordExample()
    ensures MatchesWord("abdelaziz")
  {
  }

  /** A full-word example that REGEX_WORD refuses, for its space. */
  lemma WordRejectsSpace()
    ensures !MatchesWord("abdelaziz said")
  {
    var s := "abdelaziz said";
    assert s[9] == ' ';
  }
}
