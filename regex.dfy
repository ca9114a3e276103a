/**
 * `commandAndOptionNameRegexp`, `/^[a-zA-Z1-9\s]/`: a name is accepted when its first
 * character is an ASCII letter, a digit from 1 to 9, or white space. The pattern is
 * anchored only at the start and has no quantifier, so nothing after the first character
 * is looked at.
 */
module NameRegex {
  import opened JsStrings

  /** The character class `[a-zA-Z1-9\s]`. */
  predicate InClass(c: char) {
    IsAsciiLetter(c) || ('1' <= c <= '9') || IsSpace(c)
  }

  /** `commandAndOptionNameRegexp.test(s)`: the class matched at index 0. */
  predicate Test(s: string) {
    exists i :: 0 <= i < 1 <= |s| && InClass(s[i])
  }

  /** A name passes exactly when its first character is in the class. */
  lemma TestIsFirstChar(s: string)
    ensures Test(s) <==> |s| > 0 && InClass(s[0])
  {
    if |s| > 0 && InClass(s[0]) {
      assert 0 <= 0 < 1 <= |s| && InClass(s[0]);
    }
  }

  /** Only the first character counts: whatever follows it is never rejected. */
  lemma OnlyFirstChar(s: string, t: string)
    requires |s| > 0
    ensures Test(s) <==> Test([s[0]] + t)
  {
    TestIsFirstChar(s);
    TestIsFirstChar([s[0]] + t);
  }

  /** The empty name, and a name that starts with `0`, are rejected. */
  lemma EmptyAndZeroRejected(t: string)
    ensures !Test("") && !Test(['0'] + t)
  {
    TestIsFirstChar(['0'] + t);
  }

  /** The class admits no punctuation: `_` and `-` (both allowed by Discord) cannot start a name. */
  lemma PunctuationRejected(t: string)
    ensures !Test(['_'] + t) && !Test(['-'] + t)
  {
    TestIsFirstChar(['_'] + t);
    TestIsFirstChar(['-'] + t);
  }
}
