/**
 The email shape check `/\S+@\S+\.\S+/.test(email)`: the pattern is not
 anchored, so it holds when some substring of the email matches it.
 `MatchesAt` is the meaning of the regular expression on one substring;
 `Test` is the check the validator evaluates, which looks only at the
 shortest possible match around an `@` and a `.`.
 */
module EmailPattern {
  import opened JsString

  /** `\S+@\S+\.\S+` matches s[start..end) with its literal `@` at index at and
      its literal `.` at index dot: each of the three `\S+` parts is non-empty
      and free of whitespace (`\S` also matches `@` and `.`). */
  ghost predicate MatchesAt(s: string, start: int, at: int, dot: int, end: int) {
    && 0 <= start < at && at + 1 < dot && dot + 1 < end <= |s|
    && s[at] == '@' && s[dot] == '.'
    && (forall k | start <= k < at :: !IsWs(s[k]))
    && (forall k | at < k < dot :: !IsWs(s[k]))
    && (forall k | dot < k < end :: !IsWs(s[k]))
  }

  /** The regular expression finds a match somewhere in s. */
  ghost predicate Matches(s: string) {
    exists start, at, dot, end :: MatchesAt(s, start, at, dot, end)
  }

  /** An `@` at index at and a `.` at index dot that bound the shortest match:
      one non-whitespace character before the `@`, a non-empty non-whitespace run
      between them and one non-whitespace character after the `.`. */
  predicate ShortestMatchAt(s: string, at: int, dot: int) {
    && 0 < at && at + 1 < dot && dot + 1 < |s|
    && s[at] == '@' && s[dot] == '.'
    && !IsWs(s[at - 1]) && !IsWs(s[dot + 1])
    && (forall k | at < k < dot :: !IsWs(s[k]))
  }

  /** `/\S+@\S+\.\S+/.test(s)`: holds exactly when the regular expression
      matches some substring of s. */
  function Test(s: string): (b: bool)
    ensures b <==> Matches(s)
  {
    ShortestMatchSuffices(s);
    exists at, dot | 0 < at < |s| && at + 1 < dot < |s| - 1 :: ShortestMatchAt(s, at, dot)
  }

  /** Any match can be shrunk to the shortest one around its `@` and `.`, and the
      shortest one is a match; so looking for shortest matches decides the regular
      expression, in both directions. */
  lemma ShortestMatchSuffices(s: string)
    ensures Matches(s) <==>
      exists at, dot | 0 < at < |s| && at + 1 < dot < |s| - 1 :: ShortestMatchAt(s, at, dot)
  {
    if exists at, dot | 0 < at < |s| && at + 1 < dot < |s| - 1 :: ShortestMatchAt(s, at, dot) {
      var at, dot :| 0 < at < |s| && at + 1 < dot < |s| - 1 && ShortestMatchAt(s, at, dot);
      assert MatchesAt(s, at - 1, at, dot, dot + 2);
    }
    if Matches(s) {
      var start, at, dot, end :| MatchesAt(s, start, at, dot, end);
      assert ShortestMatchAt(s, at, dot);
    }
  }

  /** Concrete inputs: the loose shape accepts "a@b.c", "a@b.c.d" and "x@@y.z". */
  lemma AcceptedExamples()
    ensures Test("a@b.c") && Test("a@b.c.d") && Test("x@@y.z")
    ensures Test("alice@example.com") && Test("bob@x.y")
  {
    assert ShortestMatchAt("a@b.c", 1, 3);
    assert ShortestMatchAt("a@b.c.d", 1, 3);
    assert ShortestMatchAt("x@@y.z", 1, 4);
    assert ShortestMatchAt("alice@example.com", 5, 13);
    assert ShortestMatchAt("bob@x.y", 3, 5);
  }

  /** A string without `@`, such as "bad", never matches. */
  lemma NoAtNoMatch(s: string)
    requires forall k | 0 <= k < |s| :: s[k] != '@'
    ensures !Matches(s)
  {
  }

  /** Whitespace right before the `@` or right after the `.`, or nothing
      between them, defeats the match: "a @b.c", "a@b. c" and "a@.c" fail. */
  lemma RejectedExamples()
    ensures !Test("bad") && !Test("a @b.c") && !Test("a@b. c") && !Test("a@.c") && !Test("@b.c")
  {
  }
}
