/**
 The JavaScript string primitives the registration form relies on:
 the whitespace class shared by `String.prototype.trim` and the regular
 expression escape `\s`, `trim` itself, and `length`, which counts UTF-16
 code units. Strings are sequences of Unicode scalar values.
 */
module JsString {

  /** ECMAScript WhiteSpace and LineTerminator code points: the characters
      `trim` removes and `\s` matches (`\S` matches every other character). */
  function IsWs(c: char): (b: bool)
    ensures b ==> c != '@' && c != '.'
    ensures b ==> c as int < 0x1_0000
  {
    || c == '\t' || c == '\n' || c == '\U{000B}' || c == '\U{000C}' || c == '\r'
    || c == ' ' || c == '\U{00A0}' || c == '\U{1680}'
    || ('\U{2000}' <= c <= '\U{200A}')
    || c == '\U{2028}' || c == '\U{2029}' || c == '\U{202F}' || c == '\U{205F}'
    || c == '\U{3000}' || c == '\U{FEFF}'
  }

  /** Every character of s is whitespace (vacuously true of ""). */
  ghost predicate AllWs(s: string) {
    forall k | 0 <= k < |s| :: IsWs(s[k])
  }

  /** The longest suffix of s that does not start with whitespace. */
  function TrimStart(s: string): (r: string)
    ensures |r| <= |s| && r == s[|s| - |r|..]
    ensures r == [] || !IsWs(r[0])
    ensures forall k | 0 <= k < |s| - |r| :: IsWs(s[k])
  {
    if s != [] && IsWs(s[0]) then TrimStart(s[1..]) else s
  }

  /** The longest prefix of s that does not end with whitespace. */
  function TrimEnd(s: string): (r: string)
    ensures |r| <= |s| && r == s[..|r|]
    ensures r == [] || !IsWs(r[|r| - 1])
    ensures forall k | |r| <= k < |s| :: IsWs(s[k])
  {
    if s != [] && IsWs(s[|s| - 1]) then TrimEnd(s[..|s| - 1]) else s
  }

  /** `s.trim()`: s without its leading and trailing whitespace. The result is
      the run of s between a removed all-whitespace prefix and a removed
      all-whitespace suffix; it is empty exactly when s is all whitespace, and
      otherwise starts and ends with a non-whitespace character of s. */
  function Trim(s: string): (r: string)
    ensures r == [] <==> AllWs(s)
    ensures r != [] ==> !IsWs(r[0]) && !IsWs(r[|r| - 1])
    ensures |r| <= |TrimStart(s)| <= |s|
    ensures forall k | 0 <= k < |r| :: r[k] == s[|s| - |TrimStart(s)| + k]
    ensures forall k | 0 <= k < |s| - |TrimStart(s)| :: IsWs(s[k])
    ensures forall k | |s| - |TrimStart(s)| + |r| <= k < |s| :: IsWs(s[k])
  {
    var t := TrimStart(s);
    var r := TrimEnd(t);
    // an all-whitespace remainder after TrimStart can only be empty
    assert r == [] ==> t == [];
    InnerRun(s, t, r);
    r
  }

  /** A prefix r of the suffix t of s is a run of s, and whatever of t lies
      beyond r is whitespace in s as well. */
  lemma InnerRun(s: string, t: string, r: string)
    requires |r| <= |t| <= |s| && t == s[|s| - |t|..] && r == t[..|r|]
    requires forall k | |r| <= k < |t| :: IsWs(t[k])
    ensures forall k | 0 <= k < |r| :: r[k] == s[|s| - |t| + k]
    ensures forall k | |s| - |t| + |r| <= k < |s| :: IsWs(s[k])
  {
    var off := |s| - |t|;
    forall k | off + |r| <= k < |s| ensures IsWs(s[k]) {
      assert s[k] == t[k - off];
    }
  }

  /** Number of UTF-16 code units of s: JavaScript's `s.length`. Characters
      outside the Basic Multilingual Plane take a surrogate pair. */
  function Utf16Length(s: string): (n: nat)
    ensures |s| <= n <= 2 * |s|
  {
    if s == [] then 0
    else (if s[0] as int >= 0x1_0000 then 2 else 1) + Utf16Length(s[1..])
  }

  /** `length` adds up over concatenation; with its value on one character this
      determines it on every string. */
  lemma {:induction false} Utf16LengthAppend(s: string, t: string)
    ensures Utf16Length(s + t) == Utf16Length(s) + Utf16Length(t)
  {
    if s != [] {
      assert (s + t)[1..] == s[1..] + t;
      Utf16LengthAppend(s[1..], t);
    } else {
      assert s + t == t;
    }
  }

  /** One character is one code unit, or two outside the Basic Multilingual Plane. */
  lemma Utf16LengthOfChar(c: char)
    ensures Utf16Length([c]) == if c as int >= 0x1_0000 then 2 else 1
  {
    assert [c][1..] == [];
  }

  /** Whether every character of s lies in the Basic Multilingual Plane. */
  ghost predicate AllBmp(s: string) {
    forall k | 0 <= k < |s| :: s[k] as int < 0x1_0000
  }

  /** On text of the Basic Multilingual Plane, `length` is the number of characters;
      any character outside it makes `length` exceed the character count. */
  lemma {:induction false} Utf16LengthOfBmp(s: string)
    ensures Utf16Length(s) == |s| <==> AllBmp(s)
  {
    if s != [] {
      Utf16LengthOfBmp(s[1..]);
      assert AllBmp(s) <==> s[0] as int < 0x1_0000 && AllBmp(s[1..]) by {
        if s[0] as int < 0x1_0000 && AllBmp(s[1..]) {
          forall k | 0 <= k < |s| ensures s[k] as int < 0x1_0000 {
            if k > 0 { assert s[k] == s[1..][k - 1]; }
          }
        }
      }
    }
  }
}
