/**
 * Character classes and cursor movement over one line of a fixture file, plus newline counting.
 * A cursor is an index into the line; the C++ iterator passed by reference becomes an index
 * that the method takes and returns.
 */
module Scanning {

  /**
   * Whitespace as the C locale's `isspace` classifies it: space, \t, \n, \v, \f, \r. All of
   * them lie between tab and space, so neither '/' nor ':' is whitespace.
   */
  predicate IsSpace(c: char): (b: bool)
    ensures b ==> '\t' <= c <= ' '
  {
    c == ' ' || c == '\t' || c == '\n' || c == '\U{B}' || c == '\U{C}' || c == '\r'
  }

  predicate IsSlash(c: char) {
    c == '/'
  }

  predicate NotColon(c: char) {
    c != ':'
  }

  predicate StartsWith(s: string, prefix: string) {
    |prefix| <= |s| && s[..|prefix|] == prefix
  }

  /** The first index at or after `i` whose character does not satisfy `p`, or `|s|`. */
  function SkipWhile(s: string, i: nat, p: char -> bool): (r: nat)
    requires i <= |s|
    ensures i <= r <= |s|
    ensures forall j :: i <= j < r ==> p(s[j])
    ensures r == |s| || !p(s[r])
    decreases |s| - i
  {
    if i < |s| && p(s[i]) then SkipWhile(s, i + 1, p) else i
  }

  /** The three facts SkipWhile ensures determine its result. */
  lemma {:induction false} SkipWhileIs(s: string, i: nat, p: char -> bool, r: nat)
    requires i <= r <= |s|
    requires forall j :: i <= j < r ==> p(s[j])
    requires r == |s| || !p(s[r])
    ensures SkipWhile(s, i, p) == r
    decreases r - i
  {
    if i < r {
      SkipWhileIs(s, i + 1, p, r);
    }
  }

  /** Number of '\n' characters in `s`. */
  function CountNewlines(s: string): (n: nat)
    ensures n <= |s|
  {
    if s == [] then 0
    else CountNewlines(s[..|s| - 1]) + (if s[|s| - 1] == '\n' then 1 else 0)
  }

  /** A string has no newline exactly when its count is zero. */
  lemma {:induction false} CountNewlinesZero(s: string)
    ensures CountNewlines(s) == 0 <==> '\n' !in s
    decreases |s|
  {
    if s != [] {
      assert s == s[..|s| - 1] + [s[|s| - 1]];
      CountNewlinesZero(s[..|s| - 1]);
    }
  }

  lemma {:induction false} CountNewlinesAppend(a: string, b: string)
    ensures CountNewlines(a + b) == CountNewlines(a) + CountNewlines(b)
    decreases |b|
  {
    if b != [] {
      var b' := b[..|b| - 1];
      assert (a + b)[..|a + b| - 1] == a + b';
      CountNewlinesAppend(a, b');
    } else {
      assert a + b == a;
    }
  }

  /** A prefix holds no more newlines than the whole. */
  lemma CountNewlinesPrefix(s: string, k: nat)
    requires k <= |s|
    ensures CountNewlines(s[..k]) <= CountNewlines(s)
  {
    assert s == s[..k] + s[k..];
    CountNewlinesAppend(s[..k], s[k..]);
  }

  /** skipWhitespace: advance the cursor over whitespace, never past the end. */
  method SkipWhitespace(s: string, it: nat) returns (r: nat)
    requires it <= |s|
    ensures it <= r <= |s|
    ensures forall j :: it <= j < r ==> IsSpace(s[j])
    ensures r == |s| || !IsSpace(s[r])
    ensures r == SkipWhile(s, it, IsSpace)
  {
    r := it;
    while r < |s| && IsSpace(s[r])
      invariant it <= r <= |s|
      invariant SkipWhile(s, r, IsSpace) == SkipWhile(s, it, IsSpace)
    {
      r := r + 1;
    }
  }

  /** skipSlashes: advance the cursor over '/' characters, never past the end. */
  method SkipSlashes(s: string, it: nat) returns (r: nat)
    requires it <= |s|
    ensures it <= r <= |s|
    ensures forall j :: it <= j < r ==> s[j] == '/'
    ensures r == |s| || s[r] != '/'
    ensures r == SkipWhile(s, it, IsSlash)
  {
    r := it;
    while r < |s| && s[r] == '/'
      invariant it <= r <= |s|
      invariant SkipWhile(s, r, IsSlash) == SkipWhile(s, it, IsSlash)
    {
      r := r + 1;
    }
  }
}
