/**
 * Diagnostics as the compiler reports them, the escaping of their comments for comparison,
 * and the exact, ordered match of a diagnostic list against the parsed expectations.
 */
module Diagnostics {
  import opened Wrappers
  import opened Scanning
  import opened Fixture

  /** A compiler diagnostic: its type name, optional comment and source-location start offset. */
  datatype Diagnostic = Diagnostic(typeName: string, comment: Option<string>, start: int)

  function EscapeChar(c: char): string {
    if c == '\n' then "\\n" else [c]
  }

  /** Every '\n' replaced by the two characters '\' and 'n'. */
  function Escape(s: string): (r: string)
    ensures '\n' !in r
    ensures |r| == |s| + CountNewlines(s)
  {
    if s == [] then []
    else Escape(s[..|s| - 1]) + EscapeChar(s[|s| - 1])
  }

  /** errorMessage: the escaped comment, or "NONE" when the diagnostic has none. */
  function ErrorMessage(d: Diagnostic): (r: string)
    ensures d.comment.None? ==> r == "NONE"
    ensures d.comment.Some? ==> '\n' !in r && |r| == |d.comment.value| + CountNewlines(d.comment.value)
  {
    match d.comment
    case None => "NONE"
    case Some(c) => Escape(c)
  }

  lemma {:induction false} EscapeAppend(a: string, b: string)
    ensures Escape(a + b) == Escape(a) + Escape(b)
    decreases |b|
  {
    if b == [] {
      assert a + b == a;
    } else {
      var b' := b[..|b| - 1];
      assert (a + b)[..|a + b| - 1] == a + b';
      EscapeAppend(a, b');
    }
  }

  /** The reading of an escaped message back into a comment: "\n" pairs become newlines. */
  function Unescape(s: string): string
  {
    if s == [] then []
    else if |s| >= 2 && s[0] == '\\' && s[1] == 'n' then "\n" + Unescape(s[2..])
    else [s[0]] + Unescape(s[1..])
  }

  /** A comment without backslashes is recovered from its escaped form. */
  lemma {:induction false} UnescapeEscape(s: string)
    requires '\\' !in s
    ensures Unescape(Escape(s)) == s
    decreases |s|
  {
    if s != [] {
      assert s == [s[0]] + s[1..];
      EscapeAppend([s[0]], s[1..]);
      assert Escape([s[0]]) == EscapeChar(s[0]);
      UnescapeEscape(s[1..]);
      var t := Escape(s[1..]);
      if s[0] == '\n' {
        assert Escape(s) == ['\\', 'n'] + t;
        assert (['\\', 'n'] + t)[2..] == t;
      } else {
        assert Escape(s) == [s[0]] + t;
        assert ([s[0]] + t)[1..] == t;
      }
    }
  }

  /** Escaping loses information: a newline and a literal backslash-n compare equal. */
  lemma EscapeNotInjective()
    ensures Escape("\n") == Escape("\\n") == "\\n"
  {
    assert "\\n"[..1] == "\\";
  }

  /** The expectation a diagnostic has to meet: its type and its escaped message. */
  function Expected(d: Diagnostic): Expectation {
    Expectation(d.typeName, ErrorMessage(d))
  }

  /** The expectation list a diagnostic list determines, position by position. */
  function ExpectedAll(ds: seq<Diagnostic>): (es: seq<Expectation>)
    ensures |es| == |ds|
    ensures forall i :: 0 <= i < |ds| ==> es[i] == Expected(ds[i])
  {
    if ds == [] then [] else ExpectedAll(ds[..|ds| - 1]) + [Expected(ds[|ds| - 1])]
  }

  predicate Agrees(d: Diagnostic, e: Expectation) {
    d.typeName == e.typeName && ErrorMessage(d) == e.message
  }

  /**
   * matchesExpectations: equal lengths, and position by position equal types and messages.
   * Only newline-free messages can be matched, since the compared messages are escaped.
   */
  predicate Matches(ds: seq<Diagnostic>, es: seq<Expectation>): (b: bool)
    ensures b ==> forall i :: 0 <= i < |es| ==> '\n' !in es[i].message
  {
    |ds| == |es| && forall i :: 0 <= i < |ds| ==> Agrees(ds[i], es[i])
  }

  /** A diagnostic list matches exactly one expectation list: the one it determines. */
  lemma MatchesIffExpected(ds: seq<Diagnostic>, es: seq<Expectation>)
    ensures Matches(ds, es) <==> es == ExpectedAll(ds)
  {
    if Matches(ds, es) {
      assert forall i :: 0 <= i < |ds| ==> es[i] == ExpectedAll(ds)[i];
    }
  }

  /** An empty expectation list is met only by an empty diagnostic list. */
  lemma MatchesNone(ds: seq<Diagnostic>)
    ensures Matches(ds, []) <==> ds == []
  {
  }

  function Swap<T>(s: seq<T>, i: nat, j: nat): (r: seq<T>)
    requires i < |s| && j < |s|
    ensures |r| == |s| && r[i] == s[j] && r[j] == s[i]
    ensures forall k :: 0 <= k < |s| && k != i && k != j ==> r[k] == s[k]
  {
    s[i := s[j]][j := s[i]]
  }

  /** Matching is order-sensitive: exchanging two diagnostics that differ breaks a match. */
  lemma MatchesOrderSensitive(ds: seq<Diagnostic>, es: seq<Expectation>, i: nat, j: nat)
    requires Matches(ds, es)
    requires i < |ds| && j < |ds| && Expected(ds[i]) != Expected(ds[j])
    ensures !Matches(Swap(ds, i, j), es)
  {
    var swapped := Swap(ds, i, j);
    assert swapped[i] == ds[j];
    assert !Agrees(swapped[i], es[i]);
  }
}
