/**
 * The fixture file format: source lines, a delimiter line starting with "// ----", then one
 * expected diagnostic per non-blank line, written as `// <type>: <message>`.
 * A file is the sequence of its lines as `getline` yields them (without their '\n').
 */
module Fixture {
  import opened Wrappers
  import opened Scanning
  import opened Sequences

  /** One expected diagnostic: its type and its (newline-escaped) message. */
  datatype Expectation = Expectation(typeName: string, message: string)

  const Delimiter: string := "// ----"

  predicate IsDelimiter(line: string) {
    StartsWith(line, Delimiter)
  }

  /** Index of the first delimiter line, or the number of lines when there is none. */
  function DelimiterIndex(lines: seq<string>): (k: nat)
    ensures k <= |lines|
    ensures forall j :: 0 <= j < k ==> !IsDelimiter(lines[j])
    ensures k < |lines| ==> IsDelimiter(lines[k])
  {
    if lines == [] || IsDelimiter(lines[0]) then 0 else 1 + DelimiterIndex(lines[1..])
  }

  /** The lines, each followed by "\n", concatenated. */
  function Joined(ls: seq<string>): string
  {
    if ls == [] then "" else Joined(ls[..|ls| - 1]) + ls[|ls| - 1] + "\n"
  }

  predicate NoNewline(ls: seq<string>) {
    forall j :: 0 <= j < |ls| ==> '\n' !in ls[j]
  }

  /** Every line contributes at least its newline, and a non-empty result ends in one. */
  lemma {:induction false} JoinedShape(ls: seq<string>)
    ensures |Joined(ls)| >= |ls|
    ensures ls != [] ==> Joined(ls)[|Joined(ls)| - 1] == '\n'
  {
    if ls != [] {
      JoinedShape(ls[..|ls| - 1]);
    }
  }

  /**
   * The source region: every line before the first delimiter, newline-terminated. It is empty
   * exactly when the file starts with the delimiter, and otherwise ends in a newline.
   */
  function SourcePart(lines: seq<string>): (s: string)
    ensures s == [] <==> DelimiterIndex(lines) == 0
    ensures s == [] || s[|s| - 1] == '\n'
  {
    JoinedShape(lines[..DelimiterIndex(lines)]);
    Joined(lines[..DelimiterIndex(lines)])
  }

  /**
   * The lines left in the stream once the delimiter has been consumed: the end of the file,
   * one line shorter than what follows the source lines, and nothing when there is no delimiter.
   */
  function ExpectationLines(lines: seq<string>): (r: seq<string>)
    ensures DelimiterIndex(lines) == |lines| ==> r == []
    ensures DelimiterIndex(lines) < |lines| ==> DelimiterIndex(lines) + 1 + |r| == |lines|
    ensures forall j :: 0 <= j < |r| ==> r[j] == lines[|lines| - |r| + j]
  {
    var k := DelimiterIndex(lines);
    if k < |lines| then lines[k + 1..] else []
  }

  lemma {:induction false} JoinedAppend(a: seq<string>, b: seq<string>)
    ensures Joined(a + b) == Joined(a) + Joined(b)
    decreases |b|
  {
    if b == [] {
      assert a + b == a;
    } else {
      var b' := b[..|b| - 1];
      assert (a + b)[..|a + b| - 1] == a + b';
      JoinedAppend(a, b');
    }
  }

  /** The k-th line sits, with its newline, between the text of the lines around it. */
  lemma JoinedAt(ls: seq<string>, k: nat)
    requires k < |ls|
    ensures Joined(ls) == Joined(ls[..k]) + ls[k] + "\n" + Joined(ls[k + 1..])
  {
    SplitAround(ls, k);
    JoinedSnoc(ls[..k], ls[k]);
    JoinedAppend(ls[..k] + [ls[k]], ls[k + 1..]);
  }

  lemma JoinedSnoc(ls: seq<string>, line: string)
    ensures Joined(ls + [line]) == Joined(ls) + line + "\n"
  {
    assert (ls + [line])[..|ls|] == ls;
  }

  /** Every line contributes exactly one newline. */
  lemma {:induction false} JoinedNewlines(ls: seq<string>)
    requires NoNewline(ls)
    ensures CountNewlines(Joined(ls)) == |ls|
    decreases |ls|
  {
    if ls != [] {
      var init := ls[..|ls| - 1];
      assert NoNewline(init);
      JoinedNewlines(init);
      CountNewlinesZero(ls[|ls| - 1]);
      CountNewlinesAppend(Joined(init), ls[|ls| - 1]);
      CountNewlinesAppend(Joined(init) + ls[|ls| - 1], "\n");
    }
  }

  /** The source holds one newline per line taken from the file. */
  lemma SourceNewlines(lines: seq<string>)
    requires NoNewline(lines)
    ensures CountNewlines(SourcePart(lines)) == DelimiterIndex(lines)
  {
    var k := DelimiterIndex(lines);
    assert NoNewline(lines[..k]);
    JoinedNewlines(lines[..k]);
  }

  /**
   * parseSource stops at the first delimiter line, which is in neither region: the file is the
   * source lines, that line, and the expectation lines; without a delimiter nothing is left.
   */
  lemma SplitAtDelimiter(lines: seq<string>)
    ensures DelimiterIndex(lines) < |lines| ==>
      lines[..DelimiterIndex(lines)] + [lines[DelimiterIndex(lines)]] + ExpectationLines(lines) == lines
    ensures DelimiterIndex(lines) == |lines| ==> ExpectationLines(lines) == []
  {
    var k := DelimiterIndex(lines);
    if k < |lines| {
      var rest := ExpectationLines(lines);
      assert rest == lines[k + 1..];
      SplitAround(lines, k);
    }
  }

  /** The end of the run of slashes a line starts with (the "//" of a comment line). */
  function LeadingSlashes(line: string): (a: nat)
    ensures a <= |line|
    ensures forall j :: 0 <= j < a ==> line[j] == '/'
    ensures a == |line| || line[a] != '/'
  {
    SkipWhile(line, 0, IsSlash)
  }

  /**
   * Where the type of a non-blank line starts: after the leading slashes, then after the
   * maximal run of whitespace that follows them (whitespace before a slash is not skipped).
   */
  function TypeStart(line: string): (r: nat)
    ensures LeadingSlashes(line) <= r <= |line|
    ensures forall j :: LeadingSlashes(line) <= j < r ==> IsSpace(line[j])
    ensures r == |line| || !IsSpace(line[r])
  {
    SkipWhile(line, LeadingSlashes(line), IsSpace)
  }

  /**
   * One line of the expectation region: nothing for a blank line; otherwise the type up to the
   * first ':' (not trimmed) and the message after the colon and its leading whitespace.
   */
  function ParseLine(line: string): (r: Option<Expectation>)
    ensures r.None? <==> TypeStart(line) == |line|
    ensures r.Some? ==> WellFormed(r.value)
  {
    var start := TypeStart(line);
    if start == |line| then None
    else
      var colon := SkipWhile(line, start, NotColon);
      var rest := SkipWhile(line, if colon < |line| then colon + 1 else colon, IsSpace);
      Some(Expectation(line[start..colon], line[rest..]))
  }

  /** ParseLine in terms of the three cursor positions a scan of the line computes. */
  lemma ParseLineAt(line: string, colon: nat, rest: nat)
    requires TypeStart(line) < |line|
    requires colon == SkipWhile(line, TypeStart(line), NotColon)
    requires rest == SkipWhile(line, if colon < |line| then colon + 1 else colon, IsSpace)
    ensures ParseLine(line) == Some(Expectation(line[TypeStart(line)..colon], line[rest..]))
  {
  }

  /** What ParseLine can yield: a type without ':' and neither part starting with whitespace. */
  predicate WellFormed(e: Expectation) {
    && ':' !in e.typeName
    && (e.typeName == [] || !IsSpace(e.typeName[0]))
    && (e.message == [] || !IsSpace(e.message[0]))
  }

  predicate AllSlashes(s: string) {
    forall j :: 0 <= j < |s| ==> s[j] == '/'
  }

  predicate AllSpaces(s: string) {
    forall j :: 0 <= j < |s| ==> IsSpace(s[j])
  }

  /** A line that yields no expectation: some slashes followed by whitespace only. */
  ghost predicate Blank(line: string) {
    exists k :: 0 <= k <= |line| && AllSlashes(line[..k]) && AllSpaces(line[k..])
  }

  lemma ParseLineBlank(line: string)
    ensures ParseLine(line).None? <==> Blank(line)
  {
    var a, r := LeadingSlashes(line), TypeStart(line);
    if r == |line| {
      assert AllSlashes(line[..a]);
      assert AllSpaces(line[a..]);
    }
    if Blank(line) {
      var k :| 0 <= k <= |line| && AllSlashes(line[..k]) && AllSpaces(line[k..]);
      forall j | 0 <= j < k ensures line[j] == '/' {
        assert line[..k][j] == line[j];
      }
      forall j | k <= j < |line| ensures IsSpace(line[j]) {
        assert line[k..][j - k] == line[j];
      }
    }
  }

  /**
   * Where a parsed line's parts come from: the type is the text after the leading slashes and
   * whitespace, up to the first ':' of the line; the message is the end of the line. A line with
   * no ':' yields its whole remainder as the type and an empty message.
   */
  lemma ParseLineParts(line: string)
    requires ParseLine(line).Some?
    ensures var e := ParseLine(line).value;
      && line[TypeStart(line)..TypeStart(line) + |e.typeName|] == e.typeName
      && (':' !in line ==> e.message == [] && TypeStart(line) + |e.typeName| == |line|)
      && (':' in line ==>
            && TypeStart(line) + |e.typeName| < |line|
            && line[TypeStart(line) + |e.typeName|] == ':'
            && line[|line| - |e.message|..] == e.message
            && AllSpaces(line[TypeStart(line) + |e.typeName| + 1..|line| - |e.message|]))
  {
    var start := TypeStart(line);
    var colon := SkipWhile(line, start, NotColon);
    if ':' !in line {
      assert colon == |line|;
    } else {
      var c :| 0 <= c < |line| && line[c] == ':';
      assert c >= start;
      assert colon < |line|;
    }
  }

  /**
   * An expectation written back in the fixture's own format: the layout printExpected uses,
   * with "// " as the line prefix.
   */
  function Render(e: Expectation): string {
    "// " + e.typeName + ": " + e.message
  }

  /** Every well-formed expectation survives rendering and parsing unchanged. */
  lemma ParseRender(e: Expectation)
    requires WellFormed(e)
    ensures ParseLine(Render(e)) == Some(e)
  {
    var line, n := Render(e), |e.typeName|;
    RenderTypeStart(e);
    RenderSeparator(e);
    ParseLineAt(line, 3 + n, 5 + n);
    assert line[3..3 + n] == e.typeName;
    assert line[5 + n..] == e.message;
  }

  /** In a rendered line the type ends at the ": " separator, and the message follows it. */
  lemma RenderSeparator(e: Expectation)
    requires WellFormed(e)
    ensures SkipWhile(Render(e), 3, NotColon) == 3 + |e.typeName|
    ensures SkipWhile(Render(e), 4 + |e.typeName|, IsSpace) == 5 + |e.typeName|
  {
    var line, t, m := Render(e), e.typeName, e.message;
    assert line[3 + |t|] == ':' && line[4 + |t|] == ' ';
    assert forall j :: 3 <= j < 3 + |t| ==> line[j] == t[j - 3];
    SkipWhileIs(line, 3, NotColon, 3 + |t|);
    if m != [] {
      assert line[5 + |t|] == m[0];
    }
    SkipWhileIs(line, 4 + |t|, IsSpace, 5 + |t|);
  }

  /** In a rendered line the type starts right after the "// " prefix. */
  lemma RenderTypeStart(e: Expectation)
    requires WellFormed(e)
    ensures TypeStart(Render(e)) == 3
  {
    var line := Render(e);
    assert line[0] == '/' && line[1] == '/' && line[2] == ' ';
    assert line[3] == if e.typeName == [] then ':' else e.typeName[0];
    SkipWhileIs(line, 0, IsSlash, 2);
    SkipWhileIs(line, 2, IsSpace, 3);
  }

  /** Parsing is stable: a parsed expectation, written back, parses to itself. */
  lemma ParseLineImage(line: string)
    requires ParseLine(line).Some?
    ensures ParseLine(Render(ParseLine(line).value)) == ParseLine(line)
  {
    ParseRender(ParseLine(line).value);
  }

  /** parseExpectations' result: the expectations of all non-blank lines, in order. */
  function ParseAll(lines: seq<string>): (r: seq<Expectation>)
    ensures |r| <= |lines|
  {
    if lines == [] then []
    else
      match ParseLine(lines[|lines| - 1])
      case None => ParseAll(lines[..|lines| - 1])
      case Some(e) => ParseAll(lines[..|lines| - 1]) + [e]
  }

  /** What the last of a run of lines adds to the expectations of the earlier ones. */
  lemma ParseAllSnoc(lines: seq<string>, n: nat)
    requires n < |lines|
    ensures ParseLine(lines[n]).None? ==> ParseAll(lines[..n + 1]) == ParseAll(lines[..n])
    ensures ParseLine(lines[n]).Some? ==> ParseAll(lines[..n + 1]) == ParseAll(lines[..n]) + [ParseLine(lines[n]).value]
  {
    assert lines[..n + 1][..n] == lines[..n];
  }

  /** What one more line adds to the expectations of the lines before it. */
  lemma ParseAllPush(lines: seq<string>, line: string)
    ensures ParseLine(line).None? ==> ParseAll(lines + [line]) == ParseAll(lines)
    ensures ParseLine(line).Some? ==> ParseAll(lines + [line]) == ParseAll(lines) + [ParseLine(line).value]
  {
    assert (lines + [line])[..|lines|] == lines;
  }

  /** Every parsed expectation is well formed. */
  lemma {:induction false} ParseAllWellFormed(lines: seq<string>)
    ensures forall i :: 0 <= i < |ParseAll(lines)| ==> WellFormed(ParseAll(lines)[i])
    decreases |lines|
  {
    if lines != [] {
      ParseAllWellFormed(lines[..|lines| - 1]);
    }
  }

  lemma {:induction false} ParseAllAppend(a: seq<string>, b: seq<string>)
    ensures ParseAll(a + b) == ParseAll(a) + ParseAll(b)
    decreases |b|
  {
    if b == [] {
      assert a + b == a;
    } else {
      var b' := b[..|b| - 1];
      assert (a + b)[..|a + b| - 1] == a + b';
      ParseAllAppend(a, b');
    }
  }

  /**
   * Each line contributes its own parse, between what the earlier and the later lines yield:
   * nothing for a blank line, exactly one expectation otherwise.
   */
  lemma ParseAllAt(lines: seq<string>, i: nat)
    requires i < |lines|
    ensures ParseLine(lines[i]).None? ==> ParseAll(lines) == ParseAll(lines[..i]) + ParseAll(lines[i + 1..])
    ensures ParseLine(lines[i]).Some? ==>
      ParseAll(lines) == ParseAll(lines[..i]) + [ParseLine(lines[i]).value] + ParseAll(lines[i + 1..])
  {
    var upTo, after := lines[..i + 1], lines[i + 1..];
    assert ParseAll(lines) == ParseAll(upTo) + ParseAll(after) by {
      assert lines == upTo + after;
      ParseAllAppend(upTo, after);
    }
    ParseAllSnoc(lines, i);
  }

  /** The lines written for a list of expectations, one per expectation. */
  function RenderAll(es: seq<Expectation>): (ls: seq<string>)
    ensures |ls| == |es|
  {
    if es == [] then [] else RenderAll(es[..|es| - 1]) + [Render(es[|es| - 1])]
  }

  /** Rendering a list of well-formed expectations and parsing it back gives the same list. */
  lemma {:induction false} ParseAllRenderAll(es: seq<Expectation>)
    requires forall i :: 0 <= i < |es| ==> WellFormed(es[i])
    ensures ParseAll(RenderAll(es)) == es
    decreases |es|
  {
    if es != [] {
      var init, last := es[..|es| - 1], es[|es| - 1];
      ParseAllRenderAll(init);
      ParseRender(last);
      ParseAllPush(RenderAll(init), Render(last));
      LastSplit(es);
    }
  }
}
