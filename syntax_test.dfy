/**
 * The test case for one fixture file: it holds the parsed source and expectations, compares
 * the analyser's diagnostics against them, and recovers line numbers for diagnostics.
 */
module SyntaxTests {
  import opened Wrappers
  import opened Scanning
  import opened Fixture
  import opened Diagnostics
  import opened LineNumbers

  class SyntaxTest {
    var source: string
    var expectations: seq<Expectation>
    var errorList: seq<Diagnostic>

    /** Reads the file's lines: the source region first, then the expectations after the delimiter. */
    constructor (fileLines: seq<string>)
      ensures source == SourcePart(fileLines)
      ensures expectations == ParseAll(ExpectationLines(fileLines))
      ensures errorList == []
    {
      var src, next := ParseSource(fileLines);
      var exps := ParseExpectations(fileLines[next..]);
      source := src;
      expectations := exps;
      errorList := [];
    }

    /**
     * parseSource: reads lines until one starts with the delimiter, consuming that line; every
     * earlier line is appended with a newline. `next` is the number of lines read.
     */
    static method ParseSource(lines: seq<string>) returns (source: string, next: nat)
      ensures next <= |lines|
      ensures source == SourcePart(lines)
      ensures lines[next..] == ExpectationLines(lines)
    {
      source := "";
      next := 0;
      while next < |lines|
        invariant next <= |lines|
        invariant forall j :: 0 <= j < next ==> !IsDelimiter(lines[j])
        invariant source == Joined(lines[..next])
      {
        var line := lines[next];
        next := next + 1;
        if IsDelimiter(line) {
          break;
        }
        assert lines[..next][..next - 1] == lines[..next - 1];
        source := source + line + "\n";
      }
    }

    /**
     * parseExpectations: every line of the expectation region, in order; a line yields an
     * expectation unless nothing is left of it after the leading slashes and whitespace.
     */
    static method ParseExpectations(lines: seq<string>) returns (expectations: seq<Expectation>)
      ensures expectations == ParseAll(lines)
    {
      expectations := [];
      var n := 0;
      while n < |lines|
        invariant n <= |lines|
        invariant expectations == ParseAll(lines[..n])
      {
        var found, expectation := ParseExpectationLine(lines[n]);
        ParseAllSnoc(lines, n);
        if found {
          expectations := expectations + [expectation];
        }
        n := n + 1;
      }
      assert lines[..n] == lines;
    }

    /**
     * The body of parseExpectations' loop for one line: skip leading slashes, then whitespace;
     * if anything is left, the type runs up to the first ':' and the message is what follows
     * the colon and its leading whitespace.
     */
    static method ParseExpectationLine(line: string) returns (found: bool, expectation: Expectation)
      ensures found <==> ParseLine(line).Some?
      ensures found ==> expectation == ParseLine(line).value
    {
      var it := SkipSlashes(line, 0);
      it := SkipWhitespace(line, it);
      if it == |line| {
        return false, Expectation("", "");
      }
      var typeBegin := it;
      while it != |line| && line[it] != ':'
        invariant typeBegin <= it <= |line|
        invariant SkipWhile(line, it, NotColon) == SkipWhile(line, typeBegin, NotColon)
      {
        it := it + 1;
      }
      var errorType := line[typeBegin..it];
      ghost var colon := it;
      if it != |line| {
        it := it + 1;
      }
      it := SkipWhitespace(line, it);
      var errorMessage := line[it..];
      ParseLineAt(line, colon, it);
      return true, Expectation(errorType, errorMessage);
    }

    /** matchesExpectations: same length, then type and escaped message equal at every index. */
    method MatchesExpectations(errors: seq<Diagnostic>) returns (matches: bool)
      ensures matches <==> Matches(errors, expectations)
    {
      if |errors| != |expectations| {
        return false;
      }
      for i := 0 to |errors|
        invariant forall k :: 0 <= k < i ==> Agrees(errors[k], expectations[k])
      {
        if errors[i].typeName != expectations[i].typeName || ErrorMessage(errors[i]) != expectations[i].message {
          return false;
        }
      }
      return true;
    }

    /** run, given the diagnostics the analyser produced for the source. */
    method Run(errors: seq<Diagnostic>) returns (success: bool)
      modifies this`errorList
      ensures errorList == errors
      ensures success <==> Matches(errors, expectations)
    {
      errorList := errors;
      success := MatchesExpectations(errorList);
    }

    /** getLineNumber: counts the newlines before the offset, after removing the preamble. */
    method GetLineNumber(location: Int32) returns (line: int)
      ensures line == LineOf(source, location)
    {
      var offset := WrapInt32(location - |Preamble|);
      if offset < 0 {
        return -1;
      }
      line := 1;
      if offset >= |source| {
        return -1;
      }
      var i := 0;
      while i < offset
        invariant 0 <= i <= offset
        invariant line == 1 + CountNewlines(source[..i])
      {
        assert source[..i + 1][..i] == source[..i];
        if source[i] == '\n' {
          line := line + 1;
        }
        i := i + 1;
      }
    }
  }

  /**
   * A fixture whose expectation lines are the rendering of a diagnostic list passes for exactly
   * that list: the source region is the lines before the delimiter, and the parsed expectations
   * are matched by the diagnostics (and, by MatchesIffExpected, by no other list).
   */
  lemma RenderedFixtureMatches(src: seq<string>, delimiterLine: string, ds: seq<Diagnostic>)
    requires forall j :: 0 <= j < |src| ==> !IsDelimiter(src[j])
    requires IsDelimiter(delimiterLine)
    requires forall i :: 0 <= i < |ds| ==> WellFormed(Expected(ds[i]))
    ensures SourcePart(src + [delimiterLine] + RenderAll(ExpectedAll(ds))) == Joined(src)
    ensures Matches(ds, ParseAll(ExpectationLines(src + [delimiterLine] + RenderAll(ExpectedAll(ds)))))
  {
    var rendered := RenderAll(ExpectedAll(ds));
    var file := src + [delimiterLine] + rendered;
    assert file[|src|] == delimiterLine;
    assert forall j :: 0 <= j < |src| ==> file[j] == src[j];
    var k := DelimiterIndex(file);
    assert k == |src|;
    assert file[..k] == src;
    assert file[k + 1..] == rendered;
    ParseAllRenderAll(ExpectedAll(ds));
    MatchesIffExpected(ds, ExpectedAll(ds));
  }
}
