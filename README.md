# Syntax test runner: fixture parsing and diagnostic matching

This project models the text-processing and comparison core of Solidity's declarative syntax
test runner, `test/libsolidity/SyntaxTest.cpp`. A syntax test fixture is a text file. It holds
Solidity source lines, then a delimiter line that starts with `// ----`, then one expected
diagnostic per line, written `// <type>: <message>`. The runner does five things, and each is
modelled:

- it splits the file into the source text and the expectation lines (`parseSource`);
- it parses each expectation line into a (type, message) pair (`parseExpectations`, with the
  cursor helpers `skipSlashes` and `skipWhitespace`);
- it escapes each diagnostic's comment for comparison (`errorMessage`);
- it compares the compiler's diagnostics with the expectations, in order (`matchesExpectations`,
  `run`);
- it turns a diagnostic's offset back into a line number of the fixture (`getLineNumber`).

Modules:

- `Wrappers` holds `Option`.
- `Sequences` holds two generic facts about splitting a sequence.
- `Scanning` holds the C-locale `isspace` set and `SkipWhile`, the function that specifies both
  cursor helpers. It also holds the helpers themselves, as methods with loops, and newline
  counting.
- `Fixture` holds the expectation datatype and the file split. It also holds `ParseLine` and
  `ParseAll` (the specification of `parseExpectations`) and `Render`. `Render` writes an
  expectation back in the fixture format: the layout `printExpected` uses, with `// ` as the
  line prefix.
- `Diagnostics` holds the diagnostic datatype, `Escape`/`ErrorMessage`, the `Unescape` partner,
  and `Matches`.
- `LineNumbers` holds the 23-character preamble, the 32-bit `int` conversion and `LineOf`.
- `SyntaxTests` holds the class `SyntaxTest`. Its fields `source`, `expectations` and
  `errorList` are `m_source`, `m_expectations` and `m_errorList`. The constructor, `run`,
  `parseSource`, `parseExpectations`, `matchesExpectations` and `getLineNumber` are imperative
  methods, proved against the functions above. The body of `parseExpectations`' loop for one
  line is the method `ParseExpectationLine`, which its loop calls.

One Dafny `char` stands for one byte (one C++ `char`) of the file, so lengths and offsets count
bytes, as `m_source.size()` and the compiler's source locations do; `LineOf` agrees with
`getLineNumber` under that reading. The file is the sequence of lines that `getline` yields,
without their `'\n'`. The C++ stream
that `parseSource` and `parseExpectations` share becomes an index: `ParseSource` returns the
number of lines it consumed. The constructor passes the remaining lines to
`ParseExpectations`. A C++ iterator passed by reference becomes an index that the cursor
method takes and returns.

Two details of the code are easy to misread; the model follows the code:

- The type is not trimmed. `// Warning : x` yields the type `"Warning "`
  (`SyntaxTest.cpp:179-182`).
- `getLineNumber` also rejects an adjusted offset equal to the source length, not only one
  beyond it (`>=` at `SyntaxTest.cpp:122`).

The round trip holds under weaker conditions than one might expect. A type may be empty, and it
may start with `/`, because slashes are skipped only before the whitespace. It must not start
with whitespace and must contain no `:`. The message must not start with whitespace.

## Model

| member | source | states |
|---|---|---|
| `Scanning.SkipWhile` | test/libsolidity/SyntaxTest.cpp:33-45 | The result never moves back and never passes the end. Every skipped character satisfies the predicate. The scan stops at the end or at the first character that does not. |
| `Scanning.SkipWhitespace` | test/libsolidity/SyntaxTest.cpp:33-38 | The loop moves the cursor forward, never past the end, over whitespace only. It stops at the end or at the first non-whitespace character. It equals `SkipWhile` with `isspace`. |
| `Scanning.SkipSlashes` | test/libsolidity/SyntaxTest.cpp:40-45 | The loop moves the cursor forward, never past the end, over `/` only. It stops at the end or at the first other character. |
| `Scanning.IsSpace` | test/libsolidity/SyntaxTest.cpp:36 | The C-locale whitespace set; every member lies between tab and space, so neither `/` nor `:` is whitespace. |
| `Scanning.CountNewlines` | test/libsolidity/SyntaxTest.cpp:124-126 | The number of newlines in a string is at most its length. |
| `Fixture.DelimiterIndex` | test/libsolidity/SyntaxTest.cpp:158-160 | No line before the index starts with `// ----`. If the index is inside the file, the line there does. |
| `Fixture.SourcePart` | test/libsolidity/SyntaxTest.cpp:153-164 | The source region is empty exactly when the file starts with the delimiter, and otherwise ends in a newline. |
| `Fixture.ExpectationLines` | test/libsolidity/SyntaxTest.cpp:158-160 | The lines left unread are the end of the file: none without a delimiter, otherwise exactly the lines after the delimiter line. |
| `Fixture.JoinedNewlines` | test/libsolidity/SyntaxTest.cpp:162 | Appending each line with `"\n"` gives exactly one newline per line, since `getline` lines hold none. |
| `Fixture.SourceNewlines` | test/libsolidity/SyntaxTest.cpp:153-164 | The source's newline count equals the number of lines taken before the delimiter. |
| `Fixture.SplitAtDelimiter` | test/libsolidity/SyntaxTest.cpp:158-160 | The file is the source lines, then the delimiter line, then the expectation lines. The delimiter line is in neither region. Without a delimiter, no expectation lines remain. |
| `Fixture.LeadingSlashes` | test/libsolidity/SyntaxTest.cpp:174 | The line's maximal leading run of `/`: every character before the index is a slash, and the one at it (if any) is not. |
| `Fixture.TypeStart` | test/libsolidity/SyntaxTest.cpp:174-175 | The type starts after the leading slashes and then after the maximal run of whitespace that follows them: everything in between is whitespace, and the type does not start with whitespace. |
| `Fixture.ParseLine` | test/libsolidity/SyntaxTest.cpp:172-190 | A line yields nothing exactly when nothing is left after the leading slashes and whitespace. Otherwise the expectation has no `:` in its type, and neither its type nor its message starts with whitespace. |
| `Fixture.ParseLineBlank` | test/libsolidity/SyntaxTest.cpp:174-177 | A line is skipped if and only if it is some slashes followed only by whitespace. |
| `Fixture.ParseLineParts` | test/libsolidity/SyntaxTest.cpp:179-189 | The type is the text from the type start up to the line's first `:`. The message is the end of the line, after the colon and whitespace. A line without `:` gives its whole remainder as the type and an empty message. |
| `Fixture.ParseRender` | test/libsolidity/SyntaxTest.cpp:172-190 | Round trip: `"// " + T + ": " + M` parses to `(T, M)` when `T` has no `:` and neither `T` nor `M` starts with whitespace. |
| `Fixture.ParseLineImage` | test/libsolidity/SyntaxTest.cpp:172-190 | Writing a parsed expectation back in the fixture format and parsing it again gives the same expectation. |
| `Fixture.ParseAll` | test/libsolidity/SyntaxTest.cpp:166-193 | There are never more expectations than lines. |
| `Fixture.ParseAllWellFormed` | test/libsolidity/SyntaxTest.cpp:179-189 | Every parsed expectation has a colon-free type and no leading whitespace in its type or message. |
| `Fixture.ParseAllAppend` | test/libsolidity/SyntaxTest.cpp:170-191 | Lines are processed independently and in order: parsing two runs of lines is parsing each and concatenating. |
| `Fixture.ParseAllAt` | test/libsolidity/SyntaxTest.cpp:170-191 | Each line contributes nothing if it is blank, and exactly its own expectation otherwise. That contribution sits between those of the earlier and the later lines. |
| `Fixture.ParseAllRenderAll` | test/libsolidity/SyntaxTest.cpp:166-193 | Writing a list of well-formed expectations one per line and parsing it gives the same list back. |
| `Diagnostics.Escape` | test/libsolidity/SyntaxTest.cpp:148 | The escaped text contains no newline. Its length is the comment's length plus its number of newlines. |
| `Diagnostics.ErrorMessage` | test/libsolidity/SyntaxTest.cpp:145-151 | A missing comment gives `"NONE"`. A present one gives a newline-free text one character longer per newline. |
| `Diagnostics.UnescapeEscape` | test/libsolidity/SyntaxTest.cpp:148 | Reading `\n` pairs back as newlines recovers any comment without backslashes from its escaped form. |
| `Diagnostics.EscapeNotInjective` | test/libsolidity/SyntaxTest.cpp:148 | A newline and a literal backslash-n escape to the same text, so the comparison cannot tell them apart. |
| `Diagnostics.ExpectedAll` | test/libsolidity/SyntaxTest.cpp:136-141 | The expectation list a diagnostic list determines has its length, and at each position that diagnostic's type and escaped message. |
| `Diagnostics.Matches` | test/libsolidity/SyntaxTest.cpp:131-143 | Equal lengths and agreement at every position; only lists of newline-free messages can be matched, since the compared messages are escaped. |
| `Diagnostics.MatchesIffExpected` | test/libsolidity/SyntaxTest.cpp:131-143 | A diagnostic list matches exactly one expectation list: its own types and escaped messages, in its own order. |
| `Diagnostics.MatchesNone` | test/libsolidity/SyntaxTest.cpp:133-134 | An empty expectation list is matched only by an empty diagnostic list. |
| `Diagnostics.MatchesOrderSensitive` | test/libsolidity/SyntaxTest.cpp:136-141 | Swapping two diagnostics that expect different things breaks a match. |
| `LineNumbers.WrapInt32` | test/libsolidity/SyntaxTest.cpp:116 | The result is a 32-bit `int` congruent to the input modulo 2^32, and equal to it when it is in range. |
| `LineNumbers.Adjusted` | test/libsolidity/SyntaxTest.cpp:116 | A location among the lowest 23 `int` values wraps around to one of the 23 highest instead of going negative. |
| `LineNumbers.AdjustedShifts` | test/libsolidity/SyntaxTest.cpp:116 | The preamble is 23 characters. Outside the lowest 23 `int` values, the adjusted offset is the location minus 23. |
| `LineNumbers.LineOf` | test/libsolidity/SyntaxTest.cpp:113-129 | The result is -1 exactly when the adjusted offset is negative or at least the source length. Otherwise it lies in `[1, 1 + newlines(source)]`. |
| `LineNumbers.LineOfJoined` | test/libsolidity/SyntaxTest.cpp:113-129 | For a source built from lines, any offset on the k-th line (counted from 0), or on its newline, maps to line number k + 1. |
| `SyntaxTests.SyntaxTest.constructor` | test/libsolidity/SyntaxTest.cpp:47-56 | The source is the text before the delimiter. The expectations are the parse of the lines after it. |
| `SyntaxTests.SyntaxTest.ParseSource` | test/libsolidity/SyntaxTest.cpp:153-164 | The loop builds exactly the source region and leaves exactly the expectation lines unread. |
| `SyntaxTests.SyntaxTest.ParseExpectations` | test/libsolidity/SyntaxTest.cpp:166-193 | The loop yields exactly `ParseAll` of the lines: one expectation per non-blank line, in order. |
| `SyntaxTests.SyntaxTest.ParseExpectationLine` | test/libsolidity/SyntaxTest.cpp:172-190 | The cursor walk over one line finds an expectation exactly when `ParseLine` does, and finds the same one. |
| `SyntaxTests.SyntaxTest.MatchesExpectations` | test/libsolidity/SyntaxTest.cpp:131-143 | Returns true exactly when the lengths are equal and, at every index, the type and the escaped message equal the expectation's. |
| `SyntaxTests.SyntaxTest.Run` | test/libsolidity/SyntaxTest.cpp:58-71 | Stores the diagnostics and succeeds exactly when they match the expectations. |
| `SyntaxTests.SyntaxTest.GetLineNumber` | test/libsolidity/SyntaxTest.cpp:113-129 | The counting loop returns `LineOf`: -1 outside the source, else 1 plus the newlines before the adjusted offset. |
| `SyntaxTests.RenderedFixtureMatches` | test/libsolidity/SyntaxTest.cpp:153-193 | For a fixture whose expectation lines are written from a diagnostic list: the source is the lines before the delimiter, and that list matches the parsed expectations. |

## Left out

- Opening the file and the exception for a missing file (`SyntaxTest.cpp:49-52`) are I/O. The model starts from the file's lines.
- The call to the compiler, `parseAnalyseAndReturnError` (`SyntaxTest.cpp:60`), is code outside this model. `Run` takes the diagnostic list it would return as a parameter.
- `printExpected` and `printErrorList` (`SyntaxTest.cpp:73-111`) and the indent string built in `run` (`SyntaxTest.cpp:63`) produce coloured console output through `FormattedPrinter`, which is not part of this model. `Run` returns the verdict without printing.
- `boost::get_error_info` (`SyntaxTest.cpp:104`) is a Boost accessor. The offset is the plain field `Diagnostic.start`, which only the left-out printing reads.
- `registerTests` and the `make_test_case` shim (`SyntaxTest.cpp:195-241`) walk the filesystem and register Boost.Test cases. They are not modelled.
- `Scanning.IsSpace` covers only the six C-locale whitespace characters. Calling `isspace` on a negative `char` (a byte above 127) is undefined behaviour in C++; the model treats such characters as non-whitespace.
- `SyntaxTests.SyntaxTest.GetLineNumber` does not model overflow of the `int` line counter. That counter could overflow only for a source with more than 2^31 - 2 newlines.
- `SyntaxTests.SyntaxTest.ParseExpectationLine` is the body of `parseExpectations`' loop, written as its own method so that each proof stays small. The loop's behaviour is unchanged.
