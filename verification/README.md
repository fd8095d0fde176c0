# compiler-output-parser in Dafny

This project models the line classifier of compiler-output-parser and proves properties about it.
The classifier is `GetCompilerOutputLineInfo` in `compiler_output_parser.hpp`.
It takes one line of build output and returns a record with four fields: a type (`normal`, `warning`, `error` or `info`), a file name, a line number and a message.

The classifier tries three fully anchored regular expressions in a fixed order, and the first one that matches wins:

1. "Compiler warning": `FILE:DIGITS:<blank>([Ww]arning:<blank>.*)`. Gives `warning`.
2. "Compiler error (2)": `FILE:DIGITS:DIGITS:<blank>(.*)`. Gives `error`. The column is matched but not captured.
3. "Compiler error": `FILE:DIGITS:<blank>(.*)`. Gives `error`.

A line that none of them matches is `normal`, with empty fields.

`FILE` is a greedy `[...]+` over a character class that contains ':' and the digits. A backtracking engine therefore reports the longest file name for which the rest of the pattern still matches. That split point is the subtle part of the classifier.

The project has two modules:

- `regex_rules.dfy` (module `RegexRules`):
  - Character classes.
  - Each pattern written twice:
    - as a declarative grammar, `Shape`: the line is `file ':' lineNo ':' rest`, where `rest` is what the pattern demands;
    - as a backtracking search, `MatchPattern`: the greedy file-name run is given back one character at a time until the tail matches.
  - A proof that the search returns exactly the decomposition with the longest file name (`MatchPatternSpec`).
  - The captures on the two line forms compilers print.
- `compiler_output_parser.dfy` (module `CompilerOutputParser`):
  - The record types and the rule table.
  - The first-match search over the table and the classifier itself.
  - The properties of the classifier: precedence, field shape, reconstruction of the line, the normal fallback, the quirk for `file:line:column: warning:` lines, the quirk for messages that hold a second `:DIGITS:<blank>` segment, and the preprocessor-error example of the test suite.

The definitions follow the header as follows:

- `CompilerOutputLineType`, `CompilerOutputLineInfo` and `CompilerRegexInfo` are the enum and the two structs of `compiler_output_parser.hpp:7-31`.
- `PopulateInfo` is the `POPULATE_INFO` macro (`compiler_output_parser.hpp:33-39`).
- `Rules` holds the three `compilerRegexInfo` records (`compiler_output_parser.hpp:46-47`, `52-53`, `58-59`) with their patterns; `RuleTable` states its contents.
- `IsFileChar` is the file-name class shared by the three patterns (`compiler_output_parser.hpp:44`, `50`, `56`).
- `LineNumberField`, `MatchRest` and `MatchTail` match the parts of the patterns after the file-name group. `LineNumberFieldIff`, `MatchRestIff` and `MatchTailIff` state what each accepts.

The header and its tests disagree on several lines, and the model follows the header. Four test cases (`test.cpp:54`, `60`, `66` and `72`) expect the following:

- `error` for `/usr/bin/ld: cannot find -lmagic`;
- `warning` for `cc1: warning: ...`;
- `info` and `warning` for two lines starting with `<command-line>`.

None of the three rules in the header matches any of these lines:

- the `ld` and `cc1` lines have no ':' followed by a digit;
- '<' is not a file-name character.

So none of the three rules matches, and the header takes its fallback path: the type is indeterminate in C++ and `normal` in the model. `LinkerTestLineIsNormal`, `DriverTestLineIsNormal` and `CommandLineLinesAreNormal` prove this. On the long link command (`test.cpp:23-52`), too, none of the three rules matches; the test expects `normal`, which is what the model returns there, and `ProgressLineIsNormal` covers it.

Because the file-name class holds ':', the digits and the blanks, the split between file name and line number depends on the whole line. Two consequences are proved, and the lemmas about the usual line forms state them as conditions:

- A ':' followed by a digit in the message can move the split when everything before it is made of file-name characters. `a.c:1: warning: x:2: warning: y` is reported with file name `a.c:1: warning: x`, line `2` and message `warning: y` (`MessageMovesTheSplit`). A character outside the class, such as the `'` in `a.c:1: warning: 'x':2: warning: y`, ends the greedy file name before it, and the split stays after `a.c`.
- A file name in which a ':' is followed by a digit can offer an earlier split. A line such as `x:5: warning: q:3: oops` is a warning even though `oops` is not a warning message (`MessageMovesTheSplit` again).

A ':' that is not followed by a digit, as in `C:\src\main.c`, changes nothing.

## Model

| member | source | states |
|---|---|---|
| RegexRules.DigitRun | compiler_output_parser.hpp:44 | the length of the longest prefix of digits, i.e. how far the greedy `[0-9]+` of the line-number group reaches: every character before it is a digit and the one at it is not |
| RegexRules.FileRun | compiler_output_parser.hpp:44 | the length of the longest prefix of file-name characters, i.e. how far the greedy file-name group first reaches before it backtracks |
| RegexRules.LongestSplit | compiler_output_parser.hpp:44 | a successful backtracking search returns four groups: group 0 is the whole line, and group 1 is a non-empty prefix no longer than where the search started |
| RegexRules.MatchPattern | compiler_output_parser.hpp:44 | a successful match returns the four groups, with group 0 the whole line |
| RegexRules.DigitRunOf | compiler_output_parser.hpp:44 | a digit run followed by a non-digit (or by nothing) is measured exactly |
| RegexRules.LineNumberFieldIff | compiler_output_parser.hpp:44 | the `:([0-9]+):` part accepts a string exactly when it is ':', a non-empty digit run, ':' and a rest, and then returns that digit run and rest |
| RegexRules.MatchRestIff | compiler_output_parser.hpp:44-56 | what each pattern accepts after `FILE:DIGITS:` is exactly its grammar: a blank then a `[Ww]arning:<blank>` message; a digit run, ':', a blank and the message; or a blank and the message |
| RegexRules.MatchTailIff | compiler_output_parser.hpp:44-56 | everything after the file name is accepted exactly when it is `:lineNo:` followed by a rest the pattern allows |
| RegexRules.MatchTailStart | compiler_output_parser.hpp:44-56 | every tail a pattern accepts starts with ':' followed by a digit |
| RegexRules.ShapeSplit | compiler_output_parser.hpp:44-56 | a decomposition of the line under a pattern is exactly a file-name prefix followed by a tail the pattern accepts |
| RegexRules.ShapeReconstruction | compiler_output_parser.hpp:44-56 | a decomposition rebuilds the line as `file:lineNo:<blank>message`, or as `file:lineNo:column:<blank>message` for the pattern with a column |
| RegexRules.ShapeUnique | compiler_output_parser.hpp:44-56 | once the end of the file name is fixed, the line number and the message are determined |
| RegexRules.GreedyCaptureUnique | compiler_output_parser.hpp:44-56 | a line has at most one decomposition with a longest file name |
| RegexRules.ShapeEndsAtColonDigit | compiler_output_parser.hpp:44-56 | in every decomposition, the file name ends where a ':' is followed by a digit |
| RegexRules.LongestSplitSound | compiler_output_parser.hpp:44 | what the backtracking search returns is a non-empty prefix whose tail matches |
| RegexRules.LongestSplitComplete | compiler_output_parser.hpp:44 | the search succeeds whenever some split at or before its start has a matching tail, and never stops at a split shorter than that one |
| RegexRules.MatchPatternSpec | compiler_output_parser.hpp:44-56 | each anchored match succeeds exactly when the line decomposes under the pattern, and then it captures the decomposition with the longest file name |
| RegexRules.LongestSplitAt | compiler_output_parser.hpp:44 | the search stops at the longest split whose tail matches and captures that prefix |
| RegexRules.LongestSplitNone | compiler_output_parser.hpp:44 | the search fails when no split's tail matches |
| RegexRules.CaptureAt | compiler_output_parser.hpp:44-56 | when the tail after a file-name prefix matches and no longer split does, the match captures that prefix and the tail's fields |
| RegexRules.NoCapture | compiler_output_parser.hpp:44-56 | when no split's tail matches, the pattern does not match |
| RegexRules.FileRunCovers | compiler_output_parser.hpp:44 | the greedy file-name run covers every prefix made of file-name characters |
| RegexRules.TailAtColonDigit | compiler_output_parser.hpp:44-56 | a split whose tail matches lies at a ':' followed by a digit |
| RegexRules.ColonDigitsOfPlainLine | compiler_output_parser.hpp:44-56 | in `file:lineNo:<blank>message`, where neither the file name nor the message has a ':' followed by a digit, the only ':' followed by a digit is the one after the file |
| RegexRules.ColonDigitsOfColumnLine | compiler_output_parser.hpp:44-56 | in `file:lineNo:column:<blank>message`, where neither the file name nor the message has a ':' followed by a digit, only the ':' after the file and the ':' after the line number are followed by a digit |
| RegexRules.SplitsOnlyAt | compiler_output_parser.hpp:44-56 | no pattern's tail matches at a split that is not a ':' followed by a digit |
| RegexRules.NoColonDigitAppend | compiler_output_parser.hpp:44-56 | joining two strings that have no ':' followed by a digit makes none, unless the seam puts a ':' before a digit |
| RegexRules.RestOfPlainLine | compiler_output_parser.hpp:44-56 | after `FILE:DIGITS:`, `<blank>message` satisfies the warning rule exactly when the message starts with `[Ww]arning:<blank>`, never satisfies the column rule, and always satisfies the plain rule |
| RegexRules.RestOfColumnLine | compiler_output_parser.hpp:44-56 | after `FILE:DIGITS:`, `column:<blank>message` satisfies only the column rule, which captures the message |
| RegexRules.PlainLineCaptures | compiler_output_parser.hpp:44-60 | on `file:lineNo:<blank>message`, where neither the file name nor the message has a ':' followed by a digit: the warning rule captures (file, lineNo, message) exactly when the message is a warning message, the column rule does not match, and the plain rule captures (file, lineNo, message) |
| RegexRules.ColumnLineCaptures | compiler_output_parser.hpp:44-60 | on `file:lineNo:column:<blank>message`, where neither the file name nor the message has a ':' followed by a digit: the column rule captures (file, lineNo, message); the plain rule captures (`file:lineNo`, column, message); the warning rule does the same as the plain rule when the message is a warning message, and does not match otherwise |
| RegexRules.PlainLineLastSplit | compiler_output_parser.hpp:44-60 | on `file:lineNo:<blank>message` with no ':' followed by a digit in the message, and any file name, the plain rule captures (file, lineNo, message), and so does the warning rule when the message is a warning message |
| RegexRules.ColumnLineLastSplits | compiler_output_parser.hpp:44-60 | on `file:lineNo:column:<blank>message` with no ':' followed by a digit in the message, and any file name, the column rule captures (file, lineNo, message), while the plain rule captures (`file:lineNo`, column, message), and so does the warning rule when the message is a warning message |
| CompilerOutputParser.FirstMatch | compiler_output_parser.hpp:44-66 | the result comes from the first rule of the table whose pattern matches, filled from its groups by the rule's indices, and is the empty `normal` record when no rule matches |
| CompilerOutputParser.GetCompilerOutputLineInfo | compiler_output_parser.hpp:41-67 | the classifier never returns `info` |
| CompilerOutputParser.RuleTable | compiler_output_parser.hpp:33-59 | the table tries the warning rule, the error rule with a column and the error rule without, in that order; each result takes its type from the rule and its file name, line number and message from groups 1, 2 and 3 |
| CompilerOutputParser.CascadeOfRules | compiler_output_parser.hpp:44-66 | the table-driven search is the if/else-if cascade: warning rule, then the error rule with a column, then the error rule without, then the `normal` fallback; each branch fills the record from groups 1, 2 and 3 |
| CompilerOutputParser.GetCompilerOutputLineInfoSpec | compiler_output_parser.hpp:41-67 | the type is `warning` exactly when rule 1 matches; it is `error` exactly when rule 1 does not match but rule 2 or rule 3 does; it is `normal`, with empty fields, exactly when none matches. The fields are the longest-file-name capture of the rule that won |
| CompilerOutputParser.ResultShape | compiler_output_parser.hpp:44-60 | a `warning` result is a decomposition of the line under rule 1, and an `error` result is one under rule 2 or rule 3 |
| CompilerOutputParser.FieldShape | compiler_output_parser.hpp:44-60 | in every non-normal result: the file name is non-empty and made of file-name characters; the line number is a non-empty run of digits; a warning's message starts with `warning:` or `Warning:` and a blank |
| CompilerOutputParser.Reconstruction | compiler_output_parser.hpp:44-60 | the line is rebuilt from the fields: `fileName:line:<blank>message` for a warning; for an error, `fileName:line:column:<blank>message` for some digit run `column` when rule 2 matches the line, and `fileName:line:<blank>message` when it does not |
| CompilerOutputParser.FirstCharOutsideFileSet | compiler_output_parser.hpp:43-66 | an empty line, or one whose first character is not a file-name character, gets the empty `normal` record |
| CompilerOutputParser.NoColonDigitIsNormal | compiler_output_parser.hpp:43-66 | a line in which no ':' is followed by a digit gets the empty `normal` record |
| CompilerOutputParser.ProgressLineIsNormal | test.cpp:23-52 | every line starting with `[` is `normal`, in particular the long link command, which starts with ninja's `[4/265]` counter |
| CompilerOutputParser.CommandLineLinesAreNormal | test.cpp:66-76 | every line starting with `<command-line>` is `normal`, including the two in the tests that expect `info` and `warning` |
| CompilerOutputParser.LinkerErrorIsNormal | test.cpp:54-58 | `/usr/bin/ld: cannot find <library>` is `normal` when the library name has no ':' followed by a digit, although the test expects `error` |
| CompilerOutputParser.DriverWarningIsNormal | test.cpp:60-64 | `cc1: warning: <text>` is `normal` when the text has no ':' followed by a digit, although the test expects `warning` |
| CompilerOutputParser.LinkerTestLineIsNormal | test.cpp:54-58 | the test's line `/usr/bin/ld: cannot find -lmagic` is `normal` |
| CompilerOutputParser.DriverTestLineIsNormal | test.cpp:60-64 | the test's line `cc1: warning: command line option '-std=c++11' is valid for C++/ObjC++ but not for C` is `normal` |
| CompilerOutputParser.WarningLineType | compiler_output_parser.hpp:44-61 | every `file:lineNo:<blank>warning: ...` line, whatever its file name and message, also matches rule 3 but is classified `warning`, with a file name at least as long as `file` |
| CompilerOutputParser.MessageMovesTheSplit | compiler_output_parser.hpp:44-48 | `file:lineNo:<blank>text:lineNo2:<blank>message` with `text` a warning message is a `warning` for every message, and it decomposes with file name `file`; when `text` is also made of file-name characters and the message is a warning message with no ':' followed by a digit, the result is (`file:lineNo:<blank>text`, lineNo2, message) instead |
| CompilerOutputParser.WarningTakesPrecedence | compiler_output_parser.hpp:44-61 | for any file name, `file:lineNo:<blank>warning: ...` whose message has no ':' followed by a digit also matches rule 3, which would capture (file, lineNo, message), but it is classified `warning` with exactly those fields, the `warning:` keyword kept in the message |
| CompilerOutputParser.PlainErrorLine | compiler_output_parser.hpp:44-61 | `file:lineNo:<blank>message`, where the message is not a warning message and neither the file name nor the message has a ':' followed by a digit, is an `error` with fields (file, lineNo, message) |
| CompilerOutputParser.ColumnErrorLine | compiler_output_parser.hpp:44-61 | `file:lineNo:column:<blank>message`, where the message is not a warning message and neither the file name nor the message has a ':' followed by a digit, is an `error` with fields (file, lineNo, message); the column is dropped |
| CompilerOutputParser.ColumnLineUnderPlainRule | compiler_output_parser.hpp:50-60 | for any file name and a message with no ':' followed by a digit, rule 3 alone would take `file:lineNo` as the file name and the column as the line number of `file:lineNo:column:<blank>message`, while rule 2 takes (file, lineNo, message) |
| CompilerOutputParser.ColumnWarningQuirk | compiler_output_parser.hpp:44-48 | for any file name and a message with no ':' followed by a digit, `file:lineNo:column:<blank>warning: ...` is caught by rule 1, with `file:lineNo` as the file name and the column as the line number |
| CompilerOutputParser.PreprocessorErrorExample | test.cpp:9-21 | `/home/test/file/path/test.cpp:3:10: fatal error: test.h: No such file or directory` is an `error` with file `/home/test/file/path/test.cpp`, line `3` and message `fatal error: test.h: No such file or directory` |

## Left out

- `log_parser.cpp` is not part of this model. It opens the log file, reads lines, keeps the non-normal results and prints them. All of that is I/O.
- The `std::cout << "Match failed!"` on the fallback path (`compiler_output_parser.hpp:64`) is console output and is dropped.
- On the fallback path, the C++ leaves the `type` field of `ret` default-initialised, so its value is indeterminate. The model returns `normal` there, which is what the test at `test.cpp:51` and the filter in `log_parser.cpp` rely on.
- The regular-expression library is replaced by hand-written matchers for the three patterns. Its general engine is not modelled. Neither is the defaulted `operator<=>` of the result record.
- `.` in the message groups is modelled as any character, including line breaks; the classifier is given one line at a time. `[[:alnum:]]` and `[[:blank:]]` are modelled over ASCII, i.e. letters, digits, space and tab.
- The rule names ("Compiler warning", ...) are kept in the table but have no observable effect, as in the source.
- PlainLineCaptures, ColonDigitsOfPlainLine: stated only for a file name and a message with no ':' followed by a digit. Such a ':' can create a later or an earlier split, as `MessageMovesTheSplit` shows; `PlainLineLastSplit` covers every file name.
- ColumnLineCaptures, ColonDigitsOfColumnLine: the same conditions, for the same reason; `ColumnLineLastSplits` covers every file name.
- WarningTakesPrecedence: the exact fields are stated only for a message with no ':' followed by a digit, since such a ':' moves the split (`MessageMovesTheSplit`). `WarningLineType` states the type for every message.
- PlainErrorLine: stated only for a file name and a message with no ':' followed by a digit. Otherwise the line can be a warning (`MessageMovesTheSplit`) or an error with other fields.
- ColumnErrorLine: the same conditions as PlainErrorLine, for the same reason.
- ColumnLineUnderPlainRule: stated only for a message with no ':' followed by a digit, since such a ':' moves the split of rule 3.
- ColumnWarningQuirk: stated only for a message with no ':' followed by a digit, for the same reason.
- The gtest expectations at `test.cpp:54-76` are not modelled as properties, because the header does not satisfy them. The lemmas listed above prove what the header does instead.
