/**
 * The classifier of build-output lines: `GetCompilerOutputLineInfo` tries
 * three rules in a fixed order, the first whose pattern matches the whole
 * line decides the line's type and supplies the file name, line number and
 * message from its capture groups, and a line no rule matches is `Normal`
 * with empty fields.
 */
module CompilerOutputParser {
  import opened RegexRules

  /** The four kinds of output line. */
  datatype CompilerOutputLineType = Normal | Warning | Error | Info

  /** What the classifier reports about one line. */
  datatype CompilerOutputLineInfo = CompilerOutputLineInfo(
    lineType: CompilerOutputLineType,
    fileName: string,
    line: string,
    message: string)

  /** The result for a line no rule matches. */
  const NormalLine := CompilerOutputLineInfo(Normal, "", "", "")

  /** One rule's name, the type it assigns, and which capture group holds each field. */
  datatype CompilerRegexInfo = CompilerRegexInfo(
    name: string,
    lineType: CompilerOutputLineType,
    fileNameIdx: nat,
    lineIdx: nat,
    messageIdx: nat)

  /** A rule of the table: a pattern and what to do when it matches. */
  datatype Rule = Rule(pattern: Pattern, info: CompilerRegexInfo)

  /** The rules in the order they are tried. */
  const Rules: seq<Rule> := [
    Rule(FileLineWarning, CompilerRegexInfo("Compiler warning", Warning, 1, 2, 3)),
    Rule(FileLineColumn, CompilerRegexInfo("Compiler error (2)", Error, 1, 2, 3)),
    Rule(FileLine, CompilerRegexInfo("Compiler error", Error, 1, 2, 3))
  ]

  /** The group indices name groups the patterns have. */
  predicate ValidInfo(info: CompilerRegexInfo) {
    info.fileNameIdx < GroupCount && info.lineIdx < GroupCount && info.messageIdx < GroupCount
  }

  predicate ValidRules(rules: seq<Rule>) {
    forall i | 0 <= i < |rules| :: ValidInfo(rules[i].info)
  }

  /** Fills the result from a match's groups as the rule's indices say. */
  function PopulateInfo(info: CompilerRegexInfo, groups: seq<string>): CompilerOutputLineInfo
    requires ValidInfo(info) && |groups| == GroupCount
  {
    CompilerOutputLineInfo(info.lineType, groups[info.fileNameIdx], groups[info.lineIdx], groups[info.messageIdx])
  }

  /**
   * Tries the rules in order: the result comes from the first rule whose
   * pattern matches, and is `NormalLine` when none does.
   */
  function FirstMatch(rules: seq<Rule>, line: string): (r: CompilerOutputLineInfo)
    requires ValidRules(rules)
    ensures (forall i | 0 <= i < |rules| :: MatchPattern(rules[i].pattern, line).None?) ==> r == NormalLine
    ensures forall i | 0 <= i < |rules| && MatchPattern(rules[i].pattern, line).Some? ::
              (forall j | 0 <= j < i :: MatchPattern(rules[j].pattern, line).None?) ==>
                r == PopulateInfo(rules[i].info, MatchPattern(rules[i].pattern, line).value)
    decreases |rules|
  {
    if |rules| == 0 then NormalLine
    else
      match MatchPattern(rules[0].pattern, line)
      case Some(groups) => PopulateInfo(rules[0].info, groups)
      case None =>
        assert forall i | 1 <= i < |rules| :: rules[1..][i - 1] == rules[i];
        FirstMatch(rules[1..], line)
  }

  /** Classifies one line of build output. */
  function GetCompilerOutputLineInfo(line: string): (r: CompilerOutputLineInfo)
    ensures r.lineType != Info
  {
    FirstMatch(Rules, line)
  }

  // ---------------------------------------------------------------------
  // The cascade and what it computes.
  // ---------------------------------------------------------------------

  /**
   * The table holds the warning rule, the error rule with a column and the
   * error rule without, in that order, and each fills the type from the
   * rule and the file name, line number and message from groups 1, 2 and 3.
   */
  lemma RuleTable(groups: seq<string>)
    requires |groups| == GroupCount
    ensures ValidRules(Rules) && |Rules| == 3
    ensures Rules[0].pattern == FileLineWarning && Rules[0].info.lineType == Warning
    ensures Rules[1].pattern == FileLineColumn && Rules[1].info.lineType == Error
    ensures Rules[2].pattern == FileLine && Rules[2].info.lineType == Error
    ensures forall i | 0 <= i < |Rules| ::
              PopulateInfo(Rules[i].info, groups)
              == CompilerOutputLineInfo(Rules[i].info.lineType, groups[1], groups[2], groups[3])
  {
  }

  /**
   * The table-driven search is the if/else-if cascade of the three rules:
   * warning first, then the error with a column, then the error without.
   */
  lemma CascadeOfRules(line: string)
    ensures GetCompilerOutputLineInfo(line)
         == match MatchPattern(FileLineWarning, line)
            case Some(g) => CompilerOutputLineInfo(Warning, g[1], g[2], g[3])
            case None =>
              match MatchPattern(FileLineColumn, line)
              case Some(g) => CompilerOutputLineInfo(Error, g[1], g[2], g[3])
              case None =>
                match MatchPattern(FileLine, line)
                case Some(g) => CompilerOutputLineInfo(Error, g[1], g[2], g[3])
                case None => NormalLine
  {
    assert Rules[0].pattern == FileLineWarning && Rules[1].pattern == FileLineColumn && Rules[2].pattern == FileLine;
  }

  /**
   * The type is `Warning` exactly when the warning pattern matches, `Error`
   * exactly when it does not but one of the error patterns does, and
   * `Normal` (with empty fields) otherwise; the fields are the greedy
   * capture of the rule that won.
   */
  lemma GetCompilerOutputLineInfoSpec(line: string)
    ensures var r := GetCompilerOutputLineInfo(line);
      && (r.lineType == Warning <==> Matches(FileLineWarning, line))
      && (r.lineType == Error <==>
            !Matches(FileLineWarning, line) && (Matches(FileLineColumn, line) || Matches(FileLine, line)))
      && (r.lineType == Normal <==>
            !Matches(FileLineWarning, line) && !Matches(FileLineColumn, line) && !Matches(FileLine, line))
      && (r.lineType == Normal ==> r == NormalLine)
      && (Matches(FileLineWarning, line) ==> GreedyCapture(FileLineWarning, line, r.fileName, r.line, r.message))
      && (!Matches(FileLineWarning, line) && Matches(FileLineColumn, line) ==>
            GreedyCapture(FileLineColumn, line, r.fileName, r.line, r.message))
      && (!Matches(FileLineWarning, line) && !Matches(FileLineColumn, line) && Matches(FileLine, line) ==>
            GreedyCapture(FileLine, line, r.fileName, r.line, r.message))
  {
    CascadeOfRules(line);
    MatchPatternSpec(FileLineWarning, line);
    MatchPatternSpec(FileLineColumn, line);
    MatchPatternSpec(FileLine, line);
  }

  /** The pattern of the rule that produced a non-normal result matches with these fields. */
  lemma ResultShape(line: string)
    ensures var r := GetCompilerOutputLineInfo(line);
      && (r.lineType == Warning ==> Shape(FileLineWarning, line, r.fileName, r.line, r.message))
      && (r.lineType == Error ==>
            Shape(FileLineColumn, line, r.fileName, r.line, r.message)
            || Shape(FileLine, line, r.fileName, r.line, r.message))
  {
    GetCompilerOutputLineInfoSpec(line);
  }

  /**
   * In every non-normal result the file name is a non-empty run of file
   * characters, the line number a non-empty run of digits, and a warning's
   * message starts with `warning:` or `Warning:` and a blank.
   */
  lemma FieldShape(line: string)
    ensures var r := GetCompilerOutputLineInfo(line);
      r.lineType != Normal ==>
        && IsFileName(r.fileName)
        && IsDigits(r.line)
        && (r.lineType == Warning ==> IsWarningMessage(r.message))
  {
    ResultShape(line);
  }

  /**
   * The line is recovered from the fields: `fileName:line:<blank>message`
   * for the warning rule and the error rule without a column, and
   * `fileName:line:column:<blank>message` for the error rule with one,
   * which decides every error line its pattern matches.
   */
  lemma Reconstruction(line: string)
    ensures var r := GetCompilerOutputLineInfo(line);
      && (r.lineType == Warning ==>
            exists b | IsBlank(b) :: line == r.fileName + ":" + r.line + ":" + [b] + r.message)
      && (r.lineType == Error && Matches(FileLineColumn, line) ==>
            exists column, b | IsDigits(column) && IsBlank(b) ::
              line == r.fileName + ":" + r.line + ":" + column + ":" + [b] + r.message)
      && (r.lineType == Error && !Matches(FileLineColumn, line) ==>
            exists b | IsBlank(b) :: line == r.fileName + ":" + r.line + ":" + [b] + r.message)
  {
    var r := GetCompilerOutputLineInfo(line);
    GetCompilerOutputLineInfoSpec(line);
    if r.lineType == Warning {
      ShapeReconstruction(FileLineWarning, line, r.fileName, r.line, r.message);
    } else if r.lineType == Error && Matches(FileLineColumn, line) {
      ShapeReconstruction(FileLineColumn, line, r.fileName, r.line, r.message);
    } else if r.lineType == Error {
      ShapeReconstruction(FileLine, line, r.fileName, r.line, r.message);
    }
  }

  // ---------------------------------------------------------------------
  // Lines no rule matches.
  // ---------------------------------------------------------------------

  /** A line that is empty or starts outside the file-name characters is normal. */
  lemma FirstCharOutsideFileSet(line: string)
    ensures |line| == 0 || !IsFileChar(line[0]) ==> GetCompilerOutputLineInfo(line) == NormalLine
  {
    CascadeOfRules(line);
  }

  /** A line in which no ':' is followed by a digit is normal. */
  lemma NoColonDigitIsNormal(line: string)
    ensures NoColonDigit(line) ==> GetCompilerOutputLineInfo(line) == NormalLine
  {
    if NoColonDigit(line) {
      SplitsOnlyAt(line, {});
      NoCapture(FileLineWarning, line);
      NoCapture(FileLineColumn, line);
      NoCapture(FileLine, line);
      CascadeOfRules(line);
    }
  }

  /**
   * A line starting with '[', such as a link command that ninja prefixes with
   * its `[4/265]` progress counter, is normal.
   */
  lemma ProgressLineIsNormal(rest: string)
    ensures GetCompilerOutputLineInfo("[" + rest) == NormalLine
  {
    FirstCharOutsideFileSet("[" + rest);
  }

  /** Lines about `<command-line>` are normal, because '<' is not a file-name character. */
  lemma CommandLineLinesAreNormal(rest: string)
    ensures GetCompilerOutputLineInfo("<command-line>" + rest) == NormalLine
  {
    FirstCharOutsideFileSet("<command-line>" + rest);
  }

  /** A linker error about a missing library carries no line number and is normal. */
  lemma LinkerErrorIsNormal(library: string)
    requires NoColonDigit(library)
    ensures GetCompilerOutputLineInfo("/usr/bin/ld: cannot find " + library) == NormalLine
  {
    assert NoColonDigit("/usr/bin/ld:") && NoColonDigit(" cannot find ");
    NoColonDigitAppend("/usr/bin/ld:", " cannot find ");
    assert "/usr/bin/ld:" + " cannot find " == "/usr/bin/ld: cannot find ";
    NoColonDigitAppend("/usr/bin/ld: cannot find ", library);
    NoColonDigitIsNormal("/usr/bin/ld: cannot find " + library);
  }

  /** A warning of the compiler driver carries no line number and is normal. */
  lemma DriverWarningIsNormal(text: string)
    requires NoColonDigit(text)
    ensures GetCompilerOutputLineInfo("cc1: warning: " + text) == NormalLine
  {
    assert NoColonDigit("cc1:") && NoColonDigit(" warning:") && NoColonDigit(" ");
    NoColonDigitAppend("cc1:", " warning:");
    NoColonDigitAppend("cc1:" + " warning:", " ");
    assert "cc1:" + " warning:" + " " == "cc1: warning: ";
    NoColonDigitAppend("cc1: warning: ", text);
    NoColonDigitIsNormal("cc1: warning: " + text);
  }

  /** The linker error of the test suite is normal. */
  lemma LinkerTestLineIsNormal()
    ensures GetCompilerOutputLineInfo("/usr/bin/ld: cannot find " + "-lmagic") == NormalLine
  {
    NoColonNoColonDigit("-lmagic");
    LinkerErrorIsNormal("-lmagic");
  }

  /** The text of the driver warning of the test suite has no ':' at all. */
  lemma DriverTestTextHasNoColonDigit()
    ensures NoColonDigit("command line option " + "'-std=c++11' is valid " + "for C++/ObjC++ but not for C")
  {
    var a, c, d := "command line option ", "'-std=c++11' is valid ", "for C++/ObjC++ but not for C";
    NoColonNoColonDigit(a);
    NoColonNoColonDigit(c);
    NoColonNoColonDigit(d);
    NoColonDigitAppend(a, c);
    NoColonDigitAppend(a + c, d);
  }

  /** The driver warning of the test suite is normal. */
  lemma DriverTestLineIsNormal()
    ensures GetCompilerOutputLineInfo(
              "cc1: warning: " + ("command line option " + "'-std=c++11' is valid " + "for C++/ObjC++ but not for C"))
         == NormalLine
  {
    DriverTestTextHasNoColonDigit();
    DriverWarningIsNormal("command line option " + "'-std=c++11' is valid " + "for C++/ObjC++ but not for C");
  }

  // ---------------------------------------------------------------------
  // Lines of the forms compilers print.
  // ---------------------------------------------------------------------

  /**
   * Every `file:lineNo:<b>warning: …` line also matches the error rule
   * without a column, but the warning rule comes first and wins. Its file
   * name is `file` or a longer prefix of the line.
   */
  lemma WarningLineType(file: string, lineNo: string, b: char, message: string)
    requires IsFileName(file) && IsDigits(lineNo) && IsBlank(b) && IsWarningMessage(message)
    ensures var line := file + ":" + lineNo + ":" + [b] + message;
      && MatchPattern(FileLine, line).Some?
      && GetCompilerOutputLineInfo(line).lineType == Warning
      && |file| <= |GetCompilerOutputLineInfo(line).fileName|
  {
    var line := file + ":" + lineNo + ":" + [b] + message;
    ShapeOfWarningLine(file, lineNo, b, message);
    GetCompilerOutputLineInfoSpec(line);
    MatchPatternSpec(FileLine, line);
  }

  /**
   * When no ':' in the message of `file:lineNo:<b>warning: …` is followed by
   * a digit, the warning keeps exactly `file`, `lineNo` and the message,
   * whatever ':' characters the file name holds; the `warning:` keyword
   * stays in the message.
   */
  lemma WarningTakesPrecedence(file: string, lineNo: string, b: char, message: string)
    requires IsFileName(file) && IsDigits(lineNo) && IsBlank(b) && NoColonDigit(message)
    requires IsWarningMessage(message)
    ensures var line := file + ":" + lineNo + ":" + [b] + message;
      && MatchPattern(FileLine, line) == Some([line, file, lineNo, message])
      && GetCompilerOutputLineInfo(line) == CompilerOutputLineInfo(Warning, file, lineNo, message)
  {
    var line := file + ":" + lineNo + ":" + [b] + message;
    PlainLineLastSplit(file, lineNo, b, message);
    CascadeOfRules(line);
  }

  /**
   * A line with two `:DIGITS:<blank>` segments whose first message starts
   * with `warning:`, such as `a.c:1: warning: x:2: warning: y`, is always a
   * warning, even when the second message is not a warning message: so
   * PlainErrorLine needs a file name with no ':' followed by a digit. When
   * the first message is made of file-name characters and the second is a
   * warning message without a ':' followed by a digit, the greedy file name
   * runs to the second segment: the warning is
   * reported as (`a.c:1: warning: x`, `2`, `warning: y`), although
   * (`a.c`, `1`, `warning: x:2: warning: y`) is a decomposition too; so
   * WarningTakesPrecedence needs a message with no ':' followed by a digit.
   */
  lemma MessageMovesTheSplit(file: string, lineNo: string, b: char, text: string,
                             lineNo2: string, b2: char, message: string)
    requires IsFileName(file) && IsDigits(lineNo) && IsBlank(b) && IsWarningMessage(text)
    requires IsDigits(lineNo2) && IsBlank(b2)
    ensures var head := file + ":" + lineNo + ":" + [b] + text;
      var line := head + ":" + lineNo2 + ":" + [b2] + message;
      && Shape(FileLineWarning, line, file, lineNo, text + ":" + lineNo2 + ":" + [b2] + message)
      && (IsFileName(text) ==> IsFileName(head))
      && GetCompilerOutputLineInfo(line).lineType == Warning
      && (IsFileName(text) && IsWarningMessage(message) && NoColonDigit(message) ==>
            GetCompilerOutputLineInfo(line) == CompilerOutputLineInfo(Warning, head, lineNo2, message))
  {
    var head := file + ":" + lineNo + ":" + [b] + text;
    var first := text + ":" + lineNo2 + ":" + [b2] + message;
    TwoSegments(file, lineNo, b, text, lineNo2, b2, message);
    WarningLineType(file, lineNo, b, first);
    ShapeOfWarningLine(file, lineNo, b, first);
    if IsFileName(text) && IsWarningMessage(message) && NoColonDigit(message) {
      WarningTakesPrecedence(head, lineNo2, b2, message);
    }
  }

  /** `file:lineNo:<b>message` without the warning keyword is an error. */
  lemma PlainErrorLine(file: string, lineNo: string, b: char, message: string)
    requires IsFileName(file) && NoColonDigit(file) && IsDigits(lineNo) && IsBlank(b) && NoColonDigit(message)
    requires !IsWarningMessage(message)
    ensures var line := file + ":" + lineNo + ":" + [b] + message;
      GetCompilerOutputLineInfo(line) == CompilerOutputLineInfo(Error, file, lineNo, message)
  {
    var line := file + ":" + lineNo + ":" + [b] + message;
    PlainLineCaptures(file, lineNo, b, message);
    CascadeOfRules(line);
  }

  /**
   * `file:lineNo:column:<b>message` without the warning keyword is an error
   * of the rule with a column, which drops the column.
   */
  lemma ColumnErrorLine(file: string, lineNo: string, column: string, b: char, message: string)
    requires IsFileName(file) && NoColonDigit(file) && IsDigits(lineNo) && IsDigits(column) && IsBlank(b)
    requires NoColonDigit(message) && !IsWarningMessage(message)
    ensures var line := file + ":" + lineNo + ":" + column + ":" + [b] + message;
      GetCompilerOutputLineInfo(line) == CompilerOutputLineInfo(Error, file, lineNo, message)
  {
    var line := file + ":" + lineNo + ":" + column + ":" + [b] + message;
    ColumnLineCaptures(file, lineNo, column, b, message);
    CascadeOfRules(line);
  }

  /**
   * The error rule without a column, tried alone on `file:lineNo:column:<b>message`,
   * would take `file:lineNo` as the file name and the column as the line
   * number; only the order of the rules keeps it from doing so.
   */
  lemma ColumnLineUnderPlainRule(file: string, lineNo: string, column: string, b: char, message: string)
    requires IsFileName(file) && IsDigits(lineNo) && IsDigits(column) && IsBlank(b)
    requires NoColonDigit(message)
    ensures var line := file + ":" + lineNo + ":" + column + ":" + [b] + message;
      && MatchPattern(FileLine, line) == Some([line, file + ":" + lineNo, column, message])
      && MatchPattern(FileLineColumn, line) == Some([line, file, lineNo, message])
  {
    ColumnLineLastSplits(file, lineNo, column, b, message);
  }

  /**
   * Because ':' and digits are file-name characters, the warning rule takes
   * `file:lineNo:column:<b>warning: …` with `file:lineNo` as the file name
   * and the column as the line number.
   */
  lemma ColumnWarningQuirk(file: string, lineNo: string, column: string, b: char, message: string)
    requires IsFileName(file) && IsDigits(lineNo) && IsDigits(column) && IsBlank(b)
    requires NoColonDigit(message) && IsWarningMessage(message)
    ensures var line := file + ":" + lineNo + ":" + column + ":" + [b] + message;
      GetCompilerOutputLineInfo(line) == CompilerOutputLineInfo(Warning, file + ":" + lineNo, column, message)
  {
    var line := file + ":" + lineNo + ":" + column + ":" + [b] + message;
    ColumnLineLastSplits(file, lineNo, column, b, message);
    CascadeOfRules(line);
  }

  /** The preprocessor error's message, cut at its ':' characters. */
  lemma ExampleMessagePieces()
    ensures "fatal error: test.h: No such file or directory"
         == "fatal error" + ":" + " test.h" + ":" + " No such file or directory"
  {
  }

  /** The message of the preprocessor error below has no ':' followed by a digit. */
  lemma ExampleMessageHasNoColonDigit()
    ensures NoColonDigit("fatal error: test.h: No such file or directory")
  {
    var p1, p2, p3 := "fatal error", " test.h", " No such file or directory";
    ExampleMessagePieces();
    NoColonNoColonDigit(p1);
    NoColonNoColonDigit(":");
    NoColonNoColonDigit(p2);
    NoColonNoColonDigit(p3);
    NoColonDigitAppend(p1, ":");
    NoColonDigitAppend(p1 + ":", p2);
    NoColonDigitAppend(p1 + ":" + p2, ":");
    NoColonDigitAppend(p1 + ":" + p2 + ":", p3);
  }

  /** The fields of the preprocessor error below have the forms the column rule needs. */
  lemma ExampleFields()
    ensures IsFileName("/home/test/file/path/test.cpp") && ':' !in "/home/test/file/path/test.cpp"
    ensures IsDigits("3") && IsDigits("10")
    ensures !IsWarningMessage("fatal error: test.h: No such file or directory")
  {
  }

  /** The preprocessor error below is a line of the form `file:lineNo:column:<blank>message`. */
  lemma ExampleLineForm(file: string, message: string)
    ensures file + ":3:10: " + message == file + ":" + "3" + ":" + "10" + ":" + [' '] + message
  {
    assert ":3:10: " == ":" + "3" + ":" + "10" + ":" + [' '];
  }

  /** A preprocessor error with line and column reports the file, the line and the message. */
  lemma PreprocessorErrorExample()
    ensures GetCompilerOutputLineInfo("/home/test/file/path/test.cpp" + ":3:10: " + "fatal error: test.h: No such file or directory")
         == CompilerOutputLineInfo(Error, "/home/test/file/path/test.cpp", "3", "fatal error: test.h: No such file or directory")
  {
    ExampleLineForm("/home/test/file/path/test.cpp", "fatal error: test.h: No such file or directory");
    ExampleFields();
    NoColonNoColonDigit("/home/test/file/path/test.cpp");
    ExampleMessageHasNoColonDigit();
    ColumnErrorLine("/home/test/file/path/test.cpp", "3", "10", ' ', "fatal error: test.h: No such file or directory");
  }
}
