/**
 * The three fully anchored regular expressions that the compiler-output
 * classifier tries, written out as hand-made matchers over strings.
 *
 * All three share the same skeleton
 *
 *     FILE ':' DIGITS ':' ...
 *
 * where FILE is a greedy `[...]+` over the file-name character class. A
 * backtracking engine first lets FILE swallow every file-name character it
 * can and then gives characters back one at a time until the rest of the
 * pattern matches. Because the file-name class contains ':' and the digits,
 * the split point is not obvious; once it is fixed, the rest of the line is
 * parsed deterministically (a digit run cannot contain ':').
 *
 * Each pattern has two descriptions here:
 *   - `Shape`, a declarative predicate saying how the line decomposes into
 *     the captured groups (the regular expression read as a grammar), and
 *   - `MatchPattern`, the backtracking search that returns the groups.
 * `MatchPatternSpec` proves that `MatchPattern` returns exactly the
 * decomposition with the longest file name, and nothing when no
 * decomposition exists.
 */
module RegexRules {

  datatype Option<+T> = None | Some(value: T)

  /** `[[:blank:]]`: a space or a horizontal tab. */
  predicate IsBlank(c: char) {
    c == ' ' || c == '\t'
  }

  /** `[0-9]` */
  predicate IsDigit(c: char) {
    '0' <= c <= '9'
  }

  /** `[[:alnum:]]` over ASCII. */
  predicate IsAlnum(c: char) {
    'A' <= c <= 'Z' || 'a' <= c <= 'z' || IsDigit(c)
  }

  /** The class `[{}()[:blank:]#%$~[:alnum:]!&_:+/\\.-]` of the file-name group. */
  predicate IsFileChar(c: char) {
    || c == '{' || c == '}' || c == '(' || c == ')'
    || IsBlank(c)
    || c == '#' || c == '%' || c == '$' || c == '~'
    || IsAlnum(c)
    || c == '!' || c == '&' || c == '_' || c == ':' || c == '+'
    || c == '/' || c == '\\' || c == '.' || c == '-'
  }

  /** `[0-9]+` */
  predicate IsDigits(s: string) {
    |s| > 0 && forall i | 0 <= i < |s| :: IsDigit(s[i])
  }

  /** What the file-name group `[...]+` can capture. */
  predicate IsFileName(s: string) {
    |s| > 0 && forall i | 0 <= i < |s| :: IsFileChar(s[i])
  }

  /** The message group of the warning rule: `[Ww]arning:[[:blank:]].*` */
  predicate IsWarningMessage(m: string) {
    |m| >= 9 && (m[0] == 'W' || m[0] == 'w') && m[1..8] == "arning:" && IsBlank(m[8])
  }

  /** Position `j` of `s` holds a ':' that a digit follows. */
  predicate ColonDigitAt(s: string, j: int) {
    0 <= j < |s| - 1 && s[j] == ':' && IsDigit(s[j + 1])
  }

  /** No ':' in `s` is followed by a digit. */
  predicate NoColonDigit(s: string) {
    forall j | 0 <= j < |s| :: !ColonDigitAt(s, j)
  }

  /** The three patterns, in the order the classifier tries them. */
  datatype Pattern =
    | FileLineWarning  // FILE ':' DIGITS ':' BLANK ([Ww]arning: BLANK .*)
    | FileLineColumn   // FILE ':' DIGITS ':' DIGITS ':' BLANK (.*)
    | FileLine         // FILE ':' DIGITS ':' BLANK (.*)

  /**
   * A successful match yields group 0 (the whole line) and the three
   * capture groups: file name, line number, message.
   */
  const GroupCount := 4

  /**
   * What pattern `p` requires of the text after `FILE ':' DIGITS ':'`, and
   * the message group it captures there.
   */
  ghost predicate RestShape(p: Pattern, rest: string, message: string) {
    match p
    case FileLineWarning =>
      IsWarningMessage(message) && exists b | IsBlank(b) :: rest == [b] + message
    case FileLineColumn =>
      exists column, b | IsDigits(column) && IsBlank(b) :: rest == column + ":" + [b] + message
    case FileLine =>
      exists b | IsBlank(b) :: rest == [b] + message
  }

  /**
   * How `line` decomposes under pattern `p` into the three captures: the
   * anchored regular expression read as a grammar.
   */
  ghost predicate Shape(p: Pattern, line: string, file: string, lineNo: string, message: string) {
    && IsFileName(file)
    && IsDigits(lineNo)
    && exists rest :: line == file + ":" + lineNo + ":" + rest && RestShape(p, rest, message)
  }

  /** The anchored pattern matches the line at all. */
  ghost predicate Matches(p: Pattern, line: string) {
    exists file, lineNo, message :: Shape(p, line, file, lineNo, message)
  }

  /**
   * The captures a backtracking engine reports: a decomposition whose file
   * name is at least as long as that of every other decomposition.
   */
  ghost predicate GreedyCapture(p: Pattern, line: string, file: string, lineNo: string, message: string) {
    && Shape(p, line, file, lineNo, message)
    && forall f, l, m | Shape(p, line, f, l, m) :: |f| <= |file|
  }

  /** Length of the longest prefix of `s` made of digits (greedy `[0-9]*`). */
  function DigitRun(s: string): (n: nat)
    ensures n <= |s|
    ensures forall i | 0 <= i < n :: IsDigit(s[i])
    ensures n < |s| ==> !IsDigit(s[n])
  {
    if |s| > 0 && IsDigit(s[0]) then 1 + DigitRun(s[1..]) else 0
  }

  /** Length of the longest prefix of `s` in the file-name class (what greedy FILE+ first swallows). */
  function FileRun(s: string): (n: nat)
    ensures n <= |s|
    ensures forall i | 0 <= i < n :: IsFileChar(s[i])
    ensures n < |s| ==> !IsFileChar(s[n])
  {
    if |s| > 0 && IsFileChar(s[0]) then 1 + FileRun(s[1..]) else 0
  }

  /**
   * `':' ([0-9]+) ':'` at the start of `s`: the digits and what follows.
   * The digit run is always taken whole, since the character after a
   * shorter run is a digit and not the ':' that must follow.
   */
  function LineNumberField(s: string): Option<(string, string)> {
    if |s| == 0 || s[0] != ':' then None
    else
      var n := DigitRun(s[1..]);
      if n == 0 || n + 1 == |s| || s[n + 1] != ':' then None
      else Some((s[1..n + 1], s[n + 2..]))
  }

  /** The part of pattern `p` after the second ':', matched against all of `rest`: the message group. */
  function MatchRest(p: Pattern, rest: string): Option<string> {
    match p
    case FileLineWarning =>
      if |rest| > 0 && IsBlank(rest[0]) && IsWarningMessage(rest[1..]) then Some(rest[1..]) else None
    case FileLine =>
      if |rest| > 0 && IsBlank(rest[0]) then Some(rest[1..]) else None
    case FileLineColumn =>
      var c := DigitRun(rest);
      if c > 0 && c + 1 < |rest| && rest[c] == ':' && IsBlank(rest[c + 1]) then Some(rest[c + 2..]) else None
  }

  /** The line-number and message captures. */
  datatype Fields = Fields(lineNo: string, message: string)

  /** The part of pattern `p` after the file name, matched against all of `s`. */
  function MatchTail(p: Pattern, s: string): Option<Fields> {
    match LineNumberField(s)
    case None => None
    case Some((lineNo, rest)) =>
      match MatchRest(p, rest)
      case None => None
      case Some(message) => Some(Fields(lineNo, message))
  }

  /** Pattern `p` after its file-name group, as a matcher of whole tails. */
  function TailOf(p: Pattern): string -> Option<Fields> {
    s => MatchTail(p, s)
  }

  /**
   * Backtracking over the greedy file-name group followed by the rest of a
   * pattern, matched by `tail`: tries `line[..k]`, `line[..k-1]`, ...,
   * `line[..1]` as the file name and stops at the first split whose tail
   * matches. On success, returns the groups 0 to 3.
   */
  function LongestSplit(tail: string -> Option<Fields>, line: string, k: nat): (r: Option<seq<string>>)
    requires k <= |line|
    ensures r.Some? ==> |r.value| == GroupCount && r.value[0] == line && 0 < |r.value[1]| <= k
    ensures r.Some? ==> r.value[1] == line[..|r.value[1]|]
    decreases k
  {
    if k == 0 then None
    else
      match tail(line[k..])
      case Some(f) => Some([line, line[..k], f.lineNo, f.message])
      case None => LongestSplit(tail, line, k - 1)
  }

  /** `ctre::match` of pattern `p` against the whole line: the groups 0 to 3, or nothing. */
  function MatchPattern(p: Pattern, line: string): (r: Option<seq<string>>)
    ensures r.Some? ==> |r.value| == GroupCount && r.value[0] == line
  {
    LongestSplit(TailOf(p), line, FileRun(line))
  }

  // ---------------------------------------------------------------------
  // The deterministic matchers agree with the grammar.
  // ---------------------------------------------------------------------

  /** A digit run followed by a non-digit is measured exactly. */
  lemma {:induction false} DigitRunOf(d: string, t: string)
    requires forall i | 0 <= i < |d| :: IsDigit(d[i])
    requires |t| == 0 || !IsDigit(t[0])
    ensures DigitRun(d + t) == |d|
  {
    if |d| > 0 {
      assert (d + t)[0] == d[0];
      assert (d + t)[1..] == d[1..] + t;
      DigitRunOf(d[1..], t);
    } else {
      assert d + t == t;
    }
  }

  /** `':' ([0-9]+) ':'` accepts exactly a ':', a non-empty digit run and a ':', and splits there. */
  lemma LineNumberFieldIff(s: string, lineNo: string, rest: string)
    ensures LineNumberField(s) == Some((lineNo, rest)) <==> IsDigits(lineNo) && s == ":" + lineNo + ":" + rest
  {
    if LineNumberField(s) == Some((lineNo, rest)) {
      var n := DigitRun(s[1..]);
      assert s == [s[0]] + s[1..n + 1] + [s[n + 1]] + s[n + 2..];
    }
    if IsDigits(lineNo) && s == ":" + lineNo + ":" + rest {
      assert s[1..] == lineNo + (":" + rest);
      DigitRunOf(lineNo, ":" + rest);
      assert s[1..|lineNo| + 1] == lineNo;
      assert s[|lineNo| + 1] == ':';
      assert s[|lineNo| + 2..] == rest;
    }
  }

  /** The message matcher of each pattern accepts exactly what the grammar allows. */
  lemma MatchRestIff(p: Pattern, rest: string, message: string)
    ensures MatchRest(p, rest) == Some(message) <==> RestShape(p, rest, message)
  {
    match p
    case FileLineWarning =>
      if MatchRest(p, rest) == Some(message) {
        assert rest == [rest[0]] + message;
      }
    case FileLine =>
      if MatchRest(p, rest) == Some(message) {
        assert rest == [rest[0]] + message;
      }
    case FileLineColumn =>
      if MatchRest(p, rest) == Some(message) {
        var c := DigitRun(rest);
        assert rest == rest[..c] + ":" + [rest[c + 1]] + message;
        assert IsDigits(rest[..c]);
      }
      if RestShape(p, rest, message) {
        var column, b :| IsDigits(column) && IsBlank(b) && rest == column + ":" + [b] + message;
        assert rest == column + (":" + [b] + message);
        DigitRunOf(column, ":" + [b] + message);
        assert rest[|column| + 2..] == message;
      }
  }

  /** What the tail matcher accepts, in terms of the grammar. */
  lemma MatchTailIff(p: Pattern, s: string, lineNo: string, message: string)
    ensures MatchTail(p, s) == Some(Fields(lineNo, message)) <==>
              IsDigits(lineNo) && exists rest :: s == ":" + lineNo + ":" + rest && RestShape(p, rest, message)
  {
    if MatchTail(p, s) == Some(Fields(lineNo, message)) {
      var rest := LineNumberField(s).value.1;
      LineNumberFieldIff(s, lineNo, rest);
      MatchRestIff(p, rest, message);
    }
    if IsDigits(lineNo) && exists rest :: s == ":" + lineNo + ":" + rest && RestShape(p, rest, message) {
      var rest :| s == ":" + lineNo + ":" + rest && RestShape(p, rest, message);
      LineNumberFieldIff(s, lineNo, rest);
      MatchRestIff(p, rest, message);
    }
  }

  /** Every successful tail starts with a ':' followed by a digit. */
  lemma MatchTailStart(p: Pattern, s: string)
    requires MatchTail(p, s).Some?
    ensures ColonDigitAt(s, 0)
  {
    assert DigitRun(s[1..]) > 0;
  }

  // ---------------------------------------------------------------------
  // A decomposition is a file-name prefix followed by a matching tail.
  // ---------------------------------------------------------------------

  /** A decomposition puts the file name first and leaves a tail the tail matcher accepts. */
  lemma ShapeSplitOnly(p: Pattern, line: string, file: string, lineNo: string, message: string)
    requires Shape(p, line, file, lineNo, message)
    ensures |file| <= |line| && line[..|file|] == file
    ensures MatchTail(p, line[|file|..]) == Some(Fields(lineNo, message))
  {
    var rest :| line == file + ":" + lineNo + ":" + rest && RestShape(p, rest, message);
    assert line == file + (":" + lineNo + ":" + rest);
    assert line[|file|..] == ":" + lineNo + ":" + rest;
    MatchTailIff(p, line[|file|..], lineNo, message);
  }

  /** A file-name prefix followed by a tail the tail matcher accepts is a decomposition. */
  lemma ShapeSplitIf(p: Pattern, line: string, file: string, lineNo: string, message: string)
    requires IsFileName(file) && |file| <= |line| && line[..|file|] == file
    requires MatchTail(p, line[|file|..]) == Some(Fields(lineNo, message))
    ensures Shape(p, line, file, lineNo, message)
  {
    var s := line[|file|..];
    MatchTailIff(p, s, lineNo, message);
    var rest :| s == ":" + lineNo + ":" + rest && RestShape(p, rest, message);
    assert line == file + s;
    ConcatAssoc(file, ":", lineNo, ":", rest);
  }

  /** Regrouping a concatenation of five strings. */
  lemma ConcatAssoc(a: string, b: string, c: string, d: string, e: string)
    ensures a + (b + c + d + e) == a + b + c + d + e
  {
  }

  /** A decomposition is a file-name prefix followed by a tail the tail matcher accepts. */
  lemma ShapeSplit(p: Pattern, line: string, file: string, lineNo: string, message: string)
    ensures Shape(p, line, file, lineNo, message) <==>
              && IsFileName(file) && |file| <= |line| && line[..|file|] == file
              && MatchTail(p, line[|file|..]) == Some(Fields(lineNo, message))
  {
    if Shape(p, line, file, lineNo, message) {
      ShapeSplitOnly(p, line, file, lineNo, message);
    }
    if && IsFileName(file) && |file| <= |line| && line[..|file|] == file
       && MatchTail(p, line[|file|..]) == Some(Fields(lineNo, message))
    {
      ShapeSplitIf(p, line, file, lineNo, message);
    }
  }

  /**
   * A shape rebuilds the line: `file:lineNo:<blank>message`, or
   * `file:lineNo:column:<blank>message` for the pattern with a column.
   */
  lemma ShapeReconstruction(p: Pattern, line: string, file: string, lineNo: string, message: string)
    ensures Shape(p, line, file, lineNo, message) && p != FileLineColumn ==>
              exists b | IsBlank(b) :: line == file + ":" + lineNo + ":" + [b] + message
    ensures Shape(p, line, file, lineNo, message) && p == FileLineColumn ==>
              exists column, b | IsDigits(column) && IsBlank(b) ::
                line == file + ":" + lineNo + ":" + column + ":" + [b] + message
  {
    if Shape(p, line, file, lineNo, message) {
      var rest :| line == file + ":" + lineNo + ":" + rest && RestShape(p, rest, message);
      if p == FileLineColumn {
        var column, b :| IsDigits(column) && IsBlank(b) && rest == column + ":" + [b] + message;
        ConcatAssoc(file + ":" + lineNo + ":", column, ":", [b], message);
      } else {
        var b :| IsBlank(b) && rest == [b] + message;
        assert line == file + ":" + lineNo + ":" + [b] + message;
      }
    }
  }

  /** Given where the file name ends, the other two captures are determined. */
  lemma ShapeUnique(p: Pattern, line: string, file: string, l1: string, m1: string, l2: string, m2: string)
    requires Shape(p, line, file, l1, m1) && Shape(p, line, file, l2, m2)
    ensures l1 == l2 && m1 == m2
  {
    ShapeSplit(p, line, file, l1, m1);
    ShapeSplit(p, line, file, l2, m2);
  }

  /** Two greedy captures of the same line are the same captures. */
  lemma GreedyCaptureUnique(p: Pattern, line: string, f1: string, l1: string, m1: string, f2: string, l2: string, m2: string)
    requires GreedyCapture(p, line, f1, l1, m1) && GreedyCapture(p, line, f2, l2, m2)
    ensures f1 == f2 && l1 == l2 && m1 == m2
  {
    ShapeSplit(p, line, f1, l1, m1);
    ShapeSplit(p, line, f2, l2, m2);
    assert |f1| == |f2|;
    ShapeUnique(p, line, f1, l1, m1, l2, m2);
  }

  /** The file name of every decomposition ends at a ':' that a digit follows. */
  lemma ShapeEndsAtColonDigit(p: Pattern, line: string, file: string, lineNo: string, message: string)
    requires Shape(p, line, file, lineNo, message)
    ensures ColonDigitAt(line, |file|)
  {
    ShapeSplit(p, line, file, lineNo, message);
    MatchTailStart(p, line[|file|..]);
  }

  // ---------------------------------------------------------------------
  // The backtracking search finds the greedy capture.
  // ---------------------------------------------------------------------

  /** What the search returns is a split whose tail matches. */
  lemma {:induction false} LongestSplitSound(tail: string -> Option<Fields>, line: string, k: nat, g: seq<string>)
    requires k <= |line| && LongestSplit(tail, line, k) == Some(g)
    ensures 0 < |g[1]| <= k && g[1] == line[..|g[1]|] && tail(line[|g[1]|..]) == Some(Fields(g[2], g[3]))
  {
    if tail(line[k..]).None? {
      LongestSplitSound(tail, line, k - 1, g);
    }
  }

  /** The search does not stop before a split whose tail matches. */
  lemma {:induction false} LongestSplitComplete(tail: string -> Option<Fields>, line: string, k: nat, j: nat)
    requires 0 < j <= k <= |line| && tail(line[j..]).Some?
    ensures LongestSplit(tail, line, k).Some? && j <= |LongestSplit(tail, line, k).value[1]|
  {
    if k > j && tail(line[k..]).None? {
      LongestSplitComplete(tail, line, k - 1, j);
    }
  }

  /**
   * `MatchPattern` is the greedy capture: it succeeds exactly when the
   * pattern matches, and then returns the decomposition with the longest
   * file name (which `GreedyCaptureUnique` shows to be unique).
   */
  lemma MatchPatternSpec(p: Pattern, line: string)
    ensures MatchPattern(p, line).Some? <==> Matches(p, line)
    ensures MatchPattern(p, line).Some? ==>
              var g := MatchPattern(p, line).value; GreedyCapture(p, line, g[1], g[2], g[3])
  {
    var k := FileRun(line);
    forall f, l, m | Shape(p, line, f, l, m)
      ensures MatchPattern(p, line).Some? && |f| <= |MatchPattern(p, line).value[1]|
    {
      ShapeSplitOnly(p, line, f, l, m);
      LongestSplitComplete(TailOf(p), line, k, |f|);
    }
    if MatchPattern(p, line).Some? {
      var g := MatchPattern(p, line).value;
      LongestSplitSound(TailOf(p), line, k, g);
      ShapeSplitIf(p, line, g[1], g[2], g[3]);
    }
  }

  // ---------------------------------------------------------------------
  // Tools for computing the result on lines of a known form.
  // ---------------------------------------------------------------------

  /** The search stops at the last split whose tail matches. */
  lemma {:induction false} LongestSplitAt(tail: string -> Option<Fields>, line: string, k: nat, j: nat, f: Fields)
    requires 0 < j <= k <= |line| && tail(line[j..]) == Some(f)
    requires forall i | j < i <= k :: tail(line[i..]).None?
    ensures LongestSplit(tail, line, k) == Some([line, line[..j], f.lineNo, f.message])
  {
    if k > j {
      LongestSplitAt(tail, line, k - 1, j, f);
    }
  }

  /** The search fails when no split's tail matches. */
  lemma {:induction false} LongestSplitNone(tail: string -> Option<Fields>, line: string, k: nat)
    requires k <= |line|
    requires forall i | 0 < i <= k :: tail(line[i..]).None?
    ensures LongestSplit(tail, line, k).None?
  {
    if k > 0 {
      LongestSplitNone(tail, line, k - 1);
    }
  }

  /**
   * When the tail after `line[..j]` matches and no later split does, the
   * match captures `line[..j]` as the file name.
   */
  lemma CaptureAt(p: Pattern, line: string, j: nat, f: Fields)
    requires 0 < j <= |line| && IsFileName(line[..j])
    requires MatchTail(p, line[j..]) == Some(f)
    requires forall i | j < i <= |line| :: MatchTail(p, line[i..]).None?
    ensures MatchPattern(p, line) == Some([line, line[..j], f.lineNo, f.message])
  {
    assert forall i | 0 <= i < j :: line[..j][i] == line[i];
    FileRunCovers(line, j);
    LongestSplitAt(TailOf(p), line, FileRun(line), j, f);
  }

  /** The run of file characters at the start of a line covers every prefix of file characters. */
  lemma {:induction false} FileRunCovers(line: string, j: nat)
    requires j <= |line| && forall i | 0 <= i < j :: IsFileChar(line[i])
    ensures j <= FileRun(line)
  {
    if j > 0 {
      assert IsFileChar(line[0]);
      FileRunCovers(line[1..], j - 1);
    }
  }

  /** When no split's tail matches, the pattern does not match. */
  lemma NoCapture(p: Pattern, line: string)
    requires forall i | 0 < i <= |line| :: MatchTail(p, line[i..]).None?
    ensures MatchPattern(p, line).None?
  {
    LongestSplitNone(TailOf(p), line, FileRun(line));
  }

  /** A split whose tail matches ends the file name at a ':' that a digit follows. */
  lemma TailAtColonDigit(p: Pattern, line: string, i: nat)
    requires i <= |line| && MatchTail(p, line[i..]).Some?
    ensures ColonDigitAt(line, i)
  {
    MatchTailStart(p, line[i..]);
    assert line[i..][0] == line[i] && line[i..][1] == line[i + 1];
  }

  // ---------------------------------------------------------------------
  // The captures on the two line forms compilers print.
  // ---------------------------------------------------------------------

  /** In `file:lineNo:<b>message`, no ':' after the file name is followed by a digit. */
  lemma ColonDigitsAfterPlainFile(file: string, lineNo: string, b: char, message: string)
    requires IsDigits(lineNo) && IsBlank(b) && NoColonDigit(message)
    ensures var line := file + ":" + lineNo + ":" + [b] + message;
      forall j | |file| < j < |line| :: !ColonDigitAt(line, j)
  {
    var line := file + ":" + lineNo + ":" + [b] + message;
    var a, o := |file|, |file| + |lineNo| + 3;
    forall j | a < j < |line| - 1 ensures !ColonDigitAt(line, j) {
      if j <= a + |lineNo| {
        assert line[j] == lineNo[j - a - 1];
      } else if j == a + |lineNo| + 1 {
        assert line[j + 1] == b;
      } else if j == a + |lineNo| + 2 {
        assert line[j] == b;
      } else {
        assert line[j] == message[j - o] && line[j + 1] == message[j - o + 1];
        assert !ColonDigitAt(message, j - o);
      }
    }
  }

  /**
   * In `file:lineNo:column:<b>message`, the only ':' after the file name that
   * a digit follows is the one after the line number.
   */
  lemma ColonDigitsAfterColumnFile(file: string, lineNo: string, column: string, b: char, message: string)
    requires IsDigits(lineNo) && IsDigits(column) && IsBlank(b) && NoColonDigit(message)
    ensures var line := file + ":" + lineNo + ":" + column + ":" + [b] + message;
      forall j | |file| < j < |line| && j != |file| + |lineNo| + 1 :: !ColonDigitAt(line, j)
  {
    var line := file + ":" + lineNo + ":" + column + ":" + [b] + message;
    var a, c, o := |file|, |file| + |lineNo| + 2, |file| + |lineNo| + |column| + 4;
    forall j | a < j < |line| - 1 && j != a + |lineNo| + 1 ensures !ColonDigitAt(line, j) {
      if j <= a + |lineNo| {
        assert line[j] == lineNo[j - a - 1];
      } else if j < c + |column| {
        assert line[j] == column[j - c];
      } else if j == c + |column| {
        assert line[j + 1] == b;
      } else if j == c + |column| + 1 {
        assert line[j] == b;
      } else {
        assert line[j] == message[j - o] && line[j + 1] == message[j - o + 1];
        assert !ColonDigitAt(message, j - o);
      }
    }
  }

  /** Inside a file name that a ':' follows, only the ':' characters of the file name itself can precede a digit. */
  lemma ColonDigitsInFile(file: string, line: string)
    requires NoColonDigit(file) && |file| < |line| && line[..|file|] == file && line[|file|] == ':'
    ensures forall j | 0 <= j < |file| :: !ColonDigitAt(line, j)
  {
    forall j | 0 <= j < |file| ensures !ColonDigitAt(line, j) {
      assert line[j] == line[..|file|][j];
      if j + 1 < |file| {
        assert line[j + 1] == line[..|file|][j + 1];
        assert !ColonDigitAt(file, j);
      }
    }
  }

  /** In `file:lineNo:<b>message`, the only ':' followed by a digit is the one after the file name. */
  lemma ColonDigitsOfPlainLine(file: string, lineNo: string, b: char, message: string)
    requires NoColonDigit(file) && IsDigits(lineNo) && IsBlank(b) && NoColonDigit(message)
    ensures forall j :: ColonDigitAt(file + ":" + lineNo + ":" + [b] + message, j) ==> j == |file|
  {
    var line := file + ":" + lineNo + ":" + [b] + message;
    ColonDigitsAfterPlainFile(file, lineNo, b, message);
    PlainLineSlices(file, lineNo, b, message);
    ColonDigitsInFile(file, line);
  }

  /**
   * In `file:lineNo:column:<b>message`, the only ':' followed by a digit are
   * the ones after the file name and after the line number.
   */
  lemma ColonDigitsOfColumnLine(file: string, lineNo: string, column: string, b: char, message: string)
    requires NoColonDigit(file) && IsDigits(lineNo) && IsDigits(column) && IsBlank(b) && NoColonDigit(message)
    ensures forall j :: ColonDigitAt(file + ":" + lineNo + ":" + column + ":" + [b] + message, j) ==>
                          j == |file| || j == |file| + |lineNo| + 1
  {
    var line := file + ":" + lineNo + ":" + column + ":" + [b] + message;
    ColonDigitsAfterColumnFile(file, lineNo, column, b, message);
    ColumnLineSlices(file, lineNo, column, b, message);
    ColonDigitsInFile(file, line);
  }

  /** A string with at most one character, or without ':', has no ':' followed by a digit. */
  lemma NoColonNoColonDigit(s: string)
    requires |s| <= 1 || ':' !in s
    ensures NoColonDigit(s)
  {
    forall j | 0 <= j < |s| ensures !ColonDigitAt(s, j) {
      if |s| > 1 {
        assert s[j] in s;
      }
    }
  }

  /** Joining two strings without a ':' followed by a digit creates none at the seam unless one is put there. */
  lemma NoColonDigitAppend(a: string, c: string)
    requires NoColonDigit(a) && NoColonDigit(c)
    requires |a| == 0 || |c| == 0 || a[|a| - 1] != ':' || !IsDigit(c[0])
    ensures NoColonDigit(a + c)
  {
    forall j | 0 <= j < |a + c| ensures !ColonDigitAt(a + c, j) {
      if j < |a| - 1 {
        assert !ColonDigitAt(a, j);
      } else if j >= |a| {
        assert !ColonDigitAt(c, j - |a|);
      }
    }
  }

  /** Splits other than at a ':' followed by a digit never match. */
  lemma SplitsOnlyAt(line: string, allowed: set<nat>)
    requires forall j | 0 <= j < |line| :: ColonDigitAt(line, j) ==> j in allowed
    ensures forall p: Pattern, i | 0 < i <= |line| && i !in allowed :: MatchTail(p, line[i..]).None?
  {
    forall p: Pattern, i | 0 < i <= |line| && i !in allowed ensures MatchTail(p, line[i..]).None? {
      if MatchTail(p, line[i..]).Some? {
        TailAtColonDigit(p, line, i);
      }
    }
  }

  /** The three patterns on what follows `FILE ':' DIGITS ':'` in a line with no column. */
  lemma RestOfPlainLine(b: char, message: string)
    requires IsBlank(b)
    ensures MatchRest(FileLineWarning, [b] + message) == if IsWarningMessage(message) then Some(message) else None
    ensures MatchRest(FileLineColumn, [b] + message) == None
    ensures MatchRest(FileLine, [b] + message) == Some(message)
  {
    assert ([b] + message)[0] == b && ([b] + message)[1..] == message;
  }

  /** The column rule on what follows `FILE ':' DIGITS ':'` in a line with a column. */
  lemma RestOfColumnLine(column: string, b: char, message: string)
    requires IsDigits(column) && IsBlank(b)
    ensures MatchRest(FileLineWarning, column + ":" + [b] + message) == None
    ensures MatchRest(FileLineColumn, column + ":" + [b] + message) == Some(message)
    ensures MatchRest(FileLine, column + ":" + [b] + message) == None
  {
    var rest := column + ":" + [b] + message;
    assert rest[0] == column[0];
    assert rest == column + (":" + [b] + message);
    DigitRunOf(column, ":" + [b] + message);
    assert rest[|column| + 2..] == message;
  }

  /** `file:lineNo:<b>text` is itself a file name when `text` is one, since the class holds ':', the digits and the blanks. */
  lemma FileNameThroughLineNumber(file: string, lineNo: string, b: char, text: string)
    requires IsFileName(file) && IsDigits(lineNo) && IsBlank(b) && IsFileName(text)
    ensures IsFileName(file + ":" + lineNo + ":" + [b] + text)
  {
    var h := file + ":" + lineNo + ":" + [b] + text;
    var t := |file| + |lineNo| + 3;
    forall i | 0 <= i < |h| ensures IsFileChar(h[i]) {
      if i < |file| {
        assert h[i] == file[i];
      } else if |file| < i <= |file| + |lineNo| {
        assert h[i] == lineNo[i - |file| - 1];
      } else if i >= t {
        assert h[i] == text[i - t];
      }
    }
  }

  /** Whatever follows a warning message, the whole is still a warning message. */
  lemma WarningMessageExtend(m: string, t: string)
    requires IsWarningMessage(m)
    ensures IsWarningMessage(m + t)
  {
    assert (m + t)[1..8] == m[1..8];
  }

  /** `file:lineNo:<b>message` decomposes under the warning rule and under the rule without a column. */
  lemma ShapeOfWarningLine(file: string, lineNo: string, b: char, message: string)
    requires IsFileName(file) && IsDigits(lineNo) && IsBlank(b) && IsWarningMessage(message)
    ensures Shape(FileLineWarning, file + ":" + lineNo + ":" + [b] + message, file, lineNo, message)
    ensures Shape(FileLine, file + ":" + lineNo + ":" + [b] + message, file, lineNo, message)
  {
    var rest := [b] + message;
    assert file + ":" + lineNo + ":" + [b] + message == file + ":" + lineNo + ":" + rest;
    assert RestShape(FileLineWarning, rest, message) && RestShape(FileLine, rest, message);
  }

  /**
   * `file:lineNo:<b>text:lineNo2:<b2>message` read with the first segment:
   * a warning message `text` followed by anything is a warning message, and
   * `file:lineNo:<b>text` is a file name when `text` is made of file-name
   * characters.
   */
  lemma TwoSegments(file: string, lineNo: string, b: char, text: string, lineNo2: string, b2: char, message: string)
    requires IsFileName(file) && IsDigits(lineNo) && IsBlank(b) && IsWarningMessage(text)
    ensures var head := file + ":" + lineNo + ":" + [b] + text;
      var first := text + ":" + lineNo2 + ":" + [b2] + message;
      && head + ":" + lineNo2 + ":" + [b2] + message == file + ":" + lineNo + ":" + [b] + first
      && IsWarningMessage(first)
      && (IsFileName(text) ==> IsFileName(head))
  {
    var first := text + ":" + lineNo2 + ":" + [b2] + message;
    ConcatAssoc(file + ":" + lineNo + ":" + [b], text, ":", lineNo2, ":" + [b2] + message);
    WarningMessageExtend(text, ":" + lineNo2 + ":" + [b2] + message);
    assert first == text + (":" + lineNo2 + ":" + [b2] + message);
    if IsFileName(text) {
      FileNameThroughLineNumber(file, lineNo, b, text);
    }
  }

  /** `file:lineNo` is itself a file name, since the class holds ':' and the digits. */
  lemma FileNameWithLineNumber(file: string, lineNo: string, tail: string)
    requires IsFileName(file) && IsDigits(lineNo)
    ensures var line := file + ":" + lineNo + tail;
      line[..|file| + |lineNo| + 1] == file + ":" + lineNo && IsFileName(line[..|file| + |lineNo| + 1])
  {
    var f := file + ":" + lineNo;
    forall i | 0 <= i < |f| ensures IsFileChar(f[i]) {
      if i > |file| {
        assert f[i] == lineNo[i - |file| - 1];
      }
    }
    assert (f + tail)[..|f|] == f;
  }

  /** In `file:lineNo:column:<b>message`, `file:lineNo` is a possible file name. */
  lemma ColumnLineFilePrefix(file: string, lineNo: string, column: string, b: char, message: string)
    requires IsFileName(file) && IsDigits(lineNo)
    ensures var line := file + ":" + lineNo + ":" + column + ":" + [b] + message;
      IsFileName(line[..|file| + |lineNo| + 1])
  {
    var line := file + ":" + lineNo + ":" + column + ":" + [b] + message;
    FileNameWithLineNumber(file, lineNo, ":" + column + ":" + [b] + message);
    assert line == file + ":" + lineNo + (":" + column + ":" + [b] + message);
  }

  /**
   * The three patterns on `file:lineNo:<b>message`, for a file name and a
   * message in neither of which a ':' is followed by a digit.
   */
  lemma PlainLineCaptures(file: string, lineNo: string, b: char, message: string)
    requires IsFileName(file) && NoColonDigit(file) && IsDigits(lineNo) && IsBlank(b) && NoColonDigit(message)
    ensures var line := file + ":" + lineNo + ":" + [b] + message;
      && MatchPattern(FileLineWarning, line)
         == (if IsWarningMessage(message) then Some([line, file, lineNo, message]) else None)
      && MatchPattern(FileLineColumn, line) == None
      && MatchPattern(FileLine, line) == Some([line, file, lineNo, message])
  {
    PlainLineCapture(FileLineWarning, file, lineNo, b, message);
    PlainLineCapture(FileLineColumn, file, lineNo, b, message);
    PlainLineCapture(FileLine, file, lineNo, b, message);
    TailsOfPlainLine(lineNo, b, message);
  }

  /** One pattern on `file:lineNo:<b>message`, in terms of its only candidate tail. */
  lemma PlainLineCapture(p: Pattern, file: string, lineNo: string, b: char, message: string)
    requires IsFileName(file) && NoColonDigit(file) && IsDigits(lineNo) && IsBlank(b) && NoColonDigit(message)
    ensures var line := file + ":" + lineNo + ":" + [b] + message;
      var tail := ":" + lineNo + ":" + [b] + message;
      MatchPattern(p, line)
      == if MatchTail(p, tail).Some? then
           Some([line, file, MatchTail(p, tail).value.lineNo, MatchTail(p, tail).value.message])
         else None
  {
    var line := file + ":" + lineNo + ":" + [b] + message;
    var tail := ":" + lineNo + ":" + [b] + message;
    ColonDigitsOfPlainLine(file, lineNo, b, message);
    SplitsOnlyAt(line, {|file|});
    PlainLineSlices(file, lineNo, b, message);
    CaptureOfOneSplit(p, line, |file|, file, tail);
  }

  /** Where the file-name candidate of `file:lineNo:<b>message` ends. */
  lemma PlainLineSlices(file: string, lineNo: string, b: char, message: string)
    ensures var line := file + ":" + lineNo + ":" + [b] + message;
      && line[..|file|] == file
      && line[|file|..] == ":" + lineNo + ":" + [b] + message
  {
    var line := file + ":" + lineNo + ":" + [b] + message;
    assert line == file + (":" + lineNo + ":" + [b] + message);
  }

  /** On a line where only the split at `a` can match, the pattern matches exactly when that tail does. */
  lemma CaptureOfOneSplit(p: Pattern, line: string, a: nat, file: string, tail: string)
    requires 0 < a <= |line| && line[..a] == file && IsFileName(file) && line[a..] == tail
    requires forall q: Pattern, i | 0 < i <= |line| && i != a :: MatchTail(q, line[i..]).None?
    ensures MatchPattern(p, line)
         == if MatchTail(p, tail).Some? then
              Some([line, file, MatchTail(p, tail).value.lineNo, MatchTail(p, tail).value.message])
            else None
  {
    if MatchTail(p, tail).Some? {
      CaptureAt(p, line, a, MatchTail(p, tail).value);
    } else {
      NoCapture(p, line);
    }
  }

  /** In `file:lineNo:column:<b>message`, no split but the two ':'-digit positions matches. */
  lemma ColumnLineOtherSplits(file: string, lineNo: string, column: string, b: char, message: string)
    requires NoColonDigit(file) && IsDigits(lineNo) && IsDigits(column) && IsBlank(b) && NoColonDigit(message)
    ensures var line := file + ":" + lineNo + ":" + column + ":" + [b] + message;
      forall p: Pattern, i | 0 < i <= |line| && i != |file| && i != |file| + |lineNo| + 1 ::
        MatchTail(p, line[i..]).None?
  {
    var line := file + ":" + lineNo + ":" + column + ":" + [b] + message;
    ColonDigitsOfColumnLine(file, lineNo, column, b, message);
    SplitsOnlyAt(line, {|file|, |file| + |lineNo| + 1});
  }

  /** Where the two file-name candidates of `file:lineNo:column:<b>message` end. */
  lemma ColumnLineSlices(file: string, lineNo: string, column: string, b: char, message: string)
    ensures var line := file + ":" + lineNo + ":" + column + ":" + [b] + message;
      && line[..|file|] == file
      && line[..|file| + |lineNo| + 1] == file + ":" + lineNo
      && line[|file|..] == ":" + lineNo + ":" + column + ":" + [b] + message
      && line[|file| + |lineNo| + 1..] == ":" + column + ":" + [b] + message
  {
    var line := file + ":" + lineNo + ":" + column + ":" + [b] + message;
    assert line == file + (":" + lineNo + ":" + column + ":" + [b] + message);
    assert line == (file + ":" + lineNo) + (":" + column + ":" + [b] + message);
  }

  /** The three patterns on what follows a file name when two numbers come next. */
  lemma TailsOfColumnLine(lineNo: string, column: string, b: char, message: string)
    requires IsDigits(lineNo) && IsDigits(column) && IsBlank(b)
    ensures var tail := ":" + lineNo + ":" + column + ":" + [b] + message;
      && MatchTail(FileLineWarning, tail).None?
      && MatchTail(FileLineColumn, tail) == Some(Fields(lineNo, message))
      && MatchTail(FileLine, tail).None?
  {
    var rest := column + ":" + [b] + message;
    LineNumberFieldIff(":" + lineNo + ":" + column + ":" + [b] + message, lineNo, rest);
    assert ":" + lineNo + ":" + column + ":" + [b] + message == ":" + lineNo + ":" + rest;
    RestOfColumnLine(column, b, message);
  }

  /** The three patterns on what follows a file name when one number comes next. */
  lemma TailsOfPlainLine(lineNo: string, b: char, message: string)
    requires IsDigits(lineNo) && IsBlank(b)
    ensures var tail := ":" + lineNo + ":" + [b] + message;
      && MatchTail(FileLineWarning, tail)
         == (if IsWarningMessage(message) then Some(Fields(lineNo, message)) else None)
      && MatchTail(FileLineColumn, tail).None?
      && MatchTail(FileLine, tail) == Some(Fields(lineNo, message))
  {
    LineNumberFieldIff(":" + lineNo + ":" + [b] + message, lineNo, [b] + message);
    assert ":" + lineNo + ":" + [b] + message == ":" + lineNo + ":" + ([b] + message);
    RestOfPlainLine(b, message);
  }

  /**
   * On a line where only the splits at `a` and `a2` can match, the later
   * split wins when its tail matches, the earlier one otherwise.
   */
  lemma CaptureOfTwoSplits(p: Pattern, line: string, a: nat, a2: nat, file1: string, file2: string,
                           tail1: string, tail2: string)
    requires 0 < a < a2 <= |line| && line[..a] == file1 && line[..a2] == file2 && IsFileName(file2)
    requires line[a..] == tail1 && line[a2..] == tail2
    requires forall q: Pattern, i | 0 < i <= |line| && i != a && i != a2 :: MatchTail(q, line[i..]).None?
    ensures MatchPattern(p, line)
         == if MatchTail(p, tail2).Some? then
              Some([line, file2, MatchTail(p, tail2).value.lineNo, MatchTail(p, tail2).value.message])
            else if MatchTail(p, tail1).Some? then
              Some([line, file1, MatchTail(p, tail1).value.lineNo, MatchTail(p, tail1).value.message])
            else None
  {
    if MatchTail(p, tail2).Some? {
      CaptureAt(p, line, a2, MatchTail(p, tail2).value);
    } else if MatchTail(p, tail1).Some? {
      assert line[..a] == file2[..a];
      CaptureAt(p, line, a, MatchTail(p, tail1).value);
    } else {
      NoCapture(p, line);
    }
  }

  /**
   * The three patterns on `file:lineNo:column:<b>message`, for a file name
   * and a message in neither of which a ':' is followed by a digit.
   */
  lemma ColumnLineCaptures(file: string, lineNo: string, column: string, b: char, message: string)
    requires IsFileName(file) && NoColonDigit(file) && IsDigits(lineNo) && IsDigits(column) && IsBlank(b)
    requires NoColonDigit(message)
    ensures var line := file + ":" + lineNo + ":" + column + ":" + [b] + message;
      && MatchPattern(FileLineWarning, line)
         == (if IsWarningMessage(message) then Some([line, file + ":" + lineNo, column, message]) else None)
      && MatchPattern(FileLineColumn, line) == Some([line, file, lineNo, message])
      && MatchPattern(FileLine, line) == Some([line, file + ":" + lineNo, column, message])
  {
    ColumnLineCapture(FileLineWarning, file, lineNo, column, b, message);
    ColumnLineCapture(FileLineColumn, file, lineNo, column, b, message);
    ColumnLineCapture(FileLine, file, lineNo, column, b, message);
    TailsOfColumnLine(lineNo, column, b, message);
    TailsOfPlainLine(column, b, message);
  }

  /** One pattern on `file:lineNo:column:<b>message`, in terms of its two candidate tails. */
  lemma ColumnLineCapture(p: Pattern, file: string, lineNo: string, column: string, b: char, message: string)
    requires IsFileName(file) && NoColonDigit(file) && IsDigits(lineNo) && IsDigits(column) && IsBlank(b)
    requires NoColonDigit(message)
    ensures var line := file + ":" + lineNo + ":" + column + ":" + [b] + message;
      var tail1 := ":" + lineNo + ":" + column + ":" + [b] + message;
      var tail2 := ":" + column + ":" + [b] + message;
      MatchPattern(p, line)
      == if MatchTail(p, tail2).Some? then
           Some([line, file + ":" + lineNo, MatchTail(p, tail2).value.lineNo, MatchTail(p, tail2).value.message])
         else if MatchTail(p, tail1).Some? then
           Some([line, file, MatchTail(p, tail1).value.lineNo, MatchTail(p, tail1).value.message])
         else None
  {
    var line := file + ":" + lineNo + ":" + column + ":" + [b] + message;
    var tail1 := ":" + lineNo + ":" + column + ":" + [b] + message;
    var tail2 := ":" + column + ":" + [b] + message;
    ColumnLineSlices(file, lineNo, column, b, message);
    ColumnLineOtherSplits(file, lineNo, column, b, message);
    ColumnLineFilePrefix(file, lineNo, column, b, message);
    CaptureOfTwoSplits(p, line, |file|, |file| + |lineNo| + 1, file, file + ":" + lineNo, tail1, tail2);
  }

  // ---------------------------------------------------------------------
  // The longest split, whatever the file name holds.
  // ---------------------------------------------------------------------

  /**
   * When no ':' after position `a` is followed by a digit, except perhaps at
   * `except`, no split after `a` other than `except` matches.
   */
  lemma LaterSplitsFail(line: string, a: nat, except: nat)
    requires forall j | a < j < |line| && j != except :: !ColonDigitAt(line, j)
    ensures forall p: Pattern, i | a < i <= |line| && i != except :: MatchTail(p, line[i..]).None?
  {
    forall p: Pattern, i | a < i <= |line| && i != except ensures MatchTail(p, line[i..]).None? {
      if MatchTail(p, line[i..]).Some? {
        TailAtColonDigit(p, line, i);
      }
    }
  }

  /**
   * On `file:lineNo:<b>message` with no ':' followed by a digit in the
   * message, the split after `file` is the last that can match, whatever
   * ':' characters the file name holds: the rule without a column captures
   * (file, lineNo, message), and so does the warning rule when the message
   * is a warning message.
   */
  lemma PlainLineLastSplit(file: string, lineNo: string, b: char, message: string)
    requires IsFileName(file) && IsDigits(lineNo) && IsBlank(b) && NoColonDigit(message)
    ensures var line := file + ":" + lineNo + ":" + [b] + message;
      && MatchPattern(FileLine, line) == Some([line, file, lineNo, message])
      && (IsWarningMessage(message) ==> MatchPattern(FileLineWarning, line) == Some([line, file, lineNo, message]))
  {
    var line := file + ":" + lineNo + ":" + [b] + message;
    ColonDigitsAfterPlainFile(file, lineNo, b, message);
    LaterSplitsFail(line, |file|, |file|);
    PlainLineSlices(file, lineNo, b, message);
    TailsOfPlainLine(lineNo, b, message);
    CaptureAt(FileLine, line, |file|, Fields(lineNo, message));
    if IsWarningMessage(message) {
      CaptureAt(FileLineWarning, line, |file|, Fields(lineNo, message));
    }
  }

  /**
   * On `file:lineNo:column:<b>message` with no ':' followed by a digit in
   * the message, whatever ':' characters the file name holds: the column
   * rule captures (file, lineNo, message), while the rule without a column
   * captures (`file:lineNo`, column, message), and so does the warning rule
   * when the message is a warning message.
   */
  lemma ColumnLineLastSplits(file: string, lineNo: string, column: string, b: char, message: string)
    requires IsFileName(file) && IsDigits(lineNo) && IsDigits(column) && IsBlank(b) && NoColonDigit(message)
    ensures var line := file + ":" + lineNo + ":" + column + ":" + [b] + message;
      && MatchPattern(FileLineColumn, line) == Some([line, file, lineNo, message])
      && MatchPattern(FileLine, line) == Some([line, file + ":" + lineNo, column, message])
      && (IsWarningMessage(message) ==>
            MatchPattern(FileLineWarning, line) == Some([line, file + ":" + lineNo, column, message]))
  {
    ColumnLineLastSplit(FileLineWarning, file, lineNo, column, b, message);
    ColumnLineLastSplit(FileLineColumn, file, lineNo, column, b, message);
    ColumnLineLastSplit(FileLine, file, lineNo, column, b, message);
    TailsOfColumnLine(lineNo, column, b, message);
    TailsOfPlainLine(column, b, message);
  }

  /**
   * One pattern on `file:lineNo:column:<b>message`: the split after
   * `file:lineNo` wins when its tail matches, and the split after `file`
   * when only that tail does.
   */
  lemma ColumnLineLastSplit(p: Pattern, file: string, lineNo: string, column: string, b: char, message: string)
    requires IsFileName(file) && IsDigits(lineNo) && IsDigits(column) && IsBlank(b) && NoColonDigit(message)
    ensures var line := file + ":" + lineNo + ":" + column + ":" + [b] + message;
      var tail1 := ":" + lineNo + ":" + column + ":" + [b] + message;
      var tail2 := ":" + column + ":" + [b] + message;
      && (MatchTail(p, tail2).Some? ==>
            MatchPattern(p, line)
            == Some([line, file + ":" + lineNo, MatchTail(p, tail2).value.lineNo, MatchTail(p, tail2).value.message]))
      && (MatchTail(p, tail2).None? && MatchTail(p, tail1).Some? ==>
            MatchPattern(p, line)
            == Some([line, file, MatchTail(p, tail1).value.lineNo, MatchTail(p, tail1).value.message]))
  {
    var line := file + ":" + lineNo + ":" + column + ":" + [b] + message;
    var tail1 := ":" + lineNo + ":" + column + ":" + [b] + message;
    var tail2 := ":" + column + ":" + [b] + message;
    var a2 := |file| + |lineNo| + 1;
    ColonDigitsAfterColumnFile(file, lineNo, column, b, message);
    LaterSplitsFail(line, |file|, a2);
    ColumnLineSlices(file, lineNo, column, b, message);
    ColumnLineFilePrefix(file, lineNo, column, b, message);
    CaptureOfLastSplits(p, line, |file|, a2, file, file + ":" + lineNo, tail1, tail2);
  }

  /**
   * On a line where no split after `a` but `a2` can match, the split at `a2`
   * wins when its tail matches, and the split at `a` when only that tail
   * does, whatever lies before `a`.
   */
  lemma CaptureOfLastSplits(p: Pattern, line: string, a: nat, a2: nat, file1: string, file2: string,
                            tail1: string, tail2: string)
    requires 0 < a < a2 <= |line| && line[..a] == file1 && line[..a2] == file2 && IsFileName(file2)
    requires line[a..] == tail1 && line[a2..] == tail2
    requires forall q: Pattern, i | a < i <= |line| && i != a2 :: MatchTail(q, line[i..]).None?
    ensures MatchTail(p, tail2).Some? ==>
              MatchPattern(p, line)
              == Some([line, file2, MatchTail(p, tail2).value.lineNo, MatchTail(p, tail2).value.message])
    ensures MatchTail(p, tail2).None? && MatchTail(p, tail1).Some? ==>
              MatchPattern(p, line)
              == Some([line, file1, MatchTail(p, tail1).value.lineNo, MatchTail(p, tail1).value.message])
  {
    if MatchTail(p, tail2).Some? {
      CaptureAt(p, line, a2, MatchTail(p, tail2).value);
    } else if MatchTail(p, tail1).Some? {
      assert line[..a] == file2[..a];
      CaptureAt(p, line, a, MatchTail(p, tail1).value);
    }
  }
}
