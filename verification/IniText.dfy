/**
  What the text of a configuration file means, line by line: `mem_trim`, the splitting of a
  text into lines, and a function that interprets one line given only the configuration and
  the current section name.  IniParser.dfy shows that the character machine of src/confile.c
  computes the fold of that function over the lines.
 */
module IniText {
  import opened CStrings
  import opened ConfTree
  import opened IniConfig

  // ----- trimming -----

  predicate Blank(c: CChar) {
    c == ' ' || c == '\r' || c == '\n'
  }

  function Trim(s: CString): CString {
    if s == [] then []
    else if Blank(s[0]) then Trim(s[1..])
    else if Blank(s[|s| - 1]) then Trim(s[..|s| - 1])
    else s
  }

  predicate Trimmed(s: CString) {
    s != [] ==> !Blank(s[0]) && !Blank(s[|s| - 1])
  }

  /** `mem_trim`: null on an empty or all-blank slice, otherwise the slice between the outermost
      non-blank bytes. */
  method MemTrim(src: CString) returns (r: Option<CString>)
    ensures r == if Trim(src) == [] then None else Some(Trim(src))
  {
    if |src| == 0 {
      return None;
    }
    var start, end := 0, |src| - 1;
    while start < |src| && Blank(src[start])
      invariant 0 <= start <= |src|
      invariant Trim(src) == Trim(src[start..])
    {
      assert src[start..][1..] == src[start + 1..];
      start := start + 1;
    }
    assert src[start..end + 1] == src[start..];
    while end > start && Blank(src[end])
      invariant end == |src| - 1 || start <= end < |src|
      invariant start <= end + 1
      invariant start < |src| ==> start <= end && !Blank(src[start])
      invariant Trim(src) == Trim(src[start..end + 1])
    {
      assert src[start..end + 1][..end - start] == src[start..end];
      end := end - 1;
    }
    end := end + 1;
    if start == end {
      return None;
    }
    return Some(src[start..end]);
  }

  /** The trim is a slice of the text, and only spaces, carriage returns and newlines are cut off. */
  lemma {:induction false} TrimCutsOnlyBlanks(s: CString) returns (a: nat, b: nat)
    ensures a <= b <= |s| && Trim(s) == s[a..b]
    ensures forall k :: 0 <= k < a || b <= k < |s| ==> s[k] == ' ' || s[k] == '\r' || s[k] == '\n'
    decreases |s|
  {
    if s != [] && Blank(s[0]) {
      a, b := TrimCutsOnlyBlanks(s[1..]);
      assert s[1..][a..b] == s[a + 1..b + 1];
      forall k | 0 < k < a + 1 || b + 1 <= k < |s| ensures Blank(s[k]) {
        assert s[k] == s[1..][k - 1];
      }
      a, b := a + 1, b + 1;
    } else if s != [] && Blank(s[|s| - 1]) {
      a, b := TrimCutsOnlyBlanks(s[..|s| - 1]);
      assert s[..|s| - 1][a..b] == s[a..b];
      forall k | 0 <= k < a || b <= k < |s| - 1 ensures Blank(s[k]) {
        assert s[k] == s[..|s| - 1][k];
      }
    } else {
      a, b := 0, |s|;
    }
  }

  /** It begins and ends with none of the three, and is empty only if there is nothing else. */
  lemma {:induction false} TrimCutsAllBlanks(s: CString)
    ensures Trim(s) != [] ==> Trim(s)[0] !in " \r\n" && Trim(s)[|Trim(s)| - 1] !in " \r\n"
    ensures Trim(s) == [] <==> forall k :: 0 <= k < |s| ==> s[k] == ' ' || s[k] == '\r' || s[k] == '\n'
    decreases |s|
  {
    if s != [] && Blank(s[0]) {
      TrimCutsAllBlanks(s[1..]);
      assert s == [s[0]] + s[1..];
    } else if s != [] && Blank(s[|s| - 1]) {
      TrimCutsAllBlanks(s[..|s| - 1]);
      assert s == s[..|s| - 1] + [s[|s| - 1]];
    }
  }

  /** The trim is the longest slice without a blank at either end. */
  lemma {:induction false} TrimIsLongest(s: CString, i: nat, j: nat)
    requires i < j <= |s| && Trimmed(s[i..j])
    ensures Trimmed(Trim(s)) && |Trim(s)| >= j - i
    decreases |s|
  {
    assert s[i..j][0] == s[i] && s[i..j][j - i - 1] == s[j - 1];
    assert !Blank(s[i]) && !Blank(s[j - 1]);
    if Blank(s[0]) {
      var rest := s[1..];
      assert forall k :: i <= k < j ==> rest[k - 1] == s[k];
      assert rest[i - 1..j - 1] == s[i..j];
      TrimIsLongest(rest, i - 1, j - 1);
    } else if Blank(s[|s| - 1]) {
      var rest := s[..|s| - 1];
      assert j <= |rest|;
      assert forall k :: i <= k < j ==> rest[k] == s[k];
      assert rest[i..j] == s[i..j];
      TrimIsLongest(rest, i, j);
    }
  }

  lemma {:induction false} TrimIsNullIff(s: CString)
    ensures Trim(s) == [] <==> forall k :: 0 <= k < |s| ==> Blank(s[k])
    ensures |Trim(s)| <= |s|
    decreases |s|
  {
    if s != [] {
      if Blank(s[0]) {
        TrimIsNullIff(s[1..]);
        assert forall k :: 1 <= k < |s| ==> s[k] == s[1..][k - 1];
      } else if Blank(s[|s| - 1]) {
        TrimIsNullIff(s[..|s| - 1]);
        assert s[..|s| - 1][0] == s[0];
      }
    }
  }

  // ----- lines -----

  /** The '\n'-separated lines of a text; a trailing newline leaves an empty last line. */
  function Lines(t: CString): (r: seq<CString>)
    ensures |r| >= 1
  {
    if t == [] then [[]]
    else
      var r := Lines(t[1..]);
      if t[0] == '\n' then [[]] + r else [[t[0]] + r[0]] + r[1..]
  }

  predicate OneLine(s: CString) {
    '\n' !in s
  }

  lemma {:induction false} LinesOfConcat(a: CString, b: CString)
    requires OneLine(a)
    ensures Lines(a + b) == [a + Lines(b)[0]] + Lines(b)[1..]
  {
    if a == [] {
      assert a + b == b;
      assert [] + Lines(b)[0] == Lines(b)[0];
    } else {
      assert (a + b)[1..] == a[1..] + b;
      LinesOfConcat(a[1..], b);
      assert [a[0]] + (a[1..] + Lines(b)[0]) == a + Lines(b)[0];
    }
  }

  lemma LinesOfLine(a: CString, b: CString)
    requires OneLine(a)
    ensures Lines(a + "\n" + b) == [a] + Lines(b)
    ensures Lines(a) == [a]
  {
    assert a + "\n" + b == a + ("\n" + b);
    assert ("\n" + b)[1..] == b;
    LinesOfConcat(a, "\n" + b);
    LinesOfConcat(a, []);
    assert a + [] == a;
  }

  // ----- one line -----

  predicate IsMark(c: CChar) { c == '[' || c == '=' }

  predicate IsClose(c: CChar) { c == ']' }

  /** The first position whose byte satisfies `p`, or the length if there is none. */
  function FirstIndex(s: CString, p: CChar -> bool): (i: nat)
    ensures i <= |s|
    ensures forall k :: 0 <= k < i ==> !p(s[k])
    ensures i < |s| ==> p(s[i])
  {
    if s == [] || p(s[0]) then 0 else 1 + FirstIndex(s[1..], p)
  }

  /** Longest section name that fits MAX_SECTION_SIZE with its terminator. */
  const MAX_NAME := 63

  datatype Outcome =
    | Parsed(config: Config)
    | Failed
    | Undefined  // a section name overran its buffer: C defines nothing from there on

  datatype LineOutcome = Continue(config: Config, section: CString) | Stop(outcome: Outcome)

  /** Interprets the part of a line in which neither a comment nor a key has begun. */
  function Scan(c: Config, section: CString, line: CString): LineOutcome
    decreases |line|, 0
  {
    var i := FirstIndex(line, IsMark);
    if i == |line| then Continue(c, section)
    else if line[i] == '=' then
      SetKey(c, section, Trim(line[..i]), Trim(line[i + 1..]))
    else
      var rest := line[i + 1..];
      var j := FirstIndex(rest, IsClose);
      if j == |rest| then Stop(Failed)
      else OpenSection(c, Trim(rest[..j]), rest[j + 1..])
  }

  function SetKey(c: Config, section: CString, key: CString, value: CString): LineOutcome {
    if key == [] then Stop(Failed)
    else
      match InsertSectionNode(c, section, key, value)
      case None => Stop(Failed)
      case Some(c') => Continue(c', section)
  }

  function OpenSection(c: Config, name: CString, rest: CString): LineOutcome
    decreases |rest|, 1
  {
    if name == [] then Stop(Failed)
    else if |name| > MAX_NAME then Stop(Undefined)
    else Scan(InsertSection(c, name), name, rest)
  }

  predicate IsComment(line: CString) {
    line != [] && line[0] == ';'
  }

  function ReadLine(c: Config, section: CString, line: CString): LineOutcome {
    if IsComment(line) then Continue(c, section) else Scan(c, section, line)
  }

  // ----- whole texts -----

  function FoldLines(c: Config, section: CString, lines: seq<CString>): Outcome
    decreases lines
  {
    if lines == [] then Parsed(c)
    else
      match ReadLine(c, section, lines[0])
      case Stop(o) => o
      case Continue(c', section') => FoldLines(c', section', lines[1..])
  }

  const InitialConfig: Config := InsertSection(Leaf, DEFAULT_SECTION)

  function ParseText(t: CString): Outcome {
    FoldLines(InitialConfig, DEFAULT_SECTION, Lines(t))
  }

  function NonComments(lines: seq<CString>): seq<CString> {
    if lines == [] then []
    else (if IsComment(lines[0]) then [] else [lines[0]]) + NonComments(lines[1..])
  }

  lemma {:induction false} FoldSkipsComments(c: Config, section: CString, lines: seq<CString>)
    ensures FoldLines(c, section, lines) == FoldLines(c, section, NonComments(lines))
    decreases lines
  {
    if lines != [] {
      var rest := NonComments(lines[1..]);
      match ReadLine(c, section, lines[0])
      case Stop(o) =>
        assert ([lines[0]] + rest)[0] == lines[0];
      case Continue(c', section') =>
        FoldSkipsComments(c', section', lines[1..]);
        if IsComment(lines[0]) {
          assert [] + rest == rest;
        } else {
          assert ([lines[0]] + rest)[1..] == rest;
        }
    }
  }

  /** Two texts with the same lines, comments aside, parse alike. */
  lemma CommentLinesDoNotMatter(t: CString, t': CString)
    requires NonComments(Lines(t)) == NonComments(Lines(t'))
    ensures ParseText(t) == ParseText(t')
  {
    FoldSkipsComments(InitialConfig, DEFAULT_SECTION, Lines(t));
    FoldSkipsComments(InitialConfig, DEFAULT_SECTION, Lines(t'));
  }

  // ----- success depends on the text alone -----

  datatype Verdict = Fine | Bad | TooLong

  /** What is wrong with a line, without reference to any configuration: an unclosed or empty
      bracket, or an empty key. */
  function Check(line: CString): Verdict
    decreases |line|
  {
    var i := FirstIndex(line, IsMark);
    if i == |line| then Fine
    else if line[i] == '=' then
      if Trim(line[..i]) == [] then Bad else Fine
    else
      var rest := line[i + 1..];
      var j := FirstIndex(rest, IsClose);
      if j == |rest| || Trim(rest[..j]) == [] then Bad
      else if |Trim(rest[..j])| > MAX_NAME then TooLong
      else Check(rest[j + 1..])
  }

  /** The section a line writes to is always there, because it was the last one inserted: a line
      stops the parse exactly when it is itself malformed. */
  lemma {:induction false} ScanFollowsCheck(c: Config, section: CString, line: CString)
    requires Find(c, section).Some?
    ensures match Scan(c, section, line)
      case Continue(c', section') => Check(line) == Fine && Find(c', section').Some?
      case Stop(o) => (Check(line) == Bad && o == Failed) || (Check(line) == TooLong && o == Undefined)
    decreases |line|
  {
    hide Trim, Insert, Update;
    var i := FirstIndex(line, IsMark);
    if i < |line| && line[i] == '=' {
      var key, value := Trim(line[..i]), Trim(line[i + 1..]);
      UpdateFacts(c, section, Insert(Find(c, section).value, key, value), section);
    } else if i < |line| {
      var rest := line[i + 1..];
      var j := FirstIndex(rest, IsClose);
      if j < |rest| {
        var name := Trim(rest[..j]);
        FindAfterInsert<Section>(c, name, Leaf);
        ScanFollowsCheck(InsertSection(c, name), name, rest[j + 1..]);
        assert Scan(c, section, line) == OpenSection(c, name, rest[j + 1..]);
      }
    }
  }

  predicate WellFormedLine(line: CString) {
    IsComment(line) || Check(line) == Fine
  }

  predicate AllWellFormed(lines: seq<CString>) {
    forall k :: 0 <= k < |lines| ==> WellFormedLine(lines[k])
  }

  lemma {:induction false} FoldSucceedsIff(c: Config, section: CString, lines: seq<CString>)
    requires Find(c, section).Some?
    ensures FoldLines(c, section, lines).Parsed? <==> AllWellFormed(lines)
    decreases lines
  {
    if lines != [] {
      if !IsComment(lines[0]) { ScanFollowsCheck(c, section, lines[0]); }
      match ReadLine(c, section, lines[0])
      case Stop(_) => assert !WellFormedLine(lines[0]);
      case Continue(c', section') =>
        FoldSucceedsIff(c', section', lines[1..]);
        assert forall k :: 1 <= k < |lines| ==> lines[k] == lines[1..][k - 1];
    }
  }

  /** A text parses if and only if each of its lines is well formed on its own. */
  lemma ParseSucceedsIff(t: CString)
    ensures ParseText(t).Parsed? <==> AllWellFormed(Lines(t))
  {
    FindAfterInsert<Section>(Leaf, DEFAULT_SECTION, Leaf);
    assert Find(InitialConfig, DEFAULT_SECTION).Some?;
    FoldSucceedsIff(InitialConfig, DEFAULT_SECTION, Lines(t));
  }
}
