/**
  The character-driven parser of src/confile.c: one handler per input byte, chosen by a jump
  table, each moving the parser one byte ahead.
 */
module IniParser {
  import opened CStrings
  import opened ConfTree
  import opened IniConfig
  import opened IniStore
  import opened IniText

  datatype Status = GetKeyOrSection | GetSection | GetValue | CommentLine

  /** A handler's verdict: go on, reject the text, or run past `section_name`. */
  datatype Result = Ok | Error | Overrun

  predicate IsBreak(c: CChar) { c == '\n' }

  /** None of the bytes in `s[a..b]` satisfies `p`. */
  predicate Clear(s: CString, a: int, b: int, p: CChar -> bool)
    requires 0 <= a <= b <= |s|
  {
    forall k :: a <= k < b ==> !p(s[k])
  }

  /** The fold from the middle of a line, where no comment can begin any more. */
  function FoldMidLine(c: Config, section: CString, lines: seq<CString>): Outcome
    requires lines != []
  {
    AfterLine(Scan(c, section, lines[0]), lines[1..])
  }

  function AfterLine(o: LineOutcome, below: seq<CString>): Outcome {
    match o
    case Stop(outcome) => outcome
    case Continue(c, section) => FoldLines(c, section, below)
  }

  // ----- lines as seen from a position -----

  /** The lines of what follows position `a`, when the current line ends at `e`. */
  lemma {:induction false} LinesFrom(s: CString, a: nat, e: nat)
    requires a <= e <= |s| && Clear(s, a, e, IsBreak)
    requires e == |s| || s[e] == '\n'
    ensures Lines(s[a..])[0] == s[a..e]
    ensures Lines(s[a..])[1..] == if e == |s| then [] else Lines(s[e + 1..])
  {
    assert OneLine(s[a..e]);
    if e == |s| {
      LinesOfLine(s[a..], []);
      assert s[a..e] == s[a..];
    } else {
      assert s[a..] == s[a..e] + "\n" + s[e + 1..];
      LinesOfLine(s[a..e], s[e + 1..]);
    }
  }

  /** Moving ahead over bytes other than a newline leaves the following lines as they are. */
  lemma {:induction false} LinesAhead(s: CString, a: nat, b: nat)
    requires a <= b <= |s| && Clear(s, a, b, IsBreak)
    ensures Lines(s[a..])[0] == s[a..b] + Lines(s[b..])[0]
    ensures Lines(s[a..])[1..] == Lines(s[b..])[1..]
  {
    assert OneLine(s[a..b]);
    assert s[a..] == s[a..b] + s[b..];
    LinesOfConcat(s[a..b], s[b..]);
  }

  lemma LineStartsHere(s: CString, a: nat)
    requires a < |s| && s[a] != '\n'
    ensures Lines(s[a..])[0] != [] && Lines(s[a..])[0][0] == s[a]
  {}

  /** Bytes before a '[' on the same line that are neither '[' nor '=' do not matter. */
  lemma {:induction false} ScanSkips(c: Config, section: CString, u: CString, line: CString)
    requires forall k :: 0 <= k < |u| ==> !IsMark(u[k])
    requires line != [] && line[0] == '['
    ensures Scan(c, section, u + line) == Scan(c, section, line)
  {
    var i := FirstIndex(u + line, IsMark);
    assert (u + line)[|u|] == '[';
    assert i == |u|;
    assert FirstIndex(line, IsMark) == 0;
    assert (u + line)[i + 1..] == line[1..];
  }

  /** A line that opens with a bracketed name. */
  lemma {:induction false} ScanSection(c: Config, section: CString, name: CString, rest: CString)
    requires ']' !in name
    ensures Scan(c, section, "[" + name + "]" + rest) == OpenSection(c, Trim(name), rest)
    ensures Scan(c, section, "[" + name) == Stop(Failed)
  {
    var line := "[" + name + "]" + rest;
    assert FirstIndex(line, IsMark) == 0;
    assert line[1..] == name + "]" + rest;
    var j := FirstIndex(line[1..], IsClose);
    assert line[1..][|name|] == ']';
    assert j == |name|;
    assert line[1..][..j] == name && line[1..][j + 1..] == rest;
    var open := "[" + name;
    assert FirstIndex(open, IsMark) == 0;
    assert open[1..] == name;
    var j' := FirstIndex(name, IsClose);
    assert j' == |name|;
  }

  /** A line that is a key and a value. */
  lemma {:induction false} ScanKey(c: Config, section: CString, key: CString, value: CString)
    requires forall k :: 0 <= k < |key| ==> !IsMark(key[k])
    ensures Scan(c, section, key + "=" + value) == SetKey(c, section, Trim(key), Trim(value))
    ensures Scan(c, section, key) == Continue(c, section)
  {
    var line := key + "=" + value;
    var i := FirstIndex(line, IsMark);
    assert line[|key|] == '=';
    assert i == |key|;
    assert line[..i] == key && line[i + 1..] == value;
    assert FirstIndex(key, IsMark) == |key|;
  }

  // ----- where the machine stands -----

  datatype Cursor = Cursor(status: Status, pos: int, start1: int, end1: int, start2: int, col: int, section: CString)

  /** Every index is in range, and each status says what has been read of the current line. */
  predicate InRange(str: CString, u: Cursor) {
    && 0 <= u.pos <= |str| && u.col >= 1
    && match u.status
       case GetKeyOrSection =>
         && 0 <= u.start1 <= u.pos && Clear(str, u.start1, u.pos, IsMark) && Clear(str, u.start1, u.pos, IsBreak)
         && (u.col == 1 ==> u.start1 == u.pos)
       case GetSection =>
         && u.col > 1 && 1 <= u.start1 <= u.pos && str[u.start1 - 1] == '['
         && Clear(str, u.start1, u.pos, IsClose) && Clear(str, u.start1, u.pos, IsBreak)
       case GetValue =>
         && u.col > 1 && 0 <= u.start1 <= u.end1 < u.start2 <= u.pos && u.start2 == u.end1 + 1 && str[u.end1] == '='
         && Clear(str, u.start1, u.end1, IsMark) && Clear(str, u.start1, u.pos, IsBreak)
       case CommentLine => u.col > 1
  }

  /** What the rest of the text will make of the present state, by the line-wise reading. */
  function Remaining(str: CString, c: Config, u: Cursor): Outcome
    requires InRange(str, u)
  {
    match u.status
    case GetKeyOrSection =>
      if u.col == 1 then FoldLines(c, u.section, Lines(str[u.pos..]))
      else FoldMidLine(c, u.section, Lines(str[u.start1..]))
    case GetSection => FoldMidLine(c, u.section, Lines(str[u.start1 - 1..]))
    case GetValue => FoldMidLine(c, u.section, Lines(str[u.start1..]))
    case CommentLine => FoldLines(c, u.section, Lines(str[u.pos..])[1..])
  }

  /** Before the first byte of a line other than ';', reading by line starts like reading from
      the middle of it. */
  lemma AtLineStart(str: CString, c: Config, u: Cursor)
    requires InRange(str, u) && u.status == GetKeyOrSection && u.pos < |str| && str[u.pos] != '\n'
    requires u.col == 1 ==> str[u.pos] != ';'
    ensures Remaining(str, c, u) == FoldMidLine(c, u.section, Lines(str[u.start1..]))
  {}

  /** The byte at `pos` is passed over without a change of status. */
  lemma {:induction false} PassesOver(str: CString, c: Config, u: Cursor)
    requires InRange(str, u) && u.pos < |str| && str[u.pos] != '\n'
    requires u.status == GetKeyOrSection ==> !IsMark(str[u.pos]) && (u.col == 1 ==> str[u.pos] != ';')
    requires u.status == GetSection ==> str[u.pos] != ']'
    ensures var u' := u.(pos := u.pos + 1, col := u.col + 1);
      InRange(str, u') && Remaining(str, c, u') == Remaining(str, c, u)
  {
    hide Scan, FoldLines;
    match u.status {
      case GetKeyOrSection => AtLineStart(str, c, u);
      case CommentLine => LinesAhead(str, u.pos, u.pos + 1);
      case GetSection =>
      case GetValue =>
    }
  }

  lemma {:induction false} OpensBracket(str: CString, c: Config, u: Cursor)
    requires InRange(str, u) && u.pos < |str| && str[u.pos] == '[' && u.status == GetKeyOrSection
    ensures var u' := u.(pos := u.pos + 1, col := u.col + 1, start1 := u.pos + 1, status := GetSection);
      InRange(str, u') && Remaining(str, c, u') == Remaining(str, c, u)
  {
    AtLineStart(str, c, u);
    SkipsToBracket(str, c, u.section, u.start1, u.pos);
  }

  /** Bytes read before a '[' without meeting a mark are forgotten. */
  lemma {:induction false} SkipsToBracket(str: CString, c: Config, section: CString, a: nat, b: nat)
    requires a <= b < |str| && str[b] == '[' && Clear(str, a, b, IsMark) && Clear(str, a, b, IsBreak)
    ensures FoldMidLine(c, section, Lines(str[a..])) == FoldMidLine(c, section, Lines(str[b..]))
  {
    hide Scan, FoldLines;
    LinesAhead(str, a, b);
    LineStartsHere(str, b);
    var l, l' := Lines(str[a..]), Lines(str[b..]);
    ScanSkips(c, section, str[a..b], l'[0]);
    assert Scan(c, section, l[0]) == Scan(c, section, l'[0]);
  }

  lemma EndsKey(str: CString, c: Config, u: Cursor)
    requires InRange(str, u) && u.pos < |str| && str[u.pos] == '=' && u.status == GetKeyOrSection
    ensures var u' := u.(pos := u.pos + 1, col := u.col + 1, end1 := u.pos, start2 := u.pos + 1, status := GetValue);
      InRange(str, u') && Remaining(str, c, u') == Remaining(str, c, u)
  {}

  lemma StartsComment(str: CString, c: Config, u: Cursor)
    requires InRange(str, u) && u.pos < |str| && str[u.pos] == ';' && u.col == 1
    ensures var u' := u.(pos := u.pos + 1, col := u.col + 1, status := CommentLine);
      InRange(str, u') && Remaining(str, c, u') == Remaining(str, c, u)
  {}

  /** What is ahead when the bracket that is being read closes. */
  lemma {:induction false} ClosesBracket(str: CString, c: Config, u: Cursor)
    requires InRange(str, u) && u.status == GetSection && u.pos < |str| && str[u.pos] == ']'
    ensures var name := Trim(str[u.start1..u.pos]);
      var u' := u.(pos := u.pos + 1, col := u.col + 1, start1 := u.pos + 1, status := GetKeyOrSection, section := name);
      && InRange(str, u')
      && Remaining(str, c, u) == if name == [] then Failed
                             else if |name| > MAX_NAME then Undefined
                             else Remaining(str, InsertSection(c, name), u')
  {
    hide Scan, FoldLines, Lines, Trim;
    var name := str[u.start1..u.pos];
    LinesAhead(str, u.start1 - 1, u.pos + 1);
    var rest := Lines(str[u.pos + 1..])[0];
    assert str[u.start1 - 1..u.pos + 1] == "[" + name + "]";
    assert ']' !in name;
    ScanSection(c, u.section, name, rest);
  }

  /** The lines after the current one, which ends at `pos`. */
  function LinesBelow(str: CString, pos: nat): seq<CString>
    requires pos <= |str|
  {
    if pos == |str| then [] else Lines(str[pos + 1..])
  }

  /** What is ahead at the end of a line, by status. */
  lemma {:induction false} EndsLine(str: CString, c: Config, u: Cursor)
    requires InRange(str, u) && (u.pos == |str| || str[u.pos] == '\n')
    ensures u.status.CommentLine? || u.status.GetKeyOrSection? ==>
      Remaining(str, c, u) == FoldLines(c, u.section, LinesBelow(str, u.pos))
    ensures u.status.GetSection? ==> Remaining(str, c, u) == Failed
    ensures u.status.GetValue? ==>
      Remaining(str, c, u) == AfterLine(SetKey(c, u.section, Trim(str[u.start1..u.end1]), Trim(str[u.start2..u.pos])), LinesBelow(str, u.pos))
  {
    hide Scan, FoldLines, SetKey;
    match u.status {
      case CommentLine => LinesFrom(str, u.pos, u.pos);
      case GetKeyOrSection => EndsInKey(str, c, u);
      case GetSection => EndsInBracket(str, c, u);
      case GetValue => EndsInValue(str, c, u);
    }
  }

  lemma {:induction false} EndsInKey(str: CString, c: Config, u: Cursor)
    requires InRange(str, u) && (u.pos == |str| || str[u.pos] == '\n') && u.status.GetKeyOrSection?
    ensures Remaining(str, c, u) == FoldLines(c, u.section, LinesBelow(str, u.pos))
  {
    hide Scan, Lines;
    LinesFrom(str, u.start1, u.pos);
    ScanKey(c, u.section, str[u.start1..u.pos], []);
  }

  lemma {:induction false} EndsInBracket(str: CString, c: Config, u: Cursor)
    requires InRange(str, u) && (u.pos == |str| || str[u.pos] == '\n') && u.status.GetSection?
    ensures Remaining(str, c, u) == Failed
  {
    hide Scan, FoldLines, Lines, Trim;
    LinesFrom(str, u.start1 - 1, u.pos);
    assert str[u.start1 - 1..u.pos] == "[" + str[u.start1..u.pos];
    ScanSection(c, u.section, str[u.start1..u.pos], []);
  }

  lemma {:induction false} EndsInValue(str: CString, c: Config, u: Cursor)
    requires InRange(str, u) && (u.pos == |str| || str[u.pos] == '\n') && u.status.GetValue?
    ensures Remaining(str, c, u) == AfterLine(SetKey(c, u.section, Trim(str[u.start1..u.end1]), Trim(str[u.start2..u.pos])), LinesBelow(str, u.pos))
  {
    hide Scan, FoldLines, SetKey, Lines, Trim, AfterLine;
    LinesFrom(str, u.start1, u.pos);
    var key, value := str[u.start1..u.end1], str[u.start2..u.pos];
    assert str[u.start1..u.pos] == key + "=" + value;
    ScanKey(c, u.section, key, value);
    var l := Lines(str[u.start1..]);
    assert Scan(c, u.section, l[0]) == SetKey(c, u.section, Trim(key), Trim(value));
  }

  /** At the start of a line everything below is still to be read; past the last line, nothing. */
  lemma NextLine(str: CString, c: Config, u: Cursor)
    requires u.status == GetKeyOrSection && u.col == 1 && 1 <= u.pos == u.start1 <= |str| + 1
    ensures u.pos <= |str| ==>
      InRange(str, u) && Remaining(str, c, u) == FoldLines(c, u.section, LinesBelow(str, u.pos - 1))
    ensures u.pos > |str| ==> FoldLines(c, u.section, LinesBelow(str, u.pos - 1)) == Parsed(c)
  {}

  lemma StartOfText(str: CString)
    ensures var u := Cursor(GetKeyOrSection, 0, 0, 0, 0, 1, DEFAULT_SECTION);
      InRange(str, u) && Remaining(str, InitialConfig, u) == ParseText(str)
  {}

  // ----- the machine -----

  class Parser {
    const str: CString
    const config: Store
    var status: Status
    var pos: int
    var start1: int
    var end1: int
    var start2: int
    var row: int
    var col: int
    var section_name: CString

    ghost function At(): Cursor
      reads this
    {
      Cursor(status, pos, start1, end1, start2, col, section_name)
    }

    ghost predicate Ready()
      reads this
    {
      InRange(str, At())
    }

    /** What the rest of the text makes of configuration `c` from here. */
    ghost function Ahead(c: Config): Outcome
      requires Ready()
      reads this
    {
      Remaining(str, c, At())
    }

    ghost predicate Valid()
      reads this, config, config.repr
    {
      Ready() && config.Valid() && this !in config.repr
    }

    constructor (str: CString, config: Store)
      requires config.Valid()
      ensures this.str == str && this.config == config
      ensures At() == Cursor(GetKeyOrSection, 0, 0, 0, 0, 1, DEFAULT_SECTION)
    {
      this.str, this.config := str, config;
      status, pos, start1, end1, start2, row, col := GetKeyOrSection, 0, 0, 0, 0, 1, 1;
      section_name := DEFAULT_SECTION;
    }

    method OnDefault(ghost c: Config) returns (r: Result)
      requires Ready() && pos < |str| && str[pos] !in "[]=\n;"
      modifies this
      ensures Ready() && pos == old(pos) + 1 && r == Ok && Ahead(c) == old(Ahead(c))
    {
      hide Remaining;
      PassesOver(str, c, At());
      pos := pos + 1;
      col := col + 1;
      r := Ok;
    }

    method OnSectionStart(ghost c: Config) returns (r: Result)
      requires Ready() && pos < |str| && str[pos] == '['
      modifies this
      ensures Ready() && pos == old(pos) + 1 && r == Ok && Ahead(c) == old(Ahead(c))
    {
      hide Remaining;
      if status == GetKeyOrSection {
        OpensBracket(str, c, At());
        start1 := pos + 1;
        status := GetSection;
      } else {
        PassesOver(str, c, At());
      }
      pos := pos + 1;
      col := col + 1;
      r := Ok;
    }

    method OnValueStart(ghost c: Config) returns (r: Result)
      requires Ready() && pos < |str| && str[pos] == '='
      modifies this
      ensures Ready() && pos == old(pos) + 1 && r == Ok && Ahead(c) == old(Ahead(c))
    {
      hide Remaining;
      if status == GetKeyOrSection {
        EndsKey(str, c, At());
        status := GetValue;
        end1 := pos;
        start2 := pos + 1;
      } else {
        PassesOver(str, c, At());
      }
      pos := pos + 1;
      col := col + 1;
      r := Ok;
    }

    method OnComment(ghost c: Config) returns (r: Result)
      requires Ready() && pos < |str| && str[pos] == ';'
      modifies this
      ensures Ready() && pos == old(pos) + 1 && r == Ok && Ahead(c) == old(Ahead(c))
    {
      hide Remaining;
      if col == 1 {
        StartsComment(str, c, At());
        status := CommentLine;
      } else {
        PassesOver(str, c, At());
      }
      col := col + 1;
      pos := pos + 1;
      r := Ok;
    }

    method OnSectionEnd(ghost c: Config) returns (r: Result)
      requires Valid() && c == config.Contents() && pos < |str| && str[pos] == ']'
      modifies this, config.repr
      ensures config.Valid() && this !in config.repr && fresh(config.repr - old(config.repr))
      ensures r == Ok ==> Ready() && pos == old(pos) + 1 && Ahead(config.Contents()) == old(Ahead(c))
      ensures r == Error ==> old(Ahead(c)) == Failed
      ensures r == Overrun ==> old(Ahead(c)) == Undefined
    {
      hide Remaining, Scan, FoldLines, Store.Valid, Store.Contents;
      if status == GetSection {
        r := CloseSection(c);
      } else {
        PassesOver(str, c, At());
        Advance();
        assert config.Contents() == c;
        r := Ok;
      }
    }

    method CloseSection(ghost c: Config) returns (r: Result)
      requires Valid() && c == config.Contents() && status == GetSection && pos < |str| && str[pos] == ']'
      modifies this, config.repr
      ensures config.Valid() && this !in config.repr && fresh(config.repr - old(config.repr))
      ensures r == Ok ==> Ready() && pos == old(pos) + 1 && Ahead(config.Contents()) == old(Ahead(c))
      ensures r == Error ==> old(Ahead(c)) == Failed
      ensures r == Overrun ==> old(Ahead(c)) == Undefined
    {
      hide Remaining, Scan, FoldLines, Store.Valid, Store.Contents;
      ClosesBracket(str, c, At());
      var p := MemTrim(str[start1..pos]);
      if p == None {
        return Error;
      }
      if |p.value| > MAX_NAME {
        return Overrun;
      }
      ghost var u := At().(pos := pos + 1, col := col + 1, start1 := pos + 1, status := GetKeyOrSection, section := p.value);
      r := EnterSection(p.value, c);
      assert At() == u && Remaining(str, config.Contents(), u) == Remaining(str, InsertSection(c, p.value), u);
    }

    method EnterSection(name: CString, ghost c: Config) returns (r: Result)
      requires Valid() && c == config.Contents()
      modifies this, config.repr
      ensures config.Valid() && this !in config.repr && fresh(config.repr - old(config.repr))
      ensures r == Ok && config.Contents() == InsertSection(c, name)
      ensures At() == old(At()).(pos := old(pos) + 1, col := old(col) + 1, start1 := old(pos) + 1,
                                 status := GetKeyOrSection, section := name)
    {
      hide InRange, InsertSection, Store.Valid, Store.Contents;
      var code := config.AddSection(name);
      if code == 0 {
        return Error;
      }
      ghost var repr', c' := config.repr, config.Contents();
      BracketClosed(name);
      assert config.repr == repr' && config.Contents() == c';
      r := Ok;
    }

    method Advance()
      modifies `pos, `col
      ensures At() == old(At()).(pos := old(pos) + 1, col := old(col) + 1)
    {
      pos := pos + 1;
      col := col + 1;
    }

    method BracketClosed(name: CString)
      modifies this
      ensures At() == old(At()).(pos := old(pos) + 1, col := old(col) + 1, start1 := old(pos) + 1,
                                 status := GetKeyOrSection, section := name)
    {
      section_name := name;
      status := GetKeyOrSection;
      start1 := pos + 1;
      Advance();
    }

    /** The last call comes at the end of the text, where a newline is understood. */
    method OnNewLine(ghost c: Config) returns (r: Result)
      requires Valid() && c == config.Contents() && (pos == |str| || str[pos] == '\n')
      modifies this, config.repr
      ensures config.Valid() && this !in config.repr && fresh(config.repr - old(config.repr))
      ensures r != Overrun
      ensures r == Error ==> old(Ahead(c)) == Failed
      ensures r == Ok && old(pos) < |str| ==>
        Ready() && pos == old(pos) + 1 && Ahead(config.Contents()) == old(Ahead(c))
      ensures r == Ok && old(pos) == |str| ==> old(Ahead(c)) == Parsed(config.Contents())
    {
      hide Remaining, Scan, FoldLines, Store.Valid, Store.Contents;
      EndsLine(str, c, At());
      match status {
        case CommentLine | GetKeyOrSection =>
        case GetValue =>
          r := StoreValue();
          if r == Error {
            return;
          }
        case GetSection =>
          return Error;
      }
      FinishLine();
      NextLine(str, config.Contents(), At());
      r := Ok;
    }

    method FinishLine()
      requires config.Valid() && this !in config.repr
      modifies this
      ensures config.Valid() && config.repr == old(config.repr) && config.Contents() == old(config.Contents())
      ensures At() == old(At()).(pos := old(pos) + 1, col := 1, start1 := old(pos) + 1, status := GetKeyOrSection)
    {
      hide Store.Valid, Store.Contents;
      start1 := pos + 1;
      status := GetKeyOrSection;
      pos := pos + 1;
      col := 1;
      row := row + 1;
    }

    method StoreValue() returns (r: Result)
      requires Valid() && status == GetValue
      modifies config.repr
      ensures config.Valid() && this !in config.repr && fresh(config.repr - old(config.repr))
      ensures var o := SetKey(old(config.Contents()), section_name, Trim(str[start1..end1]), Trim(str[start2..pos]));
        || (r == Ok && o == Continue(config.Contents(), section_name))
        || (r == Error && o == Stop(Failed))
    {
      var k := MemTrim(str[start1..end1]);
      var v := MemTrim(str[start2..pos]);
      if k == None {
        return Error;
      }
      var value := if v == None then [] else v.value;
      var code := config.AddSectionNode(section_name, k.value, value);
      r := if code == 0 then Error else Ok;
    }
  }

  /** `ini_config_create_from_string` without GBK: the machine decides every text as the fold of
      `ReadLine` over its lines does, and stops after one handler call per byte. */
  method CreateFromString(str: CString) returns (r: Result, config: Store)
    ensures r == Ok ==> config.Valid() && ParseText(str) == Parsed(config.Contents())
    ensures r == Error ==> ParseText(str) == Failed
    ensures r == Overrun ==> ParseText(str) == Undefined
  {
    hide Remaining, Scan, FoldLines, InRange, ParseText;
    var parser := Begin(str);
    config := parser.config;
    r := Run(parser, config.Contents());
  }

  /** A parser at the start of the text, over a configuration with an empty default section. */
  method Begin(str: CString) returns (parser: Parser)
    ensures parser.str == str && parser.Valid() && fresh(parser) && fresh(parser.config.repr)
    ensures parser.Ahead(parser.config.Contents()) == ParseText(str)
  {
    hide Remaining, Scan, FoldLines, ParseText;
    var config := new Store();
    var code := config.AddSection(DEFAULT_SECTION);
    parser := new Parser(str, config);
    StartOfText(str);
    assert config.Contents() == InitialConfig;
  }

  method Run(parser: Parser, ghost c: Config) returns (r: Result)
    requires parser.Valid() && c == parser.config.Contents()
    modifies parser, parser.config.repr
    ensures parser.config.Valid()
    ensures r == Ok ==> old(parser.Ahead(c)) == Parsed(parser.config.Contents())
    ensures r == Error ==> old(parser.Ahead(c)) == Failed
    ensures r == Overrun ==> old(parser.Ahead(c)) == Undefined
  {
    hide Remaining;
    while parser.pos < |parser.str|
      invariant parser.Valid() && fresh(parser.config.repr - old(parser.config.repr))
      invariant parser.Ahead(parser.config.Contents()) == old(parser.Ahead(c))
      decreases |parser.str| - parser.pos
    {
      r := Dispatch(parser, parser.config.Contents());
      if r != Ok {
        return;
      }
    }
    r := parser.OnNewLine(parser.config.Contents());
  }

  /** The jump table. */
  method Dispatch(parser: Parser, ghost c: Config) returns (r: Result)
    requires parser.Valid() && c == parser.config.Contents() && parser.pos < |parser.str|
    modifies parser, parser.config.repr
    ensures parser.config.Valid() && parser !in parser.config.repr
    ensures fresh(parser.config.repr - old(parser.config.repr))
    ensures r == Ok ==> parser.Ready() && parser.pos == old(parser.pos) + 1
    ensures r == Ok ==> parser.Ahead(parser.config.Contents()) == old(parser.Ahead(c))
    ensures r == Error ==> old(parser.Ahead(c)) == Failed
    ensures r == Overrun ==> old(parser.Ahead(c)) == Undefined
  {
    assert 0 <= parser.pos;
    hide Remaining, InRange, Store.Valid, Store.Contents;
    match parser.str[parser.pos]
    case ']' => r := parser.OnSectionEnd(c);
    case '\n' => r := parser.OnNewLine(c);
    case _ =>
      r := DispatchWithinLine(parser, c);
      assert parser.config.Contents() == c;
  }

  /** The entries whose handlers leave the configuration alone. */
  method DispatchWithinLine(parser: Parser, ghost c: Config) returns (r: Result)
    requires parser.Ready() && parser.pos < |parser.str| && parser.str[parser.pos] != ']' && parser.str[parser.pos] != '\n'
    modifies parser
    ensures r == Ok && parser.Ready() && parser.pos == old(parser.pos) + 1 && parser.Ahead(c) == old(parser.Ahead(c))
  {
    assert 0 <= parser.pos;
    hide Remaining, InRange;
    match parser.str[parser.pos]
    case '[' => r := parser.OnSectionStart(c);
    case '=' => r := parser.OnValueStart(c);
    case ';' => r := parser.OnComment(c);
    case _ => r := parser.OnDefault(c);
  }
}
