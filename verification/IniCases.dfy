/**
  Particular texts and what becomes of them (src/confile.c): line ends of either kind, names at the
  limit of their buffer, the malformed lines, and a ';' that does not begin a line.
 */
module IniCases {
  import opened CStrings
  import opened ConfTree
  import opened IniConfig
  import opened IniText
  import opened IniParser
  import opened IniRoundTrip
  import opened IniMeaning

  // ----- line ends -----

  /** The text with a carriage return before every newline. */
  function Crlf(t: CString): CString {
    if t == [] then []
    else (if t[0] == '\n' then "\r\n" else [t[0]]) + Crlf(t[1..])
  }

  /** Every line but the last with a carriage return at its end. */
  function CrLines(lines: seq<CString>): seq<CString> {
    if |lines| <= 1 then lines else [lines[0] + "\r"] + CrLines(lines[1..])
  }

  lemma {:induction false} LinesOfCrlf(t: CString)
    ensures Lines(Crlf(t)) == CrLines(Lines(t))
  {
    if t != [] {
      LinesOfCrlf(t[1..]);
      var first, rest := [t[0]], t[1..];
      assert t == first + rest;
      if t[0] == '\n' {
        LinesOfLine([], rest);
        assert [] + "\n" + rest == t;
        LinesOfLine("\r", Crlf(rest));
        assert "\r" + "\n" + Crlf(rest) == Crlf(t);
        assert Lines(t) == [[]] + Lines(rest) && Lines(Crlf(t)) == ["\r"] + Lines(Crlf(rest));
        assert ([[]] + Lines(rest))[1..] == Lines(rest) && [] + "\r" == "\r";
      } else {
        LinesOfConcat(first, rest);
        LinesOfConcat(first, Crlf(rest));
        assert Crlf(t) == first + Crlf(rest);
        var ls := Lines(rest);
        assert Lines(t) == [first + ls[0]] + ls[1..];
        if |ls| > 1 {
          assert CrLines(ls)[0] == ls[0] + "\r" && CrLines(ls)[1..] == CrLines(ls[1..]);
          assert ([first + ls[0]] + ls[1..])[1..] == ls[1..];
          assert first + (ls[0] + "\r") == first + ls[0] + "\r";
        }
      }
    }
  }

  lemma {:induction false} TrimCr(s: CString)
    ensures Trim(s + "\r") == Trim(s)
    decreases |s|
  {
    var s' := s + "\r";
    if s == [] {
      assert s'[1..] == [];
    } else if Blank(s[0]) {
      assert s'[1..] == s[1..] + "\r";
      TrimCr(s[1..]);
    } else {
      assert s'[..|s'| - 1] == s;
    }
  }

  /** A line whose first mark opens a bracket that is closed. */
  lemma BracketScan(c: Config, section: CString, line: CString, i: nat, j: nat)
    requires i == FirstIndex(line, IsMark) < |line| && line[i] == '['
    requires j == FirstIndex(line[i + 1..], IsClose) < |line[i + 1..]|
    ensures Scan(c, section, line) == OpenSection(c, Trim(line[i + 1..][..j]), line[i + 1..][j + 1..])
  {
    hide Trim, OpenSection, FirstIndex;
  }

  /** The same with a carriage return at the line's end. */
  lemma {:induction false} BracketCr(c: Config, section: CString, line: CString) returns (name: CString, tail: CString)
    requires var i := FirstIndex(line, IsMark);
      i < |line| && line[i] == '[' && FirstIndex(line[i + 1..], IsClose) < |line[i + 1..]|
    ensures |tail| < |line|
    ensures Scan(c, section, line) == OpenSection(c, name, tail)
    ensures Scan(c, section, line + "\r") == OpenSection(c, name, tail + "\r")
  {
    hide Trim, OpenSection, Scan, FirstIndex;
    var i := FirstIndex(line, IsMark);
    var rest := line[i + 1..];
    var j := FirstIndex(rest, IsClose);
    SameFirst(line, IsMark);
    SameFirst(rest, IsClose);
    assert (line + "\r")[i + 1..] == rest + "\r";
    assert (rest + "\r")[..j] == rest[..j] && (rest + "\r")[j + 1..] == rest[j + 1..] + "\r";
    name, tail := Trim(rest[..j]), rest[j + 1..];
    BracketScan(c, section, line, i, j);
    BracketScan(c, section, line + "\r", i, j);
  }

  /** The other lines. */
  lemma {:induction false} PlainCr(c: Config, section: CString, line: CString)
    requires var i := FirstIndex(line, IsMark);
      i == |line| || line[i] == '=' || FirstIndex(line[i + 1..], IsClose) == |line[i + 1..]|
    ensures Scan(c, section, line + "\r") == Scan(c, section, line)
  {
    hide Trim, OpenSection, SetKey;
    var i := FirstIndex(line, IsMark);
    SameFirst(line, IsMark);
    if i < |line| {
      var rest := line[i + 1..];
      assert (line + "\r")[..i] == line[..i] && (line + "\r")[i + 1..] == rest + "\r";
      TrimCr(rest);
      SameFirst(rest, IsClose);
    }
  }

  /** A carriage return at the end of a line makes no difference. */
  lemma {:induction false} ScanCr(c: Config, section: CString, line: CString)
    ensures Scan(c, section, line + "\r") == Scan(c, section, line)
    decreases |line|
  {
    hide Scan;
    var i := FirstIndex(line, IsMark);
    if i == |line| || line[i] == '=' || FirstIndex(line[i + 1..], IsClose) == |line[i + 1..]| {
      PlainCr(c, section, line);
    } else {
      var name, tail := BracketCr(c, section, line);
      ScanCr(InsertSection(c, name), name, tail);
    }
  }

  lemma {:induction false} SameFirst(s: CString, p: CChar -> bool)
    requires !p('\r')
    ensures var i, i' := FirstIndex(s, p), FirstIndex(s + "\r", p);
      if i < |s| then i' == i else i' == |s + "\r"|
  {
    var i, i' := FirstIndex(s, p), FirstIndex(s + "\r", p);
    if i < |s| {
      assert (s + "\r")[i] == s[i];
    }
    if i' < |s| {
      assert (s + "\r")[i'] == s[i'];
    }
  }

  lemma {:induction false} FoldCr(c: Config, section: CString, lines: seq<CString>)
    ensures FoldLines(c, section, CrLines(lines)) == FoldLines(c, section, lines)
    decreases lines
  {
    hide Scan;
    if |lines| > 1 {
      ScanCr(c, section, lines[0]);
      assert CrLines(lines)[0] == lines[0] + "\r" && CrLines(lines)[1..] == CrLines(lines[1..]);
      assert ReadLine(c, section, lines[0] + "\r") == ReadLine(c, section, lines[0]);
      match ReadLine(c, section, lines[0])
      case Stop(_) =>
      case Continue(c', section') => FoldCr(c', section', lines[1..]);
    }
  }

  /** A text and its version with carriage returns have the same outcome. */
  lemma {:induction false} CrlfParsesAlike(t: CString)
    ensures ParseText(Crlf(t)) == ParseText(t)
  {
    LinesOfCrlf(t);
    FoldCr(InitialConfig, DEFAULT_SECTION, Lines(t));
  }

  // ----- texts of one line -----

  lemma {:induction false} OneLineText(line: CString)
    requires '\n' !in line
    ensures ParseText(line) ==
      match ReadLine(InitialConfig, "default", line)
      case Stop(o) => o
      case Continue(c, _) => Parsed(c)
  {
    LinesOfLine(line, []);
    hide ReadLine, Lines, FoldLines;
    FoldFirst(InitialConfig, DEFAULT_SECTION, line, []);
    assert [line] + [] == [line];
    match ReadLine(InitialConfig, DEFAULT_SECTION, line)
    case Stop(_) =>
    case Continue(c, section) => FoldNone(c, section);
  }

  predicate AllBlank(s: CString) {
    forall k :: 0 <= k < |s| ==> s[k] == ' ' || s[k] == '\r'
  }

  predicate BlankEnds(s: CString) {
    s != [] && (s[0] in " \r\n" || s[|s| - 1] in " \r\n")
  }

  /** A section name has room for 63 bytes. */
  lemma {:induction false} NamesOf63BytesFit(name: CString)
    requires name != [] && '\n' !in name && ']' !in name && !BlankEnds(name)
    ensures |name| <= 63 ==> ParseText("[" + name + "]") == Parsed(InsertSection(InitialConfig, name))
    ensures |name| > 63 ==> ParseText("[" + name + "]") == Undefined
  {
    hide Scan, InsertSection;
    var line := "[" + name + "]";
    OneLineText(line);
    ScanSection(InitialConfig, "default", name, []);
    assert "[" + name + "]" + [] == line;
    assert Trim(name) == name;
    ScanNothing(InsertSection(InitialConfig, name), name);
    assert |name| <= 63 ==> OpenSection(InitialConfig, name, []) == Continue(InsertSection(InitialConfig, name), name);
  }

  lemma ScanNothing(c: Config, section: CString)
    ensures Scan(c, section, []) == Continue(c, section)
  {}

  /** An unclosed bracket, a blank name and a blank key make the parse fail. */
  lemma {:induction false} MalformedLinesFail(open: CString, blank: CString, rest: CString)
    requires '\n' !in open && ']' !in open && AllBlank(blank) && '\n' !in rest
    ensures ParseText("[" + open) == Failed
    ensures ParseText("[" + blank + "]" + rest) == Failed
    ensures ParseText(blank + "=" + rest) == Failed
  {
    hide Scan, InsertSection;
    OneLineText("[" + open);
    OneLineText("[" + blank + "]" + rest);
    OneLineText(blank + "=" + rest);
    TrimCutsAllBlanks(blank);
    ScanSection(InitialConfig, "default", open, []);
    ScanSection(InitialConfig, "default", blank, rest);
    ScanKey(InitialConfig, "default", blank, rest);
  }

  /** A line without '[' and '=' says nothing. */
  lemma {:induction false} IdleLine(line: CString)
    requires forall k :: 0 <= k < |line| ==> line[k] != '[' && line[k] != '=' && line[k] != '\n'
    ensures ParseText(line) == Parsed(InitialConfig)
  {
    hide Scan;
    OneLineText(line);
    ScanKey(InitialConfig, "default", line, []);
  }

  /** A ';' begins a comment in the first column only: after a blank it begins a key. */
  lemma {:induction false} SemicolonInTheFirstColumn(key: CString, value: CString)
    requires key != [] && key[0] == ';' && !BlankEnds(key) && !BlankEnds(value) && '\n' !in key && '\n' !in value
    requires forall k :: 0 <= k < |key| ==> key[k] != '[' && key[k] != '='
    ensures ParseText(key + "=" + value) == Parsed(InitialConfig)
    ensures var o := ParseText(" " + key + "=" + value); o.Parsed? && Read(o.config, "default", key) == Some(value)
  {
    hide Scan;
    OneLineText(key + "=" + value);
    OneLineText(" " + key + "=" + value);
    ScanKey(InitialConfig, "default", " " + key, value);
    assert (" " + key)[1..] == key;
    assert Trim(" " + key) == key && Trim(value) == value;
    assert Find(InitialConfig, "default") == Some(Leaf) by { OpensEmpty(Leaf, "default"); }
    UpdateFacts(InitialConfig, "default", Insert(Leaf, key, value), "default");
    FindAfterInsert<CString>(Leaf, key, value);
  }

  /** What precedes a bracket on its line is forgotten, and what follows it is read in the section just
      opened. */
  lemma {:induction false} KeyBehindABracket(junk: CString, name: CString, key: CString, value: CString)
    requires name != [] && ']' !in name && !BlankEnds(name) && |name| <= 63 && '\n' !in junk + name + key + value
    requires forall k :: 0 <= k < |junk| ==> junk[k] != '[' && junk[k] != '='
    requires key != [] && !BlankEnds(key) && !BlankEnds(value)
    requires forall k :: 0 <= k < |key| ==> key[k] != '[' && key[k] != '='
    requires junk != [] ==> junk[0] != ';'
    ensures var o := ParseText(junk + "[" + name + "]" + key + "=" + value); o.Parsed? && Read(o.config, name, key) == Some(value)
  {
    hide Scan, InsertSection;
    var tail := key + "=" + value;
    var line := "[" + name + "]" + tail;
    assert junk + "[" + name + "]" + key + "=" + value == junk + line;
    OneLineText(junk + line);
    ScanSkips(InitialConfig, "default", junk, line);
    ScanSection(InitialConfig, "default", name, tail);
    var c := InsertSection(InitialConfig, name);
    ScanKey(c, name, key, value);
    assert Trim(name) == name && Trim(key) == key && Trim(value) == value;
    OpensEmpty(InitialConfig, name);
    UpdateFacts(c, name, Insert(Leaf, key, value), name);
    FindAfterInsert<CString>(Leaf, key, value);
  }

  // ----- texts printed -----

  /** The bytes printed for a section of three keys. */
  lemma PrintedBytes(n: CString, k1: CString, v1: CString, k2: CString, v2: CString, k3: CString, v3: CString)
    ensures var s := Node(Node(Leaf, k1, v1, Leaf), k2, v2, Node(Leaf, k3, v3, Leaf));
      Print(Node(Leaf, n, s, Leaf)) == "[" + n + "]\n" + ((k1 + "=" + v1 + "\n") + (k2 + "=" + v2 + "\n") + (k3 + "=" + v3 + "\n"))
  {
    var a, b := Node(Leaf, k1, v1, Leaf), Node(Leaf, k3, v3, Leaf);
    var s := Node(a, k2, v2, b);
    assert PrintSection(a) == k1 + "=" + v1 + "\n" && PrintSection(b) == k3 + "=" + v3 + "\n";
    assert PrintSection(s) == PrintSection(a) + (k2 + "=" + v2 + "\n") + PrintSection(b);
    assert Print(Node(Leaf, n, s, Leaf)) == ("[" + n + "]" + "\n") + PrintSection(s);
    hide PrintSection, Print;
    assert "[" + n + "]\n" == "[" + n + "]" + "\n";
  }
}
