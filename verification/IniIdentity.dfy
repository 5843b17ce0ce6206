/**
  Exactly when saving and reading back is the identity (src/confile.c): the configurations that
  come back are those that can be printed at all and cover the default section.
 */
module IniIdentity {
  import opened CStrings
  import opened ConfTree
  import opened IniConfig
  import opened IniText
  import opened IniRoundTrip
  import opened IniMeaning

  /** What a key and value read from some line are like; with `strict`, read from a line that
      begins with the key. */
  predicate CellOk(strict: bool, key: CString, value: CString) {
    && key != [] && Trimmed(key) && OneLine(key) && (forall i :: 0 <= i < |key| ==> !IsMark(key[i]))
    && (strict ==> key[0] != ';')
    && GoodValue(value)
  }

  predicate EditOk(strict: bool, e: Edit) {
    GoodName(e.name) && (e.Put? ==> CellOk(strict, e.key, e.value))
  }

  predicate EditsOk(strict: bool, es: seq<Edit>) {
    forall i :: 0 <= i < |es| ==> EditOk(strict, es[i])
  }

  // ----- what trimming keeps -----

  lemma {:induction false} TrimIsTrimmed(s: CString)
    ensures Trimmed(Trim(s))
    decreases |s|
  {
    if s != [] && Blank(s[0]) {
      TrimIsTrimmed(s[1..]);
    } else if s != [] && Blank(s[|s| - 1]) {
      TrimIsTrimmed(s[..|s| - 1]);
    }
  }

  lemma {:induction false} TrimKeepsBytes(s: CString)
    ensures forall k :: 0 <= k < |Trim(s)| ==> Trim(s)[k] in s
  {
    var a, b := TrimCutsOnlyBlanks(s);
  }

  lemma TrimOfTrimmed(s: CString)
    requires Trimmed(s)
    ensures Trim(s) == s
  {}

  // ----- what a line can store -----

  /** Whatever the current section, the edits of the line are proper. */
  ghost predicate LineOk(strict: bool, line: CString) {
    IsComment(line) || forall section :: GoodName(section) ==> EditsOk(strict, LineEdits(section, line))
  }

  lemma {:induction false} PartIsOk(line: CString, i: nat, part: CString)
    requires OneLine(line) && i <= |line| && (part == line[..i] || part == line[i..])
    ensures Trimmed(Trim(part)) && OneLine(part) && OneLine(Trim(part))
  {
    TrimIsTrimmed(part);
    TrimKeepsBytes(part);
    hide Trim, Trimmed;
  }

  /** The key and the value of a line. */
  lemma {:induction false} KeyEditIsOk(line: CString, i: nat)
    requires OneLine(line) && i < |line| && (forall k :: 0 <= k < i ==> !IsMark(line[k])) && Trim(line[..i]) != []
    ensures CellOk(false, Trim(line[..i]), Trim(line[i + 1..]))
  {
    PartIsOk(line, i, line[..i]);
    PartIsOk(line, i + 1, line[i + 1..]);
    TrimKeepsBytes(line[..i]);
    hide Trim, Trimmed, OneLine, IsMark;
    forall k | 0 <= k < |Trim(line[..i])| ensures !IsMark(Trim(line[..i])[k]) {
      assert Trim(line[..i])[k] in line[..i];
    }
  }

  /** The name between brackets. */
  lemma {:induction false} NameEditIsOk(rest: CString, j: nat)
    requires OneLine(rest) && j < |rest| && (forall k :: 0 <= k < j ==> !IsClose(rest[k]))
    requires Trim(rest[..j]) != [] && |Trim(rest[..j])| <= MAX_NAME
    ensures GoodName(Trim(rest[..j]))
  {
    PartIsOk(rest, j, rest[..j]);
    TrimKeepsBytes(rest[..j]);
    hide Trim, Trimmed, OneLine;
    var name := Trim(rest[..j]);
    forall k | 0 <= k < |name| ensures name[k] != ']' {
      assert name[k] in rest[..j];
    }
  }

  lemma {:induction false} LineEditsAreOk(section: CString, line: CString)
    requires GoodName(section) && OneLine(line) && Check(line) == Fine
    ensures EditsOk(false, LineEdits(section, line))
    decreases |line|
  {
    hide Trim, CellOk, GoodName;
    var i := FirstIndex(line, IsMark);
    if i < |line| && line[i] == '=' {
      KeyEditIsOk(line, i);
    } else if i < |line| {
      var rest := line[i + 1..];
      var j := FirstIndex(rest, IsClose);
      NameEditIsOk(rest, j);
      hide FirstIndex, Check;
      LineEditsAreOk(Trim(rest[..j]), rest[j + 1..]);
    }
  }

  lemma {:induction false} EditsOfLines(strict: bool, section: CString, lines: seq<CString>)
    requires GoodName(section) && forall i :: 0 <= i < |lines| ==> LineOk(strict, lines[i])
    ensures EditsOk(strict, Edits(section, lines))
    decreases lines
  {
    hide LineEdits, EditOk;
    if lines != [] {
      assert LineOk(strict, lines[0]);
      var es := if IsComment(lines[0]) then [] else LineEdits(section, lines[0]);
      CurrentIsGood(strict, section, es);
      assert forall i :: 0 <= i < |lines[1..]| ==> lines[1..][i] == lines[i + 1];
      EditsOfLines(strict, Current(section, es), lines[1..]);
    }
  }

  lemma CurrentIsGood(strict: bool, section: CString, es: seq<Edit>)
    requires GoodName(section) && EditsOk(strict, es)
    ensures GoodName(Current(section, es))
  {}

  lemma {:induction false} LinesAreLines(t: CString)
    ensures forall i :: 0 <= i < |Lines(t)| ==> OneLine(Lines(t)[i])
  {
    if t != [] { LinesAreLines(t[1..]); }
  }

  // ----- what a configuration can hold -----

  ghost predicate SectionOk(strict: bool, s: Section) {
    forall e :: e in InOrder(s) ==> CellOk(strict, e.0, e.1)
  }

  ghost predicate ConfigOk(strict: bool, c: Config) {
    forall e :: e in InOrder(c) ==> GoodName(e.0) && SectionOk(strict, e.1)
  }

  lemma {:induction false} InsertEntries<V>(t: Tree<V>, key: CString, data: V, e: (CString, V))
    requires e in InOrder(Insert(t, key, data))
    ensures e == (key, data) || e in InOrder(t)
  {
    if t.Node? {
      if e in InOrder(Insert(t.left, key, data)) { InsertEntries(t.left, key, data, e); }
      if e in InOrder(Insert(t.right, key, data)) { InsertEntries(t.right, key, data, e); }
    }
  }

  lemma {:induction false} UpdateEntries<V>(t: Tree<V>, key: CString, data: V, e: (CString, V))
    requires e in InOrder(Update(t, key, data))
    ensures (e == (key, data) && Find(t, key).Some?) || e in InOrder(t)
  {
    if t.Node? {
      StrCmpTrichotomy(key, t.key);
      if e in InOrder(Update(t.left, key, data)) && StrCmp(key, t.key) < 0 { UpdateEntries(t.left, key, data, e); }
      if e in InOrder(Update(t.right, key, data)) && StrCmp(key, t.key) > 0 { UpdateEntries(t.right, key, data, e); }
    }
  }

  lemma {:induction false} FoundIsEntry<V>(t: Tree<V>, key: CString)
    requires Find(t, key).Some?
    ensures (key, Find(t, key).value) in InOrder(t)
  {
    StrCmpTrichotomy(key, t.key);
    if StrCmp(key, t.key) > 0 {
      FoundIsEntry(t.right, key);
    } else if StrCmp(key, t.key) < 0 {
      FoundIsEntry(t.left, key);
    }
  }

  lemma {:induction false} MappedIsEntry<V>(t: Tree<V>, key: CString)
    requires key in ToMap(t)
    ensures (key, ToMap(t)[key]) in InOrder(t)
  {
    if key in ToMap(t.right) {
      MappedIsEntry(t.right, key);
    } else if key != t.key {
      MappedIsEntry(t.left, key);
    }
  }

  lemma {:induction false} OpenKeepsOk(strict: bool, c: Config, name: CString)
    requires ConfigOk(strict, c) && GoodName(name)
    ensures ConfigOk(strict, InsertSection(c, name))
  {
    forall e | e in InOrder(InsertSection(c, name)) ensures GoodName(e.0) && SectionOk(strict, e.1) {
      InsertEntries(c, name, Leaf, e);
    }
  }

  lemma {:induction false} PutKeepsOk(strict: bool, c: Config, name: CString, key: CString, value: CString)
    requires ConfigOk(strict, c) && GoodName(name) && CellOk(strict, key, value)
    ensures ConfigOk(strict, SetString(c, Some(name), key, value))
  {
    hide Insert, Update, InOrder, CellOk, GoodName;
    var c' := WithSection(c, name);
    OpenKeepsOk(strict, c, name);
    SectionIsThere(c, name);
    FoundIsEntry(c', name);
    var s := Find(c', name).value;
    forall f | f in InOrder(Insert(s, key, value)) ensures CellOk(strict, f.0, f.1) {
      InsertEntries(s, key, value, f);
    }
    forall e | e in InOrder(Update(c', name, Insert(s, key, value))) ensures GoodName(e.0) && SectionOk(strict, e.1) {
      UpdateEntries(c', name, Insert(s, key, value), e);
    }
  }

  lemma {:induction false} EditAllIsOk(strict: bool, es: seq<Edit>)
    requires EditsOk(strict, es)
    ensures ConfigOk(strict, EditAll(es))
  {
    if es == [] {
      assert InOrder(InitialConfig) == [(DEFAULT_SECTION, Leaf)];
      assert GoodName(DEFAULT_SECTION);
    } else {
      hide ConfigOk, SetString, InsertSection;
      var before, last := es[..|es| - 1], es[|es| - 1];
      EditAllIsOk(strict, before);
      assert EditOk(strict, last);
      if last.Open? {
        OpenKeepsOk(strict, EditAll(before), last.name);
      } else {
        PutKeepsOk(strict, EditAll(before), last.name, last.key, last.value);
      }
    }
  }

  /** What a successful parse has stored, given what its lines can store. */
  lemma {:induction false} ParsedIsOk(strict: bool, t: CString)
    requires ParseText(t).Parsed? && forall i :: 0 <= i < |Lines(t)| ==> LineOk(strict, Lines(t)[i])
    ensures ConfigOk(strict, ParseText(t).config)
  {
    hide EditAll, TextEdits, Lines, FoldLines, ConfigOk, EditsOk, LineOk, AllWellFormed, GoodName;
    ParseSucceedsIff(t);
    ParseMakesEdits(t);
    DefaultIsGood();
    TextEditsAreOk(strict, t);
    EditAllIsOk(strict, TextEdits(t));
  }

  lemma DefaultIsGood()
    ensures GoodName(DEFAULT_SECTION)
  {}

  lemma TextEditsAreOk(strict: bool, t: CString)
    requires GoodName(DEFAULT_SECTION) && forall i :: 0 <= i < |Lines(t)| ==> LineOk(strict, Lines(t)[i])
    ensures EditsOk(strict, TextEdits(t))
  {
    hide Lines, LineOk, Edits, GoodName;
    EditsOfLines(strict, DEFAULT_SECTION, Lines(t));
  }

  // ----- the same cells -----

  lemma {:induction false} OkCarriesOver(strict: bool, c: Config, c': Config)
    requires WellOrdered(c) && ConfigOk(strict, c') && Meaning(c') == Meaning(c)
    ensures ConfigOk(strict, c)
  {
    hide CellOk, GoodName, InOrder, Ordered;
    forall e | e in InOrder(c) ensures GoodName(e.0) && SectionOk(strict, e.1) {
      EntriesAreTheMap(c, e);
      assert e.0 in Meaning(c) && Meaning(c)[e.0] == ToMap(e.1) && e.0 in ToMap(c');
      MappedIsEntry(c', e.0);
      var s' := ToMap(c')[e.0];
      forall f | f in InOrder(e.1) ensures CellOk(strict, f.0, f.1) {
        EntriesAreTheMap(e.1, f);
        assert ToMap(s') == ToMap(e.1);
        MappedIsEntry(s', f.0);
      }
    }
  }

  lemma {:induction false} OkIsPrintable(c: Config)
    requires WellOrdered(c) && ConfigOk(true, c)
    ensures Printable(c)
  {
    hide InOrder, Ordered;
    OrderedIffAscending(c);
    var es := InOrder(c);
    forall i | 0 <= i < |es| ensures GoodName(es[i].0) && PrintableSection(InOrder(es[i].1)) {
      assert es[i] in es;
      EntriesAreTheMap(c, es[i]);
      OrderedIffAscending(es[i].1);
      assert forall j :: 0 <= j < |InOrder(es[i].1)| ==> InOrder(es[i].1)[j] in InOrder(es[i].1);
    }
  }

  // ----- a configuration's own lines -----

  lemma FirstAt(s: CString, p: CChar -> bool, i: nat)
    requires i < |s| && p(s[i]) && forall k :: 0 <= k < i ==> !p(s[k])
    ensures FirstIndex(s, p) == i
  {}

  lemma {:induction false} HeaderIsOk(name: CString)
    requires GoodName(name)
    ensures LineOk(true, "[" + name + "]")
  {
    hide Trim;
    var line, rest := "[" + name + "]", name + "]";
    FirstAt(line, IsMark, 0);
    FirstAt(rest, IsClose, |name|);
    assert line[1..] == rest && rest[..|name|] == name && rest[|name| + 1..] == [];
    TrimOfTrimmed(name);
    forall section | GoodName(section) ensures EditsOk(true, LineEdits(section, line)) {
      assert LineEdits(section, line) == [Open(name)] + LineEdits(name, []);
    }
  }

  lemma {:induction false} KeyLineIsOk(key: CString, value: CString)
    requires CellOk(false, key, value)
    ensures LineOk(true, key + "=" + value)
  {
    hide Trim;
    var line := key + "=" + value;
    assert line[0] == key[0];
    FirstAt(line, IsMark, |key|);
    assert line[..|key|] == key && line[|key| + 1..] == value;
    TrimOfTrimmed(key);
    TrimOfTrimmed(value);
    forall section | GoodName(section) && key[0] != ';' ensures EditsOk(true, LineEdits(section, line)) {
      assert LineEdits(section, line) == [Put(section, key, value)];
    }
  }

  lemma {:induction false} KeyLinesAreOk(es: seq<(CString, CString)>)
    requires forall e :: e in es ==> CellOk(false, e.0, e.1)
    ensures forall i :: 0 <= i < |KeyLines(es)| ==> LineOk(true, KeyLines(es)[i])
  {
    hide LineOk, CellOk;
    if es != [] {
      KeyLineIsOk(es[0].0, es[0].1);
      KeyLinesAreOk(es[1..]);
    }
  }

  lemma {:induction false} ConfigLinesAreOk(es: seq<(CString, Section)>)
    requires forall e :: e in es ==> GoodName(e.0) && SectionOk(false, e.1)
    ensures forall i :: 0 <= i < |ConfigLines(es)| ==> LineOk(true, ConfigLines(es)[i])
  {
    hide LineOk, CellOk, GoodName, InOrder;
    if es != [] {
      HeaderIsOk(es[0].0);
      KeyLinesAreOk(InOrder(es[0].1));
      ConfigLinesAreOk(es[1..]);
    }
  }

  lemma {:induction false} OwnLinesAreOk(c: Config)
    requires ConfigOk(false, c)
    ensures forall i :: 0 <= i < |Lines(Print(c))| ==> LineOk(true, Lines(Print(c))[i])
  {
    hide LineOk, InOrder, Lines, Print;
    var es := InOrder(c);
    PrintByLines(c);
    forall i | 0 <= i < |es| ensures OneLine(es[i].0) && OneLineEntries(InOrder(es[i].1)) {
      assert es[i] in es;
      assert forall j :: 0 <= j < |InOrder(es[i].1)| ==> InOrder(es[i].1)[j] in InOrder(es[i].1);
    }
    ConfigLinesAreLines(es);
    LinesOfUnlines(ConfigLines(es));
    ConfigLinesAreOk(es);
    EmptyLineIsOk();
  }

  lemma EmptyLineIsOk()
    ensures LineOk(true, [])
  {}

  /** A configuration whose printed text reads back to the same cells was printable. */
  lemma {:induction false} ComesBackIsPrintable(c: Config)
    requires WellOrdered(c) && ParseText(Print(c)).Parsed? && Meaning(ParseText(Print(c)).config) == Meaning(c)
    ensures Printable(c)
  {
    hide WellOrdered, Meaning, Printable, ConfigOk, Lines, Print, ParseText, LineEdits;
    var t := Print(c);
    var c' := ParseText(t).config;
    ParseSucceedsIff(t);
    LinesAreLines(t);
    forall i | 0 <= i < |Lines(t)| ensures LineOk(false, Lines(t)[i]) {
      AnyLineIsOk(Lines(t)[i]);
    }
    ParsedIsOk(false, t);
    OkCarriesOver(false, c, c');
    OwnLinesAreOk(c);
    ParsedIsOk(true, t);
    OkCarriesOver(true, c, c');
    OkIsPrintable(c);
  }

  lemma {:induction false} AnyLineIsOk(line: CString)
    requires OneLine(line) && WellFormedLine(line)
    ensures LineOk(false, line)
  {
    if !IsComment(line) {
      forall section | GoodName(section) ensures EditsOk(false, LineEdits(section, line)) {
        LineEditsAreOk(section, line);
      }
    }
  }

  /** Saving and reading back gives the same cells if and only if every name, key and value can be
      printed, and some section name is `default` or a prefix of it. */
  lemma {:induction false} SaveThenParseIsIdentityIff(c: Config)
    requires WellOrdered(c)
    ensures ParseText(Print(c)).Parsed? && Meaning(ParseText(Print(c)).config) == Meaning(c)
       <==> Printable(c) && CoversDefault(InOrder(c))
  {
    hide WellOrdered, Meaning, Print, ParseText, CoversDefault;
    if Printable(c) {
      PrintableComesBackIff(c);
    } else if ParseText(Print(c)).Parsed? && Meaning(ParseText(Print(c)).config) == Meaning(c) {
      ComesBackIsPrintable(c);
    }
  }

  /** A key that begins with ';' is one that does not: its line is read as a comment. */
  lemma {:induction false} CommentKeyDoesNotComeBack(key: CString, value: CString)
    requires key != [] && key[0] == ';'
    ensures var c := Insert(Leaf, DEFAULT_SECTION, Insert(Leaf, key, value));
      && WellOrdered(c) && CoversDefault(InOrder(c))
      && !(ParseText(Print(c)).Parsed? && Meaning(ParseText(Print(c)).config) == Meaning(c))
  {
    var s := Insert(Leaf, key, value);
    var c := Insert(Leaf, DEFAULT_SECTION, s);
    assert InOrder(c) == [(DEFAULT_SECTION, s)] && InOrder(s) == [(key, value)];
    assert InOrder(c)[0].0 <= DEFAULT_SECTION;
    assert c == Node(Leaf, DEFAULT_SECTION, s, Leaf) && Ordered(s) && Ordered(c);
    assert Keys(c) == {DEFAULT_SECTION} && ToMap(c)[DEFAULT_SECTION] == s;
    hide Print, ParseText, Meaning;
    SaveThenParseIsIdentityIff(c);
    assert !GoodKey(InOrder(s)[0].0);
    assert !PrintableSection(InOrder(InOrder(c)[0].1));
  }
}
