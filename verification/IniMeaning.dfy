/**
  What a text leaves in the configuration it parses to (src/confile.c): the edits its lines
  make, in order, and which of the values set survive them.
 */
module IniMeaning {
  import opened CStrings
  import opened ConfTree
  import opened IniConfig
  import opened IniText
  import opened IniParser
  import opened IniRoundTrip

  /** Opening a section, or setting a key of the current one. */
  datatype Edit = Open(name: CString) | Put(name: CString, key: CString, value: CString)

  function LineEdits(section: CString, line: CString): seq<Edit>
    decreases |line|
  {
    var i := FirstIndex(line, IsMark);
    if i == |line| then []
    else if line[i] == '=' then [Put(section, Trim(line[..i]), Trim(line[i + 1..]))]
    else
      var rest := line[i + 1..];
      var j := FirstIndex(rest, IsClose);
      if j == |rest| then []
      else [Open(Trim(rest[..j]))] + LineEdits(Trim(rest[..j]), rest[j + 1..])
  }

  /** The current section after some edits. */
  function Current(section: CString, es: seq<Edit>): CString {
    if es == [] then section else es[|es| - 1].name
  }

  function Edits(section: CString, lines: seq<CString>): seq<Edit>
    decreases lines
  {
    if lines == [] then []
    else
      var es := if IsComment(lines[0]) then [] else LineEdits(section, lines[0]);
      es + Edits(Current(section, es), lines[1..])
  }

  function TextEdits(t: CString): seq<Edit> {
    Edits(DEFAULT_SECTION, Lines(t))
  }

  function Edited(c: Config, e: Edit): Config {
    match e
    case Open(name) => InsertSection(c, name)
    case Put(name, key, value) => SetString(c, Some(name), key, value)
  }

  function EditAll(es: seq<Edit>): Config {
    if es == [] then InitialConfig else Edited(EditAll(es[..|es| - 1]), es[|es| - 1])
  }

  // ----- a parse makes the edits of its lines -----

  lemma EditOnce(es: seq<Edit>, e: Edit)
    ensures EditAll(es + [e]) == Edited(EditAll(es), e)
  {
    assert (es + [e])[..|es|] == es;
  }

  lemma SetsKey(es: seq<Edit>, section: CString, key: CString, value: CString)
    requires Find(EditAll(es), section).Some? && key != []
    ensures SetKey(EditAll(es), section, key, value) == Continue(EditAll(es + [Put(section, key, value)]), section)
  {
    EditOnce(es, Put(section, key, value));
    hide EditAll, Find, Insert, Update;
  }

  lemma OpensSection(es: seq<Edit>, name: CString)
    ensures EditAll(es + [Open(name)]) == InsertSection(EditAll(es), name)
    ensures Find(EditAll(es + [Open(name)]), name).Some?
  {
    EditOnce(es, Open(name));
    FindAfterInsert<Section>(EditAll(es), name, Leaf);
  }

  /** A line up to and including its first bracketed name, and what remains of it. */
  lemma {:induction false} BracketLine(c: Config, section: CString, line: CString) returns (name: CString, tail: CString)
    requires Check(line) == Fine
    requires var i := FirstIndex(line, IsMark); i < |line| && line[i] == '['
    ensures |tail| < |line| && Check(tail) == Fine
    ensures Scan(c, section, line) == Scan(InsertSection(c, name), name, tail)
    ensures LineEdits(section, line) == [Open(name)] + LineEdits(name, tail)
  {
    hide Trim, InsertSection;
    var rest := line[FirstIndex(line, IsMark) + 1..];
    var j := FirstIndex(rest, IsClose);
    name, tail := Trim(rest[..j]), rest[j + 1..];
    assert Scan(c, section, line) == OpenSection(c, name, tail);
  }

  /** A line with no bracket before its first '='. */
  lemma {:induction false} PlainLine(es: seq<Edit>, section: CString, line: CString)
    requires Find(EditAll(es), section).Some? && Check(line) == Fine
    requires var i := FirstIndex(line, IsMark); i == |line| || line[i] == '='
    ensures Scan(EditAll(es), section, line)
         == Continue(EditAll(es + LineEdits(section, line)), Current(section, LineEdits(section, line)))
  {
    hide Trim, Find, EditAll, SetKey;
    var i := FirstIndex(line, IsMark);
    if i == |line| {
      assert es + [] == es;
    } else {
      SetsKey(es, section, Trim(line[..i]), Trim(line[i + 1..]));
    }
  }

  lemma {:induction false} ScanEdits(es: seq<Edit>, section: CString, line: CString)
    requires Find(EditAll(es), section).Some? && Check(line) == Fine
    ensures Scan(EditAll(es), section, line)
         == Continue(EditAll(es + LineEdits(section, line)), Current(section, LineEdits(section, line)))
    decreases |line|
  {
    hide Find, EditAll, InsertSection, Scan, LineEdits, Check;
    var i := FirstIndex(line, IsMark);
    if i == |line| || line[i] == '=' {
      PlainLine(es, section, line);
    } else {
      var name, tail := BracketLine(EditAll(es), section, line);
      OpensSection(es, name);
      ScanEdits(es + [Open(name)], name, tail);
      var more := LineEdits(name, tail);
      assert es + [Open(name)] + more == es + ([Open(name)] + more);
    }
  }

  lemma {:induction false} FoldEdits(es: seq<Edit>, section: CString, lines: seq<CString>)
    requires Find(EditAll(es), section).Some? && AllWellFormed(lines)
    ensures FoldLines(EditAll(es), section, lines) == Parsed(EditAll(es + Edits(section, lines)))
    decreases lines
  {
    hide EditAll, LineEdits, Scan, Check, Find;
    if lines == [] {
      assert es + [] == es;
    } else {
      assert WellFormedLine(lines[0]);
      var more := if IsComment(lines[0]) then [] else LineEdits(section, lines[0]);
      if IsComment(lines[0]) {
        assert es + more == es;
      } else {
        ScanEdits(es, section, lines[0]);
        ScanFollowsCheck(EditAll(es), section, lines[0]);
      }
      assert forall k :: 0 <= k < |lines[1..]| ==> lines[1..][k] == lines[k + 1];
      FoldEdits(es + more, Current(section, more), lines[1..]);
      var later := Edits(Current(section, more), lines[1..]);
      assert es + more + later == es + (more + later);
    }
  }

  /** A text of well-formed lines parses to what its edits make of the initial configuration. */
  lemma {:induction false} ParseMakesEdits(t: CString)
    requires AllWellFormed(Lines(t))
    ensures ParseText(t) == Parsed(EditAll(TextEdits(t)))
  {
    OpensEmpty(Leaf, DEFAULT_SECTION);
    assert EditAll([]) == InitialConfig;
    hide EditAll, Lines, FoldLines, Edits, AllWellFormed;
    FoldEdits([], DEFAULT_SECTION, Lines(t));
    assert [] + TextEdits(t) == TextEdits(t);
  }

  // ----- what survives -----

  /** What a cell holds after some edits: the last value set, unless its section was opened
      again since. */
  function Survivor(es: seq<Edit>, name: CString, key: CString): Option<CString> {
    if es == [] then None
    else
      var e := es[|es| - 1];
      if e.name != name then Survivor(es[..|es| - 1], name, key)
      else if e.Open? then None
      else if e.key == key then Some(e.value)
      else Survivor(es[..|es| - 1], name, key)
  }

  predicate Touches(e: Edit, name: CString, key: CString) {
    e.name == name && (e.Put? ==> e.key == key)
  }

  /** The edit at `i` sets the cell to `value`, and no later one touches it. */
  predicate SetsForGood(es: seq<Edit>, i: nat, name: CString, key: CString, value: CString) {
    && i < |es| && es[i] == Put(name, key, value)
    && forall j :: i < j < |es| ==> !Touches(es[j], name, key)
  }

  /** A value survives exactly when some edit set it and no later one sets the same cell or opens
      its section. */
  lemma {:induction false} SurvivesIff(es: seq<Edit>, name: CString, key: CString, value: CString)
    ensures Survivor(es, name, key) == Some(value) <==> exists i :: SetsForGood(es, i, name, key, value)
  {
    if es != [] {
      var before, last := es[..|es| - 1], es[|es| - 1];
      if Touches(last, name, key) {
        assert last == Put(name, key, value) ==> SetsForGood(es, |es| - 1, name, key, value);
      } else {
        SurvivesIff(before, name, key, value);
        assert forall i :: SetsForGood(before, i, name, key, value) <==> SetsForGood(es, i, name, key, value);
      }
    }
  }

  ghost function NamesOf(es: seq<Edit>): set<CString> {
    {DEFAULT_SECTION} + set e | e in es :: e.name
  }

  ghost function KeysOf(es: seq<Edit>, name: CString): set<CString> {
    set e | e in es && e.Put? && e.name == name :: e.key
  }

  /** No section name of the text, nor `default`, is a proper prefix of another, and no key of a
      section of another key of that section. */
  ghost predicate PrefixFreeEdits(es: seq<Edit>) {
    PrefixFree(NamesOf(es)) && forall name :: PrefixFree(KeysOf(es, name))
  }

  lemma {:induction false} SurvivorWasPut(es: seq<Edit>, name: CString, key: CString)
    requires Survivor(es, name, key).Some?
    ensures key in KeysOf(es, name)
  {
    SurvivesIff(es, name, key, Survivor(es, name, key).value);
  }

  ghost predicate Holds(c: Config, es: seq<Edit>) {
    && WellOrdered(c)
    && Keys(c) == NamesOf(es)
    && forall name, key :: Read(c, name, key) == Survivor(es, name, key)
  }

  lemma {:induction false} PrefixFreeBefore(es: seq<Edit>)
    requires es != [] && PrefixFreeEdits(es)
    ensures PrefixFreeEdits(es[..|es| - 1])
    ensures NamesOf(es) == NamesOf(es[..|es| - 1]) + {es[|es| - 1].name}
  {
    var before, last := es[..|es| - 1], es[|es| - 1];
    assert forall e :: e in es <==> e in before || e == last;
    hide PrefixFree;
    forall n ensures n in NamesOf(es) <==> n in NamesOf(before) || n == last.name {
      assert last in es;
    }
    SmallerIsPrefixFree(NamesOf(es), NamesOf(before));
    forall name ensures PrefixFree(KeysOf(before, name)) {
      SmallerIsPrefixFree(KeysOf(es, name), KeysOf(before, name));
    }
  }

  /** Nothing stored extends the names of the last edit, so it meets no prefix hazard. */
  lemma {:induction false} LastEditIsSafe(c: Config, es: seq<Edit>)
    requires es != [] && PrefixFreeEdits(es) && Holds(c, es[..|es| - 1])
    ensures NoProperExtension(c, es[|es| - 1].name)
    ensures es[|es| - 1].Put? ==> SafeToSet(c, es[|es| - 1].name, es[|es| - 1].key)
  {
    hide Survivor, Ordered;
    var before, last := es[..|es| - 1], es[|es| - 1];
    PrefixFreeBefore(es);
    assert last.name in NamesOf(es);
    if last.Put? && Find(c, last.name).Some? {
      var s := Find(c, last.name).value;
      assert PrefixFree(KeysOf(es, last.name)) && last.key in KeysOf(es, last.name);
      SectionsOf(c, last.name);
      forall k | k in Keys(s) ensures !(last.key < k) {
        FindReadsTheMap(s, k);
        assert Read(c, last.name, k).Some?;
        SurvivorWasPut(before, last.name, k);
        assert k in KeysOf(es, last.name);
      }
    }
  }

  lemma {:induction false} EditHolds(c: Config, es: seq<Edit>)
    requires es != [] && PrefixFreeEdits(es) && Holds(c, es[..|es| - 1])
    ensures Holds(Edited(c, es[|es| - 1]), es)
  {
    hide WellOrdered, Insert, SetString, InsertSection, Keys, Read, PrefixFreeEdits, NoProperExtension, SafeToSet;
    var before, last := es[..|es| - 1], es[|es| - 1];
    PrefixFreeBefore(es);
    LastEditIsSafe(c, es);
    var r := Edited(c, last);
    if last.Open? {
      OpeningClears(c, last.name);
    } else {
      SetChangesOneCell(c, Some(last.name), last.key, last.value);
      ReadElsewhere(c, r, last.name);
    }
    forall name, key ensures Read(r, name, key) == Survivor(es, name, key) {
      assert Read(c, name, key) == Survivor(before, name, key);
    }
  }

  lemma ReadElsewhere(c: Config, r: Config, name: CString)
    requires forall other :: other != name ==> Find(r, other) == Find(c, other)
    ensures forall other, key :: other != name ==> Read(r, other, key) == Read(c, other, key)
  {}

  lemma {:induction false} EditsHold(es: seq<Edit>)
    requires PrefixFreeEdits(es)
    ensures Holds(EditAll(es), es)
  {
    if es == [] {
      InitialHolds();
    } else {
      PrefixFreeBefore(es);
      EditsHold(es[..|es| - 1]);
      EditHolds(EditAll(es[..|es| - 1]), es);
    }
  }

  lemma InitialHolds()
    ensures Holds(InitialConfig, [])
  {
    InitialIsOrdered();
    forall name, key ensures Read(InitialConfig, name, key) == None {
      FindReadsTheMap(InitialConfig, name);
      OpensEmpty(Leaf, DEFAULT_SECTION);
    }
  }

  /** Every text of well-formed lines, in which no name or key is a proper prefix of another, parses
      to the sections it opens with, in each cell, the last value set since its section was
      last opened. */
  lemma {:induction false} ParsedCells(t: CString)
    requires AllWellFormed(Lines(t)) && PrefixFreeEdits(TextEdits(t))
    ensures ParseText(t).Parsed?
    ensures var c := ParseText(t).config;
      && WellOrdered(c)
      && Keys(c) == NamesOf(TextEdits(t))
      && forall name, key :: Read(c, name, key) == Survivor(TextEdits(t), name, key)
  {
    ParseMakesEdits(t);
    EditsHold(TextEdits(t));
  }

  /** A section has lost what was set in it once it is opened again, or one whose name is a proper
      prefix of its own is opened, whatever the names, key and value. */
  lemma {:induction false} OpeningLoses(name: CString, prefix: CString, key: CString, value: CString)
    requires GoodName(name) && GoodName(prefix) && GoodKey(key) && GoodValue(value)
    requires prefix == name || (prefix < name && !(prefix <= DEFAULT_SECTION))
    ensures var once := "[" + name + "]" + "\n" + (key + "=" + value);
      && ParseText(once).Parsed?
      && Read(ParseText(once).config, name, key) == Some(value)
      && ParseText(once + "\n" + ("[" + prefix + "]")).Parsed?
      && Read(ParseText(once + "\n" + ("[" + prefix + "]")).config, name, key) == None
  {
    hide ReadLine, Insert, Update, InsertSection, Lines, FoldLines;
    var head, line, again := "[" + name + "]", key + "=" + value, "[" + prefix + "]";
    var c1 := InsertSection(InitialConfig, name);
    var s := Insert(Leaf, key, value);
    var c2 := Update(c1, name, s);
    OpensEmpty(InitialConfig, name);
    ReadHeader(InitialConfig, DEFAULT_SECTION, name);
    ReadKeyLine(c1, name, key, value);
    ReadHeader(c2, name, prefix);
    UpdateFacts(c1, name, s, name);
    FindAfterInsert<CString>(Leaf, key, value);
    OpeningHides(name, prefix, s);
    LinesOfLine(head, line);
    LinesOfLine(line, again);
    LinesOfLine(again, []);
    LinesOfLine(head, line + "\n" + again);
    assert head + "\n" + line + "\n" + again == head + "\n" + (line + "\n" + again);
    FoldFirst(InitialConfig, DEFAULT_SECTION, head, [line]);
    FoldFirst(InitialConfig, DEFAULT_SECTION, head, [line] + [again]);
    FoldFirst(c1, name, line, [again]);
    FoldFirst(c1, name, line, []);
    FoldFirst(c2, name, again, []);
    FoldNone(c2, name);
    FoldNone(InsertSection(c2, prefix), prefix);
    assert [line] + [] == [line] && [again] + [] == [again];
  }

  lemma {:induction false} OpeningHides(name: CString, prefix: CString, s: Section)
    requires prefix == name || (prefix < name && !(prefix <= DEFAULT_SECTION))
    ensures var c := Update(InsertSection(InitialConfig, name), name, s);
      Find(InsertSection(c, prefix), name) == if prefix == name then Some(Leaf) else None
  {
    var c1 := InsertSection(InitialConfig, name);
    var c := Update(c1, name, s);
    OpensEmpty(c, prefix);
    if prefix != name {
      InitialIsOrdered();
      InsertKeepsOrderIff<Section>(InitialConfig, name, Leaf);
      HitIsAnExtension(InitialConfig, name);
      StrCmpTrichotomy(DEFAULT_SECTION, DEFAULT_SECTION);
      InsertedKeys<Section>(InitialConfig, name, Leaf);
      UpdateFacts(c1, name, s, name);
      HitIsAnExtension(c, prefix);
      assert Hit(c, prefix) == Some(name) by {
        assert name in Keys(c) && Keys(c) <= {DEFAULT_SECTION, name} && prefix <= name;
      }
      StrCmpTrichotomy(name, name);
      FindAfterAnyInsert<Section>(c, prefix, Leaf, name);
    }
  }

  lemma FoldNone(c: Config, section: CString)
    ensures FoldLines(c, section, []) == Parsed(c)
  {}

  lemma FoldFirst(c: Config, section: CString, line: CString, rest: seq<CString>)
    ensures FoldLines(c, section, [line] + rest) == AfterLine(ReadLine(c, section, line), rest)
  {}
}
