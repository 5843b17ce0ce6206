/**
  Saving a configuration and reading it back.  The printer walks both levels in order, so the
  reader inserts names in ascending order and never meets a stored name that extends the new
  one, except for the default section it creates before it starts.
 */
module IniRoundTrip {
  import opened CStrings
  import opened ConfTree
  import opened IniConfig
  import opened IniText
  import opened IniParser

  // ----- printing -----

  /** `ini_config_save_traverse_value` over a section, in order. */
  function PrintSection(s: Section): CString {
    if s.Leaf? then [] else PrintSection(s.left) + (s.key + "=" + s.data + "\n") + PrintSection(s.right)
  }

  /** `ini_config_save_traverse_section` over the configuration, in order. */
  function Print(c: Config): CString {
    if c.Leaf? then []
    else Print(c.left) + ("[" + c.key + "]" + "\n" + PrintSection(c.data)) + Print(c.right)
  }

  function Unlines(ls: seq<CString>): CString {
    if ls == [] then [] else ls[0] + "\n" + Unlines(ls[1..])
  }

  function KeyLines(es: seq<(CString, CString)>): seq<CString> {
    if es == [] then [] else [es[0].0 + "=" + es[0].1] + KeyLines(es[1..])
  }

  function ConfigLines(es: seq<(CString, Section)>): seq<CString> {
    if es == [] then []
    else ["[" + es[0].0 + "]"] + KeyLines(InOrder(es[0].1)) + ConfigLines(es[1..])
  }

  lemma {:induction false} UnlinesConcat(a: seq<CString>, b: seq<CString>)
    ensures Unlines(a + b) == Unlines(a) + Unlines(b)
  {
    if a == [] {
      assert a + b == b;
    } else {
      assert (a + b)[1..] == a[1..] + b;
      UnlinesConcat(a[1..], b);
      assert Unlines(a + b) == a[0] + "\n" + (Unlines(a[1..]) + Unlines(b));
    }
  }

  lemma {:induction false} KeyLinesConcat(a: seq<(CString, CString)>, b: seq<(CString, CString)>)
    ensures KeyLines(a + b) == KeyLines(a) + KeyLines(b)
  {
    if a == [] {
      assert a + b == b;
    } else {
      assert (a + b)[1..] == a[1..] + b;
      KeyLinesConcat(a[1..], b);
    }
  }

  lemma {:induction false} ConfigLinesConcat(a: seq<(CString, Section)>, b: seq<(CString, Section)>)
    ensures ConfigLines(a + b) == ConfigLines(a) + ConfigLines(b)
  {
    if a == [] {
      assert a + b == b;
    } else {
      assert (a + b)[1..] == a[1..] + b;
      ConfigLinesConcat(a[1..], b);
    }
  }

  lemma {:induction false} PrintSectionByLines(s: Section)
    ensures PrintSection(s) == Unlines(KeyLines(InOrder(s)))
  {
    if s.Node? {
      PrintSectionByLines(s.left);
      PrintSectionByLines(s.right);
      var l, e, r := InOrder(s.left), [(s.key, s.data)], InOrder(s.right);
      KeyLinesConcat(l, e);
      KeyLinesConcat(l + e, r);
      assert KeyLines(e) == [s.key + "=" + s.data];
      UnlinesConcat(KeyLines(l), KeyLines(e));
      UnlinesConcat(KeyLines(l) + KeyLines(e), KeyLines(r));
      assert Unlines(KeyLines(e)) == s.key + "=" + s.data + "\n";
    }
  }

  lemma {:induction false} PrintByLines(c: Config)
    ensures Print(c) == Unlines(ConfigLines(InOrder(c)))
  {
    if c.Node? {
      PrintByLines(c.left);
      PrintByLines(c.right);
      var l, e, r := InOrder(c.left), [(c.key, c.data)], InOrder(c.right);
      ConfigLinesConcat(l, e);
      ConfigLinesConcat(l + e, r);
      PrintOneSection(c.key, c.data);
      UnlinesConcat(ConfigLines(l), ConfigLines(e));
      UnlinesConcat(ConfigLines(l) + ConfigLines(e), ConfigLines(r));
    }
  }

  lemma {:induction false} PrintOneSection(name: CString, s: Section)
    ensures Unlines(ConfigLines([(name, s)])) == "[" + name + "]" + "\n" + PrintSection(s)
  {
    PrintSectionByLines(s);
    var head: seq<CString> := ["[" + name + "]"];
    assert ConfigLines([(name, s)]) == head + KeyLines(InOrder(s));
    UnlinesConcat(head, KeyLines(InOrder(s)));
  }

  lemma {:induction false} LinesOfUnlines(ls: seq<CString>)
    requires forall i :: 0 <= i < |ls| ==> OneLine(ls[i])
    ensures Lines(Unlines(ls)) == ls + [[]]
  {
    if ls != [] {
      LinesOfUnlines(ls[1..]);
      LinesOfLine(ls[0], Unlines(ls[1..]));
      assert [ls[0]] + (ls[1..] + [[]]) == ls + [[]];
    }
  }

  // ----- what can be printed and read back -----

  predicate GoodName(n: CString) {
    n != [] && Trimmed(n) && OneLine(n) && ']' !in n && |n| <= MAX_NAME
  }

  predicate GoodKey(k: CString) {
    k != [] && Trimmed(k) && OneLine(k) && (forall i :: 0 <= i < |k| ==> !IsMark(k[i])) && k[0] != ';'
  }

  predicate GoodValue(v: CString) {
    Trimmed(v) && OneLine(v)
  }

  ghost predicate PrintableSection(es: seq<(CString, CString)>) {
    Ascending(es) && forall i :: 0 <= i < |es| ==> GoodKey(es[i].0) && GoodValue(es[i].1)
  }

  ghost predicate PrintableEntries(es: seq<(CString, Section)>) {
    Ascending(es) && forall i :: 0 <= i < |es| ==> GoodName(es[i].0) && PrintableSection(InOrder(es[i].1))
  }

  // ----- folding over parts of a text -----

  function FoldTo(c: Config, section: CString, lines: seq<CString>): LineOutcome
    decreases lines
  {
    if lines == [] then Continue(c, section)
    else
      match ReadLine(c, section, lines[0])
      case Stop(o) => Stop(o)
      case Continue(c', section') => FoldTo(c', section', lines[1..])
  }

  function FoldOn(o: LineOutcome, lines: seq<CString>): LineOutcome {
    match o
    case Stop(_) => o
    case Continue(c, section) => FoldTo(c, section, lines)
  }

  lemma {:induction false} FoldLinesInParts(c: Config, section: CString, a: seq<CString>, b: seq<CString>)
    ensures FoldLines(c, section, a + b) == AfterLine(FoldTo(c, section, a), b)
    decreases a
  {
    hide ReadLine;
    if a == [] {
      assert a + b == b;
    } else {
      assert (a + b)[1..] == a[1..] + b;
      match ReadLine(c, section, a[0])
      case Stop(o) =>
      case Continue(c', section') => FoldLinesInParts(c', section', a[1..], b);
    }
  }

  lemma {:induction false} FoldToInParts(c: Config, section: CString, a: seq<CString>, b: seq<CString>)
    ensures FoldTo(c, section, a + b) == FoldOn(FoldTo(c, section, a), b)
    decreases a
  {
    hide ReadLine;
    if a == [] {
      assert a + b == b;
    } else {
      assert (a + b)[1..] == a[1..] + b;
      match ReadLine(c, section, a[0])
      case Stop(o) =>
      case Continue(c', section') => FoldToInParts(c', section', a[1..], b);
    }
  }

  // ----- one section -----

  /** Inserting entries one after another. */
  function InsertAll(t: Section, es: seq<(CString, CString)>): Section
    decreases es
  {
    if es == [] then t else InsertAll(Insert(t, es[0].0, es[0].1), es[1..])
  }

  function Assign<V>(m: map<CString, V>, es: seq<(CString, V)>): map<CString, V>
    decreases es
  {
    if es == [] then m else Assign(m[es[0].0 := es[0].1], es[1..])
  }

  ghost predicate AllBefore<V, W>(t: Tree<V>, es: seq<(CString, W)>) {
    forall k, i :: k in Keys(t) && 0 <= i < |es| ==> Less(k, es[i].0)
  }

  /** Ascending insertion after everything stored never meets a stored extension. */
  lemma {:induction false} AscendingInsertion(t: Section, es: seq<(CString, CString)>)
    requires Ordered(t) && Ascending(es) && AllBefore(t, es)
    ensures Ordered(InsertAll(t, es)) && ToMap(InsertAll(t, es)) == Assign(ToMap(t), es)
    decreases es
  {
    if es != [] {
      var (k, v) := es[0];
      forall x | x in Keys(t) ensures !(k < x) {
        MemCmpIsStrCmpUnlessProperPrefix(k, x);
        StrCmpTrichotomy(k, x);
        assert Less(x, es[0].0);
      }
      InsertRefinesMapUpdate(t, k, v);
      var t' := Insert(t, k, v);
      assert Keys(t') == ToMap(t)[k := v].Keys;
      forall x, i | x in Keys(t') && 0 <= i < |es[1..]| ensures Less(x, es[1..][i].0) {
        assert es[1..][i] == es[i + 1];
        assert Less(es[0].0, es[i + 1].0);
      }
      assert Ascending(es[1..]);
      AscendingInsertion(t', es[1..]);
    }
  }

  lemma {:induction false} UpdateTwice<V>(t: Tree<V>, key: CString, a: V, b: V)
    ensures Update(Update(t, key, a), key, b) == Update(t, key, b)
  {
    if t.Node? {
      UpdateTwice(t.left, key, a, b);
      UpdateTwice(t.right, key, a, b);
    }
  }

  lemma {:induction false} UpdateSame<V>(t: Tree<V>, key: CString)
    requires Find(t, key).Some?
    ensures Update(t, key, Find(t, key).value) == t
  {
    var comp := StrCmp(key, t.key);
    if comp > 0 {
      UpdateSame(t.right, key);
    } else if comp < 0 {
      UpdateSame(t.left, key);
    }
  }

  lemma ReadKeyLine(c: Config, section: CString, key: CString, value: CString)
    requires GoodKey(key) && GoodValue(value) && Find(c, section).Some?
    ensures ReadLine(c, section, key + "=" + value)
         == Continue(Update(c, section, Insert(Find(c, section).value, key, value)), section)
  {
    hide Scan;
    ScanKey(c, section, key, value);
    assert (key + "=" + value)[0] == key[0];
  }

  lemma {:induction false} ReadKeyLines(c: Config, section: CString, es: seq<(CString, CString)>)
    requires Find(c, section).Some? && PrintableSection(es)
    ensures FoldTo(c, section, KeyLines(es))
         == Continue(Update(c, section, InsertAll(Find(c, section).value, es)), section)
    decreases es
  {
    hide ReadLine;
    var s := Find(c, section).value;
    if es == [] {
      UpdateSame(c, section);
    } else {
      var (k, v) := es[0];
      assert GoodKey(es[0].0);
      ReadKeyLine(c, section, k, v);
      var s' := Insert(s, k, v);
      var c' := Update(c, section, s');
      UpdateFacts(c, section, s', section);
      assert KeyLines(es)[0] == k + "=" + v && KeyLines(es)[1..] == KeyLines(es[1..]);
      assert PrintableSection(es[1..]) by {
        assert forall i :: 0 <= i < |es[1..]| ==> es[1..][i] == es[i + 1];
      }
      ReadKeyLines(c', section, es[1..]);
      UpdateTwice(c, section, s', InsertAll(s', es[1..]));
    }
  }

  lemma {:induction false} AssignConcat<V>(m: map<CString, V>, a: seq<(CString, V)>, b: seq<(CString, V)>)
    ensures Assign(m, a + b) == Assign(Assign(m, a), b)
    decreases a
  {
    if a == [] {
      assert a + b == b;
    } else {
      assert (a + b)[1..] == a[1..] + b;
      AssignConcat(m[a[0].0 := a[0].1], a[1..], b);
    }
  }

  lemma {:induction false} AssignInOrder<V>(m: map<CString, V>, t: Tree<V>)
    ensures Assign(m, InOrder(t)) == m + ToMap(t)
    decreases t
  {
    if t.Node? {
      var l, e, r := InOrder(t.left), [(t.key, t.data)], InOrder(t.right);
      AssignConcat(m, l, e);
      AssignConcat(m, l + e, r);
      AssignInOrder(m, t.left);
      var m' := (m + ToMap(t.left))[t.key := t.data];
      AssignOne(m + ToMap(t.left), t.key, t.data);
      AssignInOrder(m', t.right);
      JoinAfter(m, ToMap(t.left), t.key, t.data, ToMap(t.right));
    }
  }

  lemma JoinAfter<V>(m: map<CString, V>, l: map<CString, V>, k: CString, v: V, r: map<CString, V>)
    ensures (m + l)[k := v] + r == m + Join(l, k, v, r)
  {}

  lemma AssignOne<V>(m: map<CString, V>, k: CString, v: V)
    ensures Assign(m, [(k, v)]) == m[k := v]
  {}

  // ----- the whole configuration -----

  type Cells = map<CString, map<CString, CString>>

  ghost function CellsOf(m: map<CString, Section>): (r: Cells)
    ensures r.Keys == m.Keys
  {
    map n | n in m :: ToMap(m[n])
  }

  /** A configuration as a map from section names to maps from keys to values. */
  ghost function Meaning(c: Config): (m: Cells)
    ensures m.Keys == Keys(c)
  {
    CellsOf(ToMap(c))
  }

  lemma CellsOfUpdate(m: map<CString, Section>, name: CString, s: Section, gone: set<CString>)
    ensures CellsOf((m - gone)[name := s]) == (CellsOf(m) - gone)[name := ToMap(s)]
  {}

  /** The effect of reading one more section: a name that `default` extends takes the place of
      the default section. */
  ghost function Load(m: Cells, name: CString, cells: map<CString, CString>): Cells {
    (if name <= DEFAULT_SECTION then m - {DEFAULT_SECTION} else m)[name := cells]
  }

  ghost predicate OthersBefore(c: Config, name: CString) {
    forall k :: k in Keys(c) ==> k == DEFAULT_SECTION || Less(k, name)
  }

  /** The only stored name an ascending insertion can hit is the default section. */
  lemma HitsOnlyDefault(c: Config, name: CString)
    requires Ordered(c) && OthersBefore(c, name)
    ensures Hit(c, name) == if name <= DEFAULT_SECTION && DEFAULT_SECTION in Keys(c) then Some(DEFAULT_SECTION) else None
    ensures LeastExtension(c, name, Hit(c, name))
  {
    HitIsAnExtension(c, name);
    forall k | k in Keys(c) && name <= k ensures k == DEFAULT_SECTION {
      MemCmpIsStrCmpUnlessProperPrefix(name, k);
      StrCmpTrichotomy(name, k);
      StrCmpTrichotomy(k, k);
    }
    StrCmpTrichotomy(DEFAULT_SECTION, DEFAULT_SECTION);
  }

  lemma {:induction false} AddSectionInOrder(c: Config, name: CString)
    requires WellOrdered(c) && OthersBefore(c, name)
    ensures WellOrdered(InsertSection(c, name))
    ensures Meaning(InsertSection(c, name)) == Load(Meaning(c), name, map[])
  {
    hide Hit, Insert, Ordered, ToMap;
    HitsOnlyDefault(c, name);
    InsertOnMaps<Section>(c, name, Leaf);
    InsertKeepsOrderIff<Section>(c, name, Leaf);
    EmptyTree();
    var gone := if name <= DEFAULT_SECTION then {DEFAULT_SECTION} else {};
    assert Dropping(ToMap(c), Hit(c, name)) == ToMap(c) - gone;
    CellsOfUpdate(ToMap(c), name, Leaf, gone);
    assert Meaning(c) - {} == Meaning(c);
  }

  lemma EmptyTree()
    ensures Ordered<CString>(Leaf) && ToMap<CString>(Leaf) == map[]
  {}

  lemma {:induction false} UpdateMeaning(c: Config, name: CString, s: Section)
    requires WellOrdered(c) && name in Keys(c) && Ordered(s)
    ensures WellOrdered(Update(c, name, s)) && Meaning(Update(c, name, s)) == Meaning(c)[name := ToMap(s)]
  {
    hide Update, Ordered, ToMap, Find;
    UpdateOneSection(c, name, s);
    UpdateOnMaps(c, name, s);
    assert ToMap(c) - {} == ToMap(c);
    CellsOfUpdate(ToMap(c), name, s, {});
    assert Meaning(c) - {} == Meaning(c);
  }

  lemma {:induction false} UpdateOnMaps<V>(t: Tree<V>, key: CString, data: V)
    requires Ordered(t) && key in Keys(t)
    ensures ToMap(Update(t, key, data)) == ToMap(t)[key := data]
  {
    StrCmpTrichotomy(key, t.key);
    OutsideTheGap(t, key);
    SidesAreDisjoint(t);
    var l, r := ToMap(t.left), ToMap(t.right);
    if Less(key, t.key) {
      UpdateOnMaps(t.left, key, data);
      EditLeftPart(l, t.key, t.data, r, None, key, data);
    } else if Less(t.key, key) {
      UpdateOnMaps(t.right, key, data);
      EditRightPart(l, t.key, t.data, r, None, key, data);
    } else {
      EditMiddlePart(l, t.key, t.data, r, key, data);
      assert (ToMap(t) - {key})[key := data] == ToMap(t)[key := data];
    }
  }

  lemma {:induction false} ReadSectionLines(c: Config, section: CString, name: CString, s: Section)
    requires GoodName(name) && PrintableSection(InOrder(s))
    ensures FoldTo(c, section, ["[" + name + "]"] + KeyLines(InOrder(s)))
         == Continue(Update(InsertSection(c, name), name, InsertAll(Leaf, InOrder(s))), name)
  {
    hide ReadLine, FoldTo, InsertAll, Update, Find, Insert;
    FindAfterInsert<Section>(c, name, Leaf);
    ReadHeader(c, section, name);
    ReadKeyLines(InsertSection(c, name), name, InOrder(s));
    FoldToHead(c, section, "[" + name + "]", KeyLines(InOrder(s)));
  }

  lemma {:induction false} ReadSection(c: Config, section: CString, name: CString, s: Section) returns (c': Config)
    requires WellOrdered(c) && OthersBefore(c, name) && GoodName(name)
    requires Ordered(s) && PrintableSection(InOrder(s))
    ensures FoldTo(c, section, ["[" + name + "]"] + KeyLines(InOrder(s))) == Continue(c', name)
    ensures WellOrdered(c') && Meaning(c') == Load(Meaning(c), name, ToMap(s))
  {
    hide FoldTo, KeyLines, Update, InsertAll, InsertSection, Ordered, ToMap, InOrder, WellOrdered, Meaning, Keys;
    ReadSectionLines(c, section, name, s);
    var s' := RebuildSection(s);
    var c1 := InsertSection(c, name);
    AddSectionInOrder(c, name);
    assert name in Meaning(c1);
    UpdateMeaning(c1, name, s');
    c' := Update(c1, name, s');
  }

  /** Reading the keys of a section in order rebuilds its map. */
  lemma {:induction false} RebuildSection(s: Section) returns (s': Section)
    requires Ordered(s)
    ensures s' == InsertAll(Leaf, InOrder(s)) && Ordered(s') && ToMap(s') == ToMap(s)
  {
    hide InsertAll, Assign, Ordered, ToMap, InOrder;
    s' := InsertAll(Leaf, InOrder(s));
    OrderedIffAscending(s);
    EmptyTree();
    AscendingInsertion(Leaf, InOrder(s));
    AssignInOrder(map[], s);
    assert map[] + ToMap(s) == ToMap(s);
  }

  lemma ReadHeader(c: Config, section: CString, name: CString)
    requires GoodName(name)
    ensures ReadLine(c, section, "[" + name + "]") == Continue(InsertSection(c, name), name)
  {
    ScanSection(c, section, name, []);
    assert "[" + name + "]" + [] == "[" + name + "]";
    assert Scan(InsertSection(c, name), name, []) == Continue(InsertSection(c, name), name);
  }

  lemma FoldToHead(c: Config, section: CString, line: CString, rest: seq<CString>)
    ensures FoldTo(c, section, [line] + rest) == FoldOn(ReadLine(c, section, line), rest)
  {}

  ghost function LoadAll(m: Cells, es: seq<(CString, Section)>): Cells
    decreases es
  {
    if es == [] then m else LoadAll(Load(m, es[0].0, ToMap(es[0].1)), es[1..])
  }

  ghost predicate AllOthersBefore(c: Config, es: seq<(CString, Section)>) {
    forall k, i :: k in Keys(c) && 0 <= i < |es| ==> k == DEFAULT_SECTION || Less(k, es[i].0)
  }

  lemma {:induction false} ReadSections(c: Config, section: CString, es: seq<(CString, Section)>)
    returns (c': Config, section': CString)
    requires WellOrdered(c) && PrintableEntries(es) && AllOthersBefore(c, es)
    requires forall i :: 0 <= i < |es| ==> Ordered(es[i].1)
    ensures FoldTo(c, section, ConfigLines(es)) == Continue(c', section')
    ensures WellOrdered(c') && Meaning(c') == LoadAll(Meaning(c), es)
    decreases es
  {
    hide ReadLine, Ordered, ToMap, KeyLines, InOrder;
    if es == [] {
      c', section' := c, section;
    } else {
      var (name, s) := es[0];
      assert es[0].0 == name;
      assert OthersBefore(c, name);
      var c1 := ReadSection(c, section, name, s);
      var first := ["[" + name + "]"] + KeyLines(InOrder(s));
      assert ConfigLines(es) == first + ConfigLines(es[1..]);
      FoldToInParts(c, section, first, ConfigLines(es[1..]));
      RestStaysReadable(c, c1, es);
      c', section' := ReadSections(c1, name, es[1..]);
    }
  }

  lemma RestStaysReadable(c: Config, c1: Config, es: seq<(CString, Section)>)
    requires es != [] && PrintableEntries(es) && AllOthersBefore(c, es)
    requires Meaning(c1) == Load(Meaning(c), es[0].0, ToMap(es[0].1))
    ensures PrintableEntries(es[1..]) && AllOthersBefore(c1, es[1..])
  {
    assert forall i :: 0 <= i < |es[1..]| ==> es[1..][i] == es[i + 1];
    assert Keys(c1) <= Keys(c) + {es[0].0} by { assert Keys(c1) == Meaning(c1).Keys; }
    forall k, i | k in Keys(c1) && 0 <= i < |es[1..]| ensures k == DEFAULT_SECTION || Less(k, es[1..][i].0) {
      if k == es[0].0 {
        assert Less(es[0].0, es[i + 1].0);
      } else {
        assert k in Keys(c);
        assert k == DEFAULT_SECTION || Less(k, es[i + 1].0);
      }
    }
  }

  // ----- the round trip -----

  /** A name of which `default` is an extension (or which is `default`) is among the entries. */
  ghost predicate CoversDefault<V>(es: seq<(CString, V)>) {
    exists i :: 0 <= i < |es| && es[i].0 <= DEFAULT_SECTION
  }

  ghost predicate HasName<V>(es: seq<(CString, V)>, k: CString) {
    exists i :: 0 <= i < |es| && es[i].0 == k
  }

  /** What loading ascending entries does to each cell. */
  lemma {:induction false} LoadAllCell(m: Cells, es: seq<(CString, Section)>, k: CString)
    requires Ascending(es)
    ensures k in LoadAll(m, es) <==> HasName(es, k) || (k in m && !(k == DEFAULT_SECTION && CoversDefault(es)))
    ensures forall i :: 0 <= i < |es| && es[i].0 == k ==> LoadAll(m, es)[k] == ToMap(es[i].1)
    ensures k in LoadAll(m, es) && !HasName(es, k) ==> LoadAll(m, es)[k] == m[k]
    decreases es
  {
    if es != [] {
      var (name, s) := es[0];
      var rest := es[1..];
      assert forall i :: 0 <= i < |rest| ==> rest[i] == es[i + 1];
      var m' := Load(m, name, ToMap(s));
      LoadAllCell(m', rest, k);
      NamesOfRest(es, k);
    }
  }

  lemma NamesOfRest<V>(es: seq<(CString, V)>, k: CString)
    requires es != [] && Ascending(es)
    ensures CoversDefault(es) <==> es[0].0 <= DEFAULT_SECTION || CoversDefault(es[1..])
    ensures HasName(es, k) <==> es[0].0 == k || HasName(es[1..], k)
    ensures HasName(es[1..], k) ==> es[0].0 != k
    ensures CoversDefault(es[1..]) ==> es[0].0 != DEFAULT_SECTION
  {
    assert forall i :: 0 <= i < |es[1..]| ==> es[1..][i] == es[i + 1];
    FirstIsLeast(es);
    hide Ascending;
    if CoversDefault(es) && !(es[0].0 <= DEFAULT_SECTION) {
      var i :| 0 <= i < |es| && es[i].0 <= DEFAULT_SECTION;
      assert es[1..][i - 1] == es[i];
    }
    if HasName(es, k) && es[0].0 != k {
      var i :| 0 <= i < |es| && es[i].0 == k;
      assert es[1..][i - 1] == es[i];
    }
  }

  /** The first name is none of the later ones, nor an extension of one. */
  lemma {:induction false} FirstIsLeast<V>(es: seq<(CString, V)>)
    requires es != [] && Ascending(es)
    ensures forall i :: 0 < i < |es| ==> es[i].0 != es[0].0 && !(es[i].0 <= es[0].0)
  {
    forall i | 0 < i < |es| ensures es[i].0 != es[0].0 && !(es[i].0 <= es[0].0) {
      assert Less(es[0].0, es[i].0);
      StrCmpTrichotomy(es[0].0, es[i].0);
      StrCmpTrichotomy(es[0].0, es[0].0);
      MemCmpIsStrCmpUnlessProperPrefix(es[i].0, es[0].0);
    }
  }

  ghost predicate Printable(c: Config) {
    WellOrdered(c) && PrintableEntries(InOrder(c))
  }

  /** What reading a saved configuration gives: the same cells, and an empty default section
      if no section name is `default` or a prefix of it. */
  ghost function Reread(c: Config): Cells {
    if CoversDefault(InOrder(c)) then Meaning(c) else Meaning(c)[DEFAULT_SECTION := map[]]
  }

  lemma {:induction false} LoadAllIsReread(c: Config)
    requires WellOrdered(c)
    ensures LoadAll(map[DEFAULT_SECTION := map[]], InOrder(c)) == Reread(c)
  {
    hide LoadAll, Ordered;
    var es := InOrder(c);
    var m := map[DEFAULT_SECTION := map[]];
    OrderedIffAscending(c);
    var got, want := LoadAll(m, es), Reread(c);
    forall k ensures k in got <==> k in want {
      LoadAllCell(m, es, k);
      InOrderKeys(c);
    }
    forall k | k in got ensures got[k] == want[k] {
      LoadAllCell(m, es, k);
      if HasName(es, k) {
        var i :| 0 <= i < |es| && es[i].0 == k;
        EntriesAreTheMap(c, es[i]);
        assert es[i].0 <= DEFAULT_SECTION ==> CoversDefault(es);
      }
    }
  }

  ghost predicate OneLineEntries(es: seq<(CString, CString)>) {
    forall i :: 0 <= i < |es| ==> OneLine(es[i].0) && OneLine(es[i].1)
  }

  lemma {:induction false} ConfigLinesAreLines(es: seq<(CString, Section)>)
    requires forall i :: 0 <= i < |es| ==> OneLine(es[i].0) && OneLineEntries(InOrder(es[i].1))
    ensures forall i :: 0 <= i < |ConfigLines(es)| ==> OneLine(ConfigLines(es)[i])
  {
    if es != [] {
      assert forall i :: 0 <= i < |es[1..]| ==> es[1..][i] == es[i + 1];
      ConfigLinesAreLines(es[1..]);
      KeyLinesAreLines(InOrder(es[0].1));
    }
  }

  lemma {:induction false} KeyLinesAreLines(es: seq<(CString, CString)>)
    requires OneLineEntries(es)
    ensures forall i :: 0 <= i < |KeyLines(es)| ==> OneLine(KeyLines(es)[i])
  {
    if es != [] {
      assert forall i :: 0 <= i < |es[1..]| ==> es[1..][i] == es[i + 1];
      KeyLinesAreLines(es[1..]);
    }
  }

  /** Saving and reading back: the text of every printable configuration parses, to a
      configuration with the same cells, ordered at both levels. */
  lemma {:induction false} SaveThenParse(c: Config)
    requires Printable(c)
    ensures ParseText(Print(c)).Parsed?
    ensures WellOrdered(ParseText(Print(c)).config)
    ensures Meaning(ParseText(Print(c)).config) == Reread(c)
  {
    hide Print, FoldLines, FoldTo, ConfigLines, Lines, LoadAll;
    var es := InOrder(c);
    PrintByLines(c);
    ConfigLinesAreLines(es);
    LinesOfUnlines(ConfigLines(es));
    InitialIsOrdered();
    forall i | 0 <= i < |es| ensures Ordered(es[i].1) {
      EntriesAreTheMap(c, es[i]);
    }
    var c', section' := ReadSections(InitialConfig, DEFAULT_SECTION, es);
    FoldLinesInParts(InitialConfig, DEFAULT_SECTION, ConfigLines(es), [[]]);
    ReadEmptyLine(c', section');
    LoadAllIsReread(c);
  }

  /** The sections of a printable configuration come back exactly if and only if one of their names
      is `default` or a prefix of it. */
  lemma PrintableComesBackIff(c: Config)
    requires Printable(c)
    ensures ParseText(Print(c)).Parsed?
    ensures Meaning(ParseText(Print(c)).config) == Meaning(c) <==> CoversDefault(InOrder(c))
    ensures DEFAULT_SECTION in Keys(c) ==> CoversDefault(InOrder(c))
  {
    SaveThenParse(c);
    InOrderKeys(c);
    if DEFAULT_SECTION in Keys(c) {
      var i :| 0 <= i < |InOrder(c)| && InOrder(c)[i].0 == DEFAULT_SECTION;
      assert CoversDefault(InOrder(c));
    }
    if !CoversDefault(InOrder(c)) {
      assert DEFAULT_SECTION in Reread(c) && DEFAULT_SECTION !in Meaning(c);
    }
  }

  lemma InitialIsOrdered()
    ensures WellOrdered(InitialConfig) && Keys(InitialConfig) == {DEFAULT_SECTION}
    ensures Meaning(InitialConfig) == map[DEFAULT_SECTION := map[]]
  {}

  lemma ReadEmptyLine(c: Config, section: CString)
    ensures FoldLines(c, section, [[]]) == Parsed(c)
  {}

  // ----- the text is canonical -----

  lemma {:induction false} AscendingIsUnique<V>(a: seq<(CString, V)>, b: seq<(CString, V)>)
    requires Ascending(a) && Ascending(b)
    requires forall e :: e in a <==> e in b
    ensures a == b
  {
    assert a != [] ==> a[0] in a;
    assert b != [] ==> b[0] in b;
    if a != [] && b != [] {
      var i :| 0 <= i < |a| && a[i] == b[0];
      var j :| 0 <= j < |b| && b[j] == a[0];
      StrCmpTrichotomy(a[0].0, b[0].0);
      assert a[0] == b[0];
      SplitFirst(a);
      SplitFirst(b);
      AscendingIsUnique(a[1..], b[1..]);
    }
  }

  lemma SplitFirst<V>(a: seq<(CString, V)>)
    requires a != [] && Ascending(a)
    ensures Ascending(a[1..]) && forall e :: e in a[1..] <==> e in a && e != a[0]
  {
    StrCmpTrichotomy(a[0].0, a[0].0);
    forall i | 1 <= i < |a| ensures a[i] != a[0] && a[i] in a[1..] {
      assert Less(a[0].0, a[i].0);
      assert a[1..][i - 1] == a[i];
    }
  }

  /** Each section by its name and its entries in order. */
  ghost function Flat(c: Config): seq<(CString, seq<(CString, CString)>)> {
    seq(|InOrder(c)|, i requires 0 <= i < |InOrder(c)| => (InOrder(c)[i].0, InOrder(InOrder(c)[i].1)))
  }

  lemma {:induction false} LinesDependOnFlat(es: seq<(CString, Section)>, es': seq<(CString, Section)>)
    requires |es| == |es'|
    requires forall i :: 0 <= i < |es| ==> es[i].0 == es'[i].0 && InOrder(es[i].1) == InOrder(es'[i].1)
    ensures ConfigLines(es) == ConfigLines(es')
  {
    if es != [] {
      LinesDependOnFlat(es[1..], es'[1..]);
    }
  }

  lemma {:induction false} FlatMembers(c: Config, n: CString, entries: seq<(CString, CString)>)
    requires WellOrdered(c)
    ensures (n, entries) in Flat(c) <==> n in Keys(c) && InOrder(ToMap(c)[n]) == entries
  {
    hide InOrder, Ordered;
    var es := InOrder(c);
    forall i | 0 <= i < |es| ensures es[i].0 in Keys(c) && es[i].1 == ToMap(c)[es[i].0] {
      EntriesAreTheMap(c, es[i]);
    }
    if n in Keys(c) {
      EntriesAreTheMap(c, (n, ToMap(c)[n]));
      var i :| 0 <= i < |es| && es[i] == (n, ToMap(c)[n]);
      assert Flat(c)[i] == (n, InOrder(ToMap(c)[n]));
    }
  }

  lemma {:induction false} SameSection(s: Section, s': Section)
    requires Ordered(s) && Ordered(s') && ToMap(s) == ToMap(s')
    ensures InOrder(s) == InOrder(s')
  {
    OrderedIffAscending(s);
    OrderedIffAscending(s');
    forall e ensures e in InOrder(s) <==> e in InOrder(s') {
      EntriesAreTheMap(s, e);
      EntriesAreTheMap(s', e);
    }
    AscendingIsUnique(InOrder(s), InOrder(s'));
  }

  /** The text depends only on the cells: however the trees are shaped, equal cells print
      equally. */
  lemma {:induction false} PrintIsCanonical(c: Config, c': Config)
    requires WellOrdered(c) && WellOrdered(c') && Meaning(c) == Meaning(c')
    ensures Print(c) == Print(c')
  {
    hide Print, ConfigLines, WellOrdered, Meaning;
    SameFlat(c, c');
    var es, es' := InOrder(c), InOrder(c');
    assert |Flat(c)| == |es| && |Flat(c')| == |es'|;
    forall i | 0 <= i < |es| ensures es[i].0 == es'[i].0 && InOrder(es[i].1) == InOrder(es'[i].1) {
      assert Flat(c)[i] == Flat(c')[i];
    }
    hide InOrder;
    LinesDependOnFlat(es, es');
    PrintByLines(c);
    PrintByLines(c');
  }

  lemma {:induction false} SameFlat(c: Config, c': Config)
    requires WellOrdered(c) && WellOrdered(c') && Meaning(c) == Meaning(c')
    ensures Flat(c) == Flat(c')
  {
    hide InOrder;
    FlatAscends(c);
    FlatAscends(c');
    forall e ensures e in Flat(c) <==> e in Flat(c') {
      FlatMembers(c, e.0, e.1);
      FlatMembers(c', e.0, e.1);
      assert Keys(c) == Meaning(c).Keys == Keys(c');
      hide Flat, Ascending;
      if e.0 in Keys(c) {
        assert Meaning(c)[e.0] == Meaning(c')[e.0];
        SameSection(ToMap(c)[e.0], ToMap(c')[e.0]);
      }
    }
    AscendingIsUnique(Flat(c), Flat(c'));
  }

  lemma {:induction false} FlatAscends(c: Config)
    requires WellOrdered(c)
    ensures Ascending(Flat(c))
  {
    OrderedIffAscending(c);
  }

  /** Saving what was read back writes the same text again. */
  lemma SaveIsStable(c: Config)
    requires Printable(c) && CoversDefault(InOrder(c))
    ensures ParseText(Print(c)).Parsed? && Print(ParseText(Print(c)).config) == Print(c)
  {
    SaveThenParse(c);
    PrintIsCanonical(ParseText(Print(c)).config, c);
  }
}
