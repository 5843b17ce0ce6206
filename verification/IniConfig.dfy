/**
  Two-level configurations of src/confile.c as values: a tree of sections, each of which is a
  tree of string values, with the get and set operations and decimal conversion.
 */
module IniConfig {
  import opened CStrings
  import opened ConfTree

  type Section = Tree<CString>
  type Config = Tree<Section>

  const DEFAULT_SECTION: CString := "default"

  /** A null section name stands for the default section. */
  function SectionName(section: Option<CString>): CString {
    if section.None? then DEFAULT_SECTION else section.value
  }

  /** Writing through the pointer held by the node that a lookup of `key` returns. */
  function Update<V>(t: Tree<V>, key: CString, data: V): Tree<V> {
    if t.Leaf? then Leaf
    else
      var comp := StrCmp(key, t.key);
      if comp > 0 then Node(t.left, t.key, t.data, Update(t.right, key, data))
      else if comp < 0 then Node(Update(t.left, key, data), t.key, t.data, t.right)
      else Node(t.left, t.key, data, t.right)
  }

  /** A section is created empty; an existing one of that name is replaced. */
  function InsertSection(c: Config, name: CString): Config {
    Insert(c, name, Leaf)
  }

  function InsertSectionNode(c: Config, name: CString, key: CString, value: CString): Option<Config> {
    match Find(c, name)
    case None => None
    case Some(section) => Some(Update(c, name, Insert(section, key, value)))
  }

  function GetString(c: Config, section: Option<CString>, key: CString, default_string: CString): CString {
    match Find(c, SectionName(section))
    case None => default_string
    case Some(s) =>
      match Find(s, key)
      case None => default_string
      case Some(v) => v
  }

  /** The section that a set writes to is created if a lookup does not find it. */
  function WithSection(c: Config, name: CString): Config {
    if Find(c, name).None? then InsertSection(c, name) else c
  }

  function SetString(c: Config, section: Option<CString>, key: CString, value: CString): (r: Config) {
    var name := SectionName(section);
    var c' := WithSection(c, name);
    SectionIsThere(c, name);
    Update(c', name, Insert(Find(c', name).value, key, value))
  }

  lemma SectionIsThere(c: Config, name: CString)
    ensures Find(WithSection(c, name), name).Some?
  {
    FindAfterInsert<Section>(c, name, Leaf);
  }

  // ----- both levels at once -----

  /** What a get finds, before the default is applied. */
  function Read(c: Config, name: CString, key: CString): Option<CString> {
    match Find(c, name)
    case None => None
    case Some(s) => Find(s, key)
  }

  ghost predicate WellOrdered(c: Config) {
    Ordered(c) && forall name :: name in Keys(c) ==> Ordered(ToMap(c)[name])
  }

  lemma {:induction false} UpdateFacts<V>(t: Tree<V>, key: CString, data: V, other: CString)
    ensures Keys(Update(t, key, data)) == Keys(t)
    ensures Find(t, key).Some? ==> Find(Update(t, key, data), key) == Some(data)
    ensures other != key ==> Find(Update(t, key, data), other) == Find(t, other)
    ensures Ordered(t) ==> Ordered(Update(t, key, data))
  {
    if t.Node? {
      UpdateFacts(t.left, key, data, other);
      UpdateFacts(t.right, key, data, other);
      StrCmpTrichotomy(key, t.key);
      StrCmpTrichotomy(other, t.key);
    }
  }

  /** A value just set is read back from any configuration whatever, even one whose trees are
      out of order. */
  lemma GetAfterSet(c: Config, section: Option<CString>, key: CString, value: CString, d: CString)
    ensures GetString(SetString(c, section, key, value), section, key, d) == value
  {
    var name := SectionName(section);
    var c' := WithSection(c, name);
    SectionIsThere(c, name);
    var s := Insert(Find(c', name).value, key, value);
    UpdateFacts(c', name, s, name);
    FindAfterInsert(Find(c', name).value, key, value);
  }

  /** No stored name that the set might meet properly extends the one being set, at either
      level. */
  ghost predicate SafeToSet(c: Config, name: CString, key: CString) {
    && NoProperExtension(c, name)
    && (Find(c, name).Some? ==> NoProperExtension(Find(c, name).value, key))
  }

  lemma SectionsOf(c: Config, name: CString)
    requires WellOrdered(c)
    ensures Find(c, name).Some? <==> name in Keys(c)
    ensures Find(c, name).Some? ==> Find(c, name).value == ToMap(c)[name] && Ordered(Find(c, name).value)
  {
    FindReadsTheMap(c, name);
  }

  lemma WithSectionFacts(c: Config, name: CString)
    requires WellOrdered(c) && NoProperExtension(c, name)
    ensures WellOrdered(WithSection(c, name))
    ensures Keys(WithSection(c, name)) == Keys(c) + {name}
    ensures Find(WithSection(c, name), name) == if name in Keys(c) then Find(c, name) else Some(Leaf)
    ensures forall other :: other != name ==> Find(WithSection(c, name), other) == Find(c, other)
  {
    SectionsOf(c, name);
    if Find(c, name).None? {
      InsertedSection(c, name);
    }
  }

  /** Inserting an empty section at both levels of meaning. */
  lemma {:induction false} InsertedSection(c: Config, name: CString)
    requires WellOrdered(c) && NoProperExtension(c, name)
    ensures var r := InsertSection(c, name);
      && WellOrdered(r) && Keys(r) == Keys(c) + {name} && Find(r, name) == Some(Leaf)
      && forall other :: other != name ==> Find(r, other) == Find(c, other)
  {
    assert Ordered<CString>(Leaf);
    hide Insert, Ordered, Find;
    var r := InsertSection(c, name);
    InsertRefinesMapUpdate<Section>(c, name, Leaf);
    hide NoProperExtension;
    assert ToMap(r) == ToMap(c)[name := Leaf];
    assert Keys(r) == ToMap(r).Keys && Keys(c) == ToMap(c).Keys;
    hide ToMap;
    forall other ensures Find(r, other) == if other == name then Some(Leaf) else Find(c, other) {
      FindReadsTheMap(c, other);
      FindReadsTheMap(r, other);
    }
  }

  /** Replacing the tree of one stored section by another ordered tree. */
  lemma UpdateOneSection(c: Config, name: CString, s: Section)
    requires WellOrdered(c) && name in Keys(c) && Ordered(s)
    ensures WellOrdered(Update(c, name, s)) && Keys(Update(c, name, s)) == Keys(c)
    ensures Find(Update(c, name, s), name) == Some(s)
    ensures forall other :: other != name ==> Find(Update(c, name, s), other) == Find(c, other)
  {
    var r := Update(c, name, s);
    SectionsOf(c, name);
    UpdateFacts(c, name, s, name);
    forall other | other != name ensures Find(r, other) == Find(c, other) {
      UpdateFacts(c, name, s, other);
    }
    forall other | other in Keys(r) ensures Ordered(ToMap(r)[other]) {
      FindReadsTheMap(r, other);
      SectionsOf(c, other);
    }
  }

  /** Setting one key of an ordered section. */
  lemma InsertOneKey(s: Section, key: CString, value: CString)
    requires Ordered(s) && NoProperExtension(s, key)
    ensures Ordered(Insert(s, key, value)) && Keys(Insert(s, key, value)) == Keys(s) + {key}
    ensures forall k :: Find(Insert(s, key, value), k) == if k == key then Some(value) else Find(s, k)
  {
    var s' := Insert(s, key, value);
    InsertRefinesMapUpdate(s, key, value);
    assert ToMap(s') == ToMap(s)[key := value];
    forall k ensures Find(s', k) == if k == key then Some(value) else Find(s, k) {
      FindReadsTheMap(s', k);
      FindReadsTheMap(s, k);
    }
  }

  /** One set changes one cell of the two-level map. */
  lemma SetChangesOneCell(c: Config, section: Option<CString>, key: CString, value: CString)
    requires WellOrdered(c) && SafeToSet(c, SectionName(section), key)
    ensures var r := SetString(c, section, key, value);
      var name := SectionName(section);
      && WellOrdered(r)
      && Keys(r) == Keys(c) + {name}
      && (forall other :: other != name ==> Find(r, other) == Find(c, other))
      && Find(r, name).Some?
      && Keys(Find(r, name).value) == (if Find(c, name).Some? then Keys(Find(c, name).value) else {}) + {key}
      && forall k :: Read(r, name, k) == if k == key then Some(value) else Read(c, name, k)
  {
    var name := SectionName(section);
    var c' := WithSection(c, name);
    SectionsOf(c, name);
    SectionIsThere(c, name);
    WithSectionFacts(c, name);
    SectionsOf(c', name);
    var s := Find(c', name).value;
    InsertOneKey(s, key, value);
    UpdateOneSection(c', name, Insert(s, key, value));
  }

  /** Inserting a section clears it and leaves the others alone. */
  lemma OpeningClears(c: Config, name: CString)
    requires WellOrdered(c) && NoProperExtension(c, name)
    ensures var r := InsertSection(c, name);
      && WellOrdered(r)
      && Keys(r) == Keys(c) + {name}
      && forall n, k :: Read(r, n, k) == if n == name then None else Read(c, n, k)
  {
    hide InsertSection;
    InsertedSection(c, name);
  }

  /** Opening a section loses no cell if and only if it and every stored section it puts out of
      reach are empty.  A section is out of reach when its name starts with the new one and is
      not above the stored name at which the insertion stops. */
  lemma {:induction false} OpeningKeepsCellsIff(c: Config, name: CString)
    requires WellOrdered(c)
    ensures (forall n, k :: Read(InsertSection(c, name), n, k) == Read(c, n, k)) <==> OnlyEmptyShadowed(c, name)
  {
    hide Insert, Ordered, Hit;
    var r := InsertSection(c, name);
    OpensEmpty(c, name);
    if name in Keys(c) { NameIsShadowed(c, name); }
    if OnlyEmptyShadowed(c, name) {
      forall n, k ensures Read(r, n, k) == Read(c, n, k) {
        SectionsOf(c, n);
        if n != name { FindAfterAnyInsert<Section>(c, name, Leaf, n); }
      }
    } else {
      var x :| x in Keys(c) && Shadowed(c, name, x) && ToMap(c)[x] != Leaf;
      SectionsOf(c, x);
      if x != name { FindAfterAnyInsert<Section>(c, name, Leaf, x); }
      var top := ToMap(c)[x].key;
      StrCmpTrichotomy(top, top);
      assert Read(c, x, top).Some? && Read(r, x, top).None?;
    }
  }

  ghost predicate OnlyEmptyShadowed(c: Config, name: CString) {
    forall x :: x in Keys(c) && Shadowed(c, name, x) ==> ToMap(c)[x] == Leaf
  }

  lemma OpensEmpty(c: Config, name: CString)
    ensures Find(InsertSection(c, name), name) == Some(Leaf)
  {
    FindAfterInsert<Section>(c, name, Leaf);
  }

  /** A stored section of that very name is among those out of reach. */
  lemma NameIsShadowed(c: Config, name: CString)
    requires Ordered(c) && name in Keys(c)
    ensures Shadowed(c, name, name)
  {
    HitIsAnExtension(c, name);
    MemCmpIsStrCmpUnlessProperPrefix(name, Hit(c, name).value);
    StrCmpTrichotomy(name, Hit(c, name).value);
  }

  /** For a name that is no proper prefix of a stored one: exactly when nothing was set in it. */
  lemma {:induction false} ReopeningKeepsCellsIff(c: Config, name: CString)
    requires WellOrdered(c) && NoProperExtension(c, name)
    ensures (forall n, k :: Read(InsertSection(c, name), n, k) == Read(c, n, k))
       <==> (Find(c, name).Some? ==> Find(c, name).value == Leaf)
  {
    hide InsertSection, Ordered;
    OpeningKeepsCellsIff(c, name);
    SectionsOf(c, name);
    if name in Keys(c) { NameIsShadowed(c, name); }
    assert forall x :: x in Keys(c) && Shadowed(c, name, x) ==> x == name;
  }

  /** A section that did not exist is opened, and the one of a longer name loses its cell. */
  lemma {:induction false} OpeningShadowsALongerName(name: CString, longer: CString, key: CString, value: CString)
    requires name < longer
    ensures var c := Insert<Section>(Leaf, longer, Insert(Leaf, key, value));
      && WellOrdered(c) && Find(c, name).None?
      && Read(c, longer, key) == Some(value) && Read(InsertSection(c, name), longer, key) == None
  {
    var s := Node(Leaf, key, value, Leaf);
    var c := Node(Leaf, longer, s, Leaf);
    MemCmpIsStrCmpUnlessProperPrefix(name, longer);
    StrCmpTrichotomy(name, longer);
    StrCmpTrichotomy(longer, longer);
    StrCmpTrichotomy(key, key);
    assert Insert<Section>(Leaf, longer, Insert(Leaf, key, value)) == c;
    assert InsertSection(c, name) == Node(Leaf, name, Leaf, Leaf);
    assert Find(InsertSection(c, name), longer) == None;
  }

  /** The cell reads `value` in `r`, and every other cell reads as it did. */
  ghost predicate ChangesOnly(c: Config, r: Config, name: CString, key: CString, value: CString) {
    forall n, k :: Read(r, n, k) == if n == name && k == key then Some(value) else Read(c, n, k)
  }

  ghost predicate NoOtherShadowed(s: Section, key: CString) {
    forall k :: k in Keys(s) && k != key ==> !Shadowed(s, key, k)
  }

  /** A set changes one cell only if and only if it puts nothing out of reach: no other key of its
      section, or, when it has to create the section, no section with anything in it. */
  lemma {:induction false} SetChangesOneCellIff(c: Config, section: Option<CString>, key: CString, value: CString)
    requires WellOrdered(c)
    ensures var name := SectionName(section);
      ChangesOnly(c, SetString(c, section, key, value), name, key, value)
      <==> match Find(c, name)
           case Some(s) => NoOtherShadowed(s, key)
           case None => OnlyEmptyShadowed(c, name)
  {
    hide Find, Insert, Update, Ordered, Shadowed, ChangesOnly;
    var name := SectionName(section);
    SectionsOf(c, name);
    OpensEmpty(c, name);
    match Find(c, name)
    case Some(s) => SetInSectionIff(c, name, s, key, value);
    case None => SetCreatingIff(c, name, key, value);
  }

  lemma {:induction false} SetInSectionIff(c: Config, name: CString, s: Section, key: CString, value: CString)
    requires WellOrdered(c) && Find(c, name) == Some(s) && Ordered(s)
    ensures ChangesOnly(c, Update(c, name, Insert(s, key, value)), name, key, value) <==> NoOtherShadowed(s, key)
  {
    hide Insert, Update, Ordered, Hit;
    var r := Update(c, name, Insert(s, key, value));
    FindAfterInsert(s, key, value);
    forall n, k ensures Read(r, n, k) ==
      if n != name then Read(c, n, k) else if k == key then Some(value) else if Shadowed(s, key, k) then None else Find(s, k)
    {
      UpdateFacts(c, name, Insert(s, key, value), n);
      if k != key { FindAfterAnyInsert(s, key, value, k); }
    }
    forall k ensures k in Keys(s) <==> Find(s, k).Some? {
      FindReadsTheMap(s, k);
    }
    if k :| k in Keys(s) && k != key && Shadowed(s, key, k) {
      assert Read(r, name, k) != Read(c, name, k);
    }
  }

  lemma {:induction false} SetCreatingIff(c: Config, name: CString, key: CString, value: CString)
    requires WellOrdered(c) && Find(c, name) == None
    ensures ChangesOnly(c, Update(InsertSection(c, name), name, Insert(Leaf, key, value)), name, key, value)
       <==> OnlyEmptyShadowed(c, name)
  {
    hide Insert, Update, Ordered, Hit, OnlyEmptyShadowed;
    var c', s := InsertSection(c, name), Insert(Leaf, key, value);
    var r := Update(c', name, s);
    OpeningKeepsCellsIff(c, name);
    OpensEmpty(c, name);
    FindAfterInsert<CString>(Leaf, key, value);
    forall n, k ensures Read(r, n, k) == if n == name && k == key then Some(value) else Read(c', n, k) {
      UpdateFacts(c', name, s, n);
      OneKey(key, value, k);
    }
    assert forall k :: Read(c, name, k) == None && Read(c', name, k) == None;
    if ChangesOnly(c, r, name, key, value) {
      forall n, k ensures Read(c', n, k) == Read(c, n, k) {
        assert n != name ==> Read(r, n, k) == Read(c', n, k);
      }
    }
  }

  lemma OneKey(key: CString, value: CString, k: CString)
    ensures Find(Insert(Leaf, key, value), k) == if k == key then Some(value) else None
  {
    StrCmpTrichotomy(k, key);
  }

  // ----- sequences of sets -----

  datatype SetOp = SetOp(section: Option<CString>, key: CString, value: CString)

  function SetAll(c: Config, ops: seq<SetOp>): Config
    decreases ops
  {
    if ops == [] then c
    else SetAll(SetString(c, ops[0].section, ops[0].key, ops[0].value), ops[1..])
  }

  function LastValue(ops: seq<SetOp>, name: CString, key: CString): Option<CString> {
    if ops == [] then None
    else
      var later := LastValue(ops[1..], name, key);
      if later.Some? then later
      else if SectionName(ops[0].section) == name && ops[0].key == key then Some(ops[0].value)
      else None
  }

  ghost predicate PrefixFree(names: set<CString>) {
    forall a, b :: a in names && b in names ==> !(a < b)
  }

  ghost function NamesInPlay(c: Config, ops: seq<SetOp>): set<CString> {
    Keys(c) + set op | op in ops :: SectionName(op.section)
  }

  ghost function KeysInPlay(c: Config, ops: seq<SetOp>, name: CString): set<CString> {
    (if Find(c, name).Some? then Keys(Find(c, name).value) else {})
    + set op | op in ops && SectionName(op.section) == name :: op.key
  }

  ghost predicate PrefixFreeRun(c: Config, ops: seq<SetOp>) {
    && PrefixFree(NamesInPlay(c, ops))
    && forall name :: PrefixFree(KeysInPlay(c, ops, name))
  }

  lemma {:induction false} ReadAfterSets(c: Config, ops: seq<SetOp>, name: CString, key: CString)
    requires WellOrdered(c) && PrefixFreeRun(c, ops)
    ensures WellOrdered(SetAll(c, ops))
    ensures Read(SetAll(c, ops), name, key)
         == if LastValue(ops, name, key).Some? then LastValue(ops, name, key) else Read(c, name, key)
    decreases ops
  {
    if ops != [] {
      var op := ops[0];
      FirstSetIsSafe(c, ops);
      RestIsPrefixFree(c, ops);
      SetChangesOneCell(c, op.section, op.key, op.value);
      var c' := SetString(c, op.section, op.key, op.value);
      ReadAfterSets(c', ops[1..], name, key);
      assert Read(c', name, key)
          == if SectionName(op.section) == name && key == op.key then Some(op.value) else Read(c, name, key);
    }
  }

  /** After any sequence of sets whose names are prefix-free at both levels, every get returns
      the last value set for it, or else what it returned before. */
  lemma LastWriterWins(c: Config, ops: seq<SetOp>, section: Option<CString>, key: CString, d: CString)
    requires WellOrdered(c) && PrefixFreeRun(c, ops)
    ensures GetString(SetAll(c, ops), section, key, d)
         == match LastValue(ops, SectionName(section), key)
            case Some(v) => v
            case None => GetString(c, section, key, d)
  {
    ReadAfterSets(c, ops, SectionName(section), key);
  }

  /** The same for numbers. */
  lemma LastNumberWins(c: Config, ops: seq<SetOp>, section: Option<CString>, key: CString, n: int, d: int)
    requires WellOrdered(c) && PrefixFreeRun(c, ops)
    ensures match LastValue(ops, SectionName(section), key)
      case Some(v) => v == Itoa(n) ==> GetInt(SetAll(c, ops), section, key, d) == n
      case None => GetInt(SetAll(c, ops), section, key, d) == GetInt(c, section, key, d)
  {
    ReadAfterSets(c, ops, SectionName(section), key);
    AtoiOfItoa(n);
  }

  lemma FirstSetIsSafe(c: Config, ops: seq<SetOp>)
    requires WellOrdered(c) && ops != [] && PrefixFreeRun(c, ops)
    ensures SafeToSet(c, SectionName(ops[0].section), ops[0].key)
  {
    var name := SectionName(ops[0].section);
    assert ops[0] in ops;
    assert name in NamesInPlay(c, ops);
    assert PrefixFree(KeysInPlay(c, ops, name));
    assert ops[0].key in KeysInPlay(c, ops, name);
  }

  lemma RestIsPrefixFree(c: Config, ops: seq<SetOp>)
    requires WellOrdered(c) && ops != [] && PrefixFreeRun(c, ops)
    requires SafeToSet(c, SectionName(ops[0].section), ops[0].key)
    ensures PrefixFreeRun(SetString(c, ops[0].section, ops[0].key, ops[0].value), ops[1..])
  {
    var op := ops[0];
    var name := SectionName(op.section);
    var c' := SetString(c, op.section, op.key, op.value);
    SetChangesOneCell(c, op.section, op.key, op.value);
    assert op in ops;
    hide SetString, WellOrdered, SafeToSet, PrefixFree;
    SmallerIsPrefixFree(NamesInPlay(c, ops), NamesInPlay(c', ops[1..]));
    forall n ensures PrefixFree(KeysInPlay(c', ops[1..], n)) {
      SmallerIsPrefixFree(KeysInPlay(c, ops, n), KeysInPlay(c', ops[1..], n));
    }
  }

  lemma SmallerIsPrefixFree(names: set<CString>, fewer: set<CString>)
    requires PrefixFree(names) && fewer <= names
    ensures PrefixFree(fewer)
  {}

  // ----- numbers -----

  function Digit(n: nat): CChar
    requires n < 10
  {
    ('0' as int + n) as char
  }

  function Digits(n: nat): (s: CString)
    ensures |s| > 0
  {
    if n < 10 then [Digit(n)] else Digits(n / 10) + [Digit(n % 10)]
  }

  /** `sprintf("%d")`. */
  function Itoa(n: int): CString {
    if n < 0 then "-" + Digits(-n) else Digits(n)
  }

  predicate IsSpace(c: CChar) {
    c == ' ' || '\t' <= c <= '\r'
  }

  predicate IsDigit(c: CChar) {
    '0' <= c <= '9'
  }

  function ReadDigits(s: CString, acc: int): int {
    if s == [] || !IsDigit(s[0]) then acc
    else ReadDigits(s[1..], 10 * acc + (s[0] as int - '0' as int))
  }

  /** `atoi`: white space, an optional sign, then digits up to the first other byte. */
  function Atoi(s: CString): int {
    if s == [] then 0
    else if IsSpace(s[0]) then Atoi(s[1..])
    else if s[0] == '-' then -ReadDigits(s[1..], 0)
    else if s[0] == '+' then ReadDigits(s[1..], 0)
    else ReadDigits(s, 0)
  }

  lemma {:induction false} ReadDigitsAppend(s: CString, d: nat, acc: int)
    requires d < 10 && forall i :: 0 <= i < |s| ==> IsDigit(s[i])
    ensures ReadDigits(s + [Digit(d)], acc) == 10 * ReadDigits(s, acc) + d
  {
    if s == [] {
      assert s + [Digit(d)] == [Digit(d)];
      assert [Digit(d)][1..] == [];
    } else {
      assert (s + [Digit(d)])[1..] == s[1..] + [Digit(d)];
      ReadDigitsAppend(s[1..], d, 10 * acc + (s[0] as int - '0' as int));
    }
  }

  lemma {:induction false} DigitsReadBack(n: nat)
    ensures forall i :: 0 <= i < |Digits(n)| ==> IsDigit(Digits(n)[i])
    ensures ReadDigits(Digits(n), 0) == n
  {
    if n < 10 {
      assert [Digit(n)][1..] == [];
    } else {
      DigitsReadBack(n / 10);
      ReadDigitsAppend(Digits(n / 10), n % 10, 0);
    }
  }

  lemma AtoiOfItoa(n: int)
    ensures Atoi(Itoa(n)) == n
  {
    DigitsReadBack(if n < 0 then -n else n);
    if n < 0 {
      assert Itoa(n)[1..] == Digits(-n);
    } else {
      assert IsDigit(Digits(n)[0]);
    }
  }

  function GetInt(c: Config, section: Option<CString>, key: CString, default_int: int): int {
    match Find(c, SectionName(section))
    case None => default_int
    case Some(s) =>
      match Find(s, key)
      case None => default_int
      case Some(v) => Atoi(v)
  }

  function SetInt(c: Config, section: Option<CString>, key: CString, value: int): Config {
    SetString(c, section, key, Itoa(value))
  }

  /** A number just set is read back as the same number, from any configuration, through
      decimal printing and `atoi`. */
  lemma GetIntAfterSetInt(c: Config, section: Option<CString>, key: CString, value: int, d: int)
    ensures GetInt(SetInt(c, section, key, value), section, key, d) == value
  {
    AtoiOfItoa(value);
    var name := SectionName(section);
    var c' := WithSection(c, name);
    SectionIsThere(c, name);
    var s := Insert(Find(c', name).value, key, Itoa(value));
    UpdateFacts(c', name, s, name);
    FindAfterInsert(Find(c', name).value, key, Itoa(value));
  }

  // ----- what gets and sets mean, in terms of the maps -----

  /** A get returns what the maps of the two levels hold, and its default when either of them has
      nothing; a null section name stands for the section named "default". */
  lemma {:induction false} GetReadsTheMaps(c: Config, section: Option<CString>, key: CString, default_string: CString)
    requires WellOrdered(c)
    ensures var name := if section.None? then "default" else section.value;
      GetString(c, section, key, default_string) ==
        if name in ToMap(c) && key in ToMap(ToMap(c)[name]) then ToMap(ToMap(c)[name])[key] else default_string
  {
    var name := SectionName(section);
    FindReadsTheMap(c, name);
    if name in ToMap(c) {
      assert Ordered(ToMap(c)[name]);
      FindReadsTheMap(ToMap(c)[name], key);
    }
  }

  /** The same for numbers, which are read from the stored string. */
  lemma {:induction false} GetIntReadsTheMaps(c: Config, section: Option<CString>, key: CString, default_int: int)
    requires WellOrdered(c)
    ensures var name := if section.None? then "default" else section.value;
      GetInt(c, section, key, default_int) ==
        if name in ToMap(c) && key in ToMap(ToMap(c)[name]) then Atoi(ToMap(ToMap(c)[name])[key]) else default_int
  {
    var name := SectionName(section);
    FindReadsTheMap(c, name);
    if name in ToMap(c) {
      assert Ordered(ToMap(c)[name]);
      FindReadsTheMap(ToMap(c)[name], key);
    }
  }

  /** Without a section or without the key, on any configuration whatever, the default comes back. */
  lemma MissingGivesDefault(c: Config, name: CString, key: CString, s: CString, n: int)
    requires match Find(c, name) case None => true case Some(t) => Find(t, key) == None
    ensures GetString(c, Some(name), key, s) == s && GetInt(c, Some(name), key, n) == n
    ensures name == "default" ==> GetString(c, None, key, s) == s && GetInt(c, None, key, n) == n
  {}

  /** A null section name reads and writes the section whose name is "default". */
  lemma NullMeansDefault(c: Config, key: CString, value: CString, n: int)
    ensures SetString(c, None, key, value) == SetString(c, Some("default"), key, value)
    ensures GetString(c, None, key, value) == GetString(c, Some("default"), key, value)
    ensures SetInt(c, None, key, n) == SetInt(c, Some("default"), key, n)
    ensures GetInt(c, None, key, n) == GetInt(c, Some("default"), key, n)
  {}

  // ----- what decimal strings mean -----

  predicate AllDigits(s: CString) {
    forall i :: 0 <= i < |s| ==> '0' <= s[i] <= '9'
  }

  /** The number written by decimal digits, the last of which counts once, the one before ten
      times, and so on. */
  function Decimal(s: CString): int {
    if s == [] then 0 else 10 * Decimal(s[..|s| - 1]) + (s[|s| - 1] as int - 48)
  }

  lemma {:induction false} ReadsDigits(s: CString, rest: CString)
    requires AllDigits(s) && (rest != [] ==> !('0' <= rest[0] <= '9'))
    ensures ReadDigits(s + rest, 0) == Decimal(s)
  {
    ReadsDigitsFrom([], s, rest);
    assert [] + s == s;
  }

  lemma {:induction false} ReadsDigitsFrom(done: CString, s: CString, rest: CString)
    requires AllDigits(done + s) && (rest != [] ==> !('0' <= rest[0] <= '9'))
    ensures ReadDigits(s + rest, Decimal(done)) == Decimal(done + s)
    decreases |s|
  {
    if s == [] {
      assert s + rest == rest && done + s == done;
    } else {
      assert (done + s)[|done|] == s[0];
      assert (s + rest)[0] == s[0] && (s + rest)[1..] == s[1..] + rest;
      assert (done + [s[0]])[..|done|] == done;
      assert done + [s[0]] + s[1..] == done + s;
      ReadsDigitsFrom(done + [s[0]], s[1..], rest);
    }
  }

  /** `atoi` skips white space, takes one sign, reads decimal digits and stops at the first other
      byte: "10ms" is 10, and a string without digits is 0. */
  lemma {:induction false} AtoiReads(blanks: CString, sign: CString, digits: CString, rest: CString)
    requires forall i :: 0 <= i < |blanks| ==> blanks[i] in " \t\n\r\U{0B}\U{0C}"
    requires sign == "" || sign == "+" || sign == "-"
    requires AllDigits(digits) && (rest != [] ==> !('0' <= rest[0] <= '9'))
    requires sign == "" && digits == "" && rest != [] ==> rest[0] !in " \t\n\r\U{0B}\U{0C}+-"
    ensures Atoi(blanks + sign + digits + rest) == if sign == "-" then -Decimal(digits) else Decimal(digits)
    decreases |blanks|
  {
    var s := blanks + sign + digits + rest;
    if blanks != [] {
      AtoiReads(blanks[1..], sign, digits, rest);
      assert s[0] == blanks[0] && s[1..] == blanks[1..] + sign + digits + rest;
    } else {
      assert s == sign + (digits + rest);
      ReadsDigits(digits, rest);
      if sign == "" {
        assert s == digits + rest;
        assert s != [] ==> s[0] == if digits != [] then digits[0] else rest[0];
      } else {
        assert s[0] == sign[0] && s[1..] == digits + rest;
      }
    }
  }

  /** Printing gives the shortest decimal digits, after a '-' for negative numbers. */
  lemma {:induction false} ItoaIsDecimal(n: int)
    ensures n >= 0 ==> AllDigits(Itoa(n)) && Decimal(Itoa(n)) == n && (|Itoa(n)| > 1 ==> Itoa(n)[0] != '0')
    ensures n >= 0 ==> Itoa(n) != []
    ensures n < 0 ==> Itoa(n) == "-" + Itoa(-n)
  {
    if n >= 0 { DigitsAreDecimal(n); }
  }

  lemma {:induction false} DigitsAreDecimal(n: nat)
    ensures AllDigits(Digits(n)) && Decimal(Digits(n)) == n && (n > 0 ==> Digits(n)[0] != '0')
    ensures |Digits(n)| > 1 ==> n > 0
  {
    var d := Digit(n % 10);
    if n < 10 {
      assert Digits(n) == [d] && [d][..0] == [];
    } else {
      DigitsAreDecimal(n / 10);
      assert Digits(n)[..|Digits(n)| - 1] == Digits(n / 10);
    }
  }
}
