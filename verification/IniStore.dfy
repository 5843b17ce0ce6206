/**
  The nested pointer structure: a tree whose nodes hold pointers to section trees.  Writing
  through such a pointer changes exactly one section of the configuration.
 */
module IniStore {
  import opened CStrings
  import opened ConfTree
  import opened ConfBTree
  import opened IniConfig

  type SectionTree = BTree<CString>

  ghost function Pointers(t: Tree<SectionTree>): set<SectionTree> {
    if t.Leaf? then {} else Pointers(t.left) + {t.data} + Pointers(t.right)
  }

  /** No two nodes hold the same pointer. */
  ghost predicate Unshared(t: Tree<SectionTree>) {
    t.Node? ==>
      && Unshared(t.left) && Unshared(t.right)
      && t.data !in Pointers(t.left) && t.data !in Pointers(t.right) && Pointers(t.left) !! Pointers(t.right)
  }

  ghost function Targets(bs: set<SectionTree>): (m: map<SectionTree, Section>)
    reads bs
    ensures m.Keys == bs
  {
    map b | b in bs :: Value(b.shape)
  }

  /** The configuration, given what each pointer leads to. */
  ghost function Follow(t: Tree<SectionTree>, m: map<SectionTree, Section>): Config
    requires Pointers(t) <= m.Keys
  {
    if t.Leaf? then Leaf else Node(Follow(t.left, m), t.key, m[t.data], Follow(t.right, m))
  }

  lemma {:induction false} FollowAgrees(t: Tree<SectionTree>, m: map<SectionTree, Section>, m': map<SectionTree, Section>)
    requires Pointers(t) <= m.Keys && Pointers(t) <= m'.Keys
    requires forall b :: b in Pointers(t) ==> m[b] == m'[b]
    ensures Follow(t, m) == Follow(t, m')
  {
    if t.Node? {
      FollowAgrees(t.left, m, m');
      FollowAgrees(t.right, m, m');
    }
  }

  lemma {:induction false} FindFollows(t: Tree<SectionTree>, m: map<SectionTree, Section>, name: CString)
    requires Pointers(t) <= m.Keys
    ensures Find(t, name).Some? ==> Find(t, name).value in Pointers(t)
    ensures Find(Follow(t, m), name)
         == if Find(t, name).Some? then Some(m[Find(t, name).value]) else None
  {
    if t.Node? {
      FindFollows(t.left, m, name);
      FindFollows(t.right, m, name);
    }
  }

  lemma {:induction false} InsertFollows(t: Tree<SectionTree>, m: map<SectionTree, Section>, name: CString, b: SectionTree)
    requires Pointers(t) + {b} <= m.Keys && Unshared(t) && b !in Pointers(t)
    ensures Pointers(Insert(t, name, b)) <= Pointers(t) + {b} && b in Pointers(Insert(t, name, b))
    ensures Unshared(Insert(t, name, b))
    ensures Follow(Insert(t, name, b), m) == Insert(Follow(t, m), name, m[b])
  {
    if t.Node? {
      InsertFollows(t.left, m, name, b);
      InsertFollows(t.right, m, name, b);
    }
  }

  /** Changing what one pointer leads to updates the configuration at the one node that holds
      the pointer. */
  lemma {:induction false} WriteFollows(t: Tree<SectionTree>, m: map<SectionTree, Section>, name: CString, v: Section)
    requires Pointers(t) <= m.Keys && Unshared(t) && Find(t, name).Some?
    ensures Find(t, name).value in Pointers(t)
    ensures Follow(t, m[Find(t, name).value := v]) == Update(Follow(t, m), name, v)
  {
    FindFollows(t, m, name);
    var b := Find(t, name).value;
    var m' := m[b := v];
    var comp := StrCmp(name, t.key);
    if comp > 0 {
      FindFollows(t.right, m, name);
      WriteFollows(t.right, m, name, v);
      FollowAgrees(t.left, m, m');
    } else if comp < 0 {
      FindFollows(t.left, m, name);
      WriteFollows(t.left, m, name, v);
      FollowAgrees(t.right, m, m');
    } else {
      FollowAgrees(t.left, m, m');
      FollowAgrees(t.right, m, m');
    }
  }

  /** A section tree and its nodes. */
  ghost function Foot(b: SectionTree): set<object>
    reads b
  {
    {b} + Nodes(b.shape)
  }

  class Store {
    const sections: BTree<SectionTree>
    ghost var repr: set<object>

    ghost predicate Valid()
      reads this, repr
    {
      match OuterValid()
      case false => false
      case true =>
        var t := Value(sections.shape);
        && Unshared(t)
        && (forall b :: b in Pointers(t) ==> Owned(b))
        && (forall b, b' :: b in Pointers(t) && b' in Pointers(t) && b != b' ==> Foot(b) !! Foot(b'))
    }

    ghost predicate OuterValid()
      reads this, repr
    {
      this in repr && sections in repr && Nodes(sections.shape) <= repr && sections.Valid()
    }

    ghost function Outer(): set<object>
      reads this, sections
    {
      {this, sections} + Nodes(sections.shape)
    }

    ghost predicate Owned(b: SectionTree)
      requires OuterValid()
      reads this, repr
    {
      b in repr && Foot(b) <= repr && b.Valid() && Foot(b) !! Outer()
    }

    ghost function Contents(): Config
      requires Valid()
      reads this, repr
    {
      var t := Value(sections.shape);
      Follow(t, Targets(Pointers(t)))
    }

    constructor ()
      ensures Valid() && fresh(repr) && Contents() == Leaf
    {
      var s := new BTree<SectionTree>();
      sections := s;
      new;
      repr := {this, s};
    }

    method GetSection(name: CString) returns (b: BTree?<CString>)
      requires Valid()
      ensures b == null ==> Find(Contents(), name) == None
      ensures b != null ==> Find(Value(sections.shape), name) == Some(b) && b in Pointers(Value(sections.shape))
      ensures b != null ==> Find(Contents(), name) == Some(Value(b.shape))
    {
      var p := sections.FindNode(name);
      ghost var t := Value(sections.shape);
      FindFollows(t, Targets(Pointers(t)), name);
      if p == null {
        b := null;
      } else {
        b := p.data;
      }
    }

    method AddSection(name: CString) returns (code: int)
      requires Valid()
      modifies repr
      ensures Valid() && fresh(repr - old(repr))
      ensures Contents() == InsertSection(old(Contents()), name) && code == 1
    {
      var section := new BTree<CString>();
      var r := sections.Insert(name, section);
      repr := repr + {section} + Nodes(sections.shape);
      code := if r != 0 then 1 else 0;
      SectionAdded(name, section);
    }

    twostate lemma SectionAdded(name: CString, new section: SectionTree)
      requires old(Valid()) && fresh(section) && section.Valid() && section.shape == Empty
      requires OuterValid() && section in repr && old(repr) <= repr
      requires Value(sections.shape) == Insert(old(Value(sections.shape)), name, section)
      requires fresh(Nodes(sections.shape) - old(Nodes(sections.shape)))
      requires unchanged(old(repr - Outer()))
      ensures Valid() && Contents() == InsertSection(old(Contents()), name)
    {
      ghost var t, t' := old(Value(sections.shape)), Value(sections.shape);
      ghost var m0 := old(Targets(Pointers(t)));
      ghost var m := m0[section := Leaf];
      InsertFollows(t, m, name, section);
      FollowAgrees(t, m, m0);
      SectionsKept(section);
      FollowAgrees(t', m, Targets(Pointers(t')));
    }

    /** Editing the outer tree leaves the section trees alone. */
    twostate lemma SectionsKept(new section: SectionTree)
      requires old(Valid()) && fresh(section) && section.Valid() && section.shape == Empty
      requires OuterValid() && section in repr && old(repr) <= repr
      requires fresh(Nodes(sections.shape) - old(Nodes(sections.shape)))
      requires unchanged(old(repr - Outer()))
      ensures Owned(section)
      ensures forall b :: b in old(Pointers(Value(sections.shape))) ==>
        Owned(b) && Foot(b) == old(Foot(b)) && b.shape == old(b.shape) && Foot(b) !! Foot(section)
    {
      forall b | b in old(Pointers(Value(sections.shape)))
        ensures Owned(b) && Foot(b) == old(Foot(b)) && b.shape == old(b.shape) && Foot(b) !! Foot(section)
      {
        assert old(Owned(b));
      }
    }

    method EditSection(b: SectionTree, key: CString, value: CString) returns (code: int)
      requires Valid() && b in Pointers(Value(sections.shape))
      modifies repr
      ensures OuterValid() && sections.shape == old(sections.shape) && Owned(b) && fresh(repr - old(repr))
      ensures forall b' :: b' in Pointers(Value(sections.shape)) && b' != b ==>
        Owned(b') && Foot(b') !! Foot(b) && Foot(b') == old(Foot(b')) && b'.shape == old(b'.shape)
      ensures Value(b.shape) == Insert(old(Value(b.shape)), key, value)
      ensures code == InsertCode(old(Value(b.shape)), key)
    {
      assert Owned(b);
      code := b.Insert(key, value);
      repr := repr + Nodes(b.shape);
      OthersKept(b);
    }

    method WriteKey(b: SectionTree, ghost name: CString, key: CString, value: CString) returns (code: int)
      requires Valid() && Find(Value(sections.shape), name) == Some(b)
      requires b in Pointers(Value(sections.shape))
      modifies repr
      ensures Valid() && fresh(repr - old(repr))
      ensures Contents() == Update(old(Contents()), name, Insert(old(Value(b.shape)), key, value))
      ensures code == InsertCode(old(Value(b.shape)), key)
    {
      ghost var t := Value(sections.shape);
      ghost var m := Targets(Pointers(t));
      code := EditSection(b, key, value);
      assert Targets(Pointers(t)) == m[b := Value(b.shape)];
      WriteFollows(t, m, name, Value(b.shape));
    }

    /** Editing one section tree leaves the outer tree and every other section alone. */
    twostate lemma OthersKept(b: SectionTree)
      requires old(Valid()) && b in old(Pointers(Value(sections.shape)))
      requires repr == old(repr) + Nodes(b.shape) && unchanged(old(repr - Foot(b) - {this}))
      requires fresh(Nodes(b.shape) - old(Nodes(b.shape)))
      ensures OuterValid() && sections.shape == old(sections.shape) && Outer() == old(Outer())
      ensures b in repr && Foot(b) <= repr && Foot(b) !! Outer()
      ensures forall b' :: b' in old(Pointers(Value(sections.shape))) && b' != b ==>
        Owned(b') && Foot(b') !! Foot(b) && Foot(b') == old(Foot(b')) && b'.shape == old(b'.shape)
    {
      assert old(Owned(b));
      assert OuterValid() && Outer() == old(Outer());
      forall b' | b' in old(Pointers(Value(sections.shape))) && b' != b
        ensures Owned(b') && Foot(b') !! Foot(b) && Foot(b') == old(Foot(b')) && b'.shape == old(b'.shape)
      {
        assert old(Owned(b'));
        assert old(Foot(b) !! Foot(b'));
      }
    }

    method AddSectionNode(name: CString, key: CString, value: CString) returns (code: int)
      requires Valid()
      modifies repr
      ensures Valid() && fresh(repr - old(repr))
      ensures code == match Find(old(Contents()), name)
                      case None => 0
                      case Some(section) => InsertCode(section, key)
      ensures code == 0 <==> InsertSectionNode(old(Contents()), name, key, value).None?
      ensures code == 0 ==> Contents() == old(Contents())
      ensures code != 0 ==> InsertSectionNode(old(Contents()), name, key, value) == Some(Contents())
    {
      var b := GetSection(name);
      if b == null {
        return 0;
      }
      code := WriteKey(b, name, key, value);
    }

    method FindOrAddSection(name: CString) returns (b: SectionTree)
      requires Valid()
      modifies repr
      ensures Valid() && fresh(repr - old(repr))
      ensures Contents() == WithSection(old(Contents()), name)
      ensures Find(Value(sections.shape), name) == Some(b) && b in Pointers(Value(sections.shape))
      ensures Find(Contents(), name) == Some(Value(b.shape))
    {
      var sect := GetSection(name);
      SectionIsThere(Contents(), name);
      if sect == null {
        var r := AddSection(name);
        sect := GetSection(name);
      }
      b := sect;
    }

    method SetValue(section: Option<CString>, key: CString, value: CString) returns (code: int)
      requires Valid()
      modifies repr
      ensures Valid() && fresh(repr - old(repr))
      ensures Contents() == SetString(old(Contents()), section, key, value)
      ensures code == match Find(old(Contents()), SectionName(section))
                      case None => 1
                      case Some(s) => InsertCode(s, key)
    {
      var name := SectionName(section);
      FindAfterInsert<Section>(Contents(), name, Leaf);
      var sect := FindOrAddSection(name);
      ghost var middle := repr;
      code := WriteKey(sect, name, key, value);
      assert repr - old(repr) <= (repr - middle) + (middle - old(repr));
    }

    method GetValue(section: Option<CString>, key: CString, default_string: CString) returns (v: CString)
      requires Valid()
      ensures v == GetString(Contents(), section, key, default_string)
    {
      var sec := GetSection(SectionName(section));
      if sec == null {
        return default_string;
      }
      var node := sec.FindNode(key);
      v := if node == null then default_string else node.data;
    }

    method SetNumber(section: Option<CString>, key: CString, value: int) returns (code: int)
      requires Valid()
      modifies repr
      ensures Valid() && fresh(repr - old(repr))
      ensures Contents() == SetInt(old(Contents()), section, key, value)
      ensures code == match Find(old(Contents()), SectionName(section))
                      case None => 1
                      case Some(s) => InsertCode(s, key)
    {
      code := SetValue(section, key, Itoa(value));
    }

    method GetNumber(section: Option<CString>, key: CString, default_int: int) returns (n: int)
      requires Valid()
      ensures n == GetInt(Contents(), section, key, default_int)
    {
      var sec := GetSection(SectionName(section));
      if sec == null {
        return default_int;
      }
      var node := sec.FindNode(key);
      n := if node == null then default_int else Atoi(node.data);
    }
  }
}
