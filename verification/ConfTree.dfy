/**
  The value stored by a configuration tree of src/confile.c, as an unbalanced binary tree,
  with the meaning of insertion (navigating by `memcmp`), lookup and deletion (navigating
  by `strcmp`).  ConfBTree.dfy shows that the pointer code computes these functions.
 */
module ConfTree {
  import opened CStrings

  datatype Option<+T> = None | Some(value: T)

  datatype Tree<+V> = Leaf | Node(left: Tree<V>, key: CString, data: V, right: Tree<V>)

  ghost function Keys<V>(t: Tree<V>): set<CString> {
    if t.Leaf? then {} else Keys(t.left) + {t.key} + Keys(t.right)
  }

  function Size<V>(t: Tree<V>): nat {
    if t.Leaf? then 0 else Size(t.left) + 1 + Size(t.right)
  }

  ghost predicate AllBelow<V>(t: Tree<V>, k: CString) {
    forall x :: x in Keys(t) ==> Less(x, k)
  }

  ghost predicate AllAbove<V>(t: Tree<V>, k: CString) {
    forall x :: x in Keys(t) ==> Less(k, x)
  }

  /** Search-tree order under `strcmp`. */
  ghost predicate Ordered<V>(t: Tree<V>) {
    t.Node? ==> AllBelow(t.left, t.key) && AllAbove(t.right, t.key) && Ordered(t.left) && Ordered(t.right)
  }

  /** The map of a node from the maps of its subtrees. */
  function Join<V>(l: map<CString, V>, k: CString, v: V, r: map<CString, V>): map<CString, V> {
    l + map[k := v] + r
  }

  /** The finite map a tree stands for. */
  ghost function ToMap<V>(t: Tree<V>): (m: map<CString, V>)
    ensures m.Keys == Keys(t)
  {
    if t.Leaf? then map[] else Join(ToMap(t.left), t.key, t.data, ToMap(t.right))
  }

  /** The order in which the traversals visit a tree. */
  function InOrder<V>(t: Tree<V>): seq<(CString, V)> {
    if t.Leaf? then [] else InOrder(t.left) + [(t.key, t.data)] + InOrder(t.right)
  }

  // ----- lookup -----

  function Find<V>(t: Tree<V>, key: CString): Option<V> {
    if t.Leaf? then None
    else
      var comp := StrCmp(key, t.key);
      if comp > 0 then Find(t.right, key)
      else if comp < 0 then Find(t.left, key)
      else Some(t.data)
  }

  ghost function Lookup<V>(m: map<CString, V>, key: CString): Option<V> {
    if key in m then Some(m[key]) else None
  }

  /** On an ordered tree a lookup reads the map. */
  lemma {:induction false} FindReadsTheMap<V>(t: Tree<V>, key: CString)
    requires Ordered(t)
    ensures Find(t, key) == Lookup(ToMap(t), key)
  {
    if t.Node? {
      FindReadsTheMap(t.left, key);
      FindReadsTheMap(t.right, key);
      StrCmpTrichotomy(key, t.key);
      OutsideTheGap(t, key);
    }
  }

  /** A key on one side of the root is not stored on the other side. */
  lemma OutsideTheGap<V>(t: Tree<V>, key: CString)
    requires t.Node? && Ordered(t)
    ensures Less(key, t.key) || key == t.key ==> key !in Keys(t.right)
    ensures Less(t.key, key) || key == t.key ==> key !in Keys(t.left)
  {
    StrCmpTrichotomy(key, t.key);
    StrCmpTrichotomy(t.key, t.key);
  }

  // ----- insertion -----

  function Insert<V>(t: Tree<V>, key: CString, data: V): Tree<V> {
    if t.Leaf? then Node(Leaf, key, data, Leaf)
    else
      var comp := MemCmp(key, t.key);
      if comp > 0 then Node(t.left, t.key, t.data, Insert(t.right, key, data))
      else if comp < 0 then Node(Insert(t.left, key, data), t.key, t.data, t.right)
      else Node(t.left, key, data, t.right)
  }

  /** The stored key at which insertion stops because `memcmp` reports equality: the first key
      on the search path that starts with the new key. */
  function Hit<V>(t: Tree<V>, key: CString): Option<CString> {
    if t.Leaf? then None
    else
      var comp := MemCmp(key, t.key);
      if comp > 0 then Hit(t.right, key)
      else if comp < 0 then Hit(t.left, key)
      else Some(t.key)
  }

  /** The result code of `config_btree_insert_node`: 1 for a new node, 2 for a replaced one. */
  function InsertCode<V>(t: Tree<V>, key: CString): int {
    if Hit(t, key).None? then 1 else 2
  }

  /** No stored key properly extends `key`: the caller-side condition under which the two
      comparisons agree on the whole tree. */
  ghost predicate NoProperExtension<V>(t: Tree<V>, key: CString) {
    forall x :: x in Keys(t) ==> !(key < x)
  }

  /** Navigation by `memcmp` in an ordered tree finds some stored extension of the key if there
      is one; keys off that path are not extensions of it unless the path has hit one. */
  lemma {:induction false} HitIsAnExtension<V>(t: Tree<V>, key: CString)
    requires Ordered(t)
    ensures Hit(t, key).None? ==> forall x :: x in Keys(t) ==> !(key <= x)
    ensures Hit(t, key).Some? ==> Hit(t, key).value in Keys(t) && key <= Hit(t, key).value
  {
    if t.Node? {
      MemCmpIsStrCmpUnlessProperPrefix(key, t.key);
      StrCmpTrichotomy(key, t.key);
      HitIsAnExtension(t.left, key);
      HitIsAnExtension(t.right, key);
      if !(key <= t.key) {
        NoExtensionAcross(t, key);
      }
    }
  }

  /** If the root is not an extension of `key`, all extensions lie on `key`'s side of it. */
  lemma NoExtensionAcross<V>(t: Tree<V>, key: CString)
    requires t.Node? && Ordered(t) && !(key <= t.key)
    ensures Less(key, t.key) ==> forall x :: x in Keys(t.right) ==> !(key <= x)
    ensures Less(t.key, key) ==> forall x :: x in Keys(t.left) ==> !(key <= x)
  {
    StrCmpTrichotomy(key, t.key);
    forall x | x in Keys(t.right) && Less(key, t.key) ensures !(key <= x) {
      if key <= x {
        StrCmpTrichotomy(t.key, x);
        ExtensionsAreConvex(key, t.key, x);
      }
    }
    forall x | x in Keys(t.left) && Less(t.key, key) ensures !(key <= x) {
      if key <= x {
        MemCmpIsStrCmpUnlessProperPrefix(key, x);
        StrCmpTrichotomy(key, x);
        StrCmpTrichotomy(x, x);
        if key != x { LessTransitive(t.key, key, x); }
        StrCmpTrichotomy(t.key, x);
      }
    }
  }

  ghost function Dropping<V>(m: map<CString, V>, hit: Option<CString>): map<CString, V> {
    if hit.None? then m else m - {hit.value}
  }

  /** What insertion does to the map, in every case: the hit key, if any, is dropped and the
      new one is added. */
  lemma {:induction false} InsertOnMaps<V>(t: Tree<V>, key: CString, data: V)
    requires Ordered(t)
    ensures ToMap(Insert(t, key, data)) == Dropping(ToMap(t), Hit(t, key))[key := data]
  {
    if t.Node? {
      MemCmpIsStrCmpUnlessProperPrefix(key, t.key);
      StrCmpTrichotomy(key, t.key);
      if key <= t.key {
        InsertAtRootOnMaps(t, key, data);
      } else if Less(key, t.key) {
        InsertOnMaps(t.left, key, data);
        InsertLeftOnMaps(t, key, data);
      } else {
        InsertOnMaps(t.right, key, data);
        InsertRightOnMaps(t, key, data);
      }
    }
  }

  lemma SidesAreDisjoint<V>(t: Tree<V>)
    requires t.Node? && Ordered(t)
    ensures Keys(t.left) !! Keys(t.right)
    ensures t.key !in Keys(t.left) && t.key !in Keys(t.right)
  {
    forall x | x in Keys(t.left) ensures x !in Keys(t.right) {
      StrCmpTrichotomy(x, t.key);
    }
    StrCmpTrichotomy(t.key, t.key);
  }

  // An edit confined to one of three disjoint parts of a map.

  lemma EditLeftPart<V>(l: map<CString, V>, k: CString, v: V, r: map<CString, V>,
                        hit: Option<CString>, key: CString, data: V)
    requires key != k && key !in r && k !in l && k !in r && l.Keys !! r.Keys
    requires hit.Some? ==> hit.value in l
    ensures Join(Dropping(l, hit)[key := data], k, v, r) == Dropping(Join(l, k, v, r), hit)[key := data]
  {}

  lemma EditRightPart<V>(l: map<CString, V>, k: CString, v: V, r: map<CString, V>,
                         hit: Option<CString>, key: CString, data: V)
    requires key != k && key !in l && k !in l && k !in r && l.Keys !! r.Keys
    requires hit.Some? ==> hit.value in r
    ensures Join(l, k, v, Dropping(r, hit)[key := data]) == Dropping(Join(l, k, v, r), hit)[key := data]
  {}

  lemma EditMiddlePart<V>(l: map<CString, V>, k: CString, v: V, r: map<CString, V>, key: CString, data: V)
    requires key !in r && k !in l && k !in r
    ensures Join(l, key, data, r) == (Join(l, k, v, r) - {k})[key := data]
  {}

  lemma InsertAtRootOnMaps<V>(t: Tree<V>, key: CString, data: V)
    requires t.Node? && Ordered(t) && key <= t.key
    ensures ToMap(Node(t.left, key, data, t.right)) == (ToMap(t) - {t.key})[key := data]
  {
    SidesAreDisjoint(t);
    MemCmpIsStrCmpUnlessProperPrefix(key, t.key);
    StrCmpTrichotomy(key, t.key);
    OutsideTheGap(t, key);
    EditMiddlePart(ToMap(t.left), t.key, t.data, ToMap(t.right), key, data);
  }

  lemma InsertLeftOnMaps<V>(t: Tree<V>, key: CString, data: V)
    requires t.Node? && Ordered(t) && Less(key, t.key)
    requires ToMap(Insert(t.left, key, data)) == Dropping(ToMap(t.left), Hit(t.left, key))[key := data]
    ensures ToMap(Node(Insert(t.left, key, data), t.key, t.data, t.right))
         == Dropping(ToMap(t), Hit(t.left, key))[key := data]
  {
    SidesAreDisjoint(t);
    HitIsAnExtension(t.left, key);
    OutsideTheGap(t, key);
    StrCmpTrichotomy(key, t.key);
    EditLeftPart(ToMap(t.left), t.key, t.data, ToMap(t.right), Hit(t.left, key), key, data);
  }

  lemma InsertRightOnMaps<V>(t: Tree<V>, key: CString, data: V)
    requires t.Node? && Ordered(t) && Less(t.key, key)
    requires ToMap(Insert(t.right, key, data)) == Dropping(ToMap(t.right), Hit(t.right, key))[key := data]
    ensures ToMap(Node(t.left, t.key, t.data, Insert(t.right, key, data)))
         == Dropping(ToMap(t), Hit(t.right, key))[key := data]
  {
    SidesAreDisjoint(t);
    HitIsAnExtension(t.right, key);
    OutsideTheGap(t, key);
    StrCmpTrichotomy(key, t.key);
    EditRightPart(ToMap(t.left), t.key, t.data, ToMap(t.right), Hit(t.right, key), key, data);
  }

  /** Insertion is map update if and only if the search path does not stop at a stored key
      other than the new one, that is, at a proper extension of it. */
  lemma {:induction false} InsertIsMapUpdateIff<V>(t: Tree<V>, key: CString, data: V)
    requires Ordered(t)
    ensures ToMap(Insert(t, key, data)) == ToMap(t)[key := data]
       <==> Hit(t, key).None? || Hit(t, key).value == key
  {
    InsertOnMaps(t, key, data);
    HitIsAnExtension(t, key);
    DroppingIsHarmlessIff(ToMap(t), Hit(t, key), key, data);
  }

  lemma DroppingIsHarmlessIff<V>(m: map<CString, V>, hit: Option<CString>, key: CString, data: V)
    requires hit.Some? ==> hit.value in m
    ensures Dropping(m, hit)[key := data] == m[key := data] <==> hit.None? || hit.value == key
  {
    if hit.Some? && hit.value != key {
      assert hit.value in m[key := data] && hit.value !in Dropping(m, hit)[key := data];
    }
  }

  /** Insertion keeps the tree ordered if and only if the key it hits, if any, is the least
      stored key that starts with the new one. */
  lemma {:induction false} InsertKeepsOrderIff<V>(t: Tree<V>, key: CString, data: V)
    requires Ordered(t)
    ensures Ordered(Insert(t, key, data)) <==> LeastExtension(t, key, Hit(t, key))
  {
    if t.Node? {
      MemCmpIsStrCmpUnlessProperPrefix(key, t.key);
      StrCmpTrichotomy(key, t.key);
      if key <= t.key {
        ReplaceRootOrderIff(t, key, data);
      } else if Less(key, t.key) {
        InsertKeepsOrderIff(t.left, key, data);
        InsertLeftOrder(t, key, data);
      } else {
        InsertKeepsOrderIff(t.right, key, data);
        InsertRightOrder(t, key, data);
      }
    }
  }

  ghost predicate LeastExtension<V>(t: Tree<V>, key: CString, hit: Option<CString>) {
    hit.Some? ==> forall x :: x in Keys(t) && key <= x ==> !Less(x, hit.value)
  }

  lemma InsertedKeys<V>(t: Tree<V>, key: CString, data: V)
    ensures key in Keys(Insert(t, key, data)) && Keys(Insert(t, key, data)) <= Keys(t) + {key}
  {}

  lemma ReplaceRootOrderIff<V>(t: Tree<V>, key: CString, data: V)
    requires t.Node? && Ordered(t) && key <= t.key
    ensures Ordered(Node(t.left, key, data, t.right)) <==> LeastExtension(t, key, Some(t.key))
  {
    MemCmpIsStrCmpUnlessProperPrefix(key, t.key);
    var least := LeastExtension(t, key, Some(t.key));
    forall x | x in Keys(t.left)
      ensures Less(x, key) <==> !(key <= x)
      ensures Less(x, t.key)
    {
      StrCmpTrichotomy(x, key);
      MemCmpIsStrCmpUnlessProperPrefix(key, x);
      if !Less(x, key) {
        StrCmpTrichotomy(x, t.key);
        ExtensionsAreConvex(key, x, t.key);
      }
    }
    forall x | x in Keys(t.right) ensures Less(key, x) && !Less(x, t.key) {
      if key != t.key { LessTransitive(key, t.key, x); }
      StrCmpTrichotomy(x, t.key);
    }
    StrCmpTrichotomy(t.key, t.key);
    assert AllAbove(t.right, key);
    assert AllBelow(t.left, key) ==> least;
    if least {
      forall x | x in Keys(t.left) ensures Less(x, key) {
        assert x in Keys(t);
      }
    }
  }

  lemma InsertLeftOrder<V>(t: Tree<V>, key: CString, data: V)
    requires t.Node? && Ordered(t) && Less(key, t.key) && !(key <= t.key)
    requires Ordered(Insert(t.left, key, data)) <==> LeastExtension(t.left, key, Hit(t.left, key))
    ensures Ordered(Node(Insert(t.left, key, data), t.key, t.data, t.right))
       <==> LeastExtension(t, key, Hit(t.left, key))
  {
    InsertedKeys(t.left, key, data);
    NoExtensionAcross(t, key);
    assert AllBelow(Insert(t.left, key, data), t.key);
  }

  lemma InsertRightOrder<V>(t: Tree<V>, key: CString, data: V)
    requires t.Node? && Ordered(t) && Less(t.key, key) && !(key <= t.key)
    requires Ordered(Insert(t.right, key, data)) <==> LeastExtension(t.right, key, Hit(t.right, key))
    ensures Ordered(Node(t.left, t.key, t.data, Insert(t.right, key, data)))
       <==> LeastExtension(t, key, Hit(t.right, key))
  {
    InsertedKeys(t.right, key, data);
    NoExtensionAcross(t, key);
    assert AllAbove(Insert(t.right, key, data), t.key);
  }

  /** The count follows the result code, on every tree. */
  lemma {:induction false} InsertCounts<V>(t: Tree<V>, key: CString, data: V)
    ensures Size(Insert(t, key, data)) == Size(t) + (if InsertCode(t, key) == 1 then 1 else 0)
  {
    if t.Node? {
      InsertCounts(t.left, key, data);
      InsertCounts(t.right, key, data);
    }
  }

  /** The working condition of a caller: with no stored proper extension of the new key,
      insertion refines map update in every respect. */
  lemma InsertRefinesMapUpdate<V>(t: Tree<V>, key: CString, data: V)
    requires Ordered(t) && NoProperExtension(t, key)
    ensures Ordered(Insert(t, key, data))
    ensures ToMap(Insert(t, key, data)) == ToMap(t)[key := data]
    ensures InsertCode(t, key) == (if key in ToMap(t) then 2 else 1)
    ensures Size(Insert(t, key, data)) == Size(t) + (if key in ToMap(t) then 0 else 1)
  {
    HitIsAnExtension(t, key);
    InsertIsMapUpdateIff(t, key, data);
    InsertKeepsOrderIff(t, key, data);
    InsertCounts(t, key, data);
    StrCmpTrichotomy(key, key);
    if key in Keys(t) {
      assert key <= key;
    }
  }

  /** A key just inserted is found again on any tree whatever, ordered or not: lookup by
      `strcmp` retraces the path that insertion took by `memcmp`. */
  lemma {:induction false} FindAfterInsert<V>(t: Tree<V>, key: CString, data: V)
    ensures Find(Insert(t, key, data), key) == Some(data)
  {
    StrCmpTrichotomy(key, key);
    if t.Node? {
      MemCmpIsStrCmpUnlessProperPrefix(key, t.key);
      FindAfterInsert(t.left, key, data);
      FindAfterInsert(t.right, key, data);
    }
  }

  /** `x` lies between the new key and the key at which its insertion stops. */
  ghost predicate Shadowed<V>(t: Tree<V>, key: CString, x: CString) {
    Hit(t, key).Some? && key <= x && !Less(Hit(t, key).value, x)
  }

  /** What every other lookup finds after any insertion into an ordered tree: the keys that start
      with the new one, up to the one it took the place of, are out of reach. */
  lemma {:induction false} FindAfterAnyInsert<V>(t: Tree<V>, key: CString, data: V, y: CString)
    requires Ordered(t) && y != key
    ensures Find(Insert(t, key, data), y) == if Shadowed(t, key, y) then None else Find(t, y)
  {
    StrCmpTrichotomy(key, y);
    if t.Node? {
      MemCmpIsStrCmpUnlessProperPrefix(key, t.key);
      StrCmpTrichotomy(key, t.key);
      StrCmpTrichotomy(t.key, y);
      if key <= t.key {
        FindAfterReplacement(t, key, data, y);
      } else if Less(key, t.key) {
        FindAfterAnyInsert(t.left, key, data, y);
        OffThePath(t, key, y);
      } else {
        FindAfterAnyInsert(t.right, key, data, y);
        OffThePath(t, key, y);
      }
    }
  }

  lemma {:induction false} FindAfterReplacement<V>(t: Tree<V>, key: CString, data: V, y: CString)
    requires t.Node? && Ordered(t) && y != key && key <= t.key
    ensures Find(Node(t.left, key, data, t.right), y) == if key <= y && !Less(t.key, y) then None else Find(t, y)
  {
    StrCmpTrichotomy(key, y);
    StrCmpTrichotomy(t.key, y);
    StrCmpTrichotomy(key, t.key);
    MemCmpIsStrCmpUnlessProperPrefix(key, t.key);
    MemCmpIsStrCmpUnlessProperPrefix(key, y);
    if Less(y, key) {
      if key != t.key { LessTransitive(y, key, t.key); }
    } else if !Less(t.key, y) {
      ExtensionsAreConvex(key, y, t.key);
      OutsideTheGap(t, y);
      FindReadsTheMap(t.right, y);
    } else if Less(t.key, y) {
      if key != t.key { LessTransitive(key, t.key, y); }
    }
  }

  /** A lookup that leaves the insertion's path finds what it found. */
  lemma {:induction false} OffThePath<V>(t: Tree<V>, key: CString, y: CString)
    requires t.Node? && Ordered(t) && !(key <= t.key)
    ensures Less(key, t.key) && !Less(y, t.key) ==> !Shadowed(t.left, key, y)
    ensures Less(t.key, key) && !Less(t.key, y) ==> !Shadowed(t.right, key, y)
  {
    if Less(key, t.key) && !Less(y, t.key) && key <= y {
      StrCmpTrichotomy(y, t.key);
      StrCmpTrichotomy(key, t.key);
      ExtensionsAreConvex(key, t.key, y);
    }
    if Less(t.key, key) && !Less(t.key, y) && key <= y {
      StrCmpTrichotomy(t.key, key);
      StrCmpTrichotomy(key, y);
      MemCmpIsStrCmpUnlessProperPrefix(key, y);
      if key != y { LessTransitive(t.key, key, y); }
    }
  }

  /** The hazard is real: three insertions into an empty tree leave it out of order, and the
      first key stored is lost. */
  lemma PrefixHazard()
    ensures var t := Insert(Insert(Insert(Leaf, "abc", 1), "abb", 2), "ab", 3);
            !Ordered(t) && Find(t, "abb") == None && "abb" in Keys(t) && Find(t, "abc") == None
  {
    var t1: Tree<int> := Insert(Leaf, "abc", 1);
    assert MemCmp("abb", "abc") == -1 by {
      assert "abb"[1..] == "bb" && "bb"[1..] == "b" && "abc"[1..] == "bc" && "bc"[1..] == "c";
    }
    assert Insert(t1, "abb", 2) == Node(Node(Leaf, "abb", 2, Leaf), "abc", 1, Leaf);
    assert MemCmp("ab", "abc") == 0 by {
      MemCmpIsStrCmpUnlessProperPrefix("ab", "abc");
    }
    assert StrCmp("abb", "ab") > 0 && StrCmp("abc", "ab") > 0 by {
      assert "abb"[1..] == "bb" && "bb"[1..] == "b" && "ab"[1..] == "b" && "b"[1..] == "";
      assert "abc"[1..] == "bc" && "bc"[1..] == "c";
    }
    var t := Insert(Insert(t1, "abb", 2), "ab", 3);
    assert t == Node(Node(Leaf, "abb", 2, Leaf), "ab", 3, Leaf);
    assert "abb" in Keys(t.left);
  }

  // ----- deletion -----

  /** The last entry of a tree in order, and the tree without it: the predecessor splice. */
  function Last<V>(t: Tree<V>): (CString, V)
    requires t.Node?
  {
    if t.right.Leaf? then (t.key, t.data) else Last(t.right)
  }

  function DropLast<V>(t: Tree<V>): Tree<V>
    requires t.Node?
  {
    if t.right.Leaf? then t.left else Node(t.left, t.key, t.data, DropLast(t.right))
  }

  /** The first entry of a tree in order, and the tree without it: the successor splice. */
  function First<V>(t: Tree<V>): (CString, V)
    requires t.Node?
  {
    if t.left.Leaf? then (t.key, t.data) else First(t.left)
  }

  function DropFirst<V>(t: Tree<V>): Tree<V>
    requires t.Node?
  {
    if t.left.Leaf? then t.right else Node(DropFirst(t.left), t.key, t.data, t.right)
  }

  /** What replaces a deleted node whose subtrees are `l` and `r`. */
  function Splice<V>(l: Tree<V>, r: Tree<V>): Tree<V> {
    if l.Node? then Node(DropLast(l), Last(l).0, Last(l).1, r)
    else if r.Node? then Node(l, First(r).0, First(r).1, DropFirst(r))
    else Leaf
  }

  function Delete<V>(t: Tree<V>, key: CString): Tree<V> {
    if t.Leaf? then Leaf
    else
      var comp := StrCmp(key, t.key);
      if comp > 0 then Node(t.left, t.key, t.data, Delete(t.right, key))
      else if comp < 0 then Node(Delete(t.left, key), t.key, t.data, t.right)
      else Splice(t.left, t.right)
  }

  /** The entries of a sequence whose key is not `key`, in order. */
  function Without<V>(s: seq<(CString, V)>, key: CString): seq<(CString, V)> {
    if s == [] then []
    else (if s[0].0 == key then [] else [s[0]]) + Without(s[1..], key)
  }

  lemma {:induction false} WithoutConcat<V>(a: seq<(CString, V)>, b: seq<(CString, V)>, key: CString)
    ensures Without(a + b, key) == Without(a, key) + Without(b, key)
  {
    if a == [] {
      assert a + b == b;
    } else {
      assert (a + b)[1..] == a[1..] + b;
      WithoutConcat(a[1..], b, key);
    }
  }

  lemma WithoutNode<V>(t: Tree<V>, key: CString)
    requires t.Node?
    ensures Without(InOrder(t), key)
         == Without(InOrder(t.left), key) + (if t.key == key then [] else [(t.key, t.data)]) + Without(InOrder(t.right), key)
  {
    WithoutConcat(InOrder(t.left), [(t.key, t.data)], key);
    WithoutConcat(InOrder(t.left) + [(t.key, t.data)], InOrder(t.right), key);
  }

  lemma {:induction false} WithoutAbsent<V>(t: Tree<V>, key: CString)
    requires key !in Keys(t)
    ensures Without(InOrder(t), key) == InOrder(t)
  {
    if t.Node? {
      WithoutAbsent(t.left, key);
      WithoutAbsent(t.right, key);
      WithoutNode(t, key);
    }
  }

  lemma {:induction false} DropLastInOrder<V>(t: Tree<V>)
    requires t.Node?
    ensures InOrder(t) == InOrder(DropLast(t)) + [Last(t)]
  {
    if t.right.Node? {
      DropLastInOrder(t.right);
    }
  }

  lemma {:induction false} DropFirstInOrder<V>(t: Tree<V>)
    requires t.Node?
    ensures InOrder(t) == [First(t)] + InOrder(DropFirst(t))
  {
    if t.left.Node? {
      DropFirstInOrder(t.left);
    }
  }

  /** In each of the splice cases, what is left in order is what was left of the node followed
      by what was right of it. */
  lemma SpliceInOrder<V>(l: Tree<V>, r: Tree<V>)
    ensures InOrder(Splice(l, r)) == InOrder(l) + InOrder(r)
  {
    if l.Node? {
      DropLastInOrder(l);
    } else if r.Node? {
      DropFirstInOrder(r);
    }
  }

  /** Whose entry takes the place of the removed one: with a left subtree the entry just before it in
      order, with only a right subtree the one just after it; the other subtree stays as it was. */
  lemma SpliceRoot<V>(l: Tree<V>, r: Tree<V>)
    ensures l.Node? ==> var t := Splice(l, r);
      && t.Node? && t.right == r && InOrder(l) == InOrder(t.left) + [(t.key, t.data)]
    ensures l.Leaf? && r.Node? ==> var t := Splice(l, r);
      && t.Node? && t.left == Leaf && InOrder(r) == [(t.key, t.data)] + InOrder(t.right)
    ensures l.Leaf? && r.Leaf? ==> Splice(l, r) == Leaf
  {
    if l.Node? {
      DropLastInOrder(l);
    } else if r.Node? {
      DropFirstInOrder(r);
    }
  }

  /** Deletion removes exactly the named entry from the in-order sequence. */
  lemma {:induction false} DeleteRemovesTheEntry<V>(t: Tree<V>, key: CString)
    requires Ordered(t)
    ensures InOrder(Delete(t, key)) == Without(InOrder(t), key)
  {
    if t.Node? {
      StrCmpTrichotomy(key, t.key);
      OutsideTheGap(t, key);
      WithoutNode(t, key);
      var comp := StrCmp(key, t.key);
      if comp > 0 {
        DeleteRemovesTheEntry(t.right, key);
        WithoutAbsent(t.left, key);
      } else if comp < 0 {
        DeleteRemovesTheEntry(t.left, key);
        WithoutAbsent(t.right, key);
      } else {
        DeleteRootRemovesTheEntry(t);
      }
    }
  }

  lemma {:induction false} DeleteRootRemovesTheEntry<V>(t: Tree<V>)
    requires t.Node? && Ordered(t)
    ensures InOrder(Splice(t.left, t.right)) == Without(InOrder(t), t.key)
  {
    hide InOrder, Without, Splice, Ordered;
    SidesAreDisjoint(t);
    WithoutNode(t, t.key);
    WithoutAbsent(t.left, t.key);
    WithoutAbsent(t.right, t.key);
    SpliceInOrder(t.left, t.right);
    assert InOrder(t.left) + [] == InOrder(t.left);
  }

  // Order and map of a tree read off its in-order sequence.

  ghost predicate Ascending<V>(s: seq<(CString, V)>) {
    forall i, j :: 0 <= i < j < |s| ==> Less(s[i].0, s[j].0)
  }

  lemma {:induction false} InOrderKeys<V>(t: Tree<V>)
    ensures forall k :: k in Keys(t) <==> exists i :: 0 <= i < |InOrder(t)| && InOrder(t)[i].0 == k
    ensures |InOrder(t)| == Size(t)
  {
    if t.Node? {
      InOrderKeys(t.left);
      InOrderKeys(t.right);
      var l, r := InOrder(t.left), InOrder(t.right);
      var s := InOrder(t);
      assert s[|l|] == (t.key, t.data);
      forall k | k in Keys(t) ensures exists i :: 0 <= i < |s| && s[i].0 == k {
        if k in Keys(t.left) {
          var i :| 0 <= i < |l| && l[i].0 == k;
          assert s[i].0 == k;
        } else if k in Keys(t.right) {
          var i :| 0 <= i < |r| && r[i].0 == k;
          assert s[|l| + 1 + i].0 == k;
        }
      }
      forall i | 0 <= i < |s| ensures s[i].0 in Keys(t) {
        if i < |l| { assert s[i] == l[i]; } else if i > |l| { assert s[i] == r[i - |l| - 1]; }
      }
    }
  }

  lemma AscendingConcat<V>(l: seq<(CString, V)>, e: (CString, V), r: seq<(CString, V)>)
    ensures Ascending(l + [e] + r) <==>
      && Ascending(l) && Ascending(r)
      && (forall i :: 0 <= i < |l| ==> Less(l[i].0, e.0))
      && (forall i :: 0 <= i < |r| ==> Less(e.0, r[i].0))
  {
    var s := l + [e] + r;
    var n := |l|;
    assert forall i :: 0 <= i < n ==> s[i] == l[i];
    assert s[n] == e;
    assert forall i :: n < i < |s| ==> s[i] == r[i - n - 1];
    if Ascending(s) {
      forall i, j | 0 <= i < j < |r| ensures Less(r[i].0, r[j].0) {
        assert s[n + 1 + i] == r[i] && s[n + 1 + j] == r[j];
      }
      forall i | 0 <= i < |r| ensures Less(e.0, r[i].0) {
        assert s[n + 1 + i] == r[i];
      }
    }
    if && Ascending(l) && Ascending(r)
       && (forall i :: 0 <= i < |l| ==> Less(l[i].0, e.0)) && (forall i :: 0 <= i < |r| ==> Less(e.0, r[i].0)) {
      forall i, j | 0 <= i < j < |s| ensures Less(s[i].0, s[j].0) {
        if i < n < j { LessTransitive(s[i].0, e.0, s[j].0); }
      }
    }
  }

  /** A tree is ordered exactly when its in-order sequence is strictly ascending. */
  lemma {:induction false} OrderedIffAscending<V>(t: Tree<V>)
    ensures Ordered(t) <==> Ascending(InOrder(t))
  {
    if t.Node? {
      OrderedIffAscending(t.left);
      OrderedIffAscending(t.right);
      InOrderKeys(t.left);
      InOrderKeys(t.right);
      AscendingConcat(InOrder(t.left), (t.key, t.data), InOrder(t.right));
    }
  }

  lemma {:induction false} WithoutMembers<V>(s: seq<(CString, V)>, key: CString, e: (CString, V))
    ensures e in Without(s, key) <==> e in s && e.0 != key
  {
    if s != [] {
      WithoutMembers(s[1..], key, e);
      assert e in s <==> e == s[0] || e in s[1..];
    }
  }

  lemma {:induction false} WithoutAscending<V>(s: seq<(CString, V)>, key: CString)
    requires Ascending(s)
    ensures Ascending(Without(s, key))
  {
    if s != [] {
      var rest := Without(s[1..], key);
      assert Ascending(s[1..]);
      WithoutAscending(s[1..], key);
      forall i | 0 <= i < |rest| ensures Less(s[0].0, rest[i].0) {
        WithoutMembers(s[1..], key, rest[i]);
        var j :| 0 <= j < |s[1..]| && s[1..][j] == rest[i];
        assert s[j + 1] == rest[i];
      }
      AscendingConcat([], s[0], rest);
      assert [] + [s[0]] + rest == [s[0]] + rest;
    }
  }

  /** The in-order sequence of an ordered tree lists exactly the pairs of its map. */
  lemma {:induction false} EntriesAreTheMap<V>(t: Tree<V>, e: (CString, V))
    requires Ordered(t)
    ensures e in InOrder(t) <==> e.0 in ToMap(t) && ToMap(t)[e.0] == e.1
  {
    if t.Node? {
      EntriesAreTheMap(t.left, e);
      EntriesAreTheMap(t.right, e);
      SidesAreDisjoint(t);
    }
  }

  /** On any tree, a deletion that finds its key drops exactly one node. */
  lemma {:induction false} DeleteCountsFound<V>(t: Tree<V>, key: CString)
    ensures Size(Delete(t, key)) == Size(t) - (if Find(t, key).Some? then 1 else 0)
  {
    if t.Node? {
      DeleteCountsFound(t.left, key);
      DeleteCountsFound(t.right, key);
      SpliceInOrder(t.left, t.right);
      InOrderKeys(t.left);
      InOrderKeys(t.right);
      InOrderKeys(Splice(t.left, t.right));
    }
  }

  lemma {:induction false} DeleteCounts<V>(t: Tree<V>, key: CString)
    requires Ordered(t)
    ensures Size(Delete(t, key)) == Size(t) - (if key in Keys(t) then 1 else 0)
    ensures key !in Keys(t) ==> Delete(t, key) == t
  {
    if t.Node? {
      StrCmpTrichotomy(key, t.key);
      OutsideTheGap(t, key);
      var comp := StrCmp(key, t.key);
      if comp > 0 {
        DeleteCounts(t.right, key);
      } else if comp < 0 {
        DeleteCounts(t.left, key);
      } else {
        SpliceInOrder(t.left, t.right);
        InOrderKeys(t.left);
        InOrderKeys(t.right);
        InOrderKeys(Splice(t.left, t.right));
      }
    }
  }

  /** Deletion on an ordered tree, seen by a caller: order is kept, the map loses exactly the
      key, the count drops by one exactly when the key was stored, and otherwise nothing
      changes. */
  lemma {:induction false} DeleteIsMapRemoval<V>(t: Tree<V>, key: CString)
    requires Ordered(t)
    ensures Ordered(Delete(t, key))
    ensures ToMap(Delete(t, key)) == ToMap(t) - {key}
    ensures Size(Delete(t, key)) == Size(t) - (if key in Keys(t) then 1 else 0)
    ensures key !in Keys(t) <==> Delete(t, key) == t
  {
    DeleteRemovesTheEntry(t, key);
    OrderedIffAscending(t);
    WithoutAscending(InOrder(t), key);
    OrderedIffAscending(Delete(t, key));
    DeleteCounts(t, key);
    var m, want := ToMap(Delete(t, key)), ToMap(t) - {key};
    forall k | k in m ensures k in want && m[k] == want[k] {
      EntriesAreTheMap(Delete(t, key), (k, m[k]));
      WithoutMembers(InOrder(t), key, (k, m[k]));
      EntriesAreTheMap(t, (k, m[k]));
    }
    forall k | k in want ensures k in m {
      EntriesAreTheMap(t, (k, want[k]));
      WithoutMembers(InOrder(t), key, (k, want[k]));
      EntriesAreTheMap(Delete(t, key), (k, want[k]));
    }
  }
}
