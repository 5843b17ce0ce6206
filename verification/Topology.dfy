/** The tree in which matrices are wired: every matrix but the root has one parent. */
module Topology {

  type Id = int

  /** Parents of the non-root matrices, with each matrix's distance from the root. */
  datatype Tree = Tree(root: Id, parent: map<Id, Id>, depth: map<Id, nat>) {
    ghost predicate Valid() {
      && root !in parent
      && depth.Keys == parent.Keys + {root}
      && depth[root] == 0
      && forall c :: c in parent ==> parent[c] in depth && depth[c] == depth[parent[c]] + 1
    }

    /** `d` is `a` or below it. */
    ghost predicate Desc(a: Id, d: Id)
      requires Valid()
      decreases if d in depth then depth[d] else 0
    {
      d in depth && (d == a || (d in parent && Desc(a, parent[d])))
    }

    /** The matrices strictly below `a`. */
    ghost function Below(a: Id): set<Id>
      requires Valid()
    {
      set d | d in depth && d != a && Desc(a, d)
    }

    ghost predicate IsChild(c: Id, p: Id) {
      c in parent && parent[c] == p
    }

    /** The tree path from `o` down to `d`. */
    ghost function Path(o: Id, d: Id): set<Id>
      requires Valid()
    {
      set x | x in depth && Desc(o, x) && Desc(x, d)
    }

    lemma ParentIsAbove(c: Id)
      requires Valid() && c in parent
      ensures parent[c] in depth && depth[c] == depth[parent[c]] + 1
    {}

    lemma {:induction false} DescDepth(a: Id, d: Id)
      requires Valid() && Desc(a, d)
      ensures a in depth && depth[a] <= depth[d] && (depth[a] == depth[d] ==> a == d)
      decreases if d in depth then depth[d] else 0
    {
      if d != a { DescDepth(a, parent[d]); }
    }

    lemma {:induction false} DescTransitive(a: Id, b: Id, d: Id)
      requires Valid() && Desc(a, b) && Desc(b, d)
      ensures Desc(a, d)
      decreases if d in depth then depth[d] else 0
    {
      if d != b { DescTransitive(a, b, parent[d]); }
    }

    /** Two matrices above a third are above one another. */
    lemma {:induction false} AncestorsCompare(a: Id, b: Id, d: Id)
      requires Valid() && Desc(a, d) && Desc(b, d)
      ensures Desc(a, b) || Desc(b, a)
      decreases if d in depth then depth[d] else 0
    {
      if d != a && d != b { AncestorsCompare(a, b, parent[d]); }
    }

    /** The subtrees of two children of one matrix have nothing in common. */
    lemma SiblingsAreApart(c: Id, c': Id, d: Id)
      requires Valid() && c in parent && c' in parent && parent[c] == parent[c'] && Desc(c, d) && Desc(c', d)
      ensures c == c'
    {
      AncestorsCompare(c, c', d);
      if Desc(c, c') { DescDepth(c, c'); } else { DescDepth(c', c); }
    }

    /** Each matrix strictly below `a` is a child of `a` or below one. */
    lemma {:induction false} ChildTowards(a: Id, d: Id) returns (c: Id)
      requires Valid() && d in Below(a)
      ensures IsChild(c, a) && Desc(c, d)
      decreases if d in depth then depth[d] else 0
    {
      if parent[d] == a {
        c := d;
      } else {
        c := ChildTowards(a, parent[d]);
      }
    }

    lemma ChildIsBelow(c: Id, p: Id)
      requires Valid() && IsChild(c, p)
      ensures c in Below(p) && Below(c) <= Below(p) && p !in Below(c) && c !in Below(c)
    {
      assert Desc(p, p);
      forall d | d in Below(c) ensures d in Below(p) {
        DescTransitive(p, c, d);
        DescDepth(c, d);
      }
      if p in Below(c) { DescDepth(c, p); }
    }

    lemma PathToSelf(o: Id)
      requires Valid() && o in depth
      ensures Path(o, o) == {o}
    {
      forall x | x in Path(o, o) ensures x == o {
        DescDepth(o, x);
        DescDepth(x, o);
      }
    }

    lemma PathExtends(o: Id, p: Id, c: Id)
      requires Valid() && IsChild(c, p) && Desc(o, p)
      ensures Path(o, c) == Path(o, p) + {c} && c !in Path(o, p) && Desc(o, c) && o != c
    {
      DescDepth(o, p);
      forall x | x in Path(o, p) ensures x != c {
        DescDepth(x, p);
      }
    }
  }
}
