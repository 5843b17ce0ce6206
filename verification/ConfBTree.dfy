/**
  The pointer structure of src/confile.c: nodes linked left and right, edited in place
  through the address of the pointer that leads to the current node.
 */
module ConfBTree {
  import opened CStrings
  import opened ConfTree

  class BNode<V> {
    const key: CString
    const data: V
    var left: BNode?<V>
    var right: BNode?<V>

    constructor (key: CString, data: V)
      ensures this.key == key && this.data == data && left == null && right == null
    {
      this.key, this.data := key, data;
      left, right := null, null;
    }
  }

  /** `CONFIG_BTREE_NODE**`: the root field of the tree, or a child field of a node. */
  datatype Slot<!V> = RootSlot | LeftOf(node: BNode<V>) | RightOf(node: BNode<V>)

  // ----- shapes: which nodes are reachable, and how -----

  datatype Shape<!V> = Empty | Fork(left: Shape<V>, node: BNode<V>, right: Shape<V>)

  ghost function Nodes<V>(s: Shape<V>): set<BNode<V>> {
    if s.Empty? then {} else Nodes(s.left) + {s.node} + Nodes(s.right)
  }

  /** No node is reachable along two ways. */
  ghost predicate Separate<V>(s: Shape<V>) {
    s.Fork? ==>
      && Separate(s.left) && Separate(s.right)
      && s.node !in Nodes(s.left) && s.node !in Nodes(s.right) && Nodes(s.left) !! Nodes(s.right)
  }

  ghost function Top<V>(s: Shape<V>): BNode?<V> {
    if s.Empty? then null else s.node
  }

  /** The child fields lead where the shape says. */
  ghost predicate Linked<V>(s: Shape<V>)
    reads Nodes(s)
  {
    s.Fork? ==>
      && s.node.left == Top(s.left) && s.node.right == Top(s.right)
      && Linked(s.left) && Linked(s.right)
  }

  /** The stored value. */
  ghost function Value<V>(s: Shape<V>): Tree<V> {
    if s.Empty? then Leaf else Node(Value(s.left), s.node.key, s.node.data, Value(s.right))
  }

  lemma {:induction false} NodesAreAllocated<V>(s: Shape<V>)
    ensures forall n :: n in Nodes(s) ==> allocated(n)
  {
    if s.Fork? {
      NodesAreAllocated(s.left);
      NodesAreAllocated(s.right);
    }
  }

  // ----- spines: a shape with one subtree cut out -----

  datatype Spine<!V> =
    | Here
    | GoLeft(up: Spine<V>, node: BNode<V>, right: Shape<V>)
    | GoRight(up: Spine<V>, left: Shape<V>, node: BNode<V>)

  ghost function Plug<V>(c: Spine<V>, s: Shape<V>): Shape<V>
    decreases c
  {
    match c
    case Here => s
    case GoLeft(up, n, r) => Plug(up, Fork(s, n, r))
    case GoRight(up, l, n) => Plug(up, Fork(l, n, s))
  }

  ghost function SpineNodes<V>(c: Spine<V>): set<BNode<V>> {
    match c
    case Here => {}
    case GoLeft(up, n, r) => SpineNodes(up) + {n} + Nodes(r)
    case GoRight(up, l, n) => SpineNodes(up) + {n} + Nodes(l)
  }

  ghost predicate SpineSeparate<V>(c: Spine<V>) {
    match c
    case Here => true
    case GoLeft(up, n, r) =>
      && SpineSeparate(up) && Separate(r) && n !in Nodes(r)
      && n !in SpineNodes(up) && SpineNodes(up) !! Nodes(r)
    case GoRight(up, l, n) =>
      && SpineSeparate(up) && Separate(l) && n !in Nodes(l)
      && n !in SpineNodes(up) && SpineNodes(up) !! Nodes(l)
  }

  /** The node found at the top of a spine whose cut-out subtree starts at `sub`. */
  ghost function SpineTop<V>(c: Spine<V>, sub: BNode?<V>): BNode?<V> {
    match c
    case Here => sub
    case GoLeft(up, n, _) => SpineTop(up, n)
    case GoRight(up, _, n) => SpineTop(up, n)
  }

  /** Everything outside the cut-out subtree is linked, and the cut leads to `sub`. */
  ghost predicate SpineLinked<V>(c: Spine<V>, sub: BNode?<V>)
    reads SpineNodes(c)
  {
    match c
    case Here => true
    case GoLeft(up, n, r) => n.left == sub && n.right == Top(r) && Linked(r) && SpineLinked(up, n)
    case GoRight(up, l, n) => n.left == Top(l) && n.right == sub && Linked(l) && SpineLinked(up, n)
  }

  ghost function SpineSlot<V>(c: Spine<V>): Slot<V> {
    match c
    case Here => RootSlot
    case GoLeft(_, n, _) => LeftOf(n)
    case GoRight(_, _, n) => RightOf(n)
  }

  /** The value around a cut: a tree with one subtree missing. */
  ghost function Around<V>(c: Spine<V>, t: Tree<V>): Tree<V>
    decreases c
  {
    match c
    case Here => t
    case GoLeft(up, n, r) => Around(up, Node(t, n.key, n.data, Value(r)))
    case GoRight(up, l, n) => Around(up, Node(Value(l), n.key, n.data, t))
  }

  lemma {:induction false} PlugFacts<V>(c: Spine<V>, s: Shape<V>)
    ensures Nodes(Plug(c, s)) == SpineNodes(c) + Nodes(s)
    ensures Separate(Plug(c, s)) <==> SpineSeparate(c) && Separate(s) && SpineNodes(c) !! Nodes(s)
    ensures Top(Plug(c, s)) == SpineTop(c, Top(s))
    ensures Value(Plug(c, s)) == Around(c, Value(s))
    decreases c
  {
    match c
    case Here =>
    case GoLeft(up, n, r) => PlugFacts(up, Fork(s, n, r));
    case GoRight(up, l, n) => PlugFacts(up, Fork(l, n, s));
  }

  lemma {:induction false} PlugLinked<V>(c: Spine<V>, s: Shape<V>)
    ensures Linked(Plug(c, s)) <==> SpineLinked(c, Top(s)) && Linked(s)
    decreases c
  {
    match c
    case Here =>
    case GoLeft(up, n, r) => PlugLinked(up, Fork(s, n, r));
    case GoRight(up, l, n) => PlugLinked(up, Fork(l, n, s));
  }

  // ----- the tree -----

  class BTree<V> {
    var numNodes: int
    var root: BNode?<V>
    ghost var shape: Shape<V>

    ghost predicate Valid()
      reads this, Nodes(shape)
    {
      && root == Top(shape)
      && Linked(shape)
      && Separate(shape)
      && numNodes == Size(Value(shape))
    }

    constructor ()
      ensures Valid() && shape == Empty && numNodes == 0
    {
      numNodes, root, shape := 0, null, Empty;
    }

    /** `*slot = n`: what lies around the slot stays linked, and now leads to `n`. */
    method Store(slot: Slot<V>, n: BNode?<V>, ghost spine: Spine<V>, ghost was: BNode?<V>)
      requires slot == SpineSlot(spine)
      requires SpineSeparate(spine) && SpineLinked(spine, was) && root == SpineTop(spine, was)
      modifies if slot.RootSlot? then {this} else {slot.node}
      ensures SpineLinked(spine, n) && root == SpineTop(spine, n)
      ensures numNodes == old(numNodes) && shape == old(shape)
    {
      match slot
      case RootSlot => root := n;
      case LeftOf(p) => p.left := n;
      case RightOf(p) => p.right := n;
    }

    /** Records that the cut in `spine` now holds `sub`. */
    ghost method Adopt(spine: Spine<V>, sub: Shape<V>)
      requires SpineSeparate(spine) && Separate(sub) && SpineNodes(spine) !! Nodes(sub)
      requires SpineLinked(spine, Top(sub)) && Linked(sub) && root == SpineTop(spine, Top(sub))
      requires numNodes == Size(Around(spine, Value(sub)))
      modifies this`shape
      ensures Valid() && Nodes(shape) == SpineNodes(spine) + Nodes(sub)
      ensures Value(shape) == Around(spine, Value(sub))
    {
      shape := Plug(spine, sub);
      PlugFacts(spine, sub);
      PlugLinked(spine, sub);
    }

    /** Opens the shape at a cut. */
    lemma OpenAt(spine: Spine<V>, cur: Shape<V>)
      requires Valid() && shape == Plug(spine, cur)
      ensures SpineSeparate(spine) && Separate(cur) && SpineNodes(spine) !! Nodes(cur)
      ensures Nodes(shape) == SpineNodes(spine) + Nodes(cur)
      ensures SpineLinked(spine, Top(cur)) && Linked(cur) && root == SpineTop(spine, Top(cur))
      ensures Value(shape) == Around(spine, Value(cur))
      ensures forall n :: n in SpineNodes(spine) ==> allocated(n)
      ensures forall n :: n in Nodes(cur) ==> allocated(n)
    {
      PlugFacts(spine, cur);
      PlugLinked(spine, cur);
      NodesAreAllocated(shape);
    }

    /** Hangs a fresh node on an empty child field. */
    method Hang(slot: Slot<V>, node: BNode<V>, ghost spine: Spine<V>)
      requires Valid() && shape == Plug(spine, Empty) && slot == SpineSlot(spine)
      requires node !in Nodes(shape) && node.left == null && node.right == null
      requires Size(Around(spine, Node(Leaf, node.key, node.data, Leaf))) == numNodes + 1
      modifies this, Nodes(shape)
      ensures Valid() && Nodes(shape) == old(Nodes(shape)) + {node}
      ensures Value(shape) == Around(spine, Node(Leaf, node.key, node.data, Leaf))
      ensures numNodes == old(numNodes) + 1
    {
      OpenAt(spine, Empty);
      Store(slot, node, spine, null);
      numNodes := numNodes + 1;
      Adopt(spine, Fork(Empty, node, Empty));
    }

    /** Puts a fresh node in the place of the one `slot` leads to. */
    method Replace(slot: Slot<V>, p: BNode<V>, node: BNode<V>, ghost spine: Spine<V>, ghost cur: Shape<V>)
      requires Valid() && shape == Plug(spine, cur) && slot == SpineSlot(spine)
      requires cur.Fork? && p == cur.node && node !in Nodes(shape)
      requires Size(Around(spine, Node(Value(cur.left), node.key, node.data, Value(cur.right)))) == numNodes
      modifies this, node, Nodes(shape)
      ensures Valid() && Nodes(shape) <= old(Nodes(shape)) + {node}
      ensures Value(shape) == Around(spine, Node(Value(cur.left), node.key, node.data, Value(cur.right)))
      ensures numNodes == old(numNodes)
    {
      OpenAt(spine, cur);
      node.left := p.left;
      node.right := p.right;
      Store(slot, node, spine, p);
      Adopt(spine, Fork(cur.left, node, cur.right));
    }

    method Insert(key: CString, data: V) returns (code: int)
      requires Valid()
      modifies this, Nodes(shape)
      ensures Valid() && fresh(Nodes(shape) - old(Nodes(shape)))
      ensures Value(shape) == ConfTree.Insert(old(Value(shape)), key, data)
      ensures code == InsertCode(old(Value(shape)), key)
      ensures numNodes == old(numNodes) + (if code == 1 then 1 else 0)
    {
      NodesAreAllocated(shape);
      var node := new BNode(key, data);
      var p := root;
      var prev: Slot<V> := RootSlot;
      ghost var spine: Spine<V>, cur := Here, shape;
      InsertCounts(Value(shape), key, data);
      if p == null {
        Hang(prev, node, Here);
        return 1;
      }
      while true
        invariant shape == Plug(spine, cur) && shape == old(shape) && Valid() && unchanged(this)
        invariant p == Top(cur) && p != null && prev == SpineSlot(spine)
        invariant fresh(node) && node !in Nodes(shape)
        invariant node.key == key && node.data == data && node.left == null && node.right == null
        invariant ConfTree.Insert(Value(shape), key, data) == Around(spine, ConfTree.Insert(Value(cur), key, data))
        invariant Hit(Value(shape), key) == Hit(Value(cur), key)
        decreases cur
      {
        PlugLinked(spine, cur);
        var comp := MemCmp(key, p.key);
        if comp > 0 {
          ghost var down := GoRight(spine, cur.left, cur.node);
          if p.right == null {
            Hang(RightOf(p), node, down);
            return 1;
          }
          prev := RightOf(p);
          p := p.right;
          spine, cur := down, cur.right;
        } else if comp < 0 {
          ghost var down := GoLeft(spine, cur.node, cur.right);
          if p.left == null {
            Hang(LeftOf(p), node, down);
            return 1;
          }
          prev := LeftOf(p);
          p := p.left;
          spine, cur := down, cur.left;
        } else {
          Replace(prev, p, node, spine, cur);
          return 2;
        }
      }
    }

    method FindNode(key: CString) returns (p: BNode?<V>)
      requires Valid()
      ensures p == null ==> Find(Value(shape), key) == None
      ensures p != null ==> p in Nodes(shape) && p.key == key && Find(Value(shape), key) == Some(p.data)
    {
      p := root;
      ghost var cur := shape;
      while p != null
        invariant p == Top(cur) && Linked(cur) && Nodes(cur) <= Nodes(shape)
        invariant Find(Value(shape), key) == Find(Value(cur), key)
        decreases cur
      {
        var comp := StrCmp(key, p.key);
        StrCmpTrichotomy(key, p.key);
        if comp > 0 {
          p := p.right;
          cur := cur.right;
        } else if comp < 0 {
          p := p.left;
          cur := cur.left;
        } else {
          return;
        }
      }
    }

    /** Walks to the rightmost node below `p.left`, keeping the node whose right field leads
        to it (none if it is `p.left` itself). */
    method Rightmost(start: BNode<V>, ghost l: Shape<V>)
      returns (temp: BNode<V>, prevTmp: BNode?<V>, ghost inner: Spine<V>, ghost sub: Shape<V>)
      requires l.Fork? && l.node == start && Linked(l)
      ensures l == Plug(inner, sub) && sub.Fork? && sub.node == temp && temp.right == null && sub.right == Empty
      ensures if prevTmp == null then inner == Here else inner.GoRight? && inner.node == prevTmp
      ensures Last(Value(l)) == (temp.key, temp.data) && DropLast(Value(l)) == Around(inner, Value(sub.left))
    {
      temp, prevTmp, inner, sub := start, null, Here, l;
      while temp.right != null
        invariant l == Plug(inner, sub) && temp == Top(sub) && Linked(sub)
        invariant if prevTmp == null then inner == Here else inner.GoRight? && inner.node == prevTmp
        invariant Last(Value(l)) == Last(Value(sub)) && DropLast(Value(l)) == Around(inner, DropLast(Value(sub)))
        decreases sub
      {
        prevTmp := temp;
        temp := temp.right;
        inner, sub := GoRight(inner, sub.left, sub.node), sub.right;
      }
    }

    /** Walks to the leftmost node below `p.right`. */
    method Leftmost(start: BNode<V>, ghost r: Shape<V>)
      returns (temp: BNode<V>, prevTmp: BNode?<V>, ghost inner: Spine<V>, ghost sub: Shape<V>)
      requires r.Fork? && r.node == start && Linked(r)
      ensures r == Plug(inner, sub) && sub.Fork? && sub.node == temp && temp.left == null && sub.left == Empty
      ensures if prevTmp == null then inner == Here else inner.GoLeft? && inner.node == prevTmp
      ensures First(Value(r)) == (temp.key, temp.data) && DropFirst(Value(r)) == Around(inner, Value(sub.right))
    {
      temp, prevTmp, inner, sub := start, null, Here, r;
      while temp.left != null
        invariant r == Plug(inner, sub) && temp == Top(sub) && Linked(sub)
        invariant if prevTmp == null then inner == Here else inner.GoLeft? && inner.node == prevTmp
        invariant First(Value(r)) == First(Value(sub)) && DropFirst(Value(r)) == Around(inner, DropFirst(Value(sub)))
        decreases sub
      {
        prevTmp := temp;
        temp := temp.left;
        inner, sub := GoLeft(inner, sub.node, sub.right), sub.left;
      }
    }

    /** `*prevTmpPos = x` for the field by which `inner` leads to the node taken out. */
    method CutOut(prevTmpPos: Slot<V>, x: BNode?<V>, ghost inner: Spine<V>, ghost sub: Shape<V>, ghost rest: Shape<V>)
      requires prevTmpPos == SpineSlot(inner) && !prevTmpPos.RootSlot?
      requires sub.Fork? && Separate(Plug(inner, sub)) && Linked(Plug(inner, sub))
      requires rest == if inner.GoRight? then sub.left else sub.right
      requires x == Top(rest)
      modifies prevTmpPos.node
      ensures Linked(Plug(inner, rest)) && Separate(Plug(inner, rest))
      ensures Top(Plug(inner, rest)) == Top(Plug(inner, sub)) && prevTmpPos.node in Nodes(Plug(inner, sub))
      ensures Nodes(Plug(inner, rest)) == SpineNodes(inner) + Nodes(rest)
      ensures Value(Plug(inner, rest)) == Around(inner, Value(rest))
    {
      PlugFacts(inner, sub);
      PlugLinked(inner, sub);
      if prevTmpPos.RightOf? { prevTmpPos.node.right := x; } else { prevTmpPos.node.left := x; }
      assert SpineLinked(inner, x) && Linked(rest);
      assert Separate(rest) && SpineNodes(inner) !! Nodes(rest);
      hide Plug, SpineLinked, SpineSeparate, Linked, Separate;
      PlugFacts(inner, rest);
      PlugLinked(inner, rest);
    }

    /** Puts `temp`, already unlinked from below `p`, in the place of `p`. */
    method Promote(prevPos: Slot<V>, p: BNode<V>, temp: BNode<V>, newLeft: BNode?<V>, newRight: BNode?<V>,
                   ghost spine: Spine<V>, ghost l: Shape<V>, ghost r: Shape<V>)
      requires prevPos == SpineSlot(spine) && SpineSeparate(spine)
      requires SpineLinked(spine, p) && root == SpineTop(spine, p)
      requires SpineNodes(spine) !! Nodes(Fork(l, temp, r))
      requires Separate(Fork(l, temp, r)) && Linked(l) && Linked(r) && newLeft == Top(l) && newRight == Top(r)
      requires numNodes - 1 == Size(Around(spine, Value(Fork(l, temp, r))))
      modifies this, temp, if prevPos.RootSlot? then {} else {prevPos.node}
      ensures Valid() && Nodes(shape) == SpineNodes(spine) + Nodes(Fork(l, temp, r))
      ensures Value(shape) == Around(spine, Value(Fork(l, temp, r)))
      ensures numNodes == old(numNodes) - 1
    {
      NodesAreAllocated(l);
      NodesAreAllocated(r);
      Store(prevPos, temp, spine, p);
      temp.left := newLeft;
      temp.right := newRight;
      numNodes := numNodes - 1;
      hide Size, Around, Separate, SpineSeparate;
      Adopt(spine, Fork(l, temp, r));
    }

    /** Takes the last node of the subtree at `start` out of it; `rest` is what remains there,
        and `newLeft` its top node. */
    method TakeLast(start: BNode<V>, ghost l: Shape<V>)
      returns (temp: BNode<V>, newLeft: BNode?<V>, ghost rest: Shape<V>)
      requires l.Fork? && l.node == start && Linked(l) && Separate(l)
      modifies Nodes(l)
      ensures temp in Nodes(l) && Nodes(rest) == Nodes(l) - {temp}
      ensures Linked(rest) && Separate(rest) && newLeft == Top(rest)
      ensures Value(rest) == DropLast(Value(l)) && Last(Value(l)) == (temp.key, temp.data)
    {
      NodesAreAllocated(l);
      ghost var inner, sub;
      var prevTmp;
      temp, prevTmp, inner, sub := Rightmost(start, l);
      PlugFacts(inner, sub);
      PlugLinked(inner, sub);
      rest := Plug(inner, sub.left);
      if prevTmp == null {
        newLeft := temp.left;
      } else {
        CutOut(RightOf(prevTmp), temp.left, inner, sub, sub.left);
        newLeft := start;
      }
    }

    /** Takes the first node of the subtree at `start` out of it. */
    method TakeFirst(start: BNode<V>, ghost r: Shape<V>)
      returns (temp: BNode<V>, newRight: BNode?<V>, ghost rest: Shape<V>)
      requires r.Fork? && r.node == start && Linked(r) && Separate(r)
      modifies Nodes(r)
      ensures temp in Nodes(r) && Nodes(rest) == Nodes(r) - {temp}
      ensures Linked(rest) && Separate(rest) && newRight == Top(rest)
      ensures Value(rest) == DropFirst(Value(r)) && First(Value(r)) == (temp.key, temp.data)
    {
      NodesAreAllocated(r);
      ghost var inner, sub;
      var prevTmp;
      temp, prevTmp, inner, sub := Leftmost(start, r);
      PlugFacts(inner, sub);
      PlugLinked(inner, sub);
      rest := Plug(inner, sub.right);
      if prevTmp == null {
        newRight := temp.right;
      } else {
        CutOut(LeftOf(prevTmp), temp.right, inner, sub, sub.right);
        newRight := start;
      }
    }

    /** Unlinks `p`, whose left subtree is not empty: its in-order predecessor takes its place. */
    method SpliceLeft(prevPos: Slot<V>, p: BNode<V>, ghost spine: Spine<V>, ghost cur: Shape<V>)
      requires Valid() && shape == Plug(spine, cur) && prevPos == SpineSlot(spine)
      requires cur.Fork? && p == cur.node && p.left != null
      requires Size(Around(spine, Splice(Value(cur.left), Value(cur.right)))) == numNodes - 1
      modifies this, Nodes(shape)
      ensures Valid() && Nodes(shape) == old(Nodes(shape)) - {p}
      ensures Value(shape) == Around(spine, Splice(Value(cur.left), Value(cur.right)))
      ensures numNodes == old(numNodes) - 1
    {
      OpenAt(spine, cur);
      hide Plug, Around, Size, SpineTop, Linked, Last, First, DropLast, DropFirst;
      var temp, newLeft;
      ghost var rest;
      temp, newLeft, rest := TakeLast(p.left, cur.left);
      assert Nodes(Fork(rest, temp, cur.right)) == Nodes(cur.left) + Nodes(cur.right);
      Promote(prevPos, p, temp, newLeft, p.right, spine, rest, cur.right);
    }

    /** Unlinks `p`, which has only a right subtree: its in-order successor takes its place. */
    method SpliceRight(prevPos: Slot<V>, p: BNode<V>, ghost spine: Spine<V>, ghost cur: Shape<V>)
      requires Valid() && shape == Plug(spine, cur) && prevPos == SpineSlot(spine)
      requires cur.Fork? && p == cur.node && p.left == null && p.right != null
      requires Size(Around(spine, Splice(Value(cur.left), Value(cur.right)))) == numNodes - 1
      modifies this, Nodes(shape)
      ensures Valid() && Nodes(shape) == old(Nodes(shape)) - {p}
      ensures Value(shape) == Around(spine, Splice(Value(cur.left), Value(cur.right)))
      ensures numNodes == old(numNodes) - 1
    {
      OpenAt(spine, cur);
      hide Plug, Around, Size, SpineTop, Linked, Last, First, DropLast, DropFirst;
      var temp, newRight;
      ghost var rest;
      temp, newRight, rest := TakeFirst(p.right, cur.right);
      assert Nodes(Fork(cur.left, temp, rest)) == Nodes(cur.left) + Nodes(cur.right);
      Promote(prevPos, p, temp, p.left, newRight, spine, cur.left, rest);
    }

    /** Unlinks the node `p` that the search has found. */
    method Unlink(prevPos: Slot<V>, p: BNode<V>, ghost spine: Spine<V>, ghost cur: Shape<V>)
      requires Valid() && shape == Plug(spine, cur) && prevPos == SpineSlot(spine)
      requires cur.Fork? && p == cur.node
      requires Size(Around(spine, Splice(Value(cur.left), Value(cur.right)))) == numNodes - 1
      modifies this, Nodes(shape)
      ensures Valid() && Nodes(shape) == old(Nodes(shape)) - {p}
      ensures Value(shape) == Around(spine, Splice(Value(cur.left), Value(cur.right)))
      ensures numNodes == old(numNodes) - 1
    {
      OpenAt(spine, cur);
      if p.left != null {
        SpliceLeft(prevPos, p, spine, cur);
      } else if p.right != null {
        SpliceRight(prevPos, p, spine, cur);
      } else {
        Store(prevPos, null, spine, p);
        numNodes := numNodes - 1;
        Adopt(spine, Empty);
      }
    }

    method Delete(key: CString) returns (removed: int)
      requires Valid()
      modifies this, Nodes(shape)
      ensures Valid()
      ensures Value(shape) == ConfTree.Delete(old(Value(shape)), key)
      ensures removed == (if Find(old(Value(shape)), key).Some? then 1 else 0)
      ensures removed == 0 ==> unchanged(this) && shape == old(shape)
      ensures removed == 1 ==> exists p :: p in old(Nodes(shape)) && p.key == key && Nodes(shape) == old(Nodes(shape)) - {p}
      ensures numNodes == old(numNodes) - removed
    {
      var p := root;
      var prevPos: Slot<V> := RootSlot;
      ghost var spine: Spine<V>, cur := Here, shape;
      DeleteCountsFound(Value(shape), key);
      while p != null
        invariant shape == Plug(spine, cur) && shape == old(shape) && Valid() && unchanged(this)
        invariant p == Top(cur) && prevPos == SpineSlot(spine)
        invariant ConfTree.Delete(Value(shape), key) == Around(spine, ConfTree.Delete(Value(cur), key))
        invariant Find(Value(shape), key) == Find(Value(cur), key)
        decreases cur
      {
        OpenAt(spine, cur);
        StrCmpTrichotomy(key, p.key);
        var comp := StrCmp(key, p.key);
        if comp > 0 {
          spine, cur := GoRight(spine, cur.left, cur.node), cur.right;
          prevPos := RightOf(p);
          p := p.right;
        } else if comp < 0 {
          spine, cur := GoLeft(spine, cur.node, cur.right), cur.left;
          prevPos := LeftOf(p);
          p := p.left;
        } else {
          Unlink(prevPos, p, spine, cur);
          return 1;
        }
      }
      OpenAt(spine, cur);
      return 0;
    }
  }
}
