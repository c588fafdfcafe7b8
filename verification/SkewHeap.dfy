/** Skew heaps of intrusive entries that point to their children and to their parent. */
module SkewHeap {

  class Node {
    var parent: Node?
    var left: Node?
    var right: Node?

    constructor ()
      ensures parent == null && left == null && right == null
    {
      parent, left, right := null, null, null;
    }
  }

  /** The shape that the pointers spell out. */
  datatype Tree = Leaf | Branch(left: Tree, node: Node, right: Tree)

  /** -1, 0 or 1: the first entry comes before, ties with, or comes after the second. */
  type Comparator = (Node, Node) -> int

  ghost function Nodes(t: Tree): set<Node> {
    match t
    case Leaf => {}
    case Branch(l, x, r) => Nodes(l) + {x} + Nodes(r)
  }

  ghost function Size(t: Tree): nat {
    match t
    case Leaf => 0
    case Branch(l, x, r) => Size(l) + 1 + Size(r)
  }

  ghost predicate Distinct(t: Tree) {
    match t
    case Leaf => true
    case Branch(l, x, r) =>
      x !in Nodes(l) && x !in Nodes(r) && Nodes(l) !! Nodes(r) && Distinct(l) && Distinct(r)
  }

  /** The pointers agree with the tree, downwards and upwards; the root's own parent is left open. */
  ghost predicate Linked(t: Tree, root: Node?)
    reads Nodes(t)
  {
    match t
    case Leaf => root == null
    case Branch(l, x, r) =>
      root == x && Linked(l, x.left) && Linked(r, x.right) &&
      (l.Branch? ==> l.node.parent == x) && (r.Branch? ==> r.node.parent == x)
  }

  /** A heap: pointers agree with the tree, and the root has no parent. */
  ghost predicate Heap(t: Tree, root: Node?)
    reads Nodes(t)
  {
    Distinct(t) && Linked(t, root) && (t.Branch? ==> t.node.parent == null)
  }

  // ----- order -----

  ghost predicate NotAfter(comp: Comparator, x: Node, y: Node) { comp(x, y) <= 0 }

  /** The comparator answers -1, 0 or 1, and the opposite the other way round. */
  ghost predicate Mirrored(comp: Comparator, x: Node, y: Node) {
    -1 <= comp(x, y) <= 1 && comp(x, y) == -comp(y, x)
  }

  ghost predicate Preorder(comp: Comparator, s: set<Node>) {
    (forall x, y {:trigger Mirrored(comp, x, y)} :: x in s && y in s ==> Mirrored(comp, x, y)) &&
    (forall x, y, z {:trigger NotAfter(comp, x, y), NotAfter(comp, y, z)} :: x in s && y in s && z in s && NotAfter(comp, x, y) && NotAfter(comp, y, z) ==>
       NotAfter(comp, x, z))
  }

  ghost predicate First(comp: Comparator, x: Node, s: set<Node>) {
    forall y :: y in s ==> NotAfter(comp, x, y)
  }

  /** No entry is after any entry below it. */
  ghost predicate Ordered(t: Tree, comp: Comparator) {
    match t
    case Leaf => true
    case Branch(l, x, r) => First(comp, x, Nodes(l)) && First(comp, x, Nodes(r)) && Ordered(l, comp) && Ordered(r, comp)
  }

  /** Order among the entries other than gap. */
  ghost predicate OrderedBut(t: Tree, comp: Comparator, gap: Node) {
    match t
    case Leaf => true
    case Branch(l, x, r) =>
      (x != gap ==> First(comp, x, Nodes(l) - {gap}) && First(comp, x, Nodes(r) - {gap})) &&
      OrderedBut(l, comp, gap) && OrderedBut(r, comp, gap)
  }

  /** Without the gap in it, order but for the gap is order. */
  lemma {:induction false} NoGap(t: Tree, comp: Comparator, gap: Node)
    requires gap !in Nodes(t) && OrderedBut(t, comp, gap)
    ensures Ordered(t, comp)
  {
    if t.Branch? {
      assert Nodes(t.left) - {gap} == Nodes(t.left) && Nodes(t.right) - {gap} == Nodes(t.right);
      NoGap(t.left, comp, gap);
      NoGap(t.right, comp, gap);
    }
  }

  /** Whatever happens to one entry's key, the others stay in order. */
  lemma {:induction false} KeyChanged(t: Tree, before: Comparator, after: Comparator, gap: Node)
    requires Ordered(t, before)
    requires forall x, y :: x in Nodes(t) - {gap} && y in Nodes(t) - {gap} ==> after(x, y) == before(x, y)
    ensures OrderedBut(t, after, gap)
  {
    if t.Branch? {
      forall y | y in Nodes(t.left) - {gap} || y in Nodes(t.right) - {gap}
        ensures t.node != gap ==> NotAfter(after, t.node, y)
      {
        assert NotAfter(before, t.node, y);
      }
      KeyChanged(t.left, before, after, gap);
      KeyChanged(t.right, before, after, gap);
    }
  }

  // ----- merging -----

  function Merged(a: Tree, b: Tree, comp: Comparator): Tree {
    if a.Leaf? then b
    else if b.Leaf? then a
    else if comp(a.node, b.node) == -1 then Branch(Merged(a.right, b, comp), a.node, a.left)
    else Branch(Merged(a, b.right, comp), b.node, b.left)
  }

  lemma {:induction false} MergedNodes(a: Tree, b: Tree, comp: Comparator)
    requires Distinct(a) && Distinct(b) && Nodes(a) !! Nodes(b)
    ensures Nodes(Merged(a, b, comp)) == Nodes(a) + Nodes(b)
    ensures Distinct(Merged(a, b, comp))
  {
    if a.Branch? && b.Branch? {
      if comp(a.node, b.node) == -1 { MergedNodes(a.right, b, comp); } else { MergedNodes(a, b.right, comp); }
    }
  }

  lemma {:induction false} MergedSize(a: Tree, b: Tree, comp: Comparator)
    ensures Size(Merged(a, b, comp)) == Size(a) + Size(b)
  {
    if a.Branch? && b.Branch? {
      if comp(a.node, b.node) == -1 { MergedSize(a.right, b, comp); } else { MergedSize(a, b.right, comp); }
    }
  }

  lemma {:induction false} MergedOrdered(a: Tree, b: Tree, comp: Comparator)
    requires Distinct(a) && Distinct(b) && Nodes(a) !! Nodes(b)
    requires Ordered(a, comp) && Ordered(b, comp) && Preorder(comp, Nodes(a) + Nodes(b))
    ensures Ordered(Merged(a, b, comp), comp)
  {
    if a.Branch? && b.Branch? {
      if comp(a.node, b.node) == -1 {
        MergedOrdered(a.right, b, comp);
        MergedNodes(a.right, b, comp);
        BelowBoth(a.node, a.right, b, comp);
      } else {
        MergedOrdered(a, b.right, comp);
        MergedNodes(a, b.right, comp);
        assert Mirrored(comp, a.node, b.node);
        BelowBoth(b.node, b.right, a, comp);
      }
    }
  }

  /** An entry before the root of an ordered tree is before all of it. */
  lemma BelowBoth(x: Node, mine: Tree, other: Tree, comp: Comparator)
    requires First(comp, x, Nodes(mine)) && other.Branch? && NotAfter(comp, x, other.node) && Ordered(other, comp)
    requires Preorder(comp, {x} + Nodes(other))
    ensures First(comp, x, Nodes(mine) + Nodes(other))
  {
    forall y | y in Nodes(other) ensures NotAfter(comp, x, y) {
      assert y != other.node ==> NotAfter(comp, other.node, y);
      assert Mirrored(comp, y, y);
    }
  }

  /** Makes l the left child of x and the old left child the right one. */
  method Hang(x: Node, l: Node?, ghost tl: Tree, ghost tr: Tree)
    requires Linked(tl, l) && Linked(tr, x.left) && (tr.Branch? ==> tr.node.parent == x)
    requires Distinct(tl) && x !in Nodes(tl) && x !in Nodes(tr) && Nodes(tl) !! Nodes(tr)
    modifies x, l
    ensures Linked(Branch(tl, x, tr), x)
    ensures x.parent == old(x.parent)
  {
    x.left, x.right := l, x.left;
    if l != null { l.parent := x; }
  }

  method Merge(a: Node?, b: Node?, comp: Comparator, ghost ta: Tree, ghost tb: Tree) returns (r: Node?)
    requires Linked(ta, a) && Linked(tb, b) && Distinct(ta) && Distinct(tb) && Nodes(ta) !! Nodes(tb)
    modifies Nodes(ta) + Nodes(tb)
    ensures Linked(Merged(ta, tb, comp), r)
    ensures r == a || r == b
    ensures r != null ==> r.parent == old(r.parent)
    decreases ta, tb
  {
    if a == null {
      r := b;
    } else if b == null {
      r := a;
    } else if comp(a, b) == -1 {
      assert Linked(ta.left, a.left) && Linked(ta.right, a.right);
      assert Nodes(ta.left) !! Nodes(ta.right) + Nodes(tb) && a !in Nodes(ta.right) + Nodes(tb);
      assert allocated(Nodes(ta.left));
      var l := Merge(a.right, b, comp, ta.right, tb);
      assert Linked(ta.left, a.left);
      MergedNodes(ta.right, tb, comp);
      Hang(a, l, Merged(ta.right, tb, comp), ta.left);
      r := a;
    } else {
      assert Linked(tb.left, b.left) && Linked(tb.right, b.right);
      assert Nodes(tb.left) !! Nodes(ta) + Nodes(tb.right) && b !in Nodes(ta) + Nodes(tb.right);
      assert allocated(Nodes(tb.left));
      var l := Merge(a, b.right, comp, ta, tb.right);
      assert Linked(tb.left, b.left);
      MergedNodes(ta, tb.right, comp);
      Hang(b, l, Merged(ta, tb.right, comp), tb.left);
      r := b;
    }
  }

  /** Adds b, whatever its pointers were, to the heap. */
  method Insert(a: Node?, b: Node, comp: Comparator, ghost t: Tree) returns (r: Node?, ghost t': Tree)
    requires Heap(t, a) && b !in Nodes(t)
    modifies Nodes(t), b
    ensures Heap(t', r) && Nodes(t') == Nodes(t) + {b} && Size(t') == Size(t) + 1
    ensures Ordered(t, comp) && Preorder(comp, Nodes(t) + {b}) ==> Ordered(t', comp)
  {
    ghost var single := Branch(Leaf, b, Leaf);
    t' := Merged(t, single, comp);
    Inserted(t, b, comp);
    assert Nodes(single) == {b} && allocated(Nodes(t));
    b.left, b.right, b.parent := null, null, null;
    r := Merge(a, b, comp, t, single);
  }

  lemma Inserted(t: Tree, b: Node, comp: Comparator)
    requires Distinct(t) && b !in Nodes(t)
    ensures var t' := Merged(t, Branch(Leaf, b, Leaf), comp);
            Nodes(t') == Nodes(t) + {b} && Distinct(t') && Size(t') == Size(t) + 1 &&
            (Ordered(t, comp) && Preorder(comp, Nodes(t) + {b}) ==> Ordered(t', comp))
  {
    var single := Branch(Leaf, b, Leaf);
    assert Nodes(single) == {b} && Ordered(single, comp);
    MergedNodes(t, single, comp);
    MergedSize(t, single, comp);
    if Ordered(t, comp) && Preorder(comp, Nodes(t) + {b}) { MergedOrdered(t, single, comp); }
  }

  // ----- removing -----

  /** The subtree below b. */
  ghost function Sub(t: Tree, b: Node): (s: Tree)
    requires b in Nodes(t)
    ensures s.Branch? && s.node == b && Nodes(s) <= Nodes(t)
    ensures Distinct(t) ==> Distinct(s)
  {
    if t.node == b then t else if b in Nodes(t.left) then Sub(t.left, b) else Sub(t.right, b)
  }

  ghost function ParentIn(t: Tree, b: Node): (p: Node)
    requires b in Nodes(t) && b != t.node
    ensures p in Nodes(t)
  {
    if b in Nodes(t.left) then
      if t.left.node == b then t.node else ParentIn(t.left, b)
    else
      assert b in Nodes(t.right) && t.right.Branch?;
      if t.right.node == b then t.node else ParentIn(t.right, b)
  }

  /** The tree with the subtree at b replaced by the merge of its two halves. */
  ghost function Without(t: Tree, b: Node, comp: Comparator): Tree {
    match t
    case Leaf => Leaf
    case Branch(l, x, r) =>
      if x == b then Merged(l, r, comp)
      else if b in Nodes(l) then Branch(Without(l, b, comp), x, r)
      else Branch(l, x, Without(r, b, comp))
  }

  lemma {:induction false} WithoutNodes(t: Tree, b: Node, comp: Comparator)
    requires Distinct(t)
    ensures Nodes(Without(t, b, comp)) == Nodes(t) - {b}
    ensures Distinct(Without(t, b, comp))
  {
    if t.Branch? {
      if t.node == b { MergedNodes(t.left, t.right, comp); } else {
        WithoutNodes(t.left, b, comp);
        WithoutNodes(t.right, b, comp);
      }
    }
  }

  lemma {:induction false} WithoutSize(t: Tree, b: Node, comp: Comparator)
    requires b in Nodes(t)
    ensures Size(Without(t, b, comp)) == Size(t) - 1
  {
    if t.node == b { MergedSize(t.left, t.right, comp); }
    else if b in Nodes(t.left) { WithoutSize(t.left, b, comp); }
    else { WithoutSize(t.right, b, comp); }
  }

  /** Only the entries that stay have to be in order, so the key of b may have changed freely. */
  lemma {:induction false} WithoutOrdered(t: Tree, b: Node, comp: Comparator)
    requires Distinct(t) && b in Nodes(t) && OrderedBut(t, comp, b) && Preorder(comp, Nodes(t) - {b})
    ensures Ordered(Without(t, b, comp), comp)
  {
    if t.node == b {
      NoGap(t.left, comp, b);
      NoGap(t.right, comp, b);
      MergedOrdered(t.left, t.right, comp);
    } else if b in Nodes(t.left) {
      WithoutOrdered(t.left, b, comp);
      WithoutNodes(t.left, b, comp);
      NoGap(t.right, comp, b);
      assert Nodes(t.right) - {b} == Nodes(t.right);
    } else {
      WithoutOrdered(t.right, b, comp);
      WithoutNodes(t.right, b, comp);
      NoGap(t.left, comp, b);
      assert Nodes(t.left) - {b} == Nodes(t.left);
    }
  }

  /** The pointers lead from an entry to its subtree and to its parent. */
  lemma {:induction false} Located(t: Tree, root: Node, b: Node)
    requires Distinct(t) && Linked(t, root) && b in Nodes(t)
    ensures Linked(Sub(t, b), b)
    ensures b != t.node ==> b.parent == ParentIn(t, b) && ParentIn(t, b) !in Nodes(Sub(t, b))
  {
    if b != t.node {
      if b in Nodes(t.left) { Located(t.left, t.left.node, b); } else { Located(t.right, t.right.node, b); }
    }
  }

  /** The pointers of some entries at one moment. */
  datatype Links = Links(parent: Node?, left: Node?, right: Node?)

  ghost function Snapshot(s: set<Node>): map<Node, Links>
    reads s
  {
    map x | x in s :: Links(x.parent, x.left, x.right)
  }

  ghost predicate LinkedIn(t: Tree, root: Node?, m: map<Node, Links>)
    requires Nodes(t) <= m.Keys
  {
    match t
    case Leaf => root == null
    case Branch(l, x, r) =>
      root == x && LinkedIn(l, m[x].left, m) && LinkedIn(r, m[x].right, m) &&
      (l.Branch? ==> m[l.node].parent == x) && (r.Branch? ==> m[r.node].parent == x)
  }

  lemma {:induction false} LinkedNow(t: Tree, root: Node?, m: map<Node, Links>)
    requires Nodes(t) <= m.Keys && forall x :: x in Nodes(t) ==> m[x] == Links(x.parent, x.left, x.right)
    ensures LinkedIn(t, root, m) <==> Linked(t, root)
  {
    if t.Branch? {
      LinkedNow(t.left, t.node.left, m);
      LinkedNow(t.right, t.node.right, m);
    }
  }

  lemma {:induction false} LinkedFrame(t: Tree, root: Node?, m: map<Node, Links>, m': map<Node, Links>)
    requires Nodes(t) <= m.Keys && Nodes(t) <= m'.Keys && forall x :: x in Nodes(t) ==> m'[x] == m[x]
    requires LinkedIn(t, root, m)
    ensures LinkedIn(t, root, m')
  {
    if t.Branch? {
      LinkedFrame(t.left, m[t.node].left, m, m');
      LinkedFrame(t.right, m[t.node].right, m, m');
    }
  }

  /** The pointers changed from m to m' by putting rep in the place of b below p. */
  ghost predicate Respliced(m: map<Node, Links>, m': map<Node, Links>, b: Node, p: Node, rep: Node?, outside: set<Node>)
    requires outside <= m.Keys && outside <= m'.Keys && p in m && p in m'
  {
    m'[p] == (if m[p].left == b then m[p].(left := rep) else m[p].(right := rep)) &&
    forall x :: x in outside && x != p ==> m'[x] == m[x]
  }

  /** Such a change turns the pointers of a tree into those of the tree without b. */
  lemma {:induction false} Spliced(t: Tree, root: Node, b: Node, rep: Node?, comp: Comparator,
                                   m: map<Node, Links>, m': map<Node, Links>)
    requires Distinct(t) && b in Nodes(t) && b != t.node && Nodes(t) <= m.Keys && Nodes(t) <= m'.Keys
    requires LinkedIn(t, root, m)
    requires Respliced(m, m', b, ParentIn(t, b), rep, Nodes(t) - Nodes(Sub(t, b)))
    requires var u := Merged(Sub(t, b).left, Sub(t, b).right, comp);
             Nodes(u) <= m'.Keys && LinkedIn(u, rep, m') && (u.Branch? ==> m'[u.node].parent == ParentIn(t, b))
    ensures Nodes(Without(t, b, comp)) <= m'.Keys && LinkedIn(Without(t, b, comp), root, m')
  {
    WithoutNodes(t, b, comp);
    WithoutRoot(t.left, b, comp);
    WithoutRoot(t.right, b, comp);
    if b in Nodes(t.left) {
      LinkedFrame(t.right, m[root].right, m, m');
      if t.left.node != b { Spliced(t.left, t.left.node, b, rep, comp, m, m'); }
    } else {
      LinkedFrame(t.left, m[root].left, m, m');
      if t.right.node != b { Spliced(t.right, t.right.node, b, rep, comp, m, m'); }
    }
  }

  lemma WithoutRoot(t: Tree, b: Node, comp: Comparator)
    ensures t.Branch? && t.node != b ==> Without(t, b, comp).Branch? && Without(t, b, comp).node == t.node
  {}

  /** Merges the two halves below b and gives the result b's parent. */
  method Lift(b: Node, comp: Comparator, ghost sub: Tree) returns (rep: Node?)
    requires Distinct(sub) && sub.Branch? && Linked(sub, b)
    modifies Nodes(sub.left) + Nodes(sub.right)
    ensures Linked(Merged(sub.left, sub.right, comp), rep)
    ensures rep != null ==> rep.parent == b.parent
  {
    MergedNodes(sub.left, sub.right, comp);
    rep := Merge(b.left, b.right, comp, sub.left, sub.right);
    if rep != null { rep.parent := b.parent; }
  }

  /** Lets p point to rep instead of b. */
  method Replace(p: Node, b: Node, rep: Node?, comp: Comparator, ghost t: Tree, ghost m: map<Node, Links>)
    requires Distinct(t) && b in Nodes(t) && b != t.node && p == ParentIn(t, b) && p !in Nodes(Sub(t, b))
    requires Nodes(t) <= m.Keys && LinkedIn(t, t.node, m)
    requires forall x :: x in Nodes(t) - Nodes(Sub(t, b)) ==> m[x] == Links(x.parent, x.left, x.right)
    requires Linked(Merged(Sub(t, b).left, Sub(t, b).right, comp), rep) && (rep != null ==> rep.parent == p)
    modifies p
    ensures Linked(Without(t, b, comp), t.node)
    ensures p.parent == old(p.parent)
  {
    ghost var sub := Sub(t, b);
    MergedNodes(sub.left, sub.right, comp);
    if p.left == b { p.left := rep; } else { p.right := rep; }
    ghost var m' := Snapshot(Nodes(t));
    LinkedNow(Merged(sub.left, sub.right, comp), rep, m');
    Spliced(t, t.node, b, rep, comp, m, m');
    WithoutNodes(t, b, comp);
    LinkedNow(Without(t, b, comp), t.node, m');
  }

  /** Removes b from anywhere in the heap. Only the entries that stay need to have been in order,
      so the key of b may have changed freely before. */
  method Remove(a: Node?, b: Node, comp: Comparator, ghost t: Tree) returns (r: Node?, ghost t': Tree)
    requires Heap(t, a) && b in Nodes(t)
    modifies Nodes(t)
    ensures Heap(t', r) && Nodes(t') == Nodes(t) - {b} && Size(t') == Size(t) - 1
    ensures OrderedBut(t, comp, b) && Preorder(comp, Nodes(t) - {b}) ==> Ordered(t', comp)
  {
    t' := Without(t, b, comp);
    if OrderedBut(t, comp, b) && Preorder(comp, Nodes(t) - {b}) { WithoutOrdered(t, b, comp); }
    r := Unlink(a, b, comp, t);
    WithoutNodes(t, b, comp);
    WithoutSize(t, b, comp);
  }

  method Unlink(a: Node?, b: Node, comp: Comparator, ghost t: Tree) returns (r: Node?)
    requires Heap(t, a) && b in Nodes(t)
    modifies Nodes(t)
    ensures Heap(Without(t, b, comp), r)
  {
    Located(t, t.node, b);
    WithoutNodes(t, b, comp);
    WithoutRoot(t, b, comp);
    assert allocated(Nodes(t));
    ghost var m := Snapshot(Nodes(t));
    LinkedNow(t, t.node, m);
    var p := b.parent;
    var rep := Lift(b, comp, Sub(t, b));
    if p != null {
      Replace(p, b, rep, comp, t, m);
      r := a;
    } else {
      r := rep;
    }
  }
}
