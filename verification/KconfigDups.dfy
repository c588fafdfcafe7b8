/** Removal of repeated and contradictory operands.  The passes walk one tree with two
    pointers into it; here a pointer is the path from the root of the tree, so that both
    may lead into the same tree, or to the same place. */
module KconfigDups {
  import opened Options
  import opened KconfigExpr
  import opened KconfigTransform
  import opened KconfigJoin
  import opened KconfigSame
  import opened KconfigOrder

  // ----- paths -----

  datatype Dir = L | R
  type Path = seq<Dir>

  function Child(e: Expr, d: Dir): Expr
    requires e.Bin?
  {
    if d == L then e.left else e.right
  }

  /** The path runs through nodes of the given operation. */
  predicate Within(op: Op, e: Expr, p: Path) {
    p == [] || (IsOp(e, op) && Within(op, Child(e, p[0]), p[1..]))
  }

  function Get(op: Op, e: Expr, p: Path): Expr
    requires Within(op, e, p)
    decreases p
  {
    if p == [] then e else Get(op, Child(e, p[0]), p[1..])
  }

  function Put(op: Op, e: Expr, p: Path, x: Expr): Expr
    requires Within(op, e, p)
    decreases p
  {
    if p == [] then x
    else if p[0] == L then Bin(op, Put(op, e.left, p[1..], x), e.right)
    else Bin(op, e.left, Put(op, e.right, p[1..], x))
  }

  /** The shape of an operation tree, its operands left out. */
  datatype Shape = Operand | Node(left: Shape, right: Shape)

  function ShapeOf(op: Op, e: Expr): Shape {
    if IsOp(e, op) then Node(ShapeOf(op, e.left), ShapeOf(op, e.right)) else Operand
  }

  function ShapeSize(s: Shape): nat {
    if s.Operand? then 1 else 1 + ShapeSize(s.left) + ShapeSize(s.right)
  }

  predicate WithinShape(s: Shape, p: Path) {
    p == [] || (s.Node? && WithinShape(if p[0] == L then s.left else s.right, p[1..]))
  }

  function ShapeAt(s: Shape, p: Path): Shape
    requires WithinShape(s, p)
    decreases p
  {
    if p == [] then s else ShapeAt(if p[0] == L then s.left else s.right, p[1..])
  }

  lemma {:induction false} PathInShape(op: Op, e: Expr, p: Path)
    ensures Within(op, e, p) <==> WithinShape(ShapeOf(op, e), p)
    ensures Within(op, e, p) ==> ShapeAt(ShapeOf(op, e), p) == ShapeOf(op, Get(op, e, p))
    decreases p
  {
    if p != [] && IsOp(e, op) { PathInShape(op, Child(e, p[0]), p[1..]); }
  }

  lemma {:induction false} Extend(op: Op, e: Expr, p: Path, d: Dir)
    requires Within(op, e, p) && IsOp(Get(op, e, p), op)
    ensures Within(op, e, p + [d]) && Get(op, e, p + [d]) == Child(Get(op, e, p), d)
    decreases p
  {
    if p == [] {
      assert (p + [d])[1..] == [];
    } else {
      Extend(op, Child(e, p[0]), p[1..], d);
      assert (p + [d])[1..] == p[1..] + [d];
    }
  }

  lemma {:induction false} PutFacts(op: Op, e: Expr, p: Path, x: Expr)
    requires Within(op, e, p)
    ensures Within(op, Put(op, e, p, x), p) && Get(op, Put(op, e, p, x), p) == x
    ensures Put(op, e, p, Get(op, e, p)) == e
    ensures Size(Put(op, e, p, x)) == Size(e) - Size(Get(op, e, p)) + Size(x)
    ensures Size(Get(op, e, p)) <= Size(e) && (p != [] ==> Size(Get(op, e, p)) < Size(e))
    ensures ShapeOf(op, x) == ShapeOf(op, Get(op, e, p)) ==> ShapeOf(op, Put(op, e, p, x)) == ShapeOf(op, e)
    decreases p
  {
    if p != [] { PutFacts(op, Child(e, p[0]), p[1..], x); }
  }

  /** Two different operand places do not disturb each other. */
  lemma {:induction false} PutElsewhere(op: Op, e: Expr, p: Path, q: Path, x: Expr)
    requires Within(op, e, p) && Within(op, e, q) && p != q
    requires !IsOp(Get(op, e, p), op) && !IsOp(Get(op, e, q), op)
    ensures Within(op, Put(op, e, p, x), q) && Get(op, Put(op, e, p, x), q) == Get(op, e, q)
    ensures forall y :: Within(op, Put(op, e, q, y), p) &&
                        Put(op, Put(op, e, p, x), q, y) == Put(op, Put(op, e, q, y), p, x)
    decreases p
  {
    if p != [] && q != [] && p[0] == q[0] {
      PutElsewhere(op, Child(e, p[0]), p[1..], q[1..], x);
    }
    if p != [] && q != [] && p[0] != q[0] {
      forall y ensures Within(op, Put(op, e, q, y), p) { PutFacts(op, Child(e, q[0]), q[1..], y); }
    }
  }

  // ----- values of operation trees -----

  lemma ApplyInner(op: Op, x: Tri, y: Tri, z: Tri)
    ensures Apply(op, Apply(op, x, y), z) == Apply(op, x, Apply(op, y, z))
    ensures Apply(op, z, Apply(op, x, y)) == Apply(op, x, Apply(op, z, y))
  {}

  /** An operand contributes to the tree's value through the operation alone. */
  lemma {:induction false} PutCalc(op: Op, e: Expr, p: Path, x: Expr, v: Valuation)
    requires Within(op, e, p)
    ensures Calc(Put(op, e, p, x), v) == Apply(op, Calc(x, v), Calc(Put(op, e, p, Sym(Unit(op))), v))
    decreases p
  {
    if p != [] {
      var c := Child(e, p[0]);
      PutCalc(op, c, p[1..], x, v);
      var other := Calc(Child(e, if p[0] == L then R else L), v);
      ApplyInner(op, Calc(x, v), Calc(Put(op, c, p[1..], Sym(Unit(op))), v), other);
    }
  }

  lemma {:induction false} SubtreeAbsorbed(op: Op, e: Expr, p: Path, v: Valuation)
    requires Within(op, e, p)
    ensures Apply(op, Calc(Get(op, e, p), v), Calc(e, v)) == Calc(e, v)
    decreases p
  {
    if p != [] { SubtreeAbsorbed(op, Child(e, p[0]), p[1..], v); }
  }

  lemma SameOperandValue(op: Op, e: Expr, p: Path, x: Expr, v: Valuation)
    requires Within(op, e, p) && Calc(x, v) == Calc(Get(op, e, p), v)
    ensures Calc(Put(op, e, p, x), v) == Calc(e, v)
  {
    PutCalc(op, e, p, x, v);
    PutCalc(op, e, p, Get(op, e, p), v);
    PutFacts(op, e, p, x);
  }

  lemma {:induction false} PutTwoValued(op: Op, e: Expr, p: Path, x: Expr, v: Valuation)
    requires Within(op, e, p) && TwoValued(e, v)
    ensures TwoValued(Get(op, e, p), v)
    ensures TwoValued(x, v) ==> TwoValued(Put(op, e, p, x), v)
    decreases p
  {
    if p != [] { PutTwoValued(op, Child(e, p[0]), p[1..], x, v); }
  }

  function Replace2(op: Op, e: Expr, p: Path, q: Path, x: Expr, y: Expr): Expr
    requires Within(op, e, p) && Within(op, Put(op, e, p, x), q)
  {
    Put(op, Put(op, e, p, x), q, y)
  }

  lemma ApplySwaps(op: Op, x: Tri, y: Tri, x0: Tri, y0: Tri, z: Tri)
    requires Apply(op, x, y) == Apply(op, x0, y0)
    ensures Apply(op, y, Apply(op, x, z)) == Apply(op, y0, Apply(op, x0, z))
  {}

  lemma Replace2Value(op: Op, e: Expr, p: Path, q: Path, x: Expr, y: Expr, v: Valuation)
    requires Within(op, e, p) && Within(op, e, q) && p != q
    requires !IsOp(Get(op, e, p), op) && !IsOp(Get(op, e, q), op)
    ensures Within(op, Put(op, e, p, x), q) && Within(op, Put(op, e, q, Sym(Unit(op))), p)
    ensures Calc(Replace2(op, e, p, q, x, y), v) ==
            Apply(op, Calc(y, v),
                  Apply(op, Calc(x, v), Calc(Put(op, Put(op, e, q, Sym(Unit(op))), p, Sym(Unit(op))), v)))
  {
    PutElsewhere(op, e, p, q, x);
    PutCalc(op, Put(op, e, p, x), q, y, v);
    PutCalc(op, Put(op, e, q, Sym(Unit(op))), p, x, v);
  }

  /** Replacing two operands by two others that combine to the same value keeps the tree's value. */
  lemma Replace2Calc(op: Op, e: Expr, p: Path, q: Path, x: Expr, y: Expr, v: Valuation)
    requires Within(op, e, p) && Within(op, e, q) && p != q
    requires !IsOp(Get(op, e, p), op) && !IsOp(Get(op, e, q), op)
    requires Apply(op, Calc(x, v), Calc(y, v)) == Apply(op, Calc(Get(op, e, p), v), Calc(Get(op, e, q), v))
    ensures Within(op, Put(op, e, p, x), q)
    ensures Calc(Replace2(op, e, p, q, x, y), v) == Calc(e, v)
  {
    var x0, y0 := Get(op, e, p), Get(op, e, q);
    var z := Calc(Put(op, Put(op, e, q, Sym(Unit(op))), p, Sym(Unit(op))), v) by {
      PutElsewhere(op, e, p, q, x);
    }
    Replace2Value(op, e, p, q, x, y, v);
    Replace2Value(op, e, p, q, x0, y0, v);
    PutFacts(op, e, p, x);
    PutFacts(op, e, q, y);
    ApplySwaps(op, Calc(x, v), Calc(y, v), Calc(x0, v), Calc(y0, v), z);
  }

  // ----- first pass: join pairs of operands -----

  datatype Rewrite = Rewrite(tree: Expr, count: nat)

  /** What the first pass does at a pair of operands, the first already rewritten to n. */
  function Dups1Step(op: Op, t: Expr, p1: Path, p2: Path, n: Expr): Expr
    requires Within(op, t, p1) && Within(op, t, p2) && p1 != p2
    requires !IsOp(Get(op, t, p1), op) && !IsOp(Get(op, t, p2), op)
  {
    var j := Join(op, n, Get(op, t, p2));
    PutElsewhere(op, t, p1, p2, Sym(Unit(op)));
    if j.Some? then Replace2(op, t, p1, p2, Sym(Unit(op)), j.value) else Put(op, t, p1, n)
  }

  lemma Dups1StepShape(op: Op, t: Expr, p1: Path, p2: Path, n: Expr)
    requires Within(op, t, p1) && Within(op, t, p2) && p1 != p2
    requires !IsOp(Get(op, t, p1), op) && !IsOp(Get(op, t, p2), op)
    requires !IsOp(n, op) && Size(n) <= Size(Get(op, t, p1))
    ensures ShapeOf(op, Dups1Step(op, t, p1, p2, n)) == ShapeOf(op, t)
    ensures Size(Dups1Step(op, t, p1, p2, n)) <= Size(t)
  {
    var u := Sym(Unit(op));
    PutFacts(op, t, p1, n);
    PutFacts(op, t, p1, u);
    PutElsewhere(op, t, p1, p2, u);
    var j := Join(op, n, Get(op, t, p2));
    if j.Some? {
      JoinShape(op, n, Get(op, t, p2));
      PutFacts(op, Put(op, t, p1, u), p2, j.value);
    }
  }

  function Dups1(op: Op, t: Expr, p1: Path, p2: Path): (r: Rewrite)
    requires IsOp(t, op) && Within(op, t, p1) && Within(op, t, p2)
    ensures ShapeOf(op, r.tree) == ShapeOf(op, t)
    ensures Size(r.tree) <= Size(t)
    decreases Size(t),
      ShapeSize(ShapeOf(op, Get(op, t, p1))) + ShapeSize(ShapeOf(op, Get(op, t, p2)))
  {
    PathInShape(op, t, p1);
    PathInShape(op, t, p2);
    var e1 := Get(op, t, p1);
    var e2 := Get(op, t, p2);
    if IsOp(e1, op) then
      Extend(op, t, p1, L); Extend(op, t, p1, R);
      PathInShape(op, t, p1 + [L]); PathInShape(op, t, p1 + [R]);
      var a := Dups1(op, t, p1 + [L], p2);
      PathInShape(op, a.tree, p1 + [R]); PathInShape(op, a.tree, p2);
      var b := Dups1(op, a.tree, p1 + [R], p2);
      Rewrite(b.tree, a.count + b.count)
    else if IsOp(e2, op) then
      Extend(op, t, p2, L); Extend(op, t, p2, R);
      PathInShape(op, t, p2 + [L]); PathInShape(op, t, p2 + [R]);
      var a := Dups1(op, t, p1, p2 + [L]);
      PathInShape(op, a.tree, p1); PathInShape(op, a.tree, p2 + [R]);
      var b := Dups1(op, a.tree, p1, p2 + [R]);
      Rewrite(b.tree, a.count + b.count)
    else if p1 == p2 then Rewrite(t, 0)
    else
      PutFacts(op, t, p1, e1);
      var n := if e1.Bin? then Dups1(e1.op, e1, [], []) else Rewrite(e1, 0);
      Dups1StepShape(op, t, p1, p2, n.tree);
      Rewrite(Dups1Step(op, t, p1, p2, n.tree), n.count + if Join(op, n.tree, e2).Some? then 1 else 0)
  }

  /** The first pass is exact over all three values. */
  lemma {:induction false} Dups1Calc(op: Op, t: Expr, p1: Path, p2: Path, v: Valuation)
    requires IsOp(t, op) && Within(op, t, p1) && Within(op, t, p2) && WellTyped(v)
    ensures Calc(Dups1(op, t, p1, p2).tree, v) == Calc(t, v)
    ensures TwoValued(t, v) ==> TwoValued(Dups1(op, t, p1, p2).tree, v)
    decreases Size(t), ShapeSize(ShapeOf(op, Get(op, t, p1))) + ShapeSize(ShapeOf(op, Get(op, t, p2)))
  {
    PathInShape(op, t, p1);
    PathInShape(op, t, p2);
    var e1 := Get(op, t, p1);
    var e2 := Get(op, t, p2);
    if IsOp(e1, op) {
      Extend(op, t, p1, L); Extend(op, t, p1, R);
      PathInShape(op, t, p1 + [R]);
      var a := Dups1(op, t, p1 + [L], p2);
      PathInShape(op, a.tree, p1 + [R]); PathInShape(op, a.tree, p2);
      Dups1Calc(op, t, p1 + [L], p2, v);
      Dups1Calc(op, a.tree, p1 + [R], p2, v);
    } else if IsOp(e2, op) {
      Extend(op, t, p2, L); Extend(op, t, p2, R);
      PathInShape(op, t, p2 + [R]);
      var a := Dups1(op, t, p1, p2 + [L]);
      PathInShape(op, a.tree, p1); PathInShape(op, a.tree, p2 + [R]);
      Dups1Calc(op, t, p1, p2 + [L], v);
      Dups1Calc(op, a.tree, p1, p2 + [R], v);
    } else if p1 != p2 {
      PutFacts(op, t, p1, e1);
      if e1.Bin? { Dups1Calc(e1.op, e1, [], [], v); }
      var n := if e1.Bin? then Dups1(e1.op, e1, [], []) else Rewrite(e1, 0);
      Dups1StepCalc(op, t, p1, p2, n.tree, v);
    }
  }

  lemma Dups1StepCalc(op: Op, t: Expr, p1: Path, p2: Path, n: Expr, v: Valuation)
    requires Within(op, t, p1) && Within(op, t, p2) && p1 != p2 && WellTyped(v)
    requires !IsOp(Get(op, t, p1), op) && !IsOp(Get(op, t, p2), op)
    requires Calc(n, v) == Calc(Get(op, t, p1), v) && (TwoValued(Get(op, t, p1), v) ==> TwoValued(n, v))
    ensures Calc(Dups1Step(op, t, p1, p2, n), v) == Calc(t, v)
    ensures TwoValued(t, v) ==> TwoValued(Dups1Step(op, t, p1, p2, n), v)
  {
    var u := Sym(Unit(op));
    var e2 := Get(op, t, p2);
    var j := Join(op, n, e2);
    if TwoValued(t, v) {
      PutTwoValued(op, t, p1, n, v);
      PutTwoValued(op, t, p1, u, v);
      PutTwoValued(op, t, p2, u, v);
    }
    if j.Some? {
      JoinCalc(op, n, e2, v);
      UnitApplied(op, Calc(j.value, v), v);
      Replace2Calc(op, t, p1, p2, u, j.value, v);
      if TwoValued(t, v) { PutTwoValued(op, Put(op, t, p1, u), p2, j.value, v); }
    } else {
      SameOperandValue(op, t, p1, n, v);
    }
  }

  lemma UnitApplied(op: Op, x: Tri, v: Valuation)
    ensures Apply(op, Calc(Sym(Unit(op)), v), x) == x
  {}

  // ----- what the counter says -----

  lemma {:induction false} PutRedex(op: Op, e: Expr, p: Path, x: Expr)
    requires Within(op, e, p)
    ensures p != [] && IsYN(x) ==> HasRedex(Put(op, e, p, x))
    ensures HasRedex(e) && (IsYN(Get(op, e, p)) ==> IsYN(x)) && (HasRedex(Get(op, e, p)) ==> HasRedex(x))
            ==> HasRedex(Put(op, e, p, x))
    decreases p
  {
    if p != [] {
      var c := Child(e, p[0]);
      PutRedex(op, c, p[1..], x);
      assert IsYN(c) ==> p[1..] == [] && Get(op, c, p[1..]) == c;
    }
  }

  lemma Dups1StepRedex(op: Op, t: Expr, p1: Path, p2: Path, n: Expr)
    requires IsOp(t, op) && Within(op, t, p1) && Within(op, t, p2) && p1 != p2
    requires !IsOp(Get(op, t, p1), op) && !IsOp(Get(op, t, p2), op)
    requires n == Get(op, t, p1) || (Get(op, t, p1).Bin? && n.Bin? && (HasRedex(Get(op, t, p1)) ==> HasRedex(n)))
    ensures Join(op, n, Get(op, t, p2)).Some? || HasRedex(t) ==> HasRedex(Dups1Step(op, t, p1, p2, n))
    ensures Join(op, n, Get(op, t, p2)).None? && HasRedex(n) ==> HasRedex(Dups1Step(op, t, p1, p2, n))
  {
    var u := Sym(Unit(op));
    PutElsewhere(op, t, p1, p2, u);
    PutRedex(op, t, p1, n);
    var j := Join(op, n, Get(op, t, p2));
    if j.Some? {
      PutFacts(op, t, p2, j.value);
      PutRedex(op, Put(op, t, p2, j.value), p1, u);
    } else if HasRedex(n) {
      SubRedex(op, Put(op, t, p1, n), p1) by { PutFacts(op, t, p1, n); }
    }
  }

  lemma {:induction false} SubRedex(op: Op, e: Expr, p: Path)
    requires Within(op, e, p) && HasRedex(Get(op, e, p))
    ensures HasRedex(e)
    decreases p
  {
    if p != [] { SubRedex(op, Child(e, p[0]), p[1..]); }
  }

  /** A counted change leaves a constant for the elimination to remove; no count, no change. */
  ghost predicate Counted(t: Expr, r: Rewrite) {
    (r.count > 0 || HasRedex(t) ==> HasRedex(r.tree)) && (r.count == 0 ==> r.tree == t)
  }

  lemma {:induction false} Dups1Counts(op: Op, t: Expr, p1: Path, p2: Path)
    requires IsOp(t, op) && Within(op, t, p1) && Within(op, t, p2)
    ensures Counted(t, Dups1(op, t, p1, p2))
    decreases Size(t), ShapeSize(ShapeOf(op, Get(op, t, p1))) + ShapeSize(ShapeOf(op, Get(op, t, p2)))
  {
    PathInShape(op, t, p1);
    PathInShape(op, t, p2);
    var e1 := Get(op, t, p1);
    var e2 := Get(op, t, p2);
    if IsOp(e1, op) {
      Extend(op, t, p1, L); Extend(op, t, p1, R);
      PathInShape(op, t, p1 + [R]);
      var a := Dups1(op, t, p1 + [L], p2);
      PathInShape(op, a.tree, p1 + [R]); PathInShape(op, a.tree, p2);
      Dups1Counts(op, t, p1 + [L], p2);
      Dups1Counts(op, a.tree, p1 + [R], p2);
    } else if IsOp(e2, op) {
      Extend(op, t, p2, L); Extend(op, t, p2, R);
      PathInShape(op, t, p2 + [R]);
      var a := Dups1(op, t, p1, p2 + [L]);
      PathInShape(op, a.tree, p1); PathInShape(op, a.tree, p2 + [R]);
      Dups1Counts(op, t, p1, p2 + [L]);
      Dups1Counts(op, a.tree, p1, p2 + [R]);
    } else if p1 != p2 {
      PutFacts(op, t, p1, e1);
      if e1.Bin? { Dups1Counts(e1.op, e1, [], []); }
      var n := if e1.Bin? then Dups1(e1.op, e1, [], []) else Rewrite(e1, 0);
      Dups1StepRedex(op, t, p1, p2, n.tree);
    }
  }

  predicate OperandAt(op: Op, e: Expr, p: Path) {
    Within(op, e, p) && !IsOp(Get(op, e, p), op)
  }

  /** A pass that counted nothing counted nothing on either side of its first pointer. */
  lemma Dups1QuietFirst(op: Op, t: Expr, p1: Path, p2: Path, d: Dir)
    requires IsOp(t, op) && Within(op, t, p1) && Within(op, t, p2) && IsOp(Get(op, t, p1), op)
    requires Dups1(op, t, p1, p2).count == 0
    ensures Within(op, t, p1 + [d]) && Get(op, t, p1 + [d]) == Child(Get(op, t, p1), d)
    ensures Dups1(op, t, p1 + [d], p2).count == 0
  {
    Extend(op, t, p1, L); Extend(op, t, p1, R);
    Dups1Counts(op, t, p1 + [L], p2);
  }

  lemma Dups1QuietSecond(op: Op, t: Expr, p1: Path, p2: Path, d: Dir)
    requires IsOp(t, op) && Within(op, t, p1) && Within(op, t, p2)
    requires !IsOp(Get(op, t, p1), op) && IsOp(Get(op, t, p2), op)
    requires Dups1(op, t, p1, p2).count == 0
    ensures Within(op, t, p2 + [d]) && Get(op, t, p2 + [d]) == Child(Get(op, t, p2), d)
    ensures Dups1(op, t, p1, p2 + [d]).count == 0
  {
    Extend(op, t, p2, L); Extend(op, t, p2, R);
    Dups1Counts(op, t, p1, p2 + [L]);
  }

  lemma Dups1QuietPair(op: Op, t: Expr, p1: Path, p2: Path)
    requires IsOp(t, op) && OperandAt(op, t, p1) && OperandAt(op, t, p2) && p1 != p2
    requires Dups1(op, t, p1, p2).count == 0
    ensures var e1 := Get(op, t, p1);
            Join(op, e1, Get(op, t, p2)).None? && (e1.Bin? ==> Dups1(e1.op, e1, [], []).count == 0)
  {
    var e1 := Get(op, t, p1);
    if e1.Bin? { Dups1Counts(e1.op, e1, [], []); }
  }

  /** A pass that counted nothing tried every pair of operands below its two pointers, in vain,
      and counted nothing inside the first of them either. */
  lemma {:induction false} Dups1Tries(op: Op, t: Expr, p1: Path, p2: Path, s1: Path, s2: Path)
    requires IsOp(t, op) && Within(op, t, p1) && Within(op, t, p2)
    requires OperandAt(op, Get(op, t, p1), s1) && OperandAt(op, Get(op, t, p2), s2)
    requires p1 + s1 != p2 + s2 && Dups1(op, t, p1, p2).count == 0
    ensures var e1 := Get(op, Get(op, t, p1), s1);
            Join(op, e1, Get(op, Get(op, t, p2), s2)).None? &&
            (e1.Bin? ==> Dups1(e1.op, e1, [], []).count == 0)
    decreases |s1| + |s2|
  {
    if s1 != [] {
      Dups1QuietFirst(op, t, p1, p2, s1[0]);
      assert p1 + [s1[0]] + s1[1..] == p1 + s1;
      Dups1Tries(op, t, p1 + [s1[0]], p2, s1[1..], s2);
    } else if s2 != [] {
      Dups1QuietSecond(op, t, p1, p2, s2[0]);
      assert p2 + [s2[0]] + s2[1..] == p2 + s2;
      Dups1Tries(op, t, p1, p2 + [s2[0]], s1, s2[1..]);
    } else {
      assert p1 + s1 == p1 && p2 + s2 == p2;
      Dups1QuietPair(op, t, p1, p2);
    }
  }

  // ----- second pass: contradictory operands -----

  /** All operands of the negated first expression occur among the operands of the second. */
  predicate Contradicts(op: Op, e1: Expr, e2: Expr) {
    ExtractEqOp(op, Transform(Not(e1)), e2).first == Sym(Unit(op))
  }

  /** A detected contradiction decides the operation exactly when the first expression is not m
      or the second decides it alone. */
  lemma ContradictsCalc(op: Op, e1: Expr, e2: Expr, v: Valuation)
    requires WellTyped(v) && Contradicts(op, e1, e2)
    ensures Apply(op, Calc(e1, v), Calc(e2, v)) == TriOf(Zero(op), v)
            <==> Calc(e1, v) != 1 || Calc(e2, v) == TriOf(Zero(op), v)
  {
    TransformCalc(Not(e1), v);
    ExtractEqOpCalc(op, Transform(Not(e1)), e2, v);
  }

  /** (FOO || BAR) && (!FOO && !BAR) is taken for a contradiction, yet is m when FOO is m. */
  lemma ContradictionCanBeM(foo: Symbol, bar: Symbol, v: Valuation)
    requires foo.Config? && foo.kind == Tristate && bar.Config? && bar.kind == Tristate && foo != bar
    requires v.tri(foo) == 1 && v.tri(bar) == 0
    ensures var e1 := Bin(Or, Sym(foo), Sym(bar));
            var e2 := Bin(And, Not(Sym(foo)), Not(Sym(bar)));
            Contradicts(And, e1, e2) && Calc(Bin(And, e1, e2), v) == 1
  {
    var e1 := Bin(Or, Sym(foo), Sym(bar));
    var e2 := Bin(And, Not(Sym(foo)), Not(Sym(bar)));
    var f, b := Not(Sym(foo)), Not(Sym(bar));
    assert Calc(e1, v) == 1 && Calc(f, v) == 1 && Calc(b, v) == 2;
    assert Transform(Sym(foo)) == Sym(foo) && Transform(Sym(bar)) == Sym(bar);
    assert Transform(e1) == e1 && Transform(f) == f && Transform(b) == b;
    assert Transform(Bin(And, f, b)) == Bin(And, f, b);
    assert Transform(Not(e1)) == e2;
    assert !ExprEq(Sym(foo), Sym(bar)) && !ExprEq(Sym(bar), Sym(foo));
    assert ExprEq(f, f) && ExprEq(b, b) && !ExprEq(f, b) && !ExprEq(b, f);
    var y := Sym(Yes);
    assert ExtractEq(And, None, f, f) == Extraction(Some(f), y, y);
    assert !ExprEq(y, b);
    assert ExtractEq(And, Some(f), y, b) == Extraction(Some(f), y, b);
    assert ExtractEq(And, None, f, e2) == Extraction(Some(f), y, Bin(And, y, b));
    assert !ExprEq(b, y);
    assert ExtractEq(And, Some(f), b, y) == Extraction(Some(f), b, y);
    assert ExtractEq(And, Some(f), b, b) == Extraction(Some(Bin(And, f, b)), y, y);
    assert ExtractEq(And, Some(f), b, Bin(And, y, b)) == Extraction(Some(Bin(And, f, b)), y, Bin(And, y, y));
  }

  function Dups2(op: Op, t: Expr, p1: Path, p2: Path): (r: Rewrite)
    requires IsOp(t, op) && Within(op, t, p1) && Within(op, t, p2)
    ensures ShapeOf(op, r.tree) == ShapeOf(op, t)
    ensures Size(r.tree) <= Size(t)
    decreases Size(t), ShapeSize(ShapeOf(op, Get(op, t, p1))) + ShapeSize(ShapeOf(op, Get(op, t, p2))), 1
  {
    PathInShape(op, t, p1);
    PathInShape(op, t, p2);
    var e1 := Get(op, t, p1);
    var e2 := Get(op, t, p2);
    if IsOp(e1, op) then
      Extend(op, t, p1, L); Extend(op, t, p1, R);
      PathInShape(op, t, p1 + [L]); PathInShape(op, t, p1 + [R]);
      var a := Dups2(op, t, p1 + [L], p2);
      PathInShape(op, a.tree, p1 + [R]); PathInShape(op, a.tree, p2);
      var b := Dups2(op, a.tree, p1 + [R], p2);
      Rewrite(b.tree, a.count + b.count)
    else
      var a := if IsOp(e2, op) then Dups2Below(op, t, p1, p2) else Rewrite(t, 0);
      if p1 == p2 then a
      else
        PathInShape(op, a.tree, p1); PathInShape(op, a.tree, p2);
        var b := Dups2Site(op, a.tree, p1, p2);
        Rewrite(b.tree, a.count + b.count)
  }

  /** The second pointer moves through its operation tree; the first stays at its operand. */
  function Dups2Below(op: Op, t: Expr, p1: Path, p2: Path): (r: Rewrite)
    requires IsOp(t, op) && Within(op, t, p1) && Within(op, t, p2)
    requires !IsOp(Get(op, t, p1), op) && IsOp(Get(op, t, p2), op)
    ensures ShapeOf(op, r.tree) == ShapeOf(op, t)
    ensures Size(r.tree) <= Size(t)
    decreases Size(t), ShapeSize(ShapeOf(op, Get(op, t, p1))) + ShapeSize(ShapeOf(op, Get(op, t, p2))), 0
  {
    PathInShape(op, t, p1);
    Extend(op, t, p2, L); Extend(op, t, p2, R);
    PathInShape(op, t, p2 + [L]); PathInShape(op, t, p2 + [R]);
    var a := Dups2(op, t, p1, p2 + [L]);
    PathInShape(op, a.tree, p1); PathInShape(op, a.tree, p2 + [R]);
    var b := Dups2(op, a.tree, p1, p2 + [R]);
    Rewrite(b.tree, a.count + b.count)
  }

  /** One operand against one operand or one whole operation tree, which may contain it. */
  function Dups2Site(op: Op, t: Expr, p1: Path, p2: Path): (r: Rewrite)
    requires IsOp(t, op) && Within(op, t, p1) && Within(op, t, p2)
    requires !IsOp(Get(op, t, p1), op)
    ensures ShapeOf(op, r.tree) == ShapeOf(op, t)
    ensures Size(r.tree) <= Size(t)
    decreases Size(t), 0
  {
    var e1 := Get(op, t, p1);
    if !e1.Bin? then Rewrite(t, 0)
    else
      PutFacts(op, t, p1, e1);
      var n := Dups2(e1.op, e1, [], []);
      PutFacts(op, t, p1, n.tree);
      PutFacts(op, t, p1, Sym(Zero(op)));
      var b := Put(op, t, p1, n.tree);
      PathInShape(op, t, p2); PathInShape(op, b, p2);
      if Contradicts(op, n.tree, Get(op, b, p2))
      then Rewrite(Put(op, t, p1, Sym(Zero(op))), n.count + 1)
      else Rewrite(b, n.count)
  }

  /** Where no operand symbol is m, replacing a contradicted operand keeps the tree's value. */
  lemma ContradictedOperand(op: Op, t: Expr, p1: Path, p2: Path, v: Valuation)
    requires Within(op, t, p1) && Within(op, t, p2) && WellTyped(v) && TwoValued(t, v)
    requires Contradicts(op, Get(op, t, p1), Get(op, t, p2))
    ensures Calc(Put(op, t, p1, Sym(Zero(op))), v) == Calc(t, v)
    ensures TwoValued(Put(op, t, p1, Sym(Zero(op))), v)
  {
    PutTwoValued(op, t, p1, Sym(Zero(op)), v);
    TwoValuedCalc(Get(op, t, p1), v);
    ContradictsCalc(op, Get(op, t, p1), Get(op, t, p2), v);
    SubtreeAbsorbed(op, t, p1, v);
    SubtreeAbsorbed(op, t, p2, v);
    PutCalc(op, t, p1, Sym(Zero(op)), v);
  }

  /** The second pass keeps the value of every valuation in which no operand symbol is m. */
  lemma {:induction false} Dups2Calc(op: Op, t: Expr, p1: Path, p2: Path, v: Valuation)
    requires IsOp(t, op) && Within(op, t, p1) && Within(op, t, p2) && WellTyped(v) && TwoValued(t, v)
    ensures Calc(Dups2(op, t, p1, p2).tree, v) == Calc(t, v)
    ensures TwoValued(Dups2(op, t, p1, p2).tree, v)
    decreases Size(t), ShapeSize(ShapeOf(op, Get(op, t, p1))) + ShapeSize(ShapeOf(op, Get(op, t, p2)))
  {
    PathInShape(op, t, p1);
    PathInShape(op, t, p2);
    var e1 := Get(op, t, p1);
    var e2 := Get(op, t, p2);
    if IsOp(e1, op) {
      Extend(op, t, p1, L); Extend(op, t, p1, R);
      PathInShape(op, t, p1 + [R]);
      var a := Dups2(op, t, p1 + [L], p2);
      PathInShape(op, a.tree, p1 + [R]); PathInShape(op, a.tree, p2);
      Dups2Calc(op, t, p1 + [L], p2, v);
      Dups2Calc(op, a.tree, p1 + [R], p2, v);
    } else {
      var a := Rewrite(t, 0);
      if IsOp(e2, op) {
        Extend(op, t, p2, L); Extend(op, t, p2, R);
        PathInShape(op, t, p2 + [R]);
        var b := Dups2(op, t, p1, p2 + [L]);
        PathInShape(op, b.tree, p1); PathInShape(op, b.tree, p2 + [R]);
        Dups2Calc(op, t, p1, p2 + [L], v);
        Dups2Calc(op, b.tree, p1, p2 + [R], v);
        a := Dups2Below(op, t, p1, p2);
      }
      PathInShape(op, a.tree, p1); PathInShape(op, a.tree, p2);
      var x := Get(op, a.tree, p1);
      if p1 != p2 && x.Bin? {
        PutFacts(op, a.tree, p1, x);
        PutTwoValued(op, a.tree, p1, x, v);
        Dups2Calc(x.op, x, [], [], v);
        Dups2SiteCalc(op, a.tree, p1, p2, v);
      }
    }
  }

  lemma Dups2SiteCalc(op: Op, t: Expr, p1: Path, p2: Path, v: Valuation)
    requires IsOp(t, op) && Within(op, t, p1) && Within(op, t, p2) && WellTyped(v) && TwoValued(t, v)
    requires !IsOp(Get(op, t, p1), op) && Get(op, t, p1).Bin?
    requires var x := Get(op, t, p1);
             var n := Dups2(x.op, x, [], []).tree;
             Calc(n, v) == Calc(x, v) && TwoValued(n, v)
    ensures Calc(Dups2Site(op, t, p1, p2).tree, v) == Calc(t, v)
    ensures TwoValued(Dups2Site(op, t, p1, p2).tree, v)
  {
    var x := Get(op, t, p1);
    var n := Dups2(x.op, x, [], []).tree;
    var b := Put(op, t, p1, n);
    SameOperandValue(op, t, p1, n, v);
    PutTwoValued(op, t, p1, n, v);
    PutFacts(op, t, p1, n);
    PathInShape(op, t, p2); PathInShape(op, b, p2);
    if Contradicts(op, n, Get(op, b, p2)) {
      ContradictedOperand(op, b, p1, p2, v);
      PutTwice(op, t, p1, n, Sym(Zero(op)));
    }
  }

  lemma {:induction false} PutTwice(op: Op, e: Expr, p: Path, x: Expr, y: Expr)
    requires Within(op, e, p)
    ensures Within(op, Put(op, e, p, x), p) && Put(op, Put(op, e, p, x), p, y) == Put(op, e, p, y)
    decreases p
  {
    if p != [] { PutTwice(op, Child(e, p[0]), p[1..], x, y); }
  }

  lemma Dups2SiteCounts(op: Op, t: Expr, p1: Path, p2: Path)
    requires IsOp(t, op) && Within(op, t, p1) && Within(op, t, p2)
    requires !IsOp(Get(op, t, p1), op) && Get(op, t, p1).Bin?
    requires var x := Get(op, t, p1);
             Counted(x, Dups2(x.op, x, [], []))
    ensures Counted(t, Dups2Site(op, t, p1, p2))
  {
    var x := Get(op, t, p1);
    var n := Dups2(x.op, x, [], []).tree;
    PutRedex(op, t, p1, n);
    PutRedex(op, t, p1, Sym(Zero(op)));
    PutFacts(op, t, p1, n);
    if HasRedex(n) { SubRedex(op, Put(op, t, p1, n), p1); }
  }

  lemma {:induction false} Dups2Counts(op: Op, t: Expr, p1: Path, p2: Path)
    requires IsOp(t, op) && Within(op, t, p1) && Within(op, t, p2)
    ensures Counted(t, Dups2(op, t, p1, p2))
    decreases Size(t), ShapeSize(ShapeOf(op, Get(op, t, p1))) + ShapeSize(ShapeOf(op, Get(op, t, p2))), 1
  {
    PathInShape(op, t, p1);
    PathInShape(op, t, p2);
    if IsOp(Get(op, t, p1), op) {
      Extend(op, t, p1, L); Extend(op, t, p1, R);
      PathInShape(op, t, p1 + [R]);
      var a := Dups2(op, t, p1 + [L], p2);
      PathInShape(op, a.tree, p1 + [R]); PathInShape(op, a.tree, p2);
      Dups2Counts(op, t, p1 + [L], p2);
      Dups2Counts(op, a.tree, p1 + [R], p2);
    } else {
      var a := Rewrite(t, 0);
      if IsOp(Get(op, t, p2), op) {
        Dups2BelowCounts(op, t, p1, p2);
        a := Dups2Below(op, t, p1, p2);
      }
      PathInShape(op, a.tree, p1); PathInShape(op, a.tree, p2);
      var x := Get(op, a.tree, p1);
      if p1 != p2 && x.Bin? {
        PutFacts(op, a.tree, p1, x);
        Dups2Counts(x.op, x, [], []);
        Dups2SiteCounts(op, a.tree, p1, p2);
      }
    }
  }

  lemma {:induction false} Dups2BelowCounts(op: Op, t: Expr, p1: Path, p2: Path)
    requires IsOp(t, op) && Within(op, t, p1) && Within(op, t, p2)
    requires !IsOp(Get(op, t, p1), op) && IsOp(Get(op, t, p2), op)
    ensures Counted(t, Dups2Below(op, t, p1, p2))
    decreases Size(t), ShapeSize(ShapeOf(op, Get(op, t, p1))) + ShapeSize(ShapeOf(op, Get(op, t, p2))), 0
  {
    PathInShape(op, t, p1);
    Extend(op, t, p2, L); Extend(op, t, p2, R);
    PathInShape(op, t, p2 + [R]);
    var a := Dups2(op, t, p1, p2 + [L]);
    PathInShape(op, a.tree, p1); PathInShape(op, a.tree, p2 + [R]);
    Dups2Counts(op, t, p1, p2 + [L]);
    Dups2Counts(op, a.tree, p1, p2 + [R]);
  }

  // ----- both passes to a fixpoint -----

  /** Operands are pairwise unjoinable, here and inside every operand. */
  ghost predicate Settled(e: Expr)
    decreases Size(e)
  {
    e.Bin? ==>
      (forall p, q :: OperandAt(e.op, e, p) && OperandAt(e.op, e, q) && p != q ==>
         Join(e.op, Get(e.op, e, p), Get(e.op, e, q)).None?) &&
      (forall p :: OperandAt(e.op, e, p) ==>
         (PutFacts(e.op, e, p, e); Size(Get(e.op, e, p)) < Size(e) && Settled(Get(e.op, e, p))))
  }

  /** Not the same expression; nor, where no constant stands under an operation, the same up to the order
      and grouping of operands. */
  ghost predicate Distinct(x: Expr, y: Expr) {
    x != y && (Plain(x) && Plain(y) ==> Canonical(x) != Canonical(y))
  }

  /** No two operand places hold the same expression, here and inside every operand. */
  ghost predicate NoRepeats(e: Expr)
    decreases Size(e)
  {
    e.Bin? ==>
      (forall p, q :: OperandAt(e.op, e, p) && OperandAt(e.op, e, q) && p != q ==>
         Distinct(Get(e.op, e, p), Get(e.op, e, q))) &&
      (forall p :: OperandAt(e.op, e, p) ==>
         (PutFacts(e.op, e, p, e); Size(Get(e.op, e, p)) < Size(e) && NoRepeats(Get(e.op, e, p))))
  }

  /** Equal operands could be joined, so none are left. */
  lemma UnjoinableDistinct(op: Op, x: Expr, y: Expr)
    requires Join(op, x, y).None?
    ensures Distinct(x, y)
  {
    Reflexive(x);
    if Plain(x) && Plain(y) { PlainExact(x, y); }
  }

  lemma {:induction false} SettledNoRepeats(e: Expr)
    requires Settled(e)
    ensures NoRepeats(e)
    decreases Size(e)
  {
    if e.Bin? {
      var op := e.op;
      forall p, q | OperandAt(op, e, p) && OperandAt(op, e, q) && p != q ensures Distinct(Get(op, e, p), Get(op, e, q)) {
        UnjoinableDistinct(op, Get(op, e, p), Get(op, e, q));
      }
      forall p | OperandAt(op, e, p) ensures Size(Get(op, e, p)) < Size(e) && NoRepeats(Get(op, e, p)) {
        SettledNoRepeats(Get(op, e, p));
      }
    }
  }

  /** Every operation tree has an operand other than a given one. */
  lemma {:induction false} AnotherOperand(op: Op, e: Expr, p: Path) returns (q: Path)
    requires IsOp(e, op) && OperandAt(op, e, p)
    ensures OperandAt(op, e, q) && q != p
  {
    var d := if p[0] == L then R else L;
    var c := Child(e, d);
    if IsOp(c, op) {
      var r := FirstOperand(op, c);
      q := [d] + r;
      assert q[1..] == r;
    } else {
      q := [d];
    }
  }

  lemma {:induction false} FirstOperand(op: Op, e: Expr) returns (q: Path)
    ensures OperandAt(op, e, q)
    decreases e
  {
    if IsOp(e, op) {
      var r := FirstOperand(op, e.left);
      q := [L] + r;
      assert q[1..] == r;
    } else {
      q := [];
    }
  }

  lemma {:induction false} UncountedIsSettled(e: Expr)
    requires e.Bin? ==> Dups1(e.op, e, [], []).count == 0
    ensures Settled(e)
    decreases Size(e)
  {
    if e.Bin? {
      var op := e.op;
      forall p, q | OperandAt(op, e, p) && OperandAt(op, e, q) && p != q
        ensures Join(op, Get(op, e, p), Get(op, e, q)).None?
      {
        assert [] + p == p && [] + q == q;
        Dups1Tries(op, e, [], [], p, q);
      }
      forall p | OperandAt(op, e, p)
        ensures Size(Get(op, e, p)) < Size(e) && Settled(Get(op, e, p))
      {
        var q := AnotherOperand(op, e, p);
        PutFacts(op, e, p, e);
        assert [] + p == p && [] + q == q;
        Dups1Tries(op, e, [], [], p, q);
        UncountedIsSettled(Get(op, e, p));
      }
    }
  }

  ghost predicate SameWhereTwoValued(e: Expr, r: Expr) {
    forall v :: WellTyped(v) && TwoValued(e, v) ==> TwoValued(r, v) && Calc(r, v) == Calc(e, v)
  }

  /** One round of both passes; nothing but an operation is gone through. */
  function Round(e: Expr): (r: Rewrite)
    ensures r.count == 0 ==> r.tree == e
    ensures r.count > 0 ==> Size(EliminateYn(r.tree)) < Size(e)
  {
    if !e.Bin? then Rewrite(e, 0)
    else
      var a := Dups1(e.op, e, [], []);
      var b := Dups2(e.op, a.tree, [], []);
      Dups1Counts(e.op, e, [], []);
      Dups2Counts(e.op, a.tree, [], []);
      EliminateYnShrinks(b.tree);
      Rewrite(b.tree, a.count + b.count)
  }

  /** Rounds until one changes nothing. */
  function Deduped(e: Expr): Expr
    decreases Size(e)
  {
    var r := Round(e);
    if r.count == 0 then e else Deduped(EliminateYn(r.tree))
  }

  lemma RoundCalc(e: Expr, v: Valuation)
    requires WellTyped(v) && TwoValued(e, v)
    ensures var r := EliminateYn(Round(e).tree); TwoValued(r, v) && Calc(r, v) == Calc(e, v)
  {
    if e.Bin? {
      Dups1Calc(e.op, e, [], [], v);
      Dups2Calc(e.op, Dups1(e.op, e, [], []).tree, [], [], v);
    }
    EliminateYnCalc(Round(e).tree, v);
  }

  lemma RoundSettles(e: Expr)
    requires Round(e).count == 0
    ensures Settled(e)
  {
    UncountedIsSettled(e);
  }

  method EliminateDups(e: Expr) returns (r: Expr)
    ensures r == Deduped(e)
    ensures SameWhereTwoValued(e, r)
    ensures Settled(r) && NoRepeats(r)
    ensures Size(r) <= Size(e)
  {
    r := e;
    while true
      invariant Deduped(r) == Deduped(e)
      invariant SameWhereTwoValued(e, r)
      invariant Size(r) <= Size(e)
      decreases Size(r)
    {
      var transCount := 0;
      ghost var before := r;
      if r.Bin? {
        var a := Dups1(r.op, r, [], []);
        var b := Dups2(r.op, a.tree, [], []);
        r, transCount := b.tree, a.count + b.count;
      }
      assert Round(before) == Rewrite(r, transCount);
      if transCount == 0 {
        RoundSettles(r);
        SettledNoRepeats(r);
        return;
      }
      forall v | WellTyped(v) && TwoValued(before, v)
        ensures TwoValued(EliminateYn(r), v) && Calc(EliminateYn(r), v) == Calc(before, v)
      {
        RoundCalc(before, v);
      }
      r := EliminateYn(r);
    }
  }

  /** The two operand places of a pair. */
  lemma PairPaths(op: Op, x: Expr, y: Expr)
    ensures var t, l, r: Path := Bin(op, x, y), [L], [R];
            Within(op, t, l) && Within(op, t, r) && Get(op, t, l) == x && Get(op, t, r) == y &&
            [] + l == l && [] + r == r && Put(op, t, l, x) == t && Put(op, t, r, y) == t
  {
    var l, r: Path := [L], [R];
    assert l[1..] == [] && r[1..] == [];
  }

  lemma PairDups1(op: Op, x: Expr, y: Expr)
    requires !x.Bin? && !y.Bin? && Join(op, x, y).None? && Join(op, y, x).None?
    ensures Dups1(op, Bin(op, x, y), [], []) == Rewrite(Bin(op, x, y), 0)
  {
    PairPaths(op, x, y);
    var t, l, r: Path := Bin(op, x, y), [L], [R];
    assert Dups1(op, t, l, r) == Rewrite(t, 0) && Dups1(op, t, r, l) == Rewrite(t, 0);
    assert Dups1(op, t, l, l) == Rewrite(t, 0) && Dups1(op, t, r, r) == Rewrite(t, 0);
    assert Dups1(op, t, l, []) == Rewrite(t, 0) && Dups1(op, t, r, []) == Rewrite(t, 0);
  }

  lemma PairDups2(op: Op, x: Expr, y: Expr)
    requires !x.Bin? && !y.Bin?
    ensures Dups2(op, Bin(op, x, y), [], []) == Rewrite(Bin(op, x, y), 0)
  {
    PairPaths(op, x, y);
    var t, l, r: Path := Bin(op, x, y), [L], [R];
    assert Dups2(op, t, l, r) == Rewrite(t, 0) && Dups2(op, t, r, l) == Rewrite(t, 0);
    assert Dups2(op, t, l, l) == Rewrite(t, 0) && Dups2(op, t, r, r) == Rewrite(t, 0);
    assert Dups2Below(op, t, l, []) == Rewrite(t, 0) && Dups2Below(op, t, r, []) == Rewrite(t, 0);
    assert Dups2(op, t, l, []) == Rewrite(t, 0) && Dups2(op, t, r, []) == Rewrite(t, 0);
  }

  /** Two simple operands that cannot be joined stay as they are. */
  lemma PairDeduped(op: Op, x: Expr, y: Expr)
    requires !x.Bin? && !y.Bin? && Join(op, x, y).None? && Join(op, y, x).None?
    ensures Deduped(Bin(op, x, y)) == Bin(op, x, y)
  {
    PairDups1(op, x, y);
    PairDups2(op, x, y);
  }
}
