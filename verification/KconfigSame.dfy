/** What the equality test accepts, seen on the operands of an operation from left to right: each
    operand of the first side is matched with the first equal operand left on the second, and what is
    left unmatched on the two sides is compared after constant elimination. */
module KconfigSame {
  import opened KconfigExpr

  // ----- the test on operand lists -----

  function Flat(op: Op, e: Expr): (s: seq<Expr>)
    ensures |s| > 0 && forall i :: 0 <= i < |s| ==> !IsOp(s[i], op)
  {
    if IsOp(e, op) then Flat(op, e.left) + Flat(op, e.right) else [e]
  }

  function Pair(op: Op, x: Expr, y: Expr): (Expr, Expr) {
    if ExprEq(x, y) && !IsYN(x) then (Sym(Unit(op)), Sym(Unit(op))) else (x, y)
  }

  function Meet(op: Op, x: Expr, s: seq<Expr>): (r: (Expr, seq<Expr>))
    ensures |r.1| == |s|
    decreases s
  {
    if s == [] then (x, []) else
      var p := Pair(op, x, s[0]);
      var r := Meet(op, p.0, s[1..]);
      (r.0, [p.1] + r.1)
  }

  function MeetAll(op: Op, a: seq<Expr>, b: seq<Expr>): (r: (seq<Expr>, seq<Expr>))
    ensures |r.0| == |a| && |r.1| == |b|
    decreases a
  {
    if a == [] then ([], b) else
      var p := Meet(op, a[0], b);
      var r := MeetAll(op, a[1..], p.1);
      ([p.0] + r.0, r.1)
  }

  lemma {:induction false} MeetConcat(op: Op, x: Expr, s: seq<Expr>, t: seq<Expr>)
    ensures var p := Meet(op, x, s);
            var q := Meet(op, p.0, t);
            Meet(op, x, s + t).0 == q.0 && Meet(op, x, s + t).1 == p.1 + q.1
    decreases s
  {
    if s == [] {
      assert s + t == t;
    } else {
      assert (s + t)[1..] == s[1..] + t && (s + t)[0] == s[0];
      MeetConcat(op, Pair(op, x, s[0]).0, s[1..], t);
    }
  }

  lemma MeetOne(op: Op, x: Expr, y: Expr)
    ensures Meet(op, x, [y]).0 == Pair(op, x, y).0 && Meet(op, x, [y]).1 == [Pair(op, x, y).1]
  {
    assert [y][1..] == [];
  }

  lemma {:induction false} MeetAllConcat(op: Op, a: seq<Expr>, a': seq<Expr>, b: seq<Expr>)
    ensures var p := MeetAll(op, a, b);
            var q := MeetAll(op, a', p.1);
            MeetAll(op, a + a', b).0 == p.0 + q.0 && MeetAll(op, a + a', b).1 == q.1
    decreases a
  {
    if a == [] {
      assert a + a' == a';
    } else {
      assert (a + a')[1..] == a[1..] + a' && (a + a')[0] == a[0];
      MeetAllConcat(op, a[1..], a', Meet(op, a[0], b).1);
    }
  }

  lemma {:induction false} FlatMeet(op: Op, x: Expr, e: Expr)
    requires !IsOp(x, op)
    ensures var r := EliminateOperands(op, x, e);
            var m := Meet(op, x, Flat(op, e));
            !IsOp(r.0, op) && m.0 == r.0 && m.1 == Flat(op, r.1)
    decreases e
  {
    if IsOp(e, op) {
      FlatMeet(op, x, e.left);
      FlatMeet(op, EliminateOperands(op, x, e.left).0, e.right);
      MeetConcat(op, x, Flat(op, e.left), Flat(op, e.right));
    } else {
      MeetOne(op, x, e);
    }
  }

  lemma {:induction false} FlatMeetAll(op: Op, e1: Expr, e2: Expr)
    ensures var r := EliminateOperands(op, e1, e2);
            var m := MeetAll(op, Flat(op, e1), Flat(op, e2));
            m.0 == Flat(op, r.0) && m.1 == Flat(op, r.1)
  {
    if IsOp(e1, op) {
      var a := EliminateOperands(op, e1.left, e2);
      FlatMeetAll(op, e1.left, e2);
      FlatMeetAll(op, e1.right, a.1);
      MeetAllConcat(op, Flat(op, e1.left), Flat(op, e1.right), Flat(op, e2));
    } else {
      FlatMeet(op, e1, e2);
      assert [e1][1..] == [];
    }
  }

  // ----- what constant elimination leaves of a list of operands -----

  datatype Rest = Deciding | Nothing | Single(sym: Symbol) | Several

  function Weigh(op: Op, e: Expr): Rest {
    if e == Sym(Zero(op)) then Deciding
    else if e == Sym(Unit(op)) then Nothing
    else if e.Sym? then Single(e.sym)
    else Several
  }

  function Plus(a: Rest, b: Rest): Rest {
    if a.Deciding? || b.Deciding? then Deciding
    else if a.Nothing? then b
    else if b.Nothing? then a
    else Several
  }

  function Left(op: Op, s: seq<Expr>): Rest {
    if s == [] then Nothing else Plus(Weigh(op, EliminateYn(s[0])), Left(op, s[1..]))
  }

  lemma {:induction false} LeftConcat(op: Op, s: seq<Expr>, t: seq<Expr>)
    ensures Left(op, s + t) == Plus(Left(op, s), Left(op, t))
  {
    if s == [] {
      assert s + t == t;
    } else {
      assert (s + t)[1..] == s[1..] + t;
      LeftConcat(op, s[1..], t);
    }
  }

  lemma {:induction false} LeftOfTree(op: Op, e: Expr)
    ensures Weigh(op, EliminateYn(e)) == Left(op, Flat(op, e))
  {
    if IsOp(e, op) {
      LeftOfTree(op, e.left);
      LeftOfTree(op, e.right);
      LeftConcat(op, Flat(op, e.left), Flat(op, e.right));
    }
  }

  ghost predicate Accepted(op: Op, a: seq<Expr>, b: seq<Expr>) {
    var m := MeetAll(op, a, b);
    Left(op, m.0) == Left(op, m.1) != Several
  }

  lemma EqByReduction(op: Op, e1: Expr, e2: Expr)
    requires IsOp(e1, op) && IsOp(e2, op)
    ensures var r := EliminateOperands(op, e1, e2);
            ExprEq(e1, e2) <==> EliminateYn(r.0).Sym? && EliminateYn(r.0) == EliminateYn(r.1)
  {
    var r := EliminateOperands(op, e1, e2);
    assert EliminateEq(e1, e2) == (EliminateYn(r.0), EliminateYn(r.1));
  }

  lemma WeighSame(op: Op, a: Expr, b: Expr)
    ensures Weigh(op, a) == Weigh(op, b) != Several <==> a.Sym? && a == b
  {}

  lemma EqOfTrees(op: Op, e1: Expr, e2: Expr)
    requires IsOp(e1, op) && IsOp(e2, op)
    ensures ExprEq(e1, e2) <==> Accepted(op, Flat(op, e1), Flat(op, e2))
  {
    var r := EliminateOperands(op, e1, e2);
    EqByReduction(op, e1, e2);
    FlatMeetAll(op, e1, e2);
    LeftOfTree(op, r.0);
    LeftOfTree(op, r.1);
    WeighSame(op, EliminateYn(r.0), EliminateYn(r.1));
  }

  lemma {:induction false} FlatSmaller(op: Op, e: Expr)
    requires IsOp(e, op)
    ensures forall x :: x in Flat(op, e) ==> Size(x) < Size(e)
  {
    if IsOp(e.left, op) { FlatSmaller(op, e.left); }
    if IsOp(e.right, op) { FlatSmaller(op, e.right); }
  }

  // ----- grouping never matters -----

  /** What is left of an operand that has been matched with itself. */
  function Wiped(op: Op, s: seq<Expr>): (r: seq<Expr>)
    ensures |r| == |s|
  {
    seq(|s|, i requires 0 <= i < |s| => if IsYN(s[i]) then s[i] else Sym(Unit(op)))
  }

  ghost predicate Constants(s: seq<Expr>) { forall i :: 0 <= i < |s| ==> IsYN(s[i]) }

  lemma {:induction false} ConstantPasses(op: Op, c: Expr, s: seq<Expr>)
    requires IsYN(c)
    ensures Meet(op, c, s).0 == c && Meet(op, c, s).1 == s
  {
    if s != [] { ConstantPasses(op, c, s[1..]); }
  }

  lemma {:induction false} ConstantsPassed(op: Op, x: Expr, s: seq<Expr>)
    requires Constants(s)
    ensures Meet(op, x, s).0 == x && Meet(op, x, s).1 == s
  {
    if s != [] {
      assert IsYN(s[0]);
      ConstantsPassed(op, x, s[1..]);
    }
  }

  /** An operand that has only constants before its own copy is matched with that copy. */
  lemma MeetsItself(op: Op, x: Expr, w: seq<Expr>, t: seq<Expr>)
    requires Constants(w) && ExprEq(x, x)
    ensures var m := Meet(op, x, w + [x] + t);
            m.0 == Wiped(op, [x])[0] && m.1 == w + Wiped(op, [x]) + t
  {
    ConstantsPassed(op, x, w);
    MeetConcat(op, x, w, [x]);
    MeetOne(op, x, x);
    MeetConcat(op, x, w + [x], t);
    ConstantPasses(op, Wiped(op, [x])[0], t);
    assert Wiped(op, [x]) == [Pair(op, x, x).1];
  }

  /** So equal operands in the same order meet one by one. */
  lemma {:induction false} MeetInOrder(op: Op, s: seq<Expr>, w: seq<Expr>, t: seq<Expr>)
    requires Constants(w) && forall x :: x in s ==> ExprEq(x, x)
    ensures var m := MeetAll(op, s, w + s + t);
            m.0 == Wiped(op, s) && m.1 == w + Wiped(op, s) + t
    decreases |s|
  {
    if s == [] {
      assert w + s + t == w + Wiped(op, s) + t;
    } else {
      var h, r := [s[0]], s[1..];
      MeetsItself(op, s[0], w, r + t);
      assert w + s + t == w + h + (r + t);
      var w' := w + Wiped(op, h);
      MeetInOrder(op, r, w', t);
      assert w + Wiped(op, h) + (r + t) == w' + r + t;
      assert Wiped(op, s) == Wiped(op, h) + Wiped(op, r);
      assert w' + Wiped(op, r) + t == w + Wiped(op, s) + t;
    }
  }

  lemma {:induction false} LeftOfConstants(op: Op, s: seq<Expr>)
    requires Constants(s)
    ensures Left(op, s) == if Sym(Zero(op)) in s then Deciding else Nothing
  {
    if s != [] {
      assert IsYN(s[0]);
      LeftOfConstants(op, s[1..]);
    }
  }

  /** However the operands of an operation are grouped, the two expressions are found equal. */
  lemma {:induction false} Regrouped(op: Op, e1: Expr, e2: Expr)
    requires IsOp(e1, op) && IsOp(e2, op) && Flat(op, e1) == Flat(op, e2)
    ensures ExprEq(e1, e2)
    decreases Size(e1), 0
  {
    var s := Flat(op, e1);
    FlatSmaller(op, e1);
    forall x | x in s ensures ExprEq(x, x) { Reflexive(x); }
    MeetInOrder(op, s, [], []);
    assert [] + s + [] == s && [] + Wiped(op, s) + [] == Wiped(op, s);
    LeftOfConstants(op, Wiped(op, s));
    EqOfTrees(op, e1, e2);
  }

  /** Every expression is found equal to itself. */
  lemma {:induction false} Reflexive(e: Expr)
    ensures ExprEq(e, e)
    decreases Size(e), 1
  {
    match e
    case Sym(_) =>
    case Compare(_, _, _) =>
    case Not(x) => Reflexive(x);
    case Bin(op, _, _) => Regrouped(op, e, e);
  }
}
