/** Dependency expressions of the configuration front end: their three-valued meaning,
    constant elimination, and the mutually recursive equality test. */
module KconfigExpr {
  import opened Options

  // ----- tristate values: n = 0, m = 1, y = 2 -----

  type Tri = x: int | 0 <= x <= 2

  function Min(a: Tri, b: Tri): Tri { if a < b then a else b }
  function Max(a: Tri, b: Tri): Tri { if a > b then a else b }

  // ----- symbols -----

  datatype Kind = Unknown | Boolean | Tristate | Number | Text

  /** A quoted constant is a symbol of its own; looking up a one-letter y, m or n
      yields the three built-in constants instead. */
  type QuotedText = s: string | s != "y" && s != "m" && s != "n" witness ""

  datatype Symbol = Yes | Mod | No | Quoted(text: QuotedText) | Config(id: nat, kind: Kind)

  predicate IsConst(s: Symbol) { !s.Config? }

  /** The current value of every configurable symbol. */
  datatype Valuation = Valuation(tri: Symbol -> Tri, text: Symbol -> string)

  /** A boolean symbol is never m. */
  ghost predicate WellTyped(v: Valuation) {
    forall s: Symbol :: s.Config? && s.kind == Boolean ==> v.tri(s) != 1
  }

  function TriOf(s: Symbol, v: Valuation): Tri {
    match s
    case Yes => 2
    case Mod => 1
    case No => 0
    case Quoted(_) => 0
    case Config(_, _) => v.tri(s)
  }

  function Letter(t: Tri): string {
    if t == 0 then "n" else if t == 1 then "m" else "y"
  }

  function TextOf(s: Symbol, v: Valuation): string {
    match s
    case Yes => "y"
    case Mod => "m"
    case No => "n"
    case Quoted(t) => t
    case Config(_, k) => if k == Boolean || k == Tristate then Letter(v.tri(s)) else v.text(s)
  }

  // ----- expressions -----

  datatype Op = And | Or

  datatype Expr =
    | Sym(sym: Symbol)
    | Not(arg: Expr)
    | Bin(op: Op, left: Expr, right: Expr)
    | Compare(equal: bool, lhs: Symbol, rhs: Symbol)

  function Apply(op: Op, a: Tri, b: Tri): Tri {
    if op == And then Min(a, b) else Max(a, b)
  }

  /** The symbol that leaves an operation unchanged, and the one that decides it. */
  function Unit(op: Op): Symbol { if op == And then Yes else No }
  function Zero(op: Op): Symbol { if op == And then No else Yes }

  predicate IsOp(e: Expr, op: Op) { e.Bin? && e.op == op }

  lemma ApplyRegroups(op: Op, a: Tri, x: Tri, b: Tri, y: Tri)
    ensures Apply(op, Apply(op, a, x), Apply(op, b, y)) == Apply(op, Apply(op, a, b), Apply(op, x, y))
    ensures Apply(op, a, Apply(op, b, y)) == Apply(op, Apply(op, a, b), y)
  {}

  function Calc(e: Expr, v: Valuation): Tri {
    match e
    case Sym(s) => TriOf(s, v)
    case Not(x) => 2 - Calc(x, v)
    case Bin(op, l, r) => Apply(op, Calc(l, v), Calc(r, v))
    case Compare(eq, a, b) => if (TextOf(a, v) == TextOf(b, v)) == eq then 2 else 0
  }

  /** An absent expression stands for y. */
  function CalcOption(e: Option<Expr>, v: Valuation): Tri {
    if e.None? then 2 else Calc(e.value, v)
  }

  function Size(e: Expr): (n: nat)
    ensures n > 0
  {
    match e
    case Sym(_) => 1
    case Not(x) => 1 + Size(x)
    case Bin(_, l, r) => 1 + Size(l) + Size(r)
    case Compare(_, _, _) => 1
  }

  /** No symbol standing as an operand has the value m (compared symbols may). */
  predicate TwoValued(e: Expr, v: Valuation) {
    match e
    case Sym(s) => TriOf(s, v) != 1
    case Not(x) => TwoValued(x, v)
    case Bin(_, l, r) => TwoValued(l, v) && TwoValued(r, v)
    case Compare(_, _, _) => true
  }

  lemma {:induction false} TwoValuedCalc(e: Expr, v: Valuation)
    requires TwoValued(e, v)
    ensures Calc(e, v) != 1
  {
    match e
    case Sym(_) =>
    case Not(x) => TwoValuedCalc(x, v);
    case Bin(_, l, r) => TwoValuedCalc(l, v); TwoValuedCalc(r, v);
    case Compare(_, _, _) =>
  }

  // ----- constant elimination -----

  predicate IsYN(e: Expr) { e == Sym(Yes) || e == Sym(No) }

  /** Constants directly under an operation; negations are not entered. */
  predicate HasRedex(e: Expr) {
    e.Bin? && (IsYN(e.left) || IsYN(e.right) || HasRedex(e.left) || HasRedex(e.right))
  }

  function EliminateYn(e: Expr): Expr {
    if !e.Bin? then e
    else
      var l := EliminateYn(e.left);
      var r := EliminateYn(e.right);
      if l == Sym(Zero(e.op)) then l
      else if l == Sym(Unit(e.op)) then r
      else if r == Sym(Zero(e.op)) then r
      else if r == Sym(Unit(e.op)) then l
      else Bin(e.op, l, r)
  }

  lemma {:induction false} EliminateYnCalc(e: Expr, v: Valuation)
    ensures Calc(EliminateYn(e), v) == Calc(e, v)
    ensures TwoValued(e, v) ==> TwoValued(EliminateYn(e), v)
  {
    if e.Bin? {
      EliminateYnCalc(e.left, v);
      EliminateYnCalc(e.right, v);
    }
  }

  /** Every constant under an operation disappears, and the expression shrinks exactly
      when there was one. */
  lemma {:induction false} EliminateYnShrinks(e: Expr)
    ensures !HasRedex(EliminateYn(e))
    ensures HasRedex(e) ==> Size(EliminateYn(e)) < Size(e)
    ensures !HasRedex(e) ==> EliminateYn(e) == e
  {
    if e.Bin? {
      EliminateYnShrinks(e.left);
      EliminateYnShrinks(e.right);
    }
  }

  // ----- equality modulo order and repetition -----

  function Rank(op: Op, e1: Expr): nat { if IsOp(e1, op) then 0 else 3 }

  /** Replaces matching operands of two operation trees by the operation's unit. */
  function EliminateOperands(op: Op, e1: Expr, e2: Expr): (r: (Expr, Expr))
    ensures Size(r.0) <= Size(e1) && Size(r.1) <= Size(e2)
    ensures IsOp(e1, op) ==> IsOp(r.0, op)
    ensures IsOp(e2, op) ==> IsOp(r.1, op)
    decreases Size(e1) + Size(e2), Rank(op, e1)
  {
    if IsOp(e1, op) then
      var a := EliminateOperands(op, e1.left, e2);
      var b := EliminateOperands(op, e1.right, a.1);
      (Bin(op, a.0, b.0), b.1)
    else if IsOp(e2, op) then
      var a := EliminateOperands(op, e1, e2.left);
      var b := EliminateOperands(op, a.0, e2.right);
      (b.0, Bin(op, a.1, b.1))
    else if IsYN(e1) && e1 == e2 then (e1, e2)
    else if !ExprEq(e1, e2) then (e1, e2)
    else (Sym(Unit(op)), Sym(Unit(op)))
  }

  function EliminateEq(e1: Expr, e2: Expr): (r: (Expr, Expr))
    decreases Size(e1) + Size(e2), if e1.Bin? && IsOp(e2, e1.op) then 1 else 4
  {
    var a := if e1.Bin? then EliminateOperands(e1.op, e1, e2) else (e1, e2);
    var b := if a.1.Bin? && !IsOp(a.0, a.1.op) then EliminateOperands(a.1.op, a.0, a.1) else a;
    (EliminateYn(b.0), EliminateYn(b.1))
  }

  predicate ExprEq(e1: Expr, e2: Expr)
    decreases Size(e1) + Size(e2), 2
  {
    match (e1, e2)
    case (Compare(q1, a1, b1), Compare(q2, a2, b2)) => q1 == q2 && a1 == a2 && b1 == b2
    case (Sym(s1), Sym(s2)) => s1 == s2
    case (Not(x1), Not(x2)) => ExprEq(x1, x2)
    case (Bin(op1, _, _), Bin(op2, _, _)) =>
      op1 == op2 &&
      var r := EliminateEq(e1, e2);
      r.0.Sym? && r.1.Sym? && r.0.sym == r.1.sym
    case _ => false
  }

  ghost predicate IsCommon(op: Op, c: Tri, e1: Expr, e2: Expr, r: (Expr, Expr), v: Valuation) {
    Calc(e1, v) == Apply(op, c, Calc(r.0, v)) && Calc(e2, v) == Apply(op, c, Calc(r.1, v))
  }

  lemma CommonLeft(op: Op, c1: Tri, c2: Tri, e1: Expr, e2: Expr, a: (Expr, Expr), b: (Expr, Expr), v: Valuation)
    requires IsOp(e1, op) && IsCommon(op, c1, e1.left, e2, a, v) && IsCommon(op, c2, e1.right, a.1, b, v)
    ensures IsCommon(op, Apply(op, c1, c2), e1, e2, (Bin(op, a.0, b.0), b.1), v)
  {
    ApplyRegroups(op, c1, Calc(a.0, v), c2, Calc(b.0, v));
  }

  lemma CommonRight(op: Op, c1: Tri, c2: Tri, e1: Expr, e2: Expr, a: (Expr, Expr), b: (Expr, Expr), v: Valuation)
    requires IsOp(e2, op) && IsCommon(op, c1, e1, e2.left, a, v) && IsCommon(op, c2, a.0, e2.right, b, v)
    ensures IsCommon(op, Apply(op, c1, c2), e1, e2, (b.0, Bin(op, a.1, b.1)), v)
  {
    ApplyRegroups(op, c1, Calc(a.1, v), c2, Calc(b.1, v));
  }

  /** What operand elimination takes out of the two sides is one common operand value. */
  lemma {:induction false} EliminateOperandsCommon(op: Op, e1: Expr, e2: Expr, v: Valuation) returns (c: Tri)
    ensures IsCommon(op, c, e1, e2, EliminateOperands(op, e1, e2), v)
    decreases Size(e1) + Size(e2), Rank(op, e1)
  {
    c := TriOf(Unit(op), v);
    if IsOp(e1, op) {
      var a := EliminateOperands(op, e1.left, e2);
      var b := EliminateOperands(op, e1.right, a.1);
      var c1 := EliminateOperandsCommon(op, e1.left, e2, v);
      var c2 := EliminateOperandsCommon(op, e1.right, a.1, v);
      c := Apply(op, c1, c2);
      CommonLeft(op, c1, c2, e1, e2, a, b, v);
    } else if IsOp(e2, op) {
      var a := EliminateOperands(op, e1, e2.left);
      var b := EliminateOperands(op, a.0, e2.right);
      var c1 := EliminateOperandsCommon(op, e1, e2.left, v);
      var c2 := EliminateOperandsCommon(op, a.0, e2.right, v);
      c := Apply(op, c1, c2);
      CommonRight(op, c1, c2, e1, e2, a, b, v);
    } else if !(IsYN(e1) && e1 == e2) && ExprEq(e1, e2) {
      ExprEqSound(e1, e2, v);
      c := Calc(e1, v);
    }
  }

  ghost predicate ReflectsOrder(e1: Expr, e2: Expr, r: (Expr, Expr), v: Valuation) {
    (Calc(r.0, v) <= Calc(r.1, v) ==> Calc(e1, v) <= Calc(e2, v)) &&
    (Calc(r.1, v) <= Calc(r.0, v) ==> Calc(e2, v) <= Calc(e1, v))
  }

  lemma CommonReflectsOrder(op: Op, c: Tri, e1: Expr, e2: Expr, r: (Expr, Expr), v: Valuation)
    requires IsCommon(op, c, e1, e2, r, v)
    ensures ReflectsOrder(e1, e2, r, v)
  {}

  /** If the reduced sides are ordered then so were the original ones, in both directions. */
  lemma {:induction false} EliminateEqReflectsOrder(e1: Expr, e2: Expr, v: Valuation)
    ensures ReflectsOrder(e1, e2, EliminateEq(e1, e2), v)
    decreases Size(e1) + Size(e2), if e1.Bin? && IsOp(e2, e1.op) then 1 else 4
  {
    var a := if e1.Bin? then EliminateOperands(e1.op, e1, e2) else (e1, e2);
    if e1.Bin? {
      var c := EliminateOperandsCommon(e1.op, e1, e2, v);
      CommonReflectsOrder(e1.op, c, e1, e2, a, v);
    }
    var b := if a.1.Bin? && !IsOp(a.0, a.1.op) then EliminateOperands(a.1.op, a.0, a.1) else a;
    if a.1.Bin? && !IsOp(a.0, a.1.op) {
      var c := EliminateOperandsCommon(a.1.op, a.0, a.1, v);
      CommonReflectsOrder(a.1.op, c, a.0, a.1, b, v);
    }
    EliminateYnCalc(b.0, v);
    EliminateYnCalc(b.1, v);
  }

  /** Expressions the equality test accepts have the same value under every valuation. */
  lemma {:induction false} ExprEqSound(e1: Expr, e2: Expr, v: Valuation)
    requires ExprEq(e1, e2)
    ensures Calc(e1, v) == Calc(e2, v)
    decreases Size(e1) + Size(e2), 2
  {
    match (e1, e2)
    case (Compare(q1, a1, b1), Compare(q2, a2, b2)) =>
    case (Sym(s1), Sym(s2)) =>
    case (Not(x1), Not(x2)) => ExprEqSound(x1, x2, v);
    case (Bin(op1, _, _), Bin(op2, _, _)) => EliminateEqReflectsOrder(e1, e2, v);
  }

  /** When the second side reduces to y, the first implies it under every valuation. */
  lemma {:induction false} EliminateEqImplies(e1: Expr, e2: Expr, v: Valuation)
    requires EliminateEq(e1, e2).1 == Sym(Yes)
    ensures Calc(e1, v) <= Calc(e2, v)
  {
    EliminateEqReflectsOrder(e1, e2, v);
  }
}
