/** Joining two operands of one operation into a single simpler operand. */
module KconfigJoin {
  import opened Options
  import opened KconfigExpr
  import opened KconfigTransform

  /** The symbol an operand speaks about; only the first operand may be a negated comparison. */
  function Subject(e: Expr, first: bool): Option<Symbol> {
    match e
    case Sym(s) => Some(s)
    case Compare(_, a, _) => Some(a)
    case Not(x) =>
      if x.Sym? then Some(x.sym)
      else if x.Compare? && first then Some(x.lhs)
      else None
    case Bin(_, _, _) => None
  }

  predicate IsEq(e: Expr, s: Symbol) { e.Compare? && e.equal && e.rhs == s }
  predicate IsNe(e: Expr, s: Symbol) { e.Compare? && !e.equal && e.rhs == s }

  function JoinOr(e1: Expr, e2: Expr): Option<Expr> {
    if ExprEq(e1, e2) then Some(e1)
    else
      var s1 := Subject(e1, true);
      var s2 := Subject(e2, false);
      if s1.None? || s2.None? || s1 != s2 || !s1.value.Config? then None
      else
        var a := s1.value;
        if a.kind == Tristate then
          if ((IsEq(e1, Yes) && IsEq(e2, Mod)) || (IsEq(e1, Mod) && IsEq(e2, Yes))) then Some(Compare(false, a, No))
          else if ((IsEq(e1, Yes) && IsEq(e2, No)) || (IsEq(e1, No) && IsEq(e2, Yes))) then Some(Compare(false, a, Mod))
          else if ((IsEq(e1, Mod) && IsEq(e2, No)) || (IsEq(e1, No) && IsEq(e2, Mod))) then Some(Compare(false, a, Yes))
          else None
        else if a.kind == Boolean &&
                ((e1.Not? && e1.arg.Sym? && e2.Sym?) || (e2.Not? && e2.arg.Sym? && e1.Sym?)) then Some(Sym(Yes))
        else None
  }

  function JoinAnd(e1: Expr, e2: Expr): Option<Expr> {
    if ExprEq(e1, e2) then Some(e1)
    else
      var s1 := Subject(e1, true);
      var s2 := Subject(e2, false);
      if s1.None? || s2.None? || s1 != s2 || !s1.value.Config? then None
      else
        var a := s1.value;
        if a.kind != Boolean && a.kind != Tristate then None
        else if ((e1.Sym? && IsEq(e2, Yes)) || (e2.Sym? && IsEq(e1, Yes))) then Some(Compare(true, a, Yes))
        else if ((e1.Sym? && IsNe(e2, No)) || (e2.Sym? && IsNe(e1, No))) then Some(Sym(a))
        else if ((e1.Sym? && IsNe(e2, Mod)) || (e2.Sym? && IsNe(e1, Mod))) then Some(Compare(true, a, Yes))
        else if a.kind != Tristate || !e1.Compare? || !e2.Compare? then None
        else if e1.equal && !e2.equal && IsConst(e1.rhs) && IsConst(e2.rhs) then
          Some(if e1.rhs != e2.rhs then Compare(true, a, e1.rhs) else Sym(No))
        else if !e1.equal && e2.equal && IsConst(e1.rhs) && IsConst(e2.rhs) then
          Some(if e2.rhs != e1.rhs then Compare(true, a, e2.rhs) else Sym(No))
        else if ((IsNe(e1, Yes) && IsNe(e2, No)) || (IsNe(e1, No) && IsNe(e2, Yes))) then Some(Compare(true, a, Mod))
        else if ((IsNe(e1, Yes) && IsNe(e2, Mod)) || (IsNe(e1, Mod) && IsNe(e2, Yes))) then Some(Compare(true, a, No))
        else if ((IsNe(e1, Mod) && IsNe(e2, No)) || (IsNe(e1, No) && IsNe(e2, Mod))) then Some(Compare(true, a, Yes))
        else None
  }

  function Join(op: Op, e1: Expr, e2: Expr): Option<Expr> {
    if op == And then JoinAnd(e1, e2) else JoinOr(e1, e2)
  }

  // ----- the pairs that are joined -----

  /** The tristate constant that is neither of two different ones. */
  function Third(c: Symbol, d: Symbol): Symbol {
    if c != Yes && d != Yes then Yes else if c != Mod && d != Mod then Mod else No
  }

  predicate IsTristate(c: Symbol) { c in {Yes, Mod, No} }

  /** a=c || a=d leaves out the third value; s || !s holds of a boolean s. */
  lemma JoinsOrPairs(a: Symbol, c: Symbol, d: Symbol)
    requires a.Config? && IsTristate(c) && IsTristate(d) && c != d
    ensures a.kind == Tristate ==>
              JoinOr(Compare(true, a, c), Compare(true, a, d)) == Some(Compare(false, a, Third(c, d)))
    ensures a.kind == Boolean ==> JoinOr(Sym(a), Not(Sym(a))) == Some(Sym(Yes)) == JoinOr(Not(Sym(a)), Sym(a))
  {}

  /** a with a=y, a!=n or a!=m, in either order. */
  lemma JoinsAndSymbol(a: Symbol)
    requires a.Config? && (a.kind == Boolean || a.kind == Tristate)
    ensures var s, y := Sym(a), Compare(true, a, Yes);
            JoinAnd(s, y) == Some(y) == JoinAnd(y, s) &&
            JoinAnd(s, Compare(false, a, No)) == Some(s) == JoinAnd(Compare(false, a, No), s) &&
            JoinAnd(s, Compare(false, a, Mod)) == Some(y) == JoinAnd(Compare(false, a, Mod), s)
  {}

  /** a=c && a!=d, in either order, for any constants; and a!=c && a!=d leaves the third value. */
  lemma JoinsAndPairs(a: Symbol, c: Symbol, d: Symbol)
    requires a.Config? && a.kind == Tristate && IsConst(c) && IsConst(d)
    ensures var both := Some(if c != d then Compare(true, a, c) else Sym(No));
            JoinAnd(Compare(true, a, c), Compare(false, a, d)) == both == JoinAnd(Compare(false, a, d), Compare(true, a, c))
    ensures IsTristate(c) && IsTristate(d) && c != d ==>
              JoinAnd(Compare(false, a, c), Compare(false, a, d)) == Some(Compare(true, a, Third(c, d)))
  {}

  /** Distinct constants never have the same text. */
  lemma ConstantsDiffer(a: Symbol, b: Symbol, v: Valuation)
    requires IsConst(a) && IsConst(b)
    ensures TextOf(a, v) == TextOf(b, v) <==> a == b
  {
    LettersDiffer(0, 1);
    LettersDiffer(0, 2);
    LettersDiffer(1, 2);
  }

  lemma TextIsLetter(a: Symbol, v: Valuation)
    requires a.Config? && (a.kind == Boolean || a.kind == Tristate)
    ensures TextOf(a, v) == TextOf(Yes, v) <==> TriOf(a, v) == 2
    ensures TextOf(a, v) == TextOf(Mod, v) <==> TriOf(a, v) == 1
    ensures TextOf(a, v) == TextOf(No, v) <==> TriOf(a, v) == 0
  {
    LettersDiffer(TriOf(a, v), 0);
    LettersDiffer(TriOf(a, v), 1);
    LettersDiffer(TriOf(a, v), 2);
  }

  /** What a joined operand must satisfy: same value, and no new operand of value m. */
  ghost predicate Joins(op: Op, e1: Expr, e2: Expr, j: Expr, v: Valuation) {
    Calc(j, v) == Apply(op, Calc(e1, v), Calc(e2, v)) &&
    (TwoValued(e1, v) && TwoValued(e2, v) ==> TwoValued(j, v))
  }

  lemma JoinOrCalc(e1: Expr, e2: Expr, v: Valuation)
    requires WellTyped(v) && JoinOr(e1, e2).Some?
    ensures Joins(Or, e1, e2, JoinOr(e1, e2).value, v)
  {
    if ExprEq(e1, e2) {
      ExprEqSound(e1, e2, v);
    } else {
      TextIsLetter(Subject(e1, true).value, v);
    }
  }

  lemma JoinAndCalc(e1: Expr, e2: Expr, v: Valuation)
    requires WellTyped(v) && JoinAnd(e1, e2).Some?
    ensures Joins(And, e1, e2, JoinAnd(e1, e2).value, v)
  {
    if ExprEq(e1, e2) {
      ExprEqSound(e1, e2, v);
    } else {
      TextIsLetter(Subject(e1, true).value, v);
      if e1.Compare? && e2.Compare? && IsConst(e1.rhs) && IsConst(e2.rhs) {
        ConstantsDiffer(e1.rhs, e2.rhs, v);
      }
    }
  }

  /** Every joining rule is exact over all three values, for every well-typed valuation. */
  lemma JoinCalc(op: Op, e1: Expr, e2: Expr, v: Valuation)
    requires WellTyped(v) && Join(op, e1, e2).Some?
    ensures Joins(op, e1, e2, Join(op, e1, e2).value, v)
  {
    if op == And { JoinAndCalc(e1, e2, v); } else { JoinOrCalc(e1, e2, v); }
  }

  /** A join never grows beyond its operands, and is no operation tree unless an operand was. */
  lemma JoinShape(op: Op, e1: Expr, e2: Expr)
    requires Join(op, e1, e2).Some?
    ensures var j := Join(op, e1, e2).value;
            Size(j) < Size(e1) + Size(e2) && (j.Bin? ==> j == e1)
  {}

  // ----- taking out the operands two trees have in common -----

  datatype Extraction = Extraction(common: Option<Expr>, first: Expr, second: Expr)

  function ExtractEq(op: Op, acc: Option<Expr>, e1: Expr, e2: Expr): (r: Extraction)
    ensures Size(r.first) <= Size(e1) && Size(r.second) <= Size(e2)
    decreases Size(e1) + Size(e2)
  {
    if IsOp(e1, op) then
      var a := ExtractEq(op, acc, e1.left, e2);
      var b := ExtractEq(op, a.common, e1.right, a.second);
      Extraction(b.common, Bin(op, a.first, b.first), b.second)
    else if IsOp(e2, op) then
      var a := ExtractEq(op, acc, e1, e2.left);
      var b := ExtractEq(op, a.common, a.first, e2.right);
      Extraction(b.common, b.first, Bin(op, a.second, b.second))
    else if ExprEq(e1, e2) then
      Extraction(Some(if acc.Some? then Bin(op, acc.value, e1) else e1), Sym(Unit(op)), Sym(Unit(op)))
    else Extraction(acc, e1, e2)
  }

  function ExtractEqOp(op: Op, e1: Expr, e2: Expr): Extraction {
    var x := ExtractEq(op, None, e1, e2);
    if x.common.Some? then x.(first := EliminateYn(x.first), second := EliminateYn(x.second)) else x
  }

  function Extracted(op: Op, common: Option<Expr>, v: Valuation): Tri {
    if common.None? then TriOf(Unit(op), v) else Calc(common.value, v)
  }

  /** Everything newly extracted is one factor of both sides. */
  ghost predicate Factors(op: Op, c: Tri, acc: Option<Expr>, e1: Expr, e2: Expr, x: Extraction, v: Valuation) {
    IsCommon(op, c, e1, e2, (x.first, x.second), v) &&
    Extracted(op, x.common, v) == Apply(op, Extracted(op, acc, v), c)
  }

  lemma FactorsLeft(op: Op, c1: Tri, c2: Tri, acc: Option<Expr>, e1: Expr, e2: Expr, a: Extraction, b: Extraction,
                    v: Valuation)
    requires IsOp(e1, op) && Factors(op, c1, acc, e1.left, e2, a, v) && Factors(op, c2, a.common, e1.right, a.second, b, v)
    ensures Factors(op, Apply(op, c1, c2), acc, e1, e2,
                    Extraction(b.common, Bin(op, a.first, b.first), b.second), v)
  {
    CommonLeft(op, c1, c2, e1, e2, (a.first, a.second), (b.first, b.second), v);
    ApplyRegroups(op, Extracted(op, acc, v), c1, c2, c2);
  }

  lemma FactorsRight(op: Op, c1: Tri, c2: Tri, acc: Option<Expr>, e1: Expr, e2: Expr, a: Extraction, b: Extraction,
                     v: Valuation)
    requires IsOp(e2, op) && Factors(op, c1, acc, e1, e2.left, a, v) && Factors(op, c2, a.common, a.first, e2.right, b, v)
    ensures Factors(op, Apply(op, c1, c2), acc, e1, e2,
                    Extraction(b.common, b.first, Bin(op, a.second, b.second)), v)
  {
    CommonRight(op, c1, c2, e1, e2, (a.first, a.second), (b.first, b.second), v);
    ApplyRegroups(op, Extracted(op, acc, v), c1, c2, c2);
  }

  lemma {:induction false} ExtractEqFactors(op: Op, acc: Option<Expr>, e1: Expr, e2: Expr, v: Valuation) returns (c: Tri)
    ensures Factors(op, c, acc, e1, e2, ExtractEq(op, acc, e1, e2), v)
    decreases Size(e1) + Size(e2)
  {
    if IsOp(e1, op) {
      var a := ExtractEq(op, acc, e1.left, e2);
      var b := ExtractEq(op, a.common, e1.right, a.second);
      var c1 := ExtractEqFactors(op, acc, e1.left, e2, v);
      var c2 := ExtractEqFactors(op, a.common, e1.right, a.second, v);
      c := Apply(op, c1, c2);
      FactorsLeft(op, c1, c2, acc, e1, e2, a, b, v);
    } else if IsOp(e2, op) {
      var a := ExtractEq(op, acc, e1, e2.left);
      var b := ExtractEq(op, a.common, a.first, e2.right);
      var c1 := ExtractEqFactors(op, acc, e1, e2.left, v);
      var c2 := ExtractEqFactors(op, a.common, a.first, e2.right, v);
      c := Apply(op, c1, c2);
      FactorsRight(op, c1, c2, acc, e1, e2, a, b, v);
    } else {
      c := LeafFactors(op, acc, e1, e2, v);
    }
  }

  lemma LeafFactors(op: Op, acc: Option<Expr>, e1: Expr, e2: Expr, v: Valuation) returns (c: Tri)
    requires !IsOp(e1, op) && !IsOp(e2, op)
    ensures Factors(op, c, acc, e1, e2, ExtractEq(op, acc, e1, e2), v)
  {
    c := TriOf(Unit(op), v);
    if ExprEq(e1, e2) {
      ExprEqSound(e1, e2, v);
      c := Calc(e1, v);
    }
  }

  /** Both sides are the extracted part combined with what is left of them. */
  lemma ExtractEqOpCalc(op: Op, e1: Expr, e2: Expr, v: Valuation)
    ensures var x := ExtractEqOp(op, e1, e2);
            var c := Extracted(op, x.common, v);
            Calc(e1, v) == Apply(op, c, Calc(x.first, v)) && Calc(e2, v) == Apply(op, c, Calc(x.second, v))
  {
    var x := ExtractEq(op, None, e1, e2);
    var c := ExtractEqFactors(op, None, e1, e2, v);
    assert Extracted(op, x.common, v) == c;
    EliminateYnCalc(x.first, v);
    EliminateYnCalc(x.second, v);
  }
}
