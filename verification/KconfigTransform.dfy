/** Negation push-down and the two rewritings of comparisons. */
module KconfigTransform {
  import opened Options
  import opened KconfigExpr

  function Flip(op: Op): Op { if op == And then Or else And }

  /** A bound on the work still to do: pushing a negation inwards lowers it. */
  function Weight(e: Expr): (w: nat)
    ensures w > 0
  {
    match e
    case Sym(_) => 1
    case Not(x) => 2 * Weight(x)
    case Bin(_, l, r) => 1 + Weight(l) + Weight(r)
    case Compare(_, _, _) => 2
  }

  /** De Morgan's rewriting lowers the weight although it doubles the negations. */
  lemma PushWeight(op: Op, l: Expr, r: Expr)
    ensures Weight(Bin(Flip(op), Not(l), Not(r))) == 2 * Weight(Bin(op, l, r)) - 1
  {
    assert Weight(Not(l)) == 2 * Weight(l) && Weight(Not(r)) == 2 * Weight(r);
  }

  function TransformCompare(e: Expr): Expr
    requires e.Compare?
  {
    if !(e.lhs.Config? && e.lhs.kind == Boolean) then e
    else if e.rhs == No then (if e.equal then Not(Sym(e.lhs)) else Sym(e.lhs))
    else if e.rhs == Mod then (if e.equal then Sym(No) else Sym(Yes))
    else if e.rhs == Yes then (if e.equal then Sym(e.lhs) else Not(Sym(e.lhs)))
    else e
  }

  function Transform(e: Expr): (r: Expr)
    ensures Weight(r) <= Weight(e)
    decreases Weight(e)
  {
    match e
    case Sym(_) => e
    case Compare(_, _, _) => TransformCompare(e)
    case Bin(op, l, r) => Bin(op, Transform(l), Transform(r))
    case Not(x) =>
      var t := Transform(x);
      match t
      case Not(y) => Transform(y)
      case Compare(eq, a, b) => Compare(!eq, a, b)
      case Bin(op, l, r) => PushWeight(op, l, r); Transform(Bin(Flip(op), Not(l), Not(r)))
      case Sym(s) =>
        if s == Yes then Sym(No)
        else if s == Mod then Sym(Mod)
        else if s == No then Sym(Yes)
        else Not(t)
  }

  /** Pushing negations inwards keeps the value under every valuation that never gives a
      boolean symbol the value m, and introduces no operand symbol of value m. */
  lemma {:induction false} TransformCalc(e: Expr, v: Valuation)
    requires WellTyped(v)
    ensures Calc(Transform(e), v) == Calc(e, v)
    ensures TwoValued(e, v) ==> TwoValued(Transform(e), v)
    decreases Weight(e)
  {
    match e
    case Sym(_) =>
    case Compare(_, _, _) =>
    case Bin(_, l, r) => TransformCalc(l, v); TransformCalc(r, v);
    case Not(x) =>
      TransformCalc(x, v);
      var t := Transform(x);
      match t
      case Not(y) => TransformCalc(y, v);
      case Bin(op, l, r) =>
        PushWeight(op, l, r);
        TransformCalc(Bin(Flip(op), Not(l), Not(r)), v);
        assert TwoValued(t, v) ==> TwoValued(Not(l), v) && TwoValued(Not(r), v);
      case _ =>
  }

  /** Negation stands only on symbols other than y, m and n, and no comparison of a
      boolean symbol with y, m or n is left. */
  predicate Normal(e: Expr) {
    match e
    case Sym(_) => true
    case Compare(_, a, b) => !(a.Config? && a.kind == Boolean && b in {Yes, Mod, No})
    case Bin(_, l, r) => Normal(l) && Normal(r)
    case Not(x) => x.Sym? && x.sym !in {Yes, Mod, No}
  }

  lemma {:induction false} TransformNormal(e: Expr)
    ensures Normal(Transform(e))
    decreases Weight(e)
  {
    match e
    case Sym(_) =>
    case Compare(_, _, _) =>
    case Bin(_, l, r) => TransformNormal(l); TransformNormal(r);
    case Not(x) =>
      TransformNormal(x);
      var t := Transform(x);
      match t
      case Not(y) => TransformNormal(y);
      case Bin(op, l, r) => PushWeight(op, l, r); TransformNormal(Bin(Flip(op), Not(l), Not(r)));
      case _ =>
  }

  /** Normal expressions are exactly the ones a further transformation leaves alone. */
  lemma {:induction false} TransformFixesNormal(e: Expr)
    ensures Normal(e) <==> Transform(e) == e
  {
    if Transform(e) == e { TransformNormal(e); }
    if Normal(e) {
      match e
      case Sym(_) =>
      case Compare(_, _, _) =>
      case Bin(_, l, r) => TransformFixesNormal(l); TransformFixesNormal(r);
      case Not(x) =>
    }
  }

  // ----- FOO!=n becomes FOO -----

  function TransBool(e: Expr): Expr {
    match e
    case Bin(op, l, r) => Bin(op, TransBool(l), TransBool(r))
    case Not(x) => Not(TransBool(x))
    case Compare(eq, a, b) =>
      if !eq && a.Config? && a.kind == Tristate && b == No then Sym(a) else e
    case Sym(_) => e
  }

  /** No comparison that TransBool rewrites stands under a negation. */
  predicate RewritesOnlyPositive(e: Expr) {
    match e
    case Bin(_, l, r) => RewritesOnlyPositive(l) && RewritesOnlyPositive(r)
    case Not(x) => TransBool(x) == x
    case _ => true
  }

  /** Outside negations, the value can only drop from y to m: it is n for both or for neither. */
  lemma {:induction false} TransBoolKeepsNo(e: Expr, v: Valuation)
    requires RewritesOnlyPositive(e)
    ensures Calc(TransBool(e), v) == 0 <==> Calc(e, v) == 0
    ensures Calc(TransBool(e), v) <= Calc(e, v)
  {
    match e
    case Bin(_, l, r) => TransBoolKeepsNo(l, v); TransBoolKeepsNo(r, v);
    case _ =>
  }

  lemma {:induction false} NormalRewritesOnlyPositive(e: Expr)
    requires Normal(e)
    ensures RewritesOnlyPositive(e)
  {
    match e
    case Bin(_, l, r) => NormalRewritesOnlyPositive(l); NormalRewritesOnlyPositive(r);
    case _ =>
  }

  /** Under a negation the test for n survives exactly when the rewriting keeps the value of the negated
      expression. */
  lemma TransBoolUnderNot(x: Expr, v: Valuation)
    requires RewritesOnlyPositive(x)
    ensures (Calc(TransBool(Not(x)), v) == 0 <==> Calc(Not(x), v) == 0) <==> Calc(TransBool(x), v) == Calc(x, v)
  {
    TransBoolKeepsNo(x, v);
  }

  /** The symbols that TransBool puts in place of comparisons are not m. */
  predicate RewritesTwoValued(e: Expr, v: Valuation) {
    match e
    case Bin(_, l, r) => RewritesTwoValued(l, v) && RewritesTwoValued(r, v)
    case Not(x) => RewritesTwoValued(x, v)
    case Compare(_, a, _) => TransBool(e) == e || TriOf(a, v) != 1
    case Sym(_) => true
  }

  /** The rewriting keeps the value of the expression and of every part of it. */
  predicate TransBoolKeepsAll(e: Expr, v: Valuation) {
    Calc(TransBool(e), v) == Calc(e, v) &&
    match e
    case Bin(_, l, r) => TransBoolKeepsAll(l, v) && TransBoolKeepsAll(r, v)
    case Not(x) => TransBoolKeepsAll(x, v)
    case _ => true
  }

  /** All values are kept, under negations too, exactly when no rewritten symbol is m. */
  lemma {:induction false} TransBoolExact(e: Expr, v: Valuation)
    ensures TransBoolKeepsAll(e, v) <==> RewritesTwoValued(e, v)
  {
    match e
    case Bin(_, l, r) => TransBoolExact(l, v); TransBoolExact(r, v);
    case Not(x) => TransBoolExact(x, v);
    case Compare(_, a, _) => LettersDiffer(TriOf(a, v), 0);
    case Sym(_) =>
  }

  /** With A being m, !(A!=n) is n and is rewritten to !A, which is m. */
  lemma TransBoolRaises(a: Symbol, v: Valuation)
    requires a.Config? && a.kind == Tristate && v.tri(a) == 1
    ensures var e := Not(Compare(false, a, No)); Calc(e, v) == 0 && Calc(TransBool(e), v) == 1
  {
    LettersDiffer(1, 0);
    assert Calc(Compare(false, a, No), v) == 2;
  }

  // ----- e = sym and e != sym as expressions over the symbols of e -----

  function Negate(e: Expr, equal: bool): Expr { if equal then e else Not(e) }

  function TransCompare(e: Expr, equal: bool, sym: Symbol): Expr
    requires sym == Yes || sym == Mod || sym == No
    decreases e
  {
    match e
    case Bin(op, l, r) =>
      var a := TransCompare(l, true, sym);
      var b := TransCompare(r, true, sym);
      Negate(if sym == Yes then Bin(op, a, b) else if sym == No then Bin(Flip(op), a, b) else e, equal)
    case Not(x) => TransCompare(x, !equal, sym)
    case Compare(_, _, _) =>
      if sym == Mod then (if equal then Sym(No) else Sym(Yes))
      else Negate(e, equal == (sym == Yes))
    case Sym(s) => Compare(equal, s, sym)
  }

  /** An absent expression is compared as if it were the requested symbol itself. */
  function TransCompareOption(e: Option<Expr>, equal: bool, sym: Symbol): Expr
    requires sym == Yes || sym == Mod || sym == No
  {
    if e.None? then Negate(Sym(sym), equal) else TransCompare(e.value, equal, sym)
  }

  /** The truth of a comparison with a constant, as y or n. */
  function Compared(value: Tri, equal: bool, sym: Symbol, v: Valuation): Tri {
    if (value == TriOf(sym, v)) == equal then 2 else 0
  }

  /** Every negated subexpression is y or n. */
  predicate NegatesTwoValued(e: Expr, v: Valuation) {
    match e
    case Bin(_, l, r) => NegatesTwoValued(l, v) && NegatesTwoValued(r, v)
    case Not(x) => Calc(x, v) != 1 && NegatesTwoValued(x, v)
    case _ => true
  }

  /** The text of an operand symbol is that of sym exactly when its value is. */
  predicate TextTells(e: Expr, sym: Symbol, v: Valuation) {
    match e
    case Bin(_, l, r) => TextTells(l, sym, v) && TextTells(r, sym, v)
    case Not(x) => TextTells(x, sym, v)
    case Sym(s) => TextOf(s, v) == TextOf(sym, v) <==> TriOf(s, v) == TriOf(sym, v)
    case Compare(_, _, _) => true
  }

  lemma LettersDiffer(a: Tri, b: Tri)
    ensures Letter(a) == Letter(b) <==> a == b
  {
    assert "n"[0] != "m"[0] && "n"[0] != "y"[0] && "m"[0] != "y"[0];
  }

  /** Boolean, tristate and constant operands always tell. */
  lemma {:induction false} LogicalTells(e: Expr, sym: Symbol, v: Valuation)
    requires sym == Yes || sym == Mod || sym == No
    requires Logical(e)
    ensures TextTells(e, sym, v)
  {
    match e
    case Bin(_, l, r) => LogicalTells(l, sym, v); LogicalTells(r, sym, v);
    case Not(x) => LogicalTells(x, sym, v);
    case Sym(s) => LettersDiffer(TriOf(s, v), TriOf(sym, v));
    case Compare(_, _, _) =>
  }

  predicate Logical(e: Expr) {
    match e
    case Bin(_, l, r) => Logical(l) && Logical(r)
    case Not(x) => Logical(x)
    case Sym(s) => s in {Yes, Mod, No} || (s.Config? && (s.kind == Boolean || s.kind == Tristate))
    case Compare(_, _, _) => true
  }

  /** Against y and n the rewritten expression is the comparison, for every valuation in which the
      text of every operand tells its value and no negated subexpression is m. */
  lemma {:induction false} TransCompareCalc(e: Expr, equal: bool, sym: Symbol, v: Valuation)
    requires sym == Yes || sym == No
    requires TextTells(e, sym, v) && NegatesTwoValued(e, v)
    ensures Calc(TransCompare(e, equal, sym), v) == Compared(Calc(e, v), equal, sym, v)
    decreases e
  {
    match e
    case Bin(_, l, r) =>
      TransCompareCalc(l, true, sym, v);
      TransCompareCalc(r, true, sym, v);
    case Not(x) => TransCompareCalc(x, !equal, sym, v);
    case Sym(s) =>
    case Compare(_, _, _) =>
  }

  /** The rewriting is right for the expression and for every part of it, as = and as !=. */
  predicate ComparesAll(e: Expr, sym: Symbol, v: Valuation)
    requires sym == Yes || sym == No
  {
    Calc(TransCompare(e, true, sym), v) == Compared(Calc(e, v), true, sym, v) &&
    Calc(TransCompare(e, false, sym), v) == Compared(Calc(e, v), false, sym, v) &&
    match e
    case Bin(_, l, r) => ComparesAll(l, sym, v) && ComparesAll(r, sym, v)
    case Not(x) => ComparesAll(x, sym, v)
    case _ => true
  }

  /** It is right everywhere exactly when every operand's text tells its value and no negated
      subexpression is m. */
  lemma {:induction false} TransCompareExact(e: Expr, sym: Symbol, v: Valuation)
    requires sym == Yes || sym == No
    ensures ComparesAll(e, sym, v) <==> TextTells(e, sym, v) && NegatesTwoValued(e, v)
  {
    match e
    case Bin(_, l, r) => TransCompareExact(l, sym, v); TransCompareExact(r, sym, v);
    case Not(x) => TransCompareExact(x, sym, v);
    case _ =>
    if TextTells(e, sym, v) && NegatesTwoValued(e, v) {
      TransCompareCalc(e, true, sym, v);
      TransCompareCalc(e, false, sym, v);
    }
  }

  /** At a negation the rewriting is right exactly when the negated expression is not m. */
  lemma TransCompareNotExact(x: Expr, equal: bool, sym: Symbol, v: Valuation)
    requires sym == Yes || sym == No
    requires TextTells(x, sym, v) && NegatesTwoValued(x, v)
    ensures Calc(TransCompare(Not(x), equal, sym), v) == Compared(Calc(Not(x), v), equal, sym, v)
            <==> Calc(x, v) != 1
  {
    TransCompareCalc(x, !equal, sym, v);
  }

  /** With A being m, !A is m, but "!A = y" is rewritten to A!=y, which is y. */
  lemma NegatedMisread(a: Symbol, v: Valuation)
    requires a.Config? && a.kind == Tristate && v.tri(a) == 1
    ensures Calc(Not(Sym(a)), v) == 1 && Calc(TransCompare(Not(Sym(a)), true, Yes), v) == 2
  {
    LettersDiffer(1, 2);
    assert TransCompare(Not(Sym(a)), true, Yes) == Compare(false, a, Yes);
  }

  /** A symbol without a definition is n and its text is its name, so that FOO!=n is y where FOO is n. */
  lemma UndefinedMisread(foo: Symbol, v: Valuation)
    requires foo.Config? && foo.kind == Unknown && v.tri(foo) == 0 && v.text(foo) == "FOO"
    ensures Calc(Sym(foo), v) == 0 && Calc(TransCompare(Sym(foo), false, No), v) == 2
    ensures !TextTells(Sym(foo), No, v)
  {
    assert "FOO"[0] != "n"[0];
  }

  /** Every operand of the rewritten expression is a comparison, hence y or n. */
  lemma {:induction false} TransCompareTwoValued(e: Expr, equal: bool, sym: Symbol, v: Valuation)
    requires sym == Yes || sym == No
    ensures TwoValued(TransCompare(e, equal, sym), v)
    decreases e
  {
    match e
    case Bin(_, l, r) =>
      TransCompareTwoValued(l, true, sym, v);
      TransCompareTwoValued(r, true, sym, v);
    case Not(x) => TransCompareTwoValued(x, !equal, sym, v);
    case _ =>
  }
}
