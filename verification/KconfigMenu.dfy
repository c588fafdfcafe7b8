/** The test that nests a menu entry under the entry before it. */
module KconfigMenu {
  import opened Options
  import opened KconfigExpr
  import opened KconfigTransform
  import opened KconfigDups

  predicate ContainsSymbol(dep: Expr, s: Symbol) {
    match dep
    case Bin(_, l, r) => ContainsSymbol(l, s) || ContainsSymbol(r, s)
    case Not(x) => ContainsSymbol(x, s)
    case Sym(t) => t == s
    case Compare(_, a, b) => a == s || b == s
  }

  predicate DependsSymbol(dep: Expr, s: Symbol) {
    match dep
    case Bin(op, l, r) => op == And && (DependsSymbol(l, s) || DependsSymbol(r, s))
    case Sym(t) => t == s
    case Compare(eq, a, b) => a == s && (if eq then b == Yes || b == Mod else b == No)
    case Not(_) => false
  }

  // ----- where the symbol stands -----

  /** The subexpression a path leads to, through operations and negations. */
  function At(e: Expr, p: Path): Option<Expr>
    decreases p
  {
    if p == [] then Some(e)
    else if e.Bin? then At(Child(e, p[0]), p[1..])
    else if e.Not? && p[0] == L then At(e.arg, p[1..])
    else None
  }

  predicate Mentions(e: Expr, s: Symbol) { e == Sym(s) || (e.Compare? && (e.lhs == s || e.rhs == s)) }

  ghost predicate MentionedAt(e: Expr, p: Path, s: Symbol) { At(e, p).Some? && Mentions(At(e, p).value, s) }

  /** The symbol occurs somewhere. */
  ghost predicate Occurs(e: Expr, s: Symbol) { exists p :: MentionedAt(e, p, s) }

  /** The expression is s, s=y, s=m or s!=n. */
  predicate NamesDirectly(e: Expr, s: Symbol) {
    e == Sym(s) || e == Compare(true, s, Yes) || e == Compare(true, s, Mod) || e == Compare(false, s, No)
  }

  ghost predicate NamedAt(e: Expr, p: Path, s: Symbol) { OperandAt(And, e, p) && NamesDirectly(Get(And, e, p), s) }

  /** The symbol is named directly by an operand of the top-level conjunction. */
  ghost predicate Named(e: Expr, s: Symbol) { exists p :: NamedAt(e, p, s) }

  lemma Below(e: Expr, d: Dir, p: Path, s: Symbol)
    ensures e.Bin? ==> (MentionedAt(e, [d] + p, s) <==> MentionedAt(Child(e, d), p, s))
    ensures e.Not? && d == L ==> (MentionedAt(e, [d] + p, s) <==> MentionedAt(e.arg, p, s))
    ensures IsOp(e, And) ==> (NamedAt(e, [d] + p, s) <==> NamedAt(Child(e, d), p, s))
  {
    assert ([d] + p)[1..] == p;
  }

  lemma {:induction false} OccurrencePath(e: Expr, s: Symbol) returns (p: Path)
    requires ContainsSymbol(e, s)
    ensures MentionedAt(e, p, s)
  {
    p := [];
    if e.Not? {
      p := OccurrencePath(e.arg, s);
      Below(e, L, p, s);
      p := [L] + p;
    } else if e.Bin? {
      var d := if ContainsSymbol(e.left, s) then L else R;
      p := OccurrencePath(Child(e, d), s);
      Below(e, d, p, s);
      p := [d] + p;
    }
  }

  lemma {:induction false} PathOccurrence(e: Expr, p: Path, s: Symbol)
    requires MentionedAt(e, p, s)
    ensures ContainsSymbol(e, s)
    decreases p
  {
    if p != [] { PathOccurrence(if e.Bin? then Child(e, p[0]) else e.arg, p[1..], s); }
  }

  /** A symbol is contained exactly if it occurs. */
  lemma ContainsExactly(e: Expr, s: Symbol)
    ensures ContainsSymbol(e, s) <==> Occurs(e, s)
  {
    if ContainsSymbol(e, s) { var p := OccurrencePath(e, s); }
    if Occurs(e, s) {
      var p :| MentionedAt(e, p, s);
      PathOccurrence(e, p, s);
    }
  }

  lemma {:induction false} NamePath(e: Expr, s: Symbol) returns (p: Path)
    requires DependsSymbol(e, s)
    ensures NamedAt(e, p, s)
  {
    p := [];
    if e.Bin? {
      var d := if DependsSymbol(e.left, s) then L else R;
      p := NamePath(Child(e, d), s);
      Below(e, d, p, s);
      p := [d] + p;
    }
  }

  lemma {:induction false} PathName(e: Expr, p: Path, s: Symbol)
    requires NamedAt(e, p, s)
    ensures DependsSymbol(e, s)
    decreases p
  {
    if p != [] { PathName(Child(e, p[0]), p[1..], s); }
  }

  /** A symbol is depended on exactly if an operand of the top-level conjunction names it. */
  lemma DependsExactly(e: Expr, s: Symbol)
    ensures DependsSymbol(e, s) <==> Named(e, s)
  {
    if DependsSymbol(e, s) { var p := NamePath(e, s); }
    if Named(e, s) {
      var p :| NamedAt(e, p, s);
      PathName(e, p, s);
    }
  }

  /** What depends on a symbol contains it. */
  lemma {:induction false} DependsContains(e: Expr, s: Symbol)
    requires DependsSymbol(e, s)
    ensures ContainsSymbol(e, s)
  {
    if e.Bin? {
      if DependsSymbol(e.left, s) { DependsContains(e.left, s); } else { DependsContains(e.right, s); }
    }
  }

  /** A dependency on a boolean or tristate symbol fails whenever the symbol is n. */
  lemma {:induction false} DependsSymbolSound(dep: Expr, s: Symbol, v: Valuation)
    requires DependsSymbol(dep, s) && s.Config? && (s.kind == Boolean || s.kind == Tristate)
    ensures Calc(dep, v) != 0 ==> TriOf(s, v) != 0
  {
    match dep
    case Bin(_, l, r) =>
      if DependsSymbol(l, s) { DependsSymbolSound(l, s, v); } else { DependsSymbolSound(r, s, v); }
    case Compare(_, _, b) =>
      LettersDiffer(TriOf(s, v), TriOf(b, v));
    case _ =>
  }

  /** The expression compares with n as its value does, and negates nothing that is m. */
  ghost predicate Comparable(e: Option<Expr>, v: Valuation) {
    e.Some? ==> TextTells(e.value, No, v) && NegatesTwoValued(e.value, v)
  }

  /** The simplified form of "e is not n". */
  function VisibleForm(e: Option<Expr>): Expr { Deduped(Transform(TransCompareOption(e, false, No))) }

  method Visible(e: Option<Expr>) returns (r: Expr)
    ensures r == VisibleForm(e)
    ensures forall v :: WellTyped(v) && Comparable(e, v) ==>
                        Calc(r, v) == if CalcOption(e, v) != 0 then 2 else 0
    ensures Settled(r)
  {
    var c := TransCompareOption(e, false, No);
    var t := Transform(c);
    r := EliminateDups(t);
    forall v | WellTyped(v) && Comparable(e, v)
      ensures Calc(r, v) == if CalcOption(e, v) != 0 then 2 else 0
    {
      if e.Some? {
        TransCompareCalc(e.value, false, No, v);
        TransCompareTwoValued(e.value, false, No, v);
      }
      TransformCalc(c, v);
      assert TwoValued(c, v);
    }
  }

  /** The dependency names the symbol directly, or the visibility it needs covers the one above. */
  predicate Nested(base: Option<Expr>, dep: Expr, s: Symbol) {
    ContainsSymbol(dep, s) && (DependsSymbol(dep, s) || Covers(base, dep))
  }

  predicate Covers(base: Option<Expr>, dep: Expr) {
    EliminateEq(VisibleForm(Some(dep)), VisibleForm(base)).1 == Sym(Yes)
  }

  lemma NestedWhere(dep: Expr, s: Symbol)
    ensures DependsSymbol(dep, s) <==> Named(dep, s)
    ensures ContainsSymbol(dep, s) <==> Occurs(dep, s)
    ensures Named(dep, s) ==> Occurs(dep, s)
  {
    DependsExactly(dep, s);
    ContainsExactly(dep, s);
    if DependsSymbol(dep, s) { DependsContains(dep, s); }
  }

  /** Decides whether the entry that depends on dep becomes a child of the entry of symbol s,
      itself visible under base.  A nested entry that is visible needs the symbol, when it names
      a boolean or tristate symbol in a direct dependency, and otherwise a visible parent. */
  method Nests(base: Option<Expr>, dep: Option<Expr>, s: Symbol) returns (nest: bool)
    ensures nest <==> dep.Some? && Occurs(dep.value, s) && (Named(dep.value, s) || Covers(base, dep.value))
    ensures nest && Named(dep.value, s) && s.Config? && (s.kind == Boolean || s.kind == Tristate) ==>
              forall v :: Calc(dep.value, v) != 0 ==> TriOf(s, v) != 0
    ensures nest && !Named(dep.value, s) ==>
              forall v :: WellTyped(v) && Comparable(base, v) && Comparable(dep, v) && Calc(dep.value, v) != 0 ==>
                          CalcOption(base, v) != 0
  {
    if dep.None? { return false; }
    NestedWhere(dep.value, s);
    if !ContainsSymbol(dep.value, s) { return false; }
    if DependsSymbol(dep.value, s) {
      if s.Config? && (s.kind == Boolean || s.kind == Tristate) {
        forall v ensures Calc(dep.value, v) != 0 ==> TriOf(s, v) != 0 { DependsSymbolSound(dep.value, s, v); }
      }
      return true;
    }
    var b := Visible(base);
    var d := Visible(dep);
    var r := EliminateEq(d, b);
    nest := r.1 == Sym(Yes);
    if nest {
      forall v | WellTyped(v) && Comparable(base, v) && Comparable(dep, v) && Calc(dep.value, v) != 0
        ensures CalcOption(base, v) != 0
      {
        EliminateEqImplies(d, b, v);
        assert Calc(d, v) == 2;
      }
    }
  }

  /** With an undefined symbol FOO, whose text is its name, an entry that depends on FOO!=n && !(s=n) is
      nested under one that depends on FOO, and is visible where that one is not. */
  lemma HiddenParent(foo: Symbol, s: Symbol, v: Valuation)
    requires foo.Config? && foo.kind == Unknown && v.tri(foo) == 0 && v.text(foo) == "FOO"
    requires s.Config? && s.kind == Tristate && v.tri(s) == 2
    ensures var dep := Bin(And, Compare(false, foo, No), Not(Compare(true, s, No)));
            Nested(Some(Sym(foo)), dep, s) && !DependsSymbol(dep, s) &&
            Calc(dep, v) == 2 && CalcOption(Some(Sym(foo)), v) == 0
  {
    var f, c, y := Compare(false, foo, No), Compare(false, s, No), Sym(Yes);
    assert "FOO"[0] != "n"[0] && "y"[0] != "n"[0];
    UndefinedForm(foo, s);
    assert ExprEq(f, f) && !ExprEq(c, y);
    assert EliminateOperands(And, f, f) == (y, y) && EliminateOperands(And, c, y) == (c, y);
    assert EliminateOperands(And, Bin(And, f, c), f) == (Bin(And, y, c), y);
    assert EliminateYn(y) == y && EliminateYn(c) == c;
    assert EliminateYn(Bin(And, y, c)) == c;
    assert EliminateEq(Bin(And, f, c), f) == (c, y);
    var g := Compare(true, s, No);
    assert Calc(f, v) == 2 && Calc(g, v) == 0 && Calc(Not(g), v) == 2;
    assert ContainsSymbol(g, s) && ContainsSymbol(Not(g), s);
  }

  lemma UndefinedForm(foo: Symbol, s: Symbol)
    requires foo.Config? && foo.kind == Unknown && s.Config? && s.kind == Tristate
    ensures VisibleForm(Some(Sym(foo))) == Compare(false, foo, No)
    ensures VisibleForm(Some(Bin(And, Compare(false, foo, No), Not(Compare(true, s, No))))) ==
            Bin(And, Compare(false, foo, No), Compare(false, s, No))
  {
    var f, c := Compare(false, foo, No), Compare(true, s, No);
    var a, b := Not(f), TransCompare(Not(c), true, No);
    assert TransCompare(c, false, No) == c && TransCompare(f, true, No) == a;
    assert TransCompare(Bin(And, f, Not(c)), false, No) == Not(Bin(Or, a, b));
    var a', c' := Compare(true, foo, No), Compare(false, s, No);
    assert Transform(f) == f && Transform(a) == a' && Transform(c) == c && Transform(a') == a';
    assert Transform(Bin(Or, a, c)) == Bin(Or, a', c);
    assert Transform(Not(a')) == f && Transform(Not(c)) == c';
    assert Transform(Bin(And, Not(a'), Not(c))) == Bin(And, f, c');
    assert Transform(Not(Bin(Or, a, c))) == Bin(And, f, c');
    PairDeduped(And, f, c');
  }
}
