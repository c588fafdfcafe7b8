/** When the order of operands matters to the equality test, and what the test decides where no constant
    stands under a nested operation. */
module KconfigOrder {
  import opened KconfigExpr
  import opened KconfigSame

  // ----- expressions found equal reduce to the same symbol, or both to none -----

  lemma PlusLaws(a: Rest, b: Rest, c: Rest, d: Rest)
    ensures Plus(a, b) == Plus(b, a) && Plus(Plus(a, b), c) == Plus(a, Plus(b, c))
    ensures Plus(Plus(a, b), Plus(c, d)) == Plus(Plus(a, c), Plus(b, d))
  {}

  ghost predicate Drawn(op: Op, s: seq<Expr>, u: set<Expr>) {
    Sym(Unit(op)) in u && forall i :: 0 <= i < |s| ==> s[i] in u
  }

  /** Operands found equal leave the same behind. */
  ghost predicate Steady(op: Op, u: set<Expr>) {
    forall x, y :: x in u && y in u && ExprEq(x, y) ==> Weigh(op, EliminateYn(x)) == Weigh(op, EliminateYn(y))
  }

  lemma {:induction false} MeetLeft(op: Op, x: Expr, s: seq<Expr>, u: set<Expr>) returns (m: Rest)
    requires x in u && Drawn(op, s, u) && Steady(op, u)
    ensures var r := Meet(op, x, s);
            r.0 in u && Drawn(op, r.1, u) &&
            Weigh(op, EliminateYn(x)) == Plus(m, Weigh(op, EliminateYn(r.0))) && Left(op, s) == Plus(m, Left(op, r.1))
    decreases s
  {
    m := Nothing;
    if s != [] {
      var p := Pair(op, x, s[0]);
      var k := MeetLeft(op, p.0, s[1..], u);
      var taken := if ExprEq(x, s[0]) && !IsYN(x) then Weigh(op, EliminateYn(x)) else Nothing;
      m := Plus(taken, k);
      var r := Meet(op, p.0, s[1..]);
      PlusLaws(taken, Weigh(op, EliminateYn(p.1)), k, Left(op, r.1));
      PlusLaws(taken, k, Weigh(op, EliminateYn(r.0)), Nothing);
      assert ([p.1] + r.1)[1..] == r.1;
    }
  }

  lemma {:induction false} MeetAllLeft(op: Op, a: seq<Expr>, b: seq<Expr>, u: set<Expr>) returns (m: Rest)
    requires Drawn(op, a, u) && Drawn(op, b, u) && Steady(op, u)
    ensures var r := MeetAll(op, a, b);
            Left(op, a) == Plus(m, Left(op, r.0)) && Left(op, b) == Plus(m, Left(op, r.1))
    decreases a
  {
    m := Nothing;
    if a != [] {
      var p := Meet(op, a[0], b);
      var k := MeetLeft(op, a[0], b, u);
      var l := MeetAllLeft(op, a[1..], p.1, u);
      m := Plus(k, l);
      var r := MeetAll(op, a[1..], p.1);
      PlusLaws(k, Weigh(op, EliminateYn(p.0)), l, Left(op, r.0));
      PlusLaws(k, l, Left(op, r.1), Nothing);
      assert ([p.0] + r.0)[1..] == r.0;
    }
  }

  function Larger(a: Expr, b: Expr): nat { if Size(a) < Size(b) then Size(b) else Size(a) }

  /** The operands of both, and the unit. */
  ghost function Both(op: Op, a: Expr, b: Expr): set<Expr> {
    (set x | x in Flat(op, a)) + (set x | x in Flat(op, b)) + {Sym(Unit(op))}
  }

  lemma {:induction false} SteadyOperands(op: Op, a: Expr, b: Expr)
    requires IsOp(a, op) && IsOp(b, op)
    ensures Steady(op, Both(op, a, b))
    decreases Larger(a, b), 0
  {
    FlatSmaller(op, a);
    FlatSmaller(op, b);
    var u := Both(op, a, b);
    forall x, y | x in u && y in u && ExprEq(x, y)
      ensures Weigh(op, EliminateYn(x)) == Weigh(op, EliminateYn(y))
    {
      if x.Bin? { SameRest(x, y); }
    }
  }

  lemma {:induction false} SameRest(a: Expr, b: Expr)
    requires ExprEq(a, b)
    ensures EliminateYn(a).Sym? || EliminateYn(b).Sym? ==> EliminateYn(a) == EliminateYn(b)
    decreases Larger(a, b), 2
  {
    if a.Bin? {
      var op := a.op;
      var m := LeftTaken(op, a, b);
      EqOfTrees(op, a, b);
      LeftOfTree(op, a);
      LeftOfTree(op, b);
      WeighSame(op, EliminateYn(a), EliminateYn(b));
      WeighSame(op, EliminateYn(b), EliminateYn(b));
    }
  }

  lemma {:induction false} LeftTaken(op: Op, a: Expr, b: Expr) returns (m: Rest)
    requires IsOp(a, op) && IsOp(b, op)
    ensures var r := MeetAll(op, Flat(op, a), Flat(op, b));
            Left(op, Flat(op, a)) == Plus(m, Left(op, r.0)) && Left(op, Flat(op, b)) == Plus(m, Left(op, r.1))
    decreases Larger(a, b), 1
  {
    SteadyOperands(op, a, b);
    m := MeetAllLeft(op, Flat(op, a), Flat(op, b), Both(op, a, b));
  }

  /** Two operations that reduce to the same symbol are found equal, unless it is the deciding constant. */
  lemma Collapsing(op: Op, a: Expr, b: Expr)
    requires IsOp(a, op) && IsOp(b, op) && EliminateYn(a) == EliminateYn(b) && EliminateYn(a).Sym?
    requires EliminateYn(a) != Sym(Zero(op))
    ensures ExprEq(a, b)
  {
    var m := LeftTaken(op, a, b);
    EqOfTrees(op, a, b);
    LeftOfTree(op, a);
    LeftOfTree(op, b);
  }

  // ----- matching by keys -----

  /** An operand that counts: neither a constant nor reducing to the operation's unit. */
  predicate Live(op: Op, x: Expr) { !IsYN(x) && EliminateYn(x) != Sym(Unit(op)) }

  ghost predicate Within<K>(s: seq<Expr>, key: map<Expr, K>) { forall i :: 0 <= i < |s| ==> s[i] in key }

  /** Among the operands that count, the test is equality of keys. */
  ghost predicate Keyed<K>(op: Op, key: map<Expr, K>) {
    Sym(Unit(op)) in key &&
    forall x, y :: x in key && y in key && Live(op, x) && Live(op, y) ==> (ExprEq(x, y) <==> key[x] == key[y])
  }

  ghost function KeyOf<K>(op: Op, x: Expr, key: map<Expr, K>): multiset<K>
    requires x in key
  {
    if Live(op, x) then multiset{key[x]} else multiset{}
  }

  ghost function Keys<K>(op: Op, s: seq<Expr>, key: map<Expr, K>): multiset<K>
    requires Within(s, key)
  {
    if s == [] then multiset{} else KeyOf(op, s[0], key) + Keys(op, s[1..], key)
  }

  lemma EqualLive(op: Op, x: Expr, y: Expr)
    requires ExprEq(x, y)
    ensures Live(op, x) <==> Live(op, y)
  {
    SameRest(x, y);
  }

  lemma KeysCons<K>(op: Op, h: Expr, t: seq<Expr>, key: map<Expr, K>)
    requires h in key && Within(t, key)
    ensures Within([h] + t, key) && Keys(op, [h] + t, key) == KeyOf(op, h, key) + Keys(op, t, key)
  {
    assert ([h] + t)[1..] == t;
  }

  /** x has met s and become x' and s': one key, or none, has been taken out of both, and x' has none of those left. */
  ghost predicate Met<K>(op: Op, x: Expr, s: seq<Expr>, x': Expr, s': seq<Expr>, c: multiset<K>, key: map<Expr, K>) {
    x in key && x' in key && (x' == x || x' == Sym(Unit(op))) && Within(s, key) && Within(s', key) &&
    KeyOf(op, x, key) == KeyOf(op, x', key) + c && Keys(op, s, key) == Keys(op, s', key) + c &&
    KeyOf(op, x', key) !! Keys(op, s', key)
  }

  lemma MetHere<K>(op: Op, x: Expr, h: Expr, t: seq<Expr>, key: map<Expr, K>)
    requires Keyed(op, key) && x in key && h in key && Within(t, key) && ExprEq(x, h)
    ensures Met(op, x, [h] + t, Sym(Unit(op)), [Sym(Unit(op))] + t, KeyOf(op, x, key), key)
  {
    EqualLive(op, x, h);
    KeysCons(op, h, t, key);
    KeysCons(op, Sym(Unit(op)), t, key);
  }

  lemma MetLater<K>(op: Op, x: Expr, h: Expr, t: seq<Expr>, x': Expr, t': seq<Expr>, c: multiset<K>, key: map<Expr, K>)
    requires Keyed(op, key) && h in key && (!ExprEq(x, h) || IsYN(x)) && Met(op, x, t, x', t', c, key)
    ensures Met(op, x, [h] + t, x', [h] + t', c, key)
  {
    KeysCons(op, h, t, key);
    KeysCons(op, h, t', key);
    assert KeyOf(op, x, key) !! KeyOf(op, h, key);
    NoneTaken(KeyOf(op, x, key), KeyOf(op, x', key), KeyOf(op, h, key), Keys(op, t', key), c);
  }

  lemma NoneTaken<K>(x: multiset<K>, x': multiset<K>, h: multiset<K>, t: multiset<K>, c: multiset<K>)
    requires x == x' + c && x !! h && x' !! t
    ensures x' !! h + t
  {
    forall k | k in x' ensures k !in h + t { assert k in x; }
  }

  lemma {:induction false} MeetKeys<K>(op: Op, x: Expr, s: seq<Expr>, key: map<Expr, K>) returns (c: multiset<K>)
    requires Keyed(op, key) && x in key && Within(s, key)
    ensures Met(op, x, s, Meet(op, x, s).0, Meet(op, x, s).1, c, key)
    decreases s
  {
    c := multiset{};
    if s != [] {
      var h, t := s[0], s[1..];
      assert s == [h] + t;
      if ExprEq(x, h) && !IsYN(x) {
        c := KeyOf(op, x, key);
        ConstantPasses(op, Sym(Unit(op)), t);
        MetHere(op, x, h, t, key);
      } else {
        c := MeetKeys(op, x, t, key);
        MetLater(op, x, h, t, Meet(op, x, t).0, Meet(op, x, t).1, c, key);
      }
    }
  }

  lemma {:induction false} MeetAllKeys<K>(op: Op, a: seq<Expr>, b: seq<Expr>, key: map<Expr, K>) returns (c: multiset<K>)
    requires Keyed(op, key) && Within(a, key) && Within(b, key)
    ensures var r := MeetAll(op, a, b);
            Within(r.0, key) && Within(r.1, key) && Keys(op, a, key) == Keys(op, r.0, key) + c &&
            Keys(op, b, key) == Keys(op, r.1, key) + c && Keys(op, r.0, key) !! Keys(op, r.1, key)
    decreases a
  {
    c := multiset{};
    if a != [] {
      var p := Meet(op, a[0], b);
      var k := MeetKeys(op, a[0], b, key);
      var l := MeetAllKeys(op, a[1..], p.1, key);
      c := k + l;
      var r := MeetAll(op, a[1..], p.1);
      assert ([p.0] + r.0)[1..] == r.0;
    }
  }

  /** Deciding constants stay where they are. */
  lemma {:induction false} MeetKeepsZero(op: Op, x: Expr, s: seq<Expr>)
    ensures var r := Meet(op, x, s);
            (r.0 == Sym(Zero(op)) <==> x == Sym(Zero(op))) && (Sym(Zero(op)) in r.1 <==> Sym(Zero(op)) in s)
    decreases s
  {
    if s != [] { MeetKeepsZero(op, Pair(op, x, s[0]).0, s[1..]); }
  }

  lemma {:induction false} MeetAllKeepsZero(op: Op, a: seq<Expr>, b: seq<Expr>)
    ensures var r := MeetAll(op, a, b);
            (Sym(Zero(op)) in r.0 <==> Sym(Zero(op)) in a) && (Sym(Zero(op)) in r.1 <==> Sym(Zero(op)) in b)
    decreases a
  {
    if a != [] {
      MeetKeepsZero(op, a[0], b);
      MeetAllKeepsZero(op, a[1..], Meet(op, a[0], b).1);
    }
  }

  lemma {:induction false} LeftWithZero(op: Op, s: seq<Expr>)
    requires Sym(Zero(op)) in s
    ensures Left(op, s) == Deciding
  {
    if s[0] != Sym(Zero(op)) { LeftWithZero(op, s[1..]); }
  }

  lemma EmptySum<K>(a: multiset<K>, b: multiset<K>)
    requires a + b == multiset{}
    ensures a == multiset{} && b == multiset{}
  {
    assert |a + b| == |a| + |b|;
  }

  lemma {:induction false} LeftWithoutKeys<K>(op: Op, s: seq<Expr>, key: map<Expr, K>)
    requires Within(s, key) && Keys(op, s, key) == multiset{} && Sym(Zero(op)) !in s
    ensures Left(op, s) == Nothing
  {
    if s != [] {
      EmptySum(KeyOf(op, s[0], key), Keys(op, s[1..], key));
      LeftWithoutKeys(op, s[1..], key);
    }
  }

  lemma DecidedAccepted(op: Op, a: seq<Expr>, b: seq<Expr>)
    requires Sym(Zero(op)) in a && Sym(Zero(op)) in b
    ensures Accepted(op, a, b)
  {
    var r := MeetAll(op, a, b);
    MeetAllKeepsZero(op, a, b);
    LeftWithZero(op, r.0);
    LeftWithZero(op, r.1);
  }

  lemma DisjointEqual<K>(a: multiset<K>, b: multiset<K>, c: multiset<K>)
    requires a + c == b + c && a !! b
    ensures a == multiset{} && b == multiset{}
  {
    assert (a + c) - c == a && (b + c) - c == b;
    assert a * a == a;
  }

  lemma KeyedAccepted<K>(op: Op, a: seq<Expr>, b: seq<Expr>, key: map<Expr, K>)
    requires Keyed(op, key) && Within(a, key) && Within(b, key) && Keys(op, a, key) == Keys(op, b, key)
    requires Sym(Zero(op)) !in a && Sym(Zero(op)) !in b
    ensures Accepted(op, a, b)
  {
    var r := MeetAll(op, a, b);
    var c := MeetAllKeys(op, a, b, key);
    DisjointEqual(Keys(op, r.0, key), Keys(op, r.1, key), c);
    MeetAllKeepsZero(op, a, b);
    LeftWithoutKeys(op, r.0, key);
    LeftWithoutKeys(op, r.1, key);
  }

  // ----- order -----

  lemma PullOut<T>(s: seq<T>, x: T) returns (u: seq<T>, w: seq<T>)
    requires x in multiset(s)
    ensures s == u + [x] + w && multiset(s) == multiset(u + w) + multiset{x}
  {
    var i :| 0 <= i < |s| && s[i] == x;
    u, w := s[..i], s[i + 1..];
    assert s == u + [x] + w;
  }

  lemma Cancel<T>(a: multiset<T>, b: multiset<T>, x: T)
    requires a + multiset{x} == b + multiset{x}
    ensures a == b
  {
    assert a + multiset{x} - multiset{x} == a && b + multiset{x} - multiset{x} == b;
  }

  lemma {:induction false} KeysConcat<K>(op: Op, s: seq<Expr>, t: seq<Expr>, key: map<Expr, K>)
    requires Within(s, key) && Within(t, key) && Within(s + t, key)
    ensures Keys(op, s + t, key) == Keys(op, s, key) + Keys(op, t, key)
  {
    if s == [] {
      assert s + t == t;
    } else {
      assert (s + t)[1..] == s[1..] + t;
      KeysConcat(op, s[1..], t, key);
    }
  }

  lemma KeysPulled<K>(op: Op, u: seq<Expr>, x: Expr, w: seq<Expr>, key: map<Expr, K>)
    requires Within(u + [x] + w, key)
    ensures x in key && Within(u + w, key)
    ensures Keys(op, u + [x] + w, key) == KeyOf(op, x, key) + Keys(op, u + w, key)
  {
    var s := u + [x] + w;
    assert s == u + ([x] + w) && s[|u|] == x;
    assert forall i :: 0 <= i < |u| ==> u[i] == s[i];
    assert forall i :: 0 <= i < |w| ==> w[i] == s[|u| + 1 + i];
    KeysCons(op, x, w, key);
    KeysConcat(op, u, [x] + w, key);
    KeysConcat(op, u, w, key);
  }

  lemma {:induction false} KeysReordered<K>(op: Op, s: seq<Expr>, t: seq<Expr>, key: map<Expr, K>)
    requires Within(s, key) && Within(t, key) && multiset(s) == multiset(t)
    ensures Keys(op, s, key) == Keys(op, t, key)
    decreases s
  {
    if s == [] {
      assert |t| == |multiset(t)| == |multiset(s)|;
    } else {
      var h, r := s[0], s[1..];
      assert s == [h] + r;
      assert multiset(s) == multiset(r) + multiset{h};
      var u, w := PullOut(t, h);
      Cancel(multiset(r), multiset(u + w), h);
      KeysPulled(op, u, h, w, key);
      KeysReordered(op, r, u + w, key);
    }
  }

  /** Among the operands that count, the test is symmetric and transitive. */
  ghost predicate Equivalence(op: Op, ops: multiset<Expr>) {
    (forall x, y :: x in ops && y in ops && Live(op, x) && Live(op, y) && ExprEq(x, y) ==> ExprEq(y, x)) &&
    forall x, y, z :: x in ops && y in ops && z in ops ==>
                        Live(op, x) && Live(op, y) && Live(op, z) && ExprEq(x, y) && ExprEq(y, z) ==> ExprEq(x, z)
  }

  lemma ClassesKeyed(op: Op, ops: multiset<Expr>, key: map<Expr, set<Expr>>)
    requires Equivalence(op, ops) && forall x :: x in key <==> x in ops || x == Sym(Unit(op))
    requires forall x :: x in key ==> key[x] == set y | y in ops && Live(op, y) && ExprEq(x, y)
    ensures Keyed(op, key)
  {
    forall x, y | x in key && y in key && Live(op, x) && Live(op, y) ensures ExprEq(x, y) <==> key[x] == key[y] {
      Reflexive(x);
      Reflexive(y);
      assert y in key[y];
    }
  }

  lemma EquivalenceAccepts(op: Op, a: seq<Expr>, b: seq<Expr>)
    requires multiset(a) == multiset(b) && Equivalence(op, multiset(a)) && Sym(Zero(op)) !in a
    ensures Accepted(op, a, b)
  {
    var ops := multiset(a);
    var u := (set x | x in a) + {Sym(Unit(op))};
    var key := map x | x in u :: set y | y in a && Live(op, y) && ExprEq(x, y);
    ClassesKeyed(op, ops, key);
    forall y | y in b ensures y in a { assert y in multiset(b); }
    KeysReordered(op, a, b, key);
    KeyedAccepted(op, a, b, key);
  }

  lemma MeetsEqual(op: Op, x: Expr, w: seq<Expr>, y: Expr, t: seq<Expr>)
    requires Constants(w) && ExprEq(x, y) && !IsYN(x)
    ensures var m := Meet(op, x, w + [y] + t);
            m.0 == Sym(Unit(op)) && m.1 == w + [Sym(Unit(op))] + t
  {
    ConstantsPassed(op, x, w);
    MeetConcat(op, x, w, [y]);
    MeetOne(op, x, y);
    MeetConcat(op, x, w + [y], t);
    ConstantPasses(op, Sym(Unit(op)), t);
  }

  lemma MeetsNone(op: Op, x: Expr, w: seq<Expr>, y: Expr)
    requires Constants(w) && !ExprEq(x, y)
    ensures var m := Meet(op, x, w + [y]);
            m.0 == x && m.1 == w + [y]
  {
    ConstantsPassed(op, x, w);
    MeetConcat(op, x, w, [y]);
    MeetOne(op, x, y);
  }

  /** Operands that come first on both sides, in the same order, change nothing. */
  lemma AfterCommon(op: Op, c: seq<Expr>, a: seq<Expr>, b: seq<Expr>)
    requires Sym(Zero(op)) !in c
    ensures var w := Wiped(op, c);
            Constants(w) && Sym(Zero(op)) !in w && (Accepted(op, c + a, c + b) <==> Accepted(op, a, w + b))
  {
    var w := Wiped(op, c);
    forall x | x in c ensures ExprEq(x, x) { Reflexive(x); }
    MeetInOrder(op, c, [], b);
    assert [] + c + b == c + b && [] + w + b == w + b;
    MeetAllConcat(op, c, a, c + b);
    LeftOfConstants(op, w);
    LeftConcat(op, w, MeetAll(op, a, w + b).0);
  }

  lemma LeftLast(op: Op, w: seq<Expr>, x: Expr)
    requires Constants(w) && Sym(Zero(op)) !in w
    ensures Left(op, w + [x]) == Weigh(op, EliminateYn(x))
  {
    LeftConcat(op, w, [x]);
    LeftOfConstants(op, w);
    assert [x][1..] == [];
  }

  /** Two operands that count, equal to a third or to each other one way, and left unmatched. */
  lemma Unmatched(op: Op, x: Expr, y: Expr, z: Expr)
    requires !IsOp(x, op) && Live(op, x) && ExprEq(x, y) && (y == z || ExprEq(y, z)) && !ExprEq(z, x)
    ensures !(Weigh(op, EliminateYn(z)) == Weigh(op, EliminateYn(x)) != Several)
  {
    Reflexive(x);
    WeighSame(op, EliminateYn(z), EliminateYn(x));
    if EliminateYn(z).Sym? && EliminateYn(z) == EliminateYn(x) {
      if x.Bin? {
        Collapsing(x.op, z, x);
      }
    }
  }

  lemma MeetAllCons(op: Op, h: Expr, t: seq<Expr>, b: seq<Expr>)
    ensures var p, m := Meet(op, h, b), MeetAll(op, [h] + t, b);
            var n := MeetAll(op, t, p.1);
            m.0 == [p.0] + n.0 && m.1 == n.1
  {
    assert ([h] + t)[1..] == t;
  }

  lemma MeetAllOne(op: Op, h: Expr, b: seq<Expr>)
    ensures var p, m := Meet(op, h, b), MeetAll(op, [h], b);
            m.0 == [p.0] && m.1 == p.1
  {
    assert [h][1..] == [];
  }

  /** The first operand meets an equal one behind constants. */
  lemma Peel(op: Op, x: Expr, a: seq<Expr>, w: seq<Expr>, y: Expr, b: seq<Expr>, s: seq<Expr>, t: seq<Expr>)
    requires Constants(w) && ExprEq(x, y) && !IsYN(x) && s == [x] + a && t == [y] + b
    ensures Accepted(op, s, w + t) <==> Accepted(op, a, w + [Sym(Unit(op))] + b)
  {
    assert w + ([y] + b) == w + [y] + b;
    MeetAllCons(op, x, a, w + [y] + b);
    MeetsEqual(op, x, w, y, b);
    var n := MeetAll(op, a, w + [Sym(Unit(op))] + b);
    assert ([Sym(Unit(op))] + n.0)[1..] == n.0;
  }

  /** The last operands are left on both sides. */
  lemma LastLeft(op: Op, x: Expr, w: seq<Expr>, y: Expr, a: seq<Expr>, b: seq<Expr>)
    requires Constants(w) && Sym(Zero(op)) !in w && !ExprEq(x, y) && a == [x] && b == w + [y]
    ensures Accepted(op, a, b) <==> Weigh(op, EliminateYn(x)) == Weigh(op, EliminateYn(y)) != Several
  {
    MeetAllOne(op, x, w + [y]);
    MeetsNone(op, x, w, y);
    LeftLast(op, [], x);
    LeftLast(op, w, y);
    assert [] + [x] == [x];
  }

  /** Two operands, the first of which meets the other, and one that is left on each side. */
  lemma MeetsOther(op: Op, w: seq<Expr>, x: Expr, y: Expr, z: Expr, a: seq<Expr>, b: seq<Expr>)
    requires Constants(w) && Sym(Zero(op)) !in w && ExprEq(y, z) && !IsYN(y) && !ExprEq(z, x)
    requires !(Weigh(op, EliminateYn(z)) == Weigh(op, EliminateYn(x)) != Several)
    requires a == [y] + [z] && b == [z] + [x]
    ensures !Accepted(op, a, w + b)
  {
    var w', a', b' := w + [Sym(Unit(op))], [z], [x];
    Peel(op, y, a', w, z, b', a, b);
    LastLeft(op, z, w', x, a', w' + b');
  }

  /** If y does not equal x back, putting them in the other order is refused. */
  lemma SwapRefused(op: Op, c: seq<Expr>, x: Expr, y: Expr, a: seq<Expr>, b: seq<Expr>)
    requires !IsOp(x, op) && Live(op, x) && ExprEq(x, y) && !ExprEq(y, x) && Sym(Zero(op)) !in c
    requires a == [x] + [y] && b == [y] + [x]
    ensures !Accepted(op, c + a, c + b)
  {
    AfterCommon(op, c, a, b);
    Unmatched(op, x, y, y);
    MeetsOther(op, Wiped(op, c), x, x, y, a, b);
  }

  /** If z does not equal x although both equal y, turning the three round is refused. */
  lemma TurnRefused(op: Op, c: seq<Expr>, x: Expr, y: Expr, z: Expr, a: seq<Expr>, b: seq<Expr>, s: seq<Expr>, t: seq<Expr>)
    requires !IsOp(x, op) && Live(op, x) && Live(op, y) && Sym(Zero(op)) !in c
    requires ExprEq(x, y) && ExprEq(y, z) && !ExprEq(z, x)
    requires a == [y] + [z] && b == [z] + [x] && s == [x] + a && t == [y] + b
    ensures !Accepted(op, c + s, c + t)
  {
    AfterCommon(op, c, s, t);
    Peel(op, x, a, Wiped(op, c), y, b, s, t);
    Unmatched(op, x, y, z);
    MeetsOther(op, Wiped(op, c) + [Sym(Unit(op))], x, y, z, a, b);
  }

  /** The operands one after the other. */
  function Comb(op: Op, s: seq<Expr>): Expr
    requires s != []
  {
    if |s| == 1 then s[0] else Bin(op, s[0], Comb(op, s[1..]))
  }

  lemma {:induction false} FlatComb(op: Op, s: seq<Expr>)
    requires s != [] && forall x :: x in s ==> !IsOp(x, op)
    ensures Flat(op, Comb(op, s)) == s
  {
    if |s| > 1 { FlatComb(op, s[1..]); }
  }

  /** Any two expressions with these operands, in whatever order and grouping, are found equal. */
  ghost predicate AnyOrder(op: Op, ops: multiset<Expr>) {
    forall e1, e2 :: IsOp(e1, op) && IsOp(e2, op) && multiset(Flat(op, e1)) == ops && multiset(Flat(op, e2)) == ops ==>
                       ExprEq(e1, e2)
  }

  lemma AnyOrderAccepts(op: Op, a: seq<Expr>, b: seq<Expr>)
    requires AnyOrder(op, multiset(a)) && multiset(a) == multiset(b) && |a| >= 2 && forall x :: x in a ==> !IsOp(x, op)
    ensures Accepted(op, a, b)
  {
    assert |b| == |multiset(b)| == |multiset(a)| == |a|;
    forall x | x in b ensures x in a { assert x in multiset(b); }
    FlatComb(op, a);
    FlatComb(op, b);
    EqOfTrees(op, Comb(op, a), Comb(op, b));
  }

  lemma {:induction false} Listed(ops: multiset<Expr>) returns (s: seq<Expr>)
    ensures multiset(s) == ops
    decreases |ops|
  {
    s := [];
    if ops != multiset{} {
      var x :| x in ops;
      s := Listed(ops - multiset{x});
      s := s + [x];
    }
  }

  /** The other operands, with a, or the same in another order, behind them. */
  lemma Others(ops: multiset<Expr>, a: seq<Expr>, b: seq<Expr>) returns (c: seq<Expr>)
    requires multiset(a) == multiset(b) <= ops
    ensures multiset(c + a) == ops == multiset(c + b)
    ensures forall e :: e in c || e in c + a ==> e in ops
  {
    c := Listed(ops - multiset(a));
    forall e | e in c || e in c + a ensures e in ops {
      assert e in c + a;
      assert e in multiset(c + a);
    }
  }

  lemma Refutes(op: Op, ops: multiset<Expr>, c: seq<Expr>, a: seq<Expr>, b: seq<Expr>)
    requires (forall e :: e in ops ==> !IsOp(e, op)) && |a| >= 2
    requires multiset(c + a) == ops == multiset(c + b) && !Accepted(op, c + a, c + b)
    ensures !AnyOrder(op, ops)
  {
    forall e | e in c + a ensures !IsOp(e, op) { assert e in multiset(c + a); }
    if AnyOrder(op, ops) { AnyOrderAccepts(op, c + a, c + b); }
  }

  lemma SwapRefutes(op: Op, ops: multiset<Expr>, x: Expr, y: Expr)
    requires (forall e :: e in ops ==> !IsOp(e, op)) && Sym(Zero(op)) !in ops
    requires multiset{x, y} <= ops && Live(op, x) && ExprEq(x, y) && !ExprEq(y, x)
    ensures !AnyOrder(op, ops)
  {
    var a, b := [x] + [y], [y] + [x];
    assert multiset(a) == multiset{x, y} == multiset(b);
    var c := Others(ops, a, b);
    SwapRefused(op, c, x, y, a, b);
    Refutes(op, ops, c, a, b);
  }

  lemma Turned(x: Expr, y: Expr, z: Expr, a: seq<Expr>, b: seq<Expr>)
    requires a == [y] + [z] && b == [z] + [x]
    ensures multiset([x] + a) == multiset{x, y, z} == multiset([y] + b)
  {}

  lemma TurnRefutes(op: Op, ops: multiset<Expr>, x: Expr, y: Expr, z: Expr, a: seq<Expr>, b: seq<Expr>)
    requires (forall e :: e in ops ==> !IsOp(e, op)) && Sym(Zero(op)) !in ops
    requires multiset{x, y, z} <= ops && Live(op, x) && Live(op, y) && ExprEq(x, y) && ExprEq(y, z) && !ExprEq(z, x)
    requires a == [y] + [z] && b == [z] + [x]
    ensures !AnyOrder(op, ops)
  {
    Turned(x, y, z, a, b);
    var c := Others(ops, [x] + a, [y] + b);
    TurnRefused(op, c, x, y, z, a, b, [x] + a, [y] + b);
    Refutes(op, ops, c, [x] + a, [y] + b);
  }

  lemma SymmetryNeeded(op: Op, ops: multiset<Expr>, x: Expr, y: Expr)
    requires AnyOrder(op, ops) && (forall e :: e in ops ==> !IsOp(e, op)) && Sym(Zero(op)) !in ops
    requires x in ops && y in ops && Live(op, x) && ExprEq(x, y)
    ensures ExprEq(y, x)
  {
    if x != y && !ExprEq(y, x) { SwapRefutes(op, ops, x, y); }
  }

  lemma TransitivityNeeded(op: Op, ops: multiset<Expr>, x: Expr, y: Expr, z: Expr)
    requires AnyOrder(op, ops) && (forall e :: e in ops ==> !IsOp(e, op)) && Sym(Zero(op)) !in ops
    requires x in ops && y in ops && z in ops && Live(op, x) && Live(op, y) && Live(op, z)
    requires ExprEq(x, y) && ExprEq(y, z)
    ensures ExprEq(x, z)
  {
    Reflexive(x);
    if x != y && y != z && x != z {
      if !ExprEq(z, x) { TurnRefutes(op, ops, x, y, z, [y] + [z], [z] + [x]); }
      SymmetryNeeded(op, ops, z, x);
    }
  }

  /** All orders and groupings of the operands are found equal, exactly when a deciding constant is among
      them or the test is symmetric and transitive on those that count. */
  lemma AnyOrderExact(op: Op, ops: multiset<Expr>)
    requires forall e :: e in ops ==> !IsOp(e, op)
    ensures AnyOrder(op, ops) <==> Sym(Zero(op)) in ops || Equivalence(op, ops)
  {
    if AnyOrder(op, ops) && Sym(Zero(op)) !in ops {
      forall x, y | x in ops && y in ops && Live(op, x) && Live(op, y) && ExprEq(x, y) ensures ExprEq(y, x) {
        SymmetryNeeded(op, ops, x, y);
      }
      forall x, y, z | x in ops && y in ops && z in ops && Live(op, x) && Live(op, y) && Live(op, z) &&
                       ExprEq(x, y) && ExprEq(y, z)
        ensures ExprEq(x, z)
      {
        TransitivityNeeded(op, ops, x, y, z);
      }
    }
    if Sym(Zero(op)) in ops || Equivalence(op, ops) {
      forall e1, e2 | IsOp(e1, op) && IsOp(e2, op) && multiset(Flat(op, e1)) == ops && multiset(Flat(op, e2)) == ops
        ensures ExprEq(e1, e2)
      {
        EqOfTrees(op, e1, e2);
        if Sym(Zero(op)) in ops {
          DecidedAccepted(op, Flat(op, e1), Flat(op, e2));
        } else {
          EquivalenceAccepts(op, Flat(op, e1), Flat(op, e2));
        }
      }
    }
  }

  lemma FlatThree(op: Op, x: Expr, y: Expr, z: Expr, a: seq<Expr>, e: Expr)
    requires !IsOp(x, op) && !IsOp(y, op) && !IsOp(z, op) && a == [y] + [z] && e == Bin(op, x, Bin(op, y, z))
    ensures Flat(op, e) == [x] + a == [] + ([x] + a)
  {
    assert Flat(op, e.right) == Flat(op, y) + Flat(op, z);
  }

  lemma TurnedTrees(op: Op, x: Expr, y: Expr, z: Expr, a: seq<Expr>, b: seq<Expr>, e1: Expr, e2: Expr)
    requires !IsOp(x, op) && !IsOp(y, op) && !IsOp(z, op) && Live(op, x) && Live(op, y)
    requires ExprEq(x, y) && ExprEq(y, z) && !ExprEq(z, x) && a == [y] + [z] && b == [z] + [x]
    requires e1 == Bin(op, x, Bin(op, y, z)) && e2 == Bin(op, y, Bin(op, z, x))
    ensures multiset(Flat(op, e1)) == multiset(Flat(op, e2)) && !ExprEq(e1, e2)
  {
    TurnRefused(op, [], x, y, z, a, b, [x] + a, [y] + b);
    Turned(x, y, z, a, b);
    FlatThree(op, x, y, z, a, e1);
    FlatThree(op, y, z, x, b, e2);
    EqOfTrees(op, e1, e2);
  }

  lemma OperandAgainst(op: Op, x: Expr, l: Expr, r: Expr)
    requires !IsOp(x, op) && !IsOp(l, op) && !IsOp(r, op)
    ensures var a := Pair(op, x, l);
            var b := Pair(op, a.0, r);
            EliminateOperands(op, x, Bin(op, l, r)) == (b.0, Bin(op, a.1, b.1))
  {
    assert EliminateOperands(op, x, l) == Pair(op, x, l);
    assert EliminateOperands(op, Pair(op, x, l).0, r) == Pair(op, Pair(op, x, l).0, r);
  }

  lemma NotTransitive(s: Symbol, x: Expr, p: Expr, q: Expr, r: Expr)
    requires s.Config? && x == Bin(Or, Sym(s), Sym(No))
    requires p == Bin(And, Sym(s), Sym(s)) && q == Bin(And, x, Sym(s)) && r == Bin(And, x, x)
    ensures ExprEq(p, q) && ExprEq(q, r) && !ExprEq(r, p) && Live(Or, p) && Live(Or, q)
  {
    var e, y := Sym(s), Sym(Yes);
    Reflexive(x);
    assert ExprEq(e, e) && !ExprEq(e, x) && !ExprEq(x, e) && !ExprEq(e, y);
    assert EliminateYn(x) == e && EliminateYn(p) == p && EliminateYn(q) == p && EliminateYn(r) == p;
    assert EliminateYn(Bin(And, y, e)) == e && EliminateYn(Bin(And, x, y)) == e && EliminateYn(Bin(And, y, x)) == e;
    EqByReduction(And, p, q);
    OperandAgainst(And, e, x, e);
    OperandAgainst(And, e, x, y);
    assert EliminateOperands(And, p, q) == (Bin(And, y, e), Bin(And, x, y));
    EqByReduction(And, q, r);
    OperandAgainst(And, x, x, x);
    OperandAgainst(And, e, y, x);
    assert EliminateOperands(And, q, r) == (Bin(And, y, e), Bin(And, y, x));
    EqByReduction(And, r, p);
    OperandAgainst(And, x, e, e);
    assert EliminateOperands(And, r, p) == (r, p);
  }

  /** With x for s||n, the three operands s&&s, x&&s and x&&x are such that the first and the last equal the
      second but not each other; turned round, the same operands are not found equal. */
  lemma OrderMatters(s: Symbol)
    requires s.Config?
    ensures var x := Bin(Or, Sym(s), Sym(No));
            var p, q, r := Bin(And, Sym(s), Sym(s)), Bin(And, x, Sym(s)), Bin(And, x, x);
            var e1, e2 := Bin(Or, p, Bin(Or, q, r)), Bin(Or, q, Bin(Or, r, p));
            multiset(Flat(Or, e1)) == multiset(Flat(Or, e2)) && !ExprEq(e1, e2)
  {
    var x := Bin(Or, Sym(s), Sym(No));
    var p, q, r := Bin(And, Sym(s), Sym(s)), Bin(And, x, Sym(s)), Bin(And, x, x);
    NotTransitive(s, x, p, q, r);
    TurnedTrees(Or, p, q, r, [q] + [r], [r] + [p], Bin(Or, p, Bin(Or, q, r)), Bin(Or, q, Bin(Or, r, p)));
  }

  // ----- expressions up to order and grouping -----

  datatype Canon =
    | CSym(sym: Symbol)
    | CNot(arg: Canon)
    | COp(op: Op, operands: multiset<Canon>)
    | CCompare(equal: bool, lhs: Symbol, rhs: Symbol)

  ghost function Canonical(e: Expr): Canon
    decreases e, 0
  {
    match e
    case Sym(s) => CSym(s)
    case Not(x) => CNot(Canonical(x))
    case Bin(op, l, r) => COp(op, Operands(op, l) + Operands(op, r))
    case Compare(q, a, b) => CCompare(q, a, b)
  }

  /** The operands that are not y or n, in no order. */
  ghost function Operands(op: Op, e: Expr): multiset<Canon>
    decreases e, 1
  {
    if IsOp(e, op) then Operands(op, e.left) + Operands(op, e.right)
    else if IsYN(e) then multiset{}
    else multiset{Canonical(e)}
  }

  /** No y or n stands under an operation. */
  predicate Plain(e: Expr) {
    match e
    case Bin(_, l, r) => !IsYN(l) && !IsYN(r) && Plain(l) && Plain(r)
    case Not(x) => Plain(x)
    case _ => true
  }

  /** No y or n stands under an operation, except among the operands of this one. */
  ghost predicate Tame(op: Op, e: Expr) { forall x :: x in Flat(op, e) ==> Plain(x) }

  /** Both are decided by a constant, or they have the same operands, constants aside. */
  ghost predicate Alike(op: Op, e1: Expr, e2: Expr) {
    var z := Sym(Zero(op));
    (z in Flat(op, e1) <==> z in Flat(op, e2)) && (z in Flat(op, e1) || Operands(op, e1) == Operands(op, e2))
  }

  lemma {:induction false} PlainStays(e: Expr)
    requires Plain(e)
    ensures EliminateYn(e) == e
  {
    if e.Bin? {
      PlainStays(e.left);
      PlainStays(e.right);
    }
  }

  lemma {:induction false} PlainIsTame(op: Op, e: Expr)
    requires Plain(e)
    ensures Tame(op, e) && (!IsYN(e) ==> Sym(Zero(op)) !in Flat(op, e))
  {
    if IsOp(e, op) {
      PlainIsTame(op, e.left);
      PlainIsTame(op, e.right);
    }
  }

  ghost predicate ByForm(key: map<Expr, Canon>) { forall x :: x in key ==> Plain(x) && key[x] == Canonical(x) }

  lemma {:induction false} KeysAreOperands(op: Op, e: Expr, key: map<Expr, Canon>)
    requires ByForm(key) && Within(Flat(op, e), key)
    ensures Keys(op, Flat(op, e), key) == Operands(op, e)
  {
    var s := Flat(op, e);
    if IsOp(e, op) {
      var l, r := Flat(op, e.left), Flat(op, e.right);
      assert forall i :: 0 <= i < |l| ==> l[i] == s[i];
      assert forall i :: 0 <= i < |r| ==> r[i] == s[|l| + i];
      KeysAreOperands(op, e.left, key);
      KeysAreOperands(op, e.right, key);
      KeysConcat(op, l, r, key);
    } else {
      assert e == s[0];
      PlainStays(e);
      KeysCons(op, e, [], key);
    }
  }

  ghost predicate Tells(w: Rest, k: multiset<Canon>) {
    w != Deciding && (w == Nothing <==> k == multiset{}) && (w.Single? ==> k == multiset{CSym(w.sym)})
  }

  lemma PlainOne(op: Op, x: Expr, key: map<Expr, Canon>)
    requires ByForm(key) && x in key && x != Sym(Zero(op))
    ensures Tells(Weigh(op, EliminateYn(x)), KeyOf(op, x, key))
  {
    PlainStays(x);
    assert multiset{Canonical(x)} != multiset{};
  }

  lemma PlusForms(w: Rest, v: Rest, k: multiset<Canon>, l: multiset<Canon>)
    requires Tells(w, k) && Tells(v, l)
    ensures Tells(Plus(w, v), k + l)
  {
    assert |k + l| == |k| + |l|;
  }

  /** What plain operands leave behind tells which they are, as far as it is a symbol. */
  lemma {:induction false} PlainLeft(op: Op, s: seq<Expr>, key: map<Expr, Canon>)
    requires ByForm(key) && Within(s, key) && Sym(Zero(op)) !in s
    ensures Tells(Left(op, s), Keys(op, s, key))
  {
    if s != [] {
      PlainOne(op, s[0], key);
      PlainLeft(op, s[1..], key);
      PlusForms(Weigh(op, EliminateYn(s[0])), Left(op, s[1..]), KeyOf(op, s[0], key), Keys(op, s[1..], key));
    }
  }

  lemma FormsMatch(op: Op, a: seq<Expr>, b: seq<Expr>, key: map<Expr, Canon>)
    requires Keyed(op, key) && ByForm(key) && Within(a, key) && Within(b, key)
    requires Sym(Zero(op)) !in a && Sym(Zero(op)) !in b && Accepted(op, a, b)
    ensures Keys(op, a, key) == Keys(op, b, key)
  {
    var r := MeetAll(op, a, b);
    var c := MeetAllKeys(op, a, b, key);
    MeetAllKeepsZero(op, a, b);
    PlainLeft(op, r.0, key);
    PlainLeft(op, r.1, key);
  }

  lemma OneDecided(op: Op, a: seq<Expr>, b: seq<Expr>, key: map<Expr, Canon>)
    requires Keyed(op, key) && ByForm(key) && Within(a, key) && Within(b, key)
    requires Sym(Zero(op)) in a <==> Sym(Zero(op)) !in b
    ensures !Accepted(op, a, b)
  {
    var r := MeetAll(op, a, b);
    var c := MeetAllKeys(op, a, b, key);
    MeetAllKeepsZero(op, a, b);
    if Sym(Zero(op)) in a {
      LeftWithZero(op, r.0);
      PlainLeft(op, r.1, key);
    } else {
      LeftWithZero(op, r.1);
      PlainLeft(op, r.0, key);
    }
  }

  lemma {:induction false} FormsKeyed(op: Op, e1: Expr, e2: Expr) returns (key: map<Expr, Canon>)
    requires IsOp(e1, op) && IsOp(e2, op) && Tame(op, e1) && Tame(op, e2)
    ensures Keyed(op, key) && ByForm(key) && Within(Flat(op, e1), key) && Within(Flat(op, e2), key)
    decreases Larger(e1, e2), 0
  {
    var u := Both(op, e1, e2);
    key := map x | x in u :: Canonical(x);
    FlatSmaller(op, e1);
    FlatSmaller(op, e2);
    forall x, y | x in u && y in u && Live(op, x) && Live(op, y) ensures ExprEq(x, y) <==> key[x] == key[y] {
      PlainExact(x, y);
    }
  }

  /** Where constants stand only among the operands of the two operations themselves, the test accepts
      exactly the expressions with the same operands, whatever their order and grouping. */
  lemma {:induction false} TameExact(op: Op, e1: Expr, e2: Expr)
    requires IsOp(e1, op) && IsOp(e2, op) && Tame(op, e1) && Tame(op, e2)
    ensures ExprEq(e1, e2) <==> Alike(op, e1, e2)
    decreases Larger(e1, e2), 1
  {
    var a, b, z := Flat(op, e1), Flat(op, e2), Sym(Zero(op));
    var key := FormsKeyed(op, e1, e2);
    EqOfTrees(op, e1, e2);
    KeysAreOperands(op, e1, key);
    KeysAreOperands(op, e2, key);
    if z in a && z in b {
      DecidedAccepted(op, a, b);
    } else if z in a || z in b {
      OneDecided(op, a, b, key);
    } else if Keys(op, a, key) == Keys(op, b, key) {
      KeyedAccepted(op, a, b, key);
    } else if Accepted(op, a, b) {
      FormsMatch(op, a, b, key);
    }
  }

  /** Where no constant stands under any operation, the test decides equality up to order and grouping. */
  lemma {:induction false} PlainExact(e1: Expr, e2: Expr)
    requires Plain(e1) && Plain(e2)
    ensures ExprEq(e1, e2) <==> Canonical(e1) == Canonical(e2)
    decreases Larger(e1, e2), 2
  {
    match (e1, e2)
    case (Not(x1), Not(x2)) => PlainExact(x1, x2);
    case (Bin(op1, _, _), Bin(op2, _, _)) =>
      if op1 == op2 {
        PlainIsTame(op1, e1);
        PlainIsTame(op1, e2);
        TameExact(op1, e1, e2);
      }
    case _ =>
  }

  /** So operands without constants inside may stand in any order. */
  lemma TameAnyOrder(op: Op, ops: multiset<Expr>)
    requires forall x :: x in ops ==> Plain(x) && !IsOp(x, op)
    ensures AnyOrder(op, ops)
  {
    forall x, y | x in ops && y in ops ensures ExprEq(x, y) <==> Canonical(x) == Canonical(y) { PlainExact(x, y); }
    AnyOrderExact(op, ops);
  }
}
