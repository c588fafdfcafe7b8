/** The process table: parent, child and sibling links under fork, exit and wait. */
module ProcTree {
  import opened Options

  type Id = nat

  datatype RunState = Runnable | Sleeping | Zombie

  /** What a process asleep in do_wait waits for. */
  datatype Wait = NotWaiting | AnyChild | Child(id: Id)

  datatype Proc = Proc(parent: Id, cptr: Option<Id>, optr: Option<Id>, yptr: Option<Id>, state: RunState, wait: Wait)

  type Procs = map<Id, Proc>

  /** The children of every process, youngest first. */
  type Kids = map<Id, seq<Id>>

  function First(s: seq<Id>): Option<Id> { if s == [] then None else Some(s[0]) }

  function Older(s: seq<Id>, i: nat): Option<Id> { if i + 1 < |s| then Some(s[i + 1]) else None }

  ghost predicate NoDup(s: seq<Id>) { forall i, j :: 0 <= i < j < |s| ==> s[i] != s[j] }

  /** The i-th child of p has p as parent and points to its neighbours. While the children of loose
      are being moved away, the first of them may point to one that is gone. */
  ghost predicate KidAt(procs: Procs, kids: Kids, loose: Option<Id>, p: Id, i: nat)
    requires p in kids && i < |kids[p]|
  {
    var c := kids[p][i];
    c in procs && c != p && procs[c].parent == p && procs[c].optr == Older(kids[p], i) &&
    (i > 0 ==> procs[c].yptr == Some(kids[p][i - 1])) && (i == 0 && loose != Some(p) ==> procs[c].yptr == None)
  }

  ghost predicate Chain(procs: Procs, kids: Kids, loose: Option<Id>, p: Id)
    requires p in procs && p in kids
  {
    procs[p].cptr == First(kids[p]) && NoDup(kids[p]) &&
    forall i {:trigger KidAt(procs, kids, loose, p, i)} :: 0 <= i < |kids[p]| ==> KidAt(procs, kids, loose, p, i)
  }

  /** Every process but the root, and but the one adrift, is listed by its parent. */
  ghost predicate Placed(procs: Procs, kids: Kids, root: Id, adrift: Option<Id>, c: Id)
    requires c in procs
  {
    if c == root || adrift == Some(c) then forall p :: p in kids ==> c !in kids[p]
    else procs[c].parent in kids && c in kids[procs[c].parent]
  }

  ghost predicate Linked(procs: Procs, kids: Kids, loose: Option<Id>, root: Id, adrift: Option<Id>) {
    kids.Keys == procs.Keys &&
    (forall p {:trigger Chain(procs, kids, loose, p)} :: p in procs ==> Chain(procs, kids, loose, p)) &&
    (forall c {:trigger Placed(procs, kids, root, adrift, c)} :: c in procs ==> Placed(procs, kids, root, adrift, c))
  }

  // ----- linking a child in front -----

  function Fronted(procs: Procs, c: Id, p: Id): Procs
    requires c in procs && p in procs && (procs[p].cptr.Some? ==> procs[p].cptr.value in procs)
  {
    var was := procs[p].cptr;
    var a := procs[c := procs[c].(optr := was, yptr := None, parent := p)];
    var b := if was.Some? then a[was.value := a[was.value].(yptr := Some(c))] else a;
    b[p := b[p].(cptr := Some(c))]
  }

  /** What linking changes, process by process. */
  lemma FrontedAt(procs: Procs, c: Id, p: Id, x: Id)
    requires c in procs && p in procs && x in procs && c != p
    requires procs[p].cptr.Some? ==> procs[p].cptr.value in procs && procs[p].cptr.value != c && procs[p].cptr.value != p
    ensures x in Fronted(procs, c, p)
    ensures Fronted(procs, c, p)[x] ==
            if x == c then procs[c].(optr := procs[p].cptr, yptr := None, parent := p)
            else if x == p then procs[p].(cptr := Some(c))
            else if Some(x) == procs[p].cptr then procs[x].(yptr := Some(c)) else procs[x]
  {}

  lemma FrontedKid(procs: Procs, kids: Kids, loose: Option<Id>, root: Id, c: Id, p: Id, q: Id, i: nat)
    requires Linked(procs, kids, loose, root, Some(c)) && p in procs && c in procs && p != c && loose != Some(p)
    requires q in procs && i < |kids[q := if q == p then [c] + kids[p] else kids[q]][q]|
    ensures procs[p].cptr.Some? ==> procs[p].cptr.value in procs
    ensures KidAt(Fronted(procs, c, p), kids[p := [c] + kids[p]], loose, q, i)
  {
    assert Chain(procs, kids, loose, p) && Chain(procs, kids, loose, q) && Placed(procs, kids, root, Some(c), c);
    assert kids[p] != [] ==> KidAt(procs, kids, loose, p, 0);
    if q == p {
      if i == 0 {
        FrontedAt(procs, c, p, c);
      } else {
        assert KidAt(procs, kids, loose, p, i - 1);
        FrontedAt(procs, c, p, kids[p][i - 1]);
      }
    } else {
      assert KidAt(procs, kids, loose, q, i);
      FrontedAt(procs, c, p, kids[q][i]);
    }
  }

  lemma FrontedChain(procs: Procs, kids: Kids, loose: Option<Id>, root: Id, c: Id, p: Id, q: Id)
    requires Linked(procs, kids, loose, root, Some(c)) && p in procs && c in procs && p != c && loose != Some(p)
    requires q in procs
    ensures procs[p].cptr.Some? ==> procs[p].cptr.value in procs
    ensures q in Fronted(procs, c, p) && Chain(Fronted(procs, c, p), kids[p := [c] + kids[p]], loose, q)
  {
    assert Chain(procs, kids, loose, p) && Chain(procs, kids, loose, q) && Placed(procs, kids, root, Some(c), c);
    assert kids[p] != [] ==> KidAt(procs, kids, loose, p, 0);
    assert c !in kids[p];
    FrontedAt(procs, c, p, q);
    var procs', kids' := Fronted(procs, c, p), kids[p := [c] + kids[p]];
    forall i | 0 <= i < |kids'[q]| ensures KidAt(procs', kids', loose, q, i) {
      FrontedKid(procs, kids, loose, root, c, p, q, i);
    }
  }

  lemma FrontedPlaced(procs: Procs, kids: Kids, loose: Option<Id>, root: Id, c: Id, p: Id, x: Id)
    requires Linked(procs, kids, loose, root, Some(c)) && p in procs && c in procs && p != c && c != root && x in procs
    ensures procs[p].cptr.Some? ==> procs[p].cptr.value in procs
    ensures x in Fronted(procs, c, p) && Placed(Fronted(procs, c, p), kids[p := [c] + kids[p]], root, None, x)
  {
    assert Chain(procs, kids, loose, p) && Placed(procs, kids, root, Some(c), c) && Placed(procs, kids, root, Some(c), x);
    assert kids[p] != [] ==> KidAt(procs, kids, loose, p, 0);
    FrontedAt(procs, c, p, x);
  }

  /** A process adrift, linked in front of the children of p, leaves all chains right. */
  lemma FrontedLinked(procs: Procs, kids: Kids, loose: Option<Id>, root: Id, c: Id, p: Id)
    requires Linked(procs, kids, loose, root, Some(c)) && p in procs && c in procs && p != c && loose != Some(p) && c != root
    ensures procs[p].cptr.Some? ==> procs[p].cptr.value in procs
    ensures Linked(Fronted(procs, c, p), kids[p := [c] + kids[p]], loose, root, None)
  {
    FrontedChain(procs, kids, loose, root, c, p, p);
    var procs', kids' := Fronted(procs, c, p), kids[p := [c] + kids[p]];
    forall q | q in procs'
      ensures Chain(procs', kids', loose, q)
      ensures Placed(procs', kids', root, None, q)
    {
      FrontedChain(procs, kids, loose, root, c, p, q);
      FrontedPlaced(procs, kids, loose, root, c, p, q);
    }
  }

  // ----- taking the first child away -----

  function HeadTaken(procs: Procs, p: Id): Procs
    requires p in procs && procs[p].cptr.Some? && procs[p].cptr.value in procs
  {
    procs[p := procs[p].(cptr := procs[procs[p].cptr.value].optr)]
  }

  lemma HeadTakenLinked(procs: Procs, kids: Kids, root: Id, p: Id)
    requires Linked(procs, kids, Some(p), root, None) && p in procs && kids[p] != []
    ensures procs[p].cptr == Some(kids[p][0]) && kids[p][0] in procs && kids[p][0] != p && kids[p][0] != root
    ensures Linked(HeadTaken(procs, p), kids[p := kids[p][1..]], Some(p), root, Some(kids[p][0]))
  {
    assert Chain(procs, kids, Some(p), p) && KidAt(procs, kids, Some(p), p, 0);
    var h := kids[p][0];
    assert Placed(procs, kids, root, None, h);
    var procs', kids', loose := HeadTaken(procs, p), kids[p := kids[p][1..]], Some(p);
    forall q | q in procs' ensures Chain(procs', kids', loose, q) {
      assert Chain(procs, kids, loose, q);
      forall i | 0 <= i < |kids'[q]| ensures KidAt(procs', kids', loose, q, i) {
        assert KidAt(procs, kids, loose, q, if q == p then i + 1 else i);
      }
    }
    var adrift := Some(h);
    forall x | x in procs' ensures Placed(procs', kids', root, adrift, x) {
      assert Placed(procs, kids, root, None, x);
      HeadOnlyThere(procs, kids, root, p, x);
    }
  }

  /** A process is listed by its own parent only. */
  lemma HeadOnlyThere(procs: Procs, kids: Kids, root: Id, p: Id, x: Id)
    requires Linked(procs, kids, Some(p), root, None) && p in procs && kids[p] != [] && x in procs
    ensures forall q :: q in kids && x in kids[q] ==> q == procs[x].parent
    ensures x == kids[p][0] ==> x !in kids[p][1..]
  {
    assert Chain(procs, kids, Some(p), p);
    forall q | q in kids && x in kids[q] ensures q == procs[x].parent {
      assert Chain(procs, kids, Some(p), q);
      var i :| 0 <= i < |kids[q]| && kids[q][i] == x;
      assert KidAt(procs, kids, Some(p), q, i);
    }
  }

  // ----- unlinking a child anywhere -----

  function Unlinked(procs: Procs, c: Id): Procs
    requires c in procs && procs[c].parent in procs
    requires procs[c].optr.Some? ==> procs[c].optr.value in procs
    requires procs[c].yptr.Some? ==> procs[c].yptr.value in procs
  {
    var o, y := procs[c].optr, procs[c].yptr;
    var a := if o.Some? then procs[o.value := procs[o.value].(yptr := y)] else procs;
    if y.Some? then a[y.value := a[y.value].(optr := o)] else a[procs[c].parent := a[procs[c].parent].(cptr := o)]
  }

  function Cut(s: seq<Id>, i: nat): seq<Id>
    requires i < |s|
  {
    s[..i] + s[i + 1..]
  }

  lemma CutAt(s: seq<Id>, i: nat, k: nat)
    requires i < |s| && k < |s| - 1
    ensures Cut(s, i)[k] == s[if k < i then k else k + 1]
  {}

  /** The neighbours of the i-th child of p. */
  lemma Neighbours(procs: Procs, kids: Kids, root: Id, p: Id, i: nat)
    requires Linked(procs, kids, None, root, None) && p in procs && i < |kids[p]|
    ensures var c := kids[p][i];
            c in procs && c != p && c != root && procs[c].parent == p &&
            procs[c].optr == Older(kids[p], i) && procs[c].yptr == (if i == 0 then None else Some(kids[p][i - 1])) &&
            (i + 1 < |kids[p]| ==> kids[p][i + 1] in procs && kids[p][i + 1] != p) &&
            (i > 0 ==> kids[p][i - 1] in procs && kids[p][i - 1] != p) && procs[p].cptr == First(kids[p]) && NoDup(kids[p])
  {
    assert Chain(procs, kids, None, p) && KidAt(procs, kids, None, p, i);
    assert i + 1 < |kids[p]| ==> KidAt(procs, kids, None, p, i + 1);
    assert i > 0 ==> KidAt(procs, kids, None, p, i - 1);
    assert Placed(procs, kids, root, None, kids[p][i]);
    assert Placed(procs, kids, root, None, p);
  }

  /** What unlinking changes, process by process. */
  lemma UnlinkedAt(procs: Procs, kids: Kids, root: Id, p: Id, i: nat, x: Id)
    requires Linked(procs, kids, None, root, None) && p in procs && i < |kids[p]| && x in procs
    ensures var c := kids[p][i];
            c in procs && procs[c].parent in procs &&
            (procs[c].optr.Some? ==> procs[c].optr.value in procs) &&
            (procs[c].yptr.Some? ==> procs[c].yptr.value in procs) && x in Unlinked(procs, c) &&
            Unlinked(procs, c)[x] ==
            if i + 1 < |kids[p]| && x == kids[p][i + 1] then procs[x].(yptr := if i == 0 then None else Some(kids[p][i - 1]))
            else if i > 0 && x == kids[p][i - 1] then procs[x].(optr := Older(kids[p], i))
            else if i == 0 && x == p then procs[x].(cptr := Older(kids[p], 0)) else procs[x]
  {
    Neighbours(procs, kids, root, p, i);
  }

  lemma UnlinkedSibling(procs: Procs, kids: Kids, root: Id, p: Id, i: nat, k: nat)
    requires Linked(procs, kids, None, root, None) && p in procs && i < |kids[p]| && k < |kids[p]| - 1
    ensures kids[p][i] in procs && Unlinkable(procs, kids[p][i])
    ensures KidAt(Unlinked(procs, kids[p][i]), kids[p := Cut(kids[p], i)], None, p, k)
  {
    Neighbours(procs, kids, root, p, i);
    var j := if k < i then k else k + 1;
    Neighbours(procs, kids, root, p, j);
    UnlinkedAt(procs, kids, root, p, i, kids[p][j]);
    CutAt(kids[p], i, k);
    if k > 0 { CutAt(kids[p], i, k - 1); }
    if k + 1 < |kids[p]| - 1 { CutAt(kids[p], i, k + 1); }
  }

  lemma UnlinkedOther(procs: Procs, kids: Kids, root: Id, p: Id, i: nat, q: Id, k: nat)
    requires Linked(procs, kids, None, root, None) && p in procs && i < |kids[p]|
    requires q in procs && q != p && k < |kids[q]|
    ensures kids[p][i] in procs && Unlinkable(procs, kids[p][i])
    ensures KidAt(Unlinked(procs, kids[p][i]), kids[p := Cut(kids[p], i)], None, q, k)
  {
    Neighbours(procs, kids, root, p, i);
    Neighbours(procs, kids, root, q, k);
    assert Chain(procs, kids, None, p);
    assert i + 1 < |kids[p]| ==> KidAt(procs, kids, None, p, i + 1);
    assert i > 0 ==> KidAt(procs, kids, None, p, i - 1);
    UnlinkedAt(procs, kids, root, p, i, kids[q][k]);
  }

  ghost predicate Unlinkable(procs: Procs, c: Id)
    requires c in procs
  {
    procs[c].parent in procs && (procs[c].optr.Some? ==> procs[c].optr.value in procs) &&
    (procs[c].yptr.Some? ==> procs[c].yptr.value in procs)
  }

  /** Unlinking the i-th child of p leaves all other chains right. */
  lemma UnlinkedLinked(procs: Procs, kids: Kids, root: Id, p: Id, i: nat)
    requires Linked(procs, kids, None, root, None) && p in procs && i < |kids[p]|
    ensures kids[p][i] in procs && Unlinkable(procs, kids[p][i])
    ensures Linked(Unlinked(procs, kids[p][i]), kids[p := Cut(kids[p], i)], None, root, Some(kids[p][i]))
  {
    Neighbours(procs, kids, root, p, i);
    var c := kids[p][i];
    var procs', kids', adrift := Unlinked(procs, c), kids[p := Cut(kids[p], i)], Some(c);
    forall q | q in procs' ensures Chain(procs', kids', None, q) {
      UnlinkedChain(procs, kids, root, p, i, q);
    }
    forall x | x in procs' ensures Placed(procs', kids', root, adrift, x) {
      UnlinkedPlaced(procs, kids, root, p, i, x);
    }
  }

  lemma UnlinkedChain(procs: Procs, kids: Kids, root: Id, p: Id, i: nat, q: Id)
    requires Linked(procs, kids, None, root, None) && p in procs && i < |kids[p]| && q in procs
    ensures kids[p][i] in procs && Unlinkable(procs, kids[p][i]) && q in Unlinked(procs, kids[p][i])
    ensures Chain(Unlinked(procs, kids[p][i]), kids[p := Cut(kids[p], i)], None, q)
  {
    Neighbours(procs, kids, root, p, i);
    assert Chain(procs, kids, None, q);
    UnlinkedAt(procs, kids, root, p, i, q);
    var procs', kids' := Unlinked(procs, kids[p][i]), kids[p := Cut(kids[p], i)];
    forall k | 0 <= k < |kids'[q]| ensures KidAt(procs', kids', None, q, k) {
      if q == p { UnlinkedSibling(procs, kids, root, p, i, k); } else { UnlinkedOther(procs, kids, root, p, i, q, k); }
    }
    forall j, k | 0 <= j < k < |kids'[q]| ensures kids'[q][j] != kids'[q][k] {
      if q == p {
        CutAt(kids[p], i, j);
        CutAt(kids[p], i, k);
      }
    }
    if q == p && |kids'[p]| > 0 { CutAt(kids[p], i, 0); }
  }

  lemma UnlinkedPlaced(procs: Procs, kids: Kids, root: Id, p: Id, i: nat, x: Id)
    requires Linked(procs, kids, None, root, None) && p in procs && i < |kids[p]| && x in procs
    ensures kids[p][i] in procs && Unlinkable(procs, kids[p][i]) && x in Unlinked(procs, kids[p][i])
    ensures Placed(Unlinked(procs, kids[p][i]), kids[p := Cut(kids[p], i)], root, Some(kids[p][i]), x)
  {
    Neighbours(procs, kids, root, p, i);
    assert Placed(procs, kids, root, None, x);
    UnlinkedAt(procs, kids, root, p, i, x);
    OnlyThere(procs, kids, root, x);
    forall q | q in kids && x in kids[p := Cut(kids[p], i)][q] ensures x in kids[q] {}
    if x == kids[p][i] {
      assert x !in Cut(kids[p], i);
    } else if x != root && procs[x].parent == p {
      var j :| 0 <= j < |kids[p]| && kids[p][j] == x;
      CutAt(kids[p], i, if j < i then j else j - 1);
    }
  }

  lemma OnlyThere(procs: Procs, kids: Kids, root: Id, x: Id)
    requires Linked(procs, kids, None, root, None) && x in procs
    ensures forall q :: q in kids && x in kids[q] ==> q == procs[x].parent
  {
    forall q | q in kids && x in kids[q] ensures q == procs[x].parent {
      assert Chain(procs, kids, None, q);
      var i :| 0 <= i < |kids[q]| && kids[q][i] == x;
      assert KidAt(procs, kids, None, q, i);
    }
  }

  // ----- processes that come and go -----

  /** A new process is adrift until it is linked. */
  lemma NewAdrift(procs: Procs, kids: Kids, root: Id, c: Id, proc: Proc)
    requires Linked(procs, kids, None, root, None) && root in procs && c !in procs && proc.cptr == None
    ensures Linked(procs[c := proc], kids[c := []], None, root, Some(c))
  {
    var procs', kids', adrift := procs[c := proc], kids[c := []], Some(c);
    forall p | p in procs ensures c !in kids[p] {
      assert Chain(procs, kids, None, p);
      forall i | 0 <= i < |kids[p]| ensures kids[p][i] != c { assert KidAt(procs, kids, None, p, i); }
    }
    forall p | p in procs' ensures Chain(procs', kids', None, p) {
      if p != c {
        assert Chain(procs, kids, None, p);
        forall i | 0 <= i < |kids'[p]| ensures KidAt(procs', kids', None, p, i) { assert KidAt(procs, kids, None, p, i); }
      }
    }
    forall x | x in procs' ensures Placed(procs', kids', root, adrift, x) {
      assert x != c ==> Placed(procs, kids, root, None, x);
    }
  }

  /** A process adrift without children can be forgotten. */
  lemma AdriftGone(procs: Procs, kids: Kids, root: Id, c: Id)
    requires Linked(procs, kids, None, root, Some(c)) && c in procs && c != root && kids[c] == []
    ensures Linked(procs - {c}, kids - {c}, None, root, None)
  {
    var procs', kids' := procs - {c}, kids - {c};
    assert Placed(procs, kids, root, Some(c), c);
    forall p | p in procs' ensures Chain(procs', kids', None, p) {
      assert Chain(procs, kids, None, p);
      forall i | 0 <= i < |kids'[p]| ensures KidAt(procs', kids', None, p, i) { assert KidAt(procs, kids, None, p, i); }
    }
    forall x | x in procs' ensures Placed(procs', kids', root, None, x) {
      assert Placed(procs, kids, root, Some(c), x);
    }
  }

  /** Without children there is nothing loose. */
  lemma NothingLoose(procs: Procs, kids: Kids, root: Id, p: Id)
    requires Linked(procs, kids, Some(p), root, None) && p in procs && kids[p] == []
    ensures Linked(procs, kids, None, root, None)
  {
    forall q | q in procs ensures Chain(procs, kids, None, q) {
      assert Chain(procs, kids, Some(p), q);
      forall i | 0 <= i < |kids[q]| ensures KidAt(procs, kids, None, q, i) { assert KidAt(procs, kids, Some(p), q, i); }
    }
  }

  /** A looser requirement on the first child of p. */
  lemma MayBeLoose(procs: Procs, kids: Kids, root: Id, p: Id)
    requires Linked(procs, kids, None, root, None)
    ensures Linked(procs, kids, Some(p), root, None)
  {
    forall q | q in procs ensures Chain(procs, kids, Some(p), q) {
      assert Chain(procs, kids, None, q);
      forall i | 0 <= i < |kids[q]| ensures KidAt(procs, kids, Some(p), q, i) { assert KidAt(procs, kids, None, q, i); }
    }
  }

  /** Changing run and wait states changes no link. */
  lemma StateChanged(procs: Procs, procs': Procs, kids: Kids, loose: Option<Id>, root: Id, x: Id)
    requires Linked(procs, kids, loose, root, None) && x in procs && x in procs'
    requires procs' == procs[x := procs[x].(state := procs'[x].state, wait := procs'[x].wait)]
    ensures Linked(procs', kids, loose, root, None)
  {
    forall q | q in procs' ensures Chain(procs', kids, loose, q) {
      assert Chain(procs, kids, loose, q);
      forall i | 0 <= i < |kids[q]| ensures KidAt(procs', kids, loose, q, i) { assert KidAt(procs, kids, loose, q, i); }
    }
    forall y | y in procs' ensures Placed(procs', kids, root, None, y) { assert Placed(procs, kids, root, None, y); }
  }
}
