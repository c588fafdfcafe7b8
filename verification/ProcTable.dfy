/** Fork, exit and wait on the process table. */
module ProcTable {
  import opened Options
  import opened ProcTree

  /** A zombie has no children and waits for nothing; who waits is asleep, and not beside a zombie
      that would end the wait. */
  ghost predicate Settled(procs: Procs, kids: Kids, root: Id, p: Id)
    requires p in procs && p in kids
  {
    (procs[p].state == Zombie ==> kids[p] == [] && procs[p].wait == NotWaiting) &&
    match procs[p].wait
    case NotWaiting => true
    case AnyChild => procs[p].state == Sleeping && NoZombie(procs, root, p)
    case Child(c) => procs[p].state == Sleeping && c in procs && c != root && procs[c].parent == p && procs[c].state != Zombie
  }

  ghost predicate NoZombie(procs: Procs, root: Id, p: Id) {
    forall c {:trigger Alive(procs, root, p, c)} :: c in procs ==> Alive(procs, root, p, c)
  }

  /** Not a zombie child of p. */
  ghost predicate Alive(procs: Procs, root: Id, p: Id, c: Id)
    requires c in procs
  {
    c != root && procs[c].parent == p ==> procs[c].state != Zombie
  }

  /** The first of the listed processes that has exited. */
  ghost predicate FirstZombie(procs: Procs, s: seq<Id>, c: Id) {
    exists i :: 0 <= i < |s| && s[i] == c && c in procs && procs[c].state == Zombie && NoneExited(procs, s[..i])
  }

  ghost predicate NoneExited(procs: Procs, s: seq<Id>) {
    forall k :: 0 <= k < |s| ==> s[k] in procs && procs[s[k]].state != Zombie
  }

  function Reversed(s: seq<Id>): seq<Id> { if s == [] then [] else Reversed(s[1..]) + [s[0]] }

  function Dropped(s: seq<Id>, c: Id): seq<Id> {
    if s == [] then [] else if s[0] == c then s[1..] else [s[0]] + Dropped(s[1..], c)
  }

  /** Dropping one process from a list without repetitions. */
  lemma {:induction false} DroppedOne(s: seq<Id>, c: Id)
    requires NoDup(s) && c in s
    ensures |Dropped(s, c)| == |s| - 1 && NoDup(Dropped(s, c))
    ensures forall x :: x in Dropped(s, c) <==> x in s && x != c
  {
    if s[0] == c {
      forall x ensures x in s[1..] <==> x in s && x != c {}
    } else {
      DroppedOne(s[1..], c);
      assert s[0] !in s[1..];
      assert s[0] !in Dropped(s[1..], c);
      forall x ensures x in Dropped(s, c) <==> x in s && x != c {
        assert x in s <==> x == s[0] || x in s[1..];
      }
    }
  }

  datatype Outcome = Slept | Reaped(id: Id) | NoChild

  class Table {
    const idle: Id
    const init: Id
    var procs: Procs
    var list: seq<Id>
    var nrProcess: nat
    ghost var kids: Kids

    ghost predicate Listed()
      reads this
    {
      NoDup(list) && nrProcess == |list| + 1 && (forall x :: x in list <==> x in procs && x != idle)
    }

    ghost predicate AllSettled()
      requires kids.Keys == procs.Keys
      reads this
    {
      forall p {:trigger Settled(procs, kids, idle, p)} :: p in procs ==> Settled(procs, kids, idle, p)
    }

    ghost predicate Valid()
      reads this
    {
      Linked(procs, kids, None, idle, None) && Listed() && AllSettled() &&
      idle in procs && init in procs && idle != init && procs[idle].state != Zombie && procs[init].state != Zombie &&
      procs[init].parent == idle
    }

    /** The idle process and its first child. */
    constructor (first: Id, second: Id)
      requires first != second
      ensures Valid() && procs.Keys == {first, second} && kids == map[first := [second], second := []]
    {
      idle, init := first, second;
      procs := map[first := Proc(first, Some(second), None, None, Runnable, NotWaiting),
                   second := Proc(first, None, None, None, Runnable, NotWaiting)];
      kids, list, nrProcess := map[first := [second], second := []], [second], 2;
      new;
      forall p | p in procs ensures Chain(procs, kids, None, p) {
        forall i | 0 <= i < |kids[p]| ensures KidAt(procs, kids, None, p, i) {}
      }
    }

    // ----- fork -----

    /** The new process becomes the youngest child of the running one. */
    method Fork(current: Id, c: Id)
      requires Valid() && current in procs && procs[current].state == Runnable && c !in procs
      modifies this
      ensures Valid() && procs.Keys == old(procs).Keys + {c} && list == [c] + old(list)
      ensures kids == old(kids)[c := []][current := [c] + old(kids)[current]]
      ensures procs[c].parent == current && procs[c].state == Runnable
      ensures forall x :: x in old(procs) ==>
                procs[x].state == old(procs)[x].state && procs[x].wait == old(procs)[x].wait
    {
      var proc := Proc(current, None, None, None, Runnable, NotWaiting);
      ForkLinks(procs, kids, idle, c, current, proc);
      ForkSettles(procs, kids, idle, c, current, proc);
      procs := Fronted(procs[c := proc], c, current);
      kids, list, nrProcess := kids[c := []][current := [c] + kids[current]], [c] + list, nrProcess + 1;
    }

    // ----- wait -----

    /** Goes through the children, youngest first, for one that has exited. */
    method FindZombie(current: Id) returns (r: Option<Id>)
      requires Valid() && current in procs
      ensures r == None ==> NoZombie(procs, idle, current)
      ensures r != None ==> FirstZombie(procs, kids[current], r.value)
    {
      assert Chain(procs, kids, None, current);
      r := procs[current].cptr;
      ghost var i := 0;
      while r != None && (r.value !in procs || procs[r.value].state != Zombie)
        invariant 0 <= i <= |kids[current]|
        invariant r == if i < |kids[current]| then Some(kids[current][i]) else None
        invariant NoneExited(procs, kids[current][..i])
        decreases |kids[current]| - i
      {
        assert KidAt(procs, kids, None, current, i);
        r := procs[r.value].optr;
        i := i + 1;
      }
      if r == None {
        forall c | c in procs ensures Alive(procs, idle, current, c) {
          assert Placed(procs, kids, idle, None, c);
        }
      }
    }

    /** Unlinks a child that has exited and forgets it. */
    method Reap(c: Id)
      requires Valid() && c in procs && c != idle && procs[c].state == Zombie
      modifies this
      ensures Valid() && procs.Keys == old(procs).Keys - {c} && list == Dropped(old(list), c)
      ensures forall x :: x in procs ==>
                procs[x].parent == old(procs)[x].parent && procs[x].state == old(procs)[x].state &&
                procs[x].wait == old(procs)[x].wait
      ensures forall p :: p in procs ==> kids[p] == Dropped(old(kids)[p], c)
    {
      ghost var p, i := Position(procs, kids, idle, c);
      assert Settled(procs, kids, idle, c);
      ReapTable(procs, kids, idle, p, i);
      DroppedOne(list, c);
      ReapKids(procs, kids, idle, p, i);
      kids := kids[p := Cut(kids[p], i)] - {c};
      procs := Unlinked(procs, c) - {c};
      list, nrProcess := Dropped(list, c), nrProcess - 1;
    }

    /** One pass of waiting: for a given child, or for any. */
    method Wait(current: Id, pid: Option<Id>) returns (r: Outcome)
      requires Valid() && current in procs && procs[current].state == Runnable
      modifies this
      ensures Valid()
      ensures r == NoChild ==> procs == old(procs) && kids == old(kids) && list == old(list)
      ensures r == NoChild <==> if pid == None then old(kids)[current] == [] else pid.value !in old(kids)[current]
      ensures r.Reaped? ==>
                r.id in old(procs) && r.id in old(kids)[current] && old(procs)[r.id].state == Zombie &&
                (pid != None ==> pid.value == r.id) && procs.Keys == old(procs).Keys - {r.id}
      ensures r.Reaped? && pid == None ==> FirstZombie(old(procs), old(kids)[current], r.id)
      ensures r == Slept ==>
                kids == old(kids) && procs.Keys == old(procs).Keys && procs[current].state == Sleeping &&
                procs[current].wait == if pid == None then AnyChild else Child(pid.value)
    {
      assert Chain(procs, kids, None, current) && Settled(procs, kids, idle, current);
      var found: Option<Id>, haskid: bool;
      if pid != None {
        ChildOf(procs, kids, idle, current, pid.value);
        haskid := pid.value in procs && pid.value != idle && procs[pid.value].parent == current;
        found := if haskid && procs[pid.value].state == Zombie then pid else None;
      } else {
        haskid := procs[current].cptr != None;
        found := FindZombie(current);
      }
      if found != None {
        ChildOf(procs, kids, idle, current, found.value);
        Reap(found.value);
        r := Reaped(found.value);
      } else if haskid {
        Sleep(current, if pid == None then AnyChild else Child(pid.value));
        r := Slept;
      } else {
        r := NoChild;
      }
    }

    method Sleep(current: Id, w: Wait)
      requires Valid() && current in procs && procs[current].state == Runnable && w != NotWaiting
      requires w == AnyChild ==> NoZombie(procs, idle, current)
      requires w.Child? ==> w.id in procs && w.id != idle && procs[w.id].parent == current && procs[w.id].state != Zombie
      modifies this`procs
      ensures Valid() && procs == old(procs)[current := old(procs)[current].(state := Sleeping, wait := w)]
    {
      var after := procs[current := procs[current].(state := Sleeping, wait := w)];
      StateChanged(procs, after, kids, None, idle, current);
      forall p | p in after ensures Settled(after, kids, idle, p) {
        assert Settled(procs, kids, idle, p);
        forall c | c in after && after[p].wait == AnyChild ensures Alive(after, idle, p, c) {
          assert Alive(procs, idle, p, c);
        }
      }
      procs := after;
    }

    // ----- exit -----

    /** A process that waits for a child is made to look again. */
    method Wakeup(p: Id, ghost loose: Option<Id>)
      requires p in procs && procs[p].state != Zombie && Linked(procs, kids, loose, idle, None)
      modifies this`procs
      ensures procs == old(procs)[p := Woken(old(procs)[p])] && Linked(procs, kids, loose, idle, None)
    {
      var after := if procs[p].wait != NotWaiting then procs[p := procs[p].(state := Runnable, wait := NotWaiting)] else procs;
      StateChanged(procs, after, kids, loose, idle, p);
      procs := after;
    }

    /** Hands the youngest child of the exiting process to init. */
    method MoveOne(current: Id, ghost procs0: Procs, ghost moved: seq<Id>)
      requires Linked(procs, kids, Some(current), idle, None) && current in procs && current != init && current != idle
      requires kids[current] != [] && Exiting(procs0, procs, current, init, moved)
      requires procs0[init].parent == idle && procs0[init].state != Zombie
      modifies this`procs, this`kids
      ensures old(procs)[current].cptr == Some(old(kids)[current][0])
      ensures Linked(procs, kids, Some(current), idle, None)
      ensures kids == old(kids)[current := old(kids)[current][1..]][init := [old(kids)[current][0]] + old(kids)[init]]
      ensures Exiting(procs0, procs, current, init, moved + [old(kids)[current][0]])
    {
      MoveTable(procs0, procs, kids, idle, current, init, moved);
      var h := procs[current].cptr.value;
      var after := Fronted(HeadTaken(procs, current), h, init);
      if after[h].state == Zombie { after := after[init := Woken(after[init])]; }
      procs, kids := after, kids[current := kids[current][1..]][init := [h] + kids[init]];
    }

    /** Hands all children of the exiting process to init. */
    method HandOver(current: Id, ghost procs0: Procs)
      requires Linked(procs, kids, None, idle, None) && current in procs && current != init && current != idle
      requires Exiting(procs0, procs, current, init, []) && procs0[init].parent == idle && procs0[init].state != Zombie
      modifies this`procs, this`kids
      ensures Linked(procs, kids, None, idle, None)
      ensures kids == Handed(old(kids), current, init, old(kids)[current], [])
      ensures Exiting(procs0, procs, current, init, old(kids)[current])
    {
      ghost var kids0: Kids, moved: seq<Id> := kids, [];
      MayBeLoose(procs, kids, idle, current);
      HandedNone(kids0, current, init);
      while procs[current].cptr != None
        invariant Linked(procs, kids, Some(current), idle, None) && procs.Keys == procs0.Keys
        invariant moved + kids[current] == kids0[current]
        invariant kids == Handed(kids0, current, init, moved, kids[current])
        invariant Exiting(procs0, procs, current, init, moved)
        decreases |kids[current]|
      {
        assert Chain(procs, kids, Some(current), current);
        ghost var left := kids[current];
        MoveOne(current, procs0, moved);
        HandedMore(kids0, current, init, moved, left);
        moved := moved + [left[0]];
      }
      assert Chain(procs, kids, Some(current), current);
      assert moved == kids0[current];
      NothingLoose(procs, kids, idle, current);
    }

    /** The running process becomes a zombie, its parent is woken if it waits for a child, and its
        children are handed to init one by one, which is woken if one of them is a zombie. */
    method Exit(current: Id)
      requires Valid() && current in procs && procs[current].state == Runnable && current != idle && current != init
      modifies this
      ensures Valid() && procs.Keys == old(procs).Keys && list == old(list)
      ensures procs[current].state == Zombie
      ensures kids == old(kids)[current := []][init := Reversed(old(kids)[current]) + old(kids)[init]]
      ensures forall x :: x in procs && x != current ==>
                procs[x].state == old(procs)[x].state || (old(procs)[x].wait != NotWaiting && procs[x].state == Runnable)
    {
      ghost var procs0: Procs, kids0: Kids := procs, kids;
      var after := procs[current := procs[current].(state := Zombie)];
      StateChanged(procs, after, kids, None, idle, current);
      procs := after;
      var parent := procs[current].parent;
      ParentAlive(procs0, kids0, idle, current);
      Wakeup(parent, None);
      ExitStarts(procs0, kids0, procs, idle, current, init);
      HandOver(current, procs0);
      ExitSettles(procs0, kids0, procs, kids, idle, current, init);
      forall x | x in procs && x != current
        ensures procs[x].state == procs0[x].state || (procs0[x].wait != NotWaiting && procs[x].state == Runnable)
      {
        assert ExitAt(procs0, procs, current, init, kids0[current], x);
      }
      assert ExitAt(procs0, procs, current, init, kids0[current], current);
      ExitKeepsInit(procs0, kids0, procs, idle, current, init);
    }
  }

  lemma ForkLinks(procs: Procs, kids: Kids, root: Id, c: Id, p: Id, proc: Proc)
    requires Linked(procs, kids, None, root, None) && root in procs && c !in procs && p in procs && proc.cptr == None
    ensures procs[p].cptr.Some? ==> procs[p].cptr.value in procs
    ensures Linked(Fronted(procs[c := proc], c, p), kids[c := []][p := [c] + kids[p]], None, root, None)
  {
    assert Chain(procs, kids, None, p);
    assert kids[p] != [] ==> KidAt(procs, kids, None, p, 0);
    NewAdrift(procs, kids, root, c, proc);
    FrontedLinked(procs[c := proc], kids[c := []], None, root, c, p);
  }

  lemma ForkSettles(procs: Procs, kids: Kids, root: Id, c: Id, p: Id, proc: Proc)
    requires Linked(procs, kids, None, root, None) && root in procs && c !in procs && p in procs && procs[p].state == Runnable
    requires forall q {:trigger Settled(procs, kids, root, q)} :: q in procs ==> Settled(procs, kids, root, q)
    requires proc == Proc(p, None, None, None, Runnable, NotWaiting)
    ensures procs[p].cptr.Some? ==> procs[p].cptr.value in procs
    ensures var procs', kids' := Fronted(procs[c := proc], c, p), kids[c := []][p := [c] + kids[p]];
            procs'.Keys == procs.Keys + {c} && procs'[c].parent == p && procs'[c].state == Runnable &&
            (forall x :: x in procs ==>
               procs'[x].state == procs[x].state && procs'[x].wait == procs[x].wait && procs'[x].parent == procs[x].parent) &&
            forall q {:trigger Settled(procs', kids', root, q)} :: q in procs' ==> Settled(procs', kids', root, q)
  {
    assert Chain(procs, kids, None, p);
    assert kids[p] != [] ==> KidAt(procs, kids, None, p, 0);
    var procs1 := procs[c := proc];
    var procs', kids' := Fronted(procs1, c, p), kids[c := []][p := [c] + kids[p]];
    forall x | x in procs1
      ensures x in procs' && procs'[x].state == procs1[x].state && procs'[x].wait == procs1[x].wait && procs'[x].parent == procs1[x].parent
    {
      FrontedAt(procs1, c, p, x);
    }
    forall q | q in procs' ensures Settled(procs', kids', root, q) {
      assert q != c ==> Settled(procs, kids, root, q);
      forall x | x in procs' && q in procs && procs[q].wait == AnyChild ensures Alive(procs', root, q, x) {
        assert x != c ==> Alive(procs, root, q, x);
      }
    }
  }

  /** The children of p are those that name p as their parent. */
  lemma ChildOf(procs: Procs, kids: Kids, root: Id, p: Id, c: Id)
    requires Linked(procs, kids, None, root, None) && p in procs
    ensures c in kids[p] <==> c in procs && c != root && procs[c].parent == p
  {
    assert Chain(procs, kids, None, p);
    if c in kids[p] {
      var i :| 0 <= i < |kids[p]| && kids[p][i] == c;
      assert KidAt(procs, kids, None, p, i);
      assert Placed(procs, kids, root, None, c);
    } else if c in procs {
      assert Placed(procs, kids, root, None, c);
    }
  }

  lemma ReapSettles(procs: Procs, kids: Kids, root: Id, p: Id, i: nat)
    requires Linked(procs, kids, None, root, None) && p in procs && i < |kids[p]|
    requires forall q {:trigger Settled(procs, kids, root, q)} :: q in procs ==> Settled(procs, kids, root, q)
    requires kids[p][i] in procs ==> procs[kids[p][i]].state == Zombie
    ensures kids[p][i] in procs && Unlinkable(procs, kids[p][i])
    ensures var c := kids[p][i];
            var procs', kids' := Unlinked(procs, c) - {c}, kids[p := Cut(kids[p], i)] - {c};
            procs'.Keys == procs.Keys - {c} &&
            (forall x :: x in procs' ==>
               procs'[x].parent == procs[x].parent && procs'[x].state == procs[x].state && procs'[x].wait == procs[x].wait) &&
            forall q {:trigger Settled(procs', kids', root, q)} :: q in procs' ==> Settled(procs', kids', root, q)
  {
    Neighbours(procs, kids, root, p, i);
    var c := kids[p][i];
    var procs', kids' := Unlinked(procs, c) - {c}, kids[p := Cut(kids[p], i)] - {c};
    forall x | x in procs'
      ensures procs'[x].parent == procs[x].parent && procs'[x].state == procs[x].state && procs'[x].wait == procs[x].wait
    {
      UnlinkedAt(procs, kids, root, p, i, x);
    }
    forall q | q in procs' ensures Settled(procs', kids', root, q) {
      assert Settled(procs, kids, root, q);
      forall x | x in procs' && procs[q].wait == AnyChild ensures Alive(procs', root, q, x) {
        assert Alive(procs, root, q, x);
      }
    }
  }

  lemma Position(procs: Procs, kids: Kids, root: Id, c: Id) returns (p: Id, i: nat)
    requires Linked(procs, kids, None, root, None) && c in procs && c != root
    ensures p in procs && p in kids && i < |kids[p]| && kids[p][i] == c && p == procs[c].parent
  {
    assert Placed(procs, kids, root, None, c);
    p := procs[c].parent;
    i :| 0 <= i < |kids[p]| && kids[p][i] == c;
  }

  /** Reaping the i-th child of p, a zombie, leaves the links and the waiting right. */
  lemma ReapTable(procs: Procs, kids: Kids, root: Id, p: Id, i: nat)
    requires Linked(procs, kids, None, root, None) && p in procs && i < |kids[p]|
    requires forall q {:trigger Settled(procs, kids, root, q)} :: q in procs ==> Settled(procs, kids, root, q)
    requires kids[p][i] in procs && procs[kids[p][i]].state == Zombie && kids[kids[p][i]] == []
    ensures Unlinkable(procs, kids[p][i])
    ensures var c := kids[p][i];
            var procs', kids' := Unlinked(procs, c) - {c}, kids[p := Cut(kids[p], i)] - {c};
            Linked(procs', kids', None, root, None) && procs'.Keys == procs.Keys - {c} &&
            (forall x :: x in procs' ==>
               procs'[x].parent == procs[x].parent && procs'[x].state == procs[x].state && procs'[x].wait == procs[x].wait) &&
            forall q {:trigger Settled(procs', kids', root, q)} :: q in procs' ==> Settled(procs', kids', root, q)
  {
    Neighbours(procs, kids, root, p, i);
    UnlinkedLinked(procs, kids, root, p, i);
    UnlinkedAt(procs, kids, root, p, i, kids[p][i]);
    AdriftGone(Unlinked(procs, kids[p][i]), kids[p := Cut(kids[p], i)], root, kids[p][i]);
    ReapSettles(procs, kids, root, p, i);
  }

  lemma {:induction false} CutIsDropped(s: seq<Id>, i: nat)
    requires NoDup(s) && i < |s|
    ensures Cut(s, i) == Dropped(s, s[i])
  {
    if i > 0 {
      assert NoDup(s[1..]);
      CutIsDropped(s[1..], i - 1);
      assert Cut(s, i) == [s[0]] + Cut(s[1..], i - 1);
      assert s[0] != s[i];
    }
  }

  lemma {:induction false} DroppedNone(s: seq<Id>, c: Id)
    requires c !in s
    ensures Dropped(s, c) == s
  {
    if s != [] { DroppedNone(s[1..], c); }
  }

  lemma ReapKids(procs: Procs, kids: Kids, root: Id, p: Id, i: nat)
    requires Linked(procs, kids, None, root, None) && p in procs && i < |kids[p]|
    ensures forall q :: q in kids ==> kids[p := Cut(kids[p], i)][q] == Dropped(kids[q], kids[p][i])
  {
    Neighbours(procs, kids, root, p, i);
    CutIsDropped(kids[p], i);
    OnlyThere(procs, kids, root, kids[p][i]);
    forall q | q in kids && q != p ensures kids[q] == Dropped(kids[q], kids[p][i]) {
      DroppedNone(kids[q], kids[p][i]);
    }
  }

  // ----- exit -----

  function Woken(p: Proc): Proc { if p.wait != NotWaiting then p.(state := Runnable, wait := NotWaiting) else p }

  /** What an exit in progress has done to x. */
  ghost predicate ExitAt(procs0: Procs, procs: Procs, current: Id, init: Id, moved: seq<Id>, x: Id)
    requires x in procs0 && x in procs && init in procs && current in procs0
  {
    procs[x].parent == (if x in moved then init else procs0[x].parent) &&
    (if x == current then procs[x].state == Zombie && procs[x].wait == NotWaiting
     else (procs[x].state == procs0[x].state && procs[x].wait == procs0[x].wait) ||
          (procs0[x].wait != NotWaiting && procs[x].state == Runnable && procs[x].wait == NotWaiting)) &&
    (x == procs0[current].parent ==> procs[x].wait == NotWaiting) &&
    (x in moved && procs[x].state == Zombie ==> procs[init].wait == NotWaiting)
  }

  ghost predicate Exiting(procs0: Procs, procs: Procs, current: Id, init: Id, moved: seq<Id>) {
    procs.Keys == procs0.Keys && init in procs && current in procs0 &&
    forall x {:trigger ExitAt(procs0, procs, current, init, moved, x)} :: x in procs ==>
      ExitAt(procs0, procs, current, init, moved, x)
  }

  lemma ExitSettles(procs0: Procs, kids0: Kids, procs: Procs, kids: Kids, root: Id, current: Id, init: Id)
    requires Linked(procs0, kids0, None, root, None) && current in procs0 && init in procs0 && current != init
    requires kids.Keys == kids0.Keys && Exiting(procs0, procs, current, init, kids0[current])
    requires kids == kids0[current := []][init := Reversed(kids0[current]) + kids0[init]] && procs0[init].state != Zombie
    requires procs0[current].state == Runnable && current != root
    requires forall q {:trigger Settled(procs0, kids0, root, q)} :: q in procs0 ==> Settled(procs0, kids0, root, q)
    ensures forall q {:trigger Settled(procs, kids, root, q)} :: q in procs ==> Settled(procs, kids, root, q)
  {
    var moved := kids0[current];
    forall q | q in procs ensures Settled(procs, kids, root, q) {
      assert Settled(procs0, kids0, root, q) && ExitAt(procs0, procs, current, init, moved, q);
      forall x | x in procs && procs[q].wait == AnyChild ensures Alive(procs, root, q, x) {
        assert Alive(procs0, root, q, x) && ExitAt(procs0, procs, current, init, moved, x);
      }
      if procs[q].wait.Child? {
        var c := procs[q].wait.id;
        assert ExitAt(procs0, procs, current, init, moved, c);
        ChildOf(procs0, kids0, root, current, c);
      }
    }
  }

  lemma HeadNotInit(procs0: Procs, procs: Procs, kids: Kids, root: Id, current: Id, init: Id, moved: seq<Id>)
    requires Linked(procs, kids, Some(current), root, None) && current in procs && current != init && current != root
    requires kids[current] != [] && Exiting(procs0, procs, current, init, moved)
    requires procs0[init].parent == root && procs0[init].state != Zombie
    ensures kids[current][0] != init && kids[current][0] !in moved && procs[init].state != Zombie
  {
    assert Chain(procs, kids, Some(current), current) && KidAt(procs, kids, Some(current), current, 0);
    assert ExitAt(procs0, procs, current, init, moved, init);
    assert ExitAt(procs0, procs, current, init, moved, kids[current][0]);
  }

  /** Only the parent of the child that moves changes, besides pointers. */
  lemma MovedAt(procs: Procs, kids: Kids, root: Id, current: Id, init: Id, x: Id)
    requires Linked(procs, kids, Some(current), root, None) && current in procs && init in procs && current != init
    requires kids[current] != [] && kids[current][0] != init && x in procs
    ensures procs[current].cptr == Some(kids[current][0]) && kids[current][0] in procs
    ensures HeadTaken(procs, current)[init].cptr.Some? ==> HeadTaken(procs, current)[init].cptr.value in procs
    ensures var h := kids[current][0];
            var procs' := Fronted(HeadTaken(procs, current), h, init);
            x in procs' && procs'[x].state == procs[x].state && procs'[x].wait == procs[x].wait &&
            procs'[x].parent == if x == h then init else procs[x].parent
  {
    HeadTakenLinked(procs, kids, root, current);
    var procs1, kids1, h := HeadTaken(procs, current), kids[current := kids[current][1..]], kids[current][0];
    assert Chain(procs1, kids1, Some(current), init) && Placed(procs1, kids1, root, Some(h), h);
    assert kids1[init] != [] ==> KidAt(procs1, kids1, Some(current), init, 0);
    FrontedAt(procs1, h, init, x);
  }

  /** One child handed over, and init woken if it is a zombie: the links and the record of the exit
      are right again. */
  lemma MoveTable(procs0: Procs, procs: Procs, kids: Kids, root: Id, current: Id, init: Id, moved: seq<Id>)
    requires Linked(procs, kids, Some(current), root, None) && current in procs && current != init && current != root
    requires kids[current] != [] && Exiting(procs0, procs, current, init, moved)
    requires procs0[init].parent == root && procs0[init].state != Zombie
    ensures procs[current].cptr == Some(kids[current][0]) && kids[current][0] in procs
    ensures HeadTaken(procs, current)[init].cptr.Some? ==> HeadTaken(procs, current)[init].cptr.value in procs
    ensures var h := kids[current][0];
            var procs2 := Fronted(HeadTaken(procs, current), h, init);
            h in procs2 && init in procs2 &&
            var procs3 := if procs2[h].state == Zombie then procs2[init := Woken(procs2[init])] else procs2;
            Linked(procs3, kids[current := kids[current][1..]][init := [h] + kids[init]], Some(current), root, None) &&
            Exiting(procs0, procs3, current, init, moved + [h])
  {
    HeadNotInit(procs0, procs, kids, root, current, init, moved);
    MoveExits(procs0, procs, kids, root, current, init, moved);
    MoveLinks(procs, kids, root, current, init);
    var procs2 := Fronted(HeadTaken(procs, current), kids[current][0], init);
    var kids2 := kids[current := kids[current][1..]][init := [kids[current][0]] + kids[init]];
    WokenLinked(procs2, kids2, Some(current), root, init, procs2[kids[current][0]].state == Zombie);
  }

  /** Waking a process, or not, keeps the links. */
  lemma WokenLinked(procs: Procs, kids: Kids, loose: Option<Id>, root: Id, x: Id, wake: bool)
    requires Linked(procs, kids, loose, root, None) && x in procs
    ensures Linked(if wake then procs[x := Woken(procs[x])] else procs, kids, loose, root, None)
  {
    if wake { StateChanged(procs, procs[x := Woken(procs[x])], kids, loose, root, x); }
  }

  lemma MoveLinks(procs: Procs, kids: Kids, root: Id, current: Id, init: Id)
    requires Linked(procs, kids, Some(current), root, None) && current in procs && init in procs && current != init
    requires kids[current] != [] && kids[current][0] != init
    ensures procs[current].cptr == Some(kids[current][0]) && kids[current][0] in procs
    ensures HeadTaken(procs, current)[init].cptr.Some? ==> HeadTaken(procs, current)[init].cptr.value in procs
    ensures Linked(Fronted(HeadTaken(procs, current), kids[current][0], init),
                   kids[current := kids[current][1..]][init := [kids[current][0]] + kids[init]], Some(current), root, None)
  {
    HeadTakenLinked(procs, kids, root, current);
    FrontedLinked(HeadTaken(procs, current), kids[current := kids[current][1..]], Some(current), root, kids[current][0], init);
  }

  lemma MoveExits(procs0: Procs, procs: Procs, kids: Kids, root: Id, current: Id, init: Id, moved: seq<Id>)
    requires Linked(procs, kids, Some(current), root, None) && current in procs && init in procs && current != init
    requires kids[current] != [] && kids[current][0] != init && Exiting(procs0, procs, current, init, moved)
    ensures procs[current].cptr == Some(kids[current][0]) && kids[current][0] in procs
    ensures HeadTaken(procs, current)[init].cptr.Some? ==> HeadTaken(procs, current)[init].cptr.value in procs
    ensures var h := kids[current][0];
            var procs2 := Fronted(HeadTaken(procs, current), h, init);
            h in procs2 && init in procs2 && procs2[init].state == procs[init].state &&
            var procs3 := if procs2[h].state == Zombie then procs2[init := Woken(procs2[init])] else procs2;
            Exiting(procs0, procs3, current, init, moved + [h])
  {
    MovedAt(procs, kids, root, current, init, init);
    var h := kids[current][0];
    MovedAt(procs, kids, root, current, init, h);
    var procs2 := Fronted(HeadTaken(procs, current), h, init);
    var procs3 := if procs2[h].state == Zombie then procs2[init := Woken(procs2[init])] else procs2;
    var moved' := moved + [h];
    assert ExitAt(procs0, procs, current, init, moved, init);
    forall x | x in procs3 ensures ExitAt(procs0, procs3, current, init, moved', x) {
      assert ExitAt(procs0, procs, current, init, moved, x);
      MovedAt(procs, kids, root, current, init, x);
    }
  }

  /** The children of current that have been handed to init, and those that are left. */
  ghost function Handed(kids: Kids, current: Id, init: Id, moved: seq<Id>, left: seq<Id>): Kids
    requires current in kids && init in kids
  {
    kids[current := left][init := Reversed(moved) + kids[init]]
  }

  lemma HandedNone(kids: Kids, current: Id, init: Id)
    requires current in kids && init in kids && current != init
    ensures kids == Handed(kids, current, init, [], kids[current])
  {
    assert Reversed([]) + kids[init] == kids[init];
    assert forall p :: p in kids ==> Handed(kids, current, init, [], kids[current])[p] == kids[p];
  }

  lemma HandedMore(kids: Kids, current: Id, init: Id, moved: seq<Id>, left: seq<Id>)
    requires current in kids && init in kids && current != init && left != []
    ensures var k := Handed(kids, current, init, moved, left);
            k[current := left[1..]][init := [left[0]] + k[init]] ==
            Handed(kids, current, init, moved + [left[0]], left[1..])
  {
    ReversedAppend(moved, left[0]);
    assert [left[0]] + (Reversed(moved) + kids[init]) == Reversed(moved + [left[0]]) + kids[init];
  }

  lemma {:induction false} ReversedAppend(s: seq<Id>, x: Id)
    ensures Reversed(s + [x]) == [x] + Reversed(s)
  {
    if s != [] {
      ReversedAppend(s[1..], x);
      assert (s + [x])[1..] == s[1..] + [x];
    }
  }

  lemma ParentAlive(procs: Procs, kids: Kids, root: Id, c: Id)
    requires Linked(procs, kids, None, root, None) && c in procs && c != root
    requires forall q {:trigger Settled(procs, kids, root, q)} :: q in procs ==> Settled(procs, kids, root, q)
    ensures procs[c].parent in procs && procs[procs[c].parent].state != Zombie && procs[c].parent != c
  {
    var p, i := Position(procs, kids, root, c);
    assert Settled(procs, kids, root, p) && Chain(procs, kids, None, p) && KidAt(procs, kids, None, p, i);
  }

  lemma ExitStarts(procs0: Procs, kids: Kids, procs: Procs, root: Id, current: Id, init: Id)
    requires current in procs0 && init in procs0 && current in kids && procs0[current].state == Runnable
    requires kids.Keys == procs0.Keys && procs0[current].parent in procs0 && procs0[current].parent != current
    requires Settled(procs0, kids, root, current)
    requires procs == procs0[current := procs0[current].(state := Zombie)]
                            [procs0[current].parent := Woken(procs0[procs0[current].parent])]
    ensures Exiting(procs0, procs, current, init, [])
  {
    forall x | x in procs ensures ExitAt(procs0, procs, current, init, [], x) {}
  }

  lemma ExitKeepsInit(procs0: Procs, kids0: Kids, procs: Procs, root: Id, current: Id, init: Id)
    requires Linked(procs0, kids0, None, root, None) && current in procs0 && init in procs0 && root in procs0
    requires Exiting(procs0, procs, current, init, kids0[current]) && current != init && current != root
    requires procs0[init].state != Zombie && procs0[root].state != Zombie && procs0[init].parent == root
    ensures procs[init].state != Zombie && procs[root].state != Zombie && procs[init].parent == root
  {
    assert ExitAt(procs0, procs, current, init, kids0[current], init);
    assert ExitAt(procs0, procs, current, init, kids0[current], root);
    ChildOf(procs0, kids0, root, current, init);
  }

  /** Whoever sleeps waiting for any child has no child that has exited. */
  lemma NoForgottenZombie(procs: Procs, kids: Kids, root: Id, p: Id, c: Id)
    requires Linked(procs, kids, None, root, None) && p in procs && Settled(procs, kids, root, p)
    requires procs[p].wait == AnyChild && c in kids[p]
    ensures procs[p].state == Sleeping && c in procs && procs[c].state != Zombie
  {
    ChildOf(procs, kids, root, p, c);
    assert Alive(procs, root, p, c);
  }
}
