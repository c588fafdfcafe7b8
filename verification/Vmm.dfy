/** Virtual memory areas of a process: a sorted list with a cached entry, and the check of user
    addresses against it. */
module Vmm {
  import opened Options
  import opened Words

  datatype Vma = Vma(start: nat, end: nat, readable: bool, writable: bool, stack: bool)

  predicate Contains(v: Vma, a: nat) { v.start <= a < v.end }

  /** Areas are not empty, and each ends before the next one starts. */
  ghost predicate Sorted(list: seq<Vma>) {
    (forall i :: 0 <= i < |list| ==> list[i].start < list[i].end) &&
    forall i, j :: 0 <= i < j < |list| ==> list[i].end <= list[j].start
  }

  predicate Apart(a: Vma, b: Vma) { a.end <= b.start || b.end <= a.start }

  /** The check made when an area is inserted between two neighbours. */
  predicate NoOverlap(prev: Vma, next: Vma) {
    prev.start < prev.end <= next.start < next.end
  }

  ghost predicate Inserts(list: seq<Vma>, v: Vma, p: nat) {
    p <= |list| && (p > 0 ==> NoOverlap(list[p - 1], v)) && (p < |list| ==> NoOverlap(v, list[p]))
  }

  /** Where an area goes: after those that do not start later. */
  function Place(list: seq<Vma>, v: Vma): (p: nat)
    ensures p <= |list| && (forall i :: 0 <= i < p ==> list[i].start <= v.start) && (p < |list| ==> list[p].start > v.start)
  {
    if list == [] then 0
    else if list[0].start > v.start then 0
    else
      var p := Place(list[1..], v);
      assert forall i :: 0 < i < p + 1 ==> list[i] == list[1..][i - 1];
      p + 1
  }

  /** Looking at the two neighbours is as good as looking at all areas. */
  lemma NeighboursSuffice(list: seq<Vma>, v: Vma)
    requires Sorted(list) && v.start < v.end
    ensures Inserts(list, v, Place(list, v)) <==> forall i :: 0 <= i < |list| ==> Apart(list[i], v)
  {
    var p := Place(list, v);
    if Inserts(list, v, p) {
      forall i | 0 <= i < |list| ensures Apart(list[i], v) {
        if i < p { assert i < p - 1 ==> list[i].end <= list[p - 1].start; }
        else { assert i > p ==> list[p].end <= list[i].start; }
      }
    } else if p > 0 && !NoOverlap(list[p - 1], v) {
      assert !Apart(list[p - 1], v);
    } else {
      assert !Apart(list[p], v);
    }
  }

  /** The index of the area that contains a, if there is one. */
  ghost predicate FoundAt(list: seq<Vma>, a: nat, r: Option<nat>) {
    match r
    case Some(i) => i < |list| && Contains(list[i], a)
    case None => forall i :: 0 <= i < |list| ==> !Contains(list[i], a)
  }

  lemma FoundOnce(list: seq<Vma>, a: nat, i: nat, j: nat)
    requires Sorted(list) && i < |list| && j < |list| && Contains(list[i], a) && Contains(list[j], a)
    ensures i == j
  {}

  const USERBASE: nat := 0x0020_0000
  const USERTOP: nat := 0xB000_0000
  const KERNBASE: nat := 0xC000_0000
  const KERNTOP: nat := 0xF800_0000
  const PGSIZE: nat := 4096

  predicate UserAccess(start: nat, end: nat) { USERBASE <= start < end <= USERTOP }
  predicate KernAccess(start: nat, end: nat) { KERNBASE <= start < end <= KERNTOP }

  predicate Allows(v: Vma, write: bool, a: nat) {
    (if write then v.writable else v.readable) && (write && v.stack ==> a >= v.start + PGSIZE)
  }

  /** The byte at a may be accessed: it lies in an area that allows it, and for writing not in the
      lowest page of a stack. */
  ghost predicate ByteOk(list: seq<Vma>, write: bool, a: nat) {
    exists i :: 0 <= i < |list| && Contains(list[i], a) && Allows(list[i], write, a)
  }

  class Mm {
    var list: seq<Vma>
    var cache: Option<nat>      // the place of the area found last
    var mapCount: nat

    ghost predicate Valid()
      reads this
    {
      Sorted(list) && mapCount == |list| && (cache.Some? ==> cache.value < |list|)
    }

    constructor ()
      ensures Valid() && list == []
    {
      list, cache, mapCount := [], None, 0;
    }

    method Insert(v: Vma)
      requires Valid() && v.start < v.end && forall i :: 0 <= i < |list| ==> Apart(list[i], v)
      modifies this
      ensures Valid() && multiset(list) == multiset(old(list)) + multiset{v}
    {
      var p := 0;
      while p < |list| && list[p].start <= v.start
        invariant 0 <= p <= |list| && forall i :: 0 <= i < p ==> list[i].start <= v.start
      {
        p := p + 1;
      }
      assert p > 0 ==> NoOverlap(list[p - 1], v) by {
        assert p > 0 ==> Apart(list[p - 1], v);
      }
      assert p < |list| ==> NoOverlap(v, list[p]) by {
        assert p < |list| ==> Apart(list[p], v);
      }
      InsertedSorted(list, v, p);
      list, cache := list[..p] + [v] + list[p..],
        match cache { case None => None case Some(c) => Some(if c < p then c else c + 1) };
      mapCount := mapCount + 1;
    }

    /** The area that contains a. The cached area is tried first; the answer is the same. */
    method FindVma(a: nat) returns (r: Option<nat>)
      requires Valid()
      modifies this`cache
      ensures Valid() && FoundAt(list, a, r) && cache == (if r == None then old(cache) else r)
    {
      r := cache;
      if r == None || !Contains(list[r.value], a) {
        r := None;
        var i := 0;
        while i < |list|
          invariant 0 <= i <= |list| && forall k :: 0 <= k < i ==> !Contains(list[k], a)
        {
          if Contains(list[i], a) {
            r := Some(i);
            break;
          }
          i := i + 1;
        }
      }
      if r != None { cache := r; }
    }

    /** Goes from area to area; the answer is yes exactly when every byte may be accessed. */
    method UserMemCheck(addr: nat, len: nat, write: bool) returns (ok: bool)
      requires Valid() && addr < 0x1_0000_0000 && len < 0x1_0000_0000
      modifies this`cache
      ensures Valid()
      ensures ok <==> UserAccess(addr, Wrap(addr + len)) && forall a :: addr <= a < addr + len ==> ByteOk(list, write, a)
    {
      var end := Wrap(addr + len);
      if !UserAccess(addr, end) { return false; }
      var start := addr;
      while start < end
        invariant Valid() && addr <= start && list == old(list)
        invariant forall a :: addr <= a < start && a < end ==> ByteOk(list, write, a)
      {
        var r := FindVma(start);
        if r == None {
          assert !ByteOk(list, write, start);
          return false;
        }
        var v := list[r.value];
        if !(if write then v.writable else v.readable) || (write && v.stack && start < v.start + PGSIZE) {
          NotOk(list, write, start, r.value);
          return false;
        }
        forall a | start <= a < v.end ensures ByteOk(list, write, a) {
          assert Contains(list[r.value], a) && Allows(list[r.value], write, a);
        }
        start := v.end;
      }
      return true;
    }
  }

  lemma NotOk(list: seq<Vma>, write: bool, a: nat, i: nat)
    requires Sorted(list) && i < |list| && Contains(list[i], a) && !Allows(list[i], write, a)
    ensures !ByteOk(list, write, a)
  {
    forall j | 0 <= j < |list| && Contains(list[j], a) ensures !Allows(list[j], write, a) {
      FoundOnce(list, a, i, j);
    }
  }

  lemma InsertedSorted(list: seq<Vma>, v: Vma, p: nat)
    requires Sorted(list) && Inserts(list, v, p) && v.start < v.end
    ensures Sorted(list[..p] + [v] + list[p..])
    ensures multiset(list[..p] + [v] + list[p..]) == multiset(list) + multiset{v}
  {
    var now := list[..p] + [v] + list[p..];
    forall i | 0 <= i < |now| ensures now[i].start < now[i].end { InsertedAt(list, v, p, i); }
    forall i, j | 0 <= i < j < |now| ensures now[i].end <= now[j].start {
      InsertedAt(list, v, p, i);
      InsertedAt(list, v, p, j);
      InsertedPair(list, v, p, i, j);
    }
    InsertedAll(list, v, p);
  }

  lemma InsertedAt(list: seq<Vma>, v: Vma, p: nat, i: nat)
    requires p <= |list| && i <= |list|
    ensures (list[..p] + [v] + list[p..])[i] == if i < p then list[i] else if i == p then v else list[i - 1]
  {}

  lemma InsertedPair(list: seq<Vma>, v: Vma, p: nat, i: nat, j: nat)
    requires Sorted(list) && Inserts(list, v, p) && i < j <= |list|
    ensures (if i < p then list[i] else if i == p then v else list[i - 1]).end <=
            (if j < p then list[j] else if j == p then v else list[j - 1]).start
  {
    assert i < p - 1 ==> list[i].end <= list[p - 1].start;
    assert p < j - 1 ==> list[p].end <= list[j - 1].start;
  }

  lemma InsertedAll(list: seq<Vma>, v: Vma, p: nat)
    requires p <= |list|
    ensures multiset(list[..p] + [v] + list[p..]) == multiset(list) + multiset{v}
  {
    assert list[..p] + list[p..] == list;
  }

  /** Without a process image only kernel addresses pass. */
  method MemCheck(mm: Mm?, addr: nat, len: nat, write: bool) returns (ok: bool)
    requires (mm != null ==> mm.Valid()) && addr < 0x1_0000_0000 && len < 0x1_0000_0000
    modifies mm
    ensures mm == null ==> (ok <==> KernAccess(addr, Wrap(addr + len)))
    ensures mm != null ==>
              mm.Valid() && mm.list == old(mm.list) &&
              (ok <==> UserAccess(addr, Wrap(addr + len)) &&
                       forall a :: addr <= a < addr + len ==> ByteOk(mm.list, write, a))
  {
    if mm != null {
      ok := mm.UserMemCheck(addr, len, write);
    } else {
      ok := KernAccess(addr, Wrap(addr + len));
    }
  }
}
