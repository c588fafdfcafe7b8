/** The kernel's small-block allocator: a ring of free blocks in address order, searched from
    where the last operation left off.  Addresses count allocation units of eight bytes. */
module Slob {
  import opened Options
  import opened Runs
  import opened SlobRing
  import opened SlobBlocks

  class Allocator {
    const arena: int
    var units: map<int, nat>
    var next: map<int, int>
    var slobfree: int
    ghost var free: seq<Run>        // the free blocks in address order
    ghost var live: map<int, nat>   // the allocated blocks and their sizes
    ghost var obtained: nat         // units owned in all

    /** The fields keep the ring of the free blocks, the one last used is among them, no two blocks overlap,
        and no unit is lost. */
    ghost predicate Valid()
      reads this
    {
      Kept(units, next, free, live) && InRing(free, slobfree) && obtained == Total(free) + Sum(live)
    }

    /** The fields keep some ring with the block last used in it, apart from the allocated blocks. */
    ghost predicate Intact()
      reads this
    {
      Sane(units, next, slobfree, live)
    }

    ghost predicate Guarded()
      reads this
    {
      Sentinel(free, live, arena)
    }

    /** The next block looked at is the sentinel, and a request for one unit is satisfied with it. */
    ghost predicate TakesArena(n: nat)
      reads this
    {
      n == 1 && slobfree in next && next[slobfree] == arena
    }

    /** The block the successful search starts after: the one last used, or the one before the new page. */
    ghost function SearchFrom(n: nat, page: Option<int>): int
      reads this
      requires free != []
    {
      if page.Some? && NoneFits(free, n) then BlockBefore(free, page.value) else slobfree
    }

    lemma ValidIsIntact()
      requires Valid()
      ensures Intact()
    {
      assert Ring(units, next, free);
    }

    constructor (arena: int)
      ensures Valid() && Guarded() && this.arena == arena && free == [Run(arena, 1)] && live == map[] && obtained == 1
      ensures next == map[arena := arena] && slobfree == arena
    {
      this.arena := arena;
      units, next, slobfree := map[arena := 1], map[arena := arena], arena;
      free, live, obtained := [Run(arena, 1)], map[], 1;
      new;
      assert LinkedAt(next, free, 0);
      assert free[0].start == slobfree;
      assert Total(free[1..]) == 0;
    }

    // ----- returning a block -----

    /** Walks the ring from where the last operation left it to the block that goes before b. */
    method FindPlace(b: int, ghost i: nat, ghost r: Run) returns (cur: int)
      requires Canonical(free) && Links(next, free) && FitsAt(free, i, r) && r.start == b && InRing(free, slobfree)
      ensures |free| >= 1 && cur == free[Pred(i, |free|)].start
    {
      ghost var c :| 0 <= c < |free| && free[c].start == slobfree;
      ghost var p := Pred(i, |free|);
      cur := slobfree;
      assert LinkedAt(next, free, c);
      while !(cur < b < next[cur])
        invariant 0 <= c < |free| && cur == free[c].start && LinkedAt(next, free, c)
        invariant cur < b < next[cur] ==> c == p
        decreases Distance(c, p, |free|)
      {
        SearchExit(free, i, r, c);
        if cur >= next[cur] && (b > cur || b < next[cur]) {
          break;
        }
        StepRound(p, c, |free|);
        cur := next[cur];
        c := Succ(c, |free|);
        assert LinkedAt(next, free, c);
        SearchExit(free, i, r, c);
      }
      SearchExit(free, i, r, c);
    }

    /** Links a block in after the one before it, joined to the neighbours it touches.  All stays well kept
        exactly unless it touches the only free block from below. */
    method PutBack(b: int, ghost r: Run)
      requires Kept(units, next, free, live) && Returnable(free, live, r) && InRing(free, slobfree)
      requires b == r.start && b in units && units[b] == r.len
      modifies this`units, this`next, this`slobfree, this`free
      ensures free == With(old(free), r) && slobfree == BlockBefore(old(free), b)
      ensures if Hits(old(free), r) then !Intact() && Tangled(units, next, slobfree) && next[slobfree] == b &&
                                         slobfree == b + r.len && units[b] > r.len
              else Kept(units, next, free, live) && InRing(free, slobfree)
    {
      ReturnKept(units, next, free, live, r);
      ghost var i := Before(free, b);
      if Hits(free, r) { ReturnTangles(units, next, free, i, r); }
      var cur := FindPlace(b, i, r);
      var u, x := Rejoin(units, next, cur, b);
      units, next, slobfree, free := u, x, cur, With(free, r);
    }

    /** A page from the page allocator becomes one free block, joined to its neighbours. */
    method AddPage(p: int)
      requires Valid() && Returnable(free, live, Run(p, PAGE_UNITS))
      modifies this
      ensures free == With(old(free), Run(p, PAGE_UNITS)) && live == old(live) && obtained == old(obtained) + PAGE_UNITS
      ensures slobfree == BlockBefore(old(free), p)
      ensures if Hits(old(free), Run(p, PAGE_UNITS))
              then !Intact() && Tangled(units, next, slobfree) && next[slobfree] == p && slobfree == p + PAGE_UNITS &&
                   units[p] > PAGE_UNITS
              else Valid()
    {
      HeaderUnused(units, next, free, live, Run(p, PAGE_UNITS));
      WithCounts(free, live, Run(p, PAGE_UNITS));
      units := units[p := PAGE_UNITS];
      PutBack(p, Run(p, PAGE_UNITS));
      obtained := obtained + PAGE_UNITS;
    }

    /** Frees an allocated block; its header still tells its size. */
    method Free(b: int)
      requires Valid() && b in live
      modifies this
      ensures free == With(old(free), Run(b, old(live)[b])) && live == old(live) - {b} && obtained == old(obtained)
      ensures slobfree == BlockBefore(old(free), b)
      ensures if Hits(old(free), Run(b, old(live)[b])) then !Intact() else Valid()
      ensures old(Guarded()) ==> Guarded() && Valid()
      ensures forall a :: Covers(free, a) <==> Covers(old(free), a) || b <= a < b + old(live)[b]
    {
      ghost var r := Run(b, live[b]);
      FreeReady(units, next, free, live, b);
      WithCounts(free, live - {b}, r);
      if Guarded() { WithSentinel(free, arena, r); }
      live := live - {b};
      PutBack(b, r);
    }

    // ----- taking a block -----

    /** Walks the ring once round, from the block after the one where the last operation left it, to the
        first block that is large enough. */
    method Scan(n: nat) returns (fits: bool, prev: int, cur: int, ghost s: nat, ghost c: nat)
      requires Ring(units, next, free) && InRing(free, slobfree)
      ensures s < |free| && free[s].start == slobfree
      ensures c < |free| && cur == free[c].start && prev == free[Pred(c, |free|)].start
      ensures fits ==> PassesOver(free, s, n, c) && FirstAfter(free, slobfree, n, c)
      ensures !fits ==> NoneFits(free, n)
    {
      s :| s < |free| && free[s].start == slobfree;
      c := Succ(s, |free|);
      assert LinkedAt(next, free, s);
      prev := slobfree;
      cur := next[prev];
      while units[cur] < n
        invariant c < |free| && free[c].start == cur && prev == free[Pred(c, |free|)].start && cur in units
        invariant PassesOver(free, s, n, c)
        decreases Distance(c, s, |free|)
      {
        if cur == slobfree {
          if c != s { DistinctStarts(free, c, s); }
          fits := false;
          return;
        }
        assert LinkedAt(next, free, c);
        StepRound(s, c, |free|);
        prev := cur;
        cur := next[cur];
        c := Succ(c, |free|);
      }
      fits := true;
    }

    /** The same after a page has been added: if the next block is large enough the walk ends there, and the
        ring need not be well kept. */
    method ScanAgain(n: nat) returns (fits: bool, prev: int, cur: int, ghost s: nat, ghost c: nat)
      requires slobfree in next && next[slobfree] in units
      requires units[next[slobfree]] >= n || (Ring(units, next, free) && InRing(free, slobfree))
      ensures units[next[slobfree]] >= n ==> fits && prev == slobfree && cur == next[slobfree]
      ensures Ring(units, next, free) && InRing(free, slobfree) ==>
                c < |free| && cur == free[c].start && prev == free[Pred(c, |free|)].start &&
                (fits ==> FirstAfter(free, slobfree, n, c)) && (!fits ==> NoneFits(free, n))
    {
      if units[next[slobfree]] >= n {
        fits, prev, cur, s, c := true, slobfree, next[slobfree], 0, 0;
        if Ring(units, next, free) && InRing(free, slobfree) {
          s :| s < |free| && free[s].start == slobfree;
          assert LinkedAt(next, free, s);
          c := Succ(s, |free|);
          assert PassesOver(free, s, n, c);
        }
      } else {
        fits, prev, cur, s, c := Scan(n);
      }
    }

    lemma NextKnown()
      requires Valid()
      ensures slobfree in next && next[slobfree] in units && |free| >= 1
    {
      var k :| 0 <= k < |free| && free[k].start == slobfree;
      assert LinkedAt(next, free, k);
    }

    /** Searches the ring for a large enough block; when there is none, asks for a page and searches again,
        which then succeeds. */
    method FindBlock(n: nat, page: Option<int>) returns (found: bool, prev: int, cur: int, ghost c: nat)
      requires Valid() && 0 < n < PAGE_UNITS
      requires page.Some? ==> Returnable(free, live, Run(page.value, PAGE_UNITS))
      modifies this
      ensures live == old(live) && free == Supplied(old(free), n, page)
      ensures !found <==> page.None? && NoneFits(old(free), n)
      ensures if page.Some? && NoneFits(old(free), n)
              then obtained == old(obtained) + PAGE_UNITS && slobfree == BlockBefore(old(free), page.value)
              else units == old(units) && next == old(next) && slobfree == old(slobfree) && obtained == old(obtained)
      ensures if page.Some? && NoneFits(old(free), n) && Hits(old(free), Run(page.value, PAGE_UNITS))
              then Tangled(units, next, slobfree) && prev == slobfree && cur == next[slobfree] == page.value &&
                   slobfree == cur + PAGE_UNITS
              else Valid() && (found ==> FirstAfter(free, slobfree, n, c) && cur == free[c].start &&
                                         prev == free[Pred(c, |free|)].start)
      ensures n == 1 ==> old(slobfree) in old(next) && cur == old(next)[old(slobfree)]
    {
      ghost var s;
      NextKnown();
      found, prev, cur, s, c := Scan(n);
      if found && n == 1 { NextFits(next, free, s, c); }
      if !found && page.Some? {
        PageFits(free, live, page.value, n);
        AddPage(page.value);
        if Valid() { NextKnown(); }
        found, prev, cur, s, c := ScanAgain(n);
      }
    }

    /** Cuts n units from the block found.  In a ring of several blocks all stays well kept; a ring of one
        block, or one that a page has tangled, is lost. */
    method CutBlock(prev: int, cur: int, n: nat, ghost c: nat, ghost tangled: bool)
      requires 0 < n
      requires if tangled then Tangled(units, next, slobfree) && prev == slobfree && cur == next[slobfree] &&
                               cur + n < slobfree && cur !in live
               else Valid() && c < |free| && cur == free[c].start && prev == free[Pred(c, |free|)].start && n <= free[c].len
      modifies this
      ensures live == old(live)[cur := n] && cur !in old(live) && obtained == old(obtained) && slobfree == prev
      ensures tangled ==> !Intact()
      ensures !tangled ==>
                if |old(free)| >= 2 then Valid() && CutFrom(old(free), free, cur, n) && !Hits(free, Run(cur, n))
                else !Intact() && CutAlone(old(units), old(next), units, next, slobfree, cur, n)
      ensures !tangled && old(Guarded()) ==> (Guarded() <==> cur != arena) && (n >= 2 ==> |old(free)| >= 2 && cur != arena)
    {
      ghost var t := free;
      if tangled { TangledCut(units, next, slobfree, live, n); } else { t := CutOutcome(units, next, free, live, arena, c, n); }
      var u, x := Cut(units, next, prev, cur, n);
      units, next, slobfree, free, live := u, x, prev, t, live[cur := n];
    }

    /** Takes the block the search finds.  All stays well kept exactly if it is cut from one of several free
        blocks; the sentinel stays exactly if it is cut from another block. */
    method Alloc(size: nat, page: Option<int>) returns (block: Option<int>, ghost c: nat)
      requires Valid() && 0 < size && size + SLOB_UNIT < PAGE_SIZE
      requires page.Some? ==> Returnable(free, live, Run(page.value, PAGE_UNITS))
      modifies this
      ensures block.None? <==> page.None? && NoneFits(old(free), SlobUnits(size))
      ensures block.None? ==> Valid() && free == old(free) && live == old(live)
      ensures block.Some? ==> block.value !in old(live) && live == old(live)[block.value := SlobUnits(size)]
      ensures block.Some? ==>
                var ring := Supplied(old(free), SlobUnits(size), page);
                if |ring| >= 2 then Valid() && CutFrom(ring, free, block.value, SlobUnits(size)) &&
                                    !Hits(free, Run(block.value, SlobUnits(size))) &&
                                    Finds(ring, old(SearchFrom(SlobUnits(size), page)), SlobUnits(size), c, block.value, slobfree)
                else !Intact()
      ensures |old(free)| == 1 && !NoneFits(old(free), SlobUnits(size)) ==>
                CutAlone(old(units), old(next), units, next, slobfree, block.value, SlobUnits(size))
      ensures obtained == old(obtained) + if page.Some? && NoneFits(old(free), SlobUnits(size)) then PAGE_UNITS else 0
      ensures SlobUnits(size) == 1 ==> old(slobfree) in old(next) && block == Some(old(next)[old(slobfree)])
      ensures old(Guarded()) && (page.Some? ==> Off(Run(page.value, PAGE_UNITS), arena)) && block.Some? ==>
                (Guarded() <==> !old(TakesArena(SlobUnits(size)))) && (SlobUnits(size) >= 2 ==> Valid())
    {
      var n := SlobUnits(size);
      ghost var hit := page.Some? && NoneFits(free, n) && Hits(free, Run(page.value, PAGE_UNITS));
      if page.Some? { HeaderUnused(units, next, free, live, Run(page.value, PAGE_UNITS)); }
      if hit { HitsJoin(free, Run(page.value, PAGE_UNITS)); }
      ghost var guarded := Guarded() && (page.Some? ==> Off(Run(page.value, PAGE_UNITS), arena));
      if guarded && page.Some? { WithSentinel(free, arena, Run(page.value, PAGE_UNITS)); }
      var found, prev, cur;
      found, prev, cur, c := FindBlock(n, page);
      if !found { return None, c; }
      CutBlock(prev, cur, n, c, hit);
      block := Some(cur);
    }

    // ----- kmalloc and kfree -----

    /** Small kernel allocations carry a one-unit header in front of what the caller sees.  Asked for
        nothing, the header is all there is, and may be put on the sentinel. */
    method Kmalloc(size: nat, page: Option<int>) returns (block: Option<int>, ghost c: nat)
      requires Valid() && size < PAGE_SIZE - 2 * SLOB_UNIT
      requires page.Some? ==> Returnable(free, live, Run(page.value, PAGE_UNITS))
      modifies this
      ensures block.None? <==> page.None? && NoneFits(old(free), KmallocUnits(size))
      ensures block.None? ==> Valid() && free == old(free) && live == old(live)
      ensures block.Some? ==> block.value - 1 !in old(live) && live == old(live)[block.value - 1 := KmallocUnits(size)]
      ensures block.Some? ==>
                var ring := Supplied(old(free), KmallocUnits(size), page);
                if |ring| >= 2 then Valid() && CutFrom(ring, free, block.value - 1, KmallocUnits(size)) &&
                                    !Hits(free, Run(block.value - 1, KmallocUnits(size))) &&
                                    Finds(ring, old(SearchFrom(KmallocUnits(size), page)), KmallocUnits(size), c,
                                          block.value - 1, slobfree)
                else !Intact()
      ensures |old(free)| == 1 && !NoneFits(old(free), KmallocUnits(size)) ==>
                CutAlone(old(units), old(next), units, next, slobfree, block.value - 1, KmallocUnits(size))
      ensures obtained == old(obtained) + if page.Some? && NoneFits(old(free), KmallocUnits(size)) then PAGE_UNITS else 0
      ensures size == 0 ==> old(slobfree) in old(next) && block == Some(old(next)[old(slobfree)] + 1)
      ensures old(Guarded()) && (page.Some? ==> Off(Run(page.value, PAGE_UNITS), arena)) && block.Some? ==>
                (Guarded() <==> size > 0 || old(next)[old(slobfree)] != arena) && (size > 0 ==> Valid())
    {
      KmallocSizes(size);
      NextKnown();
      var m;
      m, c := Alloc(size + SLOB_UNIT, page);
      block := if m.None? then None else Some(m.value + 1);
    }

    method Kfree(block: int)
      requires Valid() && block - 1 in live
      modifies this
      ensures free == With(old(free), Run(block - 1, old(live)[block - 1]))
      ensures live == old(live) - {block - 1} && obtained == old(obtained) && slobfree == BlockBefore(old(free), block - 1)
      ensures if Hits(old(free), Run(block - 1, old(live)[block - 1])) then !Intact() else Valid()
      ensures old(Guarded()) ==> Guarded() && Valid()
      ensures forall a :: Covers(free, a) <==> Covers(old(free), a) || block - 1 <= a < block - 1 + old(live)[block - 1]
    {
      Free(block - 1);
    }

    /** A request right after one for as much, which has been cut from block c of the ring. */
    method KmallocAgain(size: nat, ghost ring: seq<Run>, ghost c: nat) returns (block: Option<int>)
      requires Valid() && size < PAGE_SIZE - 2 * SLOB_UNIT
      modifies this
      ensures Canonical(ring) && c < |ring| && |ring| >= 2 && 2 * KmallocUnits(size) <= ring[c].len &&
              old(free) == Take(ring, c, KmallocUnits(size)) && old(slobfree) == ring[Pred(c, |ring|)].start ==>
                Valid() && block == Some(ring[c].start + KmallocUnits(size) + 1)
    {
      ghost var n, was, at := KmallocUnits(size), free, slobfree;
      KmallocSizes(size);
      ghost var k;
      block, k := Kmalloc(size, None);
      if Canonical(ring) && c < |ring| && |ring| >= 2 && 2 * n <= ring[c].len && was == Take(ring, c, n) &&
         at == ring[Pred(c, |ring|)].start
      {
        TakeLen(ring, c, n);
        TakeAt(ring, c, n, c);
        assert was[c].len >= n;
        FindsNext(ring, c, n, k, block.value - 1, slobfree);
      }
    }

    /** Two equal requests, one right after the other: where the block found for the first has units enough for
        both, the second gets those that follow, and needs no page. */
    method KmallocTwice(size: nat, page: Option<int>) returns (first: Option<int>, second: Option<int>, ghost c: nat)
      requires Valid() && size < PAGE_SIZE - 2 * SLOB_UNIT
      requires page.Some? ==> Returnable(free, live, Run(page.value, PAGE_UNITS))
      requires |Supplied(free, KmallocUnits(size), page)| >= 2
      modifies this
      ensures first.Some? ==>
                var ring, n := Supplied(old(free), KmallocUnits(size), page), KmallocUnits(size);
                c < |ring| && ring[c].start == first.value - 1 &&
                (2 * n <= ring[c].len ==> Valid() && second == Some(first.value + n))
    {
      ghost var ring, n, from := Supplied(free, KmallocUnits(size), page), KmallocUnits(size), SearchFrom(KmallocUnits(size), page);
      SuppliedCanonical(free, live, n, page);
      KmallocSizes(size);
      first, c := Kmalloc(size, page);
      if first.None? { return None, None, c; }
      if 2 * n <= ring[c].len { CutAgain(ring, free, from, c, n, first.value - 1, slobfree); }
      second := KmallocAgain(size, ring, c);
    }

    /** Frees a block that has been cut from the blocks of a ring. */
    method KfreeCut(block: int, ghost ring: seq<Run>, ghost was: map<int, nat>, ghost n: nat)
      requires Valid() && live == was[block - 1 := n] && block - 1 !in was && n > 0 && Canonical(ring)
      requires CutFrom(ring, free, block - 1, n) && !Hits(free, Run(block - 1, n))
      modifies this
      ensures Valid() && free == ring && live == was && obtained == old(obtained)
    {
      MapBack(live, was, block - 1, n);
      assert LiveAt(units, free, live, block - 1);
      CutThenWith(ring, free, block - 1, n);
      Kfree(block);
    }

    /** An allocation that is cut from one of several free blocks, or finds none. */
    method KmallocCut(size: nat, page: Option<int>, ghost ring: seq<Run>, ghost n: nat) returns (block: Option<int>)
      requires Valid() && size < PAGE_SIZE - 2 * SLOB_UNIT && n == KmallocUnits(size)
      requires page.Some? ==> Returnable(free, live, Run(page.value, PAGE_UNITS))
      requires ring == Supplied(free, n, page) && (|ring| >= 2 || (page.None? && NoneFits(free, n)))
      modifies this
      ensures Valid() && obtained == old(obtained) + if page.Some? && NoneFits(old(free), n) then PAGE_UNITS else 0
      ensures block.None? ==> free == ring && live == old(live)
      ensures block.Some? ==> block.value - 1 !in old(live) && live == old(live)[block.value - 1 := n]
      ensures block.Some? ==> CutFrom(ring, free, block.value - 1, n) && !Hits(free, Run(block.value - 1, n))
    {
      ghost var c;
      block, c := Kmalloc(size, page);
    }

    /** An allocation from one of several free blocks that is freed again leaves the free blocks there were,
        with the page among them, joined to the neighbours it touches, if one was brought in. */
    method KmallocThenKfree(size: nat, page: Option<int>)
      requires Valid() && size < PAGE_SIZE - 2 * SLOB_UNIT
      requires page.Some? ==> Returnable(free, live, Run(page.value, PAGE_UNITS))
      requires |Supplied(free, KmallocUnits(size), page)| >= 2 || (page.None? && NoneFits(free, KmallocUnits(size)))
      modifies this
      ensures Valid() && live == old(live) && free == Supplied(old(free), KmallocUnits(size), page)
      ensures obtained == old(obtained) + if page.Some? && NoneFits(old(free), KmallocUnits(size)) then PAGE_UNITS else 0
    {
      ghost var n := KmallocUnits(size);
      ghost var ring := Supplied(free, n, page);
      KmallocSizes(size);
      SuppliedCanonical(free, live, n, page);
      var block := KmallocCut(size, page, ring, n);
      if block.Some? { KfreeCut(block.value, ring, old(live), n); }
    }
  }

  // ----- what happens to a ring of one block -----

  /** On the first ring, of the sentinel alone, a request for nothing gets the sentinel, which is then both
      allocated and linked; the search for its place, when it is freed, never ends. */
  method ArenaHandedOut(arena: int) returns (heap: Allocator, block: Option<int>)
    ensures fresh(heap) && heap.arena == arena && block == Some(arena + 1) && !heap.Intact()
    ensures heap.live == map[arena := 1] && heap.next == map[arena := arena] && heap.slobfree == arena
    ensures !SearchEnds(heap.next, heap.slobfree, arena)
  {
    heap := new Allocator(arena);
    ghost var c;
    block, c := heap.Kmalloc(0, None);
    AloneSearch(heap.next, arena);
  }

  /** A block of len units at a, alone in the ring. */
  ghost predicate Alone(units: map<int, nat>, next: map<int, int>, a: int, len: nat) {
    a in units && units[a] == len && a in next && next[a] == a
  }

  /** Once n of its units have been taken, a search for more than the rest never ends, and a request for less
      leaves the block it gets linked. */
  lemma AloneCut(units: map<int, nat>, next: map<int, int>, a: int, len: nat, n: nat, m: nat)
    requires Alone(units, next, a, len) && 0 < n < len && 0 < m
    ensures var u, x := CutUnits(units, a, n), CutNext(units, next, a, a, n);
            x[a] == a + n && (ScanEnds(u, x, a, m) <==> m <= len - n) &&
            (m < len - n ==> CutNext(u, x, a, a + n, m)[a + n + m] == a + n)
  {
    var u, x := CutUnits(units, a, n), CutNext(units, next, a, a, n);
    StrayScan(u, x, a, m);
  }

  /** Freed again, its units and the rest are joined and stay linked to each other: the fields of no ring.  All
      of it, taken and freed, is searched for without end. */
  lemma AloneFreed(units: map<int, nat>, next: map<int, int>, a: int, len: nat, n: nat, live: map<int, nat>)
    requires Alone(units, next, a, len) && 0 < n <= len
    ensures var u, x := CutUnits(units, a, n), CutNext(units, next, a, a, n);
            if n == len then !SearchEnds(x, a, a)
            else StopsAt(x, Walk(x, a, 1), a) && Walk(x, a, 1) == a + n &&
                 !Sane(RejoinUnits(u, x, a + n, a), RejoinNext(u, x, a + n, a), a + n, live)
  {
    var u, x := CutUnits(units, a, n), CutNext(units, next, a, a, n);
    if n == len {
      AloneSearch(x, a);
    } else {
      assert Walk(x, a, 0) == a;
      TangledIsNotSane(RejoinUnits(u, x, a + n, a), RejoinNext(u, x, a + n, a), a + n, live);
    }
  }

  /** In a ring of the sentinel and one other block, last used, a request for one unit takes the sentinel and all
      stays well kept, but the other block is now alone. */
  lemma SentinelTaken(units: map<int, nat>, next: map<int, int>, live: map<int, nat>, arena: int, a: int, len: nat)
    requires Kept(units, next, [Run(arena, 1), Run(a, len)], live)
    ensures arena in units && units[arena] == 1 && arena in next &&
            var u, x := CutUnits(units, arena, 1), CutNext(units, next, a, arena, 1);
            Kept(u, x, [Run(a, len)], live[arena := 1]) && Alone(u, x, a, len)
  {
    var rs := [Run(arena, 1), Run(a, len)];
    assert LinkedAt(next, rs, 0) && LinkedAt(next, rs, 1);
    CutKept(units, next, rs, live, 0, 1);
    assert Take(rs, 0, 1) == [Run(a, len)];
  }

  /** A request for n units then breaks the ring: a search for more than the rest never ends, and a request for
      less leaves the block it gets linked. */
  lemma SentinelGone(units: map<int, nat>, next: map<int, int>, live: map<int, nat>, arena: int, a: int, len: nat,
                     n: nat, m: nat)
    requires Kept(units, next, [Run(arena, 1), Run(a, len)], live) && 0 < n < len && 0 < m
    ensures arena in units && units[arena] == 1 && arena in next &&
            var u1, x1 := CutUnits(units, arena, 1), CutNext(units, next, a, arena, 1);
            Alone(u1, x1, a, len) &&
            var u2, x2 := CutUnits(u1, a, n), CutNext(u1, x1, a, a, n);
            !Sane(u2, x2, a, live[arena := 1][a := n]) && (ScanEnds(u2, x2, a, m) <==> m <= len - n) &&
            x2[a] == a + n && (m < len - n ==> CutNext(u2, x2, a, a + n, m)[a + n + m] == a + n)
  {
    SentinelTaken(units, next, live, arena, a, len);
    var u1, x1 := CutUnits(units, arena, 1), CutNext(units, next, a, arena, 1);
    CutBroken(u1, x1, [Run(a, len)], live[arena := 1], n);
    AloneCut(u1, x1, a, len, n, m);
  }

  /** The sentinel at 0 and a page at 1000 make such a ring. */
  lemma PageAndSentinel()
    ensures Kept(map[0 := 1, 1000 := 512], map[0 := 1000, 1000 := 0], [Run(0, 1), Run(1000, 512)], map[])
  {
    var next, rs := map[0 := 1000, 1000 := 0], [Run(0, 1), Run(1000, 512)];
    assert LinkedAt(next, rs, 0) && LinkedAt(next, rs, 1);
  }

  /** There, after requests for nothing and for eight bytes, a request for 511 units is searched for without end,
      and one for ten gets block 1002 and leaves it linked. */
  lemma SentinelGoneAt1000()
    ensures var u0, x0 := map[0 := 1, 1000 := 512], map[0 := 1000, 1000 := 0];
            var u1, x1 := CutUnits(u0, 0, 1), CutNext(u0, x0, 1000, 0, 1);
            Alone(u1, x1, 1000, 512) &&
            var u2, x2 := CutUnits(u1, 1000, 2), CutNext(u1, x1, 1000, 1000, 2);
            !ScanEnds(u2, x2, 1000, 511) && 1002 in u2 && u2[1002] == 510 &&
            CutNext(u2, x2, 1000, 1002, 10)[1012] == 1002
  {
    PageAndSentinel();
    var u0, x0 := map[0 := 1, 1000 := 512], map[0 := 1000, 1000 := 0];
    SentinelGone(u0, x0, map[], 0, 1000, 512, 2, 511);
    SentinelGone(u0, x0, map[], 0, 1000, 512, 2, 10);
  }
}
