/** Free and allocated blocks of the small-block allocator together, and the sentinel that guards them. */
module SlobBlocks {
  import opened Options
  import opened Runs
  import opened SlobRing

  const PAGE_SIZE: nat := 4096
  const SLOB_UNIT: nat := 8
  const PAGE_UNITS: nat := 512

  function SlobUnits(size: nat): nat { (size + SLOB_UNIT - 1) / SLOB_UNIT }

  /** With a header of one unit. */
  function KmallocUnits(size: nat): nat { SlobUnits(size + SLOB_UNIT) }

  /** Only a request for nothing is for one unit; the block has room for the header and the caller's bytes. */
  lemma KmallocSizes(size: nat)
    ensures KmallocUnits(size) >= 1 && (KmallocUnits(size) == 1 <==> size == 0)
    ensures KmallocUnits(size) * SLOB_UNIT >= size + SLOB_UNIT
  {}

  // ----- no two blocks overlap -----

  predicate Disjoint(a: Run, b: Run) { End(a) <= b.start || End(b) <= a.start }

  /** An allocated block keeps its size in its header and is apart from everything free. */
  ghost predicate LiveAt(units: map<int, nat>, rs: seq<Run>, live: map<int, nat>, b: int)
    requires b in live
  {
    live[b] > 0 && b in units && units[b] == live[b] && Apart(rs, Run(b, live[b]))
  }

  /** Two allocated blocks do not overlap. */
  ghost predicate LivePair(live: map<int, nat>, b: int, c: int)
    requires b in live && c in live
  {
    Disjoint(Run(b, live[b]), Run(c, live[c]))
  }

  ghost predicate LiveFits(units: map<int, nat>, rs: seq<Run>, live: map<int, nat>) {
    (forall b {:trigger LiveAt(units, rs, live, b)} :: b in live ==> LiveAt(units, rs, live, b)) &&
    (forall b, c {:trigger LivePair(live, b, c)} :: b in live && c in live && b != c ==> LivePair(live, b, c))
  }

  /** The fields are those of the ring of the free blocks, and no two blocks, free or allocated, overlap. */
  ghost predicate Kept(units: map<int, nat>, next: map<int, int>, rs: seq<Run>, live: map<int, nat>) {
    Ring(units, next, rs) && LiveFits(units, rs, live)
  }

  /** There are free blocks of which the fields keep the ring, the one last used among them. */
  ghost predicate Sane(units: map<int, nat>, next: map<int, int>, slobfree: int, live: map<int, nat>) {
    exists rs {:trigger Ring(units, next, rs)} :: Kept(units, next, rs, live) && InRing(rs, slobfree)
  }

  // ----- how many units there are -----

  ghost function Pick(s: set<int>): (k: int)
    requires exists x :: x in s
    ensures k in s
  {
    var k :| k in s; k
  }

  ghost function Sum(m: map<int, nat>): nat {
    if exists k :: k in m.Keys then m[Pick(m.Keys)] + Sum(m - {Pick(m.Keys)}) else 0
  }

  lemma {:induction false} SumWithout(m: map<int, nat>, k: int)
    requires k in m
    ensures Sum(m) == m[k] + Sum(m - {k})
    decreases |m|
  {
    var j := Pick(m.Keys);
    if j != k {
      SumWithout(m - {j}, k);
      SumWithout(m - {k}, j);
      assert m - {j} - {k} == m - {k} - {j};
    }
  }

  lemma SumWith(m: map<int, nat>, k: int, n: nat)
    requires k !in m
    ensures Sum(m[k := n]) == Sum(m) + n
  {
    SumWithout(m[k := n], k);
    assert m[k := n] - {k} == m;
  }

  lemma MapBack(m: map<int, nat>, was: map<int, nat>, k: int, n: nat)
    requires m == was[k := n] && k !in was
    ensures m - {k} == was
  {}

  // ----- returning a block -----

  /** A block that is neither free nor allocated. */
  ghost predicate Returnable(rs: seq<Run>, live: map<int, nat>, r: Run) {
    r.len > 0 && Apart(rs, r) && forall b :: b in live ==> Disjoint(Run(b, live[b]), r)
  }

  /** The block touches the only free block from below. */
  predicate Hits(rs: seq<Run>, r: Run) { |rs| == 1 && End(r) == rs[0].start }

  /** The free blocks with r put in its place, joined to the neighbours it touches. */
  function With(rs: seq<Run>, r: Run): seq<Run> { Insert(rs, Before(rs, r.start), r) }

  lemma InsertApart(rs: seq<Run>, i: nat, r: Run, c: Run)
    requires FitsAt(rs, i, r) && Apart(rs, c) && Disjoint(c, r) && c.len > 0
    ensures Apart(Insert(rs, i, r), c)
  {
    var t := Insert(rs, i, r);
    forall k | 0 <= k < |t| ensures End(t[k]) <= c.start || End(c) <= t[k].start {
      SpliceAt(rs, Lo(rs, i, r), Hi(rs, i, r), Joined(rs, i, r), k);
    }
  }

  lemma InsertLive(units: map<int, nat>, next: map<int, int>, rs: seq<Run>, live: map<int, nat>, i: nat, r: Run)
    requires LiveFits(units, rs, live) && Incoming(units, next, rs, i, r) && Returnable(rs, live, r)
    ensures var cur := rs[Pred(i, |rs|)].start;
            cur in next && next[cur] in units && cur in units && cur != r.start &&
            LiveFits(RejoinUnits(units, next, cur, r.start), Insert(rs, i, r), live)
  {
    RejoinUnitsAt(units, next, rs, i, r);
    var cur := rs[Pred(i, |rs|)].start;
    var u, t := RejoinUnits(units, next, cur, r.start), Insert(rs, i, r);
    forall b | b in live ensures LiveAt(u, t, live, b) {
      assert LiveAt(units, rs, live, b);
      InsertApart(rs, i, r, Run(b, live[b]));
    }
  }

  /** The field updates of a return keep everything, and bring the block back, exactly unless it touches the
      only free block from below: then they are the fields of no ring. */
  lemma ReturnKept(units: map<int, nat>, next: map<int, int>, rs: seq<Run>, live: map<int, nat>, r: Run)
    requires Kept(units, next, rs, live) && rs != [] && Returnable(rs, live, r) && r.start in units && units[r.start] == r.len
    ensures var i := Before(rs, r.start);
            var cur := rs[Pred(i, |rs|)].start;
            FitsAt(rs, i, r) && cur in next && next[cur] in next && next[cur] in units && cur in units && cur != r.start &&
            var u, x := RejoinUnits(units, next, cur, r.start), RejoinNext(units, next, cur, r.start);
            if Hits(rs, r) then !Sane(u, x, cur, live)
            else Kept(u, x, With(rs, r), live) && InRing(With(rs, r), cur)
  {
    var i := Before(rs, r.start);
    BeforeFits(rs, r);
    ReturningPlace(units, next, rs, i, r);
    InsertLive(units, next, rs, live, i, r);
    if Hits(rs, r) {
      assert TouchesRight(rs, i, r);
      ReturnTangles(units, next, rs, i, r);
      TangledIsNotSane(RejoinUnits(units, next, rs[0].start, r.start), RejoinNext(units, next, rs[0].start, r.start),
                       rs[0].start, live);
    } else {
      RejoinRing(units, next, rs, i, r);
    }
  }

  lemma TangledIsNotSane(units: map<int, nat>, next: map<int, int>, at: int, live: map<int, nat>)
    requires Tangled(units, next, at)
    ensures !Sane(units, next, at, live)
  {
    forall rs | Ring(units, next, rs) ensures !InRing(rs, at) { TangledNoRing(units, next, rs, at); }
  }

  lemma TangledCut(units: map<int, nat>, next: map<int, int>, at: int, live: map<int, nat>, n: nat)
    requires Tangled(units, next, at) && 0 < n && next[at] + n < at
    ensures var b := next[at];
            !Sane(CutUnits(units, b, n), CutNext(units, next, at, b, n), at, live[b := n])
  {
    CutTangled(units, next, at, n);
    TangledIsNotSane(CutUnits(units, next[at], n), CutNext(units, next, at, next[at], n), at, live[next[at] := n]);
  }

  lemma WithCounts(rs: seq<Run>, live: map<int, nat>, r: Run)
    requires Canonical(rs) && Returnable(rs, live, r)
    ensures Canonical(With(rs, r)) && Total(With(rs, r)) == Total(rs) + r.len
    ensures forall a :: Covers(With(rs, r), a) <==> Covers(rs, a) || r.start <= a < End(r)
  {
    var i := Before(rs, r.start);
    BeforeFits(rs, r);
    InsertCanonical(rs, i, r);
    InsertTotal(rs, i, r);
    forall a ensures Covers(With(rs, r), a) <==> Covers(rs, a) || r.start <= a < End(r) { InsertCovers(rs, i, r, a); }
  }

  /** A block that touches the only free block from below becomes one block with it. */
  lemma HitsJoin(rs: seq<Run>, r: Run)
    requires Hits(rs, r) && Canonical(rs) && r.len > 0
    ensures |With(rs, r)| == 1
  {
    var i := Before(rs, r.start);
    assert i == 0;
    assert Splice(rs, 0, 1, Joined(rs, i, r)) == [Joined(rs, i, r)];
  }

  lemma LiveFewer(units: map<int, nat>, rs: seq<Run>, live: map<int, nat>, b: int)
    requires LiveFits(units, rs, live) && b in live
    ensures LiveFits(units, rs, live - {b}) && Returnable(rs, live - {b}, Run(b, live[b]))
  {
    assert LiveAt(units, rs, live, b);
    var l := live - {b};
    forall c | c in l ensures LiveAt(units, rs, l, c) && Disjoint(Run(c, l[c]), Run(b, live[b])) {
      assert LiveAt(units, rs, live, c) && LivePair(live, c, b);
    }
    forall c, d | c in l && d in l && c != d ensures LivePair(l, c, d) { assert LivePair(live, c, d); }
  }

  /** An allocated block can be returned. */
  lemma FreeReady(units: map<int, nat>, next: map<int, int>, rs: seq<Run>, live: map<int, nat>, b: int)
    requires Kept(units, next, rs, live) && b in live
    ensures Kept(units, next, rs, live - {b}) && Returnable(rs, live - {b}, Run(b, live[b]))
    ensures b in units && units[b] == live[b] && Sum(live) == live[b] + Sum(live - {b})
  {
    LiveFewer(units, rs, live, b);
    assert LiveAt(units, rs, live, b);
    SumWithout(live, b);
  }

  /** Writing the header of a block that is neither free nor allocated disturbs nothing. */
  lemma HeaderUnused(units: map<int, nat>, next: map<int, int>, rs: seq<Run>, live: map<int, nat>, r: Run)
    requires Kept(units, next, rs, live) && Returnable(rs, live, r)
    ensures Kept(units[r.start := r.len], next, rs, live) && r.start !in live
  {
    var u := units[r.start := r.len];
    forall k | 0 <= k < |rs| ensures rs[k].start != r.start { assert rs[k].len > 0; }
    forall b | b in live ensures b != r.start && LiveAt(u, rs, live, b) {
      assert LiveAt(units, rs, live, b);
      assert Disjoint(Run(b, live[b]), r);
    }
  }

  // ----- taking a block -----

  ghost predicate NoneFits(rs: seq<Run>, n: nat) { forall k :: 0 <= k < |rs| ==> rs[k].len < n }

  /** The free blocks from which a request for n units is served: the page is added if none fits. */
  ghost function Supplied(rs: seq<Run>, n: nat, page: Option<int>): seq<Run> {
    if page.Some? && NoneFits(rs, n) then With(rs, Run(page.value, PAGE_UNITS)) else rs
  }

  lemma SuppliedCanonical(rs: seq<Run>, live: map<int, nat>, n: nat, page: Option<int>)
    requires Canonical(rs) && (page.Some? ==> Returnable(rs, live, Run(page.value, PAGE_UNITS)))
    ensures Canonical(Supplied(rs, n, page))
  {
    if page.Some? { WithCounts(rs, live, Run(page.value, PAGE_UNITS)); }
  }

  lemma TakeApart(rs: seq<Run>, k: nat, n: nat, c: Run)
    requires Canonical(rs) && k < |rs| && 0 < n <= rs[k].len
    requires Apart(rs, c) || c == Run(rs[k].start, n)
    ensures Apart(Take(rs, k, n), c)
  {
    var t := Take(rs, k, n);
    forall j | 0 <= j < |t| ensures End(t[j]) <= c.start || End(c) <= t[j].start {
      TakeAt(rs, k, n, j);
      var i := if j < k || rs[k].len > n then j else j + 1;
      if i < k { assert End(rs[i]) < rs[k].start; }
      if k < i { assert End(rs[k]) < rs[i].start; }
    }
  }

  lemma NotLive(units: map<int, nat>, rs: seq<Run>, live: map<int, nat>, k: nat)
    requires Canonical(rs) && LiveFits(units, rs, live) && k < |rs|
    ensures rs[k].start !in live
  {
    var b := rs[k].start;
    assert b in live ==> !LiveAt(units, rs, live, b);
  }

  lemma TakeLive(units: map<int, nat>, u: map<int, nat>, rs: seq<Run>, live: map<int, nat>, k: nat, n: nat)
    requires Canonical(rs) && LiveFits(units, rs, live) && k < |rs| && 0 < n <= rs[k].len
    requires rs[k].start in u && u[rs[k].start] == n
    requires forall b :: b in units && b != rs[k].start && b != rs[k].start + n ==> b in u && u[b] == units[b]
    requires rs[k].len == n ==> u == units
    ensures LiveFits(u, Take(rs, k, n), live[rs[k].start := n])
  {
    NotLive(units, rs, live, k);
    var cur := rs[k].start;
    var t, live' := Take(rs, k, n), live[cur := n];
    forall b | b in live' ensures LiveAt(u, t, live', b) {
      if b != cur { assert LiveAt(units, rs, live, b); }
      TakeApart(rs, k, n, Run(b, live'[b]));
    }
    forall b, c | b in live' && c in live' && b != c ensures LivePair(live', b, c) {
      if b == cur { assert LiveAt(units, rs, live, c); }
      else if c == cur { assert LiveAt(units, rs, live, b); }
      else { assert LivePair(live, b, c); }
    }
  }

  /** Cutting units from a block of a ring of several keeps everything, and makes them an allocated block. */
  lemma CutKept(units: map<int, nat>, next: map<int, int>, rs: seq<Run>, live: map<int, nat>, k: nat, n: nat)
    requires Kept(units, next, rs, live) && k < |rs| && |rs| >= 2 && 0 < n <= rs[k].len
    ensures var prev, cur, t := rs[Pred(k, |rs|)].start, rs[k].start, Take(rs, k, n);
            cur in units && n <= units[cur] && cur in next && cur !in live && InRing(t, prev) &&
            Kept(CutUnits(units, cur, n), CutNext(units, next, prev, cur, n), t, live[cur := n]) &&
            Total(t) + Sum(live[cur := n]) == Total(rs) + Sum(live) && !Hits(t, Run(cur, n))
  {
    var cur := rs[k].start;
    CutRing(units, next, rs, k, n);
    TakeKeepsPrev(rs, k, n);
    NotLive(units, rs, live, k);
    TakeLive(units, CutUnits(units, cur, n), rs, live, k, n);
    TakeTotal(rs, k, n);
    SumWith(live, cur, n);
    TakeMissed(rs, k, n);
  }

  /** What is cut off does not touch the only block that is left from below. */
  lemma TakeMissed(rs: seq<Run>, k: nat, n: nat)
    requires Canonical(rs) && k < |rs| && |rs| >= 2 && 0 < n <= rs[k].len
    ensures !Hits(Take(rs, k, n), Run(rs[k].start, n))
  {
    TakeLen(rs, k, n);
    if |Take(rs, k, n)| == 1 {
      TakeAt(rs, k, n, 0);
      assert End(rs[0]) < rs[1].start;
    }
  }

  /** Cutting units from the only block leaves fields in which the block last used is in no ring, or is both
      allocated and linked. */
  lemma CutBroken(units: map<int, nat>, next: map<int, int>, rs: seq<Run>, live: map<int, nat>, n: nat)
    requires Kept(units, next, rs, live) && |rs| == 1 && 0 < n <= rs[0].len
    ensures var cur := rs[0].start;
            cur in units && n <= units[cur] && cur in next && cur !in live &&
            !Sane(CutUnits(units, cur, n), CutNext(units, next, cur, cur, n), cur, live[cur := n])
  {
    NotLive(units, rs, live, 0);
    CutOnly(units, next, rs, n);
    var cur := rs[0].start;
    var u, x, l := CutUnits(units, cur, n), CutNext(units, next, cur, cur, n), live[cur := n];
    forall ts: seq<Run> | Kept(u, x, ts, l) ensures !InRing(ts, cur) {
      if n < rs[0].len {
        StrayNoRing(u, x, ts, cur);
      } else {
        forall k | 0 <= k < |ts| ensures ts[k].start != cur { NotLive(u, ts, l, k); }
      }
    }
  }

  /** The free blocks ts are those of rs without the n units at b, all of which were free. */
  ghost predicate CutFrom(rs: seq<Run>, ts: seq<Run>, b: int, n: nat) {
    (forall a :: Covers(ts, a) <==> Covers(rs, a) && !(b <= a < b + n)) && (forall a :: b <= a < b + n ==> Covers(rs, a))
  }

  lemma TakeCuts(rs: seq<Run>, k: nat, n: nat)
    requires Canonical(rs) && k < |rs| && 0 < n <= rs[k].len
    ensures CutFrom(rs, Take(rs, k, n), rs[k].start, n)
  {
    var cur := rs[k].start;
    forall a ensures Covers(Take(rs, k, n), a) <==> Covers(rs, a) && !(cur <= a < cur + n) { TakeCovers(rs, k, n, a); }
    assert forall a :: cur <= a < cur + n ==> Holds(rs[k], a);
  }

  /** There is only one way to cut units off the front of a block. */
  lemma CutIsTake(rs: seq<Run>, ts: seq<Run>, k: nat, n: nat)
    requires Canonical(rs) && Canonical(ts) && k < |rs| && 0 < n <= rs[k].len && CutFrom(rs, ts, rs[k].start, n)
    ensures ts == Take(rs, k, n)
  {
    TakeCuts(rs, k, n);
    TakeCanonical(rs, k, n);
    SameCoverSameRuns(ts, Take(rs, k, n));
  }

  /** What has been cut, put back, gives the blocks there were. */
  lemma CutThenWith(rs: seq<Run>, ts: seq<Run>, b: int, n: nat)
    requires Canonical(rs) && Canonical(ts) && 0 < n && CutFrom(rs, ts, b, n) && Apart(ts, Run(b, n))
    ensures With(ts, Run(b, n)) == rs
  {
    WithCounts(ts, map[], Run(b, n));
    SameCoverSameRuns(With(ts, Run(b, n)), rs);
  }

  /** After a cut that leaves enough, an equal request does not fail. */
  lemma CutAgain(rs: seq<Run>, ts: seq<Run>, at: int, k: nat, n: nat, b: int, before: int)
    requires Canonical(rs) && Canonical(ts) && |rs| >= 2 && 0 < n && Finds(rs, at, n, k, b, before)
    requires CutFrom(rs, ts, b, n) && 2 * n <= rs[k].len
    ensures |ts| == |rs| && !NoneFits(ts, n)
    ensures ts == Take(rs, k, n)
  {
    CutIsTake(rs, ts, k, n);
    TakeAt(rs, k, n, k);
    TakeLen(rs, k, n);
    assert ts[k].len >= n;
  }

  /** A stretch of free addresses lies within one free run. */
  lemma LargeRun(rs: seq<Run>, p: int, n: nat)
    requires Canonical(rs) && n > 0 && forall a :: p <= a < p + n ==> Covers(rs, a)
    ensures exists k :: 0 <= k < |rs| && rs[k].len >= n
  {
    assert Covers(rs, p);
    var k :| 0 <= k < |rs| && Holds(rs[k], p);
    var e := End(rs[k]);
    forall j | 0 <= j < |rs| ensures !Holds(rs[j], e) {
      if j < k { assert End(rs[j]) < rs[k].start; }
      if k < j { assert End(rs[k]) < rs[j].start; }
    }
    assert !Covers(rs, e);
  }

  /** With a page added there is room. */
  lemma PageFits(rs: seq<Run>, live: map<int, nat>, p: int, n: nat)
    requires Canonical(rs) && Returnable(rs, live, Run(p, PAGE_UNITS)) && n <= PAGE_UNITS
    ensures !NoneFits(With(rs, Run(p, PAGE_UNITS)), n)
  {
    WithCounts(rs, live, Run(p, PAGE_UNITS));
    LargeRun(With(rs, Run(p, PAGE_UNITS)), p, PAGE_UNITS);
  }

  // ----- the sentinel -----

  /** The one-unit sentinel block is in the ring. */
  ghost predicate HasArena(rs: seq<Run>, arena: int) {
    exists k :: 0 <= k < |rs| && rs[k] == Run(arena, 1)
  }

  /** The block neither overlaps nor touches the sentinel. */
  predicate Off(r: Run, arena: int) { End(r) < arena || arena + 1 < r.start }

  /** The sentinel is in the ring, and no allocated block touches it. */
  ghost predicate Sentinel(rs: seq<Run>, live: map<int, nat>, arena: int) {
    HasArena(rs, arena) && forall b :: b in live ==> Off(Run(b, live[b]), arena)
  }

  /** With it, no block that comes back meets a ring of one block from below, and it stays. */
  lemma WithSentinel(rs: seq<Run>, arena: int, r: Run)
    requires HasArena(rs, arena) && Canonical(rs) && Apart(rs, r) && r.len > 0 && Off(r, arena)
    ensures !Hits(rs, r) && HasArena(With(rs, r), arena)
  {
    BeforeFits(rs, r);
    var k :| 0 <= k < |rs| && rs[k] == Run(arena, 1);
    InsertKeeps(rs, Before(rs, r.start), r, k);
  }

  /** A block that is not touched stays as it is. */
  lemma InsertKeeps(rs: seq<Run>, i: nat, r: Run, k: nat)
    requires FitsAt(rs, i, r) && k < |rs| && End(rs[k]) != r.start && End(r) != rs[k].start
    ensures exists j :: 0 <= j < |Insert(rs, i, r)| && Insert(rs, i, r)[j] == rs[k]
  {
    var lo, hi := Lo(rs, i, r), Hi(rs, i, r);
    var j := if k < lo then k else k - hi + lo + 1;
    SpliceAt(rs, lo, hi, Joined(rs, i, r), j);
    assert Insert(rs, i, r)[j] == rs[k];
  }

  /** Only a block of one unit can be the sentinel. */
  lemma ArenaIsOneUnit(rs: seq<Run>, k: nat, arena: int)
    requires Canonical(rs) && HasArena(rs, arena) && k < |rs| && rs[k].start == arena
    ensures rs[k].len == 1
  {
    var a :| 0 <= a < |rs| && rs[a] == Run(arena, 1);
    if a != k { DistinctStarts(rs, a, k); }
  }

  lemma TakeKeeps(rs: seq<Run>, k: nat, n: nat, a: nat)
    requires k < |rs| && 0 < n <= rs[k].len && a < |rs| && a != k
    ensures exists j :: 0 <= j < |Take(rs, k, n)| && Take(rs, k, n)[j] == rs[a]
  {
    var j := if a < k || rs[k].len > n then a else a - 1;
    TakeLen(rs, k, n);
    TakeAt(rs, k, n, j);
  }

  lemma ArenaOff(rs: seq<Run>, k: nat, a: nat)
    requires Canonical(rs) && k < |rs| && a < |rs| && a != k && rs[a].len == 1
    ensures |rs| >= 2 && Off(rs[k], rs[a].start)
  {
    if a < k { assert End(rs[a]) < rs[k].start; } else { assert End(rs[k]) < rs[a].start; }
  }

  /** Units of another block: the ring has several blocks, and the sentinel stays. */
  lemma TakeArena(rs: seq<Run>, k: nat, n: nat, arena: int)
    requires Canonical(rs) && HasArena(rs, arena) && k < |rs| && 0 < n <= rs[k].len && rs[k].start != arena
    ensures HasArena(Take(rs, k, n), arena) && |rs| >= 2 && Off(Run(rs[k].start, n), arena)
  {
    var a :| 0 <= a < |rs| && rs[a] == Run(arena, 1);
    ArenaOff(rs, k, a);
    TakeKeeps(rs, k, n, a);
  }

  /** The sentinel guards the blocks after units of block k have been taken exactly if that is another one,
      and it is if there are two units or more to take. */
  lemma SentinelAfter(rs: seq<Run>, live: map<int, nat>, arena: int, k: nat, n: nat)
    requires Canonical(rs) && Sentinel(rs, live, arena) && k < |rs| && 0 < n <= rs[k].len
    ensures var ts := if |rs| >= 2 then Take(rs, k, n) else rs;
            Sentinel(ts, live[rs[k].start := n], arena) <==> rs[k].start != arena
    ensures n >= 2 ==> |rs| >= 2 && rs[k].start != arena
  {
    if rs[k].start == arena {
      ArenaIsOneUnit(rs, k, arena);
      assert !Off(Run(arena, live[arena := n][arena]), arena);
    } else {
      TakeArena(rs, k, n, arena);
    }
  }

  /** Cutting n units from block k: t are the free blocks afterwards.  All is kept exactly if there were several
      blocks, and the sentinel stays exactly if the block is another one. */
  lemma CutOutcome(units: map<int, nat>, next: map<int, int>, rs: seq<Run>, live: map<int, nat>, arena: int, k: nat, n: nat)
      returns (t: seq<Run>)
    requires Kept(units, next, rs, live) && k < |rs| && 0 < n <= rs[k].len
    ensures rs[k].start in units && n <= units[rs[k].start] && rs[k].start in next && rs[k].start !in live
    ensures var prev, cur := rs[Pred(k, |rs|)].start, rs[k].start;
            var u, x, l := CutUnits(units, cur, n), CutNext(units, next, prev, cur, n), live[cur := n];
            if |rs| >= 2 then Kept(u, x, t, l) && InRing(t, prev) && Total(t) + Sum(l) == Total(rs) + Sum(live) &&
                              !Hits(t, Run(cur, n)) && CutFrom(rs, t, cur, n)
            else prev == cur && !Sane(u, x, prev, l)
    ensures Sentinel(rs, live, arena) ==>
              (Sentinel(t, live[rs[k].start := n], arena) <==> rs[k].start != arena) &&
              (n >= 2 ==> |rs| >= 2 && rs[k].start != arena)
  {
    t := if |rs| >= 2 then Take(rs, k, n) else rs;
    TakeCuts(rs, k, n);
    if Sentinel(rs, live, arena) { SentinelAfter(rs, live, arena, k, n); }
    if |rs| >= 2 { CutKept(units, next, rs, live, k, n); } else { CutBroken(units, next, rs, live, n); }
  }
}
