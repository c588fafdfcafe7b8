/** Free space as the ascending sequence of its maximal runs: the common specification of the
    two allocators. */
module Runs {

  datatype Run = Run(start: int, len: nat)

  function End(r: Run): int { r.start + r.len }

  predicate Holds(r: Run, a: int) { r.start <= a < End(r) }

  /** Runs are not empty, ascend, and do not touch each other. */
  ghost predicate Canonical(rs: seq<Run>) {
    (forall k :: 0 <= k < |rs| ==> rs[k].len > 0) &&
    (forall j, k :: 0 <= j < k < |rs| ==> End(rs[j]) < rs[k].start)
  }

  ghost predicate Covers(rs: seq<Run>, a: int) {
    exists k :: 0 <= k < |rs| && Holds(rs[k], a)
  }

  function Total(rs: seq<Run>): nat {
    if rs == [] then 0 else rs[0].len + Total(rs[1..])
  }

  lemma {:induction false} TotalConcat(a: seq<Run>, b: seq<Run>)
    ensures Total(a + b) == Total(a) + Total(b)
  {
    if a == [] {
      assert a + b == b;
    } else {
      TotalConcat(a[1..], b);
      assert (a + b)[1..] == a[1..] + b;
    }
  }

  lemma TotalSplit(rs: seq<Run>, k: nat)
    requires k < |rs|
    ensures Total(rs) == Total(rs[..k]) + rs[k].len + Total(rs[k + 1..])
  {
    assert rs == rs[..k] + rs[k..] && rs[k..][1..] == rs[k + 1..];
    TotalConcat(rs[..k], rs[k..]);
  }

  // ----- one set, one sequence -----

  lemma FirstRunDetermined(rs: seq<Run>, ts: seq<Run>)
    requires Canonical(rs) && Canonical(ts) && rs != [] && ts != []
    requires forall a :: Covers(rs, a) <==> Covers(ts, a)
    ensures rs[0].start >= ts[0].start
    ensures rs[0].start == ts[0].start ==> rs[0].len >= ts[0].len
  {
    assert Holds(rs[0], rs[0].start);
    assert Covers(rs, rs[0].start);
    assert Covers(ts, rs[0].start);
    var k :| 0 <= k < |ts| && Holds(ts[k], rs[0].start);
    var r, t := rs[0], ts[0];
    assert !Covers(rs, End(r));
    assert r.start == t.start && r.len < t.len ==> Holds(t, End(r));
  }

  /** Two canonical sequences that cover the same addresses are the same sequence. */
  lemma {:induction false} SameCoverSameRuns(rs: seq<Run>, ts: seq<Run>)
    requires Canonical(rs) && Canonical(ts)
    requires forall a :: Covers(rs, a) <==> Covers(ts, a)
    ensures rs == ts
  {
    if rs == [] || ts == [] {
      if rs != [] { assert Holds(rs[0], rs[0].start); assert Covers(rs, rs[0].start); }
      if ts != [] { assert Holds(ts[0], ts[0].start); assert Covers(ts, ts[0].start); }
    } else {
      FirstRunDetermined(rs, ts);
      FirstRunDetermined(ts, rs);
      assert rs[0] == ts[0];
      forall a ensures Covers(rs[1..], a) <==> Covers(ts[1..], a) {
        CoversTail(rs, a);
        CoversTail(ts, a);
      }
      SameCoverSameRuns(rs[1..], ts[1..]);
      assert rs == [rs[0]] + rs[1..] && ts == [ts[0]] + ts[1..];
    }
  }

  lemma CoversTail(rs: seq<Run>, a: int)
    requires Canonical(rs) && rs != []
    ensures Covers(rs[1..], a) <==> Covers(rs, a) && !Holds(rs[0], a)
  {
    if Covers(rs[1..], a) {
      var k :| 0 <= k < |rs[1..]| && Holds(rs[1..][k], a);
      assert Holds(rs[k + 1], a);
    }
    if Covers(rs, a) && !Holds(rs[0], a) {
      var k :| 0 <= k < |rs| && Holds(rs[k], a);
      assert Holds(rs[1..][k - 1], a);
    }
  }

  // ----- giving space back -----

  /** The run lies between its neighbours at position i, touching them at most. */
  ghost predicate FitsAt(rs: seq<Run>, i: nat, r: Run) {
    i <= |rs| && r.len > 0 &&
    (forall k :: 0 <= k < i ==> End(rs[k]) <= r.start) &&
    (forall k :: i <= k < |rs| ==> End(r) <= rs[k].start)
  }

  predicate TouchesLeft(rs: seq<Run>, i: nat, r: Run)
    requires i <= |rs|
  {
    i > 0 && End(rs[i - 1]) == r.start
  }

  predicate TouchesRight(rs: seq<Run>, i: nat, r: Run)
    requires i <= |rs|
  {
    i < |rs| && End(r) == rs[i].start
  }

  /** The run joined with the neighbours it touches. */
  function Joined(rs: seq<Run>, i: nat, r: Run): Run
    requires i <= |rs|
  {
    var left := if TouchesLeft(rs, i, r) then rs[i - 1].len else 0;
    var right := if TouchesRight(rs, i, r) then rs[i].len else 0;
    Run(r.start - left, left + r.len + right)
  }

  function Lo(rs: seq<Run>, i: nat, r: Run): nat
    requires i <= |rs|
  {
    if TouchesLeft(rs, i, r) then i - 1 else i
  }

  function Hi(rs: seq<Run>, i: nat, r: Run): nat
    requires i <= |rs|
  {
    if TouchesRight(rs, i, r) then i + 1 else i
  }

  function Splice(rs: seq<Run>, lo: nat, hi: nat, m: Run): seq<Run>
    requires lo <= hi <= |rs|
  {
    rs[..lo] + [m] + rs[hi..]
  }

  function Insert(rs: seq<Run>, i: nat, r: Run): seq<Run>
    requires i <= |rs|
  {
    Splice(rs, Lo(rs, i, r), Hi(rs, i, r), Joined(rs, i, r))
  }

  lemma SpliceAt(rs: seq<Run>, lo: nat, hi: nat, m: Run, k: nat)
    requires lo <= hi <= |rs| && k < |Splice(rs, lo, hi, m)|
    ensures Splice(rs, lo, hi, m)[k] == if k < lo then rs[k] else if k == lo then m else rs[k - lo - 1 + hi]
  {}

  lemma SpliceCanonical(rs: seq<Run>, lo: nat, hi: nat, m: Run)
    requires Canonical(rs) && lo <= hi <= |rs| && m.len > 0
    requires forall k :: 0 <= k < lo ==> End(rs[k]) < m.start
    requires forall k :: hi <= k < |rs| ==> End(m) < rs[k].start
    ensures Canonical(Splice(rs, lo, hi, m))
  {}

  lemma InsertCanonical(rs: seq<Run>, i: nat, r: Run)
    requires Canonical(rs) && FitsAt(rs, i, r)
    ensures Canonical(Insert(rs, i, r))
  {
    var m := Joined(rs, i, r);
    forall k | 0 <= k < Lo(rs, i, r) ensures End(rs[k]) < m.start {
      if k < i - 1 { assert End(rs[k]) < rs[i - 1].start; }
    }
    forall k | Hi(rs, i, r) <= k < |rs| ensures End(m) < rs[k].start {
      if k > i { assert End(rs[i]) < rs[k].start; }
    }
    SpliceCanonical(rs, Lo(rs, i, r), Hi(rs, i, r), m);
  }

  lemma SpliceCovers(rs: seq<Run>, lo: nat, hi: nat, m: Run, a: int)
    requires lo <= hi <= |rs|
    requires Holds(m, a) || forall k :: lo <= k < hi ==> !Holds(rs[k], a)
    ensures Covers(Splice(rs, lo, hi, m), a) <==>
            Holds(m, a) || exists k :: (0 <= k < lo || hi <= k < |rs|) && Holds(rs[k], a)
  {
    var t := Splice(rs, lo, hi, m);
    assert t[lo] == m;
    if Covers(t, a) && !Holds(m, a) {
      var k :| 0 <= k < |t| && Holds(t[k], a);
      assert Holds(rs[if k < lo then k else k - lo - 1 + hi], a);
    }
    if k :| (0 <= k < lo || hi <= k < |rs|) && Holds(rs[k], a) {
      assert Holds(t[if k < lo then k else k - hi + lo + 1], a);
    }
  }

  lemma InsertCovers(rs: seq<Run>, i: nat, r: Run, a: int)
    requires FitsAt(rs, i, r)
    ensures Covers(Insert(rs, i, r), a) <==> Covers(rs, a) || Holds(r, a)
  {
    var lo, hi, m := Lo(rs, i, r), Hi(rs, i, r), Joined(rs, i, r);
    assert Holds(m, a) <==> Holds(r, a) || exists k :: lo <= k < hi && Holds(rs[k], a) by {
      if Holds(m, a) && !Holds(r, a) { assert Holds(rs[if a < r.start then i - 1 else i], a); }
    }
    SpliceCovers(rs, lo, hi, m, a);
  }

  lemma TotalExchange(a: seq<Run>, b: seq<Run>, c: seq<Run>, m: Run)
    ensures Total(a + [m] + c) + Total(b) == Total(a + b + c) + m.len
  {
    TotalConcat(a + [m], c);
    TotalConcat(a, [m]);
    TotalConcat(a + b, c);
    TotalConcat(a, b);
  }

  lemma InThree<T>(s: seq<T>, lo: nat, hi: nat)
    requires lo <= hi <= |s|
    ensures s[..lo] + s[lo..hi] + s[hi..] == s
  {}

  lemma SpliceTotal(rs: seq<Run>, lo: nat, hi: nat, m: Run)
    requires lo <= hi <= |rs|
    ensures Total(Splice(rs, lo, hi, m)) + Total(rs[lo..hi]) == Total(rs) + m.len
  {
    var a, b, c := rs[..lo], rs[lo..hi], rs[hi..];
    InThree(rs, lo, hi);
    TotalExchange(a, b, c, m);
  }

  lemma InsertTotal(rs: seq<Run>, i: nat, r: Run)
    requires i <= |rs|
    ensures Total(Insert(rs, i, r)) == Total(rs) + r.len
  {
    var lo, hi := Lo(rs, i, r), Hi(rs, i, r);
    SpliceTotal(rs, lo, hi, Joined(rs, i, r));
    assert Total(rs[lo..hi]) == (if lo < i then rs[lo].len else 0) + if i < hi then rs[i].len else 0 by {
      if lo < hi { TotalSplit(rs[lo..hi], 0); }
      if lo + 1 < hi { TotalSplit(rs[lo..hi][1..], 0); }
    }
  }

  // ----- taking space -----

  /** The first n units of run k are taken; nothing is left of an exact fit. */
  function Take(rs: seq<Run>, k: nat, n: nat): seq<Run>
    requires k < |rs| && 0 < n <= rs[k].len
  {
    if rs[k].len == n then rs[..k] + rs[k + 1..]
    else rs[k := Run(rs[k].start + n, rs[k].len - n)]
  }

  lemma TakeCanonical(rs: seq<Run>, k: nat, n: nat)
    requires Canonical(rs) && k < |rs| && 0 < n <= rs[k].len
    ensures Canonical(Take(rs, k, n))
  {}

  lemma TakeLen(rs: seq<Run>, k: nat, n: nat)
    requires k < |rs| && 0 < n <= rs[k].len
    ensures |Take(rs, k, n)| == if rs[k].len > n then |rs| else |rs| - 1
  {}

  lemma TakeAt(rs: seq<Run>, k: nat, n: nat, j: nat)
    requires k < |rs| && 0 < n <= rs[k].len && j < |Take(rs, k, n)|
    ensures Take(rs, k, n)[j] ==
            if rs[k].len > n then (if j == k then Run(rs[k].start + n, rs[k].len - n) else rs[j])
            else if j < k then rs[j] else rs[j + 1]
  {}

  lemma TakeCovers(rs: seq<Run>, k: nat, n: nat, a: int)
    requires Canonical(rs) && k < |rs| && 0 < n <= rs[k].len
    ensures Covers(Take(rs, k, n), a) <==> Covers(rs, a) && !(rs[k].start <= a < rs[k].start + n)
  {
    if Covers(rs, a) && !(rs[k].start <= a < rs[k].start + n) { TakeCoversRest(rs, k, n, a); }
    if Covers(Take(rs, k, n), a) { TakeCoversOnly(rs, k, n, a); }
  }

  lemma TakeCoversRest(rs: seq<Run>, k: nat, n: nat, a: int)
    requires k < |rs| && 0 < n <= rs[k].len && Covers(rs, a) && !(rs[k].start <= a < rs[k].start + n)
    ensures Covers(Take(rs, k, n), a)
  {
    var j :| 0 <= j < |rs| && Holds(rs[j], a);
    var i := if j < k || rs[k].len > n then j else j - 1;
    TakeAt(rs, k, n, i);
    assert Holds(Take(rs, k, n)[i], a);
  }

  lemma TakeCoversOnly(rs: seq<Run>, k: nat, n: nat, a: int)
    requires Canonical(rs) && k < |rs| && 0 < n <= rs[k].len && Covers(Take(rs, k, n), a)
    ensures Covers(rs, a) && !(rs[k].start <= a < rs[k].start + n)
  {
    var t := Take(rs, k, n);
    var j :| 0 <= j < |t| && Holds(t[j], a);
    TakeAt(rs, k, n, j);
    var i := if j < k || rs[k].len > n then j else j + 1;
    assert Holds(rs[i], a);
    if i < k { assert End(rs[i]) < rs[k].start; }
    if k < i { assert End(rs[k]) < rs[i].start; }
  }

  lemma TakeTotal(rs: seq<Run>, k: nat, n: nat)
    requires k < |rs| && 0 < n <= rs[k].len
    ensures Total(Take(rs, k, n)) == Total(rs) - n
  {
    TotalSplit(rs, k);
    var t := Take(rs, k, n);
    if rs[k].len == n {
      TotalConcat(rs[..k], rs[k + 1..]);
    } else {
      TotalSplit(t, k);
      assert t[..k] == rs[..k] && t[k + 1..] == rs[k + 1..];
    }
  }

  /** Giving back what was just taken restores the very same runs. */
  lemma TakeThenInsert(rs: seq<Run>, k: nat, n: nat, i: nat)
    requires Canonical(rs) && k < |rs| && 0 < n <= rs[k].len
    requires FitsAt(Take(rs, k, n), i, Run(rs[k].start, n))
    ensures Insert(Take(rs, k, n), i, Run(rs[k].start, n)) == rs
  {
    var t := Take(rs, k, n);
    var r := Run(rs[k].start, n);
    TakeCanonical(rs, k, n);
    InsertCanonical(t, i, r);
    forall a ensures Covers(Insert(t, i, r), a) <==> Covers(rs, a) {
      TakeCovers(rs, k, n, a);
      InsertCovers(t, i, r, a);
      if Holds(r, a) { assert Holds(rs[k], a); }
    }
    SameCoverSameRuns(Insert(t, i, r), rs);
  }

  // ----- space that is not free -----

  /** The run overlaps no free run. */
  ghost predicate Apart(rs: seq<Run>, r: Run) {
    forall k :: 0 <= k < |rs| ==> End(rs[k]) <= r.start || End(r) <= rs[k].start
  }

  /** A run apart from all free runs has exactly one place among them. */
  lemma {:induction false} Place(rs: seq<Run>, r: Run) returns (i: nat)
    requires Canonical(rs) && Apart(rs, r) && r.len > 0
    ensures FitsAt(rs, i, r)
    ensures forall j: nat :: FitsAt(rs, j, r) ==> j == i
  {
    i := 0;
    while i < |rs| && rs[i].start < r.start
      invariant i <= |rs|
      invariant forall k :: 0 <= k < i ==> End(rs[k]) <= r.start
    {
      i := i + 1;
    }
    assert i < |rs| ==> r.start < End(rs[i]);
    assert i > 0 ==> rs[i - 1].start < End(r);
  }

  /** How many runs start before address a. */
  function Before(rs: seq<Run>, a: int): (i: nat)
    ensures i <= |rs| && (forall k :: 0 <= k < i ==> rs[k].start < a) && (i < |rs| ==> rs[i].start >= a)
  {
    if rs == [] || rs[0].start >= a then 0 else 1 + Before(rs[1..], a)
  }

  lemma BeforeFits(rs: seq<Run>, r: Run)
    requires Canonical(rs) && Apart(rs, r) && r.len > 0
    ensures FitsAt(rs, Before(rs, r.start), r)
  {
    var i := Before(rs, r.start);
    forall k | i <= k < |rs| ensures End(r) <= rs[k].start {
      if i < k { assert End(rs[i]) < rs[k].start; }
    }
  }

  /** A run appended at the end belongs there exactly if it starts beyond the last one's end. */
  lemma AppendCanonical(rs: seq<Run>, r: Run)
    requires Canonical(rs) && r.len > 0
    ensures Canonical(rs + [r]) <==> forall k :: 0 <= k < |rs| ==> End(rs[k]) < r.start
  {
    var t := rs + [r];
    if Canonical(t) {
      forall k | 0 <= k < |rs| ensures End(rs[k]) < r.start {
        assert End(t[k]) < t[|rs|].start;
      }
    }
  }
}
