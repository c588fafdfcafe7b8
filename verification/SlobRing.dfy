/** The ring of free blocks of the small-block allocator, as its fields hold it: sizes and links, kept in
    address order.  Addresses count allocation units of eight bytes. */
module SlobRing {
  import opened Runs

  // ----- the ring -----

  function Succ(k: nat, n: nat): (r: nat)
    requires k < n
    ensures r < n
  {
    if k + 1 == n then 0 else k + 1
  }

  function Pred(k: nat, n: nat): (r: nat)
    requires k <= n && 0 < n
    ensures r < n
  {
    if k == 0 then n - 1 else k - 1
  }

  ghost predicate LinkedAt(next: map<int, int>, rs: seq<Run>, k: nat)
    requires k < |rs|
  {
    rs[k].start in next && next[rs[k].start] == rs[Succ(k, |rs|)].start
  }

  /** Each block's next field leads to the block after it, the last one's to the first. */
  ghost predicate Links(next: map<int, int>, rs: seq<Run>) {
    forall k {:trigger LinkedAt(next, rs, k)} :: 0 <= k < |rs| ==> LinkedAt(next, rs, k)
  }

  ghost predicate Sized(units: map<int, nat>, rs: seq<Run>) {
    forall k :: 0 <= k < |rs| ==> rs[k].start in units && units[rs[k].start] == rs[k].len
  }

  /** A single ring in address order with one wrap, no two blocks of it touching. */
  ghost predicate Ring(units: map<int, nat>, next: map<int, int>, rs: seq<Run>) {
    Canonical(rs) && Links(next, rs) && Sized(units, rs)
  }

  lemma DistinctStarts(rs: seq<Run>, j: nat, k: nat)
    requires Canonical(rs) && j < |rs| && k < |rs| && j != k
    ensures rs[j].start != rs[k].start
  {
    if j < k { assert End(rs[j]) < rs[k].start; } else { assert End(rs[k]) < rs[j].start; }
  }

  lemma LinksRemove(next: map<int, int>, rs: seq<Run>, k: nat)
    requires Canonical(rs) && Links(next, rs) && k < |rs| && |rs| >= 2
    ensures rs[Pred(k, |rs|)].start in next && rs[k].start in next
    ensures Links(next[rs[Pred(k, |rs|)].start := next[rs[k].start]], rs[..k] + rs[k + 1..])
  {
    var t := rs[..k] + rs[k + 1..];
    var p := Pred(k, |rs|);
    assert LinkedAt(next, rs, k) && LinkedAt(next, rs, p);
    var m := next[rs[p].start := next[rs[k].start]];
    forall j | 0 <= j < |t| ensures LinkedAt(m, t, j) {
      var i := if j < k then j else j + 1;
      assert LinkedAt(next, rs, i);
      if i != p { DistinctStarts(rs, i, p); }
      LinkWithout(next, rs, k, m, t, j, i);
    }
  }

  lemma LinkWithout(next: map<int, int>, rs: seq<Run>, k: nat, m: map<int, int>, t: seq<Run>, j: nat, i: nat)
    requires k < |rs| && |rs| >= 2 && t == rs[..k] + rs[k + 1..] && j < |t| && i == if j < k then j else j + 1
    requires LinkedAt(next, rs, k) && LinkedAt(next, rs, i)
    requires i != Pred(k, |rs|) ==> rs[i].start != rs[Pred(k, |rs|)].start
    requires m == next[rs[Pred(k, |rs|)].start := next[rs[k].start]]
    ensures LinkedAt(m, t, j)
  {
    var j' := Succ(j, |t|);
    SuccWithout(|rs|, k, j);
    assert t[j] == rs[i] && t[j'] == rs[if j' < k then j' else j' + 1];
  }

  /** Leaving out index k of n, the one before it is followed by the one after it. */
  lemma SuccWithout(n: nat, k: nat, j: nat)
    requires n >= 2 && k < n && j < n - 1
    ensures var i, j' := if j < k then j else j + 1, Succ(j, n - 1);
            var i' := if j' < k then j' else j' + 1;
            if i == Pred(k, n) then i' == Succ(k, n) else i' == Succ(i, n)
  {}

  lemma LinksReplace(next: map<int, int>, rs: seq<Run>, k: nat, r: Run)
    requires Canonical(rs) && Links(next, rs) && k < |rs| && |rs| >= 2
    requires forall j :: 0 <= j < |rs| ==> rs[j].start != r.start
    ensures rs[Pred(k, |rs|)].start in next && rs[k].start in next
    ensures Links(next[r.start := next[rs[k].start]][rs[Pred(k, |rs|)].start := r.start], rs[k := r])
  {
    var t := rs[k := r];
    var p := Pred(k, |rs|);
    assert LinkedAt(next, rs, k) && LinkedAt(next, rs, p);
    var m := next[r.start := next[rs[k].start]][rs[p].start := r.start];
    forall j | 0 <= j < |t| ensures LinkedAt(m, t, j) {
      if j != k && j != p {
        DistinctStarts(rs, j, p);
        assert LinkedAt(next, rs, j);
      }
    }
  }

  lemma LinksInsert(next: map<int, int>, rs: seq<Run>, k: nat, r: Run)
    requires Canonical(rs) && Links(next, rs) && k <= |rs| && |rs| >= 1
    requires forall j :: 0 <= j < |rs| ==> rs[j].start != r.start
    ensures var p := rs[Pred(k, |rs|)].start;
            p in next && Links(next[r.start := next[p]][p := r.start], Splice(rs, k, k, r))
  {
    var t := Splice(rs, k, k, r);
    var p := Pred(k, |rs|);
    assert LinkedAt(next, rs, p);
    var m := next[r.start := next[rs[p].start]][rs[p].start := r.start];
    forall j | 0 <= j < |t| ensures LinkedAt(m, t, j) {
      if j == k {
        LinkFromNew(next, rs, k, r, m, t);
      } else {
        var i := if j < k then j else j - 1;
        assert LinkedAt(next, rs, i);
        if i != p { DistinctStarts(rs, i, p); }
        LinkFromOld(next, rs, k, r, m, t, j, i);
      }
    }
  }

  lemma LinkFromNew(next: map<int, int>, rs: seq<Run>, k: nat, r: Run, m: map<int, int>, t: seq<Run>)
    requires k <= |rs| && |rs| >= 1 && t == Splice(rs, k, k, r)
    requires LinkedAt(next, rs, Pred(k, |rs|)) && rs[Pred(k, |rs|)].start != r.start
    requires m == next[r.start := next[rs[Pred(k, |rs|)].start]][rs[Pred(k, |rs|)].start := r.start]
    ensures LinkedAt(m, t, k)
  {
    SpliceAt(rs, k, k, r, k);
    SpliceAt(rs, k, k, r, Succ(k, |t|));
    SuccWith(|rs|, k, k);
  }

  lemma LinkFromOld(next: map<int, int>, rs: seq<Run>, k: nat, r: Run, m: map<int, int>, t: seq<Run>, j: nat, i: nat)
    requires k <= |rs| && |rs| >= 1 && t == Splice(rs, k, k, r) && j < |t| && j != k && i == if j < k then j else j - 1
    requires rs[i].start != r.start && LinkedAt(next, rs, i) && LinkedAt(next, rs, Pred(k, |rs|))
    requires i != Pred(k, |rs|) ==> rs[i].start != rs[Pred(k, |rs|)].start
    requires m == next[r.start := next[rs[Pred(k, |rs|)].start]][rs[Pred(k, |rs|)].start := r.start]
    ensures LinkedAt(m, t, j)
  {
    SpliceAt(rs, k, k, r, j);
    SpliceAt(rs, k, k, r, Succ(j, |t|));
    SuccWith(|rs|, k, j);
  }

  /** With an index put in at k, the one before it is followed by it, and it by the next. */
  lemma SuccWith(n: nat, k: nat, j: nat)
    requires n >= 1 && k <= n && j <= n
    ensures var j' := Succ(j, n + 1);
            if j == k then (if j' < k then j' else j' - 1) == Succ(Pred(k, n), n) && j' != k
            else
              var i := if j < k then j else j - 1;
              if i == Pred(k, n) then j' == k else j' != k && (if j' < k then j' else j' - 1) == Succ(i, n)
  {}

  /** Only the starting addresses matter to the links. */
  lemma LinksResize(next: map<int, int>, rs: seq<Run>, ts: seq<Run>)
    requires Links(next, rs) && |rs| == |ts| && forall k :: 0 <= k < |rs| ==> rs[k].start == ts[k].start
    ensures Links(next, ts)
  {
    forall k | 0 <= k < |ts| ensures LinkedAt(next, ts, k) { assert LinkedAt(next, rs, k); }
  }

  lemma LinksIgnore(next: map<int, int>, rs: seq<Run>, b: int, y: int)
    requires Links(next, rs) && forall k :: 0 <= k < |rs| ==> rs[k].start != b
    ensures Links(next[b := y], rs)
  {
    var m := next[b := y];
    forall k | 0 <= k < |rs| ensures LinkedAt(m, rs, k) { assert LinkedAt(next, rs, k); }
  }

  /** Some free block starts at a. */
  ghost predicate InRing(rs: seq<Run>, a: int) { exists k :: 0 <= k < |rs| && rs[k].start == a }

  // ----- reinsertion -----

  /** The field updates of slob_free once the block before b is known. */
  function RejoinUnits(units: map<int, nat>, next: map<int, int>, cur: int, b: int): map<int, nat>
    requires cur in next && next[cur] in units && cur in units && b in units && b != cur
  {
    var u := if b + units[b] == next[cur] then units[b := units[b] + units[next[cur]]] else units;
    if cur + u[cur] == b then u[cur := u[cur] + u[b]] else u
  }

  function RejoinNext(units: map<int, nat>, next: map<int, int>, cur: int, b: int): map<int, int>
    requires cur in next && next[cur] in next && cur in units && b in units && b != cur
  {
    var x := if b + units[b] == next[cur] then next[b := next[next[cur]]] else next[b := next[cur]];
    if cur + units[cur] == b then x[cur := x[b]] else x[cur := b]
  }

  /** A block r on its way back to the ring, to be linked in at position i. */
  ghost predicate Incoming(units: map<int, nat>, next: map<int, int>, rs: seq<Run>, i: nat, r: Run) {
    Ring(units, next, rs) && FitsAt(rs, i, r) && |rs| >= 1 && r.start in units && units[r.start] == r.len
  }

  /** The same, and it does not touch the only block of the ring from below. */
  ghost predicate Returning(units: map<int, nat>, next: map<int, int>, rs: seq<Run>, i: nat, r: Run) {
    Incoming(units, next, rs, i, r) && (TouchesRight(rs, i, r) ==> |rs| >= 2)
  }

  lemma ReturningPlace(units: map<int, nat>, next: map<int, int>, rs: seq<Run>, i: nat, r: Run)
    requires Incoming(units, next, rs, i, r)
    ensures var cur := rs[Pred(i, |rs|)].start;
            cur in next && next[cur] in next && next[cur] in units && cur in units && cur != r.start &&
            next[cur] == rs[Succ(Pred(i, |rs|), |rs|)].start &&
            (r.start + units[r.start] == next[cur] <==> TouchesRight(rs, i, r)) &&
            (cur + units[cur] == r.start <==> TouchesLeft(rs, i, r))
    ensures forall k :: 0 <= k < |rs| ==> rs[k].start != r.start
  {
    var p := Pred(i, |rs|);
    assert LinkedAt(next, rs, p);
    assert LinkedAt(next, rs, Succ(p, |rs|));
    forall k | 0 <= k < |rs| ensures rs[k].start != r.start {
      if k < i { assert End(rs[k]) <= r.start; } else { assert End(r) <= rs[k].start; }
    }
    if i < |rs| {
      assert Succ(p, |rs|) == i;
    } else {
      assert Succ(p, |rs|) == 0 && End(rs[0]) <= r.start;
    }
    if i == 0 { assert End(r) <= rs[p].start; }
  }

  lemma InsertShape(rs: seq<Run>, i: nat, r: Run)
    requires i <= |rs|
    ensures var j := Joined(rs, i, r);
            Insert(rs, i, r) ==
            (if TouchesLeft(rs, i, r) then
               if TouchesRight(rs, i, r) then (rs[..i] + rs[i + 1..])[i - 1 := j] else rs[i - 1 := j]
             else if TouchesRight(rs, i, r) then rs[i := j] else Splice(rs, i, i, r))
  {
    var j := Joined(rs, i, r);
    if !TouchesLeft(rs, i, r) && !TouchesRight(rs, i, r) { assert j == r; }
  }

  lemma RejoinBoth(units: map<int, nat>, next: map<int, int>, rs: seq<Run>, i: nat, r: Run)
    requires Returning(units, next, rs, i, r) && TouchesLeft(rs, i, r) && TouchesRight(rs, i, r)
    ensures var cur := rs[i - 1].start;
            cur in next && rs[i].start in next &&
            Links(next[r.start := next[rs[i].start]][cur := next[rs[i].start]], Insert(rs, i, r))
  {
    ReturningPlace(units, next, rs, i, r);
    var cur, b, j := rs[i - 1].start, r.start, Joined(rs, i, r);
    LinksRemove(next, rs, i);
    var t := rs[..i] + rs[i + 1..];
    var m := next[cur := next[rs[i].start]];
    forall k | 0 <= k < |t| ensures t[k].start != b { assert t[k] == rs[if k < i then k else k + 1]; }
    LinksResize(m, t, t[i - 1 := j]);
    LinksIgnore(m, t[i - 1 := j], b, next[rs[i].start]);
    assert m[b := next[rs[i].start]] == next[b := next[rs[i].start]][cur := next[rs[i].start]];
    InsertShape(rs, i, r);
  }

  lemma RejoinLeft(units: map<int, nat>, next: map<int, int>, rs: seq<Run>, i: nat, r: Run)
    requires Returning(units, next, rs, i, r) && TouchesLeft(rs, i, r) && !TouchesRight(rs, i, r)
    ensures var cur := rs[i - 1].start;
            cur in next && Links(next[r.start := next[cur]][cur := next[cur]], Insert(rs, i, r))
  {
    ReturningPlace(units, next, rs, i, r);
    var cur, b, j := rs[i - 1].start, r.start, Joined(rs, i, r);
    LinksResize(next, rs, rs[i - 1 := j]);
    LinksIgnore(next, rs[i - 1 := j], b, next[cur]);
    assert next[b := next[cur]][cur := next[cur]] == next[b := next[cur]];
    InsertShape(rs, i, r);
  }

  lemma RejoinRight(units: map<int, nat>, next: map<int, int>, rs: seq<Run>, i: nat, r: Run)
    requires Returning(units, next, rs, i, r) && !TouchesLeft(rs, i, r)
    ensures var cur := rs[Pred(i, |rs|)].start;
            cur in next && next[cur] in next &&
            Links(next[r.start := if TouchesRight(rs, i, r) then next[next[cur]] else next[cur]][cur := r.start],
                  Insert(rs, i, r))
  {
    ReturningPlace(units, next, rs, i, r);
    InsertShape(rs, i, r);
    if TouchesRight(rs, i, r) { LinksReplace(next, rs, i, Joined(rs, i, r)); } else { LinksInsert(next, rs, i, r); }
  }

  lemma RejoinLinks(units: map<int, nat>, next: map<int, int>, rs: seq<Run>, i: nat, r: Run)
    requires Returning(units, next, rs, i, r)
    ensures var cur := rs[Pred(i, |rs|)].start;
            cur in next && next[cur] in next && cur in units && cur != r.start &&
            Links(RejoinNext(units, next, cur, r.start), Insert(rs, i, r))
  {
    ReturningPlace(units, next, rs, i, r);
    if !TouchesLeft(rs, i, r) { RejoinRight(units, next, rs, i, r); }
    else if TouchesRight(rs, i, r) { RejoinBoth(units, next, rs, i, r); }
    else { RejoinLeft(units, next, rs, i, r); }
  }

  /** What the sizes are afterwards: the joined block's is the joined length, all others stay. */
  lemma RejoinUnitsAt(units: map<int, nat>, next: map<int, int>, rs: seq<Run>, i: nat, r: Run)
    requires Incoming(units, next, rs, i, r)
    ensures var cur := rs[Pred(i, |rs|)].start;
            cur in next && next[cur] in units && cur in units && cur != r.start &&
            var u, j := RejoinUnits(units, next, cur, r.start), Joined(rs, i, r);
            u.Keys == units.Keys && j.start in u && u[j.start] == j.len &&
            (!TouchesLeft(rs, i, r) ==> u[cur] == units[cur]) &&
            forall x :: x in units && x != cur && x != r.start ==> u[x] == units[x]
  {
    ReturningPlace(units, next, rs, i, r);
  }

  lemma RejoinSized(units: map<int, nat>, next: map<int, int>, rs: seq<Run>, i: nat, r: Run)
    requires Returning(units, next, rs, i, r)
    ensures var cur := rs[Pred(i, |rs|)].start;
            cur in next && next[cur] in units && cur in units && cur != r.start &&
            Sized(RejoinUnits(units, next, cur, r.start), Insert(rs, i, r))
  {
    ReturningPlace(units, next, rs, i, r);
    RejoinUnitsAt(units, next, rs, i, r);
    var t, p := Insert(rs, i, r), Pred(i, |rs|);
    var u := RejoinUnits(units, next, rs[p].start, r.start);
    var lo, hi, m := Lo(rs, i, r), Hi(rs, i, r), Joined(rs, i, r);
    forall k | 0 <= k < |t| ensures t[k].start in u && u[t[k].start] == t[k].len {
      SpliceAt(rs, lo, hi, m, k);
      if k != lo {
        var q := if k < lo then k else k - lo - 1 + hi;
        if q != p { DistinctStarts(rs, q, p); }
      }
    }
  }

  /** The block found by the search is still in the ring after the reinsertion. */
  lemma InsertKeepsCur(rs: seq<Run>, i: nat, r: Run)
    requires FitsAt(rs, i, r) && |rs| >= 1 && (TouchesRight(rs, i, r) ==> |rs| >= 2)
    ensures var t := Insert(rs, i, r);
            InRing(t, rs[Pred(i, |rs|)].start)
  {
    var p := Pred(i, |rs|);
    var lo, hi, m := Lo(rs, i, r), Hi(rs, i, r), Joined(rs, i, r);
    var t := Insert(rs, i, r);
    var k := if p < lo then p else if TouchesLeft(rs, i, r) && p == i - 1 then lo else p - hi + lo + 1;
    SpliceAt(rs, lo, hi, m, k);
    assert t[k].start == rs[p].start;
  }

  lemma RejoinRing(units: map<int, nat>, next: map<int, int>, rs: seq<Run>, i: nat, r: Run)
    requires Returning(units, next, rs, i, r)
    ensures var cur, t := rs[Pred(i, |rs|)].start, Insert(rs, i, r);
            cur in next && next[cur] in next && next[cur] in units && cur in units && cur != r.start &&
            Ring(RejoinUnits(units, next, cur, r.start), RejoinNext(units, next, cur, r.start), t) &&
            InRing(t, cur)
  {
    RejoinLinks(units, next, rs, i, r);
    RejoinSized(units, next, rs, i, r);
    InsertCanonical(rs, i, r);
    InsertKeepsCur(rs, i, r);
  }

  /** The fields say that a block and the one before it lead to each other, the one lying inside the other. */
  predicate Tangled(units: map<int, nat>, next: map<int, int>, at: int) {
    at in next &&
    var b := next[at];
    b in next && b in units && next[b] == at && b < at < b + units[b]
  }

  /** Such fields are those of no ring with that block in it. */
  lemma TangledNoRing(units: map<int, nat>, next: map<int, int>, rs: seq<Run>, at: int)
    requires Tangled(units, next, at) && Ring(units, next, rs)
    ensures !InRing(rs, at)
  {
    forall k | 0 <= k < |rs| ensures rs[k].start != at { assert LinkedAt(next, rs, k); }
  }

  /** A block that touches the only block of the ring from below is joined to it, and both stay linked. */
  lemma ReturnTangles(units: map<int, nat>, next: map<int, int>, rs: seq<Run>, i: nat, r: Run)
    requires Incoming(units, next, rs, i, r) && |rs| == 1 && TouchesRight(rs, i, r)
    ensures var cur, b := rs[0].start, r.start;
            cur in next && next[cur] in next && next[cur] in units && cur in units && cur != b &&
            var u, x := RejoinUnits(units, next, cur, b), RejoinNext(units, next, cur, b);
            Tangled(u, x, cur) && x[cur] == b && u[b] == r.len + rs[0].len && cur == b + r.len
  {
    ReturningPlace(units, next, rs, i, r);
    assert LinkedAt(next, rs, 0);
  }

  /** Joins the block with the one after it, then with the one before it, where they touch. */
  method Rejoin(units: map<int, nat>, next: map<int, int>, cur: int, b: int) returns (u: map<int, nat>, x: map<int, int>)
    requires cur in next && next[cur] in next && next[cur] in units && cur in units && b in units && b != cur
    ensures u == RejoinUnits(units, next, cur, b) && x == RejoinNext(units, next, cur, b)
  {
    u, x := units, next;
    if b + u[b] == x[cur] {
      u := u[b := u[b] + u[x[cur]]];
      x := x[b := x[x[cur]]];
    } else {
      x := x[b := x[cur]];
    }
    if cur + u[cur] == b {
      u := u[cur := u[cur] + u[b]];
      x := x[cur := x[b]];
    } else {
      x := x[cur := b];
    }
  }

  // ----- taking a block -----

  lemma TakeExactLinks(units: map<int, nat>, next: map<int, int>, rs: seq<Run>, k: nat)
    requires Canonical(rs) && Links(next, rs) && Sized(units, rs) && k < |rs| && |rs| >= 2
    ensures var prev, cur, t := rs[Pred(k, |rs|)].start, rs[k].start, Take(rs, k, rs[k].len);
            prev in next && cur in next && Links(next[prev := next[cur]], t) && Sized(units, t)
  {
    LinksRemove(next, rs, k);
    var t := Take(rs, k, rs[k].len);
    forall j | 0 <= j < |t| ensures t[j].start in units && units[t[j].start] == t[j].len {
      TakeAt(rs, k, rs[k].len, j);
    }
  }

  lemma TakeSplitLinks(units: map<int, nat>, next: map<int, int>, rs: seq<Run>, k: nat, n: nat)
    requires Canonical(rs) && Links(next, rs) && Sized(units, rs) && k < |rs| && |rs| >= 2 && 0 < n < rs[k].len
    ensures var prev, cur, t := rs[Pred(k, |rs|)].start, rs[k].start, Take(rs, k, n);
            prev in next && cur in next && prev != cur &&
            Links(next[prev := cur + n][cur + n := next[cur]], t) &&
            Sized(units[cur + n := rs[k].len - n][cur := n], t)
  {
    var p := Pred(k, |rs|);
    var prev, cur, x := rs[p].start, rs[k].start, Run(rs[k].start + n, rs[k].len - n);
    DistinctStarts(rs, p, k);
    forall j | 0 <= j < |rs| && j != k ensures rs[j].start != x.start && rs[j].start != cur {
      if j < k { assert End(rs[j]) < rs[k].start; } else { assert End(rs[k]) < rs[j].start; }
    }
    LinksReplace(next, rs, k, x);
    assert next[prev := x.start][x.start := next[cur]] == next[x.start := next[cur]][prev := x.start];
  }

  /** The field updates of slob_alloc at the block it found, in the order the original makes them: when the
      block is its own predecessor, its link is read after it has been changed. */
  function CutUnits(units: map<int, nat>, cur: int, n: nat): map<int, nat>
    requires cur in units && n <= units[cur]
  {
    if units[cur] == n then units else units[cur + n := units[cur] - n][cur := n]
  }

  function CutNext(units: map<int, nat>, next: map<int, int>, prev: int, cur: int, n: nat): map<int, int>
    requires cur in units && cur in next
  {
    if units[cur] == n then next[prev := next[cur]]
    else
      var x := next[prev := cur + n];
      x[cur + n := x[cur]]
  }

  method Cut(units: map<int, nat>, next: map<int, int>, prev: int, cur: int, n: nat)
      returns (u: map<int, nat>, x: map<int, int>)
    requires cur in units && cur in next && n <= units[cur]
    ensures u == CutUnits(units, cur, n) && x == CutNext(units, next, prev, cur, n)
  {
    u, x := units, next;
    if u[cur] == n {
      x := x[prev := x[cur]];
    } else {
      x := x[prev := cur + n];
      u := u[x[prev] := u[cur] - n];
      x := x[x[prev] := x[cur]];
      u := u[cur := n];
    }
  }

  lemma CutRing(units: map<int, nat>, next: map<int, int>, rs: seq<Run>, k: nat, n: nat)
    requires Ring(units, next, rs) && k < |rs| && |rs| >= 2 && 0 < n <= rs[k].len
    ensures var prev, cur := rs[Pred(k, |rs|)].start, rs[k].start;
            cur in units && units[cur] == rs[k].len && cur in next && prev != cur &&
            Ring(CutUnits(units, cur, n), CutNext(units, next, prev, cur, n), Take(rs, k, n))
  {
    DistinctStarts(rs, k, Pred(k, |rs|));
    TakeCanonical(rs, k, n);
    if rs[k].len == n { TakeExactLinks(units, next, rs, k); } else { TakeSplitLinks(units, next, rs, k, n); }
  }

  lemma TakeKeepsPrev(rs: seq<Run>, k: nat, n: nat)
    requires k < |rs| && |rs| >= 2 && 0 < n <= rs[k].len
    ensures var t := Take(rs, k, n);
            InRing(t, rs[Pred(k, |rs|)].start)
  {
    var p := Pred(k, |rs|);
    var j := if p < k || rs[k].len > n then p else p - 1;
    TakeAt(rs, k, n, j);
    assert Take(rs, k, n)[j].start == rs[p].start;
  }

  /** What is left of the only block leads to itself, and the allocated part to it. */
  predicate Stray(next: map<int, int>, at: int) {
    at in next && next[at] != at && next[at] in next && next[next[at]] == next[at]
  }

  lemma StrayNoRing(units: map<int, nat>, next: map<int, int>, rs: seq<Run>, at: int)
    requires Stray(next, at) && Ring(units, next, rs)
    ensures !InRing(rs, at)
  {
    forall k | 0 <= k < |rs| ensures rs[k].start != at {
      var j := Succ(k, |rs|);
      assert LinkedAt(next, rs, k) && LinkedAt(next, rs, j);
      if Succ(j, |rs|) != j { DistinctStarts(rs, j, Succ(j, |rs|)); }
    }
  }

  /** Cutting units from the only block makes it stray; taking all of it leaves it linked to itself. */
  lemma CutOnly(units: map<int, nat>, next: map<int, int>, rs: seq<Run>, n: nat)
    requires Ring(units, next, rs) && |rs| == 1 && 0 < n <= rs[0].len
    ensures var cur := rs[0].start;
            cur in units && units[cur] == rs[0].len && cur in next &&
            var x := CutNext(units, next, cur, cur, n);
            if n == rs[0].len then x == next && next[cur] == cur else Stray(x, cur) && x[cur] == cur + n
  {
    assert LinkedAt(next, rs, 0);
  }

  /** The fields u and x, and the block last used, after n units have been cut from block b as its own
      predecessor. */
  predicate CutAlone(units: map<int, nat>, next: map<int, int>, u: map<int, nat>, x: map<int, int>, at: int, b: int, n: nat) {
    b in units && b in next && n <= units[b] && u == CutUnits(units, b, n) && x == CutNext(units, next, b, b, n) && at == b
  }

  /** Cutting units from the inner end of a tangle leaves a tangle. */
  lemma CutTangled(units: map<int, nat>, next: map<int, int>, at: int, n: nat)
    requires Tangled(units, next, at) && 0 < n && next[at] + n < at
    ensures var b := next[at];
            Tangled(CutUnits(units, b, n), CutNext(units, next, at, b, n), at)
  {}

  // ----- walking the ring -----

  /** Steps from index c round the ring to index p. */
  function Distance(c: nat, p: nat, n: nat): nat
    requires c < n && p < n
  {
    if c <= p then p - c else p + n - c
  }

  /** Index j lies after s and before c on the way round the ring. */
  predicate Passed(s: nat, j: nat, c: nat) { if s < c then s < j < c else j > s || j < c }

  /** All blocks between s and c, going round, are too small. */
  ghost predicate PassesOver(rs: seq<Run>, s: nat, n: nat, c: nat) {
    forall j :: 0 <= j < |rs| && Passed(s, j, c) ==> rs[j].len < n
  }

  /** Block c is the first that has n units, going round the ring from the block after the one at an address. */
  ghost predicate FirstAfter(rs: seq<Run>, at: int, n: nat, c: nat) {
    c < |rs| && n <= rs[c].len && exists s :: 0 <= s < |rs| && rs[s].start == at && PassesOver(rs, s, n, c)
  }

  /** Block c is the first that has n units after the one at an address, and starts at b; before is the block
      before it in the ring. */
  ghost predicate Finds(rs: seq<Run>, at: int, n: nat, c: nat, b: int, before: int) {
    FirstAfter(rs, at, n, c) && rs[c].start == b && rs[Pred(c, |rs|)].start == before
  }

  /** The block of the ring that goes before an address. */
  ghost function BlockBefore(rs: seq<Run>, a: int): int
    requires rs != []
  {
    rs[Pred(Before(rs, a), |rs|)].start
  }

  /** If what is left of the block found still has n units, those are found next. */
  lemma FindsNext(rs: seq<Run>, c: nat, n: nat, k: nat, b: int, before: int)
    requires Canonical(rs) && c < |rs| && |rs| >= 2 && 0 < n && 2 * n <= rs[c].len
    requires Finds(Take(rs, c, n), rs[Pred(c, |rs|)].start, n, k, b, before)
    ensures b == rs[c].start + n && before == rs[Pred(c, |rs|)].start
  {
    var t, p := Take(rs, c, n), Pred(c, |rs|);
    TakeCanonical(rs, c, n);
    assert t[c] == Run(rs[c].start + n, rs[c].len - n) && t[p] == rs[p] && |t| == |rs|;
    var s :| 0 <= s < |t| && t[s].start == rs[p].start && PassesOver(t, s, n, k);
    if s != p { DistinctStarts(t, s, p); }
    assert k != c ==> Passed(p, c, k);
  }

  /** One step round the ring from c, which is not yet back at s. */
  lemma StepRound(s: nat, c: nat, n: nat)
    requires s < n && c < n && c != s
    ensures Pred(Succ(c, n), n) == c && Distance(Succ(c, n), s, n) < Distance(c, s, n)
    ensures forall j {:trigger Passed(s, j, Succ(c, n))} :: 0 <= j < n && Passed(s, j, Succ(c, n)) ==> Passed(s, j, c) || j == c
  {}

  /** Nothing smaller than one unit is passed over: the first block looked at is the one found. */
  lemma NextFits(next: map<int, int>, rs: seq<Run>, s: nat, c: nat)
    requires Canonical(rs) && Links(next, rs) && s < |rs| && c < |rs|
    requires PassesOver(rs, s, 1, c)
    ensures rs[s].start in next && next[rs[s].start] == rs[c].start
  {
    assert LinkedAt(next, rs, s);
    var k := Succ(s, |rs|);
    assert rs[k].len > 0 && !Passed(s, k, c);
  }

  /** The exit tests of slob_free's search hold exactly at the block before b's place. */
  lemma SearchExit(rs: seq<Run>, i: nat, r: Run, c: nat)
    requires Canonical(rs) && FitsAt(rs, i, r) && c < |rs|
    ensures var cur, nxt := rs[c].start, rs[Succ(c, |rs|)].start;
            (cur < r.start < nxt || (cur >= nxt && (r.start > cur || r.start < nxt))) <==> c == Pred(i, |rs|)
  {
    var n := |rs|;
    if c + 1 < n { assert End(rs[c]) < rs[c + 1].start; }
    if n > 1 { assert End(rs[0]) < rs[n - 1].start; }
    if i > 0 { assert End(rs[i - 1]) <= r.start; }
    if i < n { assert End(r) <= rs[i].start; }
    if i > 0 && c < i - 1 { assert c + 1 < n && End(rs[c + 1]) <= r.start; }
    if i <= c { assert End(r) <= rs[c].start; }
    if 0 < i { assert End(rs[0]) <= r.start; }
    if c < i { assert End(rs[c]) <= r.start; }
    if i < n { assert End(r) <= rs[n - 1].start; }
  }

  /** Where k steps along the links lead. */
  function Walk(next: map<int, int>, from: int, k: nat): int {
    if k == 0 then from
    else
      var p := Walk(next, from, k - 1);
      if p in next then next[p] else p
  }

  /** The search for room comes to a block that is large enough or back to where it began. */
  ghost predicate ScanEnds(units: map<int, nat>, next: map<int, int>, slobfree: int, n: nat) {
    exists k: nat :: k > 0 && var p := Walk(next, slobfree, k); p == slobfree || (p in units && units[p] >= n)
  }

  /** The search for the place of b comes to a block at which it stops. */
  ghost predicate SearchEnds(next: map<int, int>, slobfree: int, b: int) {
    exists k: nat :: StopsAt(next, Walk(next, slobfree, k), b)
  }

  predicate StopsAt(next: map<int, int>, cur: int, b: int) {
    cur in next && (cur < b < next[cur] || (cur >= next[cur] && (b > cur || b < next[cur])))
  }

  lemma {:induction false} WalkStray(next: map<int, int>, at: int, k: nat)
    requires Stray(next, at) && k > 0
    ensures Walk(next, at, k) == next[at]
  {
    if k > 1 { WalkStray(next, at, k - 1); }
  }

  lemma {:induction false} WalkAlone(next: map<int, int>, b: int, k: nat)
    requires b in next && next[b] == b
    ensures Walk(next, b, k) == b
  {
    if k > 0 { WalkAlone(next, b, k - 1); }
  }

  /** From a stray block the search for more than is left there goes on for ever. */
  lemma StrayScan(units: map<int, nat>, next: map<int, int>, at: int, n: nat)
    requires Stray(next, at) && next[at] in units
    ensures ScanEnds(units, next, at, n) <==> units[next[at]] >= n
  {
    forall k: nat | k > 0 ensures Walk(next, at, k) == next[at] { WalkStray(next, at, k); }
    assert Walk(next, at, 1) == next[at];
  }

  /** The search for the place of a block that is still the only one in the ring goes on for ever. */
  lemma AloneSearch(next: map<int, int>, b: int)
    requires b in next && next[b] == b
    ensures !SearchEnds(next, b, b)
  {
    forall k: nat ensures !StopsAt(next, Walk(next, b, k), b) { WalkAlone(next, b, k); }
  }
}
