/** First-fit allocation of physical pages from an address-ordered, coalesced free list. */
module FirstFit {
  import opened Options
  import opened Runs

  ghost function Heads(list: seq<Run>): set<int> {
    if list == [] then {} else {list[0].start} + Heads(list[1..])
  }

  lemma {:induction false} HeadsConcat(a: seq<Run>, b: seq<Run>)
    ensures Heads(a + b) == Heads(a) + Heads(b)
  {
    if a == [] {
      assert a + b == b;
    } else {
      HeadsConcat(a[1..], b);
      assert (a + b)[1..] == a[1..] + b;
    }
  }

  lemma {:induction false} HeadsListed(list: seq<Run>, p: int)
    ensures p in Heads(list) <==> exists k :: 0 <= k < |list| && list[k].start == p
  {
    if list != [] {
      HeadsListed(list[1..], p);
      if p in Heads(list[1..]) {
        var k :| 0 <= k < |list[1..]| && list[1..][k].start == p;
        assert list[k + 1].start == p;
      }
      if k :| 0 < k < |list| && list[k].start == p {
        assert list[1..][k - 1].start == p;
      }
    }
  }

  /** The flag is set on exactly the pages that head a listed run. */
  ghost predicate Marks(flagged: seq<bool>, heads: set<int>) {
    forall p :: 0 <= p < |flagged| ==> (flagged[p] <==> p in heads)
  }

  ghost predicate Within(list: seq<Run>, pages: nat) {
    forall k :: 0 <= k < |list| ==> 0 <= list[k].start && End(list[k]) <= pages
  }

  lemma HeadsSplice(list: seq<Run>, k: nat, r: Run)
    requires k <= |list|
    ensures Heads(list[..k] + [r] + list[k..]) == Heads(list) + {r.start}
  {
    var a, c := list[..k], list[k..];
    HeadsConcat(a + [r], c);
    HeadsConcat(a, [r]);
    HeadsOne(r);
    HeadsConcat(a, c);
    assert list == a + c;
  }

  lemma HeadsOne(r: Run)
    ensures Heads([r]) == {r.start}
  {
    assert [r][1..] == [];
  }

  lemma HeadsUnlink(list: seq<Run>, k: nat)
    requires Canonical(list) && k < |list|
    ensures Heads(list[..k] + list[k + 1..]) == Heads(list) - {list[k].start}
  {
    var a, x, c := list[..k], list[k], list[k + 1..];
    InThree(list, k, k + 1);
    assert list[k..k + 1] == [x];
    HeadsConcat(a + [x], c);
    HeadsConcat(a, [x]);
    HeadsOne(x);
    HeadsConcat(a, c);
    HeadsListed(a, x.start);
    HeadsListed(c, x.start);
    forall j | 0 <= j < |a| ensures a[j].start != x.start { assert End(list[j]) < list[k].start; }
    forall j | 0 <= j < |c| ensures c[j].start != x.start { assert End(list[k]) < list[k + 1 + j].start; }
  }

  /** No run touching or overlapping none of the list shares a head with it. */
  lemma HeadsApart(list: seq<Run>, r: Run)
    requires Canonical(list) && Apart(list, r) && r.len > 0
    ensures r.start !in Heads(list)
  {
    HeadsListed(list, r.start);
  }

  function LinkAfter<T>(s: seq<T>, k: nat, x: T): seq<T>
    requires k < |s|
  {
    s[..k + 1] + [x] + s[k + 1..]
  }

  function Unlink<T>(s: seq<T>, k: nat): seq<T>
    requires k < |s|
  {
    s[..k] + s[k + 1..]
  }

  /** Linking the rest of a run behind its head and unlinking the head replaces the entry. */
  lemma LinkThenUnlink<T>(s: seq<T>, k: nat, x: T)
    requires k < |s|
    ensures Unlink(LinkAfter(s, k, x), k) == s[k := x]
  {}

  lemma HeadsReplaced(list: seq<Run>, k: nat, x: Run)
    requires Canonical(list) && k < |list|
    ensures Heads(list[k := x]) == Heads(list) - {list[k].start} + {x.start}
  {
    var u := Unlink(list, k);
    HeadsUnlink(list, k);
    HeadsSplice(u, k, x);
    assert u[..k] + [x] + u[k..] == list[k := x];
  }

  lemma TakeWithin(list: seq<Run>, k: nat, n: nat, pages: nat)
    requires k < |list| && 0 < n <= list[k].len && Within(list, pages)
    ensures Within(Take(list, k, n), pages)
  {
    var t := Take(list, k, n);
    forall j | 0 <= j < |t| ensures 0 <= t[j].start && End(t[j]) <= pages {
      var i := if j < k || list[k].len > n then j else j + 1;
      assert (j == k && list[k].len > n) || t[j] == list[i];
    }
  }

  class PageAllocator {
    var flagged: seq<bool>   // PG_property, per page
    var reserved: seq<bool>  // PG_reserved, per page
    var list: seq<Run>       // free_list: each entry a page and its property field
    var nrFree: nat

    /** The list is the ascending list of the maximal free runs, the flag marks exactly their heads
        and the counter is their total size. */
    ghost predicate Valid()
      reads this
    {
      |flagged| == |reserved| && FreeList(flagged, list) && nrFree == Total(list)
    }

    constructor (pages: nat)
      ensures Valid() && |flagged| == pages && list == []
      ensures forall p :: 0 <= p < pages ==> reserved[p]
    {
      flagged := seq(pages, _ => false);
      reserved := seq(pages, _ => true);
      list, nrFree := [], 0;
    }

    /** Clears the flags of a region. */
    method ClearPages(base: nat, n: nat)
      requires |flagged| == |reserved| && base + n <= |flagged|
      modifies this`flagged, this`reserved
      ensures |flagged| == old(|flagged|) && |reserved| == old(|reserved|)
      ensures forall p :: 0 <= p < |flagged| ==> flagged[p] == (old(flagged[p]) && !(base <= p < base + n))
      ensures forall p :: 0 <= p < |reserved| ==> reserved[p] == (old(reserved[p]) && !(base <= p < base + n))
    {
      var p := base;
      while p != base + n
        invariant base <= p <= base + n && |flagged| == old(|flagged|) && |reserved| == old(|reserved|)
        invariant forall q :: 0 <= q < |flagged| ==> flagged[q] == (old(flagged[q]) && !(base <= q < p))
        invariant forall q :: 0 <= q < |reserved| ==> reserved[q] == (old(reserved[q]) && !(base <= q < p))
      {
        flagged := flagged[p := false];
        reserved := reserved[p := false];
        p := p + 1;
      }
    }

    /** Hands over a region, which is put last whatever its address: the list stays the list of the maximal
        runs exactly if regions come in ascending order and do not touch. */
    method InitMemmap(base: nat, n: nat)
      requires Valid() && n > 0 && base + n <= |flagged|
      requires forall p :: base <= p < base + n ==> reserved[p]
      modifies this
      ensures list == old(list) + [Run(base, n)] && nrFree == old(nrFree) + n
      ensures Valid() <==> forall k :: 0 <= k < |old(list)| ==> End(old(list)[k]) < base
      ensures |reserved| == old(|reserved|)
      ensures forall p :: 0 <= p < |reserved| ==> reserved[p] == (old(reserved[p]) && !(base <= p < base + n))
    {
      ghost var was := flagged;
      var r := Run(base, n);
      if forall k :: 0 <= k < |list| ==> End(list[k]) < base { AppendMarks(flagged, list, r); }
      ClearPages(base, n);
      assert (forall p :: base <= p < base + n ==> !was[p]) ==> flagged == was;
      flagged := flagged[base := true];
      nrFree := nrFree + n;
      AppendCanonical(list, r);
      TotalConcat(list, [r]);
      list := list + [r];
    }

    /** The first run on the list that is long enough, if there is one. */
    method Search(n: nat) returns (k: nat)
      ensures k <= |list|
      ensures forall j :: 0 <= j < k ==> list[j].len < n
      ensures k < |list| ==> n <= list[k].len
    {
      k := 0;
      while k < |list| && list[k].len < n
        invariant k <= |list|
        invariant forall j :: 0 <= j < k ==> list[j].len < n
      {
        k := k + 1;
      }
    }

    /** Cuts the first n pages off run k. */
    method Cut(k: nat, n: nat)
      requires Valid() && k < |list| && 0 < n <= list[k].len
      modifies this
      ensures Valid() && |flagged| == old(|flagged|) && reserved == old(reserved)
      ensures list == Take(old(list), k, n)
    {
      var head := list[k];
      ghost var target := Take(list, k, n);
      ghost var total := Total(target);
      assert nrFree - n == total by { TakeTotal(list, k, n); }
      var f, l := flagged, list;
      if head.len > n {
        CutSplit(flagged, list, k, n);
        f := flagged[head.start + n := true];
        l := LinkAfter(list, k, Run(head.start + n, head.len - n));
      } else {
        CutExact(flagged, list, k);
      }
      assert Unlink(l, k) == target && FreeList(f[head.start := false], target);
      list := Unlink(l, k);
      nrFree := nrFree - n;
      flagged := f[head.start := false];
    }

    /** The lowest-addressed run that is long enough gives up its first n pages. */
    method AllocPages(n: nat) returns (page: Option<nat>, ghost at: nat)
      requires Valid() && n > 0
      modifies this
      ensures Valid() && |flagged| == old(|flagged|) && reserved == old(reserved)
      ensures page.None? ==> list == old(list) && forall k :: 0 <= k < |list| ==> list[k].len < n
      ensures page.Some? ==>
                at < |old(list)| && n <= old(list)[at].len && page.value == old(list)[at].start &&
                (forall j :: 0 <= j < at ==> old(list)[j].len < n) && list == Take(old(list), at, n)
    {
      if n > nrFree {
        forall k | 0 <= k < |list| ensures list[k].len < n { TotalSplit(list, k); }
        return None, 0;
      }
      var k := Search(n);
      if k == |list| {
        return None, 0;
      }
      page, at := Some(list[k].start), k;
      Cut(k, n);
    }

    /** Absorbs into the freed run every listed run that touches it. */
    method Coalesce(start: Run) returns (base: Run)
      requires Loose(flagged, list, start)
      modifies this`flagged, this`list
      ensures |flagged| == old(|flagged|) && Loose(flagged, list, base)
      ensures Clear(list, |list|, base)
      ensures SameSpace(list, base, old(list), start)
    {
      base := start;
      var k := 0;
      while k < |list|
        invariant k <= |list| && |flagged| == old(|flagged|) && Loose(flagged, list, base)
        invariant Clear(list, k, base)
        invariant SameSpace(list, base, old(list), start)
        decreases |list| - k
      {
        var p := list[k];
        if End(base) == p.start {
          Absorb(flagged, list, k, base, Run(base.start, base.len + p.len));
          base := Run(base.start, base.len + p.len);
          flagged := flagged[p.start := false];
          list := Unlink(list, k);
        } else if End(p) == base.start {
          Absorb(flagged, list, k, base, Run(p.start, p.len + base.len));
          flagged := flagged[base.start := false];
          base := Run(p.start, p.len + base.len);
          list := Unlink(list, k);
        } else {
          k := k + 1;
        }
      }
    }

    /** Puts the run in front of the first listed one beyond it. */
    method Link(base: Run)
      requires Loose(flagged, list, base) && Clear(list, |list|, base)
      modifies this`list
      ensures FreeList(flagged, list)
      ensures forall a :: Covers(list, a) <==> Covers(old(list), a) || Holds(base, a)
    {
      var k := 0;
      while k < |list| && !(End(base) <= list[k].start)
        invariant k <= |list|
        invariant forall j :: 0 <= j < k ==> End(list[j]) < base.start
      {
        k := k + 1;
      }
      assert k < |list| ==> End(base) != list[k].start;
      LinkFits(flagged, list, k, base);
      list := list[..k] + [base] + list[k..];
    }

    /** The freed pages rejoin their neighbours: the list is again that of the maximal free runs. */
    method FreePages(base: nat, n: nat) returns (ghost at: nat)
      requires Valid() && n > 0 && base + n <= |flagged|
      requires forall p :: base <= p < base + n ==> !reserved[p] && !flagged[p]
      requires Apart(list, Run(base, n))
      modifies this
      ensures Valid() && |flagged| == old(|flagged|) && reserved == old(reserved)
      ensures FitsAt(old(list), at, Run(base, n)) && list == Insert(old(list), at, Run(base, n))
    {
      ghost var r := Run(base, n);
      ClearPages(base, n);
      assert reserved == old(reserved);
      flagged := flagged[base := true];
      var m := Coalesce(Run(base, n));
      nrFree := nrFree + n;
      Link(m);
      at := Rejoined(old(list), r, list);
    }

    /** Freeing what was just allocated restores the list, the flags and the counter. */
    method AllocThenFree(n: nat)
      requires Valid() && n > 0
      requires forall p :: 0 <= p < |reserved| && Covers(list, p) ==> !reserved[p]
      modifies this
      ensures list == old(list) && flagged == old(flagged) && nrFree == old(nrFree)
    {
      ghost var rs, marks, total := list, flagged, nrFree;
      var page, k := AllocPages(n);
      if page.Some? {
        TakenApart(flagged, rs, k, n);
        forall p | page.value <= p < page.value + n ensures !reserved[p] { assert Holds(rs[k], p); }
        ghost var i := FreePages(page.value, n);
        assert list == rs by { TakeThenInsert(rs, k, n, i); }
      }
      SameMarks(flagged, marks, list);
    }
  }

  /** The list determines the flags. */
  lemma SameMarks(f: seq<bool>, g: seq<bool>, list: seq<Run>)
    requires |f| == |g| && Marks(f, Heads(list)) && Marks(g, Heads(list))
    ensures f == g
  {
    assert forall p :: 0 <= p < |f| ==> f[p] == g[p];
  }

  lemma TakenApart(flagged: seq<bool>, rs: seq<Run>, k: nat, n: nat)
    requires Canonical(rs) && k < |rs| && 0 < n <= rs[k].len && FreeList(flagged, Take(rs, k, n))
    ensures Apart(Take(rs, k, n), Run(rs[k].start, n))
    ensures forall p :: 0 <= p < |flagged| && rs[k].start <= p < rs[k].start + n ==> !flagged[p]
  {
    var t := Take(rs, k, n);
    var d := if rs[k].len == n then 1 else 0;
    forall j | 0 <= j < |t| ensures End(t[j]) <= rs[k].start || rs[k].start + n <= t[j].start {
      if j < k { assert End(rs[j]) < rs[k].start; }
      if j >= k && j + d != k { assert End(rs[k]) < rs[j + d].start; }
    }
    forall p | 0 <= p < |flagged| && rs[k].start <= p < rs[k].start + n ensures !flagged[p] {
      HeadsListed(t, p);
    }
  }

  /** A well-kept free list with its flags. */
  ghost predicate FreeList(flagged: seq<bool>, list: seq<Run>) {
    Canonical(list) && Within(list, |flagged|) && Marks(flagged, Heads(list))
  }

  /** Beyond the last run no page heads one, so that a run appended there adds just its own head. */
  lemma AppendMarks(flagged: seq<bool>, list: seq<Run>, r: Run)
    requires FreeList(flagged, list) && r.len > 0 && 0 <= r.start && End(r) <= |flagged|
    requires forall k :: 0 <= k < |list| ==> End(list[k]) < r.start
    ensures forall p :: r.start <= p < End(r) ==> !flagged[p]
    ensures Within(list + [r], |flagged|) && Marks(flagged[r.start := true], Heads(list + [r]))
  {
    forall p | r.start <= p < End(r) ensures !flagged[p] { HeadsListed(list, p); }
    HeadsSplice(list, |list|, r);
    assert list + [r] == list[..|list|] + [r] + list[|list|..];
  }

  /** A run being freed: flagged, but not on the list yet. */
  ghost predicate Loose(flagged: seq<bool>, list: seq<Run>, base: Run) {
    Canonical(list) && Within(list, |flagged|) && Apart(list, base) &&
    base.len > 0 && base.start >= 0 && End(base) <= |flagged| && Marks(flagged, Heads(list) + {base.start})
  }

  /** The first k listed runs do not touch the run. */
  ghost predicate Clear(list: seq<Run>, k: nat, base: Run)
    requires k <= |list|
  {
    forall j :: 0 <= j < k ==> End(list[j]) < base.start || End(base) < list[j].start
  }

  ghost predicate SameSpace(list: seq<Run>, base: Run, list': seq<Run>, base': Run) {
    forall a :: Covers(list, a) || Holds(base, a) <==> Covers(list', a) || Holds(base', a)
  }

  lemma CutExact(flagged: seq<bool>, list: seq<Run>, k: nat)
    requires FreeList(flagged, list) && k < |list|
    ensures Unlink(list, k) == Take(list, k, list[k].len)
    ensures FreeList(flagged[list[k].start := false], Unlink(list, k))
  {
    TakeCanonical(list, k, list[k].len);
    TakeWithin(list, k, list[k].len, |flagged|);
    HeadsUnlink(list, k);
  }

  lemma CutSplit(flagged: seq<bool>, list: seq<Run>, k: nat, n: nat)
    requires FreeList(flagged, list) && k < |list| && 0 < n < list[k].len
    ensures var rest := Run(list[k].start + n, list[k].len - n);
            Unlink(LinkAfter(list, k, rest), k) == Take(list, k, n) &&
            FreeList(flagged[rest.start := true][list[k].start := false], Take(list, k, n))
  {
    var rest := Run(list[k].start + n, list[k].len - n);
    TakeCanonical(list, k, n);
    TakeWithin(list, k, n, |flagged|);
    LinkThenUnlink(list, k, rest);
    HeadsReplaced(list, k, rest);
  }

  lemma LinkFits(flagged: seq<bool>, list: seq<Run>, k: nat, base: Run)
    requires Loose(flagged, list, base) && Clear(list, |list|, base) && k <= |list|
    requires forall j :: 0 <= j < k ==> End(list[j]) < base.start
    requires k < |list| ==> End(base) < list[k].start
    ensures var t := list[..k] + [base] + list[k..];
            FreeList(flagged, t) && forall a :: Covers(t, a) <==> Covers(list, a) || Holds(base, a)
  {
    forall j | k <= j < |list| ensures End(base) < list[j].start {
      if k < j { assert End(list[k]) < list[j].start; }
    }
    SpliceCanonical(list, k, k, base);
    forall a ensures Covers(Splice(list, k, k, base), a) <==> Covers(list, a) || Holds(base, a) {
      SpliceCovers(list, k, k, base, a);
    }
    HeadsSplice(list, k, base);
  }

  /** A canonical list with the old space and the freed run is the old list with the run inserted. */
  lemma Rejoined(list: seq<Run>, r: Run, list': seq<Run>) returns (i: nat)
    requires Canonical(list) && Canonical(list') && Apart(list, r) && r.len > 0
    requires forall a :: Covers(list', a) <==> Covers(list, a) || Holds(r, a)
    ensures FitsAt(list, i, r) && list' == Insert(list, i, r) && Total(list') == Total(list) + r.len
  {
    i := Place(list, r);
    InsertCanonical(list, i, r);
    forall a ensures Covers(list', a) <==> Covers(Insert(list, i, r), a) { InsertCovers(list, i, r, a); }
    SameCoverSameRuns(list', Insert(list, i, r));
    InsertTotal(list, i, r);
  }

  /** Merging the touching run k and the freed one. */
  lemma Absorb(flagged: seq<bool>, list: seq<Run>, k: nat, base: Run, m: Run)
    requires Loose(flagged, list, base) && k < |list| && m.len == base.len + list[k].len
    requires (End(base) == list[k].start && m.start == base.start) || (End(list[k]) == base.start && m.start == list[k].start)
    ensures var t := list[..k] + list[k + 1..];
            var gone := if m.start == base.start then list[k].start else base.start;
            Loose(flagged[gone := false], t, m) && SameSpace(t, m, list, base) &&
            (Clear(list, k, base) ==> Clear(t, k, m))
  {
    AbsorbPlaces(list, k, base, m);
    AbsorbSpace(list, k, base, m);
    HeadsUnlink(list, k);
    HeadsApart(list, base);
    HeadsListed(list, list[k].start);
  }

  lemma AbsorbSpace(list: seq<Run>, k: nat, base: Run, m: Run)
    requires Canonical(list) && k < |list| && m.len == base.len + list[k].len
    requires (End(base) == list[k].start && m.start == base.start) || (End(list[k]) == base.start && m.start == list[k].start)
    ensures Canonical(list[..k] + list[k + 1..]) && SameSpace(list[..k] + list[k + 1..], m, list, base)
  {
    var t := list[..k] + list[k + 1..];
    var n := list[k].len;
    assert t == Take(list, k, n);
    TakeCanonical(list, k, n);
    forall a ensures Covers(t, a) || Holds(m, a) <==> Covers(list, a) || Holds(base, a) {
      TakeCovers(list, k, n, a);
      assert Holds(list[k], a) ==> Covers(list, a);
    }
  }

  lemma AbsorbPlaces(list: seq<Run>, k: nat, base: Run, m: Run)
    requires Canonical(list) && k < |list| && Apart(list, base) && m.len == base.len + list[k].len
    requires (End(base) == list[k].start && m.start == base.start) || (End(list[k]) == base.start && m.start == list[k].start)
    ensures var t := list[..k] + list[k + 1..];
            Apart(t, m) && (Clear(list, k, base) ==> Clear(t, k, m))
  {
    var t := list[..k] + list[k + 1..];
    forall j | 0 <= j < |t|
      ensures End(t[j]) <= m.start || End(m) <= t[j].start
      ensures j < k && Clear(list, k, base) ==> End(t[j]) < m.start || End(m) < t[j].start
    {
      var i := if j < k then j else j + 1;
      assert t[j] == list[i];
      if j < k { assert End(list[j]) < list[k].start; } else { assert End(list[k]) < list[i].start; }
    }
  }

  /** Two regions that touch are listed as two runs, although the free pages are one. */
  method TouchingRegions() returns (pages: PageAllocator)
    ensures fresh(pages) && pages.list == [Run(0, 2), Run(2, 2)] && pages.nrFree == 4 && !pages.Valid()
  {
    pages := new PageAllocator(4);
    pages.InitMemmap(0, 2);
    assert pages.list == [Run(0, 2)];
    pages.InitMemmap(2, 2);
    assert End(Run(0, 2)) == 2;
  }
}
