/** Stride scheduling with 32-bit strides that wrap around, on a skew heap. */
module Stride {
  import opened SkewHeap
  import opened Sums
  import opened Words

  const BIG_STRIDE: nat := 0x7FFF_FFFF

  function Sign(c: int): int { if c > 0 then 1 else if c == 0 then 0 else -1 }

  /** How two numbers that do not wrap compare. */
  function Order(x: int, y: int): int { Sign(x - y) }

  /** The comparison of two stored strides, by their difference read as a signed number. */
  function Compare(p: nat, q: nat): int { Sign(Signed(p - q)) }

  /** While two strides are at most BIG_STRIDE apart, their wrapped forms compare like themselves. */
  lemma CompareAgrees(x: nat, y: nat)
    requires x - y <= BIG_STRIDE && y - x <= BIG_STRIDE
    ensures Compare(Wrap(x), Wrap(y)) == Order(x, y)
  {
    WrappedDifference(x, y);
  }

  lemma WrappedDifference(x: nat, y: nat)
    ensures Wrap(Wrap(x) - Wrap(y)) == Wrap(x - y)
  {
    var k := x / 0x1_0000_0000 - y / 0x1_0000_0000;
    assert x - y == (Wrap(x) - Wrap(y)) + 0x1_0000_0000 * k;
  }

  /** One further apart and the comparison is reversed. */
  lemma WindowIsSharp(y: nat)
    ensures Compare(Wrap(y + BIG_STRIDE + 1), Wrap(y)) == -1
  {
    WrappedDifference(y + BIG_STRIDE + 1, y);
  }

  /** How far a process advances each time it is picked: the largest step that many of which fit into
      BIG_STRIDE. */
  function Pass(priority: nat): (pass: nat)
    ensures pass <= BIG_STRIDE && (priority == 0 ==> pass == BIG_STRIDE)
    ensures priority > 0 ==> pass * priority <= BIG_STRIDE < (pass + 1) * priority
  {
    if priority == 0 then BIG_STRIDE else BIG_STRIDE / priority
  }

  // ----- runs of the scheduler, with strides that never wrap -----

  /** x is not ahead of y by more than its own pass. */
  ghost predicate Within<K>(time: map<K, nat>, pass: map<K, nat>, x: K, y: K)
    requires x in time && y in time && x in pass
  {
    time[x] <= time[y] + pass[x] <= time[y] + BIG_STRIDE
  }

  ghost predicate Window<K>(time: map<K, nat>, pass: map<K, nat>) {
    time.Keys == pass.Keys &&
    forall x, y {:trigger Within(time, pass, x, y)} :: x in time && y in time ==> Within(time, pass, x, y)
  }

  /** What the wrapped comparison lets the scheduler pick. */
  ghost predicate Pickable<K>(time: map<K, nat>, x: K) {
    x in time &&
    forall y {:trigger Compare(Wrap(time[x]), Wrap(time[y]))} :: y in time ==> Compare(Wrap(time[x]), Wrap(time[y])) <= 0
  }

  function Picked<K>(time: map<K, nat>, pass: map<K, nat>, x: K): map<K, nat>
    requires x in time && x in pass
  {
    time[x := time[x] + pass[x]]
  }

  ghost predicate Runs<K>(time: map<K, nat>, pass: map<K, nat>, picks: seq<K>)
    requires time.Keys == pass.Keys
    decreases picks
  {
    picks == [] || (Pickable(time, picks[0]) && Runs(Picked(time, pass, picks[0]), pass, picks[1..]))
  }

  ghost function Run<K>(time: map<K, nat>, pass: map<K, nat>, picks: seq<K>): map<K, nat>
    requires time.Keys == pass.Keys && Runs(time, pass, picks)
    decreases picks
  {
    if picks == [] then time else Run(Picked(time, pass, picks[0]), pass, picks[1..])
  }

  /** The wrapped comparison picks a true minimum, and only those. */
  lemma PickableIsLeast<K>(time: map<K, nat>, pass: map<K, nat>, x: K)
    requires Window(time, pass) && x in time
    ensures Pickable(time, x) <==> forall y :: y in time ==> time[x] <= time[y]
  {
    forall y | y in time ensures Compare(Wrap(time[x]), Wrap(time[y])) <= 0 <==> time[x] <= time[y] {
      assert Within(time, pass, x, y) && Within(time, pass, y, x);
      CompareAgrees(time[x], time[y]);
    }
  }

  lemma PickKeepsWindow<K>(time: map<K, nat>, pass: map<K, nat>, x: K)
    requires Window(time, pass) && Pickable(time, x)
    ensures Window(Picked(time, pass, x), pass)
  {
    PickableIsLeast(time, pass, x);
    forall j, k | j in time && k in time ensures Within(Picked(time, pass, x), pass, j, k) {
      assert Within(time, pass, j, k);
    }
  }

  ghost function Times<K>(picks: seq<K>, x: K): nat {
    if picks == [] then 0 else (if picks[0] == x then 1 else 0) + Times(picks[1..], x)
  }

  /** Over every run the strides stay within the window, so each pick was a true minimum. */
  lemma {:induction false} RunKeepsWindow<K>(time: map<K, nat>, pass: map<K, nat>, picks: seq<K>)
    requires Window(time, pass) && Runs(time, pass, picks)
    ensures Window(Run(time, pass, picks), pass)
    decreases picks
  {
    if picks != [] {
      PickKeepsWindow(time, pass, picks[0]);
      RunKeepsWindow(Picked(time, pass, picks[0]), pass, picks[1..]);
    }
  }

  /** A process advances by its pass as often as it is picked. */
  lemma {:induction false} RunAdvances<K>(time: map<K, nat>, pass: map<K, nat>, picks: seq<K>, x: K)
    requires time.Keys == pass.Keys && Runs(time, pass, picks) && x in time
    ensures var after := Run(time, pass, picks);
            after.Keys == time.Keys && after[x] == time[x] + Times(picks, x) * pass[x]
    decreases picks
  {
    if picks != [] {
      RunAdvances(Picked(time, pass, picks[0]), pass, picks[1..], x);
      OneMore(Times(picks[1..], x), pass[x]);
    }
  }

  /** The spread never exceeds BIG_STRIDE. */
  lemma SpreadBounded<K>(time: map<K, nat>, pass: map<K, nat>, picks: seq<K>, x: K, y: K)
    requires Window(time, pass) && Runs(time, pass, picks) && x in time && y in time
    ensures var after := Run(time, pass, picks);
            x in after && y in after && after[x] - after[y] <= BIG_STRIDE
  {
    RunKeepsWindow(time, pass, picks);
    RunAdvances(time, pass, picks, x);
    assert Within(Run(time, pass, picks), pass, x, y);
  }

  /** From equal strides, what two processes have received differs by at most the larger pass. */
  lemma Fair<K>(time: map<K, nat>, pass: map<K, nat>, picks: seq<K>, x: K, y: K)
    requires time.Keys == pass.Keys && (forall k :: k in pass ==> pass[k] <= BIG_STRIDE)
    requires forall j, k :: j in time && k in time ==> time[j] == time[k]
    requires Runs(time, pass, picks) && x in time && y in time
    ensures Times(picks, x) * pass[x] - Times(picks, y) * pass[y] <= if pass[x] < pass[y] then pass[y] else pass[x]
  {
    assert forall j, k :: j in time && k in time ==> Within(time, pass, j, k);
    RunKeepsWindow(time, pass, picks);
    RunAdvances(time, pass, picks, x);
    RunAdvances(time, pass, picks, y);
    assert Within(Run(time, pass, picks), pass, x, y);
  }

  lemma Scaled(c: nat, x: int, y: int)
    requires x <= y
    ensures c * x <= c * y
  {}

  lemma Swapped(k: int, b: int, p: int, a: int)
    ensures (k * b) * (p * a) == (a * b) * (k * p)
  {
    assert (k * b) * (p * a) == k * (b * (p * a)) == k * ((a * b) * p) == (a * b) * (k * p);
  }

  lemma AtMostRounded(k: nat, b: nat, p: nat, a: nat)
    requires BIG_STRIDE <= p * a + a
    ensures BIG_STRIDE * (k * b) <= (a * b) * (k * p) + (k * b) * a
  {
    Scaled(k * b, BIG_STRIDE, p * a + a);
    assert (k * b) * (p * a + a) == (k * b) * (p * a) + (k * b) * a;
    Swapped(k, b, p, a);
  }

  lemma AtLeastRounded(l: nat, a: nat, q: nat, b: nat)
    requires q * b <= BIG_STRIDE
    ensures (a * b) * (l * q) <= BIG_STRIDE * (l * a)
  {
    Scaled(l * a, q * b, BIG_STRIDE);
    Swapped(l, a, q, b);
  }

  lemma Balanced(c: nat, x: int, y: int, m: int)
    requires x - y <= m
    ensures c * x - c * y <= c * m
  {
    Scaled(c, x - y, m);
  }

  lemma PassPart(p: nat, a: nat, b: nat)
    requires p * a <= BIG_STRIDE
    ensures (a * b) * p <= BIG_STRIDE * b && (b * a) * p <= BIG_STRIDE * b
  {
    Scaled(b, p * a, BIG_STRIDE);
    assert (a * b) * p == b * (p * a) == (b * a) * p;
  }

  /** Numbers of picks whose passes almost balance are almost in proportion to the priorities. */
  lemma InProportion(k: nat, l: nat, p: nat, q: nat, a: nat, b: nat)
    requires BIG_STRIDE <= p * a + a && p * a <= BIG_STRIDE && q * b <= BIG_STRIDE
    requires k * p - l * q <= if p < q then q else p
    ensures BIG_STRIDE * (k * b) - BIG_STRIDE * (l * a) <= BIG_STRIDE * (if a < b then b else a) + (k * b) * a
  {
    AtMostRounded(k, b, p, a);
    AtLeastRounded(l, a, q, b);
    Balanced(a * b, k * p, l * q, if p < q then q else p);
    PassPart(p, a, b);
    PassPart(q, b, a);
  }

  /** Over every run from equal strides, the numbers of picks are in proportion to the priorities: K*b and
      L*a differ by at most the larger priority, and by K*a*b parts in BIG_STRIDE for rounding the pass. */
  lemma Proportional<K>(time: map<K, nat>, priority: map<K, nat>, picks: seq<K>, x: K, y: K)
    requires time.Keys == priority.Keys && forall j, k :: j in time && k in time ==> time[j] == time[k]
    requires x in time && y in time && priority[x] > 0 && priority[y] > 0
    requires Runs(time, map k | k in priority :: Pass(priority[k]), picks)
    ensures var a, b, k, l := priority[x], priority[y], Times(picks, x), Times(picks, y);
            BIG_STRIDE * (k * b) - BIG_STRIDE * (l * a) <= BIG_STRIDE * (if a < b then b else a) + (k * b) * a
  {
    var pass := map k | k in priority :: Pass(priority[k]);
    Fair(time, pass, picks, x, y);
    var a, b := priority[x], priority[y];
    assert (pass[x] + 1) * a == pass[x] * a + a;
    InProportion(Times(picks, x), Times(picks, y), pass[x], pass[y], a, b);
  }

  // ----- the run queue -----

  /** The part of a process that the scheduler uses; the stride is a 32-bit number. */
  datatype Proc = Proc(stride: nat, priority: nat, timeSlice: nat)

  function Refilled(p: Proc, slice: nat): Proc {
    if p.timeSlice == 0 || p.timeSlice > slice then p.(timeSlice := slice) else p
  }

  function Comp(procs: map<Node, Proc>): Comparator {
    (a, b) => if a in procs && b in procs then Compare(procs[a].stride, procs[b].stride) else 0
  }

  /** What is recorded of a process: its true stride, wrapped, and its pass. */
  ghost predicate Stored(p: Proc, t: nat, pass: nat) {
    p.stride == Wrap(t) && pass == Pass(p.priority)
  }

  /** The stored strides are the true ones, wrapped, and these are within the window. */
  ghost predicate Tracks(procs: map<Node, Proc>, time: map<Node, nat>, pass: map<Node, nat>) {
    time.Keys == procs.Keys && pass.Keys == procs.Keys && Window(time, pass) &&
    forall x {:trigger Stored(procs[x], time[x], pass[x])} :: x in procs ==> Stored(procs[x], time[x], pass[x])
  }

  lemma CompIsSign(procs: map<Node, Proc>, time: map<Node, nat>, pass: map<Node, nat>, x: Node, y: Node)
    requires Tracks(procs, time, pass) && x in procs && y in procs
    ensures Comp(procs)(x, y) == Order(time[x], time[y])
  {
    assert Stored(procs[x], time[x], pass[x]) && Stored(procs[y], time[y], pass[y]);
    assert Within(time, pass, x, y) && Within(time, pass, y, x);
    CompareAgrees(time[x], time[y]);
  }

  /** Within the window the wrapped comparison orders the processes. */
  lemma TracksPreorder(procs: map<Node, Proc>, time: map<Node, nat>, pass: map<Node, nat>)
    requires Tracks(procs, time, pass)
    ensures Preorder(Comp(procs), procs.Keys)
  {
    forall x, y | x in procs && y in procs ensures Comp(procs)(x, y) == Order(time[x], time[y]) {
      CompIsSign(procs, time, pass, x, y);
    }
  }

  lemma PoolPreorder(procs: map<Node, Proc>, time: map<Node, nat>, pass: map<Node, nat>, s: set<Node>)
    requires Tracks(procs, time, pass) && s <= procs.Keys
    ensures Preorder(Comp(procs), s)
  {
    TracksPreorder(procs, time, pass);
  }

  /** Strides decide the order; the other fields do not matter. */
  lemma {:induction false} SameStrides(t: Tree, before: map<Node, Proc>, after: map<Node, Proc>)
    requires Nodes(t) <= before.Keys && before.Keys == after.Keys
    requires forall x :: x in before ==> after[x].stride == before[x].stride
    requires Ordered(t, Comp(before))
    ensures Ordered(t, Comp(after))
  {
    if t.Branch? {
      forall y {:trigger NotAfter(Comp(after), t.node, y)} | y in Nodes(t.left) || y in Nodes(t.right)
        ensures NotAfter(Comp(after), t.node, y)
      {
        assert NotAfter(Comp(before), t.node, y);
      }
      SameStrides(t.left, before, after);
      SameStrides(t.right, before, after);
    }
  }

  /** Only the strides and priorities matter for the window and the order. */
  lemma SliceSet(t: Tree, procs: map<Node, Proc>, time: map<Node, nat>, pass: map<Node, nat>, after: map<Node, Proc>)
    requires Nodes(t) <= procs.Keys && Tracks(procs, time, pass) && Ordered(t, Comp(procs)) && after.Keys == procs.Keys
    requires forall y :: y in procs ==> after[y].stride == procs[y].stride && after[y].priority == procs[y].priority
    ensures Tracks(after, time, pass) && Ordered(t, Comp(after))
  {
    SameStrides(t, procs, after);
    forall y | y in procs ensures Stored(after[y], time[y], pass[y]) { assert Stored(procs[y], time[y], pass[y]); }
  }

  /** Raising the stride of the least process keeps the window, and the order of all others. */
  lemma Raised(t: Tree, procs: map<Node, Proc>, time: map<Node, nat>, pass: map<Node, nat>, x: Node, after: map<Node, Proc>)
    requires Nodes(t) <= procs.Keys && Tracks(procs, time, pass) && Ordered(t, Comp(procs)) && x in procs
    requires Pickable(time, x)
    requires after == procs[x := procs[x].(stride := Wrap(procs[x].stride + Pass(procs[x].priority)))]
    ensures Tracks(after, Picked(time, pass, x), pass) && OrderedBut(t, Comp(after), x)
    ensures after[x].stride == Wrap(Picked(time, pass, x)[x])
  {
    RaisedTracks(procs, time, pass, x, after);
    KeyChanged(t, Comp(procs), Comp(after), x);
  }

  lemma RaisedTracks(procs: map<Node, Proc>, time: map<Node, nat>, pass: map<Node, nat>, x: Node, after: map<Node, Proc>)
    requires Tracks(procs, time, pass) && x in procs && Pickable(time, x)
    requires after == procs[x := procs[x].(stride := Wrap(procs[x].stride + Pass(procs[x].priority)))]
    ensures Tracks(after, Picked(time, pass, x), pass) && after[x].stride == Wrap(Picked(time, pass, x)[x])
  {
    PickKeepsWindow(time, pass, x);
    WrappedSum(time[x], pass[x]);
    assert Stored(procs[x], time[x], pass[x]);
    forall y | y in procs ensures Stored(after[y], Picked(time, pass, x)[y], pass[y]) {
      assert Stored(procs[y], time[y], pass[y]);
    }
  }

  class RunQueue {
    const maxTimeSlice: nat
    var pool: Node?
    var procNum: nat
    var procs: map<Node, Proc>     // the runnable processes, by their entry in the pool
    ghost var tree: Tree
    ghost var time: map<Node, nat>
    ghost var pass: map<Node, nat>

    ghost predicate Valid()
      reads this, Nodes(tree)
    {
      Heap(tree, pool) && Nodes(tree) <= procs.Keys && procNum == Size(tree) &&
      Tracks(procs, time, pass) && Ordered(tree, Comp(procs))
    }

    /** A set of processes that have not run yet, none of them in the pool. */
    constructor (slice: nat, runnable: map<Node, Proc>)
      requires forall x :: x in runnable ==> runnable[x].stride == 0
      ensures Valid() && procs == runnable && maxTimeSlice == slice
      ensures tree == Leaf && forall x :: x in time ==> time[x] == 0
    {
      maxTimeSlice, pool, procNum, procs := slice, null, 0, runnable;
      tree, time, pass := Leaf, map x | x in runnable :: 0, map x | x in runnable :: Pass(runnable[x].priority);
    }

    method Enqueue(x: Node)
      requires Valid() && x in procs && x !in Nodes(tree)
      modifies this, Nodes(tree), x
      ensures Valid() && Nodes(tree) == old(Nodes(tree)) + {x}
      ensures time == old(time) && pass == old(pass)
      ensures procs == old(procs)[x := Refilled(old(procs)[x], maxTimeSlice)]
    {
      AddToPool(x);
      Refill(x);
    }

    method AddToPool(x: Node)
      requires Valid() && x in procs && x !in Nodes(tree)
      modifies this`pool, this`tree, this`procNum, Nodes(tree), x
      ensures Valid() && Nodes(tree) == old(Nodes(tree)) + {x}
    {
      PoolPreorder(procs, time, pass, Nodes(tree) + {x});
      var root, bigger := Insert(pool, x, Comp(procs), tree);
      pool, tree, procNum := root, bigger, procNum + 1;
    }

    /** An exhausted or overlong time slice is set to the longest allowed. */
    method Refill(x: Node)
      requires Valid() && x in procs
      modifies this`procs
      ensures Valid() && procs == old(procs)[x := Refilled(old(procs)[x], maxTimeSlice)]
    {
      var after := procs[x := Refilled(procs[x], maxTimeSlice)];
      SliceSet(tree, procs, time, pass, after);
      procs := after;
    }

    /** The process had the least true stride, by the wrapped comparison and in fact, and advanced. */
    ghost predicate Taken(was: map<Node, nat>, next: Node)
      reads this
    {
      next in procs && next in pass && Pickable(was, next) && (forall y :: y in was ==> was[next] <= was[y]) &&
      pass[next] == Pass(procs[next].priority) && time == Picked(was, pass, next)
    }

    /** The first entry of the pool is a process with the least true stride; its stride is raised. */
    method PickNext() returns (x: Node?)
      requires Valid() && Nodes(tree) == procs.Keys
      modifies this`procs, this`time
      ensures x == pool && (x == null <==> procs == map[])
      ensures x == null ==> procs == old(procs) && time == old(time)
      ensures x != null ==>
                Taken(old(time), x) && procs == old(procs)[x := old(procs)[x].(stride := Wrap(time[x]))]
      ensures Tracks(procs, time, pass) && (x != null ==> OrderedBut(tree, Comp(procs), x))
    {
      x := pool;
      if x == null { return; }
      var p := procs[x];
      assert Stored(p, time[x], pass[x]);
      var after := procs[x := p.(stride := Wrap(p.stride + Pass(p.priority)))];
      LeastFirst(tree, procs, time, pass);
      Raised(tree, procs, time, pass, x, after);
      procs, time := after, Picked(time, pass, x);
    }

    method Dequeue(x: Node)
      requires Heap(tree, pool) && Nodes(tree) <= procs.Keys && procNum == Size(tree) && Tracks(procs, time, pass)
      requires x in Nodes(tree) && OrderedBut(tree, Comp(procs), x)
      modifies this`pool, this`procNum, this`tree, Nodes(tree)
      ensures Valid() && Nodes(tree) == old(Nodes(tree)) - {x}
    {
      PoolPreorder(procs, time, pass, Nodes(tree) - {x});
      var root, smaller := Remove(pool, x, Comp(procs), tree);
      pool, tree, procNum := root, smaller, procNum - 1;
    }

    method TakeNext() returns (next: Node?)
      requires Valid() && Nodes(tree) == procs.Keys
      modifies this, Nodes(tree)
      ensures Valid() && procs.Keys == old(procs).Keys && pass == old(pass)
      ensures next == null <==> procs == map[]
      ensures next == null ==> time == old(time)
      ensures next != null ==> Taken(old(time), next) && Nodes(tree) == procs.Keys - {next}
    {
      next := PickNext();
      if next != null { Dequeue(next); }
    }

    /** One call of the scheduler over a fixed set of runnable processes: the running one, if any,
        goes back to the pool, and the process with the least true stride leaves it and advances. */
    method Schedule(current: Node?) returns (next: Node?)
      requires Valid() && (current == null ==> Nodes(tree) == procs.Keys)
      requires current != null ==> current in procs && Nodes(tree) == procs.Keys - {current}
      modifies this, Nodes(tree), current
      ensures Valid() && procs.Keys == old(procs).Keys && pass == old(pass)
      ensures next == null <==> procs == map[]
      ensures next == null ==> time == old(time)
      ensures next != null ==> Taken(old(time), next) && Nodes(tree) == procs.Keys - {next}
    {
      if current != null {
        assert procs.Keys - {current} + {current} == procs.Keys;
        Enqueue(current);
      }
      next := TakeNext();
    }
  }

  lemma WrappedSum(t: nat, p: nat)
    ensures Wrap(Wrap(t) + p) == Wrap(t + p)
  {
    assert t + p == (Wrap(t) + p) + 0x1_0000_0000 * (t / 0x1_0000_0000);
  }

  /** The root of an ordered pool has the least true stride of all. */
  lemma LeastFirst(t: Tree, procs: map<Node, Proc>, time: map<Node, nat>, pass: map<Node, nat>)
    requires t.Branch? && Nodes(t) == procs.Keys && Tracks(procs, time, pass) && Ordered(t, Comp(procs))
    ensures Pickable(time, t.node)
    ensures forall y :: y in time ==> time[t.node] <= time[y]
  {
    forall y | y in time ensures time[t.node] <= time[y] {
      CompIsSign(procs, time, pass, t.node, y);
      assert y != t.node ==> NotAfter(Comp(procs), t.node, y);
    }
    PickableIsLeast(time, pass, t.node);
  }
}
