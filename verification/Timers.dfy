/** The kernel's timers: a list in which each timer stores only its distance to the one before. */
module Timers {

  type Id = nat

  datatype Timer = Timer(id: Id, delta: nat)

  /** When a timer is to go off, counted in ticks since the start, and when it was armed, counted in
      timers armed since the start. */
  datatype Due = Due(deadline: nat, stamp: nat)

  ghost predicate Sooner(a: Due, b: Due) {
    a.deadline < b.deadline || (a.deadline == b.deadline && a.stamp < b.stamp)
  }

  /** The time until the first n timers have all gone off. */
  ghost function Sum(list: seq<Timer>, n: nat): nat
    requires n <= |list|
  {
    if n == 0 then 0 else Sum(list, n - 1) + list[n - 1].delta
  }

  lemma {:induction false} SumMonotone(list: seq<Timer>, m: nat, n: nat)
    requires m <= n <= |list|
    ensures Sum(list, m) <= Sum(list, n)
  {
    if m < n { SumMonotone(list, m, n - 1); }
  }

  lemma {:induction false} SumPrefix(a: seq<Timer>, b: seq<Timer>, n: nat)
    requires n <= |a| && n <= |b| && forall i :: 0 <= i < n ==> a[i].delta == b[i].delta
    ensures Sum(a, n) == Sum(b, n)
  {
    if n > 0 { SumPrefix(a, b, n - 1); }
  }

  // ----- the list refines a map of absolute deadlines -----

  ghost predicate FitsAt(list: seq<Timer>, due: map<Id, Due>, clock: nat, serial: nat, i: nat)
    requires i < |list|
  {
    list[i].id in due && due[list[i].id].stamp < serial &&
    due[list[i].id].deadline == clock + Sum(list, i + 1) > clock
  }

  ghost predicate OrderedAt(list: seq<Timer>, due: map<Id, Due>, i: nat, j: nat)
    requires i < |list| && j < |list|
  {
    list[i].id in due && list[j].id in due && Sooner(due[list[i].id], due[list[j].id])
  }

  ghost predicate Listed(list: seq<Timer>, id: Id) { exists i :: 0 <= i < |list| && list[i].id == id }

  ghost predicate Tracks(list: seq<Timer>, due: map<Id, Due>, clock: nat, serial: nat) {
    (forall i :: 0 <= i < |list| ==> FitsAt(list, due, clock, serial, i)) &&
    (forall i, j :: 0 <= i < j < |list| ==> OrderedAt(list, due, i, j)) &&
    (forall id :: id in due ==> Listed(list, id))
  }

  // ----- arming -----

  function Inserted(list: seq<Timer>, p: nat, t: Timer): seq<Timer>
    requires p <= |list| && (p < |list| ==> t.delta <= list[p].delta)
  {
    list[..p] + [t] + if p < |list| then [list[p].(delta := list[p].delta - t.delta)] + list[p + 1..] else []
  }

  /** Only the new timer's own time is added to the list. */
  lemma {:induction false} InsertedSum(list: seq<Timer>, p: nat, t: Timer, n: nat)
    requires p <= |list| && (p < |list| ==> t.delta <= list[p].delta) && n <= |list| + 1
    ensures Sum(Inserted(list, p, t), n) ==
            if n <= p then Sum(list, n) else if n == p + 1 then Sum(list, p) + t.delta else Sum(list, n - 1)
  {
    if n <= p { SumPrefix(Inserted(list, p, t), list, n); } else { InsertedSum(list, p, t, n - 1); }
  }

  lemma InsertedAt(list: seq<Timer>, p: nat, t: Timer, i: nat)
    requires p <= |list| && (p < |list| ==> t.delta <= list[p].delta) && i < |list| + 1
    ensures Inserted(list, p, t)[i].id == if i < p then list[i].id else if i == p then t.id else list[i - 1].id
  {}

  /** The place found by the search makes the new list right. */
  lemma InsertedTracks(list: seq<Timer>, due: map<Id, Due>, clock: nat, serial: nat, p: nat, t: Timer)
    requires Tracks(list, due, clock, serial) && t.id !in due
    requires p <= |list| && (p < |list| ==> t.delta < list[p].delta) && Sum(list, p) + t.delta > 0
    ensures var due' := due[t.id := Due(clock + Sum(list, p) + t.delta, serial)];
            Tracks(Inserted(list, p, t), due', clock, serial + 1)
  {
    var list', due', serial' := Inserted(list, p, t), due[t.id := Due(clock + Sum(list, p) + t.delta, serial)], serial + 1;
    forall i | 0 <= i < |list'| ensures FitsAt(list', due', clock, serial', i) {
      InsertedEntry(list, p, t, i);
      assert i < p ==> FitsAt(list, due, clock, serial, i);
      assert i > p ==> FitsAt(list, due, clock, serial, i - 1);
      EntryFits(list, due, clock, serial, p, t, i, list', due');
    }
    InsertedAllOrdered(list, due, clock, serial, p, t);
    forall id | id in due' ensures Listed(list', id) {
      InsertedLists(list, due, p, t, id);
    }
  }

  lemma InsertedAllOrdered(list: seq<Timer>, due: map<Id, Due>, clock: nat, serial: nat, p: nat, t: Timer)
    requires Tracks(list, due, clock, serial) && t.id !in due
    requires p <= |list| && (p < |list| ==> t.delta < list[p].delta)
    ensures var list', due' := Inserted(list, p, t), due[t.id := Due(clock + Sum(list, p) + t.delta, serial)];
            forall i, j :: 0 <= i < j < |list'| ==> OrderedAt(list', due', i, j)
  {
    var list', due' := Inserted(list, p, t), due[t.id := Due(clock + Sum(list, p) + t.delta, serial)];
    forall i, j | 0 <= i < j < |list'| ensures OrderedAt(list', due', i, j) {
      assert i != p ==> FitsAt(list, due, clock, serial, if i < p then i else i - 1);
      assert j != p ==> FitsAt(list, due, clock, serial, if j < p then j else j - 1);
      assert i != p && j != p ==> OrderedAt(list, due, if i < p then i else i - 1, if j < p then j else j - 1);
      InsertedOrder(list, due, clock, serial, p, t, i, j);
    }
  }

  /** The i-th timer and the time until it goes off. */
  ghost predicate EntryIs(list: seq<Timer>, i: nat, id: Id, sum: nat) {
    i < |list| && list[i].id == id && Sum(list, i + 1) == sum
  }

  lemma InsertedEntry(list: seq<Timer>, p: nat, t: Timer, i: nat)
    requires p <= |list| && (p < |list| ==> t.delta <= list[p].delta) && i < |list| + 1
    ensures i < p ==> EntryIs(Inserted(list, p, t), i, list[i].id, Sum(list, i + 1))
    ensures i == p ==> EntryIs(Inserted(list, p, t), i, t.id, Sum(list, p) + t.delta)
    ensures i > p ==> EntryIs(Inserted(list, p, t), i, list[i - 1].id, Sum(list, i))
  {
    InsertedAt(list, p, t, i);
    InsertedSum(list, p, t, i + 1);
  }

  lemma EntryFits(list: seq<Timer>, due: map<Id, Due>, clock: nat, serial: nat, p: nat, t: Timer, i: nat,
                  list': seq<Timer>, due': map<Id, Due>)
    requires p <= |list| && i <= |list| && Sum(list, p) + t.delta > 0 && t.id !in due
    requires due' == due[t.id := Due(clock + Sum(list, p) + t.delta, serial)]
    requires i < p ==> FitsAt(list, due, clock, serial, i) && EntryIs(list', i, list[i].id, Sum(list, i + 1))
    requires i == p ==> EntryIs(list', i, t.id, Sum(list, p) + t.delta)
    requires i > p ==> FitsAt(list, due, clock, serial, i - 1) && EntryIs(list', i, list[i - 1].id, Sum(list, i))
    ensures FitsAt(list', due', clock, serial + 1, i)
  {}

  lemma InsertedOrder(list: seq<Timer>, due: map<Id, Due>, clock: nat, serial: nat, p: nat, t: Timer, i: nat, j: nat)
    requires t.id !in due && p <= |list| && (p < |list| ==> t.delta < list[p].delta) && i < j < |list| + 1
    requires i != p ==> FitsAt(list, due, clock, serial, if i < p then i else i - 1)
    requires j != p ==> FitsAt(list, due, clock, serial, if j < p then j else j - 1)
    requires i != p && j != p ==> OrderedAt(list, due, if i < p then i else i - 1, if j < p then j else j - 1)
    ensures OrderedAt(Inserted(list, p, t), due[t.id := Due(clock + Sum(list, p) + t.delta, serial)], i, j)
  {
    InsertedAt(list, p, t, i);
    InsertedAt(list, p, t, j);
    var list', due' := Inserted(list, p, t), due[t.id := Due(clock + Sum(list, p) + t.delta, serial)];
    if j == p {
      SumMonotone(list, i + 1, p);
      OrderedBy(list', due', i, j, list[i].id, t.id);
    } else if i == p {
      SumMonotone(list, p + 1, j);
      OrderedBy(list', due', i, j, t.id, list[j - 1].id);
    } else {
      OrderedBy(list', due', i, j, list[if i < p then i else i - 1].id, list[if j < p then j else j - 1].id);
    }
  }

  lemma OrderedBy(list: seq<Timer>, due: map<Id, Due>, i: nat, j: nat, first: Id, second: Id)
    requires i < |list| && j < |list| && list[i].id == first && list[j].id == second
    requires first in due && second in due && Sooner(due[first], due[second])
    ensures OrderedAt(list, due, i, j)
  {}

  lemma InsertedLists(list: seq<Timer>, due: map<Id, Due>, p: nat, t: Timer, id: Id)
    requires p <= |list| && (p < |list| ==> t.delta < list[p].delta)
    requires id == t.id || Listed(list, id)
    ensures Listed(Inserted(list, p, t), id)
  {
    var i := p;
    if id != t.id {
      i :| 0 <= i < |list| && list[i].id == id;
      if i >= p { i := i + 1; }
    }
    InsertedAt(list, p, t, i);
  }

  // ----- disarming -----

  function Place(list: seq<Timer>, id: Id): (i: nat)
    ensures i <= |list| && (i < |list| ==> list[i].id == id)
    ensures i == |list| ==> !Listed(list, id)
  {
    if list == [] then 0
    else if list[0].id == id then 0
    else
      var i := Place(list[1..], id);
      assert forall k :: 0 < k < |list| ==> list[k] == list[1..][k - 1];
      i + 1
  }

  function Deleted(list: seq<Timer>, p: nat): seq<Timer>
    requires p < |list|
  {
    list[..p] + if p + 1 < |list| then [list[p + 1].(delta := list[p + 1].delta + list[p].delta)] + list[p + 2..] else []
  }

  lemma {:induction false} DeletedSum(list: seq<Timer>, p: nat, n: nat)
    requires p < |list| && n < |list|
    ensures Sum(Deleted(list, p), n) == if n <= p then Sum(list, n) else Sum(list, n + 1)
  {
    if n <= p { SumPrefix(Deleted(list, p), list, n); } else { DeletedSum(list, p, n - 1); }
  }

  lemma DeletedAt(list: seq<Timer>, p: nat, i: nat)
    requires p < |list| && i < |list| - 1
    ensures Deleted(list, p)[i].id == list[if i < p then i else i + 1].id
  {}

  lemma DeletedTracks(list: seq<Timer>, due: map<Id, Due>, clock: nat, serial: nat, p: nat)
    requires Tracks(list, due, clock, serial) && p < |list|
    ensures Tracks(Deleted(list, p), due - {list[p].id}, clock, serial)
  {
    var list', due' := Deleted(list, p), due - {list[p].id};
    forall i | 0 <= i < |list'| ensures FitsAt(list', due', clock, serial, i) {
      var k := if i < p then i else i + 1;
      DeletedAt(list, p, i);
      DeletedSum(list, p, i + 1);
      assert FitsAt(list, due, clock, serial, k);
      assert OrderedAt(list, due, if i < p then i else p, if i < p then p else k);
    }
    forall i, j | 0 <= i < j < |list'| ensures OrderedAt(list', due', i, j) {
      DeletedAt(list, p, i);
      DeletedAt(list, p, j);
      assert OrderedAt(list, due, if i < p then i else i + 1, if j < p then j else j + 1);
      assert FitsAt(list', due', clock, serial, i) && FitsAt(list', due', clock, serial, j);
    }
    forall id | id in due' ensures Listed(list', id) {
      assert Listed(list, id);
      var k :| 0 <= k < |list| && list[k].id == id;
      DeletedAt(list, p, if k < p then k else k - 1);
    }
  }

  // ----- a tick -----

  /** The first distance is one shorter, so every timer is one tick closer. */
  function Ticked(list: seq<Timer>): seq<Timer>
    requires list != [] ==> list[0].delta > 0
  {
    if list == [] then [] else [list[0].(delta := list[0].delta - 1)] + list[1..]
  }

  lemma {:induction false} TickedSum(list: seq<Timer>, n: nat)
    requires list != [] ==> list[0].delta > 0
    requires 0 < n <= |list|
    ensures Sum(Ticked(list), n) == Sum(list, n) - 1
  {
    if n > 1 { TickedSum(list, n - 1); }
  }

  /** Dropping timers that have no time left does not change the distances of the others. */
  lemma {:induction false} DroppedSum(list: seq<Timer>, f: nat, n: nat)
    requires f <= |list| && n <= |list| - f
    ensures Sum(list[f..], n) == Sum(list, f + n) - Sum(list, f)
  {
    if n > 0 { DroppedSum(list, f, n - 1); }
  }

  function Ids(list: seq<Timer>): (ids: seq<Id>)
    ensures |ids| == |list| && forall i :: 0 <= i < |list| ==> ids[i] == list[i].id
  {
    seq(|list|, i requires 0 <= i < |list| => list[i].id)
  }

  /** The timers that go off are those whose deadline has come, in the order they were armed. */
  ghost predicate GoOff(fired: seq<Id>, due: map<Id, Due>, clock: nat) {
    (forall id :: id in fired <==> id in due && due[id].deadline == clock) &&
    (forall i, j :: 0 <= i < j < |fired| ==> due[fired[i]].stamp < due[fired[j]].stamp)
  }

  ghost predicate DueSplit(list: seq<Timer>, f: nat) {
    f <= |list| && Sum(list, f) == 0 && (f < |list| ==> list[f].delta > 0)
  }

  lemma SplitAt(list: seq<Timer>, f: nat, i: nat)
    requires DueSplit(list, f) && i < |list|
    ensures i < f <==> Sum(list, i + 1) == 0
  {
    if i < f { SumMonotone(list, i + 1, f); } else { SumMonotone(list, f + 1, i + 1); }
  }

  lemma FiredAt(list: seq<Timer>, due: map<Id, Due>, clock: nat, serial: nat, f: nat, i: nat)
    requires i < |list| && FitsAt(list, due, clock, serial, i)
    requires (list != [] ==> list[0].delta > 0) && DueSplit(Ticked(list), f)
    ensures i < f <==> due[list[i].id].deadline == clock + 1
  {
    TickedSum(list, i + 1);
    SplitAt(Ticked(list), f, i);
  }

  lemma FiredGoOff(list: seq<Timer>, due: map<Id, Due>, clock: nat, serial: nat, f: nat)
    requires Tracks(list, due, clock, serial) && (list != [] ==> list[0].delta > 0) && DueSplit(Ticked(list), f)
    ensures GoOff(Ids(Ticked(list)[..f]), due, clock + 1)
  {
    var fired := Ids(Ticked(list)[..f]);
    assert forall i :: 0 <= i < f ==> fired[i] == list[i].id;
    forall id ensures id in fired <==> id in due && due[id].deadline == clock + 1 {
      if id in fired {
        var i :| 0 <= i < f && list[i].id == id;
        assert FitsAt(list, due, clock, serial, i);
        FiredAt(list, due, clock, serial, f, i);
      } else if id in due {
        assert Listed(list, id);
        var i :| 0 <= i < |list| && list[i].id == id;
        assert FitsAt(list, due, clock, serial, i);
        FiredAt(list, due, clock, serial, f, i);
      }
    }
    forall i, j | 0 <= i < j < f ensures fired[i] in due && fired[j] in due && due[fired[i]].stamp < due[fired[j]].stamp {
      assert OrderedAt(list, due, i, j);
      assert fired[i] in fired && fired[j] in fired;
    }
  }

  lemma FiredTracks(list: seq<Timer>, due: map<Id, Due>, clock: nat, serial: nat, f: nat, due': map<Id, Due>)
    requires Tracks(list, due, clock, serial) && (list != [] ==> list[0].delta > 0) && DueSplit(Ticked(list), f)
    requires forall id :: id in due' <==> id in due && due[id].deadline != clock + 1
    requires forall id :: id in due' ==> due'[id] == due[id]
    ensures Tracks(Ticked(list)[f..], due', clock + 1, serial)
  {
    var rest, later := Ticked(list)[f..], clock + 1;
    forall i | 0 <= i < |rest| ensures FitsAt(rest, due', later, serial, i) {
      assert FitsAt(list, due, clock, serial, f + i);
      TickedSum(list, f + i + 1);
      SplitAt(Ticked(list), f, f + i);
      DroppedSum(Ticked(list), f, i + 1);
    }
    forall i, j | 0 <= i < j < |rest| ensures OrderedAt(rest, due', i, j) {
      assert OrderedAt(list, due, f + i, f + j);
      assert FitsAt(rest, due', later, serial, i) && FitsAt(rest, due', later, serial, j);
    }
    forall id | id in due' ensures Listed(rest, id) {
      assert Listed(list, id);
      var i :| 0 <= i < |list| && list[i].id == id;
      assert FitsAt(list, due, clock, serial, i);
      FiredAt(list, due, clock, serial, f, i);
      assert rest[i - f].id == id;
    }
  }

  // ----- the list object -----

  datatype Event = Armed(id: Id, expires: nat) | Disarmed(id: Id) | Tocked

  ghost predicate Possible(due: map<Id, Due>, e: Event) { e.Armed? ==> e.expires > 0 && e.id !in due }

  /** What the three operations do to the deadlines. */
  datatype World = World(due: map<Id, Due>, clock: nat, serial: nat)

  function Happen(w: World, e: Event): World {
    match e
    case Armed(id, expires) => World(w.due[id := Due(w.clock + expires, w.serial)], w.clock, w.serial + 1)
    case Disarmed(id) => w.(due := w.due - {id})
    case Tocked => World(map id | id in w.due && w.due[id].deadline != w.clock + 1 :: w.due[id], w.clock + 1, w.serial)
  }

  class TimerList {
    var list: seq<Timer>
    ghost var clock: nat
    ghost var serial: nat
    ghost var due: map<Id, Due>

    ghost predicate Valid()
      reads this
    {
      Tracks(list, due, clock, serial)
    }

    ghost function Abstract(): World
      reads this
    {
      World(due, clock, serial)
    }

    constructor ()
      ensures Valid() && Abstract() == World(map[], 0, 0)
    {
      list, clock, serial, due := [], 0, 0, map[];
    }

    /** Between operations the first distance is never zero. */
    lemma HeadPositive()
      requires Valid() && list != []
      ensures list[0].delta > 0
    {
      assert FitsAt(list, due, clock, serial, 0);
      assert Sum(list, 1) == Sum(list, 0) + list[0].delta;
    }

    method Add(id: Id, expires: nat)
      requires Valid() && Possible(due, Armed(id, expires))
      modifies this
      ensures Valid() && Abstract() == Happen(old(Abstract()), Armed(id, expires))
    {
      var p, left := 0, expires;
      while p < |list| && !(left < list[p].delta)
        invariant 0 <= p <= |list| && 0 <= left == expires - Sum(list, p)
      {
        left := left - list[p].delta;
        p := p + 1;
      }
      InsertedTracks(list, due, clock, serial, p, Timer(id, left));
      list, due, serial := Inserted(list, p, Timer(id, left)), due[id := Due(clock + expires, serial)], serial + 1;
    }

    /** Disarming a timer that is not armed does nothing. */
    method Del(id: Id)
      requires Valid()
      modifies this`list, this`due
      ensures Valid() && Abstract() == Happen(old(Abstract()), Disarmed(id))
    {
      var p := Place(list, id);
      if p < |list| {
        DeletedTracks(list, due, clock, serial, p);
        list, due := Deleted(list, p), due - {id};
      } else {
        assert due - {id} == due;
      }
    }

    method Tick() returns (fired: seq<Id>)
      requires Valid()
      modifies this`list, this`due, this`clock
      ensures Valid() && Abstract() == Happen(old(Abstract()), Tocked)
      ensures GoOff(fired, old(due), clock)
    {
      if list == [] {
        assert due == map[] == Happen(Abstract(), Tocked).due;
        clock := clock + 1;
        return [];
      }
      HeadPositive();
      var rest;
      fired, rest := Expire(Ticked(list));
      ghost var later := Happen(Abstract(), Tocked).due;
      TickedRight(list, due, clock, serial, |fired|, later);
      list, due, clock := rest, later, clock + 1;
    }
  }

  /** After a tick the timers that went off are those that are due, and the rest are still tracked. */
  lemma TickedRight(list: seq<Timer>, due: map<Id, Due>, clock: nat, serial: nat, f: nat, later: map<Id, Due>)
    requires Tracks(list, due, clock, serial) && list != [] && list[0].delta > 0 && DueSplit(Ticked(list), f)
    requires later == Happen(World(due, clock, serial), Tocked).due
    ensures GoOff(Ids(Ticked(list)[..f]), due, clock + 1)
    ensures Tracks(Ticked(list)[f..], later, clock + 1, serial)
  {
    FiredGoOff(list, due, clock, serial, f);
    FiredTracks(list, due, clock, serial, f, later);
  }

  /** Takes the timers that have no time left from the front of the list. */
  method Expire(list: seq<Timer>) returns (fired: seq<Id>, rest: seq<Timer>)
    ensures DueSplit(list, |fired|) && fired == Ids(list[..|fired|]) && rest == list[|fired|..]
  {
    fired, rest := [], list;
    while rest != [] && rest[0].delta == 0
      invariant |fired| <= |list| && rest == list[|fired|..] && fired == Ids(list[..|fired|])
      invariant Sum(list, |fired|) == 0
      decreases |rest|
    {
      fired := fired + [rest[0].id];
      rest := rest[1..];
    }
  }

  // ----- whole histories -----

  function HappenAll(w: World, events: seq<Event>): World
    decreases events
  {
    if events == [] then w else HappenAll(Happen(w, events[0]), events[1..])
  }

  ghost predicate PossibleAll(w: World, events: seq<Event>)
    decreases events
  {
    events == [] || (Possible(w.due, events[0]) && PossibleAll(Happen(w, events[0]), events[1..]))
  }

  function Ticks(events: seq<Event>): nat {
    if events == [] then 0 else (if events[0].Tocked? then 1 else 0) + Ticks(events[1..])
  }

  lemma {:induction false} StillDue(w: World, events: seq<Event>, id: Id)
    requires PossibleAll(w, events) && id in w.due && Disarmed(id) !in events
    requires w.clock + Ticks(events) < w.due[id].deadline
    ensures var w' := HappenAll(w, events);
            id in w'.due && w'.due[id] == w.due[id] && w'.clock == w.clock + Ticks(events)
    decreases events
  {
    if events != [] {
      assert events[0] in events;
      assert forall e :: e in events[1..] ==> e in events;
      StillDue(Happen(w, events[0]), events[1..], id);
    }
  }

  /** A timer armed with k goes off on exactly the k-th later tick, unless it is disarmed before:
      whatever else happens in between, it is pending until then and gone after. */
  lemma FiresOnTime(w: World, id: Id, k: nat, between: seq<Event>)
    requires Possible(w.due, Armed(id, k)) && PossibleAll(Happen(w, Armed(id, k)), between)
    requires Disarmed(id) !in between && Ticks(between) < k
    ensures var w' := HappenAll(Happen(w, Armed(id, k)), between);
            id in w'.due && (id !in Happen(w', Tocked).due <==> Ticks(between) == k - 1)
  {
    StillDue(Happen(w, Armed(id, k)), between, id);
  }
}
