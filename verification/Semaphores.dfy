/** Semaphores that hand a released unit straight to the process that has waited longest. */
module Semaphores {
  import opened Options

  type Pid = nat

  datatype Sema = Sema(value: nat, queue: seq<Pid>)

  /** A positive value and a waiting process never coexist. */
  predicate Sound(s: Sema) { s.value > 0 ==> s.queue == [] }

  function Up(s: Sema): Sema {
    if s.queue == [] then s.(value := s.value + 1) else s.(queue := s.queue[1..])
  }

  function Down(s: Sema, p: Pid): Sema {
    if s.value > 0 then s.(value := s.value - 1) else s.(queue := s.queue + [p])
  }

  // ----- the kernel's semaphore object -----

  class Semaphore {
    var value: nat
    var queue: seq<Pid>

    function Abstract(): Sema
      reads this
    {
      Sema(value, queue)
    }

    constructor (initial: nat)
      ensures Abstract() == Sema(initial, [])
    {
      value, queue := initial, [];
    }

    /** Wakes the longest waiting process, if there is one. */
    method Release() returns (woken: Option<Pid>)
      modifies this
      ensures Abstract() == Up(old(Abstract()))
      ensures woken == if old(queue) == [] then None else Some(old(queue)[0])
      ensures old(Sound(Abstract())) ==> Sound(Abstract())
    {
      if queue == [] {
        value := value + 1;
        woken := None;
      } else {
        woken := Some(queue[0]);
        queue := queue[1..];
      }
    }

    /** Takes a unit, or puts the process to sleep at the end of the queue. */
    method Acquire(p: Pid) returns (sleeps: bool)
      modifies this
      ensures Abstract() == Down(old(Abstract()), p)
      ensures sleeps <==> old(value) == 0
      ensures old(Sound(Abstract())) ==> Sound(Abstract())
    {
      if value > 0 {
        value := value - 1;
        sleeps := false;
      } else {
        queue := queue + [p];
        sleeps := true;
      }
    }

    method TryAcquire() returns (got: bool)
      modifies this
      ensures got <==> old(value) > 0
      ensures queue == old(queue) && value == old(value) - if got then 1 else 0
    {
      got := value > 0;
      if got { value := value - 1; }
    }
  }

  // ----- whole histories -----

  datatype Event = Upped | Downed(p: Pid)

  datatype History = History(sema: Sema, granted: seq<Pid>)

  /** A down is granted at once or when a later up wakes it. */
  function Happen(h: History, e: Event): History {
    match e
    case Upped => History(Up(h.sema), if h.sema.queue == [] then h.granted else h.granted + [h.sema.queue[0]])
    case Downed(p) => History(Down(h.sema, p), if h.sema.value > 0 then h.granted + [p] else h.granted)
  }

  function HistoryOf(initial: nat, events: seq<Event>): History {
    if events == [] then History(Sema(initial, []), [])
    else Happen(HistoryOf(initial, events[..|events| - 1]), events[|events| - 1])
  }

  function Arrivals(events: seq<Event>): seq<Pid> {
    if events == [] then []
    else
      var rest := Arrivals(events[..|events| - 1]);
      match events[|events| - 1]
      case Upped => rest
      case Downed(p) => rest + [p]
  }

  function Ups(events: seq<Event>): nat {
    if events == [] then 0
    else Ups(events[..|events| - 1]) + if events[|events| - 1].Upped? then 1 else 0
  }

  /** Over every history the units go to the requests in order of arrival, as many as there are
      units; the others wait in that order, and only a surplus of units is stored. */
  lemma {:induction false} ServedInOrder(initial: nat, events: seq<Event>)
    ensures var h := HistoryOf(initial, events);
            var units := initial + Ups(events);
            var asked := Arrivals(events);
            var served := if units < |asked| then units else |asked|;
            h.granted == asked[..served] && h.sema.queue == asked[served..] && h.sema.value == units - served &&
            Sound(h.sema)
  {
    if events != [] {
      ServedInOrder(initial, events[..|events| - 1]);
    }
  }
}
