/** Process identifiers: the search for an unused one, with a cached interval known to be unused. */
module Pids {
  import opened Options

  const MAX_PROCESS: nat := 4096
  const MAX_PID: nat := 8192

  /** No listed pid lies strictly between the bounds. */
  ghost predicate Clear(list: seq<nat>, above: nat, below: nat) {
    forall i :: 0 <= i < |list| ==> !(above < list[i] < below)
  }

  // ----- there is always an unused pid -----

  lemma {:induction false} CoverNeeds(list: seq<nat>, k: nat)
    requires forall p :: 1 <= p <= k ==> p in list
    ensures |list| >= k
  {
    if k > 0 {
      assert k in list;
      var i :| 0 <= i < |list| && list[i] == k;
      var rest := list[..i] + list[i + 1..];
      forall p | 1 <= p <= k - 1 ensures p in rest {
        assert p in list;
        var j :| 0 <= j < |list| && list[j] == p;
        assert rest[if j < i then j else j - 1] == p;
      }
      CoverNeeds(rest, k - 1);
    }
  }

  lemma SomeUnused(list: seq<nat>) returns (u: nat)
    requires |list| < MAX_PID - 1
    ensures 1 <= u < MAX_PID && u !in list
  {
    if forall p :: 1 <= p <= MAX_PID - 1 ==> p in list {
      CoverNeeds(list, MAX_PID - 1);
      assert false;
    }
    u :| 1 <= u <= MAX_PID - 1 && u !in list;
  }

  /** How far the search has to go from p, round the end if need be, to reach u. */
  function Distance(p: nat, u: nat): int {
    if p <= u then u - p else u + MAX_PID - 1 - p
  }

  /** The pid tried after p. */
  function Next(p: nat): nat { if p + 1 >= MAX_PID then 1 else p + 1 }

  /** Every pid met on the way from one pid to another, that one not included, is in use. */
  ghost predicate UsedBetween(list: seq<nat>, from: nat, to: nat) {
    forall q :: 1 <= q < MAX_PID && Distance(from, q) < Distance(from, to) ==> q in list
  }

  /** The first unused pid from a given one on, round the end. */
  ghost predicate FirstUnused(list: seq<nat>, from: nat, pid: nat) {
    1 <= pid < MAX_PID && pid !in list && UsedBetween(list, from, pid)
  }

  lemma FirstUnusedUnique(list: seq<nat>, from: nat, pid: nat, pid': nat)
    requires 1 <= from < MAX_PID && FirstUnused(list, from, pid) && FirstUnused(list, from, pid')
    ensures pid == pid'
  {
    assert Distance(from, pid) >= Distance(from, pid') && Distance(from, pid') >= Distance(from, pid);
  }

  /** From a pid in use the way goes one on. */
  lemma StepOn(list: seq<nat>, from: nat, p: nat, u: nat)
    requires 1 <= from < MAX_PID && 1 <= p < MAX_PID && 1 <= u < MAX_PID && u != p && p in list
    requires UsedBetween(list, from, p) && Distance(from, p) + Distance(p, u) == Distance(from, u)
    ensures UsedBetween(list, from, Next(p)) && Distance(from, Next(p)) + Distance(Next(p), u) == Distance(from, u)
    ensures Distance(Next(p), u) < Distance(p, u)
  {
    assert Distance(from, Next(p)) == Distance(from, p) + 1;
    forall q | 1 <= q < MAX_PID && Distance(from, q) < Distance(from, Next(p)) ensures q in list {
      assert Distance(from, q) == Distance(from, p) ==> q == p;
    }
  }

  class PidTable {
    var list: seq<nat>        // the pids of the listed processes
    var lastPid: nat
    var nextSafe: nat

    ghost predicate Valid()
      reads this
    {
      1 <= lastPid <= MAX_PID && nextSafe <= MAX_PID && Clear(list, lastPid, nextSafe) &&
      (forall i :: 0 <= i < |list| ==> list[i] < MAX_PID) &&
      forall i, j :: 0 <= i < j < |list| ==> list[i] != list[j]
    }

    constructor ()
      ensures Valid() && list == [] && Next(lastPid) == 1
    {
      list, lastPid, nextSafe := [], MAX_PID, MAX_PID;
    }

    /** Starts over with the whole range as safe, and narrows it while going through the list; a pid
        in use moves the candidate on, and when that leaves the safe range the search starts again. */
    method Search()
      requires 1 <= lastPid < MAX_PID && |list| < MAX_PID - 1
      modifies this`lastPid, this`nextSafe
      ensures 1 <= lastPid < nextSafe <= MAX_PID && Clear(list, lastPid, nextSafe)
      ensures FirstUnused(list, old(lastPid), lastPid)
    {
      ghost var u := SomeUnused(list);
      nextSafe := MAX_PID;
      var i := 0;
      while i < |list|
        invariant 0 <= i <= |list| && 1 <= lastPid < nextSafe <= MAX_PID
        invariant forall k :: 0 <= k < i ==> !(lastPid <= list[k] < nextSafe)
        invariant UsedBetween(list, old(lastPid), lastPid)
        invariant Distance(old(lastPid), lastPid) + Distance(lastPid, u) == Distance(old(lastPid), u)
        decreases Distance(lastPid, u), |list| - i
      {
        if list[i] == lastPid {
          StepOn(list, old(lastPid), lastPid, u);
          lastPid := lastPid + 1;
          if lastPid >= nextSafe {
            if lastPid >= MAX_PID { lastPid := 1; }
            nextSafe := MAX_PID;
            i := 0;
          } else {
            i := i + 1;
          }
        } else {
          if list[i] > lastPid && nextSafe > list[i] { nextSafe := list[i]; }
          i := i + 1;
        }
      }
    }

    method GetPid() returns (pid: nat)
      requires Valid() && |list| < MAX_PID - 1
      modifies this`lastPid, this`nextSafe
      ensures FirstUnused(list, Next(old(lastPid)), pid)
      ensures Valid() && lastPid == pid
    {
      lastPid := lastPid + 1;
      if lastPid >= MAX_PID {
        lastPid := 1;
        Search();
      } else if lastPid >= nextSafe {
        Search();
      }
      pid := lastPid;
    }

    /** A new process gets the first pid after the last one given out that no listed process has; there is none when the table is full. */
    method Fork() returns (pid: Option<nat>)
      requires Valid()
      modifies this
      ensures Valid()
      ensures pid.None? <==> |old(list)| + 1 >= MAX_PROCESS
      ensures pid.None? ==> list == old(list)
      ensures pid.Some? ==> FirstUnused(old(list), Next(old(lastPid)), pid.value) && list == [pid.value] + old(list)
      ensures lastPid == if pid.Some? then pid.value else old(lastPid)
    {
      if |list| + 1 >= MAX_PROCESS { return None; }
      var p := GetPid();
      list := [p] + list;
      return Some(p);
    }

    /** A process that is reaped gives its pid back. */
    method Reap(i: nat)
      requires Valid() && i < |list|
      modifies this`list
      ensures Valid() && list == old(list)[..i] + old(list)[i + 1..]
    {
      list := list[..i] + list[i + 1..];
    }
  }
}
