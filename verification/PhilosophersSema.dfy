/** Dining philosophers on semaphores alone: one for the table, and one for each philosopher to wait
    for the forks on. Every step interleaves arbitrarily with the steps of the others. */
module PhilosophersSema {
  import opened Options
  import opened Semaphores
  import opened Sums
  import P = Philosophers

  type Phase = P.Phase
  type Site = P.Site

  /** The place in the philosopher's code where the next step is taken. */
  datatype Pc =
    | Think                 // take forks: down(mutex)
    | TakeBlocked           // asleep on, or handed, mutex
    | TakeHungry            // state := HUNGRY
    | Test(site: Site)      // may the target eat?
    | Wake(site: Site)      // up(s[target])
    | TakeLeave             // up(mutex)
    | Grab                  // down(s[i])
    | GrabWait              // asleep on, or handed, s[i]
    | Eat                   // outside; put forks: down(mutex)
    | PutBlocked            // asleep on, or handed, mutex
    | PutThink              // state := THINKING
    | PutLeave              // up(mutex)
    | Done

  datatype Phil = Phil(phase: Phase, pc: Pc, rounds: nat, forks: Sema)

  datatype State = State(ph: seq<Phil>, mutex: Sema)

  predicate Shaped(s: State, n: nat) { n >= 2 && |s.ph| == n }

  function After(site: Site): Pc {
    match site
    case Self => TakeLeave
    case ToLeft => Test(P.ToRight)
    case ToRight => PutLeave
  }

  function Initial(n: nat, rounds: nat): State {
    State(seq(n, _ => Phil(P.Thinking, if rounds == 0 then Done else Think, rounds, Sema(0, []))), Sema(1, []))
  }

  // ----- steps -----

  /** A philosopher cannot step while asleep in a queue, or after the last round. */
  predicate Awake(p: Phil, i: nat, mutex: Sema) {
    !p.pc.Done? && !((p.pc.TakeBlocked? || p.pc.PutBlocked?) && i in mutex.queue) && !(p.pc.GrabWait? && i in p.forks.queue)
  }

  predicate Enabled(s: State, i: nat)
    requires i < |s.ph|
  {
    Awake(s.ph[i], i, s.mutex)
  }

  function Set(s: State, i: nat, p: Phil): State
    requires i < |s.ph|
  {
    s.(ph := s.ph[i := p])
  }

  function Goto(s: State, i: nat, pc: Pc): State
    requires i < |s.ph|
  {
    Set(s, i, s.ph[i].(pc := pc))
  }

  predicate CanEat(s: State, n: nat, t: nat)
    requires Shaped(s, n) && t < n
  {
    s.ph[t].phase == P.Hungry && s.ph[P.Left(t, n)].phase != P.Eating && s.ph[P.Right(t, n)].phase != P.Eating
  }

  function Step(s: State, n: nat, i: nat): (s': State)
    requires Shaped(s, n) && i < n
    ensures Shaped(s', n)
  {
    var p := s.ph[i];
    match p.pc
    case Think => Goto(s.(mutex := Down(s.mutex, i)), i, if s.mutex.value > 0 then TakeHungry else TakeBlocked)
    case TakeBlocked => Goto(s, i, TakeHungry)
    case TakeHungry => Set(s, i, p.(phase := P.Hungry, pc := Test(P.Self)))
    case Test(site) =>
      var t := P.Target(i, site, n);
      if CanEat(s, n, t) then Goto(Set(s, t, s.ph[t].(phase := P.Eating)), i, Wake(site)) else Goto(s, i, After(site))
    case Wake(site) =>
      var t := P.Target(i, site, n);
      Goto(Set(s, t, s.ph[t].(forks := Up(s.ph[t].forks))), i, After(site))
    case TakeLeave => Goto(s.(mutex := Up(s.mutex)), i, Grab)
    case Grab => Set(s, i, p.(forks := Down(p.forks, i), pc := if p.forks.value > 0 then Eat else GrabWait))
    case GrabWait => Goto(s, i, Eat)
    case Eat => Goto(s.(mutex := Down(s.mutex, i)), i, if s.mutex.value > 0 then PutThink else PutBlocked)
    case PutBlocked => Goto(s, i, PutThink)
    case PutThink => Set(s, i, p.(phase := P.Thinking, pc := Test(P.ToLeft)))
    case PutLeave =>
      var left := if p.rounds > 0 then p.rounds - 1 else 0;
      Set(s.(mutex := Up(s.mutex)), i, p.(rounds := left, pc := if left == 0 then Done else Think))
    case Done => s
  }

  // ----- the invariant -----

  /** Who is in the critical section: nobody, or one philosopher, perhaps not yet running there. */
  predicate Inside(p: Phil, i: nat, mutex: Sema) {
    !p.pc.Think? && !p.pc.Grab? && !p.pc.GrabWait? && !p.pc.Eat? && Awake(p, i, mutex)
  }

  /** The philosopher in the critical section is about to wake i. */
  predicate Pending(s: State, n: nat, tok: Option<nat>, i: nat)
    requires Shaped(s, n)
  {
    tok.Some? && tok.value < n && s.ph[tok.value].pc.Wake? && P.Target(tok.value, s.ph[tok.value].pc.site, n) == i
  }

  /** Waiting, or about to wait, for the forks. */
  predicate Waiting(p: Phil, i: nat) { p.pc.TakeLeave? || p.pc.Grab? || (p.pc.GrabWait? && p.forks.queue == [i]) }

  ghost predicate Own(s: State, n: nat, tok: Option<nat>, i: nat)
    requires Shaped(s, n) && i < n
  {
    var p := s.ph[i];
    (Inside(p, i, s.mutex) <==> tok == Some(i)) &&
    Sound(p.forks) && p.forks.value <= 1 && (p.forks.queue == [] || (p.forks.queue == [i] && p.pc.GrabWait?)) &&
    (p.pc.Done? <==> p.rounds == 0) &&
    (if Waiting(p, i) then
       p.phase != P.Thinking && (p.phase == P.Eating <==> p.forks.value == 1 || Pending(s, n, tok, i)) &&
       !(p.forks.value == 1 && Pending(s, n, tok, i))
     else
       p.forks.value == 0 && (Pending(s, n, tok, i) ==> p.pc == Wake(P.Self)) &&
       p.phase == match p.pc
                  case Test(site) => if site == P.Self then P.Hungry else P.Thinking
                  case Wake(site) => if site == P.Self then P.Eating else P.Thinking
                  case GrabWait => P.Eating
                  case Eat => P.Eating
                  case PutBlocked => P.Eating
                  case PutThink => P.Eating
                  case _ => P.Thinking)
  }

  predicate NeighbourEats(s: State, n: nat, i: nat)
    requires Shaped(s, n) && i < n
  {
    s.ph[P.Left(i, n)].phase == P.Eating || s.ph[P.Right(i, n)].phase == P.Eating
  }

  /** The philosopher in the critical section has put its forks down and has still to look at i. */
  predicate Overlooked(s: State, n: nat, tok: Option<nat>, i: nat)
    requires Shaped(s, n)
  {
    tok.Some? && tok.value < n &&
    var j, pc := tok.value, s.ph[tok.value].pc;
    (pc == Test(P.ToLeft) && i == P.Left(j, n)) ||
    ((pc == Test(P.ToLeft) || pc == Test(P.ToRight) || pc == Wake(P.ToLeft)) && i == P.Right(j, n))
  }

  predicate Apart(s: State, n: nat, i: nat)
    requires Shaped(s, n) && i < n
  {
    !(s.ph[i].phase == P.Eating && s.ph[P.Right(i, n)].phase == P.Eating)
  }

  predicate HungerFits(s: State, n: nat, tok: Option<nat>, i: nat)
    requires Shaped(s, n) && i < n
  {
    s.ph[i].phase == P.Hungry && s.ph[i].pc != Test(P.Self) ==> NeighbourEats(s, n, i) || Overlooked(s, n, tok, i)
  }

  ghost predicate Ok(s: State, n: nat, tok: Option<nat>, i: nat)
    requires Shaped(s, n) && i < n
  {
    Own(s, n, tok, i) && Apart(s, n, i) && HungerFits(s, n, tok, i)
  }

  /** The queue of mutex holds only philosophers asleep in it, each once. */
  ghost predicate QueueFits(s: State) {
    (forall k :: 0 <= k < |s.mutex.queue| ==>
       s.mutex.queue[k] < |s.ph| &&
       (s.ph[s.mutex.queue[k]].pc.TakeBlocked? || s.ph[s.mutex.queue[k]].pc.PutBlocked?)) &&
    (forall j, k :: 0 <= j < k < |s.mutex.queue| ==> s.mutex.queue[j] != s.mutex.queue[k])
  }

  ghost predicate Globals(s: State, tok: Option<nat>) {
    Sound(s.mutex) && s.mutex.value == (if tok == None then 1 else 0) && (tok.Some? ==> tok.value < |s.ph|) && QueueFits(s)
  }

  ghost predicate Inv(s: State, n: nat, tok: Option<nat>) {
    Shaped(s, n) && Globals(s, tok) && forall i {:trigger Ok(s, n, tok, i)} :: 0 <= i < n ==> Ok(s, n, tok, i)
  }

  // ----- every step keeps the invariant -----

  /** Who is in the critical section after a step. */
  function NextToken(s: State, n: nat, i: nat, tok: Option<nat>): Option<nat>
    requires Shaped(s, n) && i < n
  {
    match s.ph[i].pc
    case Think => if s.mutex.value > 0 then Some(i) else tok
    case Eat => if s.mutex.value > 0 then Some(i) else tok
    case TakeLeave => if s.mutex.queue == [] then None else Some(s.mutex.queue[0])
    case PutLeave => if s.mutex.queue == [] then None else Some(s.mutex.queue[0])
    case _ => tok
  }

  lemma ThinkStep(s: State, n: nat, i: nat, tok: Option<nat>)
    requires Inv(s, n, tok) && i < n && s.ph[i].pc.Think? && Enabled(s, i)
    ensures Inv(Step(s, n, i), n, NextToken(s, n, i, tok))
  {
    assert Ok(s, n, tok, i);
    var s', tok' := Step(s, n, i), NextToken(s, n, i, tok);
    forall j | 0 <= j < n ensures Ok(s', n, tok', j) {
      assert Ok(s, n, tok, j);
    }
  }

  lemma TakeBlockedStep(s: State, n: nat, i: nat, tok: Option<nat>)
    requires Inv(s, n, tok) && i < n && s.ph[i].pc.TakeBlocked? && Enabled(s, i)
    ensures Inv(Step(s, n, i), n, NextToken(s, n, i, tok))
  {
    assert Ok(s, n, tok, i);
    var s', tok' := Step(s, n, i), NextToken(s, n, i, tok);
    forall j | 0 <= j < n ensures Ok(s', n, tok', j) {
      assert Ok(s, n, tok, j);
    }
  }

  lemma TakeHungryStep(s: State, n: nat, i: nat, tok: Option<nat>)
    requires Inv(s, n, tok) && i < n && s.ph[i].pc.TakeHungry? && Enabled(s, i)
    ensures Inv(Step(s, n, i), n, NextToken(s, n, i, tok))
  {
    assert Ok(s, n, tok, i);
    var s', tok' := Step(s, n, i), NextToken(s, n, i, tok);
    forall j | 0 <= j < n ensures Ok(s', n, tok', j) {
      assert Ok(s, n, tok, j);
    }
  }

  lemma TestOwn(s: State, n: nat, i: nat, tok: Option<nat>, j: nat)
    requires Inv(s, n, tok) && i < n && s.ph[i].pc.Test? && Enabled(s, i) && j < n
    ensures Own(Step(s, n, i), n, tok, j)
  {
    assert Ok(s, n, tok, i) && Ok(s, n, tok, P.Target(i, s.ph[i].pc.site, n)) && Ok(s, n, tok, j);
  }

  lemma TestApart(s: State, n: nat, i: nat, tok: Option<nat>, j: nat)
    requires Inv(s, n, tok) && i < n && s.ph[i].pc.Test? && Enabled(s, i) && j < n
    ensures Apart(Step(s, n, i), n, j)
  {
    assert Ok(s, n, tok, j);
  }

  lemma TestHunger(s: State, n: nat, i: nat, tok: Option<nat>, j: nat)
    requires Inv(s, n, tok) && i < n && s.ph[i].pc.Test? && Enabled(s, i) && j < n
    ensures HungerFits(Step(s, n, i), n, tok, j)
  {
    assert Ok(s, n, tok, i) && Ok(s, n, tok, j);
    var t := P.Target(i, s.ph[i].pc.site, n);
    if CanEat(s, n, t) { TestHungerEats(s, n, i, tok, j, t); } else { TestHungerWaits(s, n, i, tok, j, t); }
  }

  /** When the target begins to eat, whoever is hungry keeps its reason to be. */
  lemma TestHungerEats(s: State, n: nat, i: nat, tok: Option<nat>, j: nat, t: nat)
    requires Shaped(s, n) && i < n && j < n && s.ph[i].pc.Test? && t == P.Target(i, s.ph[i].pc.site, n) && CanEat(s, n, t)
    requires tok == Some(i) && HungerFits(s, n, tok, j)
    ensures HungerFits(Step(s, n, i), n, tok, j)
  {}

  /** When it does not, it is not hungry or has an eating neighbour. */
  lemma TestHungerWaits(s: State, n: nat, i: nat, tok: Option<nat>, j: nat, t: nat)
    requires Shaped(s, n) && i < n && j < n && s.ph[i].pc.Test? && t == P.Target(i, s.ph[i].pc.site, n) && !CanEat(s, n, t)
    requires tok == Some(i) && HungerFits(s, n, tok, j)
    ensures HungerFits(Step(s, n, i), n, tok, j)
  {}

  lemma TestStep(s: State, n: nat, i: nat, tok: Option<nat>)
    requires Inv(s, n, tok) && i < n && s.ph[i].pc.Test? && Enabled(s, i)
    ensures Inv(Step(s, n, i), n, NextToken(s, n, i, tok))
  {
    assert Ok(s, n, tok, i);
    var s' := Step(s, n, i);
    forall j | 0 <= j < n ensures Ok(s', n, tok, j) {
      TestOwn(s, n, i, tok, j);
      TestApart(s, n, i, tok, j);
      TestHunger(s, n, i, tok, j);
    }
  }

  lemma WakeStep(s: State, n: nat, i: nat, tok: Option<nat>)
    requires Inv(s, n, tok) && i < n && s.ph[i].pc.Wake? && Enabled(s, i)
    ensures Inv(Step(s, n, i), n, NextToken(s, n, i, tok))
  {
    assert Ok(s, n, tok, i);
    assert Ok(s, n, tok, P.Target(i, s.ph[i].pc.site, n));
    var s', tok' := Step(s, n, i), NextToken(s, n, i, tok);
    forall j | 0 <= j < n ensures Ok(s', n, tok', j) {
      assert Ok(s, n, tok, j);
    }
  }

  lemma TakeLeaveStep(s: State, n: nat, i: nat, tok: Option<nat>)
    requires Inv(s, n, tok) && i < n && s.ph[i].pc.TakeLeave? && Enabled(s, i)
    ensures Inv(Step(s, n, i), n, NextToken(s, n, i, tok))
  {
    assert Ok(s, n, tok, i);
    assert s.mutex.queue != [] ==> s.mutex.queue[0] < n;
    var s', tok' := Step(s, n, i), NextToken(s, n, i, tok);
    forall j | 0 <= j < n ensures Ok(s', n, tok', j) {
      assert Ok(s, n, tok, j);
    }
  }

  lemma GrabStep(s: State, n: nat, i: nat, tok: Option<nat>)
    requires Inv(s, n, tok) && i < n && s.ph[i].pc.Grab? && Enabled(s, i)
    ensures Inv(Step(s, n, i), n, NextToken(s, n, i, tok))
  {
    assert Ok(s, n, tok, i);
    var s', tok' := Step(s, n, i), NextToken(s, n, i, tok);
    forall j | 0 <= j < n ensures Ok(s', n, tok', j) {
      assert Ok(s, n, tok, j);
    }
  }

  lemma GrabWaitStep(s: State, n: nat, i: nat, tok: Option<nat>)
    requires Inv(s, n, tok) && i < n && s.ph[i].pc.GrabWait? && Enabled(s, i)
    ensures Inv(Step(s, n, i), n, NextToken(s, n, i, tok))
  {
    assert Ok(s, n, tok, i);
    var s', tok' := Step(s, n, i), NextToken(s, n, i, tok);
    forall j | 0 <= j < n ensures Ok(s', n, tok', j) {
      assert Ok(s, n, tok, j);
    }
  }

  lemma EatStep(s: State, n: nat, i: nat, tok: Option<nat>)
    requires Inv(s, n, tok) && i < n && s.ph[i].pc.Eat? && Enabled(s, i)
    ensures Inv(Step(s, n, i), n, NextToken(s, n, i, tok))
  {
    assert Ok(s, n, tok, i);
    var s', tok' := Step(s, n, i), NextToken(s, n, i, tok);
    forall j | 0 <= j < n ensures Ok(s', n, tok', j) {
      assert Ok(s, n, tok, j);
    }
  }

  lemma PutBlockedStep(s: State, n: nat, i: nat, tok: Option<nat>)
    requires Inv(s, n, tok) && i < n && s.ph[i].pc.PutBlocked? && Enabled(s, i)
    ensures Inv(Step(s, n, i), n, NextToken(s, n, i, tok))
  {
    assert Ok(s, n, tok, i);
    var s', tok' := Step(s, n, i), NextToken(s, n, i, tok);
    forall j | 0 <= j < n ensures Ok(s', n, tok', j) {
      assert Ok(s, n, tok, j);
    }
  }

  lemma PutThinkStep(s: State, n: nat, i: nat, tok: Option<nat>)
    requires Inv(s, n, tok) && i < n && s.ph[i].pc.PutThink? && Enabled(s, i)
    ensures Inv(Step(s, n, i), n, NextToken(s, n, i, tok))
  {
    assert Ok(s, n, tok, i);
    var s', tok' := Step(s, n, i), NextToken(s, n, i, tok);
    forall j | 0 <= j < n ensures Ok(s', n, tok', j) {
      assert Ok(s, n, tok, j);
    }
  }

  lemma PutLeaveStep(s: State, n: nat, i: nat, tok: Option<nat>)
    requires Inv(s, n, tok) && i < n && s.ph[i].pc.PutLeave? && Enabled(s, i)
    ensures Inv(Step(s, n, i), n, NextToken(s, n, i, tok))
  {
    assert Ok(s, n, tok, i);
    assert s.mutex.queue != [] ==> s.mutex.queue[0] < n;
    var s', tok' := Step(s, n, i), NextToken(s, n, i, tok);
    forall j | 0 <= j < n ensures Ok(s', n, tok', j) {
      assert Ok(s, n, tok, j);
    }
  }

  // ----- all interleavings -----

  lemma InitialInv(n: nat, rounds: nat)
    requires n >= 2
    ensures Inv(Initial(n, rounds), n, None)
  {}

  lemma StepInv(s: State, n: nat, i: nat, tok: Option<nat>)
    requires Inv(s, n, tok) && i < n && Enabled(s, i)
    ensures Inv(Step(s, n, i), n, NextToken(s, n, i, tok))
  {
    match s.ph[i].pc
    case Think => ThinkStep(s, n, i, tok);
    case TakeBlocked => TakeBlockedStep(s, n, i, tok);
    case TakeHungry => TakeHungryStep(s, n, i, tok);
    case Test(_) => TestStep(s, n, i, tok);
    case Wake(_) => WakeStep(s, n, i, tok);
    case TakeLeave => TakeLeaveStep(s, n, i, tok);
    case Grab => GrabStep(s, n, i, tok);
    case GrabWait => GrabWaitStep(s, n, i, tok);
    case Eat => EatStep(s, n, i, tok);
    case PutBlocked => PutBlockedStep(s, n, i, tok);
    case PutThink => PutThinkStep(s, n, i, tok);
    case PutLeave => PutLeaveStep(s, n, i, tok);
    case Done =>
  }

  /** A schedule names the philosopher that takes each step; only enabled ones may. */
  predicate Runs(s: State, n: nat, schedule: seq<nat>)
    requires Shaped(s, n)
    decreases schedule
  {
    schedule == [] ||
    (schedule[0] < n && Enabled(s, schedule[0]) && Runs(Step(s, n, schedule[0]), n, schedule[1..]))
  }

  function Run(s: State, n: nat, schedule: seq<nat>): (s': State)
    requires Shaped(s, n) && Runs(s, n, schedule)
    ensures Shaped(s', n)
    decreases schedule
  {
    if schedule == [] then s else Run(Step(s, n, schedule[0]), n, schedule[1..])
  }

  lemma {:induction false} RunInv(s: State, n: nat, schedule: seq<nat>, tok: Option<nat>) returns (tok': Option<nat>)
    requires Inv(s, n, tok) && Runs(s, n, schedule)
    ensures Inv(Run(s, n, schedule), n, tok')
    decreases schedule
  {
    tok' := tok;
    if schedule != [] {
      StepInv(s, n, schedule[0], tok);
      tok' := RunInv(Step(s, n, schedule[0]), n, schedule[1..], NextToken(s, n, schedule[0], tok));
    }
  }

  /** A philosopher that has returned from taking the forks and not yet put them down. */
  predicate PastTaking(pc: Pc) { pc.Eat? || pc.PutBlocked? || pc.PutThink? }

  /** At most one philosopher is in the critical section, and it is free otherwise; no two neighbours
      eat; whoever has taken forks eats; and while the section is free a hungry philosopher has an
      eating neighbour. */
  ghost predicate Safe(s: State, n: nat)
    requires Shaped(s, n)
  {
    (forall i, j :: 0 <= i < n && 0 <= j < n && Inside(s.ph[i], i, s.mutex) && Inside(s.ph[j], j, s.mutex) ==> i == j) &&
    (s.mutex.value > 0 <==> forall i :: 0 <= i < n ==> !Inside(s.ph[i], i, s.mutex)) &&
    (forall i :: 0 <= i < n && s.ph[i].phase == P.Eating ==> s.ph[P.Right(i, n)].phase != P.Eating) &&
    (forall i :: 0 <= i < n && PastTaking(s.ph[i].pc) ==> s.ph[i].phase == P.Eating) &&
    (s.mutex.value > 0 ==> forall i :: 0 <= i < n && s.ph[i].phase == P.Hungry ==> NeighbourEats(s, n, i))
  }

  lemma InvSafe(s: State, n: nat, tok: Option<nat>)
    requires Inv(s, n, tok)
    ensures Safe(s, n)
  {
    forall i | 0 <= i < n
      ensures Inside(s.ph[i], i, s.mutex) <==> tok == Some(i)
      ensures s.ph[i].phase == P.Eating ==> s.ph[P.Right(i, n)].phase != P.Eating
      ensures PastTaking(s.ph[i].pc) ==> s.ph[i].phase == P.Eating
      ensures s.mutex.value > 0 && s.ph[i].phase == P.Hungry ==> NeighbourEats(s, n, i)
    {
      assert Ok(s, n, tok, i);
    }
    if tok.Some? { assert Inside(s.ph[tok.value], tok.value, s.mutex); }
  }

  lemma SafeAlways(n: nat, rounds: nat, schedule: seq<nat>)
    requires n >= 2 && Runs(Initial(n, rounds), n, schedule)
    ensures Safe(Run(Initial(n, rounds), n, schedule), n)
  {
    InitialInv(n, rounds);
    var tok := RunInv(Initial(n, rounds), n, schedule, None);
    InvSafe(Run(Initial(n, rounds), n, schedule), n, tok);
  }

  // ----- nobody is stuck -----

  predicate AllDone(s: State) { forall i :: 0 <= i < |s.ph| ==> s.ph[i].pc.Done? }

  lemma SomebodyCanStep(s: State, n: nat, tok: Option<nat>) returns (i: nat)
    requires Inv(s, n, tok) && !AllDone(s)
    ensures i < n && Enabled(s, i)
  {
    if tok.Some? {
      i := tok.value;
      assert Ok(s, n, tok, i);
    } else {
      i :| 0 <= i < n && !s.ph[i].pc.Done?;
      assert Ok(s, n, tok, i);
      if !Enabled(s, i) { i := FreeCanStep(s, n, i); }
    }
  }

  /** With the critical section free, a sleeper waits for a neighbour that is outside, eating. */
  lemma FreeCanStep(s: State, n: nat, i: nat) returns (j: nat)
    requires Inv(s, n, None) && i < n && !s.ph[i].pc.Done? && !Enabled(s, i)
    ensures j < n && Enabled(s, j)
  {
    assert Ok(s, n, None, i);
    j := if s.ph[P.Left(i, n)].phase == P.Eating then P.Left(i, n) else P.Right(i, n);
    assert Ok(s, n, None, j);
  }

  lemma NeverStuck(n: nat, rounds: nat, schedule: seq<nat>) returns (i: nat)
    requires n >= 2 && Runs(Initial(n, rounds), n, schedule)
    requires !AllDone(Run(Initial(n, rounds), n, schedule))
    ensures i < n && Enabled(Run(Initial(n, rounds), n, schedule), i)
  {
    InitialInv(n, rounds);
    var tok := RunInv(Initial(n, rounds), n, schedule, None);
    i := SomebodyCanStep(Run(Initial(n, rounds), n, schedule), n, tok);
  }

  // ----- every run ends, with everybody fed -----

  /** Steps at most left in the current round. */
  function Ahead(pc: Pc): nat {
    match pc
    case Think => 16
    case TakeBlocked => 15
    case TakeHungry => 14
    case Test(site) => Base(site) + 2
    case Wake(site) => Base(site) + 1
    case TakeLeave => 11
    case Grab => 10
    case GrabWait => 9
    case Eat => 8
    case PutBlocked => 7
    case PutThink => 6
    case PutLeave => 1
    case Done => 0
  }

  function Base(site: Site): nat { if site == P.Self then 11 else if site == P.ToLeft then 3 else 1 }

  function Work(p: Phil): nat { 17 * p.rounds + Ahead(p.pc) }

  function Works(ph: seq<Phil>): (w: seq<nat>)
    ensures |w| == |ph|
  {
    seq(|ph|, k requires 0 <= k < |ph| => Work(ph[k]))
  }

  lemma StepUsesOwnWork(s: State, n: nat, i: nat)
    requires Shaped(s, n) && i < n && !s.ph[i].pc.Done? && s.ph[i].rounds > 0
    ensures Work(Step(s, n, i).ph[i]) < Work(s.ph[i])
  {}

  lemma StepKeepsOthersWork(s: State, n: nat, i: nat)
    requires Shaped(s, n) && i < n
    ensures forall j :: 0 <= j < n && j != i ==> Work(Step(s, n, i).ph[j]) == Work(s.ph[j])
  {
    forall j | 0 <= j < n && j != i
      ensures Step(s, n, i).ph[j].pc == s.ph[j].pc && Step(s, n, i).ph[j].rounds == s.ph[j].rounds
    {}
  }

  lemma StepUsesWork(s: State, n: nat, i: nat)
    requires Shaped(s, n) && i < n && !s.ph[i].pc.Done? && s.ph[i].rounds > 0
    ensures Sum(Works(Step(s, n, i).ph)) < Sum(Works(s.ph))
  {
    StepUsesOwnWork(s, n, i);
    StepKeepsOthersWork(s, n, i);
    SumDrops(Works(s.ph), Works(Step(s, n, i).ph), i);
  }

  lemma {:induction false} RunUsesWork(s: State, n: nat, schedule: seq<nat>, tok: Option<nat>)
    requires Inv(s, n, tok) && Runs(s, n, schedule)
    ensures |schedule| + Sum(Works(Run(s, n, schedule).ph)) <= Sum(Works(s.ph))
    decreases schedule
  {
    if schedule != [] {
      var i := schedule[0];
      assert Ok(s, n, tok, i);
      StepUsesWork(s, n, i);
      StepInv(s, n, i, tok);
      RunUsesWork(Step(s, n, i), n, schedule[1..], NextToken(s, n, i, tok));
    }
  }

  /** No schedule is longer than a fixed bound. */
  lemma EveryRunEnds(n: nat, rounds: nat, schedule: seq<nat>)
    requires n >= 2 && Runs(Initial(n, rounds), n, schedule)
    ensures |schedule| <= n * (17 * rounds + 16)
  {
    InitialInv(n, rounds);
    RunUsesWork(Initial(n, rounds), n, schedule, None);
    SumAtMost(Works(Initial(n, rounds).ph), 17 * rounds + 16);
  }

  // ----- how often everybody eats -----

  /** How often philosopher i comes back from taking the forks during a run. */
  function Meals(s: State, n: nat, schedule: seq<nat>, i: nat): nat
    requires Shaped(s, n) && Runs(s, n, schedule) && i < n
    decreases schedule
  {
    if schedule == [] then 0 else
      var s' := Step(s, n, schedule[0]);
      (if !s.ph[i].pc.Eat? && s'.ph[i].pc.Eat? then 1 else 0) + Meals(s', n, schedule[1..], i)
  }

  /** The meals still to come: the rounds left, without the present one once its meal has begun. */
  function Owed(p: Phil): nat {
    if p.rounds > 0 && Ahead(p.pc) <= Ahead(Eat) then p.rounds - 1 else p.rounds
  }

  ghost predicate Served(p: Phil, p': Phil) {
    Owed(p) == Owed(p') + if !p.pc.Eat? && p'.pc.Eat? then 1 else 0
  }

  lemma StepServesOther(s: State, n: nat, k: nat, i: nat)
    requires Shaped(s, n) && k < n && i < n && i != k
    ensures Served(s.ph[i], Step(s, n, k).ph[i])
  {
    assert Step(s, n, k).ph[i].pc == s.ph[i].pc && Step(s, n, k).ph[i].rounds == s.ph[i].rounds;
  }

  lemma StepServesOwn(s: State, n: nat, i: nat)
    requires Shaped(s, n) && i < n && !s.ph[i].pc.Done? && s.ph[i].rounds > 0
    ensures Served(s.ph[i], Step(s, n, i).ph[i])
  {}

  lemma StepServes(s: State, n: nat, k: nat, i: nat)
    requires Shaped(s, n) && k < n && i < n && !s.ph[k].pc.Done? && s.ph[k].rounds > 0
    ensures Served(s.ph[i], Step(s, n, k).ph[i])
  {
    if i == k { StepServesOwn(s, n, i); } else { StepServesOther(s, n, k, i); }
  }

  lemma {:induction false} RunServes(s: State, n: nat, schedule: seq<nat>, tok: Option<nat>, i: nat)
    requires Inv(s, n, tok) && Runs(s, n, schedule) && i < n
    ensures Meals(s, n, schedule, i) + Owed(Run(s, n, schedule).ph[i]) == Owed(s.ph[i])
    decreases schedule
  {
    if schedule != [] {
      var k := schedule[0];
      assert Ok(s, n, tok, k);
      StepServes(s, n, k, i);
      StepInv(s, n, k, tok);
      RunServes(Step(s, n, k), n, schedule[1..], NextToken(s, n, k, tok), i);
    }
  }

  /** In every run, at any moment, nobody has eaten more often than there are rounds. */
  lemma NeverFedMore(n: nat, rounds: nat, schedule: seq<nat>, i: nat)
    requires n >= 2 && Runs(Initial(n, rounds), n, schedule) && i < n
    ensures Meals(Initial(n, rounds), n, schedule, i) <= rounds
  {
    InitialInv(n, rounds);
    RunServes(Initial(n, rounds), n, schedule, None, i);
  }

  /** A run that cannot be continued has let every philosopher finish all rounds, and eat once in each;
      no fairness is assumed of the schedule. */
  lemma EveryRunFeedsAll(n: nat, rounds: nat, schedule: seq<nat>)
    requires n >= 2 && Runs(Initial(n, rounds), n, schedule)
    requires forall i :: 0 <= i < n ==> !Enabled(Run(Initial(n, rounds), n, schedule), i)
    ensures forall i :: 0 <= i < n ==> Run(Initial(n, rounds), n, schedule).ph[i].rounds == 0
    ensures forall i :: 0 <= i < n ==> Meals(Initial(n, rounds), n, schedule, i) == rounds
  {
    InitialInv(n, rounds);
    var tok := RunInv(Initial(n, rounds), n, schedule, None);
    var s := Run(Initial(n, rounds), n, schedule);
    if !AllDone(s) {
      var i := SomebodyCanStep(s, n, tok);
      assert false;
    }
    forall i | 0 <= i < n ensures s.ph[i].rounds == 0 && Meals(Initial(n, rounds), n, schedule, i) == rounds {
      assert Ok(s, n, tok, i);
      RunServes(Initial(n, rounds), n, schedule, None, i);
    }
  }
}
