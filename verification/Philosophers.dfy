/** Dining philosophers on a signal-and-wait monitor, itself built on hand-off semaphores.
    A step is one semaphore operation, or one test or update of the shared data, which only the holder of
    the monitor makes; the philosophers' steps interleave arbitrarily. */
module Philosophers {
  import opened Options
  import opened Semaphores
  import opened Sums

  datatype Phase = Thinking | Hungry | Eating

  /** Whose turn phi_test examines: the caller's own, or a neighbour's while forks are put down. */
  datatype Site = Self | ToLeft | ToRight

  /** The place in the philosopher's code where the next step is taken. */
  datatype Pc =
    | Think                 // take forks: down(mutex)
    | TakeBlocked           // asleep on, or handed, mutex
    | TakeHungry            // state := HUNGRY
    | Test(site: Site)      // phi_test: may the target eat?
    | Signal(site: Site)    // cond_signal: anybody waiting on the target's condition?
    | SigUp(site: Site)     // up(cv.sem)
    | SigDown(site: Site)   // down(next)
    | SigWait(site: Site)   // asleep on, or handed, next
    | SigDec(site: Site)    // next_count--
    | TakeCheck             // eating now, or wait on the own condition?
    | CwInc                 // cond_wait: count++
    | CwRelease             // give the monitor away
    | CwDown                // down(cv.sem)
    | CwWait                // asleep on, or handed, cv.sem
    | CwDec                 // count--
    | TakeLeave             // give the monitor away
    | Eat                   // outside; put forks: down(mutex)
    | PutBlocked            // asleep on, or handed, mutex
    | PutThink              // state := THINKING
    | PutLeave              // give the monitor away
    | Done

  /** A philosopher, with the condition variable the others signal. */
  datatype Phil = Phil(phase: Phase, pc: Pc, rounds: nat, cv: Sema, count: nat)

  datatype State = State(ph: seq<Phil>, mutex: Sema, next: Sema, nextCount: nat)

  predicate Shaped(s: State, n: nat) { n >= 2 && |s.ph| == n }

  function Left(i: nat, n: nat): (r: nat)
    requires i < n
    ensures r < n
  {
    if i == 0 then n - 1 else i - 1
  }

  function Right(i: nat, n: nat): (r: nat)
    requires i < n
    ensures r < n
  {
    if i == n - 1 then 0 else i + 1
  }

  /** The neighbours are those of the modular arithmetic on philosopher numbers. */
  lemma NeighboursModulo(i: nat, n: nat)
    requires i < n
    ensures Left(i, n) == (i - 1 + n) % n && Right(i, n) == (i + 1) % n
    ensures Right(Left(i, n), n) == i && Left(Right(i, n), n) == i
  {
    if i == 0 { assert (i - 1 + n) % n == n - 1; } else { assert (i - 1 + n) == n + (i - 1); }
  }

  function Target(i: nat, site: Site, n: nat): (r: nat)
    requires i < n
    ensures r < n
  {
    match site
    case Self => i
    case ToLeft => Left(i, n)
    case ToRight => Right(i, n)
  }

  /** Where the code goes on after phi_test. */
  function After(site: Site): Pc {
    match site
    case Self => TakeCheck
    case ToLeft => Test(ToRight)
    case ToRight => PutLeave
  }

  function Initial(n: nat, rounds: nat): State {
    State(seq(n, _ => Phil(Thinking, if rounds == 0 then Done else Think, rounds, Sema(0, []), 0)),
          Sema(1, []), Sema(0, []), 0)
  }

  // ----- steps -----

  predicate Asleep(p: Phil, i: nat, mutex: Sema, next: Sema) {
    ((p.pc.TakeBlocked? || p.pc.PutBlocked?) && i in mutex.queue) ||
    (p.pc.SigWait? && i in next.queue) ||
    (p.pc.CwWait? && i in p.cv.queue)
  }

  /** A philosopher cannot step while asleep in a queue, or after the last round. */
  predicate Awake(p: Phil, i: nat, mutex: Sema, next: Sema) {
    !p.pc.Done? && !Asleep(p, i, mutex, next)
  }

  predicate Enabled(s: State, i: nat)
    requires i < |s.ph|
  {
    Awake(s.ph[i], i, s.mutex, s.next)
  }

  function Set(s: State, i: nat, p: Phil): State
    requires i < |s.ph|
  {
    s.(ph := s.ph[i := p])
  }

  function Goto(s: State, i: nat, pc: Pc): State
    requires i < |s.ph|
  {
    Set(s, i, s.ph[i].(pc := pc))
  }

  /** Leaving the monitor lets a sleeping signaller in before anybody outside. */
  function GiveAway(s: State): State {
    if s.nextCount > 0 then s.(next := Up(s.next)) else s.(mutex := Up(s.mutex))
  }

  predicate CanEat(s: State, n: nat, t: nat)
    requires Shaped(s, n) && t < n
  {
    s.ph[t].phase == Hungry && s.ph[Left(t, n)].phase != Eating && s.ph[Right(t, n)].phase != Eating
  }

  function Step(s: State, n: nat, i: nat): (s': State)
    requires Shaped(s, n) && i < n
    ensures Shaped(s', n)
  {
    var p := s.ph[i];
    match p.pc
    case Think => Goto(s.(mutex := Down(s.mutex, i)), i, if s.mutex.value > 0 then TakeHungry else TakeBlocked)
    case TakeBlocked => Goto(s, i, TakeHungry)
    case TakeHungry => Set(s, i, p.(phase := Hungry, pc := Test(Self)))
    case Test(site) =>
      var t := Target(i, site, n);
      if CanEat(s, n, t) then Goto(Set(s, t, s.ph[t].(phase := Eating)), i, Signal(site))
      else Goto(s, i, After(site))
    case Signal(site) =>
      if s.ph[Target(i, site, n)].count > 0 then Goto(s.(nextCount := s.nextCount + 1), i, SigUp(site))
      else Goto(s, i, After(site))
    case SigUp(site) =>
      var t := Target(i, site, n);
      Goto(Set(s, t, s.ph[t].(cv := Up(s.ph[t].cv))), i, SigDown(site))
    case SigDown(site) =>
      Goto(s.(next := Down(s.next, i)), i, if s.next.value > 0 then SigDec(site) else SigWait(site))
    case SigWait(site) => Goto(s, i, SigDec(site))
    case SigDec(site) => Goto(s.(nextCount := if s.nextCount > 0 then s.nextCount - 1 else 0), i, After(site))
    case TakeCheck => Goto(s, i, if p.phase != Eating then CwInc else TakeLeave)
    case CwInc => Set(s, i, p.(count := p.count + 1, pc := CwRelease))
    case CwRelease => Goto(GiveAway(s), i, CwDown)
    case CwDown => Set(s, i, p.(cv := Down(p.cv, i), pc := if p.cv.value > 0 then CwDec else CwWait))
    case CwWait => Goto(s, i, CwDec)
    case CwDec => Set(s, i, p.(count := if p.count > 0 then p.count - 1 else 0, pc := TakeLeave))
    case TakeLeave => Goto(GiveAway(s), i, Eat)
    case Eat => Goto(s.(mutex := Down(s.mutex, i)), i, if s.mutex.value > 0 then PutThink else PutBlocked)
    case PutBlocked => Goto(s, i, PutThink)
    case PutThink => Set(s, i, p.(phase := Thinking, pc := Test(ToLeft)))
    case PutLeave =>
      var left := if p.rounds > 0 then p.rounds - 1 else 0;
      Set(GiveAway(s), i, p.(rounds := left, pc := if left == 0 then Done else Think))
    case Done => s
  }

  // ----- the monitor token -----

  datatype Token = Free | InNext | InCv(i: nat) | Held(i: nat)

  /** The philosopher is inside the monitor: running in it, or handed it and not yet running. */
  predicate Inside(p: Phil, i: nat, mutex: Sema, next: Sema) {
    !p.pc.Think? && !p.pc.Eat? && !p.pc.CwDown? && !p.pc.SigDown? && Awake(p, i, mutex, next)
  }

  /** The token is where it is said to be, and nowhere else. */
  ghost predicate TokenAt(s: State, tok: Token) {
    s.mutex.value == (if tok == Free then 1 else 0) &&
    s.next.value == (if tok == InNext then 1 else 0) &&
    (tok.InCv? || tok.Held? ==> tok.i < |s.ph|) &&
    forall i :: 0 <= i < |s.ph| ==> TokenFits(s, tok, i)
  }

  ghost predicate TokenFits(s: State, tok: Token, i: nat)
    requires i < |s.ph|
  {
    s.ph[i].cv.value == (if tok == InCv(i) then 1 else 0) &&
    (Inside(s.ph[i], i, s.mutex, s.next) <==> tok == Held(i))
  }

  // ----- the invariant -----

  predicate Signalling(p: Pc) { p.SigUp? || p.SigDown? || p.SigWait? || p.SigDec? }
  predicate Waiting(p: Pc) { p.CwDown? || p.CwWait? }
  predicate CountedAt(pc: Pc) { pc.CwRelease? || Waiting(pc) || pc.CwDec? }

  /** What the code position says about the recorded phase, the condition and its counter. */
  ghost predicate Fits(p: Phil, i: nat) {
    Sound(p.cv) &&
    (p.cv.queue == [] || (p.cv.queue == [i] && p.pc.CwWait?)) &&
    p.count == (if CountedAt(p.pc) then 1 else 0) &&
    (p.pc.Done? <==> p.rounds == 0) &&
    match p.pc
    case Test(site) => p.phase == if site == Self then Hungry else Thinking
    case Signal(site) => p.phase == if site == Self then Eating else Thinking
    case TakeCheck => p.phase != Thinking
    case CwDown => p.phase != Thinking
    case CwWait => p.phase != Thinking
    case CwInc => p.phase == Hungry
    case CwRelease => p.phase == Hungry
    case CwDec => p.phase == Eating
    case TakeLeave => p.phase == Eating
    case Eat => p.phase == Eating
    case PutBlocked => p.phase == Eating
    case PutThink => p.phase == Eating
    case _ => p.phase == Thinking && (Signalling(p.pc) ==> p.pc.site != Self)
  }

  /** A neighbour about to be signalled, or being signalled, waits and is marked as eating. */
  ghost predicate TargetWaits(s: State, n: nat, i: nat)
    requires Shaped(s, n) && i < n
  {
    var pc := s.ph[i].pc;
    (pc.Signal? || pc.SigUp?) && pc.site != Self ==>
      var t := s.ph[Target(i, pc.site, n)];
      Waiting(t.pc) && t.phase == Eating
  }

  /** A waiting philosopher already marked as eating is being woken. */
  ghost predicate WokenIfEating(s: State, n: nat, tok: Token, i: nat)
    requires Shaped(s, n) && i < n
  {
    Waiting(s.ph[i].pc) && s.ph[i].phase == Eating ==>
      tok == InCv(i) || tok == Held(i) ||
      (tok.Held? && tok.i < n && (s.ph[tok.i].pc.Signal? || s.ph[tok.i].pc.SigUp?) &&
       Target(tok.i, s.ph[tok.i].pc.site, n) == i)
  }

  predicate NeighbourEats(s: State, n: nat, i: nat)
    requires Shaped(s, n) && i < n
  {
    s.ph[Left(i, n)].phase == Eating || s.ph[Right(i, n)].phase == Eating
  }

  /** The philosopher at pc has put its forks down and has still to look at its neighbour i. */
  predicate StillToTest(pc: Pc, n: nat, j: nat, i: nat)
    requires j < n
  {
    (pc == Test(ToLeft) && i == Left(j, n)) ||
    ((pc == Test(ToLeft) || pc == Test(ToRight)) && i == Right(j, n)) ||
    ((pc == Signal(ToLeft) || (Signalling(pc) && pc.site == ToLeft)) && i == Right(j, n))
  }

  /** Only the holder of the token, or the signaller, can have a neighbour still to test. */
  predicate Overlooked(s: State, n: nat, tok: Token, sig: Option<nat>, i: nat)
    requires Shaped(s, n)
  {
    (tok.Held? && tok.i < n && StillToTest(s.ph[tok.i].pc, n, tok.i, i)) ||
    (sig.Some? && sig.value < n && StillToTest(s.ph[sig.value].pc, n, sig.value, i))
  }

  ghost predicate HungerFits(s: State, n: nat, tok: Token, sig: Option<nat>, i: nat)
    requires Shaped(s, n) && i < n
  {
    s.ph[i].phase == Hungry && s.ph[i].pc != Test(Self) ==> NeighbourEats(s, n, i) || Overlooked(s, n, tok, sig, i)
  }

  /** What is kept about one philosopher, and about it and its neighbours. */
  ghost predicate Own(s: State, tok: Token, sig: Option<nat>, i: nat)
    requires i < |s.ph|
  {
    TokenFits(s, tok, i) && (Signalling(s.ph[i].pc) <==> sig == Some(i)) && Fits(s.ph[i], i)
  }

  ghost predicate Near(s: State, n: nat, tok: Token, sig: Option<nat>, i: nat)
    requires Shaped(s, n) && i < n
  {
    TargetWaits(s, n, i) && !(s.ph[i].phase == Eating && s.ph[Right(i, n)].phase == Eating) &&
    WokenIfEating(s, n, tok, i) && HungerFits(s, n, tok, sig, i)
  }

  ghost predicate Ok(s: State, n: nat, tok: Token, sig: Option<nat>, i: nat)
    requires Shaped(s, n) && i < n
  {
    Own(s, tok, sig, i) && Near(s, n, tok, sig, i)
  }

  /** Queues hold only philosophers asleep in them, each once. */
  ghost predicate QueuesFit(s: State) {
    Sound(s.mutex) && Sound(s.next) &&
    (forall k :: 0 <= k < |s.mutex.queue| ==>
       s.mutex.queue[k] < |s.ph| &&
       (s.ph[s.mutex.queue[k]].pc.TakeBlocked? || s.ph[s.mutex.queue[k]].pc.PutBlocked?)) &&
    (forall j, k :: 0 <= j < k < |s.mutex.queue| ==> s.mutex.queue[j] != s.mutex.queue[k])
  }

  /** While a signaller is in the middle of signalling, the token is on its way to the philosopher
      it woke and back; next_count counts that one signaller. */
  ghost predicate SignalFlow(s: State, tok: Token, sig: Option<nat>) {
    s.nextCount == (if sig.Some? then 1 else 0) && (sig.Some? ==> sig.value < |s.ph|) &&
    (s.next.queue == [] || (sig.Some? && s.next.queue == [sig.value] && s.ph[sig.value].pc.SigWait?)) &&
    (tok == Free ==> sig.None?) &&
    (tok == InNext ==> sig.Some?) &&
    (tok.InCv? ==> tok.i < |s.ph| && s.ph[tok.i].pc.CwDown? && s.ph[tok.i].phase == Eating && sig.Some?) &&
    (tok.Held? ==> tok.i < |s.ph|) &&
    (tok.Held? && sig.Some? && sig != Some(tok.i) ==>
       s.ph[tok.i].pc.CwWait? || s.ph[tok.i].pc.CwDec? || s.ph[tok.i].pc.TakeLeave?) &&
    (tok.Held? && (s.ph[tok.i].pc.CwWait? || s.ph[tok.i].pc.CwDec?) ==> s.ph[tok.i].phase == Eating && sig.Some?)
  }

  ghost predicate Globals(s: State, tok: Token, sig: Option<nat>) {
    s.mutex.value == (if tok == Free then 1 else 0) && s.next.value == (if tok == InNext then 1 else 0) &&
    QueuesFit(s) && SignalFlow(s, tok, sig)
  }

  ghost predicate Inv(s: State, n: nat, tok: Token, sig: Option<nat>) {
    Shaped(s, n) && Globals(s, tok, sig) && forall i :: 0 <= i < n ==> Ok(s, n, tok, sig, i)
  }

  // ----- every step keeps the invariant -----

  /** Where a released unit of a semaphore goes. */
  function Handed(q: Sema, otherwise: Token): Token {
    if q.queue == [] then otherwise else Held(q.queue[0])
  }

  /** Where the token is after a step. */
  function NextToken(s: State, n: nat, i: nat, tok: Token): Token
    requires Shaped(s, n) && i < n
  {
    match s.ph[i].pc
    case Think => if s.mutex.value > 0 then Held(i) else tok
    case Eat => if s.mutex.value > 0 then Held(i) else tok
    case SigDown(_) => if s.next.value > 0 then Held(i) else tok
    case CwDown => if s.ph[i].cv.value > 0 then Held(i) else tok
    case SigUp(site) => var t := Target(i, site, n); Handed(s.ph[t].cv, InCv(t))
    case CwRelease => if s.nextCount > 0 then Handed(s.next, InNext) else Handed(s.mutex, Free)
    case TakeLeave => if s.nextCount > 0 then Handed(s.next, InNext) else Handed(s.mutex, Free)
    case PutLeave => if s.nextCount > 0 then Handed(s.next, InNext) else Handed(s.mutex, Free)
    case _ => tok
  }

  function NextSignaller(s: State, n: nat, i: nat, sig: Option<nat>): Option<nat>
    requires Shaped(s, n) && i < n
  {
    match s.ph[i].pc
    case Signal(site) => if s.ph[Target(i, site, n)].count > 0 then Some(i) else sig
    case SigDec(_) => None
    case _ => sig
  }

  lemma ThinkGlobals(s: State, n: nat, i: nat, tok: Token, sig: Option<nat>)
    requires Inv(s, n, tok, sig) && i < n && s.ph[i].pc.Think? && Enabled(s, i)
    ensures Globals(Step(s, n, i), NextToken(s, n, i, tok), NextSignaller(s, n, i, sig))
  {
    assert Ok(s, n, tok, sig, i);
  }

  lemma ThinkOwn(s: State, n: nat, i: nat, tok: Token, sig: Option<nat>, j: nat)
    requires Inv(s, n, tok, sig) && i < n && s.ph[i].pc.Think? && Enabled(s, i) && j < n
    ensures Own(Step(s, n, i), NextToken(s, n, i, tok), NextSignaller(s, n, i, sig), j)
  {
    assert Ok(s, n, tok, sig, i);
    assert Ok(s, n, tok, sig, j);
  }

  lemma ThinkNear(s: State, n: nat, i: nat, tok: Token, sig: Option<nat>, j: nat)
    requires Inv(s, n, tok, sig) && i < n && s.ph[i].pc.Think? && Enabled(s, i) && j < n
    ensures Near(Step(s, n, i), n, NextToken(s, n, i, tok), NextSignaller(s, n, i, sig), j)
  {
    assert Ok(s, n, tok, sig, i);
    assert Ok(s, n, tok, sig, j);
  }

  lemma ThinkStep(s: State, n: nat, i: nat, tok: Token, sig: Option<nat>)
    requires Inv(s, n, tok, sig) && i < n && s.ph[i].pc.Think? && Enabled(s, i)
    ensures Inv(Step(s, n, i), n, NextToken(s, n, i, tok), NextSignaller(s, n, i, sig))
  {
    ThinkGlobals(s, n, i, tok, sig);
    forall j | 0 <= j < n ensures Ok(Step(s, n, i), n, NextToken(s, n, i, tok), NextSignaller(s, n, i, sig), j) {
      ThinkOwn(s, n, i, tok, sig, j);
      ThinkNear(s, n, i, tok, sig, j);
    }
  }

  lemma TakeBlockedStep(s: State, n: nat, i: nat, tok: Token, sig: Option<nat>)
    requires Inv(s, n, tok, sig) && i < n && s.ph[i].pc.TakeBlocked? && Enabled(s, i)
    ensures Inv(Step(s, n, i), n, NextToken(s, n, i, tok), NextSignaller(s, n, i, sig))
  {
    assert Ok(s, n, tok, sig, i);
    var s', tok', sig' := Step(s, n, i), NextToken(s, n, i, tok), NextSignaller(s, n, i, sig);
    forall j | 0 <= j < n ensures Ok(s', n, tok', sig', j) {
      assert Ok(s, n, tok, sig, j);
    }
  }

  lemma TakeHungryStep(s: State, n: nat, i: nat, tok: Token, sig: Option<nat>)
    requires Inv(s, n, tok, sig) && i < n && s.ph[i].pc.TakeHungry? && Enabled(s, i)
    ensures Inv(Step(s, n, i), n, NextToken(s, n, i, tok), NextSignaller(s, n, i, sig))
  {
    assert Ok(s, n, tok, sig, i);
    var s', tok', sig' := Step(s, n, i), NextToken(s, n, i, tok), NextSignaller(s, n, i, sig);
    forall j | 0 <= j < n ensures Ok(s', n, tok', sig', j) {
      assert Ok(s, n, tok, sig, j);
    }
  }

  lemma TestGlobals(s: State, n: nat, i: nat, tok: Token, sig: Option<nat>)
    requires Inv(s, n, tok, sig) && i < n && s.ph[i].pc.Test? && Enabled(s, i)
    ensures Globals(Step(s, n, i), NextToken(s, n, i, tok), NextSignaller(s, n, i, sig))
  {
    assert Ok(s, n, tok, sig, i);
    var t := Target(i, s.ph[i].pc.site, n);
    assert Ok(s, n, tok, sig, t);
  }

  lemma TestOwn(s: State, n: nat, i: nat, tok: Token, sig: Option<nat>, j: nat)
    requires Inv(s, n, tok, sig) && i < n && s.ph[i].pc.Test? && Enabled(s, i) && j < n
    ensures Own(Step(s, n, i), NextToken(s, n, i, tok), NextSignaller(s, n, i, sig), j)
  {
    assert Ok(s, n, tok, sig, i);
    var t := Target(i, s.ph[i].pc.site, n);
    assert Ok(s, n, tok, sig, t);
    assert Ok(s, n, tok, sig, j);
  }

  lemma TestHunger(s: State, n: nat, i: nat, tok: Token, sig: Option<nat>, j: nat)
    requires Inv(s, n, tok, sig) && i < n && s.ph[i].pc.Test? && Enabled(s, i) && j < n
    ensures HungerFits(Step(s, n, i), n, tok, sig, j)
  {
    assert Ok(s, n, tok, sig, i) && Ok(s, n, tok, sig, j);
    var t := Target(i, s.ph[i].pc.site, n);
    if CanEat(s, n, t) { TestHungerEats(s, n, i, tok, sig, j, t); } else { TestHungerWaits(s, n, i, tok, sig, j, t); }
  }

  /** When the target begins to eat, whoever is hungry keeps its reason to be. */
  lemma TestHungerEats(s: State, n: nat, i: nat, tok: Token, sig: Option<nat>, j: nat, t: nat)
    requires Shaped(s, n) && i < n && j < n && s.ph[i].pc.Test? && t == Target(i, s.ph[i].pc.site, n) && CanEat(s, n, t)
    requires tok == Held(i) && sig != Some(i) && HungerFits(s, n, tok, sig, j)
    ensures HungerFits(Step(s, n, i), n, tok, sig, j)
  {}

  /** When it does not, it is not hungry or has an eating neighbour. */
  lemma TestHungerWaits(s: State, n: nat, i: nat, tok: Token, sig: Option<nat>, j: nat, t: nat)
    requires Shaped(s, n) && i < n && j < n && s.ph[i].pc.Test? && t == Target(i, s.ph[i].pc.site, n) && !CanEat(s, n, t)
    requires tok == Held(i) && sig != Some(i) && HungerFits(s, n, tok, sig, j)
    ensures HungerFits(Step(s, n, i), n, tok, sig, j)
  {}

  lemma TestNear(s: State, n: nat, i: nat, tok: Token, sig: Option<nat>, j: nat)
    requires Inv(s, n, tok, sig) && i < n && s.ph[i].pc.Test? && Enabled(s, i) && j < n
    ensures Near(Step(s, n, i), n, NextToken(s, n, i, tok), NextSignaller(s, n, i, sig), j)
  {
    assert Ok(s, n, tok, sig, i) && Ok(s, n, tok, sig, Target(i, s.ph[i].pc.site, n)) && Ok(s, n, tok, sig, j);
    TestHunger(s, n, i, tok, sig, j);
  }

  lemma TestStep(s: State, n: nat, i: nat, tok: Token, sig: Option<nat>)
    requires Inv(s, n, tok, sig) && i < n && s.ph[i].pc.Test? && Enabled(s, i)
    ensures Inv(Step(s, n, i), n, NextToken(s, n, i, tok), NextSignaller(s, n, i, sig))
  {
    TestGlobals(s, n, i, tok, sig);
    forall j | 0 <= j < n ensures Ok(Step(s, n, i), n, NextToken(s, n, i, tok), NextSignaller(s, n, i, sig), j) {
      TestOwn(s, n, i, tok, sig, j);
      TestNear(s, n, i, tok, sig, j);
    }
  }

  lemma SignalOwn(s: State, n: nat, i: nat, tok: Token, sig: Option<nat>, j: nat)
    requires Inv(s, n, tok, sig) && i < n && s.ph[i].pc.Signal? && Enabled(s, i) && j < n
    ensures Own(Step(s, n, i), NextToken(s, n, i, tok), NextSignaller(s, n, i, sig), j)
  {
    assert Ok(s, n, tok, sig, i);
    assert Ok(s, n, tok, sig, j);
  }

  lemma SignalNear(s: State, n: nat, i: nat, tok: Token, sig: Option<nat>, j: nat)
    requires Inv(s, n, tok, sig) && i < n && s.ph[i].pc.Signal? && Enabled(s, i) && j < n
    ensures Near(Step(s, n, i), n, NextToken(s, n, i, tok), NextSignaller(s, n, i, sig), j)
  {
    assert Ok(s, n, tok, sig, i);
    assert Ok(s, n, tok, sig, j);
  }

  lemma SignalStep(s: State, n: nat, i: nat, tok: Token, sig: Option<nat>)
    requires Inv(s, n, tok, sig) && i < n && s.ph[i].pc.Signal? && Enabled(s, i)
    ensures Inv(Step(s, n, i), n, NextToken(s, n, i, tok), NextSignaller(s, n, i, sig))
  {
    assert Ok(s, n, tok, sig, i);
    forall j | 0 <= j < n ensures Ok(Step(s, n, i), n, NextToken(s, n, i, tok), NextSignaller(s, n, i, sig), j) {
      SignalOwn(s, n, i, tok, sig, j);
      SignalNear(s, n, i, tok, sig, j);
    }
  }

  lemma SigUpGlobals(s: State, n: nat, i: nat, tok: Token, sig: Option<nat>)
    requires Inv(s, n, tok, sig) && i < n && s.ph[i].pc.SigUp? && Enabled(s, i)
    ensures Globals(Step(s, n, i), NextToken(s, n, i, tok), NextSignaller(s, n, i, sig))
  {
    assert Ok(s, n, tok, sig, i);
    var t := Target(i, s.ph[i].pc.site, n);
    assert Ok(s, n, tok, sig, t);
  }

  lemma SigUpOwn(s: State, n: nat, i: nat, tok: Token, sig: Option<nat>, j: nat)
    requires Inv(s, n, tok, sig) && i < n && s.ph[i].pc.SigUp? && Enabled(s, i) && j < n
    ensures Own(Step(s, n, i), NextToken(s, n, i, tok), NextSignaller(s, n, i, sig), j)
  {
    assert Ok(s, n, tok, sig, i);
    var t := Target(i, s.ph[i].pc.site, n);
    assert Ok(s, n, tok, sig, t);
    assert Ok(s, n, tok, sig, j);
  }

  lemma SigUpNear(s: State, n: nat, i: nat, tok: Token, sig: Option<nat>, j: nat)
    requires Inv(s, n, tok, sig) && i < n && s.ph[i].pc.SigUp? && Enabled(s, i) && j < n
    ensures Near(Step(s, n, i), n, NextToken(s, n, i, tok), NextSignaller(s, n, i, sig), j)
  {
    assert Ok(s, n, tok, sig, i);
    var t := Target(i, s.ph[i].pc.site, n);
    assert Ok(s, n, tok, sig, t);
    assert Ok(s, n, tok, sig, j);
  }

  lemma SigUpStep(s: State, n: nat, i: nat, tok: Token, sig: Option<nat>)
    requires Inv(s, n, tok, sig) && i < n && s.ph[i].pc.SigUp? && Enabled(s, i)
    ensures Inv(Step(s, n, i), n, NextToken(s, n, i, tok), NextSignaller(s, n, i, sig))
  {
    SigUpGlobals(s, n, i, tok, sig);
    forall j | 0 <= j < n ensures Ok(Step(s, n, i), n, NextToken(s, n, i, tok), NextSignaller(s, n, i, sig), j) {
      SigUpOwn(s, n, i, tok, sig, j);
      SigUpNear(s, n, i, tok, sig, j);
    }
  }

  lemma SigDownOwn(s: State, n: nat, i: nat, tok: Token, sig: Option<nat>, j: nat)
    requires Inv(s, n, tok, sig) && i < n && s.ph[i].pc.SigDown? && Enabled(s, i) && j < n
    ensures Own(Step(s, n, i), NextToken(s, n, i, tok), NextSignaller(s, n, i, sig), j)
  {
    assert Ok(s, n, tok, sig, i);
    assert Ok(s, n, tok, sig, j);
  }

  lemma SigDownNear(s: State, n: nat, i: nat, tok: Token, sig: Option<nat>, j: nat)
    requires Inv(s, n, tok, sig) && i < n && s.ph[i].pc.SigDown? && Enabled(s, i) && j < n
    ensures Near(Step(s, n, i), n, NextToken(s, n, i, tok), NextSignaller(s, n, i, sig), j)
  {
    assert Ok(s, n, tok, sig, i);
    assert Ok(s, n, tok, sig, j);
  }

  lemma SigDownStep(s: State, n: nat, i: nat, tok: Token, sig: Option<nat>)
    requires Inv(s, n, tok, sig) && i < n && s.ph[i].pc.SigDown? && Enabled(s, i)
    ensures Inv(Step(s, n, i), n, NextToken(s, n, i, tok), NextSignaller(s, n, i, sig))
  {
    assert Ok(s, n, tok, sig, i);
    forall j | 0 <= j < n ensures Ok(Step(s, n, i), n, NextToken(s, n, i, tok), NextSignaller(s, n, i, sig), j) {
      SigDownOwn(s, n, i, tok, sig, j);
      SigDownNear(s, n, i, tok, sig, j);
    }
  }

  lemma SigWaitStep(s: State, n: nat, i: nat, tok: Token, sig: Option<nat>)
    requires Inv(s, n, tok, sig) && i < n && s.ph[i].pc.SigWait? && Enabled(s, i)
    ensures Inv(Step(s, n, i), n, NextToken(s, n, i, tok), NextSignaller(s, n, i, sig))
  {
    assert Ok(s, n, tok, sig, i);
    var s', tok', sig' := Step(s, n, i), NextToken(s, n, i, tok), NextSignaller(s, n, i, sig);
    forall j | 0 <= j < n ensures Ok(s', n, tok', sig', j) {
      assert Ok(s, n, tok, sig, j);
    }
  }

  lemma SigDecStep(s: State, n: nat, i: nat, tok: Token, sig: Option<nat>)
    requires Inv(s, n, tok, sig) && i < n && s.ph[i].pc.SigDec? && Enabled(s, i)
    ensures Inv(Step(s, n, i), n, NextToken(s, n, i, tok), NextSignaller(s, n, i, sig))
  {
    assert Ok(s, n, tok, sig, i);
    var s', tok', sig' := Step(s, n, i), NextToken(s, n, i, tok), NextSignaller(s, n, i, sig);
    forall j | 0 <= j < n ensures Ok(s', n, tok', sig', j) {
      assert Ok(s, n, tok, sig, j);
    }
  }

  lemma TakeCheckStep(s: State, n: nat, i: nat, tok: Token, sig: Option<nat>)
    requires Inv(s, n, tok, sig) && i < n && s.ph[i].pc.TakeCheck? && Enabled(s, i)
    ensures Inv(Step(s, n, i), n, NextToken(s, n, i, tok), NextSignaller(s, n, i, sig))
  {
    assert Ok(s, n, tok, sig, i);
    var s', tok', sig' := Step(s, n, i), NextToken(s, n, i, tok), NextSignaller(s, n, i, sig);
    forall j | 0 <= j < n ensures Ok(s', n, tok', sig', j) {
      assert Ok(s, n, tok, sig, j);
    }
  }

  lemma CwIncStep(s: State, n: nat, i: nat, tok: Token, sig: Option<nat>)
    requires Inv(s, n, tok, sig) && i < n && s.ph[i].pc.CwInc? && Enabled(s, i)
    ensures Inv(Step(s, n, i), n, NextToken(s, n, i, tok), NextSignaller(s, n, i, sig))
  {
    assert Ok(s, n, tok, sig, i);
    var s', tok', sig' := Step(s, n, i), NextToken(s, n, i, tok), NextSignaller(s, n, i, sig);
    forall j | 0 <= j < n ensures Ok(s', n, tok', sig', j) {
      assert Ok(s, n, tok, sig, j);
    }
  }

  lemma CwReleaseOwn(s: State, n: nat, i: nat, tok: Token, sig: Option<nat>, j: nat)
    requires Inv(s, n, tok, sig) && i < n && s.ph[i].pc.CwRelease? && Enabled(s, i) && j < n
    ensures Own(Step(s, n, i), NextToken(s, n, i, tok), NextSignaller(s, n, i, sig), j)
  {
    assert Ok(s, n, tok, sig, i);
    assert s.mutex.queue != [] ==> s.mutex.queue[0] < n;
    assert Ok(s, n, tok, sig, j);
  }

  lemma CwReleaseNear(s: State, n: nat, i: nat, tok: Token, sig: Option<nat>, j: nat)
    requires Inv(s, n, tok, sig) && i < n && s.ph[i].pc.CwRelease? && Enabled(s, i) && j < n
    ensures Near(Step(s, n, i), n, NextToken(s, n, i, tok), NextSignaller(s, n, i, sig), j)
  {
    assert Ok(s, n, tok, sig, i);
    assert s.mutex.queue != [] ==> s.mutex.queue[0] < n;
    assert Ok(s, n, tok, sig, j);
  }

  lemma CwReleaseStep(s: State, n: nat, i: nat, tok: Token, sig: Option<nat>)
    requires Inv(s, n, tok, sig) && i < n && s.ph[i].pc.CwRelease? && Enabled(s, i)
    ensures Inv(Step(s, n, i), n, NextToken(s, n, i, tok), NextSignaller(s, n, i, sig))
  {
    assert Ok(s, n, tok, sig, i);
    assert s.mutex.queue != [] ==> s.mutex.queue[0] < n;
    forall j | 0 <= j < n ensures Ok(Step(s, n, i), n, NextToken(s, n, i, tok), NextSignaller(s, n, i, sig), j) {
      CwReleaseOwn(s, n, i, tok, sig, j);
      CwReleaseNear(s, n, i, tok, sig, j);
    }
  }

  lemma CwDownGlobals(s: State, n: nat, i: nat, tok: Token, sig: Option<nat>)
    requires Inv(s, n, tok, sig) && i < n && s.ph[i].pc.CwDown? && Enabled(s, i)
    ensures Globals(Step(s, n, i), NextToken(s, n, i, tok), NextSignaller(s, n, i, sig))
  {
    assert Ok(s, n, tok, sig, i);
  }

  lemma CwDownOwn(s: State, n: nat, i: nat, tok: Token, sig: Option<nat>, j: nat)
    requires Inv(s, n, tok, sig) && i < n && s.ph[i].pc.CwDown? && Enabled(s, i) && j < n
    ensures Own(Step(s, n, i), NextToken(s, n, i, tok), NextSignaller(s, n, i, sig), j)
  {
    assert Ok(s, n, tok, sig, i);
    assert Ok(s, n, tok, sig, j);
  }

  lemma CwDownNear(s: State, n: nat, i: nat, tok: Token, sig: Option<nat>, j: nat)
    requires Inv(s, n, tok, sig) && i < n && s.ph[i].pc.CwDown? && Enabled(s, i) && j < n
    ensures Near(Step(s, n, i), n, NextToken(s, n, i, tok), NextSignaller(s, n, i, sig), j)
  {
    assert Ok(s, n, tok, sig, i);
    assert Ok(s, n, tok, sig, j);
  }

  lemma CwDownStep(s: State, n: nat, i: nat, tok: Token, sig: Option<nat>)
    requires Inv(s, n, tok, sig) && i < n && s.ph[i].pc.CwDown? && Enabled(s, i)
    ensures Inv(Step(s, n, i), n, NextToken(s, n, i, tok), NextSignaller(s, n, i, sig))
  {
    CwDownGlobals(s, n, i, tok, sig);
    forall j | 0 <= j < n ensures Ok(Step(s, n, i), n, NextToken(s, n, i, tok), NextSignaller(s, n, i, sig), j) {
      CwDownOwn(s, n, i, tok, sig, j);
      CwDownNear(s, n, i, tok, sig, j);
    }
  }

  lemma CwWaitStep(s: State, n: nat, i: nat, tok: Token, sig: Option<nat>)
    requires Inv(s, n, tok, sig) && i < n && s.ph[i].pc.CwWait? && Enabled(s, i)
    ensures Inv(Step(s, n, i), n, NextToken(s, n, i, tok), NextSignaller(s, n, i, sig))
  {
    assert Ok(s, n, tok, sig, i);
    var s', tok', sig' := Step(s, n, i), NextToken(s, n, i, tok), NextSignaller(s, n, i, sig);
    forall j | 0 <= j < n ensures Ok(s', n, tok', sig', j) {
      assert Ok(s, n, tok, sig, j);
    }
  }

  lemma CwDecStep(s: State, n: nat, i: nat, tok: Token, sig: Option<nat>)
    requires Inv(s, n, tok, sig) && i < n && s.ph[i].pc.CwDec? && Enabled(s, i)
    ensures Inv(Step(s, n, i), n, NextToken(s, n, i, tok), NextSignaller(s, n, i, sig))
  {
    assert Ok(s, n, tok, sig, i);
    var s', tok', sig' := Step(s, n, i), NextToken(s, n, i, tok), NextSignaller(s, n, i, sig);
    forall j | 0 <= j < n ensures Ok(s', n, tok', sig', j) {
      assert Ok(s, n, tok, sig, j);
    }
  }

  lemma TakeLeaveGlobals(s: State, n: nat, i: nat, tok: Token, sig: Option<nat>)
    requires Inv(s, n, tok, sig) && i < n && s.ph[i].pc.TakeLeave? && Enabled(s, i)
    ensures Globals(Step(s, n, i), NextToken(s, n, i, tok), NextSignaller(s, n, i, sig))
  {
    assert Ok(s, n, tok, sig, i);
    assert s.mutex.queue != [] ==> s.mutex.queue[0] < n;
  }

  lemma TakeLeaveOwn(s: State, n: nat, i: nat, tok: Token, sig: Option<nat>, j: nat)
    requires Inv(s, n, tok, sig) && i < n && s.ph[i].pc.TakeLeave? && Enabled(s, i) && j < n
    ensures Own(Step(s, n, i), NextToken(s, n, i, tok), NextSignaller(s, n, i, sig), j)
  {
    assert Ok(s, n, tok, sig, i);
    assert s.mutex.queue != [] ==> s.mutex.queue[0] < n;
    assert Ok(s, n, tok, sig, j);
  }

  lemma TakeLeaveNear(s: State, n: nat, i: nat, tok: Token, sig: Option<nat>, j: nat)
    requires Inv(s, n, tok, sig) && i < n && s.ph[i].pc.TakeLeave? && Enabled(s, i) && j < n
    ensures Near(Step(s, n, i), n, NextToken(s, n, i, tok), NextSignaller(s, n, i, sig), j)
  {
    assert Ok(s, n, tok, sig, i);
    assert s.mutex.queue != [] ==> s.mutex.queue[0] < n;
    assert Ok(s, n, tok, sig, j);
  }

  lemma TakeLeaveStep(s: State, n: nat, i: nat, tok: Token, sig: Option<nat>)
    requires Inv(s, n, tok, sig) && i < n && s.ph[i].pc.TakeLeave? && Enabled(s, i)
    ensures Inv(Step(s, n, i), n, NextToken(s, n, i, tok), NextSignaller(s, n, i, sig))
  {
    TakeLeaveGlobals(s, n, i, tok, sig);
    forall j | 0 <= j < n ensures Ok(Step(s, n, i), n, NextToken(s, n, i, tok), NextSignaller(s, n, i, sig), j) {
      TakeLeaveOwn(s, n, i, tok, sig, j);
      TakeLeaveNear(s, n, i, tok, sig, j);
    }
  }

  lemma EatGlobals(s: State, n: nat, i: nat, tok: Token, sig: Option<nat>)
    requires Inv(s, n, tok, sig) && i < n && s.ph[i].pc.Eat? && Enabled(s, i)
    ensures Globals(Step(s, n, i), NextToken(s, n, i, tok), NextSignaller(s, n, i, sig))
  {
    assert Ok(s, n, tok, sig, i);
  }

  lemma EatOwn(s: State, n: nat, i: nat, tok: Token, sig: Option<nat>, j: nat)
    requires Inv(s, n, tok, sig) && i < n && s.ph[i].pc.Eat? && Enabled(s, i) && j < n
    ensures Own(Step(s, n, i), NextToken(s, n, i, tok), NextSignaller(s, n, i, sig), j)
  {
    assert Ok(s, n, tok, sig, i);
    assert Ok(s, n, tok, sig, j);
  }

  lemma EatNear(s: State, n: nat, i: nat, tok: Token, sig: Option<nat>, j: nat)
    requires Inv(s, n, tok, sig) && i < n && s.ph[i].pc.Eat? && Enabled(s, i) && j < n
    ensures Near(Step(s, n, i), n, NextToken(s, n, i, tok), NextSignaller(s, n, i, sig), j)
  {
    assert Ok(s, n, tok, sig, i);
    assert Ok(s, n, tok, sig, j);
  }

  lemma EatStep(s: State, n: nat, i: nat, tok: Token, sig: Option<nat>)
    requires Inv(s, n, tok, sig) && i < n && s.ph[i].pc.Eat? && Enabled(s, i)
    ensures Inv(Step(s, n, i), n, NextToken(s, n, i, tok), NextSignaller(s, n, i, sig))
  {
    EatGlobals(s, n, i, tok, sig);
    forall j | 0 <= j < n ensures Ok(Step(s, n, i), n, NextToken(s, n, i, tok), NextSignaller(s, n, i, sig), j) {
      EatOwn(s, n, i, tok, sig, j);
      EatNear(s, n, i, tok, sig, j);
    }
  }

  lemma PutBlockedStep(s: State, n: nat, i: nat, tok: Token, sig: Option<nat>)
    requires Inv(s, n, tok, sig) && i < n && s.ph[i].pc.PutBlocked? && Enabled(s, i)
    ensures Inv(Step(s, n, i), n, NextToken(s, n, i, tok), NextSignaller(s, n, i, sig))
  {
    assert Ok(s, n, tok, sig, i);
    var s', tok', sig' := Step(s, n, i), NextToken(s, n, i, tok), NextSignaller(s, n, i, sig);
    forall j | 0 <= j < n ensures Ok(s', n, tok', sig', j) {
      assert Ok(s, n, tok, sig, j);
    }
  }

  lemma PutThinkStep(s: State, n: nat, i: nat, tok: Token, sig: Option<nat>)
    requires Inv(s, n, tok, sig) && i < n && s.ph[i].pc.PutThink? && Enabled(s, i)
    ensures Inv(Step(s, n, i), n, NextToken(s, n, i, tok), NextSignaller(s, n, i, sig))
  {
    assert Ok(s, n, tok, sig, i);
    var s', tok', sig' := Step(s, n, i), NextToken(s, n, i, tok), NextSignaller(s, n, i, sig);
    forall j | 0 <= j < n ensures Ok(s', n, tok', sig', j) {
      assert Ok(s, n, tok, sig, j);
    }
  }

  lemma PutLeaveOwn(s: State, n: nat, i: nat, tok: Token, sig: Option<nat>, j: nat)
    requires Inv(s, n, tok, sig) && i < n && s.ph[i].pc.PutLeave? && Enabled(s, i) && j < n
    ensures Own(Step(s, n, i), NextToken(s, n, i, tok), NextSignaller(s, n, i, sig), j)
  {
    assert Ok(s, n, tok, sig, i);
    assert s.mutex.queue != [] ==> s.mutex.queue[0] < n;
    assert Ok(s, n, tok, sig, j);
  }

  lemma PutLeaveNear(s: State, n: nat, i: nat, tok: Token, sig: Option<nat>, j: nat)
    requires Inv(s, n, tok, sig) && i < n && s.ph[i].pc.PutLeave? && Enabled(s, i) && j < n
    ensures Near(Step(s, n, i), n, NextToken(s, n, i, tok), NextSignaller(s, n, i, sig), j)
  {
    assert Ok(s, n, tok, sig, i);
    assert s.mutex.queue != [] ==> s.mutex.queue[0] < n;
    assert Ok(s, n, tok, sig, j);
  }

  lemma PutLeaveStep(s: State, n: nat, i: nat, tok: Token, sig: Option<nat>)
    requires Inv(s, n, tok, sig) && i < n && s.ph[i].pc.PutLeave? && Enabled(s, i)
    ensures Inv(Step(s, n, i), n, NextToken(s, n, i, tok), NextSignaller(s, n, i, sig))
  {
    assert Ok(s, n, tok, sig, i);
    assert s.mutex.queue != [] ==> s.mutex.queue[0] < n;
    forall j | 0 <= j < n ensures Ok(Step(s, n, i), n, NextToken(s, n, i, tok), NextSignaller(s, n, i, sig), j) {
      PutLeaveOwn(s, n, i, tok, sig, j);
      PutLeaveNear(s, n, i, tok, sig, j);
    }
  }

  // ----- all interleavings -----

  lemma InitialInv(n: nat, rounds: nat)
    requires n >= 2
    ensures Inv(Initial(n, rounds), n, Free, None)
  {}

  lemma StepInv(s: State, n: nat, i: nat, tok: Token, sig: Option<nat>)
    requires Inv(s, n, tok, sig) && i < n && Enabled(s, i)
    ensures Inv(Step(s, n, i), n, NextToken(s, n, i, tok), NextSignaller(s, n, i, sig))
  {
    match s.ph[i].pc
    case Think => ThinkStep(s, n, i, tok, sig);
    case TakeBlocked => TakeBlockedStep(s, n, i, tok, sig);
    case TakeHungry => TakeHungryStep(s, n, i, tok, sig);
    case Test(_) => TestStep(s, n, i, tok, sig);
    case Signal(_) => SignalStep(s, n, i, tok, sig);
    case SigUp(_) => SigUpStep(s, n, i, tok, sig);
    case SigDown(_) => SigDownStep(s, n, i, tok, sig);
    case SigWait(_) => SigWaitStep(s, n, i, tok, sig);
    case SigDec(_) => SigDecStep(s, n, i, tok, sig);
    case TakeCheck => TakeCheckStep(s, n, i, tok, sig);
    case CwInc => CwIncStep(s, n, i, tok, sig);
    case CwRelease => CwReleaseStep(s, n, i, tok, sig);
    case CwDown => CwDownStep(s, n, i, tok, sig);
    case CwWait => CwWaitStep(s, n, i, tok, sig);
    case CwDec => CwDecStep(s, n, i, tok, sig);
    case TakeLeave => TakeLeaveStep(s, n, i, tok, sig);
    case Eat => EatStep(s, n, i, tok, sig);
    case PutBlocked => PutBlockedStep(s, n, i, tok, sig);
    case PutThink => PutThinkStep(s, n, i, tok, sig);
    case PutLeave => PutLeaveStep(s, n, i, tok, sig);
    case Done =>
  }

  /** A schedule names the philosopher that takes each step; only enabled ones may. */
  predicate Runs(s: State, n: nat, schedule: seq<nat>)
    requires Shaped(s, n)
    decreases schedule
  {
    schedule == [] ||
    (schedule[0] < n && Enabled(s, schedule[0]) && Runs(Step(s, n, schedule[0]), n, schedule[1..]))
  }

  function Run(s: State, n: nat, schedule: seq<nat>): (s': State)
    requires Shaped(s, n) && Runs(s, n, schedule)
    ensures Shaped(s', n)
    decreases schedule
  {
    if schedule == [] then s else Run(Step(s, n, schedule[0]), n, schedule[1..])
  }

  lemma {:induction false} RunInv(s: State, n: nat, schedule: seq<nat>, tok: Token, sig: Option<nat>)
      returns (tok': Token, sig': Option<nat>)
    requires Inv(s, n, tok, sig) && Runs(s, n, schedule)
    ensures Inv(Run(s, n, schedule), n, tok', sig')
    decreases schedule
  {
    tok', sig' := tok, sig;
    if schedule != [] {
      var i := schedule[0];
      StepInv(s, n, i, tok, sig);
      tok', sig' := RunInv(Step(s, n, i), n, schedule[1..], NextToken(s, n, i, tok), NextSignaller(s, n, i, sig));
    }
  }

  /** A philosopher that has returned from taking the forks and not yet put them down. */
  predicate PastTaking(pc: Pc) { pc.Eat? || pc.PutBlocked? || pc.PutThink? }

  /** What holds in every state: one token, no two neighbours eating, whoever has taken forks eats,
      and while the monitor is free a hungry philosopher has an eating neighbour. */
  ghost predicate Safe(s: State, n: nat)
    requires Shaped(s, n)
  {
    (exists tok :: TokenAt(s, tok)) &&
    (forall i :: 0 <= i < n && s.ph[i].phase == Eating ==> s.ph[Right(i, n)].phase != Eating) &&
    (forall i :: 0 <= i < n && PastTaking(s.ph[i].pc) ==> s.ph[i].phase == Eating) &&
    (s.mutex.value > 0 ==> forall i :: 0 <= i < n && s.ph[i].phase == Hungry ==> NeighbourEats(s, n, i))
  }

  lemma InvSafe(s: State, n: nat, tok: Token, sig: Option<nat>)
    requires Inv(s, n, tok, sig)
    ensures Safe(s, n)
  {
    forall i | 0 <= i < n
      ensures TokenFits(s, tok, i)
      ensures s.ph[i].phase == Eating ==> s.ph[Right(i, n)].phase != Eating
      ensures PastTaking(s.ph[i].pc) ==> s.ph[i].phase == Eating
      ensures s.mutex.value > 0 && s.ph[i].phase == Hungry ==> NeighbourEats(s, n, i)
    {
      assert Ok(s, n, tok, sig, i);
    }
    assert TokenAt(s, tok);
  }

  lemma SafeAlways(n: nat, rounds: nat, schedule: seq<nat>)
    requires n >= 2 && Runs(Initial(n, rounds), n, schedule)
    ensures Safe(Run(Initial(n, rounds), n, schedule), n)
  {
    InitialInv(n, rounds);
    var tok, sig := RunInv(Initial(n, rounds), n, schedule, Free, None);
    InvSafe(Run(Initial(n, rounds), n, schedule), n, tok, sig);
  }

  /** The token cannot be in two places: mutual exclusion inside the monitor. */
  lemma TokenUnique(s: State, n: nat, a: Token, b: Token)
    requires Shaped(s, n) && TokenAt(s, a) && TokenAt(s, b)
    ensures a == b
  {
    assert a.InCv? || a.Held? ==> TokenFits(s, a, a.i) && TokenFits(s, b, a.i);
    assert b.InCv? || b.Held? ==> TokenFits(s, a, b.i) && TokenFits(s, b, b.i);
  }

  // ----- nobody is stuck -----

  predicate AllDone(s: State) { forall i :: 0 <= i < |s.ph| ==> s.ph[i].pc.Done? }

  /** Whoever has not finished, somebody who has not finished can take a step. */
  lemma SomebodyCanStep(s: State, n: nat, tok: Token, sig: Option<nat>) returns (i: nat)
    requires Inv(s, n, tok, sig) && !AllDone(s)
    ensures i < n && Enabled(s, i)
  {
    match tok
    case Held(j) =>
      i := j;
      assert Ok(s, n, tok, sig, i);
    case InCv(j) => i := j;
    case InNext =>
      i := sig.value;
      assert Ok(s, n, tok, sig, i);
    case Free =>
      i :| 0 <= i < n && !s.ph[i].pc.Done?;
      assert Ok(s, n, tok, sig, i);
      if !Enabled(s, i) { i := FreeCanStep(s, n, sig, i); }
  }

  /** With the monitor free, a sleeper waits for a neighbour that is outside, eating. */
  lemma FreeCanStep(s: State, n: nat, sig: Option<nat>, i: nat) returns (j: nat)
    requires Inv(s, n, Free, sig) && i < n && !s.ph[i].pc.Done? && !Enabled(s, i)
    ensures j < n && Enabled(s, j)
  {
    assert Ok(s, n, Free, sig, i);
    assert s.ph[i].pc.CwWait? && s.ph[i].phase == Hungry;
    j := if s.ph[Left(i, n)].phase == Eating then Left(i, n) else Right(i, n);
    assert Ok(s, n, Free, sig, j);
  }

  lemma NeverStuck(n: nat, rounds: nat, schedule: seq<nat>) returns (i: nat)
    requires n >= 2 && Runs(Initial(n, rounds), n, schedule)
    requires !AllDone(Run(Initial(n, rounds), n, schedule))
    ensures i < n && Enabled(Run(Initial(n, rounds), n, schedule), i)
  {
    InitialInv(n, rounds);
    var tok, sig := RunInv(Initial(n, rounds), n, schedule, Free, None);
    i := SomebodyCanStep(Run(Initial(n, rounds), n, schedule), n, tok, sig);
  }

  // ----- every run ends, with everybody fed -----

  /** Steps at most left in the current round. */
  function Ahead(pc: Pc): nat {
    match pc
    case Think => 40
    case TakeBlocked => 39
    case TakeHungry => 38
    case Test(site) => Base(site) + 6
    case Signal(site) => Base(site) + 5
    case SigUp(site) => Base(site) + 4
    case SigDown(site) => Base(site) + 3
    case SigWait(site) => Base(site) + 2
    case SigDec(site) => Base(site) + 1
    case TakeCheck => 31
    case CwInc => 30
    case CwRelease => 29
    case CwDown => 28
    case CwWait => 27
    case CwDec => 26
    case TakeLeave => 25
    case Eat => 24
    case PutBlocked => 23
    case PutThink => 22
    case PutLeave => 1
    case Done => 0
  }

  function Base(site: Site): nat { if site == Self then 31 else if site == ToLeft then 8 else 1 }

  function Work(p: Phil): nat { 41 * p.rounds + Ahead(p.pc) }

  function Works(ph: seq<Phil>): (w: seq<nat>)
    ensures |w| == |ph|
  {
    seq(|ph|, k requires 0 <= k < |ph| => Work(ph[k]))
  }

  /** Every step uses up some of a bounded amount of work. */
  lemma StepUsesWork(s: State, n: nat, i: nat)
    requires Shaped(s, n) && i < n && !s.ph[i].pc.Done? && s.ph[i].rounds > 0
    ensures Sum(Works(Step(s, n, i).ph)) < Sum(Works(s.ph))
  {
    StepUsesOwnWork(s, n, i);
    StepKeepsOthersWork(s, n, i);
    SumDrops(Works(s.ph), Works(Step(s, n, i).ph), i);
  }

  lemma StepUsesOwnWork(s: State, n: nat, i: nat)
    requires Shaped(s, n) && i < n && !s.ph[i].pc.Done? && s.ph[i].rounds > 0
    ensures Work(Step(s, n, i).ph[i]) < Work(s.ph[i])
  {}

  lemma StepKeepsOthersWork(s: State, n: nat, i: nat)
    requires Shaped(s, n) && i < n
    ensures forall j :: 0 <= j < n && j != i ==> Work(Step(s, n, i).ph[j]) == Work(s.ph[j])
  {
    forall j | 0 <= j < n && j != i
      ensures Step(s, n, i).ph[j].pc == s.ph[j].pc && Step(s, n, i).ph[j].rounds == s.ph[j].rounds
    {}
  }

  lemma {:induction false} RunUsesWork(s: State, n: nat, schedule: seq<nat>, tok: Token, sig: Option<nat>)
    requires Inv(s, n, tok, sig) && Runs(s, n, schedule)
    ensures |schedule| + Sum(Works(Run(s, n, schedule).ph)) <= Sum(Works(s.ph))
    decreases schedule
  {
    if schedule != [] {
      var i := schedule[0];
      assert Ok(s, n, tok, sig, i);
      StepUsesWork(s, n, i);
      StepInv(s, n, i, tok, sig);
      RunUsesWork(Step(s, n, i), n, schedule[1..], NextToken(s, n, i, tok), NextSignaller(s, n, i, sig));
    }
  }

  /** No schedule is longer than a fixed bound. */
  lemma EveryRunEnds(n: nat, rounds: nat, schedule: seq<nat>)
    requires n >= 2 && Runs(Initial(n, rounds), n, schedule)
    ensures |schedule| <= n * (41 * rounds + 40)
  {
    InitialInv(n, rounds);
    RunUsesWork(Initial(n, rounds), n, schedule, Free, None);
    SumAtMost(Works(Initial(n, rounds).ph), 41 * rounds + 40);
  }

  // ----- how often everybody eats -----

  /** How often philosopher i comes back from taking the forks during a run. */
  function Meals(s: State, n: nat, schedule: seq<nat>, i: nat): nat
    requires Shaped(s, n) && Runs(s, n, schedule) && i < n
    decreases schedule
  {
    if schedule == [] then 0 else
      var s' := Step(s, n, schedule[0]);
      (if !s.ph[i].pc.Eat? && s'.ph[i].pc.Eat? then 1 else 0) + Meals(s', n, schedule[1..], i)
  }

  /** The meals still to come: the rounds left, without the present one once its meal has begun. */
  function Owed(p: Phil): nat {
    if p.rounds > 0 && Ahead(p.pc) <= Ahead(Eat) then p.rounds - 1 else p.rounds
  }

  ghost predicate Served(p: Phil, p': Phil) {
    Owed(p) == Owed(p') + if !p.pc.Eat? && p'.pc.Eat? then 1 else 0
  }

  lemma StepServesOther(s: State, n: nat, k: nat, i: nat)
    requires Shaped(s, n) && k < n && i < n && i != k
    ensures Served(s.ph[i], Step(s, n, k).ph[i])
  {
    assert Step(s, n, k).ph[i].pc == s.ph[i].pc && Step(s, n, k).ph[i].rounds == s.ph[i].rounds;
  }

  predicate AtSite(pc: Pc) { pc.Test? || pc.Signal? || Signalling(pc) }

  lemma StepServesSite(s: State, n: nat, i: nat)
    requires Shaped(s, n) && i < n && AtSite(s.ph[i].pc) && s.ph[i].rounds > 0
    ensures Served(s.ph[i], Step(s, n, i).ph[i])
  {
    var p, p' := s.ph[i], Step(s, n, i).ph[i];
    assert p'.rounds == p.rounds && (p'.pc == After(p.pc.site) || (AtSite(p'.pc) && p'.pc.site == p.pc.site));
  }

  lemma StepServesOwn(s: State, n: nat, i: nat)
    requires Shaped(s, n) && i < n && !s.ph[i].pc.Done? && s.ph[i].rounds > 0
    ensures Served(s.ph[i], Step(s, n, i).ph[i])
  {
    if AtSite(s.ph[i].pc) { StepServesSite(s, n, i); } else { StepServesElsewhere(s, n, i); }
  }

  lemma StepServesElsewhere(s: State, n: nat, i: nat)
    requires Shaped(s, n) && i < n && !s.ph[i].pc.Done? && s.ph[i].rounds > 0 && !AtSite(s.ph[i].pc)
    ensures Served(s.ph[i], Step(s, n, i).ph[i])
  {}

  lemma StepServes(s: State, n: nat, k: nat, i: nat)
    requires Shaped(s, n) && k < n && i < n && !s.ph[k].pc.Done? && s.ph[k].rounds > 0
    ensures Served(s.ph[i], Step(s, n, k).ph[i])
  {
    if i == k { StepServesOwn(s, n, i); } else { StepServesOther(s, n, k, i); }
  }

  lemma {:induction false} RunServes(s: State, n: nat, schedule: seq<nat>, tok: Token, sig: Option<nat>, i: nat)
    requires Inv(s, n, tok, sig) && Runs(s, n, schedule) && i < n
    ensures Meals(s, n, schedule, i) + Owed(Run(s, n, schedule).ph[i]) == Owed(s.ph[i])
    decreases schedule
  {
    if schedule != [] {
      var k := schedule[0];
      assert Ok(s, n, tok, sig, k);
      StepServes(s, n, k, i);
      StepInv(s, n, k, tok, sig);
      RunServes(Step(s, n, k), n, schedule[1..], NextToken(s, n, k, tok), NextSignaller(s, n, k, sig), i);
    }
  }

  /** In every run, at any moment, nobody has eaten more often than there are rounds. */
  lemma NeverFedMore(n: nat, rounds: nat, schedule: seq<nat>, i: nat)
    requires n >= 2 && Runs(Initial(n, rounds), n, schedule) && i < n
    ensures Meals(Initial(n, rounds), n, schedule, i) <= rounds
  {
    InitialInv(n, rounds);
    RunServes(Initial(n, rounds), n, schedule, Free, None, i);
  }

  /** A run that cannot be continued has let every philosopher finish all rounds, and eat once in each;
      no fairness is assumed of the schedule. */
  lemma EveryRunFeedsAll(n: nat, rounds: nat, schedule: seq<nat>)
    requires n >= 2 && Runs(Initial(n, rounds), n, schedule)
    requires forall i :: 0 <= i < n ==> !Enabled(Run(Initial(n, rounds), n, schedule), i)
    ensures forall i :: 0 <= i < n ==> Run(Initial(n, rounds), n, schedule).ph[i].rounds == 0
    ensures forall i :: 0 <= i < n ==> Meals(Initial(n, rounds), n, schedule, i) == rounds
  {
    InitialInv(n, rounds);
    var tok, sig := RunInv(Initial(n, rounds), n, schedule, Free, None);
    var s := Run(Initial(n, rounds), n, schedule);
    EnabledUnlessDone(s, n, tok, sig);
    forall i | 0 <= i < n ensures s.ph[i].rounds == 0 && Meals(Initial(n, rounds), n, schedule, i) == rounds {
      assert Ok(s, n, tok, sig, i);
      RunServes(Initial(n, rounds), n, schedule, Free, None, i);
    }
  }

  lemma EnabledUnlessDone(s: State, n: nat, tok: Token, sig: Option<nat>)
    requires Inv(s, n, tok, sig)
    ensures AllDone(s) || exists i :: 0 <= i < n && Enabled(s, i)
  {
    if !AllDone(s) { var i := SomebodyCanStep(s, n, tok, sig); }
  }
}
