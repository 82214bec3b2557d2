/**
 The lock that guards one direction of an asynchronous socket, as the atomic
 steps of any number of agents. An operation is one agent from its `try_lock`
 to the return of its `unlock`; an interrupt is another agent. Every atomic
 access of the source is one step, so every interleaving is a run.
 */
module CancelableLock {
  type Agent = nat

  datatype LockState = Unlocked | Locked | Canceling

  /** Where an agent stands between two of its atomic accesses. */
  datatype Phase =
    | Idle
    | Acquired                 // `try_lock` won the exchange, `current` not yet counted up
    | Holding(ticket: nat)     // `try_lock` returned this ticket
    | Releasing(ticket: nat)   // `unlock` freed the lock, `current` not yet counted up
    | Checking(code: nat)      // `interrupt` took the lock to `canceling`
    | Matched(code: nat)       // `current == code` was read
    | Running(code: nat)       // the cancel callback runs
    | Restoring                // only the deferred store is left

  /** What a client of the lock can tell apart. */
  datatype Event = Issued(ticket: nat) | CancelBegin(ticket: nat) | CancelEnd(ticket: nat) | Freed(ticket: nat)

  datatype Shared = Shared(l: LockState, current: nat, phases: map<Agent, Phase>, issued: set<nat>, log: seq<Event>) {
    function Phase(a: Agent): Phase { if a in phases then phases[a] else Idle }

    function At(a: Agent, p: Phase): Shared { this.(phases := phases[a := p]) }

    function Count(): Shared { this.(current := current + 1) }

    function Say(e: Event): Shared { this.(log := log + [e]) }
  }

  const START := Shared(Unlocked, 0, map[], {}, [])

  datatype Step =
    | TryLock(a: Agent) | TakeTicket(a: Agent)
    | Unlock(a: Agent) | CountUnlock(a: Agent)
    | Interrupt(a: Agent, code: nat) | Check(a: Agent) | Cancel(a: Agent) | EndCancel(a: Agent) | Restore(a: Agent)

  /** An `unlock` is between its exchange and its count. */
  ghost predicate SomeoneReleasing(s: Shared) { exists a :: s.Phase(a).Releasing? }

  /** Such an `unlock` whose ticket is still the current one, because nobody cancelled it. */
  ghost predicate Exposed(s: Shared) { exists a :: s.Phase(a) == Releasing(s.current) }

  /**
   When a step can be taken. With `oneCall` no `try_lock` wins while a ticket is
   exposed; that is less than the source asks for, which is no `try_lock` before
   the `unlock` returned. Codes given to `interrupt` are tickets that `try_lock`
   has returned.
   */
  ghost predicate Enabled(s: Shared, step: Step, oneCall: bool) {
    match step
    case TryLock(a) => s.Phase(a).Idle? && (oneCall ==> !Exposed(s))
    case TakeTicket(a) => s.Phase(a).Acquired?
    case Unlock(a) => s.Phase(a).Holding?
    case CountUnlock(a) => s.Phase(a).Releasing?
    case Interrupt(a, code) => s.Phase(a).Idle? && code in s.issued
    case Check(a) => s.Phase(a).Checking?
    case Cancel(a) => s.Phase(a).Matched?
    case EndCancel(a) => s.Phase(a).Running?
    case Restore(a) => s.Phase(a).Restoring?
  }

  /**
   The effect of a step. A lost exchange leaves everything as it was: for
   `try_lock` and `interrupt` the call fails, for `unlock` it is tried again.
   */
  ghost function Take(s: Shared, step: Step, oneCall: bool): Shared
    requires Enabled(s, step, oneCall)
  {
    var a := step.a;
    match step
    case TryLock(_) => if s.l == Unlocked then s.(l := Locked).At(a, Acquired) else s
    case TakeTicket(_) =>
      var t := s.current + 1;
      s.Count().(issued := s.issued + {t}).At(a, Holding(t)).Say(Issued(t))
    case Unlock(_) =>
      var t := s.Phase(a).ticket;
      if s.l == Locked then s.(l := Unlocked).At(a, Releasing(t)).Say(Freed(t)) else s
    case CountUnlock(_) => s.Count().At(a, Idle)
    case Interrupt(_, code) => if s.l == Locked then s.(l := Canceling).At(a, Checking(code)) else s
    case Check(_) =>
      var code := s.Phase(a).code;
      s.At(a, if s.current == code then Matched(code) else Restoring)
    case Cancel(_) =>
      var code := s.Phase(a).code;
      s.Count().At(a, Running(code)).Say(CancelBegin(code))
    case EndCancel(_) =>
      var code := s.Phase(a).code;
      s.At(a, Restoring).Say(CancelEnd(code))
    case Restore(_) => s.(l := Locked).At(a, Idle)
  }

  ghost predicate Runs(s: Shared, steps: seq<Step>, oneCall: bool)
    decreases |steps|
  {
    steps == [] || (Enabled(s, steps[0], oneCall) && Runs(Take(s, steps[0], oneCall), steps[1..], oneCall))
  }

  ghost function After(s: Shared, steps: seq<Step>, oneCall: bool): Shared
    requires Runs(s, steps, oneCall)
    decreases |steps|
  {
    if steps == [] then s else After(Take(s, steps[0], oneCall), steps[1..], oneCall)
  }

  // ---------------------------------------------------------------------
  // What a run may look like from outside
  // ---------------------------------------------------------------------

  /** One operation at a time, its ticket new, cancelled at most once and only before it is freed. */
  datatype Session = Between(last: nat) | Open(ticket: nat) | InCancel(ticket: nat) | Cancelled(ticket: nat) | Broken

  function Follow(m: Session, e: Event): Session {
    match (m, e)
    case (Between(last), Issued(t)) => if last < t then Open(t) else Broken
    case (Open(t), CancelBegin(c)) => if t == c then InCancel(t) else Broken
    case (InCancel(t), CancelEnd(c)) => if t == c then Cancelled(t) else Broken
    case (Open(t), Freed(f)) => if t == f then Between(t) else Broken
    case (Cancelled(t), Freed(f)) => if t == f then Between(t) else Broken
    case _ => Broken
  }

  function Observe(log: seq<Event>): Session {
    if log == [] then Between(0) else Follow(Observe(log[..|log| - 1]), log[|log| - 1])
  }

  lemma ObserveSay(log: seq<Event>, e: Event)
    ensures Observe(log + [e]) == Follow(Observe(log), e)
  {
    assert (log + [e])[..|log|] == log;
  }

  // ---------------------------------------------------------------------
  // The invariant
  // ---------------------------------------------------------------------

  datatype Maybe = Nobody | Only(who: Agent)

  /** Who holds the lock and who interrupts it. */
  datatype Cast = Cast(owner: Maybe, interrupter: Maybe)

  predicate Owns(p: Phase) { p.Acquired? || p.Holding? }

  predicate Interrupts(p: Phase) { p.Checking? || p.Matched? || p.Running? || p.Restoring? }

  /** At most one agent is in each role, and the lock word says which roles are taken. */
  ghost predicate Roles(s: Shared, c: Cast) {
    && (forall a :: Owns(s.Phase(a)) <==> c.owner == Only(a))
    && (forall a :: Interrupts(s.Phase(a)) <==> c.interrupter == Only(a))
    && (s.l == Unlocked <==> c.owner.Nobody?)
    && (s.l == Canceling <==> c.interrupter.Only?)
  }

  ghost predicate Holds(s: Shared, c: Cast, t: nat) { c.owner.Only? && s.Phase(c.owner.who) == Holding(t) }

  /** How the counter stands to the tickets given out. */
  ghost predicate Tickets(s: Shared, c: Cast) {
    && (forall t | t in s.issued :: t <= s.current)
    && (forall a :: s.Phase(a).Releasing? ==> s.Phase(a).ticket in s.issued)
    && (Exposed(s) ==> c.owner.Nobody?)
    && (s.current in s.issued ==> Holds(s, c, s.current) || Exposed(s))
    && (c.owner.Only? && s.Phase(c.owner.who).Holding? ==> s.Phase(c.owner.who).ticket in s.issued)
    && (c.interrupter.Only? ==>
          match s.Phase(c.interrupter.who)
          case Checking(code) => code in s.issued
          case Matched(code) => Holds(s, c, code)
          case _ => true)
  }

  /** What the log says about who stands where. */
  ghost predicate Logged(s: Shared, c: Cast) {
    var m := Observe(s.log);
    var running := c.interrupter.Only? && s.Phase(c.interrupter.who).Running?;
    && (running ==> m == InCancel(s.Phase(c.interrupter.who).code))
    && (m.InCancel? ==> running)
    && (c.interrupter.Only? && s.Phase(c.interrupter.who).Matched? ==> m.Open?)
    && (m.InCancel? || m.Cancelled? ==> m.ticket < s.current)
    && (if c.owner.Only? && s.Phase(c.owner.who).Holding?
        then (m.Open? || m.InCancel? || m.Cancelled?) && m.ticket == s.Phase(c.owner.who).ticket
        else m.Between? && m.last <= s.current)
  }

  ghost predicate Safe(s: Shared, c: Cast) {
    Roles(s, c) && Tickets(s, c) && Logged(s, c)
  }

  /** The roles after a step. */
  ghost function Recast(s: Shared, c: Cast, step: Step): Cast {
    match step
    case TryLock(a) => if s.l == Unlocked then c.(owner := Only(a)) else c
    case Unlock(_) => if s.l == Locked then c.(owner := Nobody) else c
    case Interrupt(a, _) => if s.l == Locked then c.(interrupter := Only(a)) else c
    case Restore(_) => c.(interrupter := Nobody)
    case _ => c
  }

  lemma StepRoles(s: Shared, c: Cast, step: Step)
    requires Roles(s, c) && Enabled(s, step, true)
    ensures Roles(Take(s, step, true), Recast(s, c, step))
  {
    assert forall b :: b != step.a ==> Take(s, step, true).Phase(b) == s.Phase(b);
  }

  lemma StepTickets(s: Shared, c: Cast, step: Step)
    requires Safe(s, c) && Enabled(s, step, true)
    ensures Tickets(Take(s, step, true), Recast(s, c, step))
  {
    assert forall b :: b != step.a ==> Take(s, step, true).Phase(b) == s.Phase(b);
    var r := Take(s, step, true);
    if step.Unlock? { assert r.Phase(step.a) == Releasing(s.Phase(step.a).ticket) || r == s; }
    if b :| s.Phase(b) == Releasing(s.current) { assert b == step.a || r.Phase(b) == s.Phase(b); }
  }

  lemma StepLogged(s: Shared, c: Cast, step: Step)
    requires Safe(s, c) && Enabled(s, step, true)
    ensures Logged(Take(s, step, true), Recast(s, c, step))
  {
    hide Logged, Tickets, Roles, Take, Recast, Enabled, Safe;
    match step
    case TakeTicket(_) => OwnerLogged(s, c, step);
    case Unlock(_) => OwnerLogged(s, c, step);
    case Cancel(_) => CancelLogged(s, c, step);
    case EndCancel(_) => CancelLogged(s, c, step);
    case _ => QuietLogged(s, c, step);
  }

  lemma OwnerLogged(s: Shared, c: Cast, step: Step)
    requires Safe(s, c) && Enabled(s, step, true) && (step.TakeTicket? || step.Unlock?)
    ensures Logged(Take(s, step, true), Recast(s, c, step))
  {
    hide Observe, Exposed;
    assert c.owner == Only(step.a);
    if step.TakeTicket? { ObserveSay(s.log, Issued(s.current + 1)); } else { ObserveSay(s.log, Freed(s.Phase(step.a).ticket)); }
  }

  lemma CancelLogged(s: Shared, c: Cast, step: Step)
    requires Safe(s, c) && Enabled(s, step, true) && (step.Cancel? || step.EndCancel?)
    ensures Logged(Take(s, step, true), Recast(s, c, step))
  {
    hide Observe, Exposed;
    assert c.interrupter == Only(step.a);
    var code := s.Phase(step.a).code;
    if step.Cancel? { ObserveSay(s.log, CancelBegin(code)); } else { ObserveSay(s.log, CancelEnd(code)); }
  }

  /** The other steps add nothing to the log. */
  lemma QuietLogged(s: Shared, c: Cast, step: Step)
    requires Safe(s, c) && Enabled(s, step, true)
    requires step.TryLock? || step.CountUnlock? || step.Interrupt? || step.Check? || step.Restore?
    ensures Logged(Take(s, step, true), Recast(s, c, step))
  {
    hide Observe, Exposed;
    assert forall b :: b != step.a ==> Take(s, step, true).Phase(b) == s.Phase(b);
  }

  /** Every step of every interleaving keeps the invariant. */
  lemma {:induction false} RunSafe(s: Shared, c: Cast, steps: seq<Step>) returns (d: Cast)
    requires Safe(s, c) && Runs(s, steps, true)
    ensures Safe(After(s, steps, true), d)
    decreases |steps|
  {
    if steps == [] {
      d := c;
    } else {
      StepRoles(s, c, steps[0]);
      StepTickets(s, c, steps[0]);
      StepLogged(s, c, steps[0]);
      d := RunSafe(Take(s, steps[0], true), Recast(s, c, steps[0]), steps[1..]);
    }
  }

  // ---------------------------------------------------------------------
  // The guarantees
  // ---------------------------------------------------------------------

  ghost predicate Reached(s: Shared) {
    exists steps :: Runs(START, steps, true) && After(START, steps, true) == s
  }

  lemma ReachedSafe(s: Shared) returns (c: Cast)
    requires Reached(s)
    ensures Safe(s, c)
  {
    var steps :| Runs(START, steps, true) && After(START, steps, true) == s;
    c := RunSafe(START, Cast(Nobody, Nobody), steps);
  }

  /** Under the one-call rule the log of every run is a sequence of well-formed operations. */
  lemma CancelSafety(steps: seq<Step>)
    requires Runs(START, steps, true)
    ensures !Observe(After(START, steps, true).log).Broken?
  {
    var _ := RunSafe(START, Cast(Nobody, Nobody), steps);
  }

  /** A callback runs only while the operation with that ticket holds the lock, and its `unlock` cannot succeed. */
  lemma CancelWhileHolding(s: Shared, a: Agent) returns (holder: Agent)
    requires Reached(s) && s.Phase(a).Running?
    ensures s.Phase(holder) == Holding(s.Phase(a).code)
    ensures Take(s, Unlock(holder), true) == s
  {
    var c := ReachedSafe(s);
    assert c.interrupter == Only(a);
    holder := c.owner.who;
  }

  /** An `unlock` by the holder never meets `unlocked`, so it never returns its error. */
  lemma UnlockNeverFails(s: Shared, a: Agent)
    requires Reached(s) && s.Phase(a).Holding?
    ensures s.l != Unlocked
  {
    var c := ReachedSafe(s);
    assert c.owner == Only(a);
  }

  /** The retry loop of `unlock` is never stuck: whoever interrupts gives the lock back in at most four steps. */
  lemma InterruptEnds(s: Shared)
    requires Reached(s) && s.l == Canceling
    ensures exists steps :: |steps| <= 4 && Runs(s, steps, true) && After(s, steps, true).l == Locked
  {
    var c := ReachedSafe(s);
    var a := c.interrupter.who;
    assert Interrupts(s.Phase(a));
    var steps := GiveBack(s, a);
  }

  function StepsLeft(p: Phase): nat {
    match p case Checking(_) => 4 case Matched(_) => 3 case Running(_) => 2 case _ => 1
  }

  lemma {:induction false} GiveBack(s: Shared, a: Agent) returns (steps: seq<Step>)
    requires Interrupts(s.Phase(a))
    ensures |steps| <= StepsLeft(s.Phase(a)) && Runs(s, steps, true) && After(s, steps, true).l == Locked
    decreases StepsLeft(s.Phase(a))
  {
    var step :=
      match s.Phase(a)
      case Checking(_) => Check(a)
      case Matched(_) => Cancel(a)
      case Running(_) => EndCancel(a)
      case _ => Restore(a);
    var rest := [];
    if !step.Restore? {
      rest := GiveBack(Take(s, step, true), a);
    }
    steps := [step] + rest;
    assert steps[1..] == rest;
  }

  // ---------------------------------------------------------------------
  // What is done, not only what is not
  // ---------------------------------------------------------------------

  /** The steps of an `interrupt` that took the lock to `canceling`, when the code is the current ticket and when not. */
  function InterruptSteps(a: Agent, code: nat, hit: bool): seq<Step> {
    if hit then [Interrupt(a, code), Check(a), Cancel(a), EndCancel(a), Restore(a)]
    else [Interrupt(a, code), Check(a), Restore(a)]
  }

  /**
   An `interrupt` of a held lock runs the callback if and only if its code is the
   current ticket, which is then the holder's; either way the lock is held again
   afterwards and nobody else was touched.
   */
  lemma InterruptCancels(s: Shared, a: Agent, code: nat)
    requires Reached(s) && s.l == Locked && s.Phase(a).Idle? && code in s.issued
    ensures var hit := code == s.current;
            var steps := InterruptSteps(a, code, hit);
            && Runs(s, steps, true)
            && var r := After(s, steps, true);
               && r.log == s.log + (if hit then [CancelBegin(code), CancelEnd(code)] else [])
               && r.l == Locked && r.issued == s.issued && r.current == (if hit then s.current + 1 else s.current)
               && forall b :: r.Phase(b) == s.Phase(b)
    ensures code == s.current ==> exists holder :: s.Phase(holder) == Holding(code)
  {
    var c := ReachedSafe(s);
    if code == s.current {
      assert s.Phase(c.owner.who) == Holding(code);
      InterruptHits(s, a, code);
    } else {
      InterruptMisses(s, a, code);
    }
  }

  lemma InterruptHits(s: Shared, a: Agent, code: nat)
    requires s.l == Locked && s.Phase(a).Idle? && code in s.issued && code == s.current
    ensures var steps := InterruptSteps(a, code, true);
            && Runs(s, steps, true)
            && var r := After(s, steps, true);
               && r.log == s.log + [CancelBegin(code), CancelEnd(code)] && r.l == Locked && r.issued == s.issued
               && r.current == s.current + 1 && forall b :: r.Phase(b) == s.Phase(b)
  {
    var s1 := Take(s, Interrupt(a, code), true);
    var s2 := Take(s1, Check(a), true);
    var s3 := Take(s2, Cancel(a), true);
    var s4 := Take(s3, EndCancel(a), true);
    Prepend(s4, Restore(a), [], true);
    Prepend(s3, EndCancel(a), [Restore(a)], true);
    Prepend(s2, Cancel(a), [EndCancel(a), Restore(a)], true);
    Prepend(s1, Check(a), [Cancel(a), EndCancel(a), Restore(a)], true);
    Prepend(s, Interrupt(a, code), [Check(a), Cancel(a), EndCancel(a), Restore(a)], true);
  }

  lemma InterruptMisses(s: Shared, a: Agent, code: nat)
    requires s.l == Locked && s.Phase(a).Idle? && code in s.issued && code != s.current
    ensures var steps := InterruptSteps(a, code, false);
            && Runs(s, steps, true)
            && var r := After(s, steps, true);
               r.log == s.log && r.l == Locked && r.issued == s.issued && r.current == s.current && forall b :: r.Phase(b) == s.Phase(b)
  {
    var s1 := Take(s, Interrupt(a, code), true);
    var s2 := Take(s1, Check(a), true);
    Prepend(s2, Restore(a), [], true);
    Prepend(s1, Check(a), [Restore(a)], true);
    Prepend(s, Interrupt(a, code), [Check(a), Restore(a)], true);
  }

  /** An operation on a free lock takes it with a new ticket, and gives it back. */
  lemma OperationRuns(s: Shared, a: Agent)
    requires Reached(s) && s.l == Unlocked && s.Phase(a).Idle? && !Exposed(s)
    ensures var steps, t := [TryLock(a), TakeTicket(a), Unlock(a), CountUnlock(a)], s.current + 1;
            && Runs(s, steps, true) && t !in s.issued
            && var r := After(s, steps, true);
               && r.log == s.log + [Issued(t), Freed(t)] && r.l == Unlocked && r.issued == s.issued + {t}
               && r.current == t + 1 && forall b :: r.Phase(b) == s.Phase(b)
  {
    var c := ReachedSafe(s);
    var s1 := Take(s, TryLock(a), true);
    var s2 := Take(s1, TakeTicket(a), true);
    var s3 := Take(s2, Unlock(a), true);
    Prepend(s3, CountUnlock(a), [], true);
    Prepend(s2, Unlock(a), [CountUnlock(a)], true);
    Prepend(s1, TakeTicket(a), [Unlock(a), CountUnlock(a)], true);
    Prepend(s, TryLock(a), [TakeTicket(a), Unlock(a), CountUnlock(a)], true);
  }

  /** Calls that fail change nothing: a `try_lock` of a lock that is not free, an `interrupt` of one that is not held. */
  lemma FailedCalls(s: Shared, a: Agent, code: nat)
    requires s.Phase(a).Idle? && code in s.issued
    ensures s.l != Unlocked && !Exposed(s) ==> Take(s, TryLock(a), true) == s
    ensures s.l != Locked ==> Take(s, Interrupt(a, code), true) == s
  {
  }

  /** One agent holds a ticket, one interrupts, all others are out. */
  ghost predicate Alone(s: Shared, a: Agent, holder: Agent) {
    && s.l == Canceling && Interrupts(s.Phase(a)) && s.Phase(holder).Holding?
    && forall b :: b != a && b != holder ==> s.Phase(b).Idle?
  }

  /** The events that an interrupt in this phase has still to log. */
  function Pending(s: Shared, a: Agent): seq<Event> {
    match s.Phase(a)
    case Checking(code) => if s.current == code then [CancelBegin(code), CancelEnd(code)] else []
    case Matched(code) => [CancelBegin(code), CancelEnd(code)]
    case Running(code) => [CancelEnd(code)]
    case _ => []
  }

  lemma OthersWait(s: Shared, a: Agent, holder: Agent, step: Step)
    requires Alone(s, a, holder) && Enabled(s, step, true)
    ensures step.a != a ==> Take(s, step, true) == s
    ensures step.a == a && step != Restore(a) ==>
              var r := Take(s, step, true); Alone(r, a, holder) && s.log + Pending(s, a) == r.log + Pending(r, a)
    ensures step == Restore(a) ==> Pending(s, a) == [] && Take(s, step, true).log == s.log
  {
    assert forall b :: b != step.a ==> Take(s, step, true).Phase(b) == s.Phase(b);
  }

  /** Whatever the others try in between, an interrupt logs what it has to before it gives the lock back. */
  lemma {:induction false} InterruptUndisturbed(s: Shared, a: Agent, holder: Agent, steps: seq<Step>)
    requires Alone(s, a, holder) && Runs(s, steps, true)
    requires steps != [] && steps[|steps| - 1] == Restore(a) && forall i | 0 <= i < |steps| - 1 :: steps[i] != Restore(a)
    ensures After(s, steps, true).log == s.log + Pending(s, a)
    decreases |steps|
  {
    hide Take, Alone, Pending;
    var r := Take(s, steps[0], true);
    OthersWait(s, a, holder, steps[0]);
    if |steps| > 1 {
      InterruptUndisturbed(r, a, holder, steps[1..]);
    } else {
      assert steps[1..] == [];
    }
  }

  /**
   So in every interleaving from a reachable state in which nobody is between the two
   accesses of `unlock`: an `interrupt` that finds the lock held cancels the
   operation if and only if its code is the current ticket.
   */
  lemma InterruptAlwaysCancels(s: Shared, a: Agent, code: nat, holder: Agent, steps: seq<Step>)
    requires Reached(s) && s.l == Locked && s.Phase(a).Idle? && code in s.issued
    requires s.Phase(holder).Holding? && !SomeoneReleasing(s)
    requires var r := Take(s, Interrupt(a, code), true); Runs(r, steps, true)
    requires steps != [] && steps[|steps| - 1] == Restore(a) && forall i | 0 <= i < |steps| - 1 :: steps[i] != Restore(a)
    ensures After(Take(s, Interrupt(a, code), true), steps, true).log
         == s.log + (if code == s.current then [CancelBegin(code), CancelEnd(code)] else [])
  {
    var c := ReachedSafe(s);
    var r := Take(s, Interrupt(a, code), true);
    forall b | b != a && b != holder ensures r.Phase(b).Idle? {
      assert r.Phase(b) == s.Phase(b) && !s.Phase(b).Releasing?;
    }
    InterruptUndisturbed(r, a, holder, steps);
  }

  // What an unbroken log says, event by event.

  lemma {:induction false} BrokenStays(log: seq<Event>, i: nat)
    requires i <= |log| && !Observe(log).Broken?
    ensures !Observe(log[..i]).Broken?
  {
    if i < |log| {
      var front := log[..|log| - 1];
      BrokenStays(front, i);
      assert front[..i] == log[..i];
    } else {
      assert log[..i] == log;
    }
  }

  /** The operation with this ticket has been cancelled, or is over. */
  predicate Past(m: Session, t: nat) {
    match m
    case Between(last) => t <= last
    case Open(u) => t < u
    case InCancel(u) => t <= u
    case Cancelled(u) => t <= u
    case Broken => true
  }

  lemma {:induction false} PastStays(log: seq<Event>, i: nat, t: nat)
    requires i <= |log| && Past(Observe(log[..i]), t)
    ensures Past(Observe(log), t)
  {
    if i < |log| {
      var front := log[..|log| - 1];
      assert front[..i] == log[..i];
      PastStays(front, i, t);
    } else {
      assert log[..i] == log;
    }
  }

  lemma EventAt(log: seq<Event>, i: nat)
    requires i < |log| && !Observe(log).Broken?
    ensures !Observe(log[..i]).Broken? && !Observe(log[..i + 1]).Broken?
    ensures Observe(log[..i + 1]) == Follow(Observe(log[..i]), log[i])
  {
    BrokenStays(log, i);
    BrokenStays(log, i + 1);
    assert log[..i + 1] == log[..i] + [log[i]];
    ObserveSay(log[..i], log[i]);
  }

  /** Each ticket is cancelled at most once, and never after its operation was freed. */
  lemma CancelOnce(steps: seq<Step>, i: nat, j: nat)
    requires Runs(START, steps, true)
    requires var log := After(START, steps, true).log; i < j < |log| && log[j].CancelBegin?
    ensures var log := After(START, steps, true).log;
            log[i] != CancelBegin(log[j].ticket) && log[i] != Freed(log[j].ticket)
  {
    var log := After(START, steps, true).log;
    CancelSafety(steps);
    EventAt(log, i);
    EventAt(log, j);
    if log[i] == CancelBegin(log[j].ticket) || log[i] == Freed(log[j].ticket) {
      assert log[..j][..i + 1] == log[..i + 1];
      PastStays(log[..j], i + 1, log[j].ticket);
    }
  }

  // ---------------------------------------------------------------------
  // What the assumptions are for
  // ---------------------------------------------------------------------

  /**
   The rule is exact: in every reachable state with an exposed ticket, a
   `try_lock` that wins there lets that ticket cancel while the new operation
   holds the lock.
   */
  lemma RuleNeeded(s: Shared, former: Agent, next: Agent, other: Agent) returns (steps: seq<Step>)
    requires Reached(s) && s.Phase(former) == Releasing(s.current)
    requires s.Phase(next).Idle? && s.Phase(other).Idle? && next != other
    ensures steps != [] && steps[0] == TryLock(next) && Runs(s, steps, false)
    ensures var r := After(s, steps, false);
            r.Phase(other) == Running(s.current) && r.Phase(next).Acquired? && Observe(r.log).Broken?
  {
    var c := ReachedSafe(s);
    assert Exposed(s) && s.current in s.issued;
    var t := s.current;
    var s1 := Take(s, TryLock(next), false);
    var s2 := Take(s1, Interrupt(other, t), false);
    var s3 := Take(s2, Check(other), false);
    var s4 := Take(s3, Cancel(other), false);
    Prepend(s3, Cancel(other), [], false);
    Prepend(s2, Check(other), [Cancel(other)], false);
    Prepend(s1, Interrupt(other, t), [Check(other), Cancel(other)], false);
    Prepend(s, TryLock(next), [Interrupt(other, t), Check(other), Cancel(other)], false);
    steps := [TryLock(next), Interrupt(other, t), Check(other), Cancel(other)];
    ObserveSay(s.log, CancelBegin(t));
  }

  /** The rule of the source, no `try_lock` before the `unlock` returned, is enough. */
  lemma OneCallRule(s: Shared, a: Agent)
    requires s.Phase(a).Idle? && !SomeoneReleasing(s)
    ensures Enabled(s, TryLock(a), true)
  {
    assert forall b :: s.Phase(b) == Releasing(s.current) ==> s.Phase(b).Releasing?;
  }

  lemma Prepend(s: Shared, step: Step, rest: seq<Step>, oneCall: bool)
    requires Enabled(s, step, oneCall) && Runs(Take(s, step, oneCall), rest, oneCall)
    ensures Runs(s, [step] + rest, oneCall)
    ensures After(s, [step] + rest, oneCall) == After(Take(s, step, oneCall), rest, oneCall)
  {
    assert ([step] + rest)[1..] == rest;
  }

  /** Such a state and such a run: the first operation has freed the lock but not yet counted. */
  lemma RuleFails() returns (s: Shared, steps: seq<Step>)
    ensures var first := [TryLock(0), TakeTicket(0), Unlock(0)]; Runs(START, first, true) && After(START, first, true) == s
    ensures Exposed(s)
    ensures steps != [] && steps[0] == TryLock(1) && Runs(s, steps, false) && Observe(After(s, steps, false).log).Broken?
  {
    assert forall a :: START.Phase(a) == Idle;
    var s1 := Take(START, TryLock(0), true);
    var s2 := Take(s1, TakeTicket(0), true);
    s := Take(s2, Unlock(0), true);
    Prepend(s2, Unlock(0), [], true);
    Prepend(s1, TakeTicket(0), [Unlock(0)], true);
    Prepend(START, TryLock(0), [TakeTicket(0), Unlock(0)], true);
    assert [TryLock(0)] + [TakeTicket(0), Unlock(0)] == [TryLock(0), TakeTicket(0), Unlock(0)];
    assert s.Phase(0) == Releasing(1) && s.current == 1;
    steps := RuleNeeded(s, 0, 1, 2);
  }
}
