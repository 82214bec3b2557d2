/**
 Locking several mutexes at once without deadlock, as the steps of any number
 of threads over `n` mutexes. A thread blocks on one mutex while it holds none,
 tries the others in cyclic order, and on a refusal gives back what it took, in
 reverse order, before it blocks on the next one.
 */
module MultiLock {
  type Thread = nat

  datatype Owner = Free | By(thread: Thread)

  /** Where a thread is in `lock`, its critical section or the deferred release. */
  datatype Phase =
    | Outside
    | Blocking(start: nat)                // about to call the blocking `lock` of mutex `start`
    | Trying(start: nat, taken: nat)      // holds `taken` mutexes from `start` on, tries the next one
    | Unwinding(start: nat, taken: nat)   // a `try_lock` failed; the last of `taken` is given back next
    | Critical
    | Releasing(released: nat)            // the mutexes below `released` are already free

  datatype System = System(owners: seq<Owner>, phases: map<Thread, Phase>) {
    function Phase(t: Thread): Phase { if t in phases then phases[t] else Outside }

    function At(t: Thread, p: Phase): System { this.(phases := phases[t := p]) }

    function Own(i: nat, o: Owner): System
      requires i < |owners|
    {
      this.(owners := owners[i := o])
    }
  }

  /** The mutex `k` places after `start` in the cycle. */
  function Cycle(n: nat, start: nat, k: nat): (i: nat)
    requires start < n && k < n
    ensures i < n
  {
    if start + k < n then start + k else start + k - n
  }

  lemma CycleIsMod(n: nat, start: nat, k: nat)
    requires start < n && k < n
    ensures Cycle(n, start, k) == (start + k) % n
  {
  }

  /** How far after `start` mutex `i` comes. */
  function Place(n: nat, start: nat, i: nat): (k: nat)
    requires start < n && i < n
    ensures k < n && Cycle(n, start, k) == i
    ensures forall j | 0 <= j < n && Cycle(n, start, j) == i :: j == k
  {
    if start <= i then i - start else i + n - start
  }

  predicate PhaseOk(n: nat, p: Phase) {
    match p
    case Outside => true
    case Blocking(start) => start < n
    case Trying(start, taken) => start < n && 1 <= taken < n
    case Unwinding(start, taken) => start < n && 1 <= taken < n
    case Critical => true
    case Releasing(released) => released < n
  }

  /** Whether a thread in this phase holds mutex `i`. */
  predicate Holds(n: nat, p: Phase, i: nat)
    requires PhaseOk(n, p) && i < n
  {
    match p
    case Outside => false
    case Blocking(_) => false
    case Trying(start, taken) => Place(n, start, i) < taken
    case Unwinding(start, taken) => Place(n, start, i) < taken
    case Critical => true
    case Releasing(released) => released <= i
  }

  /** A mutex belongs to exactly the thread whose phase says so. */
  ghost predicate Valid(n: nat, s: System) {
    && n >= 2 && |s.owners| == n
    && (forall t :: PhaseOk(n, s.Phase(t)))
    && (forall t, i | 0 <= i < n :: s.owners[i] == By(t) <==> Holds(n, s.Phase(t), i))
  }

  function Start(n: nat): System { System(seq(n, _ => Free), map[]) }

  /** A thread can move unless it is in a blocking `lock` of a mutex that is taken. */
  predicate Blocked(s: System, t: Thread) {
    && s.Phase(t).Blocking?
    && s.Phase(t).start < |s.owners|
    && s.owners[s.Phase(t).start] != Free
  }

  /** One atomic step of thread `t`. */
  function Step(n: nat, s: System, t: Thread): System
    requires |s.owners| == n >= 2 && PhaseOk(n, s.Phase(t)) && !Blocked(s, t)
  {
    match s.Phase(t)
    case Outside => s.At(t, Blocking(0))
    case Blocking(start) => s.Own(start, By(t)).At(t, Trying(start, 1))
    case Trying(start, taken) =>
      var i := Cycle(n, start, taken);
      if s.owners[i] != Free then s.At(t, Unwinding(start, taken))
      else s.Own(i, By(t)).At(t, if taken + 1 == n then Critical else Trying(start, taken + 1))
    case Unwinding(start, taken) =>
      var i := Cycle(n, start, taken - 1);
      s.Own(i, Free).At(t, if taken == 1 then Blocking(Cycle(n, start, 1)) else Unwinding(start, taken - 1))
    case Critical => s.At(t, Releasing(0))
    case Releasing(released) =>
      s.Own(released, Free).At(t, if released + 1 == n then Outside else Releasing(released + 1))
  }

  ghost predicate Runs(n: nat, s: System, ts: seq<Thread>)
    decreases |ts|
  {
    |s.owners| == n >= 2
    && (ts == [] || (PhaseOk(n, s.Phase(ts[0])) && !Blocked(s, ts[0]) && Runs(n, Step(n, s, ts[0]), ts[1..])))
  }

  ghost function After(n: nat, s: System, ts: seq<Thread>): System
    requires Runs(n, s, ts)
    decreases |ts|
  {
    if ts == [] then s else After(n, Step(n, s, ts[0]), ts[1..])
  }

  // ---------------------------------------------------------------------
  // Every step keeps the bookkeeping
  // ---------------------------------------------------------------------

  lemma StepOwn(n: nat, s: System, t: Thread, i: nat)
    requires n >= 2 && |s.owners| == n && PhaseOk(n, s.Phase(t)) && !Blocked(s, t) && i < n
    requires s.owners[i] == By(t) <==> Holds(n, s.Phase(t), i)
    ensures PhaseOk(n, Step(n, s, t).Phase(t))
    ensures Step(n, s, t).owners[i] == By(t) <==> Holds(n, Step(n, s, t).Phase(t), i)
  {
    match s.Phase(t)
    case Blocking(start) => assert Place(n, start, start) == 0;
    case Trying(start, taken) => assert Cycle(n, start, Place(n, start, i)) == i;
    case Unwinding(start, taken) => assert Cycle(n, start, Place(n, start, i)) == i;
    case _ =>
  }

  lemma StepOther(n: nat, s: System, t: Thread, u: Thread, i: nat)
    requires Valid(n, s) && !Blocked(s, t) && i < n && u != t
    ensures Step(n, s, t).owners[i] == By(u) <==> s.owners[i] == By(u)
  {
    match s.Phase(t)
    case Unwinding(start, taken) =>
      var j := Cycle(n, start, taken - 1);
      assert Place(n, start, j) == taken - 1;
      assert s.owners[j] == By(t);
    case Releasing(released) => assert s.owners[released] == By(t);
    case _ =>
  }

  lemma StepValid(n: nat, s: System, t: Thread)
    requires Valid(n, s) && !Blocked(s, t)
    ensures Valid(n, Step(n, s, t))
  {
    var r := Step(n, s, t);
    StepOwn(n, s, t, 0);
    assert forall u :: u != t ==> r.Phase(u) == s.Phase(u);
    forall u, i | 0 <= i < n ensures r.owners[i] == By(u) <==> Holds(n, r.Phase(u), i) {
      if u == t { StepOwn(n, s, t, i); } else { StepOther(n, s, t, u, i); }
    }
  }

  lemma {:induction false} RunValid(n: nat, s: System, ts: seq<Thread>)
    requires Valid(n, s) && Runs(n, s, ts)
    ensures Valid(n, After(n, s, ts))
    decreases |ts|
  {
    if ts != [] {
      StepValid(n, s, ts[0]);
      RunValid(n, Step(n, s, ts[0]), ts[1..]);
    }
  }

  ghost predicate Reached(n: nat, s: System) {
    n >= 2 && |s.owners| == n && exists ts :: Runs(n, Start(n), ts) && After(n, Start(n), ts) == s
  }

  lemma ReachedValid(n: nat, s: System)
    requires Reached(n, s)
    ensures Valid(n, s)
  {
    var ts :| Runs(n, Start(n), ts) && After(n, Start(n), ts) == s;
    RunValid(n, Start(n), ts);
  }

  // ---------------------------------------------------------------------
  // The guarantees
  // ---------------------------------------------------------------------

  /** A thread whose `lock` returned owns every mutex, so no other thread is inside too. */
  lemma MutualExclusion(n: nat, s: System, t: Thread)
    requires Reached(n, s) && s.Phase(t).Critical?
    ensures forall i | 0 <= i < n :: s.owners[i] == By(t)
    ensures forall u :: s.Phase(u).Critical? ==> u == t
  {
    ReachedValid(n, s);
    forall u | s.Phase(u).Critical? ensures u == t {
      assert s.owners[0] == By(u) && s.owners[0] == By(t);
    }
  }

  /** A thread about to block, and one whose attempt failed or that released, holds nothing. */
  lemma BlocksEmptyHanded(n: nat, s: System, t: Thread, i: nat)
    requires Reached(n, s) && (s.Phase(t).Blocking? || s.Phase(t).Outside?) && i < n
    ensures s.owners[i] != By(t)
  {
    ReachedValid(n, s);
  }

  /** `try_lock` is never called on a mutex the thread already holds, and `unlock` only on one it does. */
  lemma NoSelfDeadlock(n: nat, s: System, t: Thread)
    requires Reached(n, s)
    ensures match s.Phase(t)
            case Trying(start, taken) => start < n && taken < n && s.owners[Cycle(n, start, taken)] != By(t)
            case Unwinding(start, taken) => start < n && 1 <= taken < n && s.owners[Cycle(n, start, taken - 1)] == By(t)
            case Releasing(released) => released < n && s.owners[released] == By(t)
            case _ => true
  {
    ReachedValid(n, s);
    assert PhaseOk(n, s.Phase(t));
    match s.Phase(t)
    case Trying(start, taken) => assert Place(n, start, Cycle(n, start, taken)) == taken;
    case Unwinding(start, taken) => assert Place(n, start, Cycle(n, start, taken - 1)) == taken - 1;
    case _ =>
  }

  /** In no reachable state is every unfinished thread blocked. */
  lemma NoDeadlock(n: nat, s: System, t: Thread) returns (u: Thread)
    requires Reached(n, s) && !s.Phase(t).Outside?
    ensures !s.Phase(u).Outside? && !Blocked(s, u)
  {
    ReachedValid(n, s);
    if Blocked(s, t) {
      var i := s.Phase(t).start;
      u := s.owners[i].thread;
      assert Holds(n, s.Phase(u), i);
    } else {
      u := t;
    }
  }

  /** The same thread `k` times. */
  function Alone(t: Thread, k: nat): (ts: seq<Thread>)
    ensures |ts| == k && forall i | 0 <= i < k :: ts[i] == t
  {
    seq(k, _ => t)
  }

  ghost predicate OnlyHolder(s: System, t: Thread) {
    forall i | 0 <= i < |s.owners| :: s.owners[i] == Free || s.owners[i] == By(t)
  }

  lemma {:induction false} SoloTrying(n: nat, s: System, t: Thread)
    requires Valid(n, s) && OnlyHolder(s, t) && s.Phase(t).Trying?
    ensures s.Phase(t).taken <= n
    ensures var ts := Alone(t, n - s.Phase(t).taken); Runs(n, s, ts) && After(n, s, ts).Phase(t).Critical?
    decreases n - s.Phase(t).taken
  {
    var start, taken := s.Phase(t).start, s.Phase(t).taken;
    var r, ts := Step(n, s, t), Alone(t, n - taken);
    assert Place(n, start, Cycle(n, start, taken)) == taken;
    assert s.owners[Cycle(n, start, taken)] != By(t);
    StepValid(n, s, t);
    assert ts[1..] == Alone(t, n - taken - 1);
    if taken + 1 < n {
      SoloTrying(n, r, t);
    } else {
      assert Runs(n, r, ts[1..]) && After(n, r, ts[1..]) == r;
    }
  }

  /** A thread about to block on a free mutex that runs alone, with nothing held by others, takes all mutexes in `n` steps. */
  lemma SoloLock(n: nat, s: System, t: Thread)
    requires Reached(n, s) && s.Phase(t).Blocking? && OnlyHolder(s, t)
    ensures Runs(n, s, Alone(t, n)) && After(n, s, Alone(t, n)).Phase(t).Critical?
  {
    ReachedValid(n, s);
    assert !Blocked(s, t) by { assert PhaseOk(n, s.Phase(t)); }
    StepValid(n, s, t);
    var r := Step(n, s, t);
    SoloTrying(n, r, t);
    assert Alone(t, n)[1..] == Alone(t, n - 1);
  }

  /** A thread whose `lock` returned and that goes on alone has given all mutexes back after `n + 1` steps. */
  lemma SoloUnlock(n: nat, s: System, t: Thread)
    requires Reached(n, s) && s.Phase(t).Critical?
    ensures Runs(n, s, Alone(t, n + 1))
    ensures var r := After(n, s, Alone(t, n + 1)); r.Phase(t).Outside? && |r.owners| == n && forall i | 0 <= i < n :: r.owners[i] == Free
  {
    ReachedValid(n, s);
    var r := Step(n, s, t);
    StepValid(n, s, t);
    assert forall i | 0 <= i < n :: s.owners[i] == By(t);
    SoloReleasing(n, r, t);
    assert Alone(t, n + 1)[1..] == Alone(t, n);
  }

  lemma {:induction false} SoloReleasing(n: nat, s: System, t: Thread)
    requires Valid(n, s) && s.Phase(t).Releasing? && forall i | 0 <= i < n :: s.owners[i] == By(t) || s.owners[i] == Free
    ensures s.Phase(t).released <= n
    ensures var ts := Alone(t, n - s.Phase(t).released);
            && Runs(n, s, ts)
            && var r := After(n, s, ts); r.Phase(t).Outside? && |r.owners| == n && forall i | 0 <= i < n :: r.owners[i] == Free
    decreases n - s.Phase(t).released
  {
    var k := s.Phase(t).released;
    assert PhaseOk(n, s.Phase(t));
    var r, ts := Step(n, s, t), Alone(t, n - k);
    StepValid(n, s, t);
    assert ts[1..] == Alone(t, n - k - 1);
    if k + 1 < n {
      SoloReleasing(n, r, t);
    } else {
      assert Runs(n, r, ts[1..]) && After(n, r, ts[1..]) == r;
      forall i | 0 <= i < n ensures r.owners[i] == Free { assert !Holds(n, r.Phase(t), i); }
    }
  }

  /** A thread that finds a mutex taken gives back what it holds, alone, and then waits for the next one in the circle. */
  lemma SoloRetry(n: nat, s: System, t: Thread)
    requires Reached(n, s) && s.Phase(t).Trying? && s.Phase(t).start < n && s.Phase(t).taken < n
    requires s.owners[Cycle(n, s.Phase(t).start, s.Phase(t).taken)] != Free
    ensures var start, taken := s.Phase(t).start, s.Phase(t).taken;
            && Runs(n, s, Alone(t, taken + 1))
            && After(n, s, Alone(t, taken + 1)).Phase(t) == Blocking(Cycle(n, start, 1))
  {
    ReachedValid(n, s);
    assert PhaseOk(n, s.Phase(t));
    var r, taken := Step(n, s, t), s.Phase(t).taken;
    StepValid(n, s, t);
    SoloUnwinding(n, r, t);
    assert Alone(t, taken + 1)[1..] == Alone(t, taken);
  }

  lemma {:induction false} SoloUnwinding(n: nat, s: System, t: Thread)
    requires Valid(n, s) && s.Phase(t).Unwinding?
    ensures s.Phase(t).start < n
    ensures var start, taken := s.Phase(t).start, s.Phase(t).taken;
            Runs(n, s, Alone(t, taken)) && After(n, s, Alone(t, taken)).Phase(t) == Blocking(Cycle(n, start, 1))
    decreases s.Phase(t).taken
  {
    var taken := s.Phase(t).taken;
    assert PhaseOk(n, s.Phase(t));
    var r, ts := Step(n, s, t), Alone(t, taken);
    StepValid(n, s, t);
    assert ts[1..] == Alone(t, taken - 1);
    if taken > 1 {
      SoloUnwinding(n, r, t);
    } else {
      assert Runs(n, r, ts[1..]) && After(n, r, ts[1..]) == r;
    }
  }
}
