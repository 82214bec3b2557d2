/**
 Whole lives of a coroutine: any number of entries, suspensions and ends, with
 arbitrary work of the host and of the coroutine in between.
 */
module X64Life {
  import opened Common
  import opened X64
  import opened X64Machine
  import opened X64Coroutine
  import opened X64Switch

  /** A generated program and the coroutine's stack, from `base` up to the bottom. */
  datatype Place = Place(site: Site, base: nat, entry: word)

  /** How the coroutine continues when it is entered next. */
  datatype Cont = Begin | Again | Suspension(rsp: word, rbp: word, back: word)

  /** Who is running, and what the other side expects. */
  datatype Mode = OnHost(cont: Cont) | OnCoroutine(rsp: word, rbp: word, back: word)

  datatype World = World(m: Machine, mode: Mode)

  predicate Ready(p: Place, m: Machine) {
    Loaded(m, p.site, p.entry) && p.base + 64 <= p.site.bottom
  }

  /** A call made on a stack outside the coroutine's: its return address is on top. */
  predicate HostCall(p: Place, mem: seq<byte>, rsp: word) {
    InMemory(mem, rsp) && rsp + 8 < TWO64 && (rsp + 8 <= p.base || p.site.bottom <= rsp)
  }

  /** A call made on the coroutine's stack, above the slots. */
  predicate CoroutineCall(p: Place, rsp: word) {
    p.base + 8 <= rsp && rsp + 8 <= p.site.bottom - 40
  }

  function FrameOf(p: Place, cont: Cont): Frame
    requires Fits(p.site, p.entry)
  {
    var b, l := p.site.bottom, Linked(p.site, p.entry);
    match cont
    case Begin => Frame(b - 48, b - 48, l.initial)
    case Again => Frame(b - 40, b - 24, l.initial)
    case Suspension(rsp, rbp, _) => Frame(rsp, rbp, l.resume)
  }

  /** What holds between any two steps. */
  ghost predicate Inv(p: Place, w: World) {
    var mem := w.m.cpu.mem;
    && Ready(p, w.m)
    && match w.mode
       case OnHost(cont) =>
         && Parked(p.site, mem) == FrameOf(p, cont)
         && (cont.Suspension? ==> CoroutineCall(p, cont.rsp) && Read(mem, cont.rsp) == cont.back)
       case OnCoroutine(rsp, rbp, back) =>
         Hosted(p.site, mem, rsp, rbp) && HostCall(p, mem, rsp) && Read(mem, rsp) == back
  }

  // ---------------------------------------------------------------------
  // The steps
  // ---------------------------------------------------------------------

  predicate SameCode(m: Machine, n: Machine) {
    n.Valid() && n.origin == m.origin && n.code == m.code && |n.cpu.mem| == |m.cpu.mem|
  }

  /** The host may do anything but touch the coroutine's stack. */
  ghost predicate HostWork(p: Place, w: World, x: World) {
    && w.mode.OnHost? && x.mode == w.mode && SameCode(w.m, x.m)
    && p.base <= p.site.bottom <= |w.m.cpu.mem|
    && x.m.cpu.mem[p.base..p.site.bottom] == w.m.cpu.mem[p.base..p.site.bottom]
  }

  /** The coroutine may do anything but touch the reserved slots and the host's return address. */
  ghost predicate CoroutineWork(p: Place, w: World, x: World) {
    var mem, after := w.m.cpu.mem, x.m.cpu.mem;
    && w.mode.OnCoroutine? && x.mode == w.mode && SameCode(w.m, x.m)
    && 40 <= p.site.bottom <= |mem| && InMemory(mem, w.mode.rsp)
    && after[p.site.bottom - 40..p.site.bottom] == mem[p.site.bottom - 40..p.site.bottom]
    && after[w.mode.rsp..w.mode.rsp + 8] == mem[w.mode.rsp..w.mode.rsp + 8]
  }

  /** The bytes run by one entry: the prologue, then either the resume routine or the code that calls the trampoline. */
  function EntrySteps(cont: Cont): nat { if cont.Suspension? then 16 else 21 }

  ghost predicate Enters(p: Place, w: World, x: World) {
    && w.mode.OnHost? && w.m.Valid() && w.m.rip == p.entry
    && HostCall(p, w.m.cpu.mem, w.m.cpu.Get(RSP))
    && Run(w.m, EntrySteps(w.mode.cont)) == Some(x.m)
    && x.mode == OnCoroutine(w.m.cpu.Get(RSP), w.m.cpu.Get(RBP), Read(w.m.cpu.mem, w.m.cpu.Get(RSP)))
  }

  ghost predicate Suspends(p: Place, w: World, x: World) {
    && w.mode.OnCoroutine? && w.m.Valid() && p.site.Valid() && w.m.rip == p.entry + At(p.site, SUSPEND)
    && CoroutineCall(p, w.m.cpu.Get(RSP)) && InMemory(w.m.cpu.mem, w.m.cpu.Get(RSP))
    && Run(w.m, 15) == Some(x.m)
    && x.mode == OnHost(Suspension(w.m.cpu.Get(RSP), w.m.cpu.Get(RBP), Read(w.m.cpu.mem, w.m.cpu.Get(RSP))))
  }

  ghost predicate Ends(p: Place, w: World, x: World) {
    && w.mode.OnCoroutine? && w.m.Valid() && p.site.Valid() && w.m.rip == p.entry + At(p.site, FINISH)
    && Run(w.m, 16) == Some(x.m)
    && x.mode == OnHost(Again)
  }

  ghost predicate Next(p: Place, w: World, x: World) {
    HostWork(p, w, x) || CoroutineWork(p, w, x) || Enters(p, w, x) || Suspends(p, w, x) || Ends(p, w, x)
  }

  ghost predicate History(p: Place, run: seq<World>) {
    && (|run| > 0 ==> Inv(p, run[0]))
    && (forall i | 0 <= i && i + 1 < |run| :: Next(p, run[i], run[i + 1]))
  }

  // ---------------------------------------------------------------------
  // Each step
  // ---------------------------------------------------------------------

  lemma SameWord(a: seq<byte>, b: seq<byte>, lo: nat, hi: nat, at: int)
    requires |a| == |b| && lo <= hi <= |a| && a[lo..hi] == b[lo..hi] && lo <= at && at + 8 <= hi
    ensures Read(a, at) == Read(b, at)
  {
    hide Word;
    forall i | at <= i < at + 8 ensures a[i] == b[i] {
      assert a[i] == a[lo..hi][i - lo] && b[i] == b[lo..hi][i - lo];
    }
    assert a[at..at + 8] == b[at..at + 8];
  }

  lemma SameLoaded(m: Machine, n: Machine, s: Site, entry: word)
    requires Loaded(m, s, entry) && SameCode(m, n)
    ensures Loaded(n, s, entry)
  {
    hide Blocks, Assemble, Linked;
  }

  lemma HostWorkInv(p: Place, w: World, x: World)
    requires Inv(p, w) && HostWork(p, w, x)
    ensures Inv(p, x)
  {
    hide Read, Loaded, Linked, At;
    var a, b, lo, hi := w.m.cpu.mem, x.m.cpu.mem, p.base, p.site.bottom;
    SlotsThere(p, w.m);
    SameLoaded(w.m, x.m, p.site, p.entry);
    SameWord(a, b, lo, hi, hi - 8);
    SameWord(a, b, lo, hi, hi - 16);
    SameWord(a, b, lo, hi, hi - 24);
    if w.mode.cont.Suspension? { SameWord(a, b, lo, hi, w.mode.cont.rsp); }
  }

  lemma SlotsThere(p: Place, m: Machine)
    requires Ready(p, m)
    ensures m.Valid() && HasSlots(p.site, m.cpu.mem) && Fits(p.site, p.entry)
  {
  }

  lemma CoroutineWorkInv(p: Place, w: World, x: World)
    requires Inv(p, w) && CoroutineWork(p, w, x)
    ensures Inv(p, x)
  {
    hide Read, Loaded, Linked, At;
    var a, b, hi, rsp := w.m.cpu.mem, x.m.cpu.mem, p.site.bottom, w.mode.rsp;
    SlotsThere(p, w.m);
    SameLoaded(w.m, x.m, p.site, p.entry);
    SameWord(a, b, hi - 40, hi, hi - 32);
    SameWord(a, b, hi - 40, hi, hi - 40);
    SameWord(a, b, rsp, rsp + 8, rsp);
  }

  /** What the coroutine finds when it is entered. */
  ghost predicate Continued(p: Place, cont: Cont, argument: word, n: Machine)
    requires n.Valid() && Fits(p.site, p.entry)
  {
    match cont
    case Suspension(rsp, rbp, back) =>
      n.rip == back && n.cpu.Get(RSP) == rsp + 8 && n.cpu.Get(RBP) == rbp && n.cpu.Get(RAX) == argument
    case _ =>
      && n.rip == p.site.trampoline && n.cpu.Get(RAX) == p.site.trampoline
      && n.cpu.Get(RSP) == FrameOf(p, cont).rsp - 8 && n.cpu.Get(RBP) == FrameOf(p, cont).rbp
      && n.cpu.Get(Argument(p.site.abi)) == Linked(p.site, p.entry).suspend
      && n.cpu.Get(if p.site.abi == Windows then RDX else RSI) == argument
      && n.cpu.Get(if p.site.abi == Windows then R8 else RDX) == p.site.routine
      && n.cpu.Get(if p.site.abi == Windows then R9 else RCX) == p.site.bottom - 48
      && InMemory(n.cpu.mem, n.cpu.Get(RSP)) && Read(n.cpu.mem, n.cpu.Get(RSP)) == p.entry + At(p.site, FINISH)
  }

  lemma EnteredHost(p: Place, w: World)
    requires Inv(p, w) && w.mode.OnHost? && w.m.rip == p.entry
    requires HostCall(p, w.m.cpu.mem, w.m.cpu.Get(RSP))
    ensures Enterable(p.site, w.m.cpu.mem) && Run(w.m, 15) == Some(Entered(w.m, p.site))
    ensures var n, c := Entered(w.m, p.site), w.m.cpu;
            && Loaded(n, p.site, p.entry) && Hosted(p.site, n.cpu.mem, c.Get(RSP), c.Get(RBP))
            && Read(n.cpu.mem, c.Get(RSP)) == Read(c.mem, c.Get(RSP))
    ensures var n, cont := Entered(w.m, p.site), w.mode.cont;
            cont.Suspension? ==> InMemory(n.cpu.mem, cont.rsp) && Read(n.cpu.mem, cont.rsp) == cont.back
  {
    hide Read, Write, Run, Linked, At, Blocks, Assemble, EnteredMemory;
    var m, s, c := w.m, p.site, w.m.cpu;
    Enter(m, s, p.entry);
    EnteredSlots(s, c.mem, c.Get(RSP), c.Get(RBP));
    SameLoaded(m, Entered(m, s), s, p.entry);
  }

  lemma EnterSuspension(p: Place, w: World)
    requires Inv(p, w) && w.mode.OnHost? && w.mode.cont.Suspension? && w.m.rip == p.entry
    requires HostCall(p, w.m.cpu.mem, w.m.cpu.Get(RSP))
    ensures Run(w.m, 16).Some?
    ensures Continued(p, w.mode.cont, w.m.cpu.Get(Argument(p.site.abi)), Run(w.m, 16).value)
    ensures Inv(p, World(Run(w.m, 16).value,
                         OnCoroutine(w.m.cpu.Get(RSP), w.m.cpu.Get(RBP), Read(w.m.cpu.mem, w.m.cpu.Get(RSP)))))
  {
    hide Read, Write, Run, Linked, At, Blocks, Assemble, EnteredMemory, Loaded;
    SlotsThere(p, w.m);
    EnteredHost(p, w);
    var s, n := p.site, Entered(w.m, p.site);
    RunTwice(w.m, 15, 1);
    Resume(n, s, p.entry);
    SameLoaded(n, Run(n, 1).value, s, p.entry);
  }

  lemma EnterStart(p: Place, w: World)
    requires Inv(p, w) && w.mode.OnHost? && !w.mode.cont.Suspension? && w.m.rip == p.entry
    requires HostCall(p, w.m.cpu.mem, w.m.cpu.Get(RSP))
    ensures Run(w.m, 21).Some?
    ensures Continued(p, w.mode.cont, w.m.cpu.Get(Argument(p.site.abi)), Run(w.m, 21).value)
    ensures Inv(p, World(Run(w.m, 21).value,
                         OnCoroutine(w.m.cpu.Get(RSP), w.m.cpu.Get(RBP), Read(w.m.cpu.mem, w.m.cpu.Get(RSP)))))
  {
    hide Read, Write, Run, Linked, At, Blocks, Assemble, EnteredMemory, Loaded;
    SlotsThere(p, w.m);
    EnteredHost(p, w);
    var s, n := p.site, Entered(w.m, p.site);
    RunTwice(w.m, 15, 6);
    Start(n, s, p.entry);
    AtGrows(s, FINISH, 11);
    var at, finish: word := n.cpu.Get(RSP) - 8, p.entry + At(s, FINISH);
    ReadWritten(n.cpu.mem, at, finish);
    ReadElsewhere(n.cpu.mem, at, finish, s.bottom - 32);
    ReadElsewhere(n.cpu.mem, at, finish, s.bottom - 40);
    ReadElsewhere(n.cpu.mem, at, finish, w.m.cpu.Get(RSP));
    SameLoaded(n, Launched(n, s, p.entry), s, p.entry);
  }

  /** An entry never faults: the coroutine goes on where it was, with the new argument. */
  lemma EnterContinues(p: Place, w: World)
    requires Inv(p, w) && w.mode.OnHost? && w.m.rip == p.entry
    requires HostCall(p, w.m.cpu.mem, w.m.cpu.Get(RSP))
    ensures Run(w.m, EntrySteps(w.mode.cont)).Some?
    ensures Continued(p, w.mode.cont, w.m.cpu.Get(Argument(p.site.abi)), Run(w.m, EntrySteps(w.mode.cont)).value)
    ensures Inv(p, World(Run(w.m, EntrySteps(w.mode.cont)).value,
                         OnCoroutine(w.m.cpu.Get(RSP), w.m.cpu.Get(RBP), Read(w.m.cpu.mem, w.m.cpu.Get(RSP)))))
  {
    hide Read, Run, Inv, Continued, Loaded;
    if w.mode.cont.Suspension? { EnterSuspension(p, w); } else { EnterStart(p, w); }
  }

  /** A suspension returns from the host's call: its return address, its stack pointers, and RAX as far as the code sets it. */
  lemma SuspendReturns(p: Place, w: World)
    requires Inv(p, w) && w.mode.OnCoroutine? && w.m.rip == p.entry + At(p.site, SUSPEND)
    requires CoroutineCall(p, w.m.cpu.Get(RSP))
    ensures Run(w.m, 15).Some?
    ensures var n := Run(w.m, 15).value;
            && Returned(w.mode, n)
            && (n.cpu.Get(RAX) == w.m.cpu.Get(Argument(p.site.abi))
                <==> p.site.abi == Windows || w.m.cpu.Get(RAX) == w.m.cpu.Get(RDI))
            && Inv(p, World(n, OnHost(Suspension(w.m.cpu.Get(RSP), w.m.cpu.Get(RBP), Read(w.m.cpu.mem, w.m.cpu.Get(RSP))))))
  {
    hide Read, Write, Park, Run, Linked, At, Blocks, Assemble;
    var m, s, mode := w.m, p.site, w.mode;
    Suspend(m, s, p.entry, mode.rsp, mode.rbp);
    ParkParks(s, m.cpu.mem, Frame(m.cpu.Get(RSP), m.cpu.Get(RBP), Linked(s, p.entry).resume));
    SameLoaded(m, Suspended(m, s, p.entry, mode.rsp, mode.rbp), s, p.entry);
  }

  /** The host is back behind its call. */
  predicate Returned(mode: Mode, n: Machine)
    requires mode.OnCoroutine? && n.Valid()
  {
    n.rip == mode.back && n.cpu.Get(RSP) == mode.rsp + 8 && n.cpu.Get(RBP) == mode.rbp
  }

  /** The end of the routine returns from the host's call with the routine's result. */
  lemma EndReturns(p: Place, w: World)
    requires Inv(p, w) && w.mode.OnCoroutine? && w.m.rip == p.entry + At(p.site, FINISH)
    ensures Run(w.m, 16).Some?
    ensures var n := Run(w.m, 16).value;
            Returned(w.mode, n) && n.cpu.Get(RAX) == w.m.cpu.Get(RAX) && Inv(p, World(n, OnHost(Again)))
  {
    hide Read, Write, Park, Run, Linked, At, Blocks, Assemble;
    var m, s, mode := w.m, p.site, w.mode;
    Finish(m, s, p.entry, mode.rsp, mode.rbp);
    ParkParks(s, m.cpu.mem, Frame(s.bottom - 40, s.bottom - 24, Linked(s, p.entry).initial));
    SameLoaded(m, Finished(m, s, p.entry, mode.rsp, mode.rbp), s, p.entry);
  }

  // ---------------------------------------------------------------------
  // Whole lives
  // ---------------------------------------------------------------------

  lemma NextInv(p: Place, w: World, x: World)
    requires Inv(p, w) && Next(p, w, x)
    ensures Inv(p, x)
  {
    hide Read, Run, Inv, At, Loaded;
    if HostWork(p, w, x) {
      HostWorkInv(p, w, x);
    } else if CoroutineWork(p, w, x) {
      CoroutineWorkInv(p, w, x);
    } else if Enters(p, w, x) {
      EnterContinues(p, w);
    } else if Suspends(p, w, x) {
      SuspendReturns(p, w);
    } else {
      EndReturns(p, w);
    }
  }

  lemma {:induction false} HistoryInv(p: Place, run: seq<World>, i: nat)
    requires History(p, run) && i < |run|
    ensures Inv(p, run[i])
  {
    hide Inv, Next;
    if i > 0 {
      HistoryInv(p, run, i - 1);
      assert Next(p, run[i - 1], run[i - 1 + 1]);
      NextInv(p, run[i - 1], run[i]);
    }
  }

  lemma {:induction false} ModeStays(p: Place, run: seq<World>, i: nat, j: nat)
    requires History(p, run) && i <= j < |run|
    requires forall k | i <= k <= j :: run[k].mode.OnCoroutine? == run[i].mode.OnCoroutine?
    ensures run[j].mode == run[i].mode
    decreases j - i
  {
    if i < j {
      ModeStays(p, run, i, j - 1);
      assert Next(p, run[j - 1], run[j - 1 + 1]);
      assert run[j - 1].mode.OnCoroutine? == run[j].mode.OnCoroutine?;
    }
  }

  /**
   In every life, however the host's call of the entry at `i` comes back, at
   `j`, it comes back behind that call with the host's own stack pointers.
   */
  lemma EveryCallReturns(p: Place, run: seq<World>, i: nat, j: nat)
    requires History(p, run) && i < j && j + 1 < |run|
    requires run[i].mode.OnHost? && run[j + 1].mode.OnHost?
    requires forall k | i < k <= j :: run[k].mode.OnCoroutine?
    ensures run[i].m.Valid() && run[j + 1].m.Valid()
    ensures var call, back := run[i].m.cpu, run[j + 1].m;
            && InMemory(call.mem, call.Get(RSP)) && back.rip == Read(call.mem, call.Get(RSP))
            && back.cpu.Get(RSP) == call.Get(RSP) + 8 && back.cpu.Get(RBP) == call.Get(RBP)
  {
    hide Read, Run, Loaded, At;
    HistoryInv(p, run, i);
    HistoryInv(p, run, j);
    HistoryInv(p, run, j + 1);
    ModeStays(p, run, i + 1, j);
    assert Next(p, run[i], run[i + 1]);
    assert Next(p, run[j], run[j + 1]);
    assert run[i + 1].mode.OnCoroutine?;
    if Suspends(p, run[j], run[j + 1]) { SuspendReturns(p, run[j]); } else { EndReturns(p, run[j]); }
  }

  /**
   In every life, a suspension at `i` that is entered next at `j` comes back
   behind its call of the suspend routine, with the coroutine's own stack
   pointers and the argument of that entry in RAX.
   */
  lemma EverySuspensionResumes(p: Place, run: seq<World>, i: nat, j: nat)
    requires History(p, run) && i < j && j + 1 < |run|
    requires Suspends(p, run[i], run[i + 1]) && run[j + 1].mode.OnCoroutine?
    requires forall k | i < k <= j :: run[k].mode.OnHost?
    ensures run[i].m.Valid() && run[j].m.Valid() && run[j + 1].m.Valid()
    ensures var call, entry, back := run[i].m.cpu, run[j].m.cpu, run[j + 1].m;
            && InMemory(call.mem, call.Get(RSP)) && back.rip == Read(call.mem, call.Get(RSP))
            && back.cpu.Get(RSP) == call.Get(RSP) + 8 && back.cpu.Get(RBP) == call.Get(RBP)
            && back.cpu.Get(RAX) == entry.Get(Argument(p.site.abi))
  {
    hide Read, Run, Loaded, At;
    HistoryInv(p, run, j);
    HistoryInv(p, run, j + 1);
    ModeStays(p, run, i + 1, j);
    assert run[i + 1].mode.OnHost?;
    assert Next(p, run[j], run[j + 1]);
    EnterContinues(p, run[j]);
  }
}
