/**
 Switching between a host and a coroutine: every entry and every suspension of
 the generated code, run as bytes on the machine.
 */
module X64Switch {
  import opened Common
  import opened X64
  import opened X64Machine
  import opened X64Coroutine

  // ---------------------------------------------------------------------
  // The layout
  // ---------------------------------------------------------------------

  /** The whole program, in the order it is written. */
  function Blocks(s: Site, l: Links): (b: seq<seq<Instr>>)
    requires s.Valid()
    ensures |b| == 11
  {
    [Prologue(s),
     TakeResult(s), SaveFrame(s, l.resume), Epilogue(s),
     [Ret],
     FirstArgument(s, l.suspend), Launch(s), [Call(RAX)],
     SaveIp(s, l.initial), ResetFrame(s), Epilogue(s)]
  }

  const UNLINKED := Links(0, 0, 0)

  /** Where block `k` starts, relative to the entry. */
  function At(s: Site, k: nat): nat
    requires s.Valid() && k <= 11
  {
    Offset(Blocks(s, UNLINKED), k)
  }

  const SUSPEND := 1
  const SAVE := 2
  const RESUME := 4
  const INITIAL := 5
  const FINISH := 8

  predicate Fits(s: Site, entry: word) { s.Valid() && entry + At(s, 11) < TWO64 }

  lemma AtGrows(s: Site, j: nat, k: nat)
    requires s.Valid() && j <= k <= 11
    ensures At(s, j) <= At(s, k)
    decreases k - j
  {
    hide Blocks;
    if j < k {
      AtGrows(s, j, k - 1);
      AssembleAround(Blocks(s, UNLINKED), k - 1);
    }
  }

  /** The addresses of a program whose entry is here. */
  function Linked(s: Site, entry: word): Links
    requires Fits(s, entry)
  {
    AtGrows(s, RESUME, 11);
    AtGrows(s, SUSPEND, 11);
    AtGrows(s, INITIAL, 11);
    Links(entry + At(s, RESUME), entry + At(s, SUSPEND), entry + At(s, INITIAL))
  }

  lemma LinksKeepShape(s: Site, l: Links, k: nat)
    requires s.Valid() && k < 11
    ensures SameShape(Blocks(s, l)[k], Blocks(s, UNLINKED)[k])
  {
  }

  lemma LinksKeepOffsets(s: Site, l: Links, k: nat)
    requires s.Valid() && k <= 11
    ensures Offset(Blocks(s, l), k) == At(s, k)
  {
    forall j | 0 <= j < 11 ensures SameShape(Blocks(s, l)[j], Blocks(s, UNLINKED)[j]) { LinksKeepShape(s, l, j); }
    SameOffsets(Blocks(s, l), Blocks(s, UNLINKED), k);
  }

  /** The linked program is in the machine's code, with its first byte at `entry`. */
  predicate Loaded(m: Machine, s: Site, entry: word) {
    && m.Valid() && Fits(s, entry) && HasSlots(s, m.cpu.mem)
    && m.origin <= entry && entry - m.origin + At(s, 11) <= |m.code|
    && m.code[entry - m.origin..entry - m.origin + At(s, 11)] == Assemble(Blocks(s, Linked(s, entry)))
  }

  lemma LoadedBlock(m: Machine, s: Site, entry: word, k: nat)
    requires Loaded(m, s, entry) && k < 11
    ensures CodeAt(m, entry + At(s, k), Blocks(s, Linked(s, entry))[k])
    ensures At(s, k + 1) == At(s, k) + |EncodeAll(Blocks(s, Linked(s, entry))[k])|
  {
    hide Blocks, Linked, EncodeAll, Assemble;
    var b := Blocks(s, Linked(s, entry));
    LinksKeepOffsets(s, Linked(s, entry), k);
    LinksKeepOffsets(s, Linked(s, entry), k + 1);
    LinksKeepOffsets(s, Linked(s, entry), 11);
    BlockBytes(b, k);
    var o := entry - m.origin;
    var all := m.code[o..o + At(s, 11)];
    assert m.code[o + At(s, k)..o + At(s, k + 1)] == all[At(s, k)..At(s, k + 1)];
  }

  // ---------------------------------------------------------------------
  // Entering
  // ---------------------------------------------------------------------

  /** A frame that can be entered: its stack is in memory and below the slots. */
  predicate Enterable(s: Site, mem: seq<byte>)
    requires HasSlots(s, mem)
  {
    8 <= Parked(s, mem).rsp <= s.bottom - 40
  }

  /** The memory after an entry: the host's stack pointers in their slots, and the way on pushed on the coroutine's stack. */
  function EnteredMemory(s: Site, mem: seq<byte>, rsp: word, rbp: word): (m: seq<byte>)
    requires HasSlots(s, mem) && Enterable(s, mem)
    ensures |m| == |mem|
  {
    var f := Parked(s, mem);
    Write(Write(Write(mem, s.bottom - 32, rsp), s.bottom - 40, rbp), f.rsp - 8, f.ip)
  }

  lemma EnteredSlots(s: Site, mem: seq<byte>, rsp: word, rbp: word)
    requires HasSlots(s, mem) && Enterable(s, mem)
    ensures var m := EnteredMemory(s, mem, rsp, rbp);
            Parked(s, m) == Parked(s, mem) && Hosted(s, m, rsp, rbp)
            && Read(m, Parked(s, mem).rsp - 8) == Parked(s, mem).ip
    ensures forall a | InMemory(mem, a) && (a + 8 <= s.bottom - 40 || s.bottom <= a)
                       && (a + 8 <= Parked(s, mem).rsp - 8 || Parked(s, mem).rsp <= a) ::
              Read(EnteredMemory(s, mem, rsp, rbp), a) == Read(mem, a)
  {
    hide Read, Write;
    var f, b := Parked(s, mem), s.bottom;
    var m1 := Write(mem, b - 32, rsp);
    var m2 := Write(m1, b - 40, rbp);
    ReadWritten(mem, b - 32, rsp);
    ReadWritten(m1, b - 40, rbp);
    ReadWritten(m2, f.rsp - 8, f.ip);
    ReadElsewhere(m1, b - 40, rbp, b - 32);
    ReadElsewhere(m2, f.rsp - 8, f.ip, b - 32);
    ReadElsewhere(m2, f.rsp - 8, f.ip, b - 40);
    forall a | InMemory(mem, a) && (a + 8 <= b - 40 || b - 24 <= a) && (a + 8 <= f.rsp - 8 || f.rsp <= a)
      ensures Read(EnteredMemory(s, mem, rsp, rbp), a) == Read(mem, a)
    {
      ReadElsewhere(mem, b - 32, rsp, a);
      ReadElsewhere(m1, b - 40, rbp, a);
      ReadElsewhere(m2, f.rsp - 8, f.ip, a);
    }
  }

  /** The machine after entering at the prologue. */
  function Entered(m: Machine, s: Site): (n: Machine)
    requires m.Valid() && HasSlots(s, m.cpu.mem) && Enterable(s, m.cpu.mem)
    ensures n.Valid() && n.origin == m.origin && n.code == m.code && HasSlots(s, n.cpu.mem)
  {
    var c, f := m.cpu, Parked(s, m.cpu.mem);
    m.(rip := f.ip,
       cpu := Cpu(c.regs[R10 := c.Get(RSP)][R9 := c.Get(RBP)][RAX := c.Get(Argument(s.abi))][RBP := f.rbp][RSP := f.rsp],
                  EnteredMemory(s, c.mem, c.Get(RSP), c.Get(RBP))))
  }

  /** Calling the entry continues the parked frame, with the argument in RAX and the host's stack pointers kept. */
  lemma Enter(m: Machine, s: Site, entry: word)
    requires Loaded(m, s, entry) && Enterable(s, m.cpu.mem) && m.rip == entry
    ensures Run(m, 15) == Some(Entered(m, s))
  {
    hide Read, Write, Acts, CodeAt, Run, EncodeAll, Blocks, SaveHost, LoadFrame;
    var c, f := m.cpu, Parked(s, m.cpu.mem);
    EntryBlock(m, s, entry);
    SaveHostActs(s, c);
    var d := Acts(SaveHost(s), c).value;
    EntrySlots(s, c);
    LoadFrameActs(s, d);
    ActsConcat(SaveHost(s), LoadFrame(s), c);
    RunReturn(m, SaveHost(s) + LoadFrame(s));
    EnteredSlots(s, c.mem, c.Get(RSP), c.Get(RBP));
    SizesOfPrologue(s);
    var e := Acts(SaveHost(s) + LoadFrame(s), c).value;
    assert e.Set(RSP, f.rsp).regs == Entered(m, s).cpu.regs;
  }

  lemma SizesOfPrologue(s: Site)
    requires s.Valid()
    ensures |SaveHost(s)| == 6 && |LoadFrame(s)| == 8
  {
  }

  lemma EntryBlock(m: Machine, s: Site, entry: word)
    requires Loaded(m, s, entry)
    ensures CodeAt(m, entry, SaveHost(s) + LoadFrame(s) + [Ret])
  {
    hide EncodeAll, SaveHost, LoadFrame, Linked, CodeAt;
    LoadedBlock(m, s, entry, 0);
    assert At(s, 0) == 0;
  }

  /** Saving the host does not disturb the parked frame. */
  lemma EntrySlots(s: Site, c: Cpu)
    requires c.Valid() && HasSlots(s, c.mem)
    ensures Parked(s, Write(Write(c.mem, s.bottom - 32, c.Get(RSP)), s.bottom - 40, c.Get(RBP))) == Parked(s, c.mem)
  {
    hide Read, Write;
    var m1 := Write(c.mem, s.bottom - 32, c.Get(RSP));
    forall a | a in [s.bottom - 8, s.bottom - 16, s.bottom - 24]
      ensures Read(Write(m1, s.bottom - 40, c.Get(RBP)), a) == Read(c.mem, a)
    {
      ReadElsewhere(c.mem, s.bottom - 32, c.Get(RSP), a);
      ReadElsewhere(m1, s.bottom - 40, c.Get(RBP), a);
    }
    var list := [s.bottom - 8, s.bottom - 16, s.bottom - 24];
    assert list[0] in list && list[1] in list && list[2] in list;
  }

  // ---------------------------------------------------------------------
  // Suspending
  // ---------------------------------------------------------------------

  /** The host can be returned to: its return address is in memory and not in the slots of the frame. */
  predicate Returnable(s: Site, mem: seq<byte>, rsp: word)
    requires HasSlots(s, mem)
  {
    InMemory(mem, rsp) && rsp + 8 < TWO64 && (rsp + 8 <= s.bottom - 24 || s.bottom <= rsp)
  }

  function ResultTaken(s: Site, c: Cpu): (regs: seq<word>)
    requires c.Valid()
    ensures |regs| == 16
  {
    if s.abi == Windows then c.regs[RAX := c.Get(RCX)] else c.regs[RDI := 0]
  }

  /** The machine after the suspend routine, for a host with these stack pointers. */
  function Suspended(m: Machine, s: Site, entry: word, rsp: word, rbp: word): (n: Machine)
    requires Loaded(m, s, entry) && Returnable(s, m.cpu.mem, rsp)
    ensures n.Valid() && n.origin == m.origin && n.code == m.code && HasSlots(s, n.cpu.mem)
  {
    var c, ip := m.cpu, Linked(s, entry).resume;
    m.(rip := Read(c.mem, rsp),
       cpu := Cpu(ResultTaken(s, c)[R8 := s.bottom - 24][R9 := rbp][R10 := rsp][RBP := rbp][RSP := rsp + 8],
                  Park(s, c.mem, Frame(c.Get(RSP), c.Get(RBP), ip))))
  }

  lemma SuspendBlock(m: Machine, s: Site, entry: word)
    requires Loaded(m, s, entry)
    ensures CodeAt(m, entry + At(s, SUSPEND), TakeResult(s) + SaveFrame(s, Linked(s, entry).resume) + LoadHost(s) + [Ret])
  {
    hide EncodeAll, TakeResult, SaveFrame, LoadHost, Linked, CodeAt;
    LoadedBlock(m, s, entry, 1);
    LoadedBlock(m, s, entry, 2);
    LoadedBlock(m, s, entry, 3);
    var save := SaveFrame(s, Linked(s, entry).resume);
    CodeJoin(m, entry + At(s, 1), TakeResult(s), save);
    EncodeAllConcat(TakeResult(s), save);
    CodeJoin(m, entry + At(s, 1), TakeResult(s) + save, Epilogue(s));
    assert TakeResult(s) + save + (LoadHost(s) + [Ret]) == TakeResult(s) + save + LoadHost(s) + [Ret];
  }

  lemma SuspendActs(s: Site, ip: word, c: Cpu, rsp: word, rbp: word)
    requires c.Valid() && HasSlots(s, c.mem) && Hosted(s, c.mem, rsp, rbp)
    ensures Straight(TakeResult(s) + SaveFrame(s, ip) + LoadHost(s))
    ensures Acts(TakeResult(s) + SaveFrame(s, ip) + LoadHost(s), c)
         == Some(Cpu(ResultTaken(s, c)[R8 := s.bottom - 24][R9 := rbp][R10 := rsp][RBP := rbp][RSP := rsp],
                     Park(s, c.mem, Frame(c.Get(RSP), c.Get(RBP), ip))))
  {
    hide Read, Write, Park, Acts, TakeResult, SaveFrame, LoadHost;
    TakeResultActs(s, c);
    var c1 := Acts(TakeResult(s), c).value;
    SaveFrameActs(s, ip, c1);
    var c2 := Acts(SaveFrame(s, ip), c1).value;
    ParkParks(s, c.mem, Frame(c.Get(RSP), c.Get(RBP), ip));
    LoadHostActs(s, c2, rsp, rbp);
    ActsConcat(TakeResult(s), SaveFrame(s, ip), c);
    ActsConcat(TakeResult(s) + SaveFrame(s, ip), LoadHost(s), c);
    assert Acts(LoadHost(s), c2).value.regs
        == c1.regs[R8 := s.bottom - 24][R9 := rbp][R10 := rsp][RBP := rbp][RSP := rsp];
  }

  /** Calling the suspend routine returns from the host's call of the entry and parks the caller's frame. */
  lemma Suspend(m: Machine, s: Site, entry: word, rsp: word, rbp: word)
    requires Loaded(m, s, entry) && m.rip == entry + At(s, SUSPEND)
    requires Hosted(s, m.cpu.mem, rsp, rbp) && Returnable(s, m.cpu.mem, rsp)
    ensures Run(m, 15) == Some(Suspended(m, s, entry, rsp, rbp))
  {
    hide Read, Write, Park, Acts, CodeAt, Run, EncodeAll, Blocks, TakeResult, SaveFrame, LoadHost, Linked;
    var ip := Linked(s, entry).resume;
    SuspendBlock(m, s, entry);
    SuspendActs(s, ip, m.cpu, rsp, rbp);
    ParkParks(s, m.cpu.mem, Frame(m.cpu.Get(RSP), m.cpu.Get(RBP), ip));
    RunReturn(m, TakeResult(s) + SaveFrame(s, ip) + LoadHost(s));
    SizesOfSuspend(s, ip);
    var e := Acts(TakeResult(s) + SaveFrame(s, ip) + LoadHost(s), m.cpu).value;
    assert e.Set(RSP, rsp + 8).regs == Suspended(m, s, entry, rsp, rbp).cpu.regs;
  }

  lemma SizesOfSuspend(s: Site, ip: word)
    requires s.Valid()
    ensures |TakeResult(s)| == 1 && |SaveFrame(s, ip)| == 7 && |LoadHost(s)| == 6
  {
  }

  /** The suspended coroutine's call of the suspend routine returns. */
  lemma Resume(m: Machine, s: Site, entry: word)
    requires Loaded(m, s, entry) && m.rip == Linked(s, entry).resume
    requires InMemory(m.cpu.mem, m.cpu.Get(RSP)) && m.cpu.Get(RSP) + 8 < TWO64
    ensures Run(m, 1)
         == Some(m.(cpu := m.cpu.Set(RSP, m.cpu.Get(RSP) + 8), rip := Read(m.cpu.mem, m.cpu.Get(RSP))))
  {
    hide Read, Step, EncodeAll;
    LoadedBlock(m, s, entry, RESUME);
    StepReturn(m);
    assert Run(Step(m).value, 0) == Step(m);
  }

  // ---------------------------------------------------------------------
  // Starting and finishing
  // ---------------------------------------------------------------------

  /** The machine after the code at the initial address: the trampoline is called with its four arguments. */
  function Launched(m: Machine, s: Site, entry: word): (n: Machine)
    requires Loaded(m, s, entry) && InMemory(m.cpu.mem, m.cpu.Get(RSP) - 8)
    ensures n.Valid() && n.origin == m.origin && n.code == m.code && HasSlots(s, n.cpu.mem)
  {
    AtGrows(s, FINISH, 11);
    var c := m.cpu;
    var args := if s.abi == Windows
                then c.regs[RCX := Linked(s, entry).suspend][RDX := c.Get(RAX)][R8 := s.routine][R9 := s.bottom - 48]
                else c.regs[RDI := Linked(s, entry).suspend][RSI := c.Get(RAX)][RDX := s.routine][RCX := s.bottom - 48];
    m.(rip := s.trampoline,
       cpu := Cpu(args[RAX := s.trampoline][RSP := c.Get(RSP) - 8],
                  Write(c.mem, c.Get(RSP) - 8, entry + At(s, FINISH))))
  }

  lemma LaunchActs(s: Site, suspend: word, c: Cpu)
    requires c.Valid() && s.Valid()
    ensures Straight(FirstArgument(s, suspend) + Launch(s))
    ensures var args := if s.abi == Windows
                        then c.regs[RCX := suspend][RDX := c.Get(RAX)][R8 := s.routine][R9 := s.bottom - 48]
                        else c.regs[RDI := suspend][RSI := c.Get(RAX)][RDX := s.routine][RCX := s.bottom - 48];
            Acts(FirstArgument(s, suspend) + Launch(s), c) == Some(Cpu(args[RAX := s.trampoline], c.mem))
  {
    hide Acts;
    var windows := s.abi == Windows;
    var c1 := c.Set(if windows then RCX else RDI, suspend);
    var c2 := c1.Set(if windows then RDX else RSI, c.Get(RAX));
    var c3 := c2.Set(if windows then R8 else RDX, s.routine);
    var c4 := c3.Set(if windows then R9 else RCX, s.bottom - 48);
    var c5 := c4.Set(RAX, s.trampoline);
    TraceActs(FirstArgument(s, suspend) + Launch(s), [c, c1, c2, c3, c4, c5]);
  }

  lemma LaunchBlock(m: Machine, s: Site, entry: word)
    requires Loaded(m, s, entry)
    ensures CodeAt(m, entry + At(s, INITIAL), FirstArgument(s, Linked(s, entry).suspend) + Launch(s) + [Call(RAX)])
    ensures At(s, FINISH) == At(s, INITIAL) + |EncodeAll(FirstArgument(s, Linked(s, entry).suspend) + Launch(s) + [Call(RAX)])|
  {
    hide EncodeAll, FirstArgument, Launch, Linked, CodeAt;
    LoadedBlock(m, s, entry, 5);
    LoadedBlock(m, s, entry, 6);
    LoadedBlock(m, s, entry, 7);
    var first := FirstArgument(s, Linked(s, entry).suspend);
    CodeJoin(m, entry + At(s, 5), first, Launch(s));
    EncodeAllConcat(first, Launch(s));
    CodeJoin(m, entry + At(s, 5), first + Launch(s), [Call(RAX)]);
    EncodeAllConcat(first + Launch(s), [Call(RAX)]);
  }

  lemma Start(m: Machine, s: Site, entry: word)
    requires Loaded(m, s, entry) && m.rip == Linked(s, entry).initial
    requires InMemory(m.cpu.mem, m.cpu.Get(RSP) - 8)
    ensures Run(m, 6) == Some(Launched(m, s, entry))
  {
    hide Read, Write, Acts, EncodeAll, Blocks, FirstArgument, Launch, CodeAt, Run;
    var suspend := Linked(s, entry).suspend;
    LaunchBlock(m, s, entry);
    LaunchActs(s, suspend, m.cpu);
    assert |FirstArgument(s, suspend) + Launch(s)| == 5 by { SizesOfLaunch(s, suspend); }
    RunCall(m, FirstArgument(s, suspend) + Launch(s), RAX);
    var e := Acts(FirstArgument(s, suspend) + Launch(s), m.cpu).value;
    assert e.Set(RSP, m.cpu.Get(RSP) - 8).regs == Launched(m, s, entry).cpu.regs;
  }

  lemma SizesOfLaunch(s: Site, suspend: word)
    requires s.Valid()
    ensures |FirstArgument(s, suspend)| == 1 && |Launch(s)| == 4
  {
  }

  /** The machine after the code behind the call: the result is in RAX and the next entry starts anew. */
  function Finished(m: Machine, s: Site, entry: word, rsp: word, rbp: word): (n: Machine)
    requires Loaded(m, s, entry) && Returnable(s, m.cpu.mem, rsp)
    ensures n.Valid() && n.origin == m.origin && n.code == m.code && HasSlots(s, n.cpu.mem)
  {
    var c := m.cpu;
    m.(rip := Read(c.mem, rsp),
       cpu := Cpu(c.regs[R8 := s.bottom - 24][R9 := rbp][R10 := rsp][RBP := rbp][RSP := rsp + 8],
                  Park(s, c.mem, Frame(s.bottom - 40, s.bottom - 24, Linked(s, entry).initial))))
  }

  lemma FinishActs(s: Site, ip: word, c: Cpu, rsp: word, rbp: word)
    requires c.Valid() && HasSlots(s, c.mem) && Hosted(s, c.mem, rsp, rbp)
    ensures Straight(SaveIp(s, ip) + ResetFrame(s) + LoadHost(s))
    ensures Acts(SaveIp(s, ip) + ResetFrame(s) + LoadHost(s), c)
         == Some(Cpu(c.regs[R8 := s.bottom - 24][R9 := rbp][R10 := rsp][RBP := rbp][RSP := rsp],
                     Park(s, c.mem, Frame(s.bottom - 40, s.bottom - 24, ip))))
  {
    hide Read, Write, Acts, SaveIp, ResetFrame, LoadHost;
    SaveIpActs(s, ip, c);
    var c1 := Acts(SaveIp(s, ip), c).value;
    ResetFrameActs(s, c1);
    var c2 := Acts(ResetFrame(s), c1).value;
    ParkParks(s, c.mem, Frame(s.bottom - 40, s.bottom - 24, ip));
    LoadHostActs(s, c2, rsp, rbp);
    ActsConcat(SaveIp(s, ip), ResetFrame(s), c);
    ActsConcat(SaveIp(s, ip) + ResetFrame(s), LoadHost(s), c);
    assert Acts(LoadHost(s), c2).value.regs
        == c.regs[R8 := s.bottom - 24][R9 := rbp][R10 := rsp][RBP := rbp][RSP := rsp];
  }

  lemma FinishBlock(m: Machine, s: Site, entry: word)
    requires Loaded(m, s, entry)
    ensures CodeAt(m, entry + At(s, FINISH), SaveIp(s, Linked(s, entry).initial) + ResetFrame(s) + LoadHost(s) + [Ret])
  {
    hide EncodeAll, SaveIp, ResetFrame, LoadHost, Linked, CodeAt;
    LoadedBlock(m, s, entry, 8);
    LoadedBlock(m, s, entry, 9);
    LoadedBlock(m, s, entry, 10);
    var save := SaveIp(s, Linked(s, entry).initial);
    CodeJoin(m, entry + At(s, 8), save, ResetFrame(s));
    EncodeAllConcat(save, ResetFrame(s));
    CodeJoin(m, entry + At(s, 8), save + ResetFrame(s), Epilogue(s));
    assert save + ResetFrame(s) + (LoadHost(s) + [Ret]) == save + ResetFrame(s) + LoadHost(s) + [Ret];
  }

  lemma Finish(m: Machine, s: Site, entry: word, rsp: word, rbp: word)
    requires Loaded(m, s, entry) && m.rip == entry + At(s, FINISH)
    requires Hosted(s, m.cpu.mem, rsp, rbp) && Returnable(s, m.cpu.mem, rsp)
    ensures Run(m, 16) == Some(Finished(m, s, entry, rsp, rbp))
  {
    hide Read, Write, Park, Acts, CodeAt, Run, EncodeAll, Blocks, SaveIp, ResetFrame, LoadHost, Linked;
    var ip := Linked(s, entry).initial;
    FinishBlock(m, s, entry);
    FinishActs(s, ip, m.cpu, rsp, rbp);
    ParkParks(s, m.cpu.mem, Frame(s.bottom - 40, s.bottom - 24, ip));
    SizesOfFinish(s, ip);
    RunReturn(m, SaveIp(s, ip) + ResetFrame(s) + LoadHost(s));
    var e := Acts(SaveIp(s, ip) + ResetFrame(s) + LoadHost(s), m.cpu).value;
    assert e.Set(RSP, rsp + 8).regs == Finished(m, s, entry, rsp, rbp).cpu.regs;
  }

  lemma SizesOfFinish(s: Site, ip: word)
    requires s.Valid()
    ensures |SaveIp(s, ip)| == 3 && |ResetFrame(s)| == 6 && |LoadHost(s)| == 6
  {
  }
}
