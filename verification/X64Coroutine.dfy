/**
 The stack-switching code of a coroutine: what the prologue, the suspend
 routine and the epilogue do to a machine that runs their bytes.
 */
module X64Coroutine {
  import opened Common
  import opened X64
  import opened X64Machine

  datatype Abi = Windows | Linux

  /** The register of the first argument. */
  function Argument(abi: Abi): Register { if abi == Windows then RCX else RDI }

  /** Where the coroutine's stack ends, and the two functions it calls. */
  datatype Site = Site(abi: Abi, bottom: word, routine: word, trampoline: word) {
    predicate Valid() { bottom >= 56 }
  }

  /** The addresses that depend on where the code is put. */
  datatype Links = Links(resume: word, suspend: word, initial: word)

  // ---------------------------------------------------------------------
  // The generated instructions
  // ---------------------------------------------------------------------

  function SaveHost(s: Site): seq<Instr>
    requires s.Valid()
  {
    [Move(RSP, R10), Move(RBP, R9), Imm(RSP, s.bottom - 24), Imm(RBP, s.bottom - 24), Push(R10), Push(R9)]
  }

  function LoadStack(s: Site): seq<Instr>
    requires s.Valid()
  {
    [Imm(RSP, s.bottom - 24), Load(RSP, RSP), Imm(RBP, s.bottom - 16), Load(RBP, RBP)]
  }

  function LoadIp(s: Site): seq<Instr>
    requires s.Valid()
  {
    [Imm(RAX, s.bottom - 8), Load(RAX, RAX), Push(RAX), Move(Argument(s.abi), RAX)]
  }

  function LoadFrame(s: Site): seq<Instr>
    requires s.Valid()
  {
    LoadStack(s) + LoadIp(s)
  }

  function Prologue(s: Site): seq<Instr>
    requires s.Valid()
  {
    SaveHost(s) + LoadFrame(s) + [Ret]
  }

  function SaveIp(s: Site, ip: word): seq<Instr>
    requires s.Valid()
  {
    [Imm(R9, ip), Imm(R8, s.bottom - 8), Store(R9, R8)]
  }

  function SaveFrame(s: Site, ip: word): seq<Instr>
    requires s.Valid()
  {
    SaveIp(s, ip) + [Imm(R8, s.bottom - 16), Store(RBP, R8), Imm(R8, s.bottom - 24), Store(RSP, R8)]
  }

  function LoadHost(s: Site): seq<Instr>
    requires s.Valid()
  {
    [Imm(RSP, s.bottom - 40), Imm(RBP, s.bottom - 24), Pop(R9), Pop(R10), Move(R9, RBP), Move(R10, RSP)]
  }

  function Epilogue(s: Site): seq<Instr>
    requires s.Valid()
  {
    LoadHost(s) + [Ret]
  }

  /** Off Windows the generator loads the number of RAX, which is 0, into RDI. */
  function TakeResult(s: Site): seq<Instr> {
    if s.abi == Windows then [Move(RCX, RAX)] else [Imm(RDI, 0)]
  }

  function ResetFrame(s: Site): seq<Instr>
    requires s.Valid()
  {
    [Imm(R8, s.bottom - 16), Imm(R9, s.bottom - 24), Store(R9, R8),
     Imm(R8, s.bottom - 24), Imm(R9, s.bottom - 40), Store(R9, R8)]
  }

  function FirstArgument(s: Site, suspend: word): seq<Instr> { [Imm(Argument(s.abi), suspend)] }

  function Launch(s: Site): seq<Instr>
    requires s.Valid()
  {
    (if s.abi == Windows then [Move(RAX, RDX), Imm(R8, s.routine), Imm(R9, s.bottom - 48)]
     else [Move(RAX, RSI), Imm(RDX, s.routine), Imm(RCX, s.bottom - 48)])
    + [Imm(RAX, s.trampoline)]
  }

  // ---------------------------------------------------------------------
  // What they do
  // ---------------------------------------------------------------------

  /** A parked execution: where it continues and with which stack. */
  datatype Frame = Frame(rsp: word, rbp: word, ip: word)

  predicate HasSlots(s: Site, mem: seq<byte>) { s.Valid() && s.bottom <= |mem| }

  /** The coroutine's frame, in the lowest three slots of its stack. */
  function Parked(s: Site, mem: seq<byte>): Frame
    requires HasSlots(s, mem)
  {
    Frame(Read(mem, s.bottom - 24), Read(mem, s.bottom - 16), Read(mem, s.bottom - 8))
  }

  /** The host's stack pointers, in the two slots above. */
  predicate Hosted(s: Site, mem: seq<byte>, rsp: word, rbp: word)
    requires HasSlots(s, mem)
  {
    Read(mem, s.bottom - 32) == rsp && Read(mem, s.bottom - 40) == rbp
  }

  lemma SaveHostActs(s: Site, c: Cpu)
    requires c.Valid() && HasSlots(s, c.mem)
    ensures Straight(SaveHost(s))
    ensures Acts(SaveHost(s), c)
         == Some(Cpu(c.regs[R10 := c.Get(RSP)][R9 := c.Get(RBP)][RBP := s.bottom - 24][RSP := s.bottom - 40],
                     Write(Write(c.mem, s.bottom - 32, c.Get(RSP)), s.bottom - 40, c.Get(RBP))))
  {
    hide Read, Write, Acts;
    var c1 := c.Set(R10, c.Get(RSP));
    var c2 := c1.Set(R9, c.Get(RBP));
    var c3 := c2.Set(RSP, s.bottom - 24);
    var c4 := c3.Set(RBP, s.bottom - 24);
    var c5 := c4.Set(RSP, s.bottom - 32).(mem := Write(c.mem, s.bottom - 32, c.Get(RSP)));
    var c6 := c5.Set(RSP, s.bottom - 40).(mem := Write(c5.mem, s.bottom - 40, c.Get(RBP)));
    TraceActs(SaveHost(s), [c, c1, c2, c3, c4, c5, c6]);
    assert c6.regs == c.regs[R10 := c.Get(RSP)][R9 := c.Get(RBP)][RBP := s.bottom - 24][RSP := s.bottom - 40];
  }

  lemma LoadStackActs(s: Site, c: Cpu)
    requires c.Valid() && HasSlots(s, c.mem)
    ensures Straight(LoadStack(s))
    ensures var f := Parked(s, c.mem); Acts(LoadStack(s), c) == Some(c.(regs := c.regs[RSP := f.rsp][RBP := f.rbp]))
  {
    hide Read, Acts;
    var f := Parked(s, c.mem);
    var c1 := c.Set(RSP, s.bottom - 24);
    var c2 := c1.Set(RSP, f.rsp);
    var c3 := c2.Set(RBP, s.bottom - 16);
    var c4 := c3.Set(RBP, f.rbp);
    TraceActs(LoadStack(s), [c, c1, c2, c3, c4]);
    assert c4.regs == c.regs[RSP := f.rsp][RBP := f.rbp];
  }

  lemma LoadIpActs(s: Site, c: Cpu)
    requires c.Valid() && HasSlots(s, c.mem) && InMemory(c.mem, c.Get(RSP) - 8)
    ensures Straight(LoadIp(s))
    ensures Acts(LoadIp(s), c)
         == Some(Cpu(c.regs[RSP := c.Get(RSP) - 8][RAX := c.Get(Argument(s.abi))], Write(c.mem, c.Get(RSP) - 8, Parked(s, c.mem).ip)))
  {
    hide Read, Write, Acts;
    var ip, sp := Parked(s, c.mem).ip, c.Get(RSP) - 8;
    var c1 := c.Set(RAX, s.bottom - 8);
    var c2 := c1.Set(RAX, ip);
    var c3 := c2.Set(RSP, sp).(mem := Write(c.mem, sp, ip));
    var c4 := c3.Set(RAX, c3.Get(Argument(s.abi)));
    TraceActs(LoadIp(s), [c, c1, c2, c3, c4]);
    assert c4.regs == c.regs[RSP := sp][RAX := c.Get(Argument(s.abi))];
  }

  lemma LoadFrameActs(s: Site, c: Cpu)
    requires c.Valid() && HasSlots(s, c.mem)
    requires 8 <= Parked(s, c.mem).rsp <= |c.mem|
    ensures Straight(LoadFrame(s))
    ensures var f := Parked(s, c.mem);
            Acts(LoadFrame(s), c) == Some(Cpu(c.regs[RSP := f.rsp - 8][RBP := f.rbp][RAX := c.Get(Argument(s.abi))],
                                              Write(c.mem, f.rsp - 8, f.ip)))
  {
    hide Read, Write, Acts, LoadStack, LoadIp;
    var f := Parked(s, c.mem);
    LoadStackActs(s, c);
    var d := Acts(LoadStack(s), c).value;
    LoadIpActs(s, d);
    ActsConcat(LoadStack(s), LoadIp(s), c);
    assert Acts(LoadIp(s), d).value.regs == c.regs[RSP := f.rsp - 8][RBP := f.rbp][RAX := c.Get(Argument(s.abi))];
  }

  lemma TakeResultActs(s: Site, c: Cpu)
    requires c.Valid()
    ensures Straight(TakeResult(s))
    ensures Acts(TakeResult(s), c)
         == Some(if s.abi == Windows then c.Set(RAX, c.Get(RCX)) else c.Set(RDI, 0))
  {
    hide Acts;
    TraceActs(TakeResult(s), [c, if s.abi == Windows then c.Set(RAX, c.Get(RCX)) else c.Set(RDI, 0)]);
  }

  lemma SaveIpActs(s: Site, ip: word, c: Cpu)
    requires c.Valid() && HasSlots(s, c.mem)
    ensures Straight(SaveIp(s, ip))
    ensures Acts(SaveIp(s, ip), c)
         == Some(Cpu(c.regs[R9 := ip][R8 := s.bottom - 8], Write(c.mem, s.bottom - 8, ip)))
  {
    hide Write, Acts;
    var c1 := c.Set(R9, ip);
    var c2 := c1.Set(R8, s.bottom - 8);
    TraceActs(SaveIp(s, ip), [c, c1, c2, c2.(mem := Write(c.mem, s.bottom - 8, ip))]);
  }

  /** The memory with the three slots of the frame filled. */
  function Park(s: Site, mem: seq<byte>, f: Frame): (m: seq<byte>)
    requires HasSlots(s, mem)
    ensures |m| == |mem|
  {
    Write(Write(Write(mem, s.bottom - 8, f.ip), s.bottom - 16, f.rbp), s.bottom - 24, f.rsp)
  }

  lemma ParkParks(s: Site, mem: seq<byte>, f: Frame)
    requires HasSlots(s, mem)
    ensures Parked(s, Park(s, mem, f)) == f
    ensures forall a | InMemory(mem, a) && (a + 8 <= s.bottom - 24 || s.bottom <= a) :: Read(Park(s, mem, f), a) == Read(mem, a)
  {
    hide Read, Write;
    var m1 := Write(mem, s.bottom - 8, f.ip);
    var m2 := Write(m1, s.bottom - 16, f.rbp);
    ReadWritten(mem, s.bottom - 8, f.ip);
    ReadWritten(m1, s.bottom - 16, f.rbp);
    ReadWritten(m2, s.bottom - 24, f.rsp);
    ReadElsewhere(m1, s.bottom - 16, f.rbp, s.bottom - 8);
    ReadElsewhere(m2, s.bottom - 24, f.rsp, s.bottom - 8);
    ReadElsewhere(m2, s.bottom - 24, f.rsp, s.bottom - 16);
    forall a | InMemory(mem, a) && (a + 8 <= s.bottom - 24 || s.bottom <= a)
      ensures Read(Park(s, mem, f), a) == Read(mem, a)
    {
      ReadElsewhere(mem, s.bottom - 8, f.ip, a);
      ReadElsewhere(m1, s.bottom - 16, f.rbp, a);
      ReadElsewhere(m2, s.bottom - 24, f.rsp, a);
    }
  }

  lemma SaveFrameActs(s: Site, ip: word, c: Cpu)
    requires c.Valid() && HasSlots(s, c.mem)
    ensures Straight(SaveFrame(s, ip))
    ensures Acts(SaveFrame(s, ip), c)
         == Some(Cpu(c.regs[R9 := ip][R8 := s.bottom - 24], Park(s, c.mem, Frame(c.Get(RSP), c.Get(RBP), ip))))
  {
    hide Write, Acts;
    SaveIpActs(s, ip, c);
    var rest := [Imm(R8, s.bottom - 16), Store(RBP, R8), Imm(R8, s.bottom - 24), Store(RSP, R8)];
    var c1 := Acts(SaveIp(s, ip), c).value;
    var c2 := c1.Set(R8, s.bottom - 16);
    var c3 := c2.(mem := Write(c1.mem, s.bottom - 16, c.Get(RBP)));
    var c4 := c3.Set(R8, s.bottom - 24);
    var c5 := c4.(mem := Write(c3.mem, s.bottom - 24, c.Get(RSP)));
    TraceActs(rest, [c1, c2, c3, c4, c5]);
    ActsConcat(SaveIp(s, ip), rest, c);
    assert c5.regs == c.regs[R9 := ip][R8 := s.bottom - 24];
  }

  lemma LoadHostActs(s: Site, c: Cpu, rsp: word, rbp: word)
    requires c.Valid() && HasSlots(s, c.mem) && Hosted(s, c.mem, rsp, rbp)
    ensures Straight(LoadHost(s))
    ensures Acts(LoadHost(s), c) == Some(Cpu(c.regs[R9 := rbp][R10 := rsp][RBP := rbp][RSP := rsp], c.mem))
  {
    hide Read, Acts;
    var c1 := c.Set(RSP, s.bottom - 40);
    var c2 := c1.Set(RBP, s.bottom - 24);
    var c3 := c2.Set(RSP, s.bottom - 32).Set(R9, rbp);
    var c4 := c3.Set(RSP, s.bottom - 24).Set(R10, rsp);
    var c5 := c4.Set(RBP, rbp);
    var c6 := c5.Set(RSP, rsp);
    TraceActs(LoadHost(s), [c, c1, c2, c3, c4, c5, c6]);
    assert c6.regs == c.regs[R9 := rbp][R10 := rsp][RBP := rbp][RSP := rsp];
  }

  lemma ResetFrameActs(s: Site, c: Cpu)
    requires c.Valid() && HasSlots(s, c.mem)
    ensures Straight(ResetFrame(s))
    ensures Acts(ResetFrame(s), c)
         == Some(Cpu(c.regs[R8 := s.bottom - 24][R9 := s.bottom - 40],
                     Write(Write(c.mem, s.bottom - 16, s.bottom - 24), s.bottom - 24, s.bottom - 40)))
  {
    hide Write, Acts;
    var c1 := c.Set(R8, s.bottom - 16);
    var c2 := c1.Set(R9, s.bottom - 24);
    var c3 := c2.(mem := Write(c.mem, s.bottom - 16, s.bottom - 24));
    var c4 := c3.Set(R8, s.bottom - 24);
    var c5 := c4.Set(R9, s.bottom - 40);
    var c6 := c5.(mem := Write(c3.mem, s.bottom - 24, s.bottom - 40));
    TraceActs(ResetFrame(s), [c, c1, c2, c3, c4, c5, c6]);
    assert c6.regs == c.regs[R8 := s.bottom - 24][R9 := s.bottom - 40];
  }
}
