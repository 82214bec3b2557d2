/**
 A small machine for the generated code: sixteen registers, byte memory, an
 instruction pointer, and code that is executable but not writable. The machine
 runs bytes: every step decodes at the instruction pointer.
 */
module X64Machine {
  import opened Common
  import opened X64

  // ---------------------------------------------------------------------
  // Words in memory
  // ---------------------------------------------------------------------

  predicate InMemory(mem: seq<byte>, a: int) { 0 <= a && a + 8 <= |mem| }

  function Read(mem: seq<byte>, a: int): word
    requires InMemory(mem, a)
  {
    Word(mem[a..a + 8])
  }

  function Write(mem: seq<byte>, a: int, v: word): (m: seq<byte>)
    requires InMemory(mem, a)
    ensures |m| == |mem|
  {
    mem[..a] + Bytes(v) + mem[a + 8..]
  }

  lemma ReadWritten(mem: seq<byte>, a: int, v: word)
    requires InMemory(mem, a)
    ensures Read(Write(mem, a, v), a) == v
  {
    hide Word, Bytes;
    assert Write(mem, a, v)[a..a + 8] == Bytes(v);
    WordRoundTrip(v);
  }

  lemma ReadElsewhere(mem: seq<byte>, a: int, v: word, b: int)
    requires InMemory(mem, a) && InMemory(mem, b) && (b + 8 <= a || a + 8 <= b)
    ensures Read(Write(mem, a, v), b) == Read(mem, b)
  {
    hide Word, Bytes;
    assert Write(mem, a, v)[b..b + 8] == mem[b..b + 8];
  }

  // ---------------------------------------------------------------------
  // Instructions
  // ---------------------------------------------------------------------

  datatype Cpu = Cpu(regs: seq<word>, mem: seq<byte>) {
    predicate Valid() { |regs| == 16 }

    function Get(r: Register): word
      requires Valid()
    {
      regs[r]
    }

    function Set(r: Register, v: word): (c: Cpu)
      requires Valid()
      ensures c.Valid() && c.mem == mem && c.Get(r) == v
    {
      this.(regs := regs[r := v])
    }
  }

  /** The effect of an instruction that falls through to the next one. `None` is a fault. */
  function Act(i: Instr, c: Cpu): (r: Option<Cpu>)
    requires c.Valid() && !i.Ret? && !i.Call?
    ensures r.Some? ==> r.value.Valid() && |r.value.mem| == |c.mem|
  {
    match i
    case Move(from, to) => Some(c.Set(to, c.Get(from)))
    case Store(from, base) =>
      if InMemory(c.mem, c.Get(base)) then Some(c.(mem := Write(c.mem, c.Get(base), c.Get(from)))) else None
    case Load(base, to) =>
      if InMemory(c.mem, c.Get(base)) then Some(c.Set(to, Read(c.mem, c.Get(base)))) else None
    case Imm(to, imm) => Some(c.Set(to, imm))
    case Push(reg) => Pushed(c, c.Get(reg))
    case Pop(reg) =>
      var sp := c.Get(RSP);
      if InMemory(c.mem, sp) && sp + 8 < TWO64 then Some(c.Set(RSP, sp + 8).Set(reg, Read(c.mem, sp))) else None
  }

  function Pushed(c: Cpu, v: word): (r: Option<Cpu>)
    requires c.Valid()
    ensures r.Some? ==> r.value.Valid() && |r.value.mem| == |c.mem|
  {
    var sp := c.Get(RSP) - 8;
    if InMemory(c.mem, sp) then Some(c.Set(RSP, sp).(mem := Write(c.mem, sp, v))) else None
  }

  datatype Machine = Machine(cpu: Cpu, rip: word, origin: word, code: seq<byte>) {
    predicate Valid() { cpu.Valid() && origin + |code| < TWO64 }
  }

  /** One step: decode the bytes at the instruction pointer and execute. */
  function Step(m: Machine): (r: Option<Machine>)
    requires m.Valid()
    ensures r.Some? ==> r.value.Valid() && r.value.origin == m.origin && r.value.code == m.code
  {
    if !(m.origin <= m.rip <= m.origin + |m.code|) then None
    else
      match Decode(m.code[m.rip - m.origin..])
      case None => None
      case Some(d) =>
        var next: word := m.rip + d.length;
        match d.instr
        case Ret =>
          var sp := m.cpu.Get(RSP);
          if InMemory(m.cpu.mem, sp) && sp + 8 < TWO64
          then Some(m.(cpu := m.cpu.Set(RSP, sp + 8), rip := Read(m.cpu.mem, sp))) else None
        case Call(reg) =>
          (match Pushed(m.cpu, next) case None => None case Some(c) => Some(m.(cpu := c, rip := m.cpu.Get(reg))))
        case i =>
          (match Act(i, m.cpu) case None => None case Some(c) => Some(m.(cpu := c, rip := next)))
  }

  function Run(m: Machine, k: nat): (r: Option<Machine>)
    requires m.Valid()
    ensures r.Some? ==> r.value.Valid() && r.value.origin == m.origin && r.value.code == m.code
    decreases k
  {
    if k == 0 then Some(m) else match Step(m) case None => None case Some(n) => Run(n, k - 1)
  }

  lemma {:induction false} RunTwice(m: Machine, j: nat, k: nat)
    requires m.Valid() && Run(m, j).Some?
    ensures Run(m, j + k) == Run(Run(m, j).value, k)
    decreases j
  {
    hide Step;
    if j > 0 {
      RunTwice(Step(m).value, j - 1, k);
    }
  }

  // ---------------------------------------------------------------------
  // Straight-line code
  // ---------------------------------------------------------------------

  /** The code at address `at` is this list of instructions. */
  predicate CodeAt(m: Machine, at: int, list: seq<Instr>) {
    var b := EncodeAll(list);
    m.origin <= at && at - m.origin + |b| <= |m.code| && m.code[at - m.origin..at - m.origin + |b|] == b
  }

  lemma CodeHead(m: Machine, at: int, i: Instr, rest: seq<Instr>)
    requires CodeAt(m, at, [i] + rest)
    ensures CodeAt(m, at + |Encode(i)|, rest)
    ensures Encode(i) <= m.code[at - m.origin..]
  {
    hide Encode;
    assert ([i] + rest)[1..] == rest;
  }

  lemma SliceConcat(s: seq<byte>, o: nat, x: seq<byte>, y: seq<byte>)
    requires o + |x| + |y| <= |s| && s[o..o + |x| + |y|] == x + y
    ensures s[o..o + |x|] == x && s[o + |x|..o + |x| + |y|] == y
  {
    var both := s[o..o + |x| + |y|];
    assert s[o..o + |x|] == both[..|x|];
    assert s[o + |x|..o + |x| + |y|] == both[|x|..];
    assert (x + y)[..|x|] == x && (x + y)[|x|..] == y;
  }

  lemma CodeConcat(m: Machine, at: int, a: seq<Instr>, b: seq<Instr>)
    requires CodeAt(m, at, a + b)
    ensures CodeAt(m, at, a) && CodeAt(m, at + |EncodeAll(a)|, b)
  {
    hide EncodeAll;
    EncodeAllConcat(a, b);
    SliceConcat(m.code, at - m.origin, EncodeAll(a), EncodeAll(b));
  }

  lemma CodeJoin(m: Machine, at: int, a: seq<Instr>, b: seq<Instr>)
    requires CodeAt(m, at, a) && CodeAt(m, at + |EncodeAll(a)|, b)
    ensures CodeAt(m, at, a + b)
  {
    hide EncodeAll;
    EncodeAllConcat(a, b);
    var o, x, y := at - m.origin, EncodeAll(a), EncodeAll(b);
    assert m.code[o..o + |x| + |y|] == m.code[o..o + |x|] + m.code[o + |x|..o + |x| + |y|];
  }

  /** The machine executes the instruction whose bytes are there. */
  lemma StepAt(m: Machine, i: Instr, rest: seq<Instr>)
    requires m.Valid() && CodeAt(m, m.rip, [i] + rest) && Encodable(i)
    ensures Decode(m.code[m.rip - m.origin..]) == Some(Decoded(i, |Encode(i)|))
    ensures CodeAt(m, m.rip + |Encode(i)|, rest)
  {
    hide Encode, Decode, EncodeAll;
    CodeHead(m, m.rip, i, rest);
    var b := m.code[m.rip - m.origin..];
    DecodeEncode(i, b[|Encode(i)|..]);
    assert Encode(i) + b[|Encode(i)|..] == b;
  }

  predicate Straight(list: seq<Instr>) {
    forall i | i in list :: Encodable(i) && !i.Ret? && !i.Call?
  }

  function Acts(list: seq<Instr>, c: Cpu): (r: Option<Cpu>)
    requires c.Valid() && Straight(list)
    ensures r.Some? ==> r.value.Valid() && |r.value.mem| == |c.mem|
  {
    if list == [] then Some(c)
    else match Act(list[0], c) case None => None case Some(d) => Acts(list[1..], d)
  }

  /** The states a straight list goes through, one per instruction. */
  predicate Trace(list: seq<Instr>, states: seq<Cpu>)
    requires Straight(list)
  {
    && |states| == |list| + 1
    && (forall k | 0 <= k < |states| :: states[k].Valid())
    && (forall k | 0 <= k < |list| :: Act(list[k], states[k]) == Some(states[k + 1]))
  }

  lemma {:induction false} TraceActs(list: seq<Instr>, states: seq<Cpu>)
    requires Straight(list) && Trace(list, states)
    ensures Acts(list, states[0]) == Some(states[|list|])
    decreases |list|
  {
    hide Act;
    if list != [] {
      assert Act(list[0], states[0]) == Some(states[1]);
      TraceActs(list[1..], states[1..]);
    }
  }

  lemma {:induction false} ActsConcat(a: seq<Instr>, b: seq<Instr>, c: Cpu)
    requires c.Valid() && Straight(a) && Straight(b) && Acts(a, c).Some?
    ensures Straight(a + b) && Acts(a + b, c) == Acts(b, Acts(a, c).value)
    decreases |a|
  {
    hide Act;
    if a == [] {
      assert a + b == b;
    } else {
      assert (a + b)[1..] == a[1..] + b;
      assert (a + b)[0] == a[0];
      ActsConcat(a[1..], b, Act(a[0], c).value);
    }
  }

  /** Running the bytes of a straight list has the effect of the list. */
  lemma {:induction false} RunStraight(m: Machine, list: seq<Instr>)
    requires m.Valid() && Straight(list) && CodeAt(m, m.rip, list) && Acts(list, m.cpu).Some?
    ensures m.rip + |EncodeAll(list)| < TWO64
    ensures Run(m, |list|) == Some(m.(cpu := Acts(list, m.cpu).value, rip := m.rip + |EncodeAll(list)|))
    decreases |list|
  {
    hide Encode, Decode, Act;
    if list != [] {
      var i, rest := list[0], list[1..];
      assert list == [i] + rest;
      StepAt(m, i, rest);
      var n := m.(cpu := Act(i, m.cpu).value, rip := m.rip + |Encode(i)|);
      assert Step(m) == Some(n);
      RunStraight(n, rest);
    }
  }

  lemma StepReturn(m: Machine)
    requires m.Valid() && CodeAt(m, m.rip, [Ret])
    requires InMemory(m.cpu.mem, m.cpu.Get(RSP)) && m.cpu.Get(RSP) + 8 < TWO64
    ensures Step(m) == Some(m.(cpu := m.cpu.Set(RSP, m.cpu.Get(RSP) + 8), rip := Read(m.cpu.mem, m.cpu.Get(RSP))))
  {
    hide Encode, Decode, EncodeAll;
    assert [Ret] == [Ret] + [];
    StepAt(m, Ret, []);
  }

  /** The same for a list that ends in a return. */
  lemma RunReturn(m: Machine, list: seq<Instr>)
    requires m.Valid() && Straight(list) && CodeAt(m, m.rip, list + [Ret]) && Acts(list, m.cpu).Some?
    requires var c := Acts(list, m.cpu).value; InMemory(c.mem, c.Get(RSP)) && c.Get(RSP) + 8 < TWO64
    ensures var c := Acts(list, m.cpu).value;
            Run(m, |list| + 1) == Some(m.(cpu := c.Set(RSP, c.Get(RSP) + 8), rip := Read(c.mem, c.Get(RSP))))
  {
    hide EncodeAll, Acts, CodeAt, Step, Read, InMemory, Straight;
    CodeConcat(m, m.rip, list, [Ret]);
    RunStraight(m, list);
    RunTwice(m, |list|, 1);
    var n := Run(m, |list|).value;
    CodeMoved(m, n, n.rip, [Ret]);
    StepReturn(n);
    assert Run(Step(n).value, 0) == Step(n);
  }

  lemma StepCall(m: Machine, reg: Register)
    requires m.Valid() && CodeAt(m, m.rip, [Call(reg)]) && InMemory(m.cpu.mem, m.cpu.Get(RSP) - 8)
    ensures m.rip + 3 < TWO64 && |EncodeAll([Call(reg)])| == 3
    ensures Step(m) == Some(m.(cpu := Pushed(m.cpu, m.rip + 3).value, rip := m.cpu.Get(reg)))
  {
    hide Decode;
    assert [Call(reg)] == [Call(reg)] + [];
    StepAt(m, Call(reg), []);
  }

  /** The same for a list that ends in a call: the address behind the call is pushed. */
  lemma RunCall(m: Machine, list: seq<Instr>, reg: Register)
    requires m.Valid() && Straight(list) && CodeAt(m, m.rip, list + [Call(reg)]) && Acts(list, m.cpu).Some?
    requires var c := Acts(list, m.cpu).value; InMemory(c.mem, c.Get(RSP) - 8)
    ensures m.rip + |EncodeAll(list + [Call(reg)])| < TWO64
    ensures var c, next := Acts(list, m.cpu).value, m.rip + |EncodeAll(list + [Call(reg)])|;
            Run(m, |list| + 1) == Some(m.(cpu := Pushed(c, next).value, rip := c.Get(reg)))
  {
    hide EncodeAll, Acts, CodeAt, Step, Straight, Pushed;
    CodeConcat(m, m.rip, list, [Call(reg)]);
    RunStraight(m, list);
    RunTwice(m, |list|, 1);
    var n := Run(m, |list|).value;
    CodeMoved(m, n, n.rip, [Call(reg)]);
    StepCall(n, reg);
    EncodeAllConcat(list, [Call(reg)]);
    assert Run(Step(n).value, 0) == Step(n);
  }

  /** Code is not written to, so it stays where it is while the machine runs. */
  lemma CodeMoved(m: Machine, n: Machine, at: int, list: seq<Instr>)
    requires n.code == m.code && n.origin == m.origin
    ensures CodeAt(n, at, list) == CodeAt(m, at, list)
  {
  }
}
