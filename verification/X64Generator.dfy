/**
 Writing the coroutine's code into a buffer, and relocating it once its address
 is known.
 */
module X64Generator {
  import opened Common
  import opened X64
  import opened X64Machine
  import opened X64Coroutine
  import opened X64Switch
  import opened X64Life

  /** A buffer with some bytes replaced from an index on; it grows when they reach past its end. */
  function Overwrite(s: seq<byte>, i: nat, b: seq<byte>): (r: seq<byte>)
    requires i <= |s|
    ensures |r| == if i + |b| <= |s| then |s| else i + |b|
  {
    s[..i] + b + (if i + |b| <= |s| then s[i + |b|..] else [])
  }

  lemma OverwriteTwice(s: seq<byte>, i: nat, a: seq<byte>, b: seq<byte>)
    requires i <= |s|
    ensures Overwrite(Overwrite(s, i, a), i + |a|, b) == Overwrite(s, i, a + b)
  {
  }

  /** A writer over a buffer that is enlarged on demand. */
  class Writer {
    var bytes: seq<byte>
    var index: nat

    ghost predicate Valid()
      reads this
    {
      index <= |bytes|
    }

    constructor (bytes: seq<byte>)
      ensures Valid() && this.bytes == bytes && index == 0
    {
      this.bytes := bytes;
      index := 0;
    }

    /** The writer has written these bytes since it looked like this. */
    ghost predicate Wrote(bytes0: seq<byte>, index0: nat, b: seq<byte>)
      reads this
    {
      index0 <= |bytes0| && bytes == Overwrite(bytes0, index0, b) && index == index0 + |b|
    }

    method Reset(pos: nat)
      requires Valid() && pos <= |bytes|
      modifies this
      ensures Valid() && bytes == old(bytes) && index == pos
    {
      index := pos;
    }

    method Write(b: byte)
      requires Valid()
      modifies this
      ensures Valid() && Wrote(old(bytes), old(index), [b])
    {
      bytes := bytes[..index] + [b] + (if index < |bytes| then bytes[index + 1..] else []);
      index := index + 1;
    }

    /** `write_num` of a 64-bit number in little-endian order. */
    method WriteNum(v: word)
      requires Valid()
      modifies this
      ensures Valid() && Wrote(old(bytes), old(index), Bytes(v))
    {
      var rest := v;
      ghost var done: seq<byte> := [];
      for k := 0 to 8
        invariant Valid() && Wrote(old(bytes), old(index), done)
        invariant |done| == k && rest >= 0 && done + Little(rest, 8 - k) == Bytes(v)
      {
        ghost var bytes0 := bytes;
        Write(rest % 256);
        OverwriteTwice(old(bytes), old(index), done, [rest % 256]);
        assert done + Little(rest, 8 - k) == done + [rest % 256] + Little(rest / 256, 8 - k - 1);
        done := done + [rest % 256];
        rest := rest / 256;
      }
      assert done == Bytes(v);
    }

    method Write3(a: byte, b: byte, c: byte)
      requires Valid()
      modifies this
      ensures Valid() && Wrote(old(bytes), old(index), [a, b, c])
    {
      Write(a);
      Write(b);
      OverwriteTwice(old(bytes), old(index), [a], [b]);
      Write(c);
      OverwriteTwice(old(bytes), old(index), [a] + [b], [c]);
      assert [a] + [b] + [c] == [a, b, c];
    }

    /** The emitter of one instruction. */
    method Emit(i: Instr)
      requires Valid()
      modifies this
      ensures Valid() && Wrote(old(bytes), old(index), Encode(i))
    {
      hide Rex, Fields, Bytes, Overwrite;
      match i
      case Move(from, to) => Write3(Rex(true, Extended(from), false, Extended(to)), 0x89, Fields(3, from, to));
      case Store(from, base) => Write3(Rex(true, Extended(from), false, Extended(base)), 0x89, Fields(0, from, base));
      case Load(base, to) =>
        var rex := Rex(true, Extended(to), Extended(base), false);
        if base == RSP {
          Write3(rex, 0x8B, Fields(0, to, 4));
          Write(Fields(0, 4, RSP));
          OverwriteTwice(old(bytes), old(index), [rex, 0x8B, Fields(0, to, 4)], [Fields(0, 4, RSP)]);
          assert [rex, 0x8B, Fields(0, to, 4)] + [Fields(0, 4, RSP)] == Encode(i);
        } else if base == RBP {
          Write3(rex, 0x8B, Fields(1, to, RBP));
          Write(0);
          OverwriteTwice(old(bytes), old(index), [rex, 0x8B, Fields(1, to, RBP)], [0]);
          assert [rex, 0x8B, Fields(1, to, RBP)] + [0] == Encode(i);
        } else {
          Write3(rex, 0x8B, Fields(0, to, base));
        }
      case Imm(to, imm) =>
        Emit2(Rex(true, false, false, Extended(to)), 0xB8 + to % 8);
        WriteNum(imm);
        OverwriteTwice(old(bytes), old(index), [Rex(true, false, false, Extended(to)), 0xB8 + to % 8], Bytes(imm));
      case Push(reg) => Emit2(Rex(true, false, false, Extended(reg)), 0x50 + reg % 8);
      case Pop(reg) => Emit2(Rex(true, false, false, Extended(reg)), 0x58 + reg % 8);
      case Ret => Write(0xC3);
      case Call(reg) => Write3(Rex(true, false, false, Extended(reg)), 0xFF, Fields(3, 2, reg));
    }

    method Emit2(a: byte, b: byte)
      requires Valid()
      modifies this
      ensures Valid() && Wrote(old(bytes), old(index), [a, b])
    {
      Write(a);
      Write(b);
      OverwriteTwice(old(bytes), old(index), [a], [b]);
      assert [a] + [b] == [a, b];
    }

    /** One emitter call after another. */
    method EmitAll(list: seq<Instr>)
      requires Valid()
      modifies this
      ensures Valid() && Wrote(old(bytes), old(index), EncodeAll(list))
    {
      hide Encode, Overwrite;
      assert old(bytes) == Overwrite(old(bytes), old(index), []) by { OverwriteNothing(bytes, index); }
      for k := 0 to |list|
        invariant Valid() && Wrote(old(bytes), old(index), EncodeAll(list[..k]))
      {
        Emit(list[k]);
        OverwriteTwice(old(bytes), old(index), EncodeAll(list[..k]), Encode(list[k]));
        assert list[..k + 1] == list[..k] + [list[k]];
        EncodeAllConcat(list[..k], [list[k]]);
        assert [list[k]][1..] == [];
        assert EncodeAll([list[k]]) == Encode(list[k]) + [] == Encode(list[k]);
      }
      assert list[..|list|] == list;
    }
  }

  lemma OverwriteNothing(s: seq<byte>, i: nat)
    requires i <= |s|
    ensures Overwrite(s, i, []) == s
  {
  }

  // ---------------------------------------------------------------------
  // Relocations
  // ---------------------------------------------------------------------

  datatype Kind = InitialIp | EpilogueIp | SaveIpAndFrame | ResetIp | SetFirstArgument

  /** What to rewrite, and the offset of the address to put there. */
  datatype Relocation = Relocation(kind: Kind, rewrite: nat, end: nat, address: nat)

  /** The instructions that a relocation writes; empty when it writes a stack slot. */
  function Patch(s: Site, kind: Kind, address: word): seq<Instr>
    requires s.Valid()
  {
    match kind
    case SaveIpAndFrame => SaveFrame(s, address)
    case ResetIp => SaveIp(s, address)
    case SetFirstArgument => FirstArgument(s, address)
    case _ => []
  }

  /** The relocation rewrites exactly the bytes of its range. */
  predicate Fitting(s: Site, r: Relocation)
    requires s.Valid()
  {
    r.kind == InitialIp || r.kind == EpilogueIp || r.end == r.rewrite + |EncodeAll(Patch(s, r.kind, 0))|
  }

  lemma PatchSize(s: Site, kind: Kind, address: word)
    requires s.Valid()
    ensures |EncodeAll(Patch(s, kind, address))| == |EncodeAll(Patch(s, kind, 0))|
  {
    hide EncodeAll;
    SameShapeSize(Patch(s, kind, address), Patch(s, kind, 0));
  }

  function RelocatedCode(code: seq<byte>, origin: word, r: Relocation, s: Site): (c: seq<byte>)
    requires s.Valid() && origin + |code| < TWO64 && r.address <= |code| && r.rewrite <= |code|
  {
    Overwrite(code, r.rewrite, EncodeAll(Patch(s, r.kind, origin + r.address)))
  }

  /** The coroutine's stack, whose end is the bottom, after a relocation. */
  function RelocatedStack(stack: seq<byte>, origin: word, r: Relocation): seq<byte>
    requires |stack| >= 48 && origin + r.address < TWO64
  {
    match r.kind
    case InitialIp => X64Machine.Write(stack, |stack| - 8, origin + r.address)
    case EpilogueIp => X64Machine.Write(stack, |stack| - 48, origin + r.address)
    case _ => stack
  }

  /** Bytes outside the range are kept, and inside only immediates change. */
  lemma RelocateOnlyImmediates(code: seq<byte>, origin: word, r: Relocation, s: Site, address: word)
    requires s.Valid() && origin + |code| < TWO64 && r.address <= |code| && Fitting(s, r)
    requires r.kind != InitialIp && r.kind != EpilogueIp && r.end <= |code|
    requires code[r.rewrite..r.end] == EncodeAll(Patch(s, r.kind, address))
    ensures var c := RelocatedCode(code, origin, r, s);
            && |c| == |code| && c[..r.rewrite] == code[..r.rewrite] && c[r.end..] == code[r.end..]
            && exists before, after ::
                 && DecodeAll(code[r.rewrite..r.end]) == Some(before)
                 && DecodeAll(c[r.rewrite..r.end]) == Some(after)
                 && SameShape(before, after)
  {
    hide EncodeAll, DecodeAll;
    PatchSize(s, r.kind, origin + r.address);
    var c := RelocatedCode(code, origin, r, s);
    var before, after := Patch(s, r.kind, address), Patch(s, r.kind, origin + r.address);
    assert c[r.rewrite..r.end] == EncodeAll(after);
    DecodeEncodeAll(before);
    DecodeEncodeAll(after);
    assert SameShape(before, after);
  }

  /** `relocate`: the asserted offset is the end of the range. */
  method Relocate(w: Writer, origin: word, r: Relocation, s: Site, stack: array<byte>)
    requires w.Valid() && s.Valid() && stack.Length >= 56
    requires origin + |w.bytes| < TWO64 && r.address <= |w.bytes| && r.end <= |w.bytes| && r.rewrite <= |w.bytes|
    requires Fitting(s, r)
    modifies w, stack
    ensures w.Valid() && |w.bytes| == |old(w.bytes)|
    ensures w.bytes == RelocatedCode(old(w.bytes), origin, r, s)
    ensures stack[..] == RelocatedStack(old(stack[..]), origin, r)
  {
    hide EncodeAll, Bytes;
    PatchSize(s, r.kind, origin + r.address);
    OverwriteNothing(w.bytes, r.rewrite);
    assert EncodeAll([]) == [] by { EncodeNone(); }
    match r.kind
    case InitialIp => StoreSlot(stack, stack.Length - 8, origin + r.address);
    case EpilogueIp => StoreSlot(stack, stack.Length - 48, origin + r.address);
    case _ =>
      w.Reset(r.rewrite);
      w.EmitAll(Patch(s, r.kind, origin + r.address));
      assert w.index == r.end;
  }

  lemma EncodeNone()
    ensures EncodeAll([]) == []
  {
  }

  /** `write_num` at a place of the stack memory. */
  method StoreSlot(stack: array<byte>, at: nat, v: word)
    requires at + 8 <= stack.Length
    modifies stack
    ensures stack[..] == X64Machine.Write(old(stack[..]), at, v)
  {
    var b := Bytes(v);
    for k := 0 to 8
      invariant forall i | 0 <= i < stack.Length :: stack[i] == if at <= i < at + k then b[i - at] else old(stack[i])
    {
      stack[at + k] := b[k];
    }
  }

  // ---------------------------------------------------------------------
  // Generating
  // ---------------------------------------------------------------------

  /** The five relocations of a program written from `start` on. */
  function Relocations(s: Site, start: nat): (rs: seq<Relocation>)
    requires s.Valid()
    ensures |rs| == 5
  {
    [Relocation(SaveIpAndFrame, start + At(s, SAVE), start + At(s, SAVE + 1), start + At(s, RESUME)),
     Relocation(ResetIp, start + At(s, FINISH), start + At(s, FINISH + 1), start + At(s, INITIAL)),
     Relocation(InitialIp, 0, 0, start + At(s, INITIAL)),
     Relocation(SetFirstArgument, start + At(s, INITIAL), start + At(s, INITIAL + 1), start + At(s, SUSPEND)),
     Relocation(EpilogueIp, 0, 0, start + At(s, FINISH))]
  }

  /** Appends one block of the program. */
  method EmitBlock(w: Writer, list: seq<Instr>, ghost before: seq<byte>, ghost s: Site, ghost k: nat)
    requires w.Valid() && s.Valid() && k < 11 && list == Blocks(s, UNLINKED)[k]
    requires w.bytes == before + Assemble(Blocks(s, UNLINKED)[..k]) && w.index == |w.bytes|
    modifies w
    ensures w.Valid() && w.bytes == before + Assemble(Blocks(s, UNLINKED)[..k + 1])
    ensures w.index == |w.bytes| == |before| + At(s, k + 1)
  {
    hide Blocks, EncodeAll, Assemble;
    ghost var blocks := Blocks(s, UNLINKED);
    w.EmitAll(list);
    assert blocks[..k + 1] == blocks[..k] + [blocks[k]];
    AssembleConcat(blocks[..k], [blocks[k]]);
    AssembleOne(blocks[k]);
  }

  /** `write_coroutine`: the unlinked program is appended, the first frame is put in its slots. */
  method WriteCoroutine(w: Writer, s: Site, stack: array<byte>) returns (rs: seq<Relocation>)
    requires w.Valid() && w.index == |w.bytes| && s.Valid() && 56 <= stack.Length <= s.bottom
    modifies w, stack
    ensures w.Valid() && w.bytes == old(w.bytes) + Assemble(Blocks(s, UNLINKED))
    ensures rs == Relocations(s, |old(w.bytes)|)
    ensures stack[..] == X64Machine.Write(X64Machine.Write(old(stack[..]), stack.Length - 24, s.bottom - 48),
                                          stack.Length - 16, s.bottom - 48)
  {
    hide EncodeAll, Assemble, At, Prologue, TakeResult, SaveFrame, Epilogue, FirstArgument, Launch, SaveIp, ResetFrame, X64Machine.Write;
    ghost var before := w.bytes;
    assert w.bytes == before + Assemble(Blocks(s, UNLINKED)[..0]) by { AssembleNone(); assert Blocks(s, UNLINKED)[..0] == []; }
    EmitBlock(w, Prologue(s), before, s, 0);
    StoreSlot(stack, stack.Length - 24, s.bottom - 48);
    StoreSlot(stack, stack.Length - 16, s.bottom - 48);
    var suspendBegin := w.index;
    EmitBlock(w, TakeResult(s), before, s, 1);
    var saveBegin := w.index;
    EmitBlock(w, SaveFrame(s, 0), before, s, 2);
    var saveEnd := w.index;
    EmitBlock(w, Epilogue(s), before, s, 3);
    var save := Relocation(SaveIpAndFrame, saveBegin, saveEnd, w.index);
    EmitBlock(w, [Ret], before, s, 4);
    var initialIp := w.index;
    EmitBlock(w, FirstArgument(s, 0), before, s, 5);
    var first := Relocation(SetFirstArgument, initialIp, w.index, suspendBegin);
    EmitBlock(w, Launch(s), before, s, 6);
    EmitBlock(w, [Call(RAX)], before, s, 7);
    var resetBegin := w.index;
    EmitBlock(w, SaveIp(s, 0), before, s, 8);
    var reset := Relocation(ResetIp, resetBegin, w.index, initialIp);
    EmitBlock(w, ResetFrame(s), before, s, 9);
    EmitBlock(w, Epilogue(s), before, s, 10);
    assert Blocks(s, UNLINKED)[..11] == Blocks(s, UNLINKED);
    rs := [save, reset, Relocation(InitialIp, 0, 0, initialIp), first, Relocation(EpilogueIp, 0, 0, resetBegin)];
  }

  lemma AssembleNone()
    ensures Assemble([]) == []
  {
  }

  // ---------------------------------------------------------------------
  // Generating and relocating gives a program that is ready to run
  // ---------------------------------------------------------------------

  lemma RelocateBlock(before: seq<byte>, s: Site, l: Links, k: nat, block: seq<Instr>)
    requires s.Valid() && k < 11 && SameShape(block, Blocks(s, l)[k])
    ensures |before| + At(s, k) <= |before + Assemble(Blocks(s, l))|
    ensures Overwrite(before + Assemble(Blocks(s, l)), |before| + At(s, k), EncodeAll(block))
         == before + Assemble(Blocks(s, l)[k := block])
  {
    hide Blocks, EncodeAll, Assemble;
    var blocks := Blocks(s, l);
    SameShapeSize(block, blocks[k]);
    PatchBlock(blocks, k, block);
    BlockBytes(blocks, k);
    LinksKeepOffsets(s, l, k);
    LinksKeepOffsets(s, l, k + 1);
  }

  /** Each relocation of the program fits its range and is inside the code. */
  lemma RelocationsFit(before: seq<byte>, s: Site, r: Relocation)
    requires s.Valid() && r in Relocations(s, |before|)
    ensures Fitting(s, r) && r.rewrite <= |before| + At(s, 11) && r.end <= |before| + At(s, 11) && r.address <= |before| + At(s, 11)
  {
    hide EncodeAll, Assemble;
    BlockBytes(Blocks(s, UNLINKED), SAVE);
    BlockBytes(Blocks(s, UNLINKED), FINISH);
    BlockBytes(Blocks(s, UNLINKED), INITIAL);
    forall k: nat | k <= 11 ensures At(s, k) <= At(s, 11) { AtGrows(s, k, 11); }
  }

  /** The three relocations of code turn the unlinked blocks into the linked ones. */
  lemma LinkedInTurn(before: seq<byte>, s: Site, l: Links)
    requires s.Valid()
    ensures |before| + At(s, SAVE) <= |before + Assemble(Blocks(s, UNLINKED))|
    ensures Overwrite(before + Assemble(Blocks(s, UNLINKED)), |before| + At(s, SAVE), EncodeAll(SaveFrame(s, l.resume)))
         == before + Assemble(Blocks(s, Links(l.resume, 0, 0)))
    ensures |before| + At(s, FINISH) <= |before + Assemble(Blocks(s, Links(l.resume, 0, 0)))|
    ensures Overwrite(before + Assemble(Blocks(s, Links(l.resume, 0, 0))), |before| + At(s, FINISH), EncodeAll(SaveIp(s, l.initial)))
         == before + Assemble(Blocks(s, Links(l.resume, 0, l.initial)))
    ensures |before| + At(s, INITIAL) <= |before + Assemble(Blocks(s, Links(l.resume, 0, l.initial)))|
    ensures Overwrite(before + Assemble(Blocks(s, Links(l.resume, 0, l.initial))), |before| + At(s, INITIAL), EncodeAll(FirstArgument(s, l.suspend)))
         == before + Assemble(Blocks(s, l))
  {
    hide EncodeAll, Assemble, Blocks, At, Overwrite, SaveFrame, SaveIp, FirstArgument;
    LinkedBlocks(s, l);
    LinkShapes(s, l);
    RelocateBlock(before, s, UNLINKED, SAVE, SaveFrame(s, l.resume));
    RelocateBlock(before, s, Links(l.resume, 0, 0), FINISH, SaveIp(s, l.initial));
    RelocateBlock(before, s, Links(l.resume, 0, l.initial), INITIAL, FirstArgument(s, l.suspend));
  }

  lemma LinkedBlocks(s: Site, l: Links)
    requires s.Valid()
    ensures Blocks(s, UNLINKED)[SAVE := SaveFrame(s, l.resume)] == Blocks(s, Links(l.resume, 0, 0))
    ensures Blocks(s, Links(l.resume, 0, 0))[FINISH := SaveIp(s, l.initial)] == Blocks(s, Links(l.resume, 0, l.initial))
    ensures Blocks(s, Links(l.resume, 0, l.initial))[INITIAL := FirstArgument(s, l.suspend)] == Blocks(s, l)
  {
    hide SaveFrame, SaveIp, FirstArgument, Prologue, TakeResult, Epilogue, Launch, ResetFrame;
  }

  /** The stack with the first frame and the address behind the call in their slots. */
  function InitialStack(stack: seq<byte>, s: Site, entry: word): seq<byte>
    requires Fits(s, entry) && 56 <= |stack|
  {
    var n := |stack|;
    LinkedStack(X64Machine.Write(X64Machine.Write(stack, n - 24, s.bottom - 48), n - 16, s.bottom - 48), s, entry)
  }

  /** The stack with the two addresses that are known once the code has its place. */
  function LinkedStack(stack: seq<byte>, s: Site, entry: word): (r: seq<byte>)
    requires Fits(s, entry) && 56 <= |stack|
    ensures |r| == |stack|
  {
    AtGrows(s, FINISH, 11);
    var n := |stack|;
    X64Machine.Write(X64Machine.Write(stack, n - 8, Linked(s, entry).initial), n - 48, entry + At(s, FINISH))
  }

  /** Generating at the end of a buffer and relocating for its address links the program. */
  method Install(w: Writer, origin: word, s: Site, stack: array<byte>)
    requires w.Valid() && w.index == |w.bytes| && s.Valid() && 56 <= stack.Length <= s.bottom
    requires origin + |w.bytes| + At(s, 11) < TWO64
    modifies w, stack
    ensures w.bytes == old(w.bytes) + Assemble(Blocks(s, Linked(s, origin + |old(w.bytes)|)))
    ensures stack[..] == InitialStack(old(stack[..]), s, origin + |old(w.bytes)|)
  {
    hide EncodeAll, Assemble, Blocks, At, X64Machine.Write, Relocations, Linked;
    ghost var before := w.bytes;
    var rs := WriteCoroutine(w, s, stack);
    RelocateAll(w, origin, s, rs, stack, before);
  }

  /** The addresses that are in the code after the first `i` relocations. */
  function Stage(l: Links, i: nat): Links {
    if i == 0 then UNLINKED
    else if i == 1 then Links(l.resume, 0, 0)
    else if i <= 3 then Links(l.resume, 0, l.initial)
    else l
  }

  lemma StageSize(s: Site, l: Links)
    requires s.Valid()
    ensures |Assemble(Blocks(s, l))| == At(s, 11)
  {
    hide Blocks, Assemble, At;
    LinksKeepOffsets(s, l, 11);
    assert Blocks(s, l)[..11] == Blocks(s, l);
  }

  /** The stack after the first `i` relocations of code that begins at `start`. */
  function StageStack(stack: seq<byte>, s: Site, origin: word, start: nat, i: nat): (r: seq<byte>)
    requires origin + start < TWO64 && Fits(s, origin + start) && 56 <= |stack|
    ensures |r| == |stack|
  {
    if i <= 2 then stack
    else if i <= 4 then X64Machine.Write(stack, |stack| - 8, Linked(s, origin + start).initial)
    else LinkedStack(stack, s, origin + start)
  }

  lemma StageStep(stack: seq<byte>, s: Site, origin: word, start: nat, i: nat)
    requires origin + start < TWO64 && Fits(s, origin + start) && 56 <= |stack| && i < 5
    ensures var r := Relocations(s, start)[i];
            && origin + r.address < TWO64
            && RelocatedStack(StageStack(stack, s, origin, start, i), origin, r) == StageStack(stack, s, origin, start, i + 1)
  {
    hide At, X64Machine.Write;
    AtGrows(s, RESUME, 11);
    AtGrows(s, SUSPEND, 11);
    AtGrows(s, INITIAL, 11);
    AtGrows(s, FINISH, 11);
  }

  lemma StageCode(before: seq<byte>, s: Site, origin: word, i: nat)
    requires s.Valid() && i < 5 && origin + |before| + At(s, 11) < TWO64
    ensures var r, l := Relocations(s, |before|)[i], Linked(s, origin + |before|);
            var code := before + Assemble(Blocks(s, Stage(l, i)));
            && |code| == |before| + At(s, 11) && Fitting(s, r)
            && r.rewrite <= |code| && r.end <= |code| && r.address <= |code|
            && RelocatedCode(code, origin, r, s) == before + Assemble(Blocks(s, Stage(l, i + 1)))
  {
    hide EncodeAll, Assemble, Blocks, At, Overwrite, SaveFrame, SaveIp, FirstArgument, Fitting;
    var r, l := Relocations(s, |before|)[i], Linked(s, origin + |before|);
    var code := before + Assemble(Blocks(s, Stage(l, i)));
    StageSize(s, Stage(l, i));
    RelocationsFit(before, s, r);
    LinkedInTurn(before, s, l);
    EncodeNone();
    OverwriteNothing(code, 0);
  }

  /** The caller's relocations, in the order in which they were listed. */
  method RelocateAll(w: Writer, origin: word, s: Site, rs: seq<Relocation>, stack: array<byte>, ghost before: seq<byte>)
    requires w.Valid() && s.Valid() && 56 <= stack.Length && rs == Relocations(s, |before|)
    requires w.bytes == before + Assemble(Blocks(s, UNLINKED)) && origin + |before| + At(s, 11) < TWO64
    modifies w, stack
    ensures Fits(s, origin + |before|) && w.bytes == before + Assemble(Blocks(s, Linked(s, origin + |before|)))
    ensures stack[..] == LinkedStack(old(stack[..]), s, origin + |before|)
  {
    hide Assemble, Blocks, At, X64Machine.Write, Relocations, Linked, Fitting, RelocatedCode, LinkedStack, RelocatedStack;
    ghost var l := Linked(s, origin + |before|);
    for i := 0 to 5
      invariant w.Valid() && w.bytes == before + Assemble(Blocks(s, Stage(l, i)))
      invariant stack[..] == StageStack(old(stack[..]), s, origin, |before|, i)
    {
      StageCode(before, s, origin, i);
      StageStep(old(stack[..]), s, origin, |before|, i);
      Relocate(w, origin, rs[i], s, stack);
    }
  }

  lemma LinkShapes(s: Site, l: Links)
    requires s.Valid()
    ensures SameShape(SaveFrame(s, l.resume), Blocks(s, UNLINKED)[SAVE])
    ensures SameShape(SaveIp(s, l.initial), Blocks(s, Links(l.resume, 0, 0))[FINISH])
    ensures SameShape(FirstArgument(s, l.suspend), Blocks(s, Links(l.resume, 0, l.initial))[INITIAL])
  {
  }

  lemma InitialSlots(stack: seq<byte>, s: Site, entry: word)
    requires Fits(s, entry) && 56 <= |stack|
    ensures var t, n := InitialStack(stack, s, entry), |stack|;
            && |t| == n && Read(t, n - 24) == s.bottom - 48 && Read(t, n - 16) == s.bottom - 48
            && Read(t, n - 8) == Linked(s, entry).initial
  {
    hide Read, X64Machine.Write, Linked, At;
    AtGrows(s, FINISH, 11);
    var n, b, ip, finish: word := |stack|, s.bottom - 48, Linked(s, entry).initial, entry + At(s, FINISH);
    var m1 := X64Machine.Write(stack, n - 24, b);
    var m2 := X64Machine.Write(m1, n - 16, b);
    var m3 := X64Machine.Write(m2, n - 8, ip);
    ReadWritten(stack, n - 24, b);
    ReadWritten(m1, n - 16, b);
    ReadWritten(m2, n - 8, ip);
    ReadElsewhere(m1, n - 16, b, n - 24);
    ReadElsewhere(m2, n - 8, ip, n - 24);
    ReadElsewhere(m2, n - 8, ip, n - 16);
    ReadElsewhere(m3, n - 48, finish, n - 24);
    ReadElsewhere(m3, n - 48, finish, n - 16);
    ReadElsewhere(m3, n - 48, finish, n - 8);
  }

  lemma SameWordMoved(stack: seq<byte>, mem: seq<byte>, base: nat, at: nat)
    requires base + |stack| <= |mem| && mem[base..base + |stack|] == stack && at + 8 <= |stack|
    ensures Read(mem, base + at) == Read(stack, at)
  {
    hide Word;
    forall i | base + at <= i < base + at + 8 ensures mem[i] == stack[i - base] {
      assert mem[i] == mem[base..base + |stack|][i - base];
    }
    assert mem[base + at..base + at + 8] == stack[at..at + 8];
  }

  /** A machine that has the installed bytes and the initial stack is ready for its first entry. */
  lemma InstalledIsReady(m: Machine, p: Place, before: seq<byte>, stack: seq<byte>)
    requires m.Valid() && p.site.Valid() && |stack| >= 64 && p.base + |stack| == p.site.bottom <= |m.cpu.mem|
    requires p.entry == m.origin + |before| && Fits(p.site, p.entry)
    requires m.code == before + Assemble(Blocks(p.site, Linked(p.site, p.entry)))
    requires m.cpu.mem[p.base..p.site.bottom] == InitialStack(stack, p.site, p.entry)
    ensures Inv(p, World(m, OnHost(Begin)))
  {
    hide Read, X64Machine.Write, Assemble, Blocks, InitialStack;
    var s, n := p.site, |stack|;
    InitialSlots(stack, s, p.entry);
    var t := InitialStack(stack, s, p.entry);
    SameWordMoved(t, m.cpu.mem, p.base, n - 24);
    SameWordMoved(t, m.cpu.mem, p.base, n - 16);
    SameWordMoved(t, m.cpu.mem, p.base, n - 8);
    LinksKeepOffsets(s, Linked(s, p.entry), 11);
    var blocks := Blocks(s, Linked(s, p.entry));
    assert blocks[..11] == blocks;
    assert m.code[|before|..] == Assemble(blocks);
  }
}
