/**
 The x64 instructions that the just-in-time generator emits: their bytes as the
 emitters write them, and an independent decoder for the same instructions
 after sections 2.1.5 and 2.2.1 of the Intel SDM, volume 2A.
 */
module X64 {
  import opened Common

  const TWO64: int := 0x1_0000_0000_0000_0000

  type word = w: int | 0 <= w < TWO64

  /** A register by its number: RAX is 0, R15 is 15. */
  type Register = r: int | 0 <= r < 16

  const RAX: Register := 0
  const RCX: Register := 1
  const RDX: Register := 2
  const RSP: Register := 4
  const RBP: Register := 5
  const RSI: Register := 6
  const RDI: Register := 7
  const R8: Register := 8
  const R9: Register := 9
  const R10: Register := 10

  datatype Instr =
    | Move(from: Register, to: Register)      // to := from
    | Store(from: Register, base: Register)   // [base] := from
    | Load(base: Register, to: Register)      // to := [base]
    | Imm(to: Register, imm: word)
    | Push(reg: Register)
    | Pop(reg: Register)
    | Ret
    | Call(reg: Register)

  // ---------------------------------------------------------------------
  // Little-endian words
  // ---------------------------------------------------------------------

  function Pow256(n: nat): (p: nat)
    ensures p >= 1
  {
    if n == 0 then 1 else 256 * Pow256(n - 1)
  }

  function Little(v: nat, n: nat): (b: seq<byte>)
    ensures |b| == n
  {
    if n == 0 then [] else [v % 256] + Little(v / 256, n - 1)
  }

  function Unlittle(b: seq<byte>): (v: nat)
    ensures v < Pow256(|b|)
  {
    if b == [] then 0 else b[0] + 256 * Unlittle(b[1..])
  }

  lemma {:induction false} LittleRoundTrip(v: nat, n: nat)
    requires v < Pow256(n)
    ensures Unlittle(Little(v, n)) == v
  {
    if n > 0 {
      assert v / 256 < Pow256(n - 1);
      LittleRoundTrip(v / 256, n - 1);
      assert Little(v, n)[1..] == Little(v / 256, n - 1);
    }
  }

  lemma Pow256Of8()
    ensures Pow256(8) == TWO64
  {
    assert Pow256(2) == 0x1_0000;
    assert Pow256(4) == 0x1_0000_0000;
    assert Pow256(6) == 0x1_0000_0000_0000;
  }

  function Bytes(v: word): (b: seq<byte>)
    ensures |b| == 8
  {
    Little(v, 8)
  }

  function Word(b: seq<byte>): (v: word)
    requires |b| == 8
  {
    Pow256Of8();
    Unlittle(b)
  }

  lemma WordRoundTrip(v: word)
    ensures Word(Bytes(v)) == v
  {
    Pow256Of8();
    LittleRoundTrip(v, 8);
  }

  // ---------------------------------------------------------------------
  // The emitters
  // ---------------------------------------------------------------------

  function Bit(b: bool): (n: byte)
    ensures n == 0 || n == 1
  {
    if b then 1 else 0
  }

  function Rex(w: bool, r: bool, x: bool, b: bool): (p: byte)
    ensures 0x40 <= p < 0x50
  {
    0x40 + 8 * Bit(w) + 4 * Bit(r) + 2 * Bit(x) + Bit(b)
  }

  /** Both the ModRM and the SIB byte: two bits, three bits, three bits. */
  function Fields(high: byte, middle: byte, low: byte): byte {
    high % 4 * 64 + middle % 8 * 8 + low % 8
  }

  predicate Extended(r: Register) { r >= R8 }

  function Encode(i: Instr): (b: seq<byte>)
    ensures 1 <= |b| <= 10
  {
    match i
    case Move(from, to) => [Rex(true, Extended(from), false, Extended(to)), 0x89, Fields(3, from, to)]
    case Store(from, base) => [Rex(true, Extended(from), false, Extended(base)), 0x89, Fields(0, from, base)]
    case Load(base, to) =>
      var rex := Rex(true, Extended(to), Extended(base), false);
      if base == RSP then [rex, 0x8B, Fields(0, to, 4), Fields(0, 4, RSP)]
      else if base == RBP then [rex, 0x8B, Fields(1, to, RBP), 0]
      else [rex, 0x8B, Fields(0, to, base)]
    case Imm(to, imm) => [Rex(true, false, false, Extended(to)), 0xB8 + to % 8] + Bytes(imm)
    case Push(reg) => [Rex(true, false, false, Extended(reg)), 0x50 + reg % 8]
    case Pop(reg) => [Rex(true, false, false, Extended(reg)), 0x58 + reg % 8]
    case Ret => [0xC3]
    case Call(reg) => [Rex(true, false, false, Extended(reg)), 0xFF, Fields(3, 2, reg)]
  }

  // ---------------------------------------------------------------------
  // The decoder
  // ---------------------------------------------------------------------

  datatype Decoded = Decoded(instr: Instr, length: nat)

  /**
   The base register and the length of a memory operand without displacement
   whose ModRM byte is at index 2; `None` for every other addressing form.
   */
  function MemoryOperand(b: seq<byte>, x: bool, extend: bool): (r: Option<(Register, nat)>)
    requires |b| >= 3
    ensures r.Some? ==> 3 <= r.value.1 <= |b|
  {
    var mod, rm := b[2] / 64, b[2] % 8;
    var high := 8 * Bit(extend);
    if mod == 0 && rm != 4 && rm != 5 then
      Some((rm + high, 3))
    else if mod == 0 && rm == 4 && |b| >= 4 && b[3] / 8 % 8 == 4 && !x && b[3] % 8 != 5 then
      Some((b[3] % 8 + high, 4))
    else if mod == 1 && rm != 4 && |b| >= 4 && b[3] == 0 then
      Some((rm + high, 4))
    else
      None
  }

  function Decode(b: seq<byte>): (d: Option<Decoded>)
    ensures d.Some? ==> 1 <= d.value.length <= |b|
  {
    if |b| >= 1 && b[0] == 0xC3 then Some(Decoded(Ret, 1))
    else if |b| < 2 || b[0] / 8 != 9 then None   // no REX.W prefix
    else
      var r, x, e := b[0] / 4 % 2 == 1, b[0] / 2 % 2 == 1, b[0] % 2 == 1;
      var op := b[1];
      if 0x50 <= op < 0x58 then Some(Decoded(Push(op - 0x50 + 8 * Bit(e)), 2))
      else if 0x58 <= op < 0x60 then Some(Decoded(Pop(op - 0x58 + 8 * Bit(e)), 2))
      else if 0xB8 <= op < 0xC0 then
        if |b| < 10 then None else Some(Decoded(Imm(op - 0xB8 + 8 * Bit(e), Word(b[2..10])), 10))
      else if |b| < 3 then None
      else
        var reg := b[2] / 8 % 8 + 8 * Bit(r);
        if op == 0xFF then
          if b[2] / 64 == 3 && b[2] / 8 % 8 == 2 then Some(Decoded(Call(b[2] % 8 + 8 * Bit(e)), 3)) else None
        else if op == 0x89 && b[2] / 64 == 3 then Some(Decoded(Move(reg, b[2] % 8 + 8 * Bit(e)), 3))
        else if op == 0x89 || op == 0x8B then
          match MemoryOperand(b, x, e)
          case None => None
          case Some((base, length)) =>
            Some(Decoded(if op == 0x89 then Store(reg, base) else Load(base, reg), length))
        else None
  }

  // ---------------------------------------------------------------------
  // Encoding and decoding
  // ---------------------------------------------------------------------

  /** The operands for which the emitters write what they mean. */
  predicate Encodable(i: Instr) {
    match i
    case Store(_, base) => base % 8 != 4 && base % 8 != 5
    case Load(base, _) => base < 8
    case _ => true
  }

  lemma RexBits(w: bool, r: bool, x: bool, b: bool)
    ensures var p := Rex(w, r, x, b);
            p / 8 == 8 + Bit(w) && p / 4 % 2 == Bit(r) && p / 2 % 2 == Bit(x) && p % 2 == Bit(b)
  {
  }

  lemma FieldBits(high: byte, middle: byte, low: byte)
    ensures var p := Fields(high, middle, low); p / 64 == high % 4 && p / 8 % 8 == middle % 8 && p % 8 == low % 8
  {
    var a, b, c := high % 4, middle % 8, low % 8;
    assert (64 * a + 8 * b + c) / 8 == 8 * a + b;
  }

  /** The decoder gives back this instruction and its length, whatever follows. */
  predicate ReadsBack(i: Instr, rest: seq<byte>) {
    Decode(Encode(i) + rest) == Some(Decoded(i, |Encode(i)|))
  }

  lemma MoveBack(from: Register, to: Register, rest: seq<byte>)
    ensures ReadsBack(Move(from, to), rest)
  {
    hide Rex, Fields;
    RexBits(true, Extended(from), false, Extended(to));
    FieldBits(3, from, to);
  }

  lemma StoreBack(from: Register, base: Register, rest: seq<byte>)
    ensures ReadsBack(Store(from, base), rest) <==> base % 8 != 4 && base % 8 != 5
  {
    hide Rex, Fields;
    RexBits(true, Extended(from), false, Extended(base));
    FieldBits(0, from, base);
    var b := Encode(Store(from, base)) + rest;
    var operand := MemoryOperand(b, false, Extended(base));
    assert Decode(b).Some? ==> Decode(b).value.length == operand.value.1;
  }

  lemma LoadBack(base: Register, to: Register, rest: seq<byte>)
    ensures ReadsBack(Load(base, to), rest) <==> base < 8
  {
    hide Rex, Fields;
    RexBits(true, Extended(to), Extended(base), false);
    FieldBits(0, to, base);
    FieldBits(0, to, 4);
    FieldBits(0, 4, RSP);
    FieldBits(1, to, RBP);
    var b := Encode(Load(base, to)) + rest;
    var operand := MemoryOperand(b, Extended(base), false);
    assert Decode(b).Some? ==> Decode(b).value.instr == Load(operand.value.0, to);
    assert operand.Some? ==> operand.value.0 < 8;
  }

  lemma ImmBack(to: Register, imm: word, rest: seq<byte>)
    ensures ReadsBack(Imm(to, imm), rest)
  {
    hide Rex, Fields, Bytes, Word;
    RexBits(true, false, false, Extended(to));
    assert (Encode(Imm(to, imm)) + rest)[2..10] == Bytes(imm);
    WordRoundTrip(imm);
  }

  lemma CallBack(reg: Register, rest: seq<byte>)
    ensures ReadsBack(Call(reg), rest)
  {
    hide Rex, Fields;
    RexBits(true, false, false, Extended(reg));
    FieldBits(3, 2, reg);
  }

  /** Decoding inverts the emitters exactly for these operands. */
  lemma DecodeEncode(i: Instr, rest: seq<byte>)
    ensures Decode(Encode(i) + rest) == Some(Decoded(i, |Encode(i)|)) <==> Encodable(i)
  {
    hide Rex, Fields, MemoryOperand;
    match i
    case Move(from, to) => hide Decode; hide Encode; MoveBack(from, to, rest);
    case Store(from, base) => hide Decode; hide Encode; StoreBack(from, base, rest);
    case Load(base, to) => hide Decode; hide Encode; LoadBack(base, to, rest);
    case Imm(to, imm) => hide Decode; hide Encode; ImmBack(to, imm, rest);
    case Push(reg) => RexBits(true, false, false, Extended(reg));
    case Pop(reg) => RexBits(true, false, false, Extended(reg));
    case Ret =>
    case Call(reg) => hide Decode; hide Encode; CallBack(reg, rest);
  }

  // ---------------------------------------------------------------------
  // Instruction lists
  // ---------------------------------------------------------------------

  function EncodeAll(list: seq<Instr>): (b: seq<byte>)
    ensures |list| <= |b|
  {
    if list == [] then [] else Encode(list[0]) + EncodeAll(list[1..])
  }

  function DecodeAll(b: seq<byte>): Option<seq<Instr>>
    decreases |b|
  {
    if b == [] then Some([])
    else
      match Decode(b)
      case None => None
      case Some(d) =>
        match DecodeAll(b[d.length..])
        case None => None
        case Some(rest) => Some([d.instr] + rest)
  }

  /** Instruction boundaries are found again: the bytes of a list decode to that list alone. */
  lemma {:induction false} DecodeEncodeAll(list: seq<Instr>)
    requires forall i | i in list :: Encodable(i)
    ensures DecodeAll(EncodeAll(list)) == Some(list)
  {
    hide Decode, Encode;
    if list != [] {
      var rest := EncodeAll(list[1..]);
      DecodeEncode(list[0], rest);
      assert EncodeAll(list)[|Encode(list[0])|..] == rest;
      DecodeEncodeAll(list[1..]);
      assert [list[0]] + list[1..] == list;
    }
  }

  lemma {:induction false} EncodeAllConcat(a: seq<Instr>, b: seq<Instr>)
    ensures EncodeAll(a + b) == EncodeAll(a) + EncodeAll(b)
  {
    hide Encode;
    if a == [] {
      assert a + b == b;
    } else {
      EncodeAllConcat(a[1..], b);
      assert (a + b)[1..] == a[1..] + b;
      assert (a + b)[0] == a[0];
      BytesAssoc(Encode(a[0]), EncodeAll(a[1..]), EncodeAll(b));
    }
  }

  lemma BytesAssoc(a: seq<byte>, b: seq<byte>, c: seq<byte>)
    ensures a + (b + c) == a + b + c
  {
  }

  /** The same instruction with every immediate cleared. */
  function Shape(i: Instr): Instr {
    if i.Imm? then i.(imm := 0) else i
  }

  predicate SameShape(a: seq<Instr>, b: seq<Instr>) {
    |a| == |b| && forall k | 0 <= k < |a| :: Shape(a[k]) == Shape(b[k])
  }

  /** Immediates do not change the length of the code. */
  lemma {:induction false} SameShapeSize(a: seq<Instr>, b: seq<Instr>)
    requires SameShape(a, b)
    ensures |EncodeAll(a)| == |EncodeAll(b)|
  {
    if a != [] {
      assert Shape(a[0]) == Shape(b[0]);
      SameShapeSize(a[1..], b[1..]);
    }
  }

  // ---------------------------------------------------------------------
  // Code in blocks
  // ---------------------------------------------------------------------

  function Assemble(blocks: seq<seq<Instr>>): seq<byte> {
    if blocks == [] then [] else EncodeAll(blocks[0]) + Assemble(blocks[1..])
  }

  /** Where a block starts. */
  function Offset(blocks: seq<seq<Instr>>, k: nat): nat
    requires k <= |blocks|
  {
    |Assemble(blocks[..k])|
  }

  lemma {:induction false} AssembleConcat(a: seq<seq<Instr>>, b: seq<seq<Instr>>)
    ensures Assemble(a + b) == Assemble(a) + Assemble(b)
  {
    hide EncodeAll;
    if a == [] {
      assert a + b == b;
    } else {
      AssembleConcat(a[1..], b);
      assert (a + b)[1..] == a[1..] + b;
      assert (a + b)[0] == a[0];
    }
  }

  lemma AssembleOne(block: seq<Instr>)
    ensures Assemble([block]) == EncodeAll(block)
  {
    hide EncodeAll;
    assert [block][1..] == [];
    assert EncodeAll(block) + [] == EncodeAll(block);
  }

  lemma AssembleAround(blocks: seq<seq<Instr>>, k: nat)
    requires k < |blocks|
    ensures Assemble(blocks) == Assemble(blocks[..k]) + EncodeAll(blocks[k]) + Assemble(blocks[k + 1..])
    ensures Offset(blocks, k + 1) == Offset(blocks, k) + |EncodeAll(blocks[k])| <= |Assemble(blocks)|
  {
    hide EncodeAll, Assemble;
    var front, here, back := blocks[..k], [blocks[k]], blocks[k + 1..];
    AssembleOne(blocks[k]);
    assert blocks[..k + 1] == front + here;
    assert blocks == front + here + back;
    AssembleConcat(front, here);
    AssembleConcat(front + here, back);
  }

  /** Block `k` lies between its offset and the next. */
  lemma BlockBytes(blocks: seq<seq<Instr>>, k: nat)
    requires k < |blocks|
    ensures Offset(blocks, k) + |EncodeAll(blocks[k])| == Offset(blocks, k + 1) <= |Assemble(blocks)|
    ensures Assemble(blocks)[Offset(blocks, k)..Offset(blocks, k + 1)] == EncodeAll(blocks[k])
  {
    hide EncodeAll, Assemble;
    AssembleAround(blocks, k);
  }

  /** Blocks of the same shapes lie at the same offsets. */
  lemma {:induction false} SameOffsets(a: seq<seq<Instr>>, b: seq<seq<Instr>>, k: nat)
    requires |a| == |b| && k <= |a| && forall j | 0 <= j < |a| :: SameShape(a[j], b[j])
    ensures Offset(a, k) == Offset(b, k)
  {
    if k > 0 {
      SameOffsets(a, b, k - 1);
      AssembleAround(a, k - 1);
      AssembleAround(b, k - 1);
      SameShapeSize(a[k - 1], b[k - 1]);
    }
  }

  /** Overwriting a block by one of its size changes that block alone. */
  lemma PatchBlock(blocks: seq<seq<Instr>>, k: nat, block: seq<Instr>)
    requires k < |blocks| && |EncodeAll(block)| == |EncodeAll(blocks[k])|
    ensures Offset(blocks, k) <= Offset(blocks, k + 1) <= |Assemble(blocks)|
    ensures Assemble(blocks[k := block])
         == Assemble(blocks)[..Offset(blocks, k)] + EncodeAll(block) + Assemble(blocks)[Offset(blocks, k + 1)..]
  {
    hide EncodeAll, Assemble;
    AssembleAround(blocks, k);
    var patched := blocks[k := block];
    AssembleAround(patched, k);
    assert patched[..k] == blocks[..k] && patched[k + 1..] == blocks[k + 1..];
  }

  // Bytes that any disassembler shows for these instructions, one of each kind, with low and high registers.

  lemma KnownMoves()
    ensures Encode(Move(RSP, RBP)) == [0x48, 0x89, 0xE5] && Encode(Move(R8, RAX)) == [0x4C, 0x89, 0xC0]
  {
    assert Fields(3, RSP, RBP) == 0xE5 && Fields(3, R8, RAX) == 0xC0;
    hide Fields;
  }

  lemma KnownStores()
    ensures Encode(Store(RAX, RDI)) == [0x48, 0x89, 0x07] && Encode(Store(RDX, R8)) == [0x49, 0x89, 0x10]
  {
    assert Fields(0, RAX, RDI) == 0x07 && Fields(0, RDX, R8) == 0x10;
    hide Fields;
  }

  lemma KnownLoads()
    ensures Encode(Load(RDI, RAX)) == [0x48, 0x8B, 0x07] && Encode(Load(RSP, R8)) == [0x4C, 0x8B, 0x04, 0x24]
  {
    assert Fields(0, RAX, RDI) == 0x07 && Fields(0, R8, 4) == 0x04 && Fields(0, 4, RSP) == 0x24;
    hide Fields;
  }

  lemma KnownStack()
    ensures Encode(Push(RBP)) == [0x48, 0x55] && Encode(Pop(R9)) == [0x49, 0x59]
    ensures Encode(Call(RAX)) == [0x48, 0xFF, 0xD0] && Encode(Ret) == [0xC3]
  {
    assert Fields(3, 2, RAX) == 0xD0;
    hide Fields;
  }

  lemma KnownImmediate()
    ensures Encode(Imm(RAX, 0x1234)) == [0x48, 0xB8] + [0x34, 0x12, 0, 0, 0, 0, 0, 0]
  {
    assert Little(0, 2) == [0, 0];
    assert Little(0, 4) == [0, 0, 0, 0];
    assert Little(0, 6) == [0, 0, 0, 0, 0, 0];
    assert Little(0x12, 7) == [0x12] + Little(0, 6);
    assert Little(0x1234, 8) == [0x34] + Little(0x12, 7);
  }
}
