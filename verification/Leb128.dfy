/**
 LEB128 variable-length integers (section 7.6 of the DWARF 4 standard) for 32-
 and 64-bit types.
 */
module Leb128 {
  import opened Common

  predicate Width(bits: nat) { bits == 32 || bits == 64 }

  /** The most bytes that a number of this width needs. */
  function Groups(bits: nat): nat { (bits + 6) / 7 }

  lemma {:induction false} Pow2Sum(m: nat, n: nat)
    ensures Pow2(m + n) == Pow2(m) * Pow2(n)
  {
    if m > 0 { Pow2Sum(m - 1, n); }
  }

  lemma Pow2Seven(n: nat)
    ensures Pow2(n + 7) == 128 * Pow2(n)
  {
    assert Pow2(7) == 128;
    Pow2Sum(7, n);
  }

  // ---------------------------------------------------------------------
  // What bytes mean
  // ---------------------------------------------------------------------

  /** The number made of the lower seven bits of each byte, the first byte lowest. */
  function Value(s: seq<byte>): nat {
    if s == [] then 0 else s[0] % 128 + 128 * Value(s[1..])
  }

  /** How many bytes a reader goes over: up to the first without the continuation bit, at most `limit`. */
  function Taken(s: seq<byte>, limit: nat): (n: nat)
    ensures n <= limit && n <= |s|
  {
    if s == [] || limit == 0 then 0 else if s[0] < 128 then 1 else 1 + Taken(s[1..], limit - 1)
  }

  /** The last of these bytes ends a number. */
  predicate Ends(s: seq<byte>) { s != [] && s[|s| - 1] < 128 }

  lemma {:induction false} ValueSnoc(s: seq<byte>, b: byte)
    ensures Value(s + [b]) == Value(s) + Pow2(7 * |s|) * (b % 128)
  {
    if s == [] {
      assert (s + [b])[1..] == [];
    } else {
      ValueSnoc(s[1..], b);
      assert (s + [b])[1..] == s[1..] + [b];
      Pow2Seven(7 * |s| - 7);
      Times(128, Pow2(7 * |s| - 7), b % 128);
    }
  }

  lemma Times(a: int, b: int, c: int)
    ensures a * (b * c) == a * b * c
  {
  }

  lemma {:induction false} ValueBound(s: seq<byte>)
    ensures Value(s) < Pow2(7 * |s|)
  {
    if s != [] {
      ValueBound(s[1..]);
      Pow2Seven(7 * |s| - 7);
    }
  }

  // ---------------------------------------------------------------------
  // Reading
  // ---------------------------------------------------------------------

  /** The bitwise or of a number below `step` and a multiple of `step`, which have no bit in common when `step` is a power of two. */
  function Or(low: nat, high: nat, step: nat): nat
    requires step >= 1 && low < step && high % step == 0
  {
    low + high
  }

  /** A shift to the left in a word of this width. */
  function ShiftLeft(v: nat, shift: nat, bits: nat): nat { (v * Pow2(shift)) % Pow2(bits) }

  lemma ShiftAdds(low: nat, v: nat, shift: nat, bits: nat)
    requires low < Pow2(shift) && shift < bits
    ensures ShiftLeft(v, shift, bits) % Pow2(shift) == 0
    ensures low + ShiftLeft(v, shift, bits) == (low + Pow2(shift) * v) % Pow2(bits)
  {
    var p, q := Pow2(shift), Pow2(bits - shift);
    Pow2Sum(shift, bits - shift);
    ScaledMod(low, v, p, q);
  }

  lemma ScaledMod(low: nat, v: nat, p: nat, q: nat)
    requires low < p && q >= 1
    ensures p * q >= 1 && (v * p) % (p * q) % p == 0
    ensures low + (v * p) % (p * q) == (low + p * v) % (p * q)
  {
    var r, d, m := v % q, v / q, p * q;
    Scaled(d, r, p, q);
    ModOf(v * p, d, r * p, m);
    ModOf(low + p * v, d, low + r * p, m);
    ModOf(r * p, r, 0, p);
  }

  lemma Scaled(d: nat, r: nat, p: nat, q: nat)
    requires p >= 1 && r < q
    ensures (d * q + r) * p == d * (p * q) + r * p
    ensures p * q >= 1 && 0 <= r * p <= p * q - p
  {
    assert (d * q + r) * p == d * q * p + r * p;
    assert d * q * p == d * (p * q);
    assert (q - 1 - r) * p >= 0;
    assert (q - 1 - r) * p == p * q - p - r * p;
  }

  lemma Unique(d: int, r: int, e: int, s: int, m: int)
    requires m >= 1 && d * m + r == e * m + s && 0 <= r < m && 0 <= s < m
    ensures d == e && r == s
  {
    assert (e - d) * m == r - s;
    if e > d { AtLeast(e - d, m); } else if e < d { AtLeast(d - e, m); }
  }

  lemma {:induction false} AtLeast(k: int, m: int)
    requires k >= 1 && m >= 1
    ensures k * m >= m
    decreases k
  {
    if k > 1 { AtLeast(k - 1, m); }
  }

  lemma ModOf(x: int, d: int, r: int, m: int)
    requires m >= 1 && x == d * m + r && 0 <= r < m
    ensures x % m == r && x / m == d
  {
    Unique(d, r, x / m, x % m, m);
  }

  lemma {:induction false} Pow2Grows(m: nat, n: nat)
    requires m <= n
    ensures Pow2(m) <= Pow2(n)
  {
    if m < n { Pow2Grows(m, n - 1); }
  }

  lemma Small(x: nat, m: nat)
    requires x < m
    ensures x % m == x
  {
  }

  /** One more byte of a number that is not complete yet. */
  lemma OneMore(s: seq<byte>, b: byte, bits: nat)
    requires 7 * |s| < bits
    ensures var shift := 7 * |s|;
            && Value(s) % Pow2(bits) == Value(s) < Pow2(shift)
            && ShiftLeft(b % 128, shift, bits) % Pow2(shift) == 0
            && Value(s + [b]) % Pow2(bits) == Value(s) + ShiftLeft(b % 128, shift, bits)
  {
    ValueBound(s);
    Pow2Grows(7 * |s|, bits);
    Small(Value(s), Pow2(bits));
    ShiftAdds(Value(s), b % 128, 7 * |s|, bits);
    ValueSnoc(s, b);
  }

  lemma TakenStep(s: seq<byte>, limit: nat)
    requires s != [] && limit > 0
    ensures Taken(s, limit) == if s[0] < 128 then 1 else 1 + Taken(s[1..], limit - 1)
  {
  }

  method ReadUint(data: seq<byte>, pos: nat, bits: nat) returns (ok: bool, result: nat, next: nat)
    requires Width(bits) && pos <= |data|
    ensures next == pos + Taken(data[pos..], Groups(bits)) <= |data|
    ensures ok == Ends(data[pos..next])
    ensures ok ==> result == Value(data[pos..next]) % Pow2(bits)
  {
    hide Pow2, Value, ShiftLeft;
    result, next, ok := 0, pos, false;
    var shift := 0;
    NoBytes(bits);
    assert data[pos..pos] == [];
    while true
      invariant pos <= next <= |data| && shift == 7 * (next - pos) && next - pos <= Groups(bits)
      invariant result == Value(data[pos..next]) % Pow2(bits)
      invariant Taken(data[pos..], Groups(bits)) == next - pos + Taken(data[next..], Groups(bits) - (next - pos))
      invariant !Ends(data[pos..next]) && !ok
      decreases |data| - next
    {
      if next == |data| { return; }
      if shift >= bits { return; }
      var t := data[next];
      OneMore(data[pos..next], t, bits);
      TakenStep(data[next..], Groups(bits) - (next - pos));
      assert data[pos..next + 1] == data[pos..next] + [t];
      assert data[next..][1..] == data[next + 1..];
      next := next + 1;
      result := Or(result, ShiftLeft(t % 128, shift, bits), Pow2(shift));
      if t < 128 {
        ok := true;
        return;
      }
      shift := shift + 7;
    }
  }

  lemma NoBytes(bits: nat)
    ensures Value([]) % Pow2(bits) == 0
  {
    Small(0, Pow2(bits));
  }

  // ---------------------------------------------------------------------
  // Writing
  // ---------------------------------------------------------------------

  /** The shortest encoding of a number. */
  function Encode(v: nat): (s: seq<byte>)
    ensures Ends(s)
  {
    if v < 128 then [v] else [v % 128 + 128] + Encode(v / 128)
  }

  /** Writes into `room` bytes; what does not fit is left out and reported. */
  method WriteUint(v: nat, room: nat) returns (ok: bool, out: seq<byte>)
    ensures ok == (|Encode(v)| <= room)
    ensures out == Encode(v)[..Min(room, |Encode(v)|)]
  {
    out := [];
    var rest := v;
    while true
      invariant |out| <= room && Encode(v) == out + Encode(rest)
      decreases rest
    {
      var t := rest % 128;
      ghost var before := rest;
      rest := rest / 128;
      if rest != 0 { t := t + 128; }
      assert Encode(before) == [t] + (if rest == 0 then [] else Encode(rest));
      if |out| == room { return false, out; }
      out := out + [t];
      if rest == 0 { return true, out; }
    }
  }

  method LenUint(v: nat) returns (n: nat)
    ensures n == |Encode(v)|
  {
    n := 0;
    var rest := v;
    while true
      invariant |Encode(v)| == n + |Encode(rest)|
      decreases rest
    {
      ghost var before := rest;
      rest := rest / 128;
      n := n + 1;
      assert |Encode(before)| == 1 + (if rest == 0 then 0 else |Encode(rest)|);
      if rest == 0 { return; }
    }
  }

  // ---------------------------------------------------------------------
  // Round trip and minimal length
  // ---------------------------------------------------------------------

  lemma {:induction false} ValueEncode(v: nat)
    ensures Value(Encode(v)) == v
  {
    if v >= 128 {
      ValueEncode(v / 128);
      assert Encode(v)[1..] == Encode(v / 128);
    }
  }

  lemma {:induction false} EncodeFits(v: nat, n: nat)
    requires v < Pow2(7 * n) && n >= 1
    ensures |Encode(v)| <= n
    decreases n
  {
    Pow2Seven(7 * n - 7);
    if v >= 128 {
      assert Pow2(0) == 1;
      assert n > 1;
      EncodeFits(v / 128, n - 1);
    }
  }

  lemma {:induction false} TakenEncode(v: nat, rest: seq<byte>, limit: nat)
    requires |Encode(v)| <= limit
    ensures Taken(Encode(v) + rest, limit) == |Encode(v)|
    decreases v
  {
    if v >= 128 {
      TakenEncode(v / 128, rest, limit - 1);
      assert (Encode(v) + rest)[1..] == Encode(v / 128) + rest;
    }
  }

  /** Reading what was written gives the number back and goes over exactly its bytes, whatever follows. */
  lemma UintRoundTrip(v: nat, rest: seq<byte>, bits: nat)
    requires Width(bits) && v < Pow2(bits)
    ensures var s := Encode(v) + rest;
            var n := Taken(s, Groups(bits));
            n == |Encode(v)| && Ends(s[..n]) && Value(s[..n]) % Pow2(bits) == v
  {
    Pow2Grows(bits, 7 * Groups(bits));
    EncodeFits(v, Groups(bits));
    TakenEncode(v, rest, Groups(bits));
    assert (Encode(v) + rest)[..|Encode(v)|] == Encode(v);
    ValueEncode(v);
    Small(v, Pow2(bits));
  }

  /** No encoding of a number is shorter. */
  lemma EncodeMinimal(s: seq<byte>)
    requires s != []
    ensures |Encode(Value(s))| <= |s|
  {
    ValueBound(s);
    EncodeFits(Value(s), |s|);
  }

  // ---------------------------------------------------------------------
  // Signed numbers
  // ---------------------------------------------------------------------

  predicate Signed(x: int, bits: nat)
    requires bits >= 1
  {
    0 - Pow2(bits - 1) <= x < Pow2(bits - 1)
  }

  /** The bits of a signed number, as an unsigned one. */
  function Bits(x: int, bits: nat): (u: nat)
    ensures u < Pow2(bits)
  {
    x % Pow2(bits)
  }

  /** The signed number with these bits. */
  function FromBits(u: nat, bits: nat): int
    requires bits >= 1
  {
    if u < Pow2(bits - 1) then u else u - Pow2(bits)
  }

  lemma FromBitsOfBits(x: int, bits: nat)
    requires bits >= 1 && Signed(x, bits)
    ensures FromBits(Bits(x, bits), bits) == x
    ensures Bits(x, bits) == if x >= 0 then x else x + Pow2(bits)
  {
    var m := Pow2(bits);
    if x >= 0 { ModOf(x, 0, x, m); } else { ModOf(x, -1, x + m, m); }
  }

  /** The number that signed bytes stand for: bit six of the last byte is its sign. */
  function SignedValue(s: seq<byte>): int
    requires s != []
  {
    Value(s) - (if s[|s| - 1] % 128 >= 64 then Pow2(7 * |s|) else 0)
  }

  /** The shortest signed encoding. Dafny's division by 128 rounds down, as an arithmetic shift does. */
  function EncodeInt(x: int): (s: seq<byte>)
    ensures Ends(s)
    decreases if x < 0 then -x else x + 1
  {
    var t, rest := x % 128, x / 128;
    if (rest == 0 && t < 64) || (rest == -1 && t >= 64) then [t] else [t + 128] + EncodeInt(rest)
  }

  lemma {:induction false} SignedValueEncode(x: int)
    ensures SignedValue(EncodeInt(x)) == x
    decreases if x < 0 then -x else x + 1
  {
    var t, rest, s := x % 128, x / 128, EncodeInt(x);
    if (rest == 0 && t < 64) || (rest == -1 && t >= 64) {
      assert s == [t] && s[1..] == [] && 7 * |s| == 7 && Pow2(7) == 128;
      assert Value(s) == t && x == 128 * rest + t;
    } else {
      SignedValueEncode(rest);
      var r := EncodeInt(rest);
      assert s[1..] == r && s[|s| - 1] == r[|r| - 1] && s[0] % 128 == t;
      Pow2Seven(7 * |r|);
      assert 7 * |s| == 7 * |r| + 7;
    }
  }

  lemma {:induction false} EncodeIntFits(x: int, n: nat)
    requires n >= 1 && 0 - Pow2(7 * n - 1) <= x < Pow2(7 * n - 1)
    ensures |EncodeInt(x)| <= n
    decreases n
  {
    assert Pow2(6) == 64;
    if n > 1 {
      Pow2Seven(7 * n - 8);
      EncodeIntFits(x / 128, n - 1);
    }
  }

  lemma {:induction false} TakenEncodeInt(x: int, rest: seq<byte>, limit: nat)
    requires |EncodeInt(x)| <= limit
    ensures Taken(EncodeInt(x) + rest, limit) == |EncodeInt(x)|
    decreases |EncodeInt(x)|
  {
    var t, r := x % 128, x / 128;
    if !((r == 0 && t < 64) || (r == -1 && t >= 64)) {
      TakenEncodeInt(r, rest, limit - 1);
      assert (EncodeInt(x) + rest)[1..] == EncodeInt(r) + rest;
    }
  }

  lemma {:induction false} SignedValueBound(s: seq<byte>)
    requires s != []
    ensures 0 - Pow2(7 * |s| - 1) <= SignedValue(s) < Pow2(7 * |s| - 1)
  {
    var front, b := s[..|s| - 1], s[|s| - 1];
    assert s == front + [b];
    ValueSnoc(front, b);
    ValueBound(front);
    var p := Pow2(7 * |front|);
    Pow2Sum(6, 7 * |front|);
    Pow2Seven(7 * |front|);
    assert Pow2(6) == 64;
    Product(p, b % 128);
  }

  lemma Product(p: nat, b: nat)
    requires b < 128
    ensures b < 64 ==> 0 <= p * b <= 63 * p
    ensures b >= 64 ==> 64 * p <= p * b <= 127 * p
  {
    Monotone(p, b, 63);
    Monotone(p, 64, b);
    Monotone(p, b, 127);
  }

  lemma Monotone(p: nat, a: nat, b: nat)
    ensures a <= b ==> p * a <= p * b
  {
    if a <= b { assert p * (b - a) >= 0; }
  }

  /** The bits of a floor division by 128: a logical shift, with ones shifted in for a negative number. */
  lemma ShiftRight(x: int, bits: nat)
    requires bits >= 8 && Signed(x, bits)
    ensures Signed(x / 128, bits)
    ensures Bits(x / 128, bits) == Bits(x, bits) / 128 + (if x < 0 then Pow2(bits) - Pow2(bits - 7) else 0)
    ensures Bits(x, bits) % 128 == x % 128
  {
    FromBitsOfBits(x, bits);
    Pow2Seven(bits - 7);
    Pow2Seven(bits - 8);
    FromBitsOfBits(x / 128, bits);
    if x < 0 {
      var p := Pow2(bits - 7);
      ModOf(x + 128 * p, x / 128 + p, x % 128, 128);
    }
  }

  /** One turn of the writer's loop, on the bits of the number that is left. */
  lemma EncodeIntStep(y: int, bits: nat, t: nat, w: nat)
    requires bits >= 8 && Signed(y, bits) && t == Bits(y, bits) % 128
    requires w == Bits(y, bits) / 128 + (if y < 0 then Pow2(bits) - Pow2(bits - 7) else 0)
    ensures t < 128 && Signed(y / 128, bits) && w == Bits(y / 128, bits) && (y < 0) == (y / 128 < 0)
    ensures if (w == 0 && t < 64) || (w == Pow2(bits) - 1 && t >= 64) then EncodeInt(y) == [t]
            else EncodeInt(y) == [t + 128] + EncodeInt(y / 128)
                 && (if y < 0 then -y else y + 1) > (if y / 128 < 0 then -(y / 128) else y / 128 + 1)
  {
    hide Pow2;
    ShiftRight(y, bits);
    BitsOfEnds(y / 128, bits);
  }

  method WriteInt(x: int, bits: nat, room: nat) returns (ok: bool, out: seq<byte>)
    requires Width(bits) && Signed(x, bits)
    ensures ok == (|EncodeInt(x)| <= room)
    ensures out == EncodeInt(x)[..Min(room, |EncodeInt(x)|)]
  {
    hide Pow2, Bits, EncodeInt, Signed;
    out := [];
    var sign, v := x < 0, Bits(x, bits);
    ghost var y := x;
    Pow2Grows(bits - 7, bits);
    while true
      invariant Signed(y, bits) && v == Bits(y, bits) && sign == (y < 0)
      invariant |out| <= room && EncodeInt(x) == out + EncodeInt(y)
      decreases if y < 0 then -y else y + 1
    {
      var t := v % 128;
      v := v / 128;
      if sign { v := v + (Pow2(bits) - Pow2(bits - 7)); }
      EncodeIntStep(y, bits, t, v);
      var more := !((v == 0 && t < 64) || (v == Pow2(bits) - 1 && t >= 64));
      if more { t := t + 128; }
      if |out| == room { return false, out; }
      out := out + [t];
      if !more { return true, out; }
      y := y / 128;
    }
  }

  lemma BitsOfEnds(y: int, bits: nat)
    requires bits >= 8 && Signed(y, bits)
    ensures Bits(y, bits) == 0 <==> y == 0
    ensures Bits(y, bits) == Pow2(bits) - 1 <==> y == -1
  {
    FromBitsOfBits(y, bits);
    assert Pow2(bits) == 2 * Pow2(bits - 1);
  }

  lemma Distribute(d: int, q: int, m: int)
    ensures (d - q) * m == d * m - m * q
  {
  }

  lemma ModMinus(x: int, q: int, m: int)
    requires m >= 1
    ensures (x - m * q) % m == x % m
  {
    var d, r := x / m, x % m;
    Distribute(d, q, m);
    ModOf(x - m * q, d - q, r, m);
  }

  /** The word after reading signed bytes: the seven-bit groups, with ones above when the sign bit is set and there is room. */
  lemma SignExtended(s: seq<byte>, bits: nat)
    requires s != [] && bits >= 8
    ensures Bits(SignedValue(s), bits)
         == Value(s) % Pow2(bits)
            + (if 7 * |s| < bits && s[|s| - 1] % 128 >= 64 then Pow2(bits) - Pow2(7 * |s|) else 0)
  {
    hide Pow2, Value;
    var n, m := 7 * |s|, Pow2(bits);
    if s[|s| - 1] % 128 >= 64 {
      if n < bits {
        ValueBound(s);
        Pow2Grows(n, bits);
        Small(Value(s), m);
        ModOf(SignedValue(s), -1, Value(s) + m - Pow2(n), m);
      } else {
        Pow2Sum(bits, n - bits);
        ModMinus(Value(s), Pow2(n - bits), m);
      }
    }
  }

  method ReadInt(data: seq<byte>, pos: nat, bits: nat) returns (ok: bool, result: int, next: nat)
    requires Width(bits) && pos <= |data|
    ensures next == pos + Taken(data[pos..], Groups(bits)) <= |data|
    ensures ok == Ends(data[pos..next])
    ensures ok ==> result == FromBits(Bits(SignedValue(data[pos..next]), bits), bits)
  {
    hide Pow2, Value, ShiftLeft, Bits, FromBits, SignedValue;
    result, next, ok := 0, pos, false;
    var word, shift := 0, 0;
    NoBytes(bits);
    assert data[pos..pos] == [];
    while true
      invariant pos <= next <= |data| && shift == 7 * (next - pos) && next - pos <= Groups(bits)
      invariant word == Value(data[pos..next]) % Pow2(bits)
      invariant Taken(data[pos..], Groups(bits)) == next - pos + Taken(data[next..], Groups(bits) - (next - pos))
      invariant !Ends(data[pos..next]) && !ok
      decreases |data| - next
    {
      if next == |data| { return; }
      if shift >= bits { return; }
      var t := data[next];
      OneMore(data[pos..next], t, bits);
      TakenStep(data[next..], Groups(bits) - (next - pos));
      assert data[pos..next + 1] == data[pos..next] + [t];
      assert data[next..][1..] == data[next + 1..];
      next := next + 1;
      word := Or(word, ShiftLeft(t % 128, shift, bits), Pow2(shift));
      shift := shift + 7;
      if t < 128 {
        SignExtended(data[pos..next], bits);
        if shift < bits && t >= 64 { word := word + (Pow2(bits) - Pow2(shift)); }
        result := FromBits(word, bits);
        ok := true;
        return;
      }
    }
  }

  /** Reading what was written gives the signed number back and goes over exactly its bytes, whatever follows. */
  lemma IntRoundTrip(x: int, rest: seq<byte>, bits: nat)
    requires Width(bits) && Signed(x, bits)
    ensures var s := EncodeInt(x) + rest;
            var n := Taken(s, Groups(bits));
            n == |EncodeInt(x)| && Ends(s[..n]) && FromBits(Bits(SignedValue(s[..n]), bits), bits) == x
  {
    Pow2Grows(bits - 1, 7 * Groups(bits) - 1);
    EncodeIntFits(x, Groups(bits));
    TakenEncodeInt(x, rest, Groups(bits));
    assert (EncodeInt(x) + rest)[..|EncodeInt(x)|] == EncodeInt(x);
    SignedValueEncode(x);
    FromBitsOfBits(x, bits);
  }

  /** No signed encoding of a number is shorter. */
  lemma EncodeIntMinimal(s: seq<byte>)
    requires s != []
    ensures |EncodeInt(SignedValue(s))| <= |s|
  {
    SignedValueBound(s);
    EncodeIntFits(SignedValue(s), |s|);
  }

  /** The examples of the tables in section 7.6 of the DWARF 4 standard, and two longer ones. */
  lemma KnownBytes()
    ensures Encode(2) == [2] && Encode(127) == [127] && Encode(128) == [0x80, 1] && Encode(129) == [0x81, 1] && Encode(12857) == [0xB9, 0x64]
    ensures Encode(624485) == [0xE5, 0x8E, 0x26]
    ensures EncodeInt(2) == [2] && EncodeInt(-2) == [0x7E] && EncodeInt(127) == [0xFF, 0] && EncodeInt(-127) == [0x81, 0x7F]
    ensures EncodeInt(128) == [0x80, 1] && EncodeInt(-128) == [0x80, 0x7F] && EncodeInt(-123456) == [0xC0, 0xBB, 0x78]
  {
    assert Encode(4878) == [0x8E] + Encode(38);
    assert EncodeInt(-965) == [0xBB] + EncodeInt(-8);
  }

  /** A number is read if and only if one of the first five bytes, or ten for 64 bits, is without the continuation bit. */
  lemma ReadWithin(s: seq<byte>, bits: nat)
    requires Width(bits)
    ensures var limit := if bits == 32 then 5 else 10;
            Ends(s[..Taken(s, Groups(bits))]) <==> exists i | 0 <= i < |s| && i < limit :: s[i] < 128
  {
    TakenEnds(s, Groups(bits));
  }

  lemma {:induction false} TakenEnds(s: seq<byte>, limit: nat)
    ensures Ends(s[..Taken(s, limit)]) <==> exists i | 0 <= i < |s| && i < limit :: s[i] < 128
    decreases limit
  {
    var n := Taken(s, limit);
    if s != [] && limit > 0 {
      if s[0] < 128 {
        assert s[..1] == [s[0]];
      } else {
        var rest := s[1..];
        TakenEnds(rest, limit - 1);
        assert s[..n] == [s[0]] + rest[..n - 1];
        if i :| 0 <= i < |rest| && i < limit - 1 && rest[i] < 128 { assert s[i + 1] < 128; }
        if i :| 0 <= i < |s| && i < limit && s[i] < 128 { assert rest[i - 1] < 128; }
      }
    }
  }
}
