/**
 Bit fields packed into a word: masks from a list of widths, and setting and
 getting a field through its mask. A word is its bits, the lowest first.
 */
module BitFlags {
  import opened Common

  type Word = seq<bool>

  function Zeros(n: nat): (r: Word)
    ensures |r| == n && forall i | 0 <= i < n :: !r[i]
  {
    seq(n, _ => false)
  }

  function Not(a: Word): (r: Word)
    ensures |r| == |a| && forall i | 0 <= i < |a| :: r[i] == !a[i]
  {
    seq(|a|, i requires 0 <= i < |a| => !a[i])
  }

  function And(a: Word, b: Word): (r: Word)
    requires |a| == |b|
    ensures |r| == |a| && forall i | 0 <= i < |a| :: r[i] == (a[i] && b[i])
  {
    seq(|a|, i requires 0 <= i < |a| => a[i] && b[i])
  }

  function Or(a: Word, b: Word): (r: Word)
    requires |a| == |b|
    ensures |r| == |a| && forall i | 0 <= i < |a| :: r[i] == (a[i] || b[i])
  {
    seq(|a|, i requires 0 <= i < |a| => a[i] || b[i])
  }

  function ShiftRight(a: Word, n: nat): (r: Word)
    requires n <= |a|
    ensures |r| == |a| && forall i | 0 <= i < |a| :: r[i] == (i + n < |a| && a[i + n])
  {
    a[n..] + Zeros(n)
  }

  function ShiftLeft(a: Word, n: nat): (r: Word)
    requires n <= |a|
    ensures |r| == |a| && forall i | 0 <= i < |a| :: r[i] == (i >= n && a[i - n])
  {
    Zeros(n) + a[..|a| - n]
  }

  /** The number after this one, in a word. */
  function Increment(a: Word): (r: Word)
    ensures |r| == |a|
  {
    if a == [] then [] else if a[0] then [false] + Increment(a[1..]) else [true] + a[1..]
  }

  /** Unary minus in a word. */
  function Negate(a: Word): (r: Word)
    ensures |r| == |a|
  {
    Increment(Not(a))
  }

  // ---------------------------------------------------------------------
  // Numbers
  // ---------------------------------------------------------------------

  function Number(a: Word): nat {
    if a == [] then 0 else (if a[0] then 1 else 0) + 2 * Number(a[1..])
  }

  /** The lowest `n` bits of a number. */
  function Bits(v: nat, n: nat): (r: Word)
    ensures |r| == n
  {
    if n == 0 then [] else [v % 2 == 1] + Bits(v / 2, n - 1)
  }

  lemma {:induction false} NumberBits(v: nat, n: nat)
    requires v < Pow2(n)
    ensures Number(Bits(v, n)) == v
  {
    if n > 0 {
      NumberBits(v / 2, n - 1);
      assert Bits(v, n)[1..] == Bits(v / 2, n - 1);
    }
  }

  lemma {:induction false} NumberBound(a: Word)
    ensures Number(a) < Pow2(|a|)
  {
    if a != [] { NumberBound(a[1..]); }
  }

  lemma {:induction false} NumberZeros(a: Word, n: nat)
    requires n <= |a| && forall i | n <= i < |a| :: !a[i]
    ensures Number(a) == Number(a[..n])
  {
    if n == 0 {
      if a != [] { NumberZeros(a[1..], 0); assert a[1..][..0] == a[..0]; }
    } else {
      NumberZeros(a[1..], n - 1);
      assert a[..n][1..] == a[1..][..n - 1];
    }
  }

  /** A number below a power of two has no bits from there on. */
  lemma {:induction false} BitsAbove(v: nat, w: nat, n: nat)
    requires w <= n && v < Pow2(w)
    ensures Bits(v, n) == Bits(v, w) + Zeros(n - w)
  {
    if w == 0 {
      if n > 0 { BitsAbove(0, 0, n - 1); }
    } else {
      BitsAbove(v / 2, w - 1, n - 1);
    }
  }

  // ---------------------------------------------------------------------
  // Runs of ones
  // ---------------------------------------------------------------------

  /** The word with ones exactly from `low` on, `width` of them. */
  function Run(n: nat, low: nat, width: nat): (r: Word)
    ensures |r| == n && forall i | 0 <= i < n :: r[i] == (low <= i < low + width)
  {
    seq(n, i => low <= i < low + width)
  }

  ghost predicate IsRun(a: Word) {
    exists low: nat, width: nat :: low + width <= |a| && a == Run(|a|, low, width)
  }

  /** `is_separated`: bits are looked at from the highest down. */
  method IsSeparated(t: Word) returns (separated: bool)
    ensures separated == !IsRun(t)
  {
    var n := |t|;
    var i := 0;
    while i < n && !t[n - 1 - i]
      invariant i <= n && forall j | n - i <= j < n :: !t[j]
    {
      i := i + 1;
    }
    ghost var high := n - i;
    while i < n && t[n - 1 - i]
      invariant n - high <= i <= n && forall j | n - i <= j < high :: t[j]
    {
      i := i + 1;
    }
    ghost var low := n - i;
    assert low < high || i == n;
    while i < n
      invariant n - low <= i <= n && forall j | n - i <= j < low :: !t[j]
    {
      if t[n - 1 - i] {
        NotARun(t, n - 1 - i, low - 1, high - 1);
        return true;
      }
      i := i + 1;
    }
    assert t == Run(n, low, high - low);
    return false;
  }

  /** `is_flag_masks`: none is separated. */
  method IsFlagMasks(masks: seq<Word>) returns (ok: bool)
    ensures ok == forall k | 0 <= k < |masks| :: IsRun(masks[k])
  {
    for k := 0 to |masks|
      invariant forall j | 0 <= j < k :: IsRun(masks[j])
    {
      var separated := IsSeparated(masks[k]);
      if separated { return false; }
    }
    return true;
  }

  /** Ones on both sides of a zero are not a run. */
  lemma NotARun(t: Word, low: nat, zero: nat, high: nat)
    requires low < zero < high < |t| && t[low] && !t[zero] && t[high]
    ensures !IsRun(t)
  {
  }

  // ---------------------------------------------------------------------
  // The shift of a mask
  // ---------------------------------------------------------------------

  /** The lowest bit of a mask alone: `v & -v`. */
  lemma {:induction false} LowestBit(a: Word, low: nat)
    requires low < |a| && a[low] && forall i | 0 <= i < low :: !a[i]
    ensures And(a, Negate(a)) == Run(|a|, low, 1)
  {
    hide And, Not, Run;
    var r, n := a[1..], Not(a);
    assert n[1..] == Not(r);
    if low == 0 {
      assert Increment(n) == [true] + Not(r);
    } else {
      LowestBit(r, low - 1);
      assert Increment(n) == [false] + Increment(Not(r));
      forall i | 0 <= i < |a| ensures And(a, Negate(a))[i] == (low <= i < low + 1) {
        if i > 0 { assert And(a, Negate(a))[i] == And(r, Negate(r))[i - 1]; }
      }
    }
  }

  lemma NoLowestBit(a: Word)
    requires forall i | 0 <= i < |a| :: !a[i]
    ensures And(a, Negate(a)) == Zeros(|a|)
  {
  }

  /** `mask_shift`: the place of the lowest one, or zero. */
  method MaskShift(mask: Word) returns (n: nat)
    ensures (forall i | 0 <= i < |mask| :: !mask[i]) ==> n == 0
    ensures (exists i | 0 <= i < |mask| :: mask[i]) ==> n < |mask| && mask[n] && forall i | 0 <= i < n :: !mask[i]
  {
    var v := And(mask, Negate(mask));
    n := 0;
    ghost var any := exists i | 0 <= i < |mask| :: mask[i];
    ghost var low := if any then Lowest(mask) else 0;
    if any { LowestBit(mask, low); } else { NoLowestBit(mask); }
    while v != Zeros(|mask|) && v != Run(|mask|, 0, 1)
      invariant n <= low && v == if any then Run(|mask|, low - n, 1) else Zeros(|mask|)
      decreases low - n
    {
      assert n < low;
      v := ShiftRight(v, 1);
      n := n + 1;
    }
    if any { assert Run(|mask|, low - n, 1)[low - n]; }
  }

  ghost function Lowest(a: Word): (low: nat)
    requires exists i | 0 <= i < |a| :: a[i]
    ensures low < |a| && a[low] && forall i | 0 <= i < low :: !a[i]
  {
    if a[0] then 0 else
      assert exists i | 0 <= i < |a[1..]| :: a[1..][i] by {
        var i :| 0 <= i < |a| && a[i];
        assert a[1..][i - 1];
      }
      1 + Lowest(a[1..])
  }

  // ---------------------------------------------------------------------
  // Masks from widths
  // ---------------------------------------------------------------------

  /** The bits used by the first `k` fields. */
  function Used(widths: seq<nat>, k: nat): nat
    requires k <= |widths|
  {
    if k == 0 then 0 else Used(widths, k - 1) + widths[k - 1]
  }

  lemma {:induction false} UsedGrows(widths: seq<nat>, j: nat, k: nat)
    requires j <= k <= |widths|
    ensures Used(widths, j) <= Used(widths, k)
    decreases k
  {
    if j < k { UsedGrows(widths, j, k - 1); }
  }

  predicate Fits(n: nat, widths: seq<nat>) { Used(widths, |widths|) <= n }

  /** The lowest bit of field `k`: fields are laid out from the highest bit down. */
  function Low(n: nat, widths: seq<nat>, k: nat): (low: nat)
    requires Fits(n, widths) && k < |widths|
    ensures low + widths[k] <= n
  {
    UsedGrows(widths, k + 1, |widths|);
    n - Used(widths, k + 1)
  }

  function Mask(n: nat, widths: seq<nat>, k: nat): (m: Word)
    requires Fits(n, widths) && k < |widths|
    ensures |m| == n
  {
    Run(n, Low(n, widths, k), widths[k])
  }

  /** The word with one bit, counted from the highest. */
  function IndexedBit(n: nat, i: nat): (r: Word)
    requires i < n
    ensures |r| == n
  {
    Run(n, n - 1 - i, 1)
  }

  method InitMasks(n: nat, widths: seq<nat>) returns (masks: seq<Word>)
    requires Fits(n, widths)
    ensures |masks| == |widths| && forall k | 0 <= k < |widths| :: masks[k] == Mask(n, widths, k)
  {
    masks := [];
    var sp := 0;
    for k := 0 to |widths|
      invariant |masks| == k && sp == Used(widths, k)
      invariant forall j | 0 <= j < k :: masks[j] == Mask(n, widths, j)
    {
      UsedGrows(widths, k + 1, |widths|);
      var t := Zeros(n);
      for i := 0 to widths[k]
        invariant t == Run(n, n - sp - i, i)
      {
        t := Or(t, IndexedBit(n, sp + i));
      }
      masks := masks + [t];
      sp := sp + widths[k];
    }
  }

  /** No bit belongs to two fields, and every used bit to one. */
  lemma MasksDisjoint(n: nat, widths: seq<nat>, j: nat, k: nat)
    requires Fits(n, widths) && j < k < |widths|
    ensures And(Mask(n, widths, j), Mask(n, widths, k)) == Zeros(n)
    ensures Low(n, widths, k) + widths[k] <= Low(n, widths, j)
  {
    UsedGrows(widths, j + 1, k);
    UsedGrows(widths, k + 1, |widths|);
  }

  lemma {:induction false} MasksCover(n: nat, widths: seq<nat>, bit: nat, k: nat)
    requires Fits(n, widths) && k <= |widths| && n - Used(widths, k) <= bit < n
    ensures exists j :: 0 <= j < k && Mask(n, widths, j)[bit]
  {
    UsedGrows(widths, k, |widths|);
    if bit >= n - Used(widths, k - 1) {
      MasksCover(n, widths, bit, k - 1);
    } else {
      assert Mask(n, widths, k - 1)[bit];
    }
  }

  /** A mask is never separated. */
  lemma MaskIsRun(n: nat, widths: seq<nat>, k: nat)
    requires Fits(n, widths) && k < |widths|
    ensures IsRun(Mask(n, widths, k))
  {
    UsedGrows(widths, k + 1, |widths|);
  }

  // ---------------------------------------------------------------------
  // Setting and getting
  // ---------------------------------------------------------------------

  /** The number in a field. */
  function Field(flags: Word, low: nat, width: nat): nat
    requires low + width <= |flags|
  {
    Number(flags[low..low + width])
  }

  /** The word with a number put into a field. */
  function SetField(flags: Word, low: nat, width: nat, v: nat): (r: Word)
    requires low + width <= |flags|
    ensures |r| == |flags|
  {
    flags[..low] + Bits(v, width) + flags[low + width..]
  }

  lemma SetThenGet(flags: Word, low: nat, width: nat, v: nat)
    requires low + width <= |flags| && v < Pow2(width)
    ensures Field(SetField(flags, low, width, v), low, width) == v
  {
    assert SetField(flags, low, width, v)[low..low + width] == Bits(v, width);
    NumberBits(v, width);
  }

  lemma SetElsewhere(flags: Word, low: nat, width: nat, v: nat, low2: nat, width2: nat)
    requires low + width <= |flags| && low2 + width2 <= |flags| && (low + width <= low2 || low2 + width2 <= low)
    ensures Field(SetField(flags, low, width, v), low2, width2) == Field(flags, low2, width2)
  {
    assert SetField(flags, low, width, v)[low2..low2 + width2] == flags[low2..low2 + width2];
  }

  /** The largest number of a field. */
  lemma LimitOfMask(n: nat, low: nat, width: nat)
    requires low + width <= n
    ensures Number(ShiftRight(Run(n, low, width), low)) == Pow2(width) - 1
  {
    var s := ShiftRight(Run(n, low, width), low);
    NumberZeros(s, width);
    assert s[..width] == Run(width, 0, width);
    AllOnes(width);
  }

  lemma {:induction false} AllOnes(n: nat)
    ensures Number(Run(n, 0, n)) == Pow2(n) - 1
  {
    if n > 0 {
      AllOnes(n - 1);
      assert Run(n, 0, n)[1..] == Run(n - 1, 0, n - 1);
    }
  }

  /** Clearing the mask and shifting the number into place sets the field. */
  lemma MaskedSet(flags: Word, low: nat, width: nat, v: nat)
    requires low + width <= |flags| && v < Pow2(width)
    ensures Or(And(flags, Not(Run(|flags|, low, width))), ShiftLeft(Bits(v, |flags|), low)) == SetField(flags, low, width, v)
  {
    hide Bits, Pow2, And, Or, Not, Run, ShiftLeft;
    var n := |flags|;
    BitsAbove(v, width, n);
    var b, r := Bits(v, n), SetField(flags, low, width, v);
    forall i | 0 <= i < n
      ensures Or(And(flags, Not(Run(n, low, width))), ShiftLeft(b, low))[i] == r[i]
    {
      if low <= i < low + width { assert r[i] == Bits(v, width)[i - low] == b[i - low]; }
    }
  }

  /** Masking and shifting down gets the field. */
  lemma MaskedGet(flags: Word, low: nat, width: nat)
    requires low + width <= |flags|
    ensures Number(ShiftRight(And(flags, Run(|flags|, low, width)), low)) == Field(flags, low, width)
  {
    var s := ShiftRight(And(flags, Run(|flags|, low, width)), low);
    NumberZeros(s, width);
    assert s[..width] == flags[low..low + width];
  }

  /** `is_one_bit`: the lowest bit is all there is. */
  function IsOneBit(mask: Word): bool { And(mask, Negate(mask)) == mask }

  lemma OneBitMask(n: nat, low: nat, width: nat)
    requires low + width <= n && width >= 1
    ensures IsOneBit(Run(n, low, width)) <==> width == 1
  {
    var m := Run(n, low, width);
    LowestBit(m, low);
    if width > 1 { assert m[low + 1] && !Run(n, low, 1)[low + 1]; }
  }

  /** Setting one field keeps all others, and all bits outside its mask. */
  lemma SetKeepsOthers(flags: Word, widths: seq<nat>, k: nat, v: nat)
    requires Fits(|flags|, widths) && k < |widths|
    ensures var r := SetField(flags, Low(|flags|, widths, k), widths[k], v);
            && (forall j | 0 <= j < |widths| && j != k ::
                  Field(r, Low(|flags|, widths, j), widths[j]) == Field(flags, Low(|flags|, widths, j), widths[j]))
            && forall i | 0 <= i < |flags| && !Mask(|flags|, widths, k)[i] :: r[i] == flags[i]
  {
    var n, low := |flags|, Low(|flags|, widths, k);
    var r := SetField(flags, low, widths[k], v);
    forall j | 0 <= j < |widths| && j != k
      ensures Field(r, Low(n, widths, j), widths[j]) == Field(flags, Low(n, widths, j), widths[j])
    {
      if j < k { MasksDisjoint(n, widths, j, k); } else { MasksDisjoint(n, widths, k, j); }
      SetElsewhere(flags, low, widths[k], v, Low(n, widths, j), widths[j]);
    }
  }

  class Flags {
    const masks: seq<Word>
    ghost const widths: seq<nat>
    var flags: Word

    ghost predicate Valid()
      reads this
    {
      && Fits(|flags|, widths) && (forall k | 0 <= k < |widths| :: widths[k] >= 1)
      && |masks| == |widths| && forall k | 0 <= k < |widths| :: masks[k] == Mask(|flags|, widths, k)
    }

    /** The number in field `k`. */
    ghost function Get(k: nat): nat
      requires Valid() && k < |widths|
      reads this
    {
      Field(flags, Low(|flags|, widths, k), widths[k])
    }

    constructor (n: nat, widths: seq<nat>)
      requires Fits(n, widths) && forall k | 0 <= k < |widths| :: widths[k] >= 1
      ensures Valid() && flags == Zeros(n) && this.widths == widths
      ensures forall k | 0 <= k < |masks| :: IsRun(masks[k])
    {
      hide IsRun, Mask;
      var m := InitMasks(n, widths);
      forall k | 0 <= k < |m| ensures IsRun(m[k]) { MaskIsRun(n, widths, k); }
      masks := m;
      this.widths := widths;
      flags := Zeros(n);
    }

    /** `set`: a number beyond the limit of a wider field is refused; a single bit takes any number as a truth value. */
    method SetValue(k: nat, v: nat) returns (ok: bool)
      requires Valid() && k < |widths|
      modifies this
      ensures Valid() && |flags| == old(|flags|)
      ensures ok == (widths[k] == 1 || v < Pow2(widths[k]))
      ensures !ok ==> flags == old(flags)
      ensures ok ==> Get(k) == if widths[k] == 1 then (if v != 0 then 1 else 0) else v
      ensures forall j | 0 <= j < |widths| && j != k :: Get(j) == old(Get(j))
      ensures forall i | 0 <= i < |flags| && !masks[k][i] :: flags[i] == old(flags[i])
    {
      hide Field, SetField, Negate, IsRun;
      ghost var n, low, width := |flags|, Low(|flags|, widths, k), widths[k];
      var mask := masks[k];
      OneBitMask(n, low, width);
      ghost var value := if width == 1 then (if v != 0 then 1 else 0) else v;
      assert Pow2(1) == 2;
      if IsOneBit(mask) {
        OneBitSet(flags, low);
        if v != 0 { flags := Or(flags, mask); } else { flags := And(flags, Not(mask)); }
      } else {
        var sh := MaskShift(mask);
        assert mask[low] && sh == low;
        LimitOfMask(n, low, width);
        if v > Number(ShiftRight(mask, sh)) { return false; }
        MaskedSet(flags, low, width, v);
        flags := Or(And(flags, Not(mask)), ShiftLeft(Bits(v, |flags|), sh));
      }
      ok := true;
      SetThenGet(old(flags), low, width, value);
      SetKeepsOthers(old(flags), widths, k, value);
    }

    method GetValue(k: nat) returns (v: nat)
      requires Valid() && k < |widths|
      ensures v == Get(k) < Pow2(widths[k])
    {
      hide Negate, Number, And, IsRun, Pow2;
      ghost var n, low, width := |flags|, Low(|flags|, widths, k), widths[k];
      var mask := masks[k];
      OneBitMask(n, low, width);
      MaskedGet(flags, low, width);
      NumberBound(flags[low..low + width]);
      if IsOneBit(mask) {
        OneBitGet(flags, low);
        v := if And(flags, mask) != Zeros(|flags|) then 1 else 0;
      } else {
        var sh := MaskShift(mask);
        assert mask[low] && sh == low;
        v := Number(ShiftRight(And(flags, mask), sh));
      }
    }
  }

  lemma OneBitGet(flags: Word, low: nat)
    requires low < |flags|
    ensures Field(flags, low, 1) == if And(flags, Run(|flags|, low, 1)) != Zeros(|flags|) then 1 else 0
  {
    assert flags[low..low + 1] == [flags[low]] && [flags[low]][1..] == [];
    assert Number([flags[low]]) == if flags[low] then 1 else 0;
    assert And(flags, Run(|flags|, low, 1))[low] == flags[low];
    assert !Zeros(|flags|)[low];
    if !flags[low] { assert And(flags, Run(|flags|, low, 1)) == Zeros(|flags|); }
  }

  lemma OneBitSet(flags: Word, low: nat)
    requires low < |flags|
    ensures Or(flags, Run(|flags|, low, 1)) == SetField(flags, low, 1, 1)
    ensures And(flags, Not(Run(|flags|, low, 1))) == SetField(flags, low, 1, 0)
  {
  }
}
