/**
 Values built by the JSON reader and walked by the JSON printer, with the two
 conversions between a token's text and the value it stands for: integers and
 escaped strings.

 Text is a sequence of characters with codes below 256 (unsigned bytes).
 */
module JsonValue {
  import opened Common

  /** A JSON value. `Int` stands for both integer kinds of the source (signed
      and unsigned 64-bit); a floating-point value is kept as the text it was
      read from. Object fields keep their insertion order. */
  datatype Json =
    | Null
    | Bool(b: bool)
    | Int(i: int)
    | Float(text: string)
    | Str(s: string)
    | Arr(items: seq<Json>)
    | Obj(fields: seq<Entry>)

  /** One field of an object. */
  datatype Entry = Entry(key: string, value: Json)

  const TWO_63: int := 0x8000_0000_0000_0000
  const TWO_64: int := 0x1_0000_0000_0000_0000

  predicate HasKey(fields: seq<Entry>, key: string) {
    exists i | 0 <= i < |fields| :: fields[i].key == key
  }

  /** `OrderedMapBase::emplace`: a key that is already present keeps its value. */
  function Emplace(fields: seq<Entry>, key: string, value: Json): seq<Entry> {
    if HasKey(fields, key) then fields else fields + [Entry(key, value)]
  }

  /** The value a key has in an object: that of its first entry. */
  function Lookup(fields: seq<Entry>, key: string): Option<Json> {
    if fields == [] then None else if fields[0].key == key then Some(fields[0].value) else Lookup(fields[1..], key)
  }

  /** A key keeps its first value, all other keys theirs, and no entry moves. */
  lemma {:induction false} EmplaceLookup(fields: seq<Entry>, key: string, value: Json, other: string)
    ensures Lookup(Emplace(fields, key, value), other)
         == if other == key && Lookup(fields, key).None? then Some(value) else Lookup(fields, other)
    ensures fields <= Emplace(fields, key, value)
  {
    if fields == [] {
      assert [Entry(key, value)][1..] == [];
    } else {
      EmplaceLookup(fields[1..], key, value, other);
      var e := Emplace(fields, key, value);
      if HasKey(fields, key) {
        if fields[0].key != key { assert HasKey(fields[1..], key); }
        if fields[0].key == key && other == key { assert Lookup(fields, key) == Some(fields[0].value); }
      } else {
        assert !HasKey(fields[1..], key);
        assert e[1..] == Emplace(fields[1..], key, value);
      }
    }
  }

  // ----- decimal integers -----

  predicate IsDigit(c: char) { '0' <= c <= '9' }

  predicate AllDigits(s: string) { forall i | 0 <= i < |s| :: IsDigit(s[i]) }

  function DigitValue(c: char): nat
    requires IsDigit(c)
  {
    c as int - '0' as int
  }

  function DigitChar(d: nat): (c: char)
    requires d < 10
    ensures IsDigit(c) && DigitValue(c) == d
  {
    ('0' as int + d) as char
  }

  /** The number a digit string denotes. */
  function Decimal(s: string): nat
    requires AllDigits(s)
  {
    if s == "" then 0 else 10 * Decimal(s[..|s| - 1]) + DigitValue(s[|s| - 1])
  }

  /** The digits `number::to_string` writes for a non-negative integer. */
  function Digits(n: nat): (s: string)
    ensures s != "" && AllDigits(s)
    ensures s[0] == '0' ==> n == 0 && s == "0"
  {
    if n < 10 then [DigitChar(n)] else Digits(n / 10) + [DigitChar(n % 10)]
  }

  lemma {:induction false} DecimalOfDigits(n: nat)
    ensures Decimal(Digits(n)) == n
  {
    if n >= 10 {
      DecimalOfDigits(n / 10);
      var s := Digits(n);
      assert s[..|s| - 1] == Digits(n / 10);
    }
  }

  /** State of `PushBackParserInt<uint64_t>`: the sum so far, or overflow. */
  datatype Accumulator = Sum(n: nat) | Overflow

  /** One `push_back`. The guard looks at the product only, so the addition of
      the digit can still wrap around modulo 2^64. */
  function PushDigit(a: Accumulator, d: nat): Accumulator
    requires d < 10
  {
    match a
    case Overflow => Overflow
    case Sum(n) =>
      if n != 0 && n > (TWO_64 - 1) / 10 then Overflow
      else Sum((n * 10 + d) % TWO_64)
  }

  function PushDigits(s: string): Accumulator
    requires AllDigits(s)
  {
    if s == "" then Sum(0) else PushDigit(PushDigits(s[..|s| - 1]), DigitValue(s[|s| - 1]))
  }

  /** The 64-bit accumulation is exact precisely for numbers below 2^64. */
  lemma {:induction false} PushDigitsExact(s: string)
    requires AllDigits(s)
    ensures PushDigits(s) == Sum(Decimal(s)) <==> Decimal(s) < TWO_64
  {
    if s != "" {
      PushDigitsExact(s[..|s| - 1]);
      PushDigitsRange(s[..|s| - 1]);
    }
  }

  lemma {:induction false} PushDigitsRange(s: string)
    requires AllDigits(s)
    ensures PushDigits(s).Sum? ==> PushDigits(s).n < TWO_64
  {
    if s != "" {
      PushDigitsRange(s[..|s| - 1]);
    }
  }

  /** What `init_integer` pushes for an integer token: an integer where 64 bits
      hold it, and otherwise a floating-point value. The second branch is the
      magnitude test, which also turns -2^63 into a floating-point value. */
  function IntegerValue(neg: bool, digits: string): Json
    requires AllDigits(digits)
  {
    var text := (if neg then "-" else "") + digits;
    match PushDigits(digits)
    case Overflow => Float(text)
    case Sum(n) =>
      if neg && n >= TWO_63 then Float(text)
      else Int(if neg then 0 - n else n)
  }

  /** The digits `s` starts with. */
  function DigitPrefix(s: string): (d: string)
    ensures d <= s && AllDigits(d)
    ensures |d| < |s| ==> !IsDigit(s[|d|])
  {
    if s == "" || !IsDigit(s[0]) then "" else [s[0]] + DigitPrefix(s[1..])
  }

  /** `init_integer` on a token: an optional minus and the digits after it;
      without a digit it fails. */
  function IntegerToken(t: string): Option<Json> {
    var neg := t != "" && t[0] == '-';
    var digits := DigitPrefix(if neg then t[1..] else t);
    if digits == "" then None else Some(IntegerValue(neg, digits))
  }

  lemma {:induction false} PrefixStops(s: string, n: nat)
    requires n <= |DigitPrefix(s)| && (n == |s| || !IsDigit(s[n]))
    ensures n == |DigitPrefix(s)|
  {
    if n > 0 { PrefixStops(s[1..], n - 1); }
  }

  /** `init_integer` after the digits have been pushed. */
  lemma IntegerTokenIs(t: string, start: nat, digits: string, acc: Accumulator)
    requires start == (if t != "" && t[0] == '-' then 1 else 0)
    requires digits == DigitPrefix(t[start..]) && acc == PushDigits(digits)
    ensures
      var sign := start == 1;
      IntegerToken(t) ==
      if digits == "" then None
      else if acc.Overflow? || (sign && acc.n >= TWO_63) then Some(Float((if sign then "-" else "") + digits))
      else Some(Int(if sign then 0 - acc.n else acc.n))
  {
    hide DigitPrefix, PushDigits;
    assert start == 0 ==> t[start..] == t;
  }

  /** The digits of a token are pushed one by one. */
  method ParseDigits(t: string, start: nat) returns (acc: Accumulator, n: nat)
    requires start <= |t|
    ensures n == |DigitPrefix(t[start..])| && acc == PushDigits(DigitPrefix(t[start..]))
  {
    acc, n := Sum(0), 0;
    ghost var digits := DigitPrefix(t[start..]);
    while start + n < |t| && IsDigit(t[start + n])
      invariant n <= |digits| && acc == PushDigits(digits[..n])
    {
      assert t[start..][n] == t[start + n];
      assert digits[..n + 1][..n] == digits[..n] && digits[n] == t[start..][n];
      acc := PushDigit(acc, DigitValue(t[start + n]));
      n := n + 1;
    }
    PrefixStops(t[start..], n);
    assert digits[..n] == digits;
  }

  predicate Fits64(i: int) { -TWO_63 <= i < TWO_64 }

  function Magnitude(i: int): nat { if i < 0 then -i else i }

  /** Printing an integer and reading it back gives the same integer, for every
      64-bit value but -2^63. */
  lemma IntegerRoundTrip(i: int)
    requires Fits64(i)
    ensures IntegerValue(i < 0, Digits(Magnitude(i))) == Int(i) <==> i != -TWO_63
  {
    DecimalOfDigits(Magnitude(i));
    PushDigitsExact(Digits(Magnitude(i)));
  }

  lemma PrefixOf(s: string, rest: string)
    requires s != "" && IsDigit(s[0]) && s[1..] == rest && DigitPrefix(rest) == rest
    ensures DigitPrefix(s) == s
  {
  }

  /** Numbers as anyone writes them, and the digits of section 6 of RFC 8259. */
  lemma KnownNumbers()
    ensures Digits(1024) == "1024" && IntegerToken("1024") == Some(Int(1024)) && IntegerToken("-17") == Some(Int(-17))
    ensures forall c: char :: IsDigit(c) <==> 0x30 <= c as int <= 0x39
  {
    hide IntegerToken, IntegerValue, Digits;
    KnownDigits();
    KnownPrefixes();
    IntegerRoundTrip(1024);
    IntegerRoundTrip(-17);
    TokenIs("1024", false, "1024");
    TokenIs("-17", true, "17");
  }

  lemma KnownDigits()
    ensures Digits(1024) == "1024" && Digits(17) == "17"
  {
    assert Digits(1) == "1" && Digits(10) == Digits(1) + "0" && Digits(102) == Digits(10) + "2" && Digits(1024) == Digits(102) + "4";
    assert Digits(17) == Digits(1) + "7";
  }

  lemma KnownPrefixes()
    ensures DigitPrefix("1024") == "1024" && DigitPrefix("17") == "17"
  {
    PrefixOf("4", "");
    PrefixOf("24", "4");
    PrefixOf("024", "24");
    PrefixOf("1024", "024");
    PrefixOf("7", "");
    PrefixOf("17", "7");
  }

  lemma TokenIs(t: string, neg: bool, digits: string)
    requires digits != "" && DigitPrefix(digits) == digits && (t == if neg then "-" + digits else digits)
    ensures IntegerToken(t) == Some(IntegerValue(neg, digits))
  {
    hide IntegerValue;
    if neg { assert t[1..] == digits; } else { assert t[0] == digits[0]; }
  }
}
