/**
 The bytes of STUN messages: header, attributes, and the mapped address with or
 without the exclusive-or by the magic cookie and transaction.
 */
module StunMessage {
  import opened Common

  const COOKIE: seq<byte> := [0x21, 0x12, 0xA4, 0x42]

  const BINDING_RESPONSE := 0x0101
  const BINDING_ERROR := 0x0111
  const MAPPED_ADDRESS := 0x0001
  const XOR_MAPPED_ADDRESS := 0x0020

  function Num16(hi: byte, lo: byte): (n: nat)
    ensures n < 0x1_0000
  {
    hi * 256 + lo
  }

  function High(n: nat): byte
    requires n < 0x1_0000
  {
    n / 256
  }

  function Lower(n: nat): byte { n % 256 }

  lemma Num16Back(n: nat)
    requires n < 0x1_0000
    ensures Num16(High(n), Lower(n)) == n
  {
  }

  // ---------------------------------------------------------------------
  // Addresses
  // ---------------------------------------------------------------------

  datatype Address = Address(family: byte, port: nat, bytes: seq<byte>) {
    predicate Valid() { port < 0x1_0000 && |bytes| == 16 }
  }

  /** The length of an address in bytes; every family but the first has sixteen. */
  function Width(family: byte): nat { if family == 1 then 4 else 16 }

  /** The exclusive or of the lowest `n` bits. */
  function XorBits(a: nat, b: nat, n: nat): (r: nat)
    decreases n
  {
    if n == 0 then 0 else (if a % 2 == b % 2 then 0 else 1) + 2 * XorBits(a / 2, b / 2, n - 1)
  }

  lemma {:induction false} XorTwice(a: nat, b: nat, n: nat)
    requires a < Pow2(n)
    ensures XorBits(a, b, n) < Pow2(n) && XorBits(XorBits(a, b, n), b, n) == a
    decreases n
  {
    if n > 0 { XorTwice(a / 2, b / 2, n - 1); }
  }

  function Xor(a: byte, b: byte): byte {
    assert Pow2(8) == 256;
    XorTwice(a, b, 8);
    XorBits(a, b, 8)
  }

  /** Each byte is changed by the byte of the key at the same place. */
  function Mix(s: seq<byte>, key: seq<byte>): (r: seq<byte>)
    requires |s| <= |key|
    ensures |r| == |s| && forall i | 0 <= i < |s| :: r[i] == Xor(s[i], key[i])
  {
    seq(|s|, i requires 0 <= i < |s| => Xor(s[i], key[i]))
  }

  lemma MixTwice(s: seq<byte>, key: seq<byte>)
    requires |s| <= |key|
    ensures Mix(Mix(s, key), key) == s
  {
    forall i | 0 <= i < |s| ensures Mix(Mix(s, key), key)[i] == s[i] {
      assert Pow2(8) == 256;
      XorTwice(s[i], key[i], 8);
    }
  }

  /** `pack`, with a key of all zeros when there is none. */
  function Pack(a: Address, key: seq<byte>): (r: seq<byte>)
    requires a.Valid() && (a.family == 1 || a.family == 2) && |key| >= 16
    ensures |r| == 4 + Width(a.family)
  {
    [0, a.family] + Mix([High(a.port), Lower(a.port)], key) + Mix(a.bytes[..Width(a.family)], key)
  }

  /**
   `unpack` of an attribute value into an address. A first byte that is not zero
   is not refused: the family is then left as it was and not read.
   */
  function Unpack(value: seq<byte>, key: seq<byte>, before: Address): (r: (bool, Address))
    requires before.Valid() && |key| >= 16
    ensures r.1.Valid()
  {
    var at := if |value| >= 2 && value[0] == 0 then 2 else if value == [] then 0 else 1;
    var a := if at == 2 then before.(family := value[1]) else before;
    if |value| < at + 2 then (false, a)
    else
      var p := Mix(value[at..at + 2], key);
      var b := a.(port := Num16(p[0], p[1]));
      var width := Width(b.family);
      if |value| < at + 2 + width then (false, b)
      else (true, b.(bytes := Mix(value[at + 2..at + 2 + width], key) + b.bytes[width..]))
  }

  /** Reading a packed address gives its family, its port and its bytes, whatever follows and whatever was there. */
  lemma UnpackPacked(a: Address, key: seq<byte>, rest: seq<byte>, before: Address)
    requires a.Valid() && before.Valid() && (a.family == 1 || a.family == 2) && |key| >= 16
    ensures var r := Unpack(Pack(a, key) + rest, key, before);
            && r.0 && r.1.family == a.family && r.1.port == a.port
            && r.1.bytes[..Width(a.family)] == a.bytes[..Width(a.family)]
  {
    hide Mix;
    var v, width, port := Pack(a, key) + rest, Width(a.family), [High(a.port), Lower(a.port)];
    assert v[0] == 0 && v[1] == a.family;
    assert v[2..4] == Mix(port, key);
    MixTwice(port, key);
    Num16Back(a.port);
    assert v[4..4 + width] == Mix(a.bytes[..width], key);
    MixTwice(a.bytes[..width], key);
  }

  // ---------------------------------------------------------------------
  // Attributes
  // ---------------------------------------------------------------------

  datatype Attribute = Attribute(kind: nat, value: seq<byte>) {
    predicate Valid() { kind < 0x1_0000 && |value| < 0x1_0000 }
  }

  function AttributeBytes(a: Attribute): (b: seq<byte>)
    requires a.Valid()
    ensures |b| == 4 + |a.value|
  {
    [High(a.kind), Lower(a.kind), High(|a.value|), Lower(|a.value|)] + a.value
  }

  /** `read_attr`: one attribute from the front, if it is there in full. */
  function ReadAttribute(s: seq<byte>): (r: Option<Attribute>)
    ensures r.Some? ==> r.value.Valid() && 4 + |r.value.value| <= |s|
  {
    if |s| < 4 || |s| < 4 + Num16(s[2], s[3]) then None
    else Some(Attribute(Num16(s[0], s[1]), s[4..4 + Num16(s[2], s[3])]))
  }

  /** All attributes that can be read one after another. */
  function Attributes(s: seq<byte>): seq<Attribute>
    decreases |s|
  {
    match ReadAttribute(s)
    case None => []
    case Some(a) => [a] + Attributes(s[4 + |a.value|..])
  }

  function AllBytes(list: seq<Attribute>): seq<byte>
    requires forall i | 0 <= i < |list| :: list[i].Valid()
  {
    if list == [] then [] else AttributeBytes(list[0]) + AllBytes(list[1..])
  }

  lemma ReadBack(a: Attribute, rest: seq<byte>)
    requires a.Valid()
    ensures ReadAttribute(AttributeBytes(a) + rest) == Some(a)
    ensures (AttributeBytes(a) + rest)[4 + |a.value|..] == rest
  {
    var s := AttributeBytes(a) + rest;
    Num16Back(a.kind);
    Num16Back(|a.value|);
    assert s[4..4 + |a.value|] == a.value;
  }

  /** Written attributes are read back, up to something that is no attribute. */
  lemma {:induction false} AttributesBack(list: seq<Attribute>, rest: seq<byte>)
    requires forall i | 0 <= i < |list| :: list[i].Valid()
    requires ReadAttribute(rest).None?
    ensures Attributes(AllBytes(list) + rest) == list
  {
    if list == [] {
      assert AllBytes(list) + rest == rest;
    } else {
      var more := AllBytes(list[1..]) + rest;
      assert AllBytes(list) + rest == AttributeBytes(list[0]) + more;
      ReadBack(list[0], more);
      AttributesBack(list[1..], rest);
    }
  }

  // ---------------------------------------------------------------------
  // Replies
  // ---------------------------------------------------------------------

  datatype Reading = Unreadable | Truncated | ErrorReply | NoAddress | BadAddress(touched: Address) | Found(address: Address) | OtherType

  predicate CarriesAddress(a: Attribute) { a.kind == MAPPED_ADDRESS || a.kind == XOR_MAPPED_ADDRESS }

  /** The first attribute that carries an address decides. */
  function FirstAddress(list: seq<Attribute>, key: seq<byte>, before: Address): Reading
    requires before.Valid() && |key| >= 16
  {
    if list == [] then NoAddress
    else if CarriesAddress(list[0]) then
      var r := Unpack(list[0].value, if list[0].kind == XOR_MAPPED_ADDRESS then key else ZEROS, before);
      if r.0 then Found(r.1) else BadAddress(r.1)
    else FirstAddress(list[1..], key, before)
  }

  const ZEROS: seq<byte> := [0, 0, 0, 0, 0, 0, 0, 0, 0, 0, 0, 0, 0, 0, 0, 0]

  /** What a message means: a header of twenty bytes with the cookie, then attributes. */
  function Meaning(msg: seq<byte>, before: Address): Reading
    requires before.Valid()
  {
    if |msg| < 20 || msg[4..8] != COOKIE then Unreadable
    else if |msg| - 20 < Num16(msg[2], msg[3]) then Truncated
    else if Num16(msg[0], msg[1]) == BINDING_ERROR then ErrorReply
    else if Num16(msg[0], msg[1]) == BINDING_RESPONSE then FirstAddress(Attributes(msg[20..]), msg[4..20], before)
    else OtherType
  }

  /** `handle_response`: the loop over the attributes of a reply. */
  method HandleResponse(msg: seq<byte>, before: Address) returns (r: Reading)
    requires before.Valid()
    ensures r == Meaning(msg, before)
  {
    if |msg| < 20 || msg[4..8] != COOKIE { return Unreadable; }
    if |msg| - 20 < Num16(msg[2], msg[3]) { return Truncated; }
    var kind := Num16(msg[0], msg[1]);
    if kind == BINDING_ERROR { return ErrorReply; }
    if kind != BINDING_RESPONSE { return OtherType; }
    var at := 20;
    while true
      invariant 20 <= at <= |msg|
      invariant Meaning(msg, before) == FirstAddress(Attributes(msg[at..]), msg[4..20], before)
      decreases |msg| - at
    {
      var attribute := ReadAttribute(msg[at..]);
      if attribute.None? { return NoAddress; }
      var a := attribute.value;
      if CarriesAddress(a) {
        var key := if a.kind == XOR_MAPPED_ADDRESS then msg[4..20] else ZEROS;
        var result := Unpack(a.value, key, before);
        return if result.0 then Found(result.1) else BadAddress(result.1);
      }
      assert msg[at..][4 + |a.value|..] == msg[at + 4 + |a.value|..];
      at := at + 4 + |a.value|;
    }
  }

  /** A binding response as a server writes it. */
  function ResponseBytes(transaction: seq<byte>, list: seq<Attribute>): seq<byte>
    requires |transaction| == 12 && (forall i | 0 <= i < |list| :: list[i].Valid()) && |AllBytes(list)| < 0x1_0000
  {
    [High(BINDING_RESPONSE), Lower(BINDING_RESPONSE), High(|AllBytes(list)|), Lower(|AllBytes(list)|)] + COOKIE + transaction
    + AllBytes(list)
  }

  /** A written response means what its attributes say. */
  lemma ResponseMeaning(transaction: seq<byte>, list: seq<Attribute>, before: Address)
    requires |transaction| == 12 && before.Valid()
    requires (forall i | 0 <= i < |list| :: list[i].Valid()) && |AllBytes(list)| < 0x1_0000
    ensures Meaning(ResponseBytes(transaction, list), before) == FirstAddress(list, COOKIE + transaction, before)
  {
    hide FirstAddress, Attributes, AllBytes, Num16, High, Lower;
    var msg, body := ResponseBytes(transaction, list), AllBytes(list);
    assert msg[0..4] == [High(BINDING_RESPONSE), Lower(BINDING_RESPONSE), High(|body|), Lower(|body|)];
    Num16Back(BINDING_RESPONSE);
    Num16Back(|body|);
    assert msg[4..8] == COOKIE && msg[4..20] == COOKIE + transaction;
    assert msg[20..] == body + [];
    AttributesBack(list, []);
  }

  lemma {:induction false} SkipTo(list: seq<Attribute>, k: nat, key: seq<byte>, before: Address)
    requires before.Valid() && |key| >= 16 && k <= |list| && forall i | 0 <= i < k :: !CarriesAddress(list[i])
    ensures FirstAddress(list, key, before) == FirstAddress(list[k..], key, before)
  {
    if k > 0 {
      SkipTo(list[1..], k - 1, key, before);
      assert list[1..][k - 1..] == list[k..];
    } else {
      assert list[0..] == list;
    }
  }

  /**
   A response whose first address attribute is a packed address, with or without
   the exclusive or, gives that address, whatever attributes stand around it.
   */
  lemma ResponseGivesAddress(transaction: seq<byte>, list: seq<Attribute>, k: nat, a: Address, before: Address)
    requires |transaction| == 12 && a.Valid() && before.Valid() && (a.family == 1 || a.family == 2)
    requires (forall i | 0 <= i < |list| :: list[i].Valid()) && |AllBytes(list)| < 0x1_0000
    requires k < |list| && forall i | 0 <= i < k :: !CarriesAddress(list[i])
    requires list[k] == Attribute(MAPPED_ADDRESS, Pack(a, ZEROS)) || list[k] == Attribute(XOR_MAPPED_ADDRESS, Pack(a, COOKIE + transaction))
    ensures var m := Meaning(ResponseBytes(transaction, list), before);
            && m.Found? && m.address.Valid() && m.address.family == a.family && m.address.port == a.port
            && m.address.bytes[..Width(a.family)] == a.bytes[..Width(a.family)]
  {
    hide Meaning, ResponseBytes, Pack, Unpack, AllBytes;
    ResponseMeaning(transaction, list, before);
    SkipTo(list, k, COOKIE + transaction, before);
    var key := if list[k].kind == XOR_MAPPED_ADDRESS then COOKIE + transaction else ZEROS;
    UnpackPacked(a, key, [], before);
    assert Pack(a, key) + [] == Pack(a, key);
    assert list[k..][0] == list[k];
  }

  // ---------------------------------------------------------------------
  // Requests
  // ---------------------------------------------------------------------

  const BINDING_REQUEST := 0x0001
  const CHANGE_REQUEST := 0x0003

  /** From where the server is asked to answer: from its other address, from its other port. */
  datatype Change = Change(ip: bool, port: bool)

  function RequestHeader(transaction: seq<byte>, length: nat): (r: seq<byte>)
    requires |transaction| == 12 && length < 0x1_0000
    ensures |r| == 20
  {
    [High(BINDING_REQUEST), Lower(BINDING_REQUEST), High(length), Lower(length)] + COOKIE + transaction
  }

  function ChangeAttribute(c: Change): (a: Attribute)
    ensures a.Valid() && |a.value| == 4
  {
    Attribute(CHANGE_REQUEST, [0, 0, 0, (if c.ip then 4 else 0) + (if c.port then 2 else 0)])
  }

  /** A request with or without the attribute that asks for a change, as the client writes it. */
  function RequestBytes(transaction: seq<byte>, change: Option<Change>): seq<byte>
    requires |transaction| == 12
  {
    match change
    case None => RequestHeader(transaction, 0) + []
    case Some(c) => RequestHeader(transaction, 8) + (AttributeBytes(ChangeAttribute(c)) + [])
  }

  /** The first attribute that asks for a change decides; bits 2 and 1 of its last byte are the two flags. */
  function FirstChange(list: seq<Attribute>): Change {
    if list == [] then Change(false, false)
    else if list[0].kind == CHANGE_REQUEST && |list[0].value| == 4
    then Change(list[0].value[3] / 4 % 2 == 1, list[0].value[3] / 2 % 2 == 1)
    else FirstChange(list[1..])
  }

  /** What a server reads in a binding request, after sections 8 and 11.2.4 of RFC 3489. */
  function RequestMeaning(msg: seq<byte>): Option<Change> {
    if |msg| < 20 || msg[4..8] != COOKIE || Num16(msg[0], msg[1]) != BINDING_REQUEST || |msg| - 20 != Num16(msg[2], msg[3]) then None
    else Some(FirstChange(Attributes(msg[20..])))
  }

  lemma HeaderRead(transaction: seq<byte>, body: seq<byte>)
    requires |transaction| == 12 && |body| < 0x1_0000
    ensures RequestMeaning(RequestHeader(transaction, |body|) + body) == Some(FirstChange(Attributes(body)))
  {
    hide Attributes, FirstChange, High, Lower, Num16, RequestHeader;
    var head := RequestHeader(transaction, |body|);
    HeadParts(transaction, |body|);
    HeadKept(head, body);
    Num16Back(BINDING_REQUEST);
    Num16Back(|body|);
  }

  lemma HeadParts(transaction: seq<byte>, length: nat)
    requires |transaction| == 12 && length < 0x1_0000
    ensures var head := RequestHeader(transaction, length);
            && head[0] == High(BINDING_REQUEST) && head[1] == Lower(BINDING_REQUEST)
            && head[2] == High(length) && head[3] == Lower(length) && head[4..8] == COOKIE
  {
    hide High, Lower;
  }

  lemma HeadKept(head: seq<byte>, body: seq<byte>)
    requires |head| == 20
    ensures var msg := head + body;
            && |msg| == 20 + |body| && msg[0] == head[0] && msg[1] == head[1] && msg[2] == head[2] && msg[3] == head[3]
            && msg[4..8] == head[4..8] && msg[20..] == body
  {
  }

  /** A server reads in a request what the client asked for. */
  lemma RequestBack(transaction: seq<byte>, change: Option<Change>)
    requires |transaction| == 12
    ensures RequestMeaning(RequestBytes(transaction, change)) == Some(if change.Some? then change.value else Change(false, false))
  {
    hide Attributes, FirstChange, RequestMeaning, RequestHeader, AttributeBytes, ChangeAttribute;
    match change
    case None =>
      HeaderRead(transaction, []);
      NoAttribute();
    case Some(c) =>
      HeaderRead(transaction, AttributeBytes(ChangeAttribute(c)) + []);
      OneAttribute(ChangeAttribute(c));
      ChangeRead(c);
  }

  lemma OneAttribute(a: Attribute)
    requires a.Valid()
    ensures Attributes(AttributeBytes(a) + []) == [a]
  {
    ReadBack(a, []);
    assert Attributes([]) == [];
  }

  lemma ChangeRead(c: Change)
    ensures FirstChange([ChangeAttribute(c)]) == c
  {
  }

  lemma NoAttribute()
    ensures FirstChange(Attributes([])) == Change(false, false)
  {
  }

  // ---------------------------------------------------------------------
  // A response as it stands on the wire
  // ---------------------------------------------------------------------

  /** The exclusive or, bit by bit. */
  lemma {:induction false} XorBit(a: nat, b: nat, n: nat, i: nat)
    requires i < n
    ensures XorBits(a, b, n) / Pow2(i) % 2 == if a / Pow2(i) % 2 == b / Pow2(i) % 2 then 0 else 1
    decreases n
  {
    HalfXor(a, b, n);
    if i == 0 {
      assert Pow2(0) == 1;
    } else {
      assert Pow2(i) == 2 * Pow2(i - 1);
      hide XorBits, Pow2;
      XorBit(a / 2, b / 2, n - 1, i - 1);
      Halves(a, Pow2(i - 1));
      Halves(b, Pow2(i - 1));
      Halves(XorBits(a, b, n), Pow2(i - 1));
    }
  }

  lemma HalfXor(a: nat, b: nat, n: nat)
    requires n > 0
    ensures XorBits(a, b, n) / 2 == XorBits(a / 2, b / 2, n - 1)
    ensures XorBits(a, b, n) % 2 == if a % 2 == b % 2 then 0 else 1
  {
  }

  lemma Halves(a: nat, p: nat)
    requires p >= 1
    ensures a / (2 * p) == a / 2 / p
  {
    var q, r := a / 2 / p, a / 2 % p;
    assert a / 2 == p * q + r;
    assert a == 2 * (a / 2) + a % 2;
    assert 2 * (p * q) == (2 * p) * q;
    assert a == (2 * p) * q + (2 * r + a % 2) && 0 <= 2 * r + a % 2 < 2 * p;
    Quotient(a, 2 * p, q, 2 * r + a % 2);
  }

  lemma Quotient(a: nat, p: nat, q: nat, r: nat)
    requires p >= 1 && a == p * q + r && r < p
    ensures a / p == q
  {
    var d := a / p;
    assert a == p * d + a % p;
    assert p * (d - q) == r - a % p;
    Multiple(p, d - q);
  }

  lemma Multiple(p: int, k: int)
    requires p >= 1 && -p < p * k < p
    ensures k == 0
  {
  }

  lemma KnownXor()
    ensures Xor(0xA1, 0x21) == 0x80 && Xor(0x47, 0x12) == 0x55 && Xor(0xE1, 0x21) == 192
    ensures Xor(0x12, 0x12) == 0 && Xor(0xA6, 0xA4) == 2 && Xor(0x43, 0x42) == 1
  {
    KnownXor1();
    KnownXor2();
  }

  lemma KnownXor1()
    ensures XorBits(0xA1, 0x21, 8) == 0x80 && XorBits(0x47, 0x12, 8) == 0x55 && XorBits(0xE1, 0x21, 8) == 192
  {
    assert XorBits(0x0A, 0x02, 4) == 8;
    assert XorBits(0x04, 0x01, 4) == 5;
    assert XorBits(0x0E, 0x02, 4) == 12;
  }

  lemma KnownXor2()
    ensures XorBits(0x12, 0x12, 8) == 0 && XorBits(0xA6, 0xA4, 8) == 2 && XorBits(0x43, 0x42, 8) == 1
  {
    assert XorBits(0x01, 0x01, 4) == 0;
    assert XorBits(0x0A, 0x0A, 4) == 0;
    assert XorBits(0x04, 0x04, 4) == 0;
  }

  lemma KnownUnpack(transaction: seq<byte>, before: Address)
    requires |transaction| == 12 && before.Valid()
    ensures Unpack([0x00, 0x01, 0xA1, 0x47, 0xE1, 0x12, 0xA6, 0x43], COOKIE + transaction, before)
         == (true, Address(1, 32853, [192, 0, 2, 1] + before.bytes[4..]))
  {
    hide Xor;
    KnownXor();
    var value, key: seq<byte> := [0x00, 0x01, 0xA1, 0x47, 0xE1, 0x12, 0xA6, 0x43], COOKIE + transaction;
    assert value[2..4] == [0xA1, 0x47] && value[4..8] == [0xE1, 0x12, 0xA6, 0x43];
    assert Mix([0xA1, 0x47], key) == [0x80, 0x55];
    assert Mix([0xE1, 0x12, 0xA6, 0x43], key) == [192, 0, 2, 1];
  }

  /** The address attribute of the sample in section 2.2 of RFC 5769. */
  const SAMPLE: seq<byte> := [0x00, 0x20, 0x00, 0x08, 0x00, 0x01, 0xA1, 0x47, 0xE1, 0x12, 0xA6, 0x43]

  /** A binding response with that attribute alone, byte by byte, means 192.0.2.1, port 32853. */
  lemma KnownResponse(transaction: seq<byte>, before: Address)
    requires |transaction| == 12 && before.Valid()
    ensures Meaning([0x01, 0x01, 0x00, 0x0C] + [0x21, 0x12, 0xA4, 0x42] + transaction + SAMPLE, before)
         == Found(Address(1, 32853, [192, 0, 2, 1] + before.bytes[4..]))
  {
    hide Meaning, Unpack, AllBytes, AttributeBytes;
    var a := Attribute(XOR_MAPPED_ADDRESS, [0x00, 0x01, 0xA1, 0x47, 0xE1, 0x12, 0xA6, 0x43]);
    KnownAttribute(a);
    ResponseMeaning(transaction, [a], before);
    assert [High(BINDING_RESPONSE), Lower(BINDING_RESPONSE), High(|SAMPLE|), Lower(|SAMPLE|)] == [0x01, 0x01, 0x00, 0x0C];
    KnownUnpack(transaction, before);
  }

  lemma KnownAttribute(a: Attribute)
    requires a == Attribute(XOR_MAPPED_ADDRESS, [0x00, 0x01, 0xA1, 0x47, 0xE1, 0x12, 0xA6, 0x43])
    ensures a.Valid() && AllBytes([a]) == SAMPLE && |SAMPLE| == 12
  {
    assert [a][1..] == [];
    assert AllBytes([]) == [];
  }

  /** A first byte that is not zero is skipped and no family is read: port and address follow it, with the family that was there. */
  lemma UnpackOdd(value: seq<byte>, key: seq<byte>, before: Address)
    requires before.Valid() && |key| >= 16 && |value| >= 3 && value[0] != 0
    ensures var (ok, a) := Unpack(value, key, before);
            && a.family == before.family && a.port == Num16(Xor(value[1], key[0]), Xor(value[2], key[1]))
            && (ok <==> |value| >= 3 + Width(before.family))
            && (ok ==> forall i | 0 <= i < Width(before.family) :: a.bytes[i] == Xor(value[3 + i], key[i]))
            && (!ok ==> a.bytes == before.bytes)
  {
    hide Xor;
    assert value[1..3][0] == value[1] && value[1..3][1] == value[2];
  }
}
