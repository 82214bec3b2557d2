/**
 String escaping: the escape sets, `escape_str` as the printer calls it, and
 `unescape_str` as the reader calls it (all escapes but `\U` enabled).
 */
module Escape {
  import opened Common
  import opened JsonValue

  /** How strings are printed: with HTML characters escaped or not, and with
      unprintable characters as `\u` escapes or left alone. */
  datatype EscapeMode = EscapeMode(html: bool, utf16: bool)

  /** The name `json_set` (with `html`) or `json_set_no_html` gives a character. */
  function NameOf(mode: EscapeMode, c: char): Option<string> {
    if c == '\n' then Some("n")
    else if c == '\r' then Some("r")
    else if c == '\t' then Some("t")
    else if c == 8 as char then Some("b")
    else if c == 12 as char then Some("f")
    else if c == '\\' then Some("\\")
    else if c == '\"' then Some("\"")
    else if mode.html && c == '/' then Some("/")
    else if mode.html && c == '<' then Some("u003c")
    else if mode.html && c == '>' then Some("u003e")
    else None
  }

  /** The character `default_set` gives a name; all its names are one character. */
  function CharNamed(n: char): Option<char> {
    if n == 'n' then Some('\n')
    else if n == 'r' then Some('\r')
    else if n == 't' then Some('\t')
    else if n == 'a' then Some(7 as char)
    else if n == 'b' then Some(8 as char)
    else if n == 'v' then Some(11 as char)
    else if n == 'e' then Some(27 as char)
    else if n == 'f' then Some(12 as char)
    else if n == '\\' || n == '\"' || n == '\'' then Some(n)
    else None
  }

  // ----- escaping -----

  /** `default_should_escape`: neither printable ASCII nor a space. */
  predicate Unprintable(c: char) {
    !(0x21 <= c as int <= 0x7e) && c != ' '
  }

  predicate Ascii(c: char) { c as int < 0x80 }

  /** Which strings the model covers: bytes above 0x7f are copied when `\u`
      escaping is off (they are then a well-formed UTF-8 text), and excluded
      when it is on. */
  predicate Printable(mode: EscapeMode, s: string) {
    mode.utf16 ==> forall i | 0 <= i < |s| :: Ascii(s[i])
  }

  function HexChar(d: nat): char
    requires d < 16
  {
    if d < 10 then ('0' as int + d) as char else ('a' as int + d - 10) as char
  }

  function EscapeChar(mode: EscapeMode, c: char): (r: string)
    requires mode.utf16 ==> Ascii(c)
    ensures r == [c] || (|r| >= 2 && r[0] == '\\')
  {
    match NameOf(mode, c)
    case Some(name) => "\\" + name
    case None =>
      if Unprintable(c) && mode.utf16
      then "\\u00" + [HexChar(c as int / 16), HexChar(c as int % 16)]
      else [c]
  }

  function Escaped(mode: EscapeMode, s: string): string
    requires Printable(mode, s)
  {
    if s == "" then "" else EscapeChar(mode, s[0]) + Escaped(mode, s[1..])
  }

  /** `escape_str`: one pass over the input, each character looked up in the
      escape set. */
  method EscapeStr(mode: EscapeMode, s: string) returns (out: string)
    requires Printable(mode, s)
    ensures out == Escaped(mode, s)
  {
    out := "";
    var rptr := 0;
    assert s[0..] == s;
    while rptr < |s|
      invariant 0 <= rptr <= |s|
      invariant out + Escaped(mode, s[rptr..]) == Escaped(mode, s)
    {
      var c := s[rptr];
      EscapedCons(mode, s[rptr..]);
      assert s[rptr..][1..] == s[rptr + 1..];
      var t := EscapeOne(mode, c);
      out := out + t;
      rptr := rptr + 1;
    }
    assert s[rptr..] == "";
  }

  method EscapeOne(mode: EscapeMode, c: char) returns (t: string)
    requires mode.utf16 ==> Ascii(c)
    ensures t == EscapeChar(mode, c)
  {
    var name := NameOf(mode, c);
    if name.Some? {
      t := "\\" + name.value;
    } else if Unprintable(c) && mode.utf16 {
      t := "\\u00" + [HexChar(c as int / 16), HexChar(c as int % 16)];
    } else {
      t := [c];
    }
  }

  lemma EscapedCons(mode: EscapeMode, s: string)
    requires Printable(mode, s) && s != ""
    ensures Escaped(mode, s) == EscapeChar(mode, s[0]) + Escaped(mode, s[1..])
  {
  }

  /** What the options are for: no angle brackets with HTML escaping, and only printable ASCII with `\u` escaping. */
  predicate Clean(mode: EscapeMode, c: char) {
    (mode.html ==> c != '<' && c != '>') && (mode.utf16 ==> 0x20 <= c as int <= 0x7e)
  }

  lemma CleanChar(mode: EscapeMode, c: char, i: nat)
    requires (mode.utf16 ==> Ascii(c)) && i < |EscapeChar(mode, c)|
    ensures Clean(mode, EscapeChar(mode, c)[i])
  {
  }

  lemma {:induction false} EscapedClean(mode: EscapeMode, s: string, i: nat)
    requires Printable(mode, s) && i < |Escaped(mode, s)|
    ensures Clean(mode, Escaped(mode, s)[i])
  {
    var n := |EscapeChar(mode, s[0])|;
    if i < n { CleanChar(mode, s[0], i); } else { EscapedClean(mode, s[1..], i - n); }
  }

  // ----- unescaping -----

  function RadixDigit(c: char): int {
    if '0' <= c <= '9' then c as int - '0' as int
    else if 'a' <= c <= 'z' then c as int - 'a' as int + 10
    else if 'A' <= c <= 'Z' then c as int - 'A' as int + 10
    else -1
  }

  predicate IsRadix(c: char, radix: nat) { 0 <= RadixDigit(c) < radix }

  /** Number of leading radix digits, at most `limit`. */
  function DigitRun(s: string, radix: nat, limit: nat): (n: nat)
    ensures n <= limit && n <= |s|
    ensures forall i | 0 <= i < n :: IsRadix(s[i], radix)
    ensures n < limit && n < |s| ==> !IsRadix(s[n], radix)
  {
    if limit == 0 || s == "" || !IsRadix(s[0], radix) then 0
    else 1 + DigitRun(s[1..], radix, limit - 1)
  }

  function RadixValue(s: string, radix: nat): nat
    requires (radix == 8 || radix == 16) && forall i | 0 <= i < |s| :: IsRadix(s[i], radix)
  {
    if s == "" then 0
    else
      var high, low := RadixValue(s[..|s| - 1], radix), s[|s| - 1];
      assert IsRadix(low, radix);
      (if radix == 8 then 8 * high else 16 * high) + RadixDigit(low)
  }

  /** `read_limited_int`: the digits consumed and their value, if the count is
      right and the value is at most `max`. */
  function ReadInt(s: string, radix: nat, limit: nat, must: bool, max: nat): Option<(nat, nat)>
    requires radix == 8 || radix == 16
  {
    var n := DigitRun(s, radix, limit);
    if n == 0 || (must && n != limit) || RadixValue(s[..n], radix) > max then None
    else Some((n, RadixValue(s[..n], radix)))
  }

  predicate HighSurrogate(u: nat) { 0xD800 <= u < 0xDC00 }
  predicate LowSurrogate(u: nat) { 0xDC00 <= u < 0xE000 }

  /** UTF-8 encoding of a code point. */
  function Utf8(code: nat): string
    requires code < 0x110000
  {
    if code < 0x80 then [code as char]
    else if code < 0x800 then [(0xC0 + code / 64) as char, (0x80 + code % 64) as char]
    else if code < 0x10000 then
      [(0xE0 + code / 4096) as char, (0x80 + code / 64 % 64) as char, (0x80 + code % 64) as char]
    else
      [(0xF0 + code / 262144) as char, (0x80 + code / 4096 % 64) as char,
       (0x80 + code / 64 % 64) as char, (0x80 + code % 64) as char]
  }

  /** A `\u` escape without its backslash and `u`: characters consumed and
      text produced. A high surrogate takes a following low one; a surrogate
      left alone becomes the replacement character. */
  function ReadUnicode(s: string): (r: Option<(nat, string)>)
    ensures r.Some? ==> 0 < r.value.0 <= |s|
  {
    match ReadInt(s, 16, 4, true, 0xFFFF)
    case None => None
    case Some((_, u)) =>
      if HighSurrogate(u) && "\\u" <= s[4..] then
        match ReadInt(s[6..], 16, 4, true, 0xFFFF)
        case None => None
        case Some((_, v)) =>
          if LowSurrogate(v) then Some((10, Utf8(0x10000 + (u - 0xD800) * 1024 + (v - 0xDC00))))
          else Some((4, Utf8(0xFFFD)))
      else if HighSurrogate(u) || LowSurrogate(u) then Some((4, Utf8(0xFFFD)))
      else Some((4, Utf8(u)))
  }

  /** One escape without its backslash: characters consumed and text produced. */
  function ReadEscape(s: string): (r: Option<(nat, string)>)
    ensures r.Some? ==> 0 < r.value.0 <= |s|
  {
    if s == "" then None
    else
      match CharNamed(s[0])
      case Some(c) => Some((1, [c]))
      case None =>
        if s[0] == 'x' then
          match ReadInt(s[1..], 16, 4, false, 0xFF)
          case None => None
          case Some((n, v)) => Some((1 + n, [v as char]))
        else if s[0] == 'u' then
          match ReadUnicode(s[1..])
          case None => None
          case Some((n, t)) => Some((1 + n, t))
        else if IsRadix(s[0], 8) then
          match ReadInt(s, 8, 3, false, 0xFF)
          case None => None
          case Some((n, v)) => Some((n, [v as char]))
        else Some((1, [s[0]]))
  }

  function Prepend(t: string, r: Option<string>): Option<string> {
    match r case None => None case Some(u) => Some(t + u)
  }

  function Unescaped(s: string): Option<string>
    decreases |s|
  {
    if s == "" then Some("")
    else if s[0] != '\\' then Prepend([s[0]], Unescaped(s[1..]))
    else
      match ReadEscape(s[1..])
      case None => None
      case Some((n, t)) => Prepend(t, Unescaped(s[1 + n..]))
  }

  /** `unescape_str`: the loop over the input, stopping at the first escape
      that cannot be read. */
  method UnescapeStr(s: string) returns (ok: bool, out: string)
    ensures ok <==> Unescaped(s).Some?
    ensures ok ==> out == Unescaped(s).value
  {
    hide ReadEscape;
    ok, out := true, "";
    var rptr := 0;
    assert s[0..] == s;
    PrependEmpty(Unescaped(s));
    while rptr < |s|
      invariant 0 <= rptr <= |s|
      invariant Unescaped(s) == Prepend(out, Unescaped(s[rptr..]))
    {
      var c := s[rptr];
      if c == '\\' {
        assert s[rptr..][1..] == s[rptr + 1..];
        match ReadEscape(s[rptr + 1..]) {
          case None => return false, out;
          case Some((n, t)) =>
            assert s[rptr..][1 + n..] == s[rptr + 1 + n..];
            PrependTwice(out, t, Unescaped(s[rptr + 1 + n..]));
            out := out + t;
            rptr := rptr + 1 + n;
        }
      } else {
        assert s[rptr..][1..] == s[rptr + 1..];
        PrependTwice(out, [c], Unescaped(s[rptr + 1..]));
        out := out + [c];
        rptr := rptr + 1;
      }
    }
    assert s[rptr..] == "";
    assert out + "" == out;
  }

  lemma PrependEmpty(r: Option<string>)
    ensures Prepend("", r) == r
  {
    if r.Some? { assert "" + r.value == r.value; }
  }

  lemma PrependTwice(a: string, b: string, r: Option<string>)
    ensures Prepend(a, Prepend(b, r)) == Prepend(a + b, r)
  {
    if r.Some? { assert a + (b + r.value) == a + b + r.value; }
  }

  // ----- the two are inverse -----

  lemma HexDigitRead(d: nat)
    requires d < 16
    ensures IsRadix(HexChar(d), 16) && RadixDigit(HexChar(d)) == d
  {
  }

  lemma RadixSnoc(s: string, c: char)
    requires forall i | 0 <= i < |s| :: IsRadix(s[i], 16)
    requires IsRadix(c, 16)
    ensures forall i | 0 <= i < |s + [c]| :: IsRadix((s + [c])[i], 16)
    ensures RadixValue(s + [c], 16) == 16 * RadixValue(s, 16) + RadixDigit(c)
  {
    assert (s + [c])[..|s|] == s;
  }

  lemma FourDigits(s: string)
    requires |s| >= 4 && forall i | 0 <= i < 4 :: IsRadix(s[i], 16)
    ensures DigitRun(s, 16, 4) == 4
  {
  }

  /** The four digits of a `\u` escape below 0x80, read back. */
  lemma HexEscape(hi: nat, lo: nat, rest: string)
    requires hi < 8 && lo < 16
    ensures ReadUnicode(['0', '0', HexChar(hi), HexChar(lo)] + rest) == Some((4, [(16 * hi + lo) as char]))
  {
    var d := ['0', '0', HexChar(hi), HexChar(lo)];
    HexDigitRead(hi);
    HexDigitRead(lo);
    RadixSnoc([], '0');
    RadixSnoc([] + ['0'], '0');
    RadixSnoc([] + ['0'] + ['0'], HexChar(hi));
    RadixSnoc([] + ['0'] + ['0'] + [HexChar(hi)], HexChar(lo));
    assert [] + ['0'] + ['0'] + [HexChar(hi)] + [HexChar(lo)] == d;
    FourDigits(d + rest);
    assert (d + rest)[..4] == d;
  }

  lemma UnescapedPlain(c: char, rest: string)
    requires c != '\\'
    ensures Unescaped([c] + rest) == Prepend([c], Unescaped(rest))
  {
    assert ([c] + rest)[1..] == rest;
  }

  lemma UnescapedStep(e: string, c: char, rest: string)
    requires |e| >= 1 && ReadEscape(e + rest) == Some((|e|, [c]))
    ensures Unescaped(['\\'] + e + rest) == Prepend([c], Unescaped(rest))
  {
    var s := ['\\'] + e + rest;
    assert s[1..] == e + rest;
    assert s[1 + |e|..] == rest;
  }

  lemma ShortEscape(mode: EscapeMode, c: char, rest: string)
    requires NameOf(mode, c).Some? && |NameOf(mode, c).value| == 1
    ensures ReadEscape(NameOf(mode, c).value + rest) == Some((1, [c]))
  {
  }

  /** Unescaping undoes the escape of one character, whatever follows. */
  lemma UnescapeChar(mode: EscapeMode, c: char, rest: string)
    requires mode.utf16 ==> Ascii(c)
    ensures Unescaped(EscapeChar(mode, c) + rest) == Prepend([c], Unescaped(rest))
  {
    var name := NameOf(mode, c);
    if name.Some? && |name.value| == 1 {
      ShortEscape(mode, c, rest);
      UnescapedStep(name.value, c, rest);
    } else if name.Some? || (Unprintable(c) && mode.utf16) {
      LongEscape(mode, c, rest);
    } else {
      UnescapedPlain(c, rest);
    }
  }

  lemma LongEscape(mode: EscapeMode, c: char, rest: string)
    requires mode.utf16 ==> Ascii(c)
    requires |EscapeChar(mode, c)| > 2
    ensures Unescaped(EscapeChar(mode, c) + rest) == Prepend([c], Unescaped(rest))
  {
    hide ReadUnicode, Unescaped;
    var hi, lo := c as int / 16, c as int % 16;
    var d := ['0', '0', HexChar(hi), HexChar(lo)];
    HexEscape(hi, lo, rest);
    var e := ['u'] + d;
    assert EscapeChar(mode, c) == ['\\'] + e;
    assert (e + rest)[1..] == d + rest;
    UnescapedStep(e, c, rest);
  }

  /** Unescaping undoes escaping, for every string and every print mode. */
  lemma {:induction false} UnescapeEscaped(mode: EscapeMode, s: string)
    requires Printable(mode, s)
    ensures Unescaped(Escaped(mode, s)) == Some(s)
  {
    if s != "" {
      UnescapeEscaped(mode, s[1..]);
      UnescapeChar(mode, s[0], Escaped(mode, s[1..]));
      assert s == [s[0]] + s[1..];
    }
  }

  /** Escaped text without a backslash is the text itself. */
  lemma {:induction false} EscapedPlain(mode: EscapeMode, s: string)
    requires Printable(mode, s)
    requires '\\' !in Escaped(mode, s)
    ensures Escaped(mode, s) == s
  {
    if s != "" {
      var e := EscapeChar(mode, s[0]);
      assert Escaped(mode, s) == e + Escaped(mode, s[1..]);
      assert e[0] in Escaped(mode, s);
      EscapedPlain(mode, s[1..]);
    }
  }

  // ----- text cut short -----

  /** A first letter of `true`, `false` or `null`. */
  predicate Letter(c: char) { c == 't' || c == 'f' || c == 'n' }

  predicate EndsInLetter(s: string) { s != "" && Letter(s[|s| - 1]) }

  /** Digits that end inside a text end there whatever follows. */
  lemma {:induction false} DigitRunStays(s: string, more: string, radix: nat, limit: nat)
    requires DigitRun(s, radix, limit) < |s| || DigitRun(s, radix, limit) == limit
    ensures DigitRun(s + more, radix, limit) == DigitRun(s, radix, limit)
    decreases limit
  {
    if limit != 0 && s != "" && IsRadix(s[0], radix) {
      assert (s + more)[1..] == s[1..] + more;
      DigitRunStays(s[1..], more, radix, limit - 1);
    }
  }

  lemma ReadIntStays(s: string, more: string, radix: nat, limit: nat, must: bool, max: nat)
    requires (radix == 8 || radix == 16) && (DigitRun(s, radix, limit) < |s| || DigitRun(s, radix, limit) == limit)
    ensures ReadInt(s + more, radix, limit, must, max) == ReadInt(s, radix, limit, must, max)
  {
    DigitRunStays(s, more, radix, limit);
    var n := DigitRun(s, radix, limit);
    assert (s + more)[..n] == s[..n];
  }

  /** All digits of a text are read, and perhaps more behind it. */
  lemma {:induction false} DigitRunGrows(s: string, more: string, radix: nat, limit: nat)
    requires DigitRun(s, radix, limit) == |s|
    ensures DigitRun(s + more, radix, limit) >= |s|
    decreases limit
  {
    if s != "" {
      assert (s + more)[1..] == s[1..] + more;
      DigitRunGrows(s[1..], more, radix, limit - 1);
    }
  }

  lemma {:induction false} RadixValueGrows(s: string, n: nat, radix: nat)
    requires (radix == 8 || radix == 16) && n <= |s| && forall i | 0 <= i < |s| :: IsRadix(s[i], radix)
    ensures RadixValue(s[..n], radix) <= RadixValue(s, radix)
    decreases |s|
  {
    if n < |s| {
      var front := s[..|s| - 1];
      RadixValueGrows(front, n, radix);
      assert front[..n] == s[..n];
    } else {
      assert s[..n] == s;
    }
  }

  /** A number that is too large stays too large. */
  lemma TooLargeStays(s: string, more: string, max: nat)
    requires s != "" && DigitRun(s, 16, 4) == |s| && RadixValue(s, 16) > max
    ensures ReadInt(s + more, 16, 4, false, max).None?
  {
    DigitRunGrows(s, more, 16, 4);
    var n := DigitRun(s + more, 16, 4);
    var d := (s + more)[..n];
    assert d[..|s|] == s;
    RadixValueGrows(d, |s|, 16);
  }

  /** An escape that ends inside a text that ends in a letter is read in the same way whatever follows. */
  lemma EscapeStays(s: string, more: string)
    requires EndsInLetter(s) && ReadEscape(s).Some? && ReadEscape(s).value.0 < |s|
    ensures ReadEscape(s + more) == ReadEscape(s)
  {
    hide Utf8, RadixValue;
    assert (s + more)[0] == s[0] && (s + more)[1..] == s[1..] + more;
    if CharNamed(s[0]).None? {
      if s[0] == 'x' {
        ReadIntStays(s[1..], more, 16, 4, false, 0xFF);
      } else if s[0] == 'u' {
        UnicodeStays(s[1..], more);
      } else if IsRadix(s[0], 8) {
        ReadIntStays(s, more, 8, 3, false, 0xFF);
      }
    }
  }

  lemma PairStays(s: string, more: string)
    requires s != "" && (|s| == 1 ==> s[0] != '\\')
    ensures "\\u" <= s + more <==> "\\u" <= s
  {
    assert (s + more)[0] == s[0];
    if |s| >= 2 { assert (s + more)[..2] == s[..2]; }
    if "\\u" <= s + more { assert (s + more)[..2][0] == '\\'; }
  }

  lemma UnicodeStays(s: string, more: string)
    requires EndsInLetter(s) && ReadUnicode(s).Some? && ReadUnicode(s).value.0 < |s|
    ensures ReadUnicode(s + more) == ReadUnicode(s)
  {
    hide Utf8, RadixValue;
    ReadIntStays(s, more, 16, 4, true, 0xFFFF);
    assert (s + more)[4..] == s[4..] + more;
    assert |s| >= 5 && (|s| == 5 ==> s[4] != '\\');
    PairStays(s[4..], more);
    if "\\u" <= s[4..] {
      assert (s + more)[6..] == s[6..] + more;
      if DigitRun(s[6..], 16, 4) == 4 { ReadIntStays(s[6..], more, 16, 4, true, 0xFFFF); }
    }
  }

  /** The digits of a `\u` escape that is cut short. */
  predicate CutDigits(s: string) { 1 <= |s| < 4 && forall i | 0 <= i < |s| :: IsRadix(s[i], 16) }

  /** A `\u` escape, or the second of a pair, that is cut short inside its digits. */
  predicate CutUnicode(s: string) {
    || CutDigits(s)
    || (|s| >= 7 && DigitRun(s, 16, 4) == 4 && "\\u" <= s[4..] && CutDigits(s[6..]))
  }

  /** An escape at the end of a text that ends in a letter, unreadable there but not with more behind it. */
  lemma CutEscape(s: string, more: string)
    requires EndsInLetter(s) && ReadEscape(s).None? && ReadEscape(s + more).Some?
    ensures s[0] == 'u' && CutUnicode(s[1..])
  {
    hide Utf8;
    assert (s + more)[0] == s[0] && (s + more)[1..] == s[1..] + more;
    if s[0] == 'x' {
      var n := DigitRun(s[1..], 16, 4);
      if n < |s[1..]| || n == 4 {
        ReadIntStays(s[1..], more, 16, 4, false, 0xFF);
      } else {
        assert s[1..][..n] == s[1..];
        TooLargeStays(s[1..], more, 0xFF);
      }
    } else if s[0] == 'u' {
      CutUnicodeIs(s[1..], more);
    } else {
      LetterNoOctal(s);
      ReadIntStays(s, more, 8, 3, false, 0xFF);
    }
  }

  lemma LetterNoOctal(s: string)
    requires EndsInLetter(s)
    ensures DigitRun(s, 8, 3) < |s|
  {
    assert !IsRadix(s[|s| - 1], 8);
  }

  lemma CutUnicodeIs(s: string, more: string)
    requires EndsInLetter(s) && ReadUnicode(s).None? && ReadUnicode(s + more).Some?
    ensures CutUnicode(s)
  {
    hide Utf8, RadixValue, RadixDigit;
    var n := DigitRun(s, 16, 4);
    if n < |s| || n == 4 {
      ReadIntStays(s, more, 16, 4, true, 0xFFFF);
      assert n == 4;
      assert (s + more)[4..] == s[4..] + more && "\\u" <= s[4..];
      assert (s + more)[6..] == s[6..] + more;
      var k := DigitRun(s[6..], 16, 4);
      if k < |s[6..]| || k == 4 { ReadIntStays(s[6..], more, 16, 4, true, 0xFFFF); }
      assert s[6..] != "" by { assert s[5] == 'u' && s[|s| - 1] != 'u'; }
    }
  }

  /** Four digits are a number that a `\u` escape can have. */
  lemma FourDigitsRead(s: string, rest: string)
    requires |s| == 4 && forall i | 0 <= i < 4 :: IsRadix(s[i], 16)
    ensures ReadInt(s + rest, 16, 4, true, 0xFFFF).Some? && ReadInt(s + rest, 16, 4, true, 0xFFFF).value.0 == 4
  {
    FourDigits(s + rest);
    assert (s + rest)[..4] == s;
    assert s[..3][..2] == s[..2] && s[..2][..1] == s[..1] && s[..1][..0] == "";
    assert RadixValue(s[..1], 16) <= 15;
    assert RadixValue(s[..2], 16) <= 255;
    assert RadixValue(s[..3], 16) <= 4095;
  }

  function Noughts(n: nat): (z: string)
    ensures |z| == n && forall i | 0 <= i < n :: z[i] == '0'
  {
    seq(n, _ => '0')
  }

  lemma CutDigitsFilled(s: string)
    requires CutDigits(s)
    ensures var d := s + Noughts(4 - |s|); |d| == 4 && forall i | 0 <= i < 4 :: IsRadix(d[i], 16)
  {
  }

  lemma OneUnicode(d: string)
    requires |d| == 4 && forall i | 0 <= i < 4 :: IsRadix(d[i], 16)
    ensures ReadEscape("u" + d).Some? && ReadEscape("u" + d).value.0 == 5
    ensures Unescaped("\\u" + d).Some?
  {
    hide Utf8;
    FourDigitsRead(d, "");
    assert d + "" == d && ("u" + d)[1..] == d;
    assert ("\\u" + d)[1..] == "u" + d && ("\\u" + d)[6..] == "";
  }

  /** Filled up with noughts such an escape can be read. */
  lemma CutUnicodeFilled(s: string) returns (z: string)
    requires CutUnicode(s)
    ensures (forall i | 0 <= i < |z| :: z[i] == '0') && Unescaped("\\u" + s + z).Some?
  {
    hide Utf8, RadixValue;
    if CutDigits(s) {
      z := Noughts(4 - |s|);
      CutDigitsFilled(s);
      OneUnicode(s + z);
      assert "\\u" + s + z == "\\u" + (s + z);
    } else {
      var h := s[6..];
      z := Noughts(4 - |h|);
      CutDigitsFilled(h);
      PairFilled(s[..4], h + z);
      assert s == s[..4] + "\\u" + h;
      assert "\\u" + s + z == "\\u" + s[..4] + "\\u" + (h + z);
    }
  }

  lemma PairFilled(a: string, b: string)
    requires |a| == |b| == 4 && forall i | 0 <= i < 4 :: IsRadix(a[i], 16) && IsRadix(b[i], 16)
    ensures Unescaped("\\u" + a + "\\u" + b).Some?
  {
    hide ReadEscape;
    var s := "\\u" + a + "\\u" + b;
    var u := a + ("\\u" + b);
    assert s[1..] == "u" + u;
    PairRead(a, b);
    OneUnicode(b);
    assert s[6..] == "\\u" + b && s[12..] == "";
    UnescapedAfter(s);
  }

  lemma PairRead(a: string, b: string)
    requires |a| == |b| == 4 && forall i | 0 <= i < 4 :: IsRadix(a[i], 16) && IsRadix(b[i], 16)
    ensures var r := ReadEscape("u" + (a + ("\\u" + b))); r.Some? && (r.value.0 == 5 || r.value.0 == 11)
  {
    hide Utf8, RadixValue, DigitRun, ReadInt;
    var u := a + ("\\u" + b);
    FourDigitsRead(a, "\\u" + b);
    FourDigitsRead(b, "");
    assert ("u" + u)[1..] == u && b + "" == b && u[4..] == "\\u" + b && u[6..] == b;
  }

  lemma UnescapedAfter(s: string)
    requires s != "" && s[0] == '\\' && ReadEscape(s[1..]).Some? && Unescaped(s[1 + ReadEscape(s[1..]).value.0..]).Some?
    ensures Unescaped(s).Some?
  {
    hide ReadEscape;
  }

  /** A body that ends in a letter and can be read with something behind it can be read with noughts behind it, or none. */
  lemma {:induction false} Completed(b: string, more: string) returns (z: string)
    requires (b != "" ==> EndsInLetter(b)) && Unescaped(b + more).Some?
    ensures (forall i | 0 <= i < |z| :: z[i] == '0') && Unescaped(b + z).Some?
    decreases |b|
  {
    hide ReadEscape;
    if b == "" { return ""; }
    assert (b + more)[0] == b[0] && (b + more)[1..] == b[1..] + more;
    if b[0] != '\\' {
      z := Completed(b[1..], more);
      assert (b + z)[1..] == b[1..] + z;
      return;
    }
    var s := b[1..];
    if ReadEscape(s).None? {
      CutEscape(s, more);
      z := CutUnicodeFilled(s[1..]);
      assert "\\u" + s[1..] == b;
      return;
    }
    var n := ReadEscape(s).value.0;
    if n == |s| {
      assert b + "" == b && b[1 + n..] == "";
      return "";
    }
    EscapeStays(s, more);
    assert (b + more)[1 + n..] == s[n..] + more;
    z := Completed(s[n..], more);
    EscapeStays(s, z);
    assert (b + z)[1..] == s + z && (b + z)[1 + n..] == s[n..] + z;
  }

  // ----- the standard's table -----

  /** The two-character escapes of section 7 of RFC 8259 stand for the characters that it gives. */
  lemma StandardEscapes()
    ensures Unescaped(['\\', '\"']) == Some([0x22 as char]) && Unescaped(['\\', '\\']) == Some([0x5C as char])
    ensures Unescaped(['\\', '/']) == Some([0x2F as char]) && Unescaped(['\\', 'b']) == Some([0x08 as char])
    ensures Unescaped(['\\', 'f']) == Some([0x0C as char]) && Unescaped(['\\', 'n']) == Some([0x0A as char])
    ensures Unescaped(['\\', 'r']) == Some([0x0D as char]) && Unescaped(['\\', 't']) == Some([0x09 as char])
  {
    hide Unescaped;
    ShortEscapeIs('\"', 0x22 as char);
    ShortEscapeIs('\\', 0x5C as char);
    ShortEscapeIs('/', 0x2F as char);
    ShortEscapeIs('b', 0x08 as char);
    ShortEscapeIs('f', 0x0C as char);
    ShortEscapeIs('n', 0x0A as char);
    ShortEscapeIs('r', 0x0D as char);
    ShortEscapeIs('t', 0x09 as char);
  }

  lemma ShortEscapeIs(n: char, c: char)
    requires ReadEscape([n]) == Some((1, [c]))
    ensures Unescaped(['\\', n]) == Some([c])
  {
    hide ReadEscape;
    assert ['\\', n][1..] == [n] && ['\\', n][2..] == "" && [c] + "" == [c];
  }

  /** Which characters are written as escapes: the standard's without a slash, with HTML three more, and with `\\u` all others that are not printable. */
  lemma EscapedExactly(mode: EscapeMode, c: char)
    requires mode.utf16 ==> Ascii(c)
    ensures EscapeChar(mode, c) != [c] <==>
              || c as int in {0x22, 0x5C, 0x08, 0x0C, 0x0A, 0x0D, 0x09}
              || (mode.html && c as int in {0x2F, 0x3C, 0x3E})
              || (mode.utf16 && (c as int < 0x20 || c as int == 0x7F))
  {
  }

  /** Escapes of a letter with an accent, of the euro sign and of a pair of surrogates, with their UTF-8 bytes. */
  lemma KnownUnicode()
    ensures ReadUnicode("00e9") == Some((4, [0xC3 as char, 0xA9 as char]))
    ensures ReadUnicode("20AC") == Some((4, [0xE2 as char, 0x82 as char, 0xAC as char]))
    ensures ReadUnicode("d83d" + ("\\u" + "de00")) == Some((10, [0xF0 as char, 0x9F as char, 0x98 as char, 0x80 as char]))
  {
    hide ReadUnicode, Utf8, RadixValue;
    KnownUtf8();
    HexValue("00e9", 0, 0, 14, 9);
    HexValue("20AC", 2, 0, 10, 12);
    HexValue("d83d", 13, 8, 3, 13);
    HexValue("de00", 13, 14, 0, 0);
    OneUnit("00e9");
    OneUnit("20AC");
    TwoUnits("d83d", "de00");
  }

  lemma KnownUtf8()
    ensures Utf8(0xE9) == [0xC3 as char, 0xA9 as char] && Utf8(0x20AC) == [0xE2 as char, 0x82 as char, 0xAC as char]
    ensures Utf8(0x1F600) == [0xF0 as char, 0x9F as char, 0x98 as char, 0x80 as char]
  {
  }

  lemma OneUnit(s: string)
    requires |s| == 4 && (forall i | 0 <= i < 4 :: IsRadix(s[i], 16)) && RadixValue(s, 16) < 0xD800
    ensures ReadUnicode(s) == Some((4, Utf8(RadixValue(s, 16))))
  {
    hide Utf8;
    FourDigits(s);
    assert s[..4] == s;
  }

  lemma TwoUnits(a: string, b: string)
    requires |a| == |b| == 4 && forall i | 0 <= i < 4 :: IsRadix(a[i], 16) && IsRadix(b[i], 16)
    requires HighSurrogate(RadixValue(a, 16)) && LowSurrogate(RadixValue(b, 16))
    ensures ReadUnicode(a + ("\\u" + b))
         == Some((10, Utf8(0x10000 + (RadixValue(a, 16) - 0xD800) * 1024 + (RadixValue(b, 16) - 0xDC00))))
  {
    hide Utf8, RadixValue;
    var s := a + ("\\u" + b);
    FourDigits(s);
    FourDigits(b);
    assert s[..4] == a && s[4..] == "\\u" + b && s[6..] == b && b[..4] == b;
  }

  lemma HexValue(s: string, a: nat, b: nat, c: nat, d: nat)
    requires |s| == 4 && RadixDigit(s[0]) == a < 16 && RadixDigit(s[1]) == b < 16 && RadixDigit(s[2]) == c < 16 && RadixDigit(s[3]) == d < 16
    ensures DigitRun(s, 16, 4) == 4 && RadixValue(s, 16) == 4096 * a + 256 * b + 16 * c + d
  {
    FourDigits(s);
    RadixSnoc([], s[0]);
    RadixSnoc([s[0]], s[1]);
    RadixSnoc([s[0], s[1]], s[2]);
    RadixSnoc([s[0], s[1], s[2]], s[3]);
    assert [] + [s[0]] == [s[0]] && [s[0]] + [s[1]] == [s[0], s[1]] && [s[0], s[1]] + [s[2]] == [s[0], s[1], s[2]];
    assert [s[0], s[1], s[2]] + [s[3]] == s;
  }
}
