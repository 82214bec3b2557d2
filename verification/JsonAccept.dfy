/**
 Completeness of the reader: it accepts the text of every well-formed tree, and
 leaves the tree's value on the value stack.
 */
module JsonAccept {
  import opened Common
  import opened JsonValue
  import opened Escape
  import opened JsonMachine
  import opened JsonGrammar

  /** `s` is the text at position `at`. */
  predicate Next(buf: string, at: nat, s: string) {
    at + |s| <= |buf| && buf[at..at + |s|] == s
  }

  function Move(c: Config, n: nat): Config { c.(at := c.at + n) }

  lemma NextSplit(buf: string, at: nat, a: string, b: string)
    requires Next(buf, at, a + b)
    ensures Next(buf, at, a) && Next(buf, at + |a|, b)
    ensures at + |a| + |b| <= |buf|
    ensures |a| > 0 ==> buf[at] == a[0]
    ensures |b| > 0 ==> buf[at + |a|] == b[0]
  {
    var s := buf[at..at + |a + b|];
    assert s[..|a|] == a && s[|a|..] == b;
    assert buf[at..at + |a|] == s[..|a|];
    assert buf[at + |a|..at + |a| + |b|] == s[|a|..];
  }

  // ----- single steps -----

  lemma RunStep(c: Config)
    requires c.Valid() && !Halted(c)
    ensures Run(c) == Run(Step(c))
  {
    hide Step, Halted;
  }

  /** The next character decides. */
  lemma RunChar(c: Config)
    requires c.Valid() && Waits(c.st) && Need(c.st) == 1 && c.Readable() >= 1
    ensures Run(c) == Run(CharStep(c))
  {
    hide CharStep, Run;
    RunStep(c);
  }

  lemma RunEnter(c: Config)
    requires c.Valid() && IsNest(c.st)
    ensures Run(c) == Run(Enter(c))
  {
    hide Run;
    RunStep(c);
  }

  lemma RunLeave(c: Config)
    requires c.Valid() && IsEnd(c.st) && c.nest != []
    ensures Run(c) == Run(Leave(c))
  {
    hide Run;
    RunStep(c);
  }

  // ----- white space -----

  /** The state that skips white space in `s` goes to this state after it. */
  function AfterSpace(s: State): (r: Option<State>)
    ensures s.InArray? && r.Some? ==> r.value.InArray? || r.value == Nested(ParseArrayElement)
    ensures s.InObject? && r.Some? ==> r.value.InObject? || r.value == Nested(ParseObjectValue)
    ensures r.Some? ==> s.InArray? || s.InObject?
  {
    match s
    case InArray(BeginArray) | InArray(BeginArraySpace) => Some(InArray(BeginEndArray))
    case InArray(ParseArraySpace) => Some(Nested(ParseArrayElement))
    case InArray(ParseArrayElementSpace) => Some(InArray(ParseArraySeparator))
    case InObject(BeginObject) | InObject(BeginObjectSpace) => Some(InObject(BeginEndObject))
    case InObject(ParseObjectSpace) => Some(InObject(BeginObjectKey))
    case InObject(ParseObjectKeySpace) => Some(InObject(ParseKeyValueSeparator))
    case InObject(ParseKeyValueSeparatorSpace) => Some(Nested(ParseObjectValue))
    case InObject(ParseObjectValueSpace) => Some(InObject(ParseObjectSeparator))
    case _ => None
  }

  lemma SpaceStep(c: Config)
    requires c.Valid() && AfterSpace(c.st).Some? && c.Readable() >= 1
    ensures Waits(c.st) && Need(c.st) == 1
    ensures !IsSpace(c.buf[c.at]) ==> CharStep(c) == c.Goto(AfterSpace(c.st).value)
    ensures IsSpace(c.buf[c.at]) ==>
              var d := CharStep(c);
              && d == c.(at := c.at + 1, st := d.st)
              && AfterSpace(d.st) == AfterSpace(c.st)
  {
    hide CharStep, AddElement, AddField;
    if IsArrayState(c.st) { ArrayChar(c); } else { ObjectChar(c); }
  }

  lemma {:induction false} RunSpaces(c: Config, ws: string)
    requires AfterSpace(c.st).Some? && Next(c.buf, c.at, ws) && Spaces(ws)
    requires c.at + |ws| < |c.buf| && !IsSpace(c.buf[c.at + |ws|])
    ensures c.Valid() && Move(c, |ws|).Valid()
    ensures Run(c) == Run(Move(c, |ws|).Goto(AfterSpace(c.st).value))
    decreases |ws|
  {
    hide Run, CharStep;
    SpaceStep(c);
    RunChar(c);
    if ws != "" {
      assert ws[0] == c.buf[c.at];
      var d := CharStep(c);
      assert Next(d.buf, d.at, ws[1..]);
      RunSpaces(d, ws[1..]);
      assert Move(d, |ws| - 1).Goto(AfterSpace(d.st).value) == Move(c, |ws|).Goto(AfterSpace(c.st).value);
    }
  }

  // ----- strings -----

  predicate InBody(s: State, key: bool) {
    if key then s == InString(ParseKeyString) else s == InString(BeginString) || s == InString(ParseString)
  }

  function EscapeState(key: bool): State { if key then InString(EscapeKeyString) else InString(EscapeString) }

  function StringState(key: bool): State { if key then InString(ParseKeyString) else InString(ParseString) }

  function AfterString(key: bool): State { if key then InObject(ParseObjectKeySpace) else Ended(EndString) }

  lemma BodyStep(c: Config, key: bool)
    requires c.Valid() && c.Readable() >= 1 && InBody(c.st, key)
    ensures Waits(c.st) && Need(c.st) == 1
    ensures c.buf[c.at] == '\"' ==> CharStep(c) == FinishString(Move(c, 1), AfterString(key))
    ensures c.buf[c.at] == '\\' ==> CharStep(c) == Move(c, 1).(st := EscapeState(key), escaped := true)
    ensures c.buf[c.at] != '\"' && c.buf[c.at] != '\\' ==> CharStep(c) == Move(c, 1).Goto(StringState(key))
  {
    hide CharStep, FinishString;
    StringChar(c);
  }

  lemma EscapeStep(c: Config, key: bool)
    requires c.Valid() && c.Readable() >= 1 && c.st == EscapeState(key)
    ensures Waits(c.st) && Need(c.st) == 1
    ensures CharStep(c) == Move(c, 1).Goto(StringState(key))
  {
    hide CharStep, FinishString;
    StringChar(c);
  }

  /** A well-formed body is read up to its closing quote. */
  lemma {:induction false} RunBody(c: Config, key: bool, body: string) returns (d: Config)
    requires InBody(c.st, key) && BodyOk(body) && Next(c.buf, c.at, body + "\"")
    ensures c.Valid() && d.Valid() && Run(c) == Run(d) && InBody(d.st, key)
    ensures d == c.(at := c.at + |body|, st := d.st, escaped := c.escaped || '\\' in body)
    decreases |body|
  {
    hide Run, CharStep, Next;
    if body == "" {
      d := c;
      NextSplit(c.buf, c.at, "", "\"");
    } else {
      BodyOkSplit(body);
      var n := if body[0] == '\\' then 2 else 1;
      assert body + "\"" == body[..n] + (body[n..] + "\"");
      NextSplit(c.buf, c.at, body[..n], body[n..] + "\"");
      BodyStep(c, key);
      RunChar(c);
      var e := CharStep(c);
      if n == 2 {
        EscapeStep(e, key);
        RunChar(e);
        e := CharStep(e);
      }
      assert e == Move(c, n).(st := StringState(key), escaped := c.escaped || n == 2);
      d := RunBody(e, key, body[n..]);
    }
  }

  lemma BodyOkSplit(body: string)
    requires body != "" && BodyOk(body)
    ensures body[0] == '\\' ==> |body| >= 2 && BodyOk(body[2..])
    ensures body[0] != '\\' ==> body[0] != '\"' && BodyOk(body[1..]) && ('\\' in body <==> '\\' in body[1..])
  {
    assert body == [body[0]] + body[1..];
  }

  /** A string token whose opening quote has been read. */
  lemma RunString(c: Config, key: bool, body: string, v: string)
    requires InBody(c.st, key) && !c.escaped && c.at >= 1 && c.saved == c.at - 1
    requires BodyOk(body) && Next(c.buf, c.at, body + "\"") && BodyValue(body) == Some(v)
    ensures c.Valid() && Move(c, |body| + 1).Valid()
    ensures Run(c) == Run(Move(c, |body| + 1).Goto(AfterString(key)).Push(Str(v)))
  {
    hide Run, CharStep, Unescaped, Body;
    NextSplit(c.buf, c.at, body, "\"");
    var d := RunBody(c, key, body);
    BodyStep(d, key);
    RunChar(d);
    var e := Move(d, 1);
    BodyIs(e);
  }

  // ----- numbers -----

  /** States that read any number of digits. */
  predicate InDigits(s: State) { s == InNumber(ParseInt) || s == InNumber(ParseFrac) || s == InNumber(ParseExp) }

  lemma DigitStep(c: Config)
    requires c.Valid() && c.Readable() >= 1 && InDigits(c.st) && IsDigit(c.buf[c.at])
    ensures Waits(c.st) && Need(c.st) == 1 && CharStep(c) == Move(c, 1)
  {
    hide CharStep, FinishInteger, FinishFloating;
    NumberChar(c);
  }

  lemma FirstDigit(buf: string, at: nat, digits: string)
    requires AllDigits(digits) && digits != "" && Next(buf, at, digits)
    ensures at + |digits| <= |buf| && buf[at] == digits[0] && IsDigit(digits[0])
    ensures AllDigits(digits[1..]) && Next(buf, at + 1, digits[1..])
  {
    assert digits == digits[..1] + digits[1..];
    NextSplit(buf, at, digits[..1], digits[1..]);
  }

  lemma {:induction false} RunDigits(c: Config, digits: string)
    requires InDigits(c.st) && AllDigits(digits) && Next(c.buf, c.at, digits)
    ensures c.Valid() && Move(c, |digits|).Valid() && Run(c) == Run(Move(c, |digits|))
    decreases |digits|
  {
    hide Run, CharStep;
    if digits != "" {
      FirstDigit(c.buf, c.at, digits);
      DigitStep(c);
      RunChar(c);
      RunDigits(Move(c, 1), digits[1..]);
    }
  }

  /** The state a number is in after its first digit, its fraction's first digit
      and its exponent's first digit. */
  lemma NumberSteps(c: Config)
    requires c.Valid() && c.Readable() >= 1 && IsNumberState(c.st)
    ensures Waits(c.st) && Need(c.st) == 1
    ensures
      var ch, d := c.buf[c.at], Move(c, 1);
      && (c.st == InNumber(ParseIntBegin) && ch == '0' ==> CharStep(c) == d.Goto(InNumber(ParseAfterZero)))
      && (c.st == InNumber(ParseIntBegin) && ch != '0' && IsDigit(ch) ==> CharStep(c) == d.Goto(InNumber(ParseInt)))
      && ((c.st == InNumber(ParseInt) || c.st == InNumber(ParseAfterZero)) && ch == '.' ==> CharStep(c) == d.Goto(InNumber(ParseFracBegin)))
      && (c.st == InNumber(ParseFracBegin) && IsDigit(ch) ==> CharStep(c) == d.Goto(InNumber(ParseFrac)))
      && ((c.st == InNumber(ParseInt) || c.st == InNumber(ParseAfterZero) || c.st == InNumber(ParseFrac)) && (ch == 'e' || ch == 'E') ==>
            CharStep(c) == d.Goto(InNumber(ParseExpBegin)))
      && (c.st == InNumber(ParseExpBegin) && (ch == '+' || ch == '-') ==> CharStep(c) == d.Goto(InNumber(ParseExpAfterSign)))
      && ((c.st == InNumber(ParseExpBegin) || c.st == InNumber(ParseExpAfterSign)) && IsDigit(ch) ==> CharStep(c) == d.Goto(InNumber(ParseExp)))
  {
    hide CharStep, FinishInteger, FinishFloating;
    NumberChar(c);
  }

  /** The integer part. */
  lemma RunIntegerPart(c: Config, ip: string)
    requires c.st == InNumber(ParseIntBegin) && AllDigits(ip) && ip != "" && (ip[0] == '0' ==> ip == "0") && Next(c.buf, c.at, ip)
    ensures c.Valid() && Move(c, |ip|).Valid()
    ensures Run(c) == Run(Move(c, |ip|).Goto(if ip == "0" then InNumber(ParseAfterZero) else InNumber(ParseInt)))
  {
    hide Run, CharStep, Next, AllDigits;
    FirstDigit(c.buf, c.at, ip);
    NumberSteps(c);
    RunChar(c);
    if ip != "0" { RunDigits(Move(c, 1).Goto(InNumber(ParseInt)), ip[1..]); }
  }

  /** One digit in a state that needs one, then any number of digits. */
  lemma RunSomeDigits(c: Config, digits: string, then_: State)
    requires (c.st == InNumber(ParseFracBegin) && then_ == InNumber(ParseFrac)) ||
             ((c.st == InNumber(ParseExpBegin) || c.st == InNumber(ParseExpAfterSign)) && then_ == InNumber(ParseExp))
    requires AllDigits(digits) && digits != "" && Next(c.buf, c.at, digits)
    ensures c.Valid() && Move(c, |digits|).Valid()
    ensures Run(c) == Run(Move(c, |digits|).Goto(then_))
  {
    hide Run, CharStep, Next, AllDigits;
    FirstDigit(c.buf, c.at, digits);
    NumberSteps(c);
    RunChar(c);
    RunDigits(Move(c, 1).Goto(then_), digits[1..]);
  }

  lemma RunFraction(c: Config, frac: string)
    requires (c.st == InNumber(ParseInt) || c.st == InNumber(ParseAfterZero)) && AllDigits(frac) && frac != "" && Next(c.buf, c.at, "." + frac)
    ensures c.Valid() && Move(c, 1 + |frac|).Valid()
    ensures Run(c) == Run(Move(c, 1 + |frac|).Goto(InNumber(ParseFrac)))
  {
    hide Run, CharStep;
    NextSplit(c.buf, c.at, ".", frac);
    NumberSteps(c);
    RunChar(c);
    RunSomeDigits(Move(c, 1).Goto(InNumber(ParseFracBegin)), frac, InNumber(ParseFrac));
  }

  lemma RunSignedDigits(c: Config, sign: string, digits: string)
    requires c.st == InNumber(ParseExpBegin) && IsSign(sign)
    requires AllDigits(digits) && digits != "" && Next(c.buf, c.at, sign + digits)
    ensures c.Valid() && Move(c, |sign| + |digits|).Valid()
    ensures Run(c) == Run(Move(c, |sign| + |digits|).Goto(InNumber(ParseExp)))
  {
    hide Run, CharStep;
    NextSplit(c.buf, c.at, sign, digits);
    if sign == "" {
      RunSomeDigits(c, digits, InNumber(ParseExp));
    } else {
      NumberSteps(c);
      RunChar(c);
      RunSomeDigits(Move(c, 1).Goto(InNumber(ParseExpAfterSign)), digits, InNumber(ParseExp));
    }
  }

  lemma RunExponent(c: Config, x: Exponent)
    requires c.st == InNumber(ParseInt) || c.st == InNumber(ParseAfterZero) || c.st == InNumber(ParseFrac)
    requires x.Exp? && (x.e == 'e' || x.e == 'E') && AllDigits(x.digits) && x.digits != ""
    requires IsSign(x.sign)
    requires Next(c.buf, c.at, ExpText(x))
    ensures c.Valid() && Move(c, |ExpText(x)|).Valid()
    ensures Run(c) == Run(Move(c, |ExpText(x)|).Goto(InNumber(ParseExp)))
  {
    hide Run, Next, AllDigits, IsSign;
    NextSplit(c.buf, c.at, [x.e], x.sign + x.digits);
    RunExpSign(c);
    RunSignedDigits(Move(c, 1).Goto(InNumber(ParseExpBegin)), x.sign, x.digits);
  }

  lemma RunExpSign(c: Config)
    requires c.Valid() && c.Readable() >= 1 && (c.buf[c.at] == 'e' || c.buf[c.at] == 'E')
    requires c.st == InNumber(ParseInt) || c.st == InNumber(ParseAfterZero) || c.st == InNumber(ParseFrac)
    ensures Run(c) == Run(Move(c, 1).Goto(InNumber(ParseExpBegin)))
  {
    hide Run, CharStep;
    NumberSteps(c);
    RunChar(c);
  }

  /** The state after the integer part, the fraction and the exponent. */
  function NumState(n: Num): State {
    if n.exp.Exp? then InNumber(ParseExp) else if n.frac != "" then InNumber(ParseFrac) else if n.ip == "0" then InNumber(ParseAfterZero) else InNumber(ParseInt)
  }

  /** A character that cannot continue the number ends it. */
  lemma RunNumberEnd(c: Config, n: Num)
    requires c.Valid() && NumOk(n) && c.st == NumState(n) && c.Readable() >= 1 && NumEnds(n, c.buf[c.at])
    ensures Run(c) == Run(if IsInteger(n) then FinishInteger(c) else FinishFloating(c))
  {
    hide Run, CharStep, FinishInteger, FinishFloating, AllDigits, IsSign;
    NumberChar(c);
    RunChar(c);
  }

  /** A number whose first character is next, in the start state. */
  lemma RunNumberStart(c: Config, n: Num)
    requires c.st == Start && NumOk(n) && Next(c.buf, c.at, SignText(n.neg)) && Next(c.buf, c.at + |SignText(n.neg)|, n.ip)
    requires |c.buf| > c.at + |SignText(n.neg)| + |n.ip|
    ensures c.Valid() && Move(c, |SignText(n.neg)|).Valid()
    ensures Run(c) == Run(Move(c, |SignText(n.neg)|).(st := InNumber(ParseIntBegin), saved := c.at))
  {
    hide Run, CharStep;
    assert c.buf[c.at] == (if n.neg then '-' else n.ip[0]);
    StartChar(c);
    RunChar(c);
    var d := CharStep(c);
    assert d == Move(c, 1).(st := BeginNumber, saved := c.at);
    BeginNumberChar(d);
    RunChar(d);
  }

  lemma RunFractionOpt(c: Config, n: Num)
    requires NumOk(n) && c.st == (if n.ip == "0" then InNumber(ParseAfterZero) else InNumber(ParseInt)) && Next(c.buf, c.at, FracText(n.frac))
    ensures c.Valid() && Move(c, |FracText(n.frac)|).Valid()
    ensures Run(c) == Run(Move(c, |FracText(n.frac)|).Goto(NumState(n.(exp := NoExp))))
  {
    hide Run, AllDigits, IsSign;
    if n.frac != "" { RunFraction(c, n.frac); }
  }

  lemma RunExponentOpt(c: Config, n: Num)
    requires NumOk(n) && c.st == NumState(n.(exp := NoExp)) && Next(c.buf, c.at, ExpText(n.exp))
    ensures c.Valid() && Move(c, |ExpText(n.exp)|).Valid()
    ensures Run(c) == Run(Move(c, |ExpText(n.exp)|).Goto(NumState(n)))
  {
    hide Run, AllDigits, IsSign;
    if n.exp.Exp? { RunExponent(c, n.exp); }
  }

  /** The parts of a number, read one after the other. */
  lemma RunNumberParts(c: Config, n: Num)
    requires c.st == InNumber(ParseIntBegin) && NumOk(n) && Next(c.buf, c.at, n.ip + FracText(n.frac) + ExpText(n.exp))
    ensures c.Valid() && Move(c, |n.ip + FracText(n.frac) + ExpText(n.exp)|).Valid()
    ensures Run(c) == Run(Move(c, |n.ip + FracText(n.frac) + ExpText(n.exp)|).Goto(NumState(n)))
  {
    hide Run, Next, AllDigits, IsSign, ExpText, FracText;
    NextSplit(c.buf, c.at, n.ip + FracText(n.frac), ExpText(n.exp));
    NextSplit(c.buf, c.at, n.ip, FracText(n.frac));
    RunIntegerPart(c, n.ip);
    var d := Move(c, |n.ip|).Goto(if n.ip == "0" then InNumber(ParseAfterZero) else InNumber(ParseInt));
    RunFractionOpt(d, n);
    var e := Move(d, |FracText(n.frac)|).Goto(NumState(n.(exp := NoExp)));
    RunExponentOpt(e, n);
    assert Move(e, |ExpText(n.exp)|).Goto(NumState(n)) == Move(c, |n.ip + FracText(n.frac) + ExpText(n.exp)|).Goto(NumState(n));
  }

  lemma {:induction false} AllPrefix(s: string)
    requires AllDigits(s)
    ensures DigitPrefix(s) == s
  {
    if s != "" {
      AllPrefix(s[1..]);
      assert s == [s[0]] + s[1..];
    }
  }

  lemma IntegerTokenValue(n: Num)
    requires NumOk(n) && IsInteger(n)
    ensures IntegerToken(NumText(n)) == Some(NumValue(n))
  {
    hide IntegerValue;
    assert NumText(n) == SignText(n.neg) + n.ip;
    if n.neg { assert NumText(n)[1..] == n.ip; } else { assert NumText(n) == n.ip; }
    AllPrefix(n.ip);
  }

  /** A finished number pushes the value of its text. */
  lemma NumberFinished(c: Config, n: Num)
    requires NumOk(n) && c.Valid() && Token(c) == NumText(n)
    ensures (if IsInteger(n) then FinishInteger(c) else FinishFloating(c)) == c.Goto(Ended(EndNumber)).Push(NumValue(n))
  {
    hide Token, IntegerToken;
    if IsInteger(n) { IntegerTokenValue(n); }
  }

  /** The text of a number is read up to its end. */
  lemma RunNumberText(c: Config, n: Num)
    requires c.st == Start && NumOk(n) && Next(c.buf, c.at, NumText(n)) && c.at + |NumText(n)| < |c.buf|
    ensures c.Valid() && Run(c) == Run(Move(c, |NumText(n)|).(st := NumState(n), saved := c.at))
  {
    hide Run, Next, AllDigits, IsSign, ExpText, FracText, SignText, NumState;
    var sign, parts := SignText(n.neg), n.ip + FracText(n.frac) + ExpText(n.exp);
    NextSplit(c.buf, c.at, sign, parts);
    NextSplit(c.buf, c.at + |sign|, n.ip + FracText(n.frac), ExpText(n.exp));
    NextSplit(c.buf, c.at + |sign|, n.ip, FracText(n.frac));
    RunNumberStart(c, n);
    var d := Move(c, |sign|).(st := InNumber(ParseIntBegin), saved := c.at);
    RunNumberParts(d, n);
    assert Move(d, |parts|).Goto(NumState(n)) == Move(c, |NumText(n)|).(st := NumState(n), saved := c.at);
  }

  /** A number followed by a character that ends it. */
  lemma RunNumber(c: Config, n: Num)
    requires c.st == Start && NumOk(n) && Next(c.buf, c.at, NumText(n))
    requires c.at + |NumText(n)| < |c.buf| && NumEnds(n, c.buf[c.at + |NumText(n)|])
    ensures c.Valid() && Move(c, |NumText(n)|).Valid()
    ensures Run(c) == Run(Move(c, |NumText(n)|).(st := Ended(EndNumber), saved := c.at).Push(NumValue(n)))
  {
    hide Run, Next, NumText, NumOk, NumEnds, NumState, FinishInteger, FinishFloating, Token, NumValue;
    var e := Move(c, |NumText(n)|).(st := NumState(n), saved := c.at);
    RunNumberText(c, n);
    RunNumberEnd(e, n);
    NextToken(c, e, NumText(n));
    NumberFinished(e, n);
  }

  lemma NextToken(c: Config, e: Config, text: string)
    requires Next(c.buf, c.at, text) && e.buf == c.buf && e.saved == c.at && e.at == c.at + |text|
    ensures Token(e) == text
  {
  }

  // ----- literals -----

  lemma LiteralRead(c: Config, rest: string, end: State, v: Json)
    requires c.Valid() && IsEnd(end) && c.at >= 1 && c.saved == c.at - 1 && Next(c.buf, c.at, rest)
    requires (c.st == InLiteral(BeginTrue) && rest == "rue" && end == Ended(EndTrue) && v == Bool(c.buf[c.saved] == 't')) ||
             (c.st == InLiteral(BeginFalse) && rest == "alse" && end == Ended(EndFalse) && v == Bool(c.buf[c.saved] == 't')) ||
             (c.st == InLiteral(BeginNull) && rest == "ull" && end == Ended(EndNull) && v == Null)
    ensures !Halted(c) && Step(c) == Move(c, |rest|).Goto(end).Push(v)
  {
    hide CharStep, LiteralStep, BoolToken, Token;
    LiteralIs(c, rest, end, v);
    TokenOne(c);
  }

  lemma LiteralIs(c: Config, rest: string, end: State, v: Json)
    requires Next(c.buf, c.at, rest)
    ensures LiteralStep(c, rest, end, v) == Move(c, |rest|).Goto(end).Push(v)
  {
  }

  lemma TokenOne(c: Config)
    requires c.at >= 1 && c.saved == c.at - 1 && c.Valid()
    ensures BoolToken(Token(c)) == Bool(c.buf[c.saved] == 't')
  {
  }

  lemma RunLiteral(c: Config, begin: State, rest: string, end: State, v: Json)
    requires c.Valid() && c.st == begin && IsEnd(end) && c.at >= 1 && c.saved == c.at - 1
    requires (begin == InLiteral(BeginTrue) && rest == "rue" && end == Ended(EndTrue) && v == Bool(c.buf[c.saved] == 't')) ||
             (begin == InLiteral(BeginFalse) && rest == "alse" && end == Ended(EndFalse) && v == Bool(c.buf[c.saved] == 't')) ||
             (begin == InLiteral(BeginNull) && rest == "ull" && end == Ended(EndNull) && v == Null)
    requires Next(c.buf, c.at, rest)
    ensures Move(c, |rest|).Valid()
    ensures Run(c) == Run(Move(c, |rest|).Goto(end).Push(v))
  {
    hide Run, CharStep;
    LiteralRead(c, rest, end, v);
    hide Step;
    RunStep(c);
  }

  /** The start state on each kind of first character. */
  lemma RunStart(c: Config)
    requires c.Valid() && c.Readable() >= 1 && c.st == Start
    ensures Run(c) == Run(StartStep(Move(c, 1), c.buf[c.at]))
  {
    hide Run, CharStep, StartStep;
    StartChar(c);
    RunChar(c);
  }

  // ----- arrays and objects -----

  /** No value starts with white space or a closing bracket. */
  lemma TextStart(t: Syntax)
    requires Ok(t)
    ensures |Text(t)| >= 1 && !IsSpace(Text(t)[0]) && Text(t)[0] != ']'
  {
    if t.SNum? { assert IsDigit(t.num.ip[0]); }
  }

  lemma TailStart(t: ElemTail)
    ensures |ElemTailText(t)| >= 1 && (ElemTailText(t)[0] == ',' || ElemTailText(t)[0] == ']')
  {
  }

  lemma FieldStart(f: Field)
    ensures |FieldText(f)| >= 1 && FieldText(f)[0] == '\"'
  {
  }

  lemma ElementStart(c: Config)
    requires c.Valid() && c.Readable() >= 1 && c.st == InArray(BeginEndArray)
    ensures c.buf[c.at] == ']' ==> Run(c) == Run(Move(c, 1).Goto(Ended(EndArray)))
    ensures c.buf[c.at] != ']' ==> Run(c) == Run(Enter(c.Goto(Nested(ParseArrayElement))))
  {
    hide Run, CharStep, AddElement;
    ArrayChar(c);
    RunChar(c);
    if c.buf[c.at] != ']' { RunEnter(c.Goto(Nested(ParseArrayElement))); }
  }

  lemma ElementEnd(c: Config)
    requires c.Valid() && c.Readable() >= 1 && c.st == InArray(ParseArraySeparator)
    ensures
      var d := Move(c, 1).(stack := AddElement(c.stack));
      && (c.buf[c.at] == ']' ==> Run(c) == Run(d.Goto(Ended(EndArray))))
      && (c.buf[c.at] == ',' ==> Run(c) == Run(d.Goto(InArray(BeginArraySpace))))
  {
    hide Run, CharStep, AddElement;
    ArrayChar(c);
    RunChar(c);
  }

  lemma MemberStart(c: Config)
    requires c.Valid() && c.Readable() >= 1 && c.st == InObject(BeginEndObject)
    ensures c.buf[c.at] == '}' ==> Run(c) == Run(Move(c, 1).Goto(Ended(EndObject)))
    ensures c.buf[c.at] != '}' ==> Run(c) == Run(c.Goto(InObject(BeginObjectKey)))
  {
    hide Run, CharStep, AddField;
    ObjectChar(c);
    RunChar(c);
  }

  lemma KeyStart(c: Config)
    requires c.Valid() && c.Readable() >= 1 && c.st == InObject(BeginObjectKey) && c.buf[c.at] == '\"'
    ensures Run(c) == Run(Move(c, 1).(saved := c.at, st := InString(ParseKeyString)))
  {
    hide Run, CharStep, AddField;
    ObjectChar(c);
    RunChar(c);
  }

  lemma ColonStep(c: Config)
    requires c.Valid() && c.Readable() >= 1 && c.st == InObject(ParseKeyValueSeparator) && c.buf[c.at] == ':'
    ensures Run(c) == Run(Move(c, 1).Goto(InObject(ParseKeyValueSeparatorSpace)))
  {
    hide Run, CharStep, AddField;
    ObjectChar(c);
    RunChar(c);
  }

  lemma MemberEnd(c: Config)
    requires c.Valid() && c.Readable() >= 1 && c.st == InObject(ParseObjectSeparator)
    ensures
      var d := Move(c, 1).(stack := AddField(c.stack));
      && (c.buf[c.at] == '}' ==> Run(c) == Run(d.Goto(Ended(EndObject))))
      && (c.buf[c.at] == ',' ==> Run(c) == Run(d.Goto(InObject(ParseObjectSpace))))
  {
    hide Run, CharStep, AddField;
    ObjectChar(c);
    RunChar(c);
  }

  lemma AddElementTo(below: seq<Json>, acc: seq<Json>, v: Json)
    ensures AddElement(below + [Arr(acc)] + [v]) == below + [Arr(acc + [v])]
  {
    var s := below + [Arr(acc)] + [v];
    assert s[..|s| - 2] == below;
  }

  lemma AddFieldTo(below: seq<Json>, acc: seq<Entry>, key: string, v: Json)
    ensures AddField(below + [Obj(acc)] + [Str(key)] + [v]) == below + [Obj(Emplace(acc, key, v))]
  {
    var s := below + [Obj(acc)] + [Str(key)] + [v];
    assert s[..|s| - 3] == below;
  }

  /** Spaces and the separator after an element. */
  lemma RunElementEnd(c: Config, ws: string, below: seq<Json>, acc: seq<Json>, v: Json)
    requires c.st == InArray(ParseArrayElementSpace) && c.stack == below + [Arr(acc)] + [v] && Spaces(ws) && Next(c.buf, c.at, ws)
    requires c.at + |ws| < |c.buf| && c.buf[c.at + |ws|] in "],"
    ensures var d := Move(c, |ws| + 1).(stack := below + [Arr(acc + [v])]);
            c.Valid() && d.Valid() && Run(c) == Run(d.Goto(if c.buf[c.at + |ws|] == ']' then Ended(EndArray) else InArray(BeginArraySpace)))
  {
    hide Run, Next, Spaces, AddElement;
    RunSpaces(c, ws);
    ElementEnd(Move(c, |ws|).Goto(InArray(ParseArraySeparator)));
    AddElementTo(below, acc, v);
  }

  /** Spaces and the separator after a field. */
  lemma RunMemberEnd(c: Config, ws: string, below: seq<Json>, acc: seq<Entry>, key: string, v: Json)
    requires c.st == InObject(ParseObjectValueSpace) && c.stack == below + [Obj(acc)] + [Str(key)] + [v] && Spaces(ws)
    requires Next(c.buf, c.at, ws) && c.at + |ws| < |c.buf| && c.buf[c.at + |ws|] in "},"
    ensures var d := Move(c, |ws| + 1).(stack := below + [Obj(Emplace(acc, key, v))]);
            c.Valid() && d.Valid() && Run(c) == Run(d.Goto(if c.buf[c.at + |ws|] == '}' then Ended(EndObject) else InObject(ParseObjectSpace)))
  {
    hide Run, Next, Spaces, AddField, Emplace;
    RunSpaces(c, ws);
    MemberEnd(Move(c, |ws|).Goto(InObject(ParseObjectSeparator)));
    AddFieldTo(below, acc, key, v);
  }

  /** `d` is `c` after reading `n` characters, with `v` pushed. */
  predicate Pushed(c: Config, d: Config, n: nat, v: Json) {
    d == c.(at := c.at + n, st := d.st, saved := d.saved, stack := c.stack + [v])
  }

  /** `d` is `c` after reading `n` characters, with the top of the stack `below + [_]`
      replaced by `v`. */
  predicate Replaced(c: Config, d: Config, n: nat, below: seq<Json>, v: Json) {
    d == c.(at := c.at + n, st := d.st, saved := d.saved, stack := below + [v])
  }

  /** A character that may follow a value inside an array or object ends a number. */
  lemma DelimiterEnds(n: Num, ch: char)
    requires IsSpace(ch) || ch == ',' || ch == ']' || ch == '}'
    ensures NumEnds(n, ch)
  {
  }

  /** From the start state, a value's text is read and its value pushed. */
  lemma {:induction false} RunValue(c: Config, t: Syntax) returns (d: Config)
    requires c.st == Start && !c.escaped && Ok(t) && Value(t).Some? && Next(c.buf, c.at, Text(t))
    requires t.SNum? ==> c.at + |Text(t)| < |c.buf| && NumEnds(t.num, c.buf[c.at + |Text(t)|])
    ensures c.Valid() && d.Valid() && Run(c) == Run(d) && IsEnd(d.st)
    ensures Pushed(c, d, |Text(t)|, Value(t).value)
    decreases t, 1
  {
    hide Run, Next, ElemsText, ElemsOk, ElemsValue, MembersText, MembersOk, MembersValue, NumText, NumOk, NumEnds, NumValue;
    if t.SNum? {
      RunNumber(c, t.num);
      d := Move(c, |Text(t)|).(st := Ended(EndNumber), saved := c.at).Push(NumValue(t.num));
    } else if t.SArr? {
      NextSplit(c.buf, c.at, "[", ElemsText(t.elems));
      RunStart(c);
      d := RunElems(Move(c, 1).Goto(InArray(BeginArray)).Push(Arr([])), t.elems, c.stack, []);
    } else if t.SObj? {
      NextSplit(c.buf, c.at, "{", MembersText(t.fields));
      RunStart(c);
      d := RunMembers(Move(c, 1).Goto(InObject(BeginObject)).Push(Obj([])), t.fields, c.stack);
    } else {
      d := RunScalar(c, t);
    }
  }

  lemma RunScalar(c: Config, t: Syntax) returns (d: Config)
    requires c.st == Start && !c.escaped && Ok(t) && Value(t).Some? && Next(c.buf, c.at, Text(t))
    requires t.SNull? || t.STrue? || t.SFalse? || t.SStr?
    ensures c.Valid() && d.Valid() && Run(c) == Run(d) && IsEnd(d.st)
    ensures Pushed(c, d, |Text(t)|, Value(t).value)
  {
    hide Run, Next, BodyOk, BodyValue;
    match t
    case SStr(body) => d := RunStringValue(c, body, BodyValue(body).value);
    case STrue =>
      assert "true" == ['t'] + "rue";
      d := RunLiteralValue(c, 't', "rue", Ended(EndTrue), Bool(true));
    case SFalse =>
      assert "false" == ['f'] + "alse";
      d := RunLiteralValue(c, 'f', "alse", Ended(EndFalse), Bool(false));
    case SNull =>
      assert "null" == ['n'] + "ull";
      d := RunLiteralValue(c, 'n', "ull", Ended(EndNull), Null);
  }

  lemma RunStringValue(c: Config, body: string, v: string) returns (d: Config)
    requires c.st == Start && !c.escaped && BodyOk(body) && BodyValue(body) == Some(v) && Next(c.buf, c.at, Quoted(body))
    ensures c.Valid() && d.Valid() && Run(c) == Run(d) && IsEnd(d.st)
    ensures Pushed(c, d, |Quoted(body)|, Str(v))
  {
    hide Run, Next, BodyOk, BodyValue;
    var token := Move(c, 1).(saved := c.at);
    assert Quoted(body) == "\"" + (body + "\"");
    NextSplit(c.buf, c.at, "\"", body + "\"");
    RunStart(c);
    RunString(token.Goto(InString(BeginString)), false, body, v);
    d := Move(token, |body| + 1).Goto(Ended(EndString)).Push(Str(v));
  }

  lemma RunLiteralValue(c: Config, first: char, rest: string, end: State, v: Json) returns (d: Config)
    requires c.st == Start && Next(c.buf, c.at, [first] + rest)
    requires (first == 't' && rest == "rue" && end == Ended(EndTrue) && v == Bool(true)) ||
             (first == 'f' && rest == "alse" && end == Ended(EndFalse) && v == Bool(false)) ||
             (first == 'n' && rest == "ull" && end == Ended(EndNull) && v == Null)
    ensures c.Valid() && d.Valid() && Run(c) == Run(d) && IsEnd(d.st)
    ensures Pushed(c, d, 1 + |rest|, v)
  {
    hide Run, Next;
    var begin := if first == 't' then InLiteral(BeginTrue) else if first == 'f' then InLiteral(BeginFalse) else InLiteral(BeginNull);
    var token := Move(c, 1).(saved := c.at, st := begin);
    NextSplit(c.buf, c.at, [first], rest);
    RunStart(c);
    RunLiteral(token, begin, rest, end, v);
    d := Move(token, |rest|).Goto(end).Push(v);
  }

  /** A value inside an array or object: entered, read and left. */
  lemma {:induction false} RunNested(c: Config, t: Syntax) returns (d: Config)
    requires IsNest(c.st) && !c.escaped && Ok(t) && Value(t).Some? && Next(c.buf, c.at, Text(t))
    requires c.at + |Text(t)| < |c.buf| && (var ch := c.buf[c.at + |Text(t)|]; IsSpace(ch) || ch == ',' || ch == ']' || ch == '}')
    ensures c.Valid() && d.Valid() && Run(c) == Run(d)
    ensures d.st == AfterNested(c.st.nesting)
    ensures Pushed(c, d, |Text(t)|, Value(t).value)
    decreases t, 2
  {
    hide Run, Next;
    RunEnter(c);
    if t.SNum? { DelimiterEnds(t.num, c.buf[c.at + |Text(t)|]); }
    var e := RunValue(Enter(c), t);
    RunLeave(e);
    d := Leave(e);
    assert d.nest == c.nest;
  }

  lemma {:induction false} RunElems(c: Config, e: Elems, below: seq<Json>, acc: seq<Json>) returns (d: Config)
    requires AfterSpace(c.st) == Some(InArray(BeginEndArray)) && !c.escaped && c.stack == below + [Arr(acc)]
    requires ElemsOk(e) && ElemsValue(e, acc).Some? && Next(c.buf, c.at, ElemsText(e))
    ensures c.Valid() && d.Valid() && Run(c) == Run(d) && d.st == Ended(EndArray)
    ensures Replaced(c, d, |ElemsText(e)|, below, Arr(ElemsValue(e, acc).value))
    decreases e, 3
  {
    hide Run, Next, Spaces, Text, Ok, Value, ElemTailText, ElemTailOk, ElemTailValue;
    NextSplit(c.buf, c.at, e.ws, if e.EClose? then "]" else Text(e.v) + (e.ws2 + ElemTailText(e.tail)));
    if e.EItem? { TextStart(e.v); }
    RunSpaces(c, e.ws);
    var f := Move(c, |e.ws|).Goto(InArray(BeginEndArray));
    ElementStart(f);
    if e.EClose? {
      d := Move(f, 1).Goto(Ended(EndArray));
    } else {
      RunEnter(f.Goto(Nested(ParseArrayElement)));
      d := RunItem(f.Goto(Nested(ParseArrayElement)), e, below, acc);
    }
  }

  /** An element with what comes after it. */
  lemma {:induction false} RunItem(c: Config, e: Elems, below: seq<Json>, acc: seq<Json>) returns (d: Config)
    requires c.st == Nested(ParseArrayElement) && !c.escaped && c.stack == below + [Arr(acc)]
    requires e.EItem? && ElemsOk(e) && ElemsValue(e, acc).Some?
    requires Next(c.buf, c.at, Text(e.v) + (e.ws2 + ElemTailText(e.tail)))
    ensures c.Valid() && d.Valid() && Run(c) == Run(d) && d.st == Ended(EndArray)
    ensures Replaced(c, d, |Text(e.v) + (e.ws2 + ElemTailText(e.tail))|, below, Arr(ElemsValue(e, acc).value))
    decreases e, 2
  {
    hide Run, Next, Spaces, Text, Ok, Value, ElemTailText, ElemTailOk, ElemTailValue;
    TailStart(e.tail);
    NextSplit(c.buf, c.at, Text(e.v), e.ws2 + ElemTailText(e.tail));
    NestedFollow(e.ws2, ElemTailText(e.tail));
    var g := RunNested(c, e.v);
    d := RunElemTail(g, e.ws2, e.tail, below, acc, Value(e.v).value);
  }

  /** What follows a nested value starts with white space or a delimiter. */
  lemma NestedFollow(ws: string, tail: string)
    requires Spaces(ws) && |tail| >= 1 && (tail[0] == ',' || tail[0] == ']' || tail[0] == '}')
    ensures var ch := (ws + tail)[0]; IsSpace(ch) || ch == ',' || ch == ']' || ch == '}'
  {
  }

  lemma {:induction false} RunElemTail(c: Config, ws: string, t: ElemTail, below: seq<Json>, acc: seq<Json>, v: Json)
    returns (d: Config)
    requires c.st == InArray(ParseArrayElementSpace) && !c.escaped && c.stack == below + [Arr(acc)] + [v] && Spaces(ws)
    requires ElemTailOk(t) && ElemTailValue(t, acc + [v]).Some? && Next(c.buf, c.at, ws + ElemTailText(t))
    ensures c.Valid() && d.Valid() && Run(c) == Run(d) && d.st == Ended(EndArray)
    ensures Replaced(c, d, |ws + ElemTailText(t)|, below, Arr(ElemTailValue(t, acc + [v]).value))
    decreases t, 0
  {
    hide Run, Next, Spaces, AddElement, ElemsText, ElemsOk, ElemsValue;
    NextSplit(c.buf, c.at, ws, ElemTailText(t));
    RunElementEnd(c, ws, below, acc, v);
    var g := Move(c, |ws| + 1).(stack := below + [Arr(acc + [v])]);
    if t.TClose? {
      d := g.Goto(Ended(EndArray));
    } else {
      NextSplit(c.buf, c.at + |ws|, ",", ElemsText(t.rest));
      d := RunElems(g.Goto(InArray(BeginArraySpace)), t.rest, below, acc + [v]);
    }
  }

  lemma {:induction false} RunMembers(c: Config, m: Members, below: seq<Json>) returns (d: Config)
    requires c.st == InObject(BeginObject) && !c.escaped && c.stack == below + [Obj([])]
    requires MembersOk(m) && MembersValue(m).Some? && Next(c.buf, c.at, MembersText(m))
    ensures c.Valid() && d.Valid() && Run(c) == Run(d) && d.st == Ended(EndObject)
    ensures Replaced(c, d, |MembersText(m)|, below, Obj(MembersValue(m).value))
    decreases m, 3
  {
    hide Run, Next, FieldText, FieldOk, FieldValue, Spaces;
    if m.MFields? { FieldStart(m.first); }
    NextSplit(c.buf, c.at, m.ws, if m.MEmpty? then "}" else FieldText(m.first));
    RunSpaces(c, m.ws);
    var f := Move(c, |m.ws|).Goto(InObject(BeginEndObject));
    MemberStart(f);
    if m.MEmpty? {
      d := Move(f, 1).Goto(Ended(EndObject));
    } else {
      d := RunField(f.Goto(InObject(BeginObjectKey)), m.first, below, []);
    }
  }

  lemma {:induction false} RunField(c: Config, f: Field, below: seq<Json>, acc: seq<Entry>) returns (d: Config)
    requires c.st == InObject(BeginObjectKey) && !c.escaped && c.stack == below + [Obj(acc)]
    requires FieldOk(f) && FieldValue(f, acc).Some? && Next(c.buf, c.at, FieldText(f))
    ensures c.Valid() && d.Valid() && Run(c) == Run(d) && d.st == Ended(EndObject)
    ensures Replaced(c, d, |FieldText(f)|, below, Obj(FieldValue(f, acc).value))
    decreases f, 3
  {
    hide Run, Next, Spaces, BodyOk, BodyValue, Emplace, Quoted;
    var rest := Text(f.v) + (f.ws3 + FieldTailText(f.tail));
    var key := BodyValue(f.key).value;
    TextStart(f.v);
    var e := RunKey(c, f.key, f.ws, f.ws2, rest, key);
    NextSplit(c.buf, e.at, Text(f.v), f.ws3 + FieldTailText(f.tail));
    NestedFollow(f.ws3, FieldTailText(f.tail));
    var g := RunNested(e, f.v);
    d := RunFieldTail(g, f.ws3, f.tail, below, acc, key, Value(f.v).value);
  }

  /** A key with its colon, up to the value. */
  lemma RunKey(c: Config, body: string, ws: string, ws2: string, rest: string, key: string) returns (d: Config)
    requires c.st == InObject(BeginObjectKey) && !c.escaped && BodyOk(body) && BodyValue(body) == Some(key)
    requires Spaces(ws) && Spaces(ws2) && |rest| >= 1 && !IsSpace(rest[0])
    requires Next(c.buf, c.at, Quoted(body) + (ws + (":" + (ws2 + rest))))
    ensures c.Valid() && d.Valid() && Run(c) == Run(d) && d.st == Nested(ParseObjectValue)
    ensures Pushed(c, d, |Quoted(body)| + |ws| + 1 + |ws2|, Str(key))
    ensures Next(c.buf, d.at, rest)
  {
    hide Run, Next, BodyOk, BodyValue, Spaces;
    NextSplit(c.buf, c.at, Quoted(body), ws + (":" + (ws2 + rest)));
    assert Quoted(body) == "\"" + (body + "\"");
    NextSplit(c.buf, c.at, "\"", body + "\"");
    KeyStart(c);
    var e := Move(c, 1).(saved := c.at, st := InString(ParseKeyString));
    RunString(e, true, body, key);
    var f := Move(e, |body| + 1).Goto(InObject(ParseObjectKeySpace)).Push(Str(key));
    d := RunColon(f, ws, ws2, rest);
  }

  lemma ColonIsNoSpace()
    ensures !IsSpace(':')
  {
  }

  /** White space and a colon behind a key. */
  lemma RunToColon(c: Config, ws: string, rest: string) returns (d: Config)
    requires c.st == InObject(ParseObjectKeySpace) && Spaces(ws) && Next(c.buf, c.at, ws + (":" + rest))
    ensures c.Valid() && d == c.(at := c.at + |ws| + 1, st := InObject(ParseKeyValueSeparatorSpace)) && d.Valid()
    ensures Run(c) == Run(d) && Next(c.buf, d.at, rest)
  {
    hide Run, Next, Spaces, IsSpace;
    NextSplit(c.buf, c.at, ws, ":" + rest);
    NextSplit(c.buf, c.at + |ws|, ":", rest);
    ColonIsNoSpace();
    RunSpaces(c, ws);
    var e := c.(at := c.at + |ws|, st := InObject(ParseKeyValueSeparator));
    ColonStep(e);
    d := c.(at := c.at + |ws| + 1, st := InObject(ParseKeyValueSeparatorSpace));
  }

  lemma RunColon(c: Config, ws: string, ws2: string, rest: string) returns (d: Config)
    requires c.st == InObject(ParseObjectKeySpace) && Spaces(ws) && Spaces(ws2) && |rest| >= 1 && !IsSpace(rest[0])
    requires Next(c.buf, c.at, ws + (":" + (ws2 + rest)))
    ensures c.Valid() && d.Valid() && Run(c) == Run(d)
    ensures d == Move(c, |ws| + 1 + |ws2|).Goto(Nested(ParseObjectValue))
    ensures Next(c.buf, d.at, rest)
  {
    hide Run, Next, Spaces, IsSpace;
    var f := RunToColon(c, ws, ws2 + rest);
    NextSplit(c.buf, f.at, ws2, rest);
    RunSpaces(f, ws2);
    d := c.(at := f.at + |ws2|, st := Nested(ParseObjectValue));
  }

  lemma {:induction false} RunFieldTail(c: Config, ws: string, t: FieldTail, below: seq<Json>,
                                        acc: seq<Entry>, key: string, v: Json)
    returns (d: Config)
    requires c.st == InObject(ParseObjectValueSpace) && !c.escaped && c.stack == below + [Obj(acc)] + [Str(key)] + [v] && Spaces(ws)
    requires FieldTailOk(t) && FieldTailValue(t, Emplace(acc, key, v)).Some?
    requires Next(c.buf, c.at, ws + FieldTailText(t))
    ensures c.Valid() && d.Valid() && Run(c) == Run(d) && d.st == Ended(EndObject)
    ensures Replaced(c, d, |ws + FieldTailText(t)|, below, Obj(FieldTailValue(t, Emplace(acc, key, v)).value))
    decreases t, 0
  {
    hide Run, Next, FieldText, FieldOk, FieldValue, Spaces, Emplace, AddField, Text, Ok, Value;
    NextSplit(c.buf, c.at, ws, FieldTailText(t));
    RunMemberEnd(c, ws, below, acc, key, v);
    var g := Move(c, |ws| + 1).(stack := below + [Obj(Emplace(acc, key, v))]);
    if t.FClose? {
      d := g.Goto(Ended(EndObject));
    } else {
      NextSplit(c.buf, c.at + |ws|, ",", t.ws + FieldText(t.next));
      d := RunNextField(g.Goto(InObject(ParseObjectSpace)), t.ws, t.next, below, Emplace(acc, key, v));
    }
  }

  /** The white space after a comma, and the next field. */
  lemma {:induction false} RunNextField(c: Config, ws: string, f: Field, below: seq<Json>, acc: seq<Entry>) returns (d: Config)
    requires c.st == InObject(ParseObjectSpace) && !c.escaped && c.stack == below + [Obj(acc)] && Spaces(ws)
    requires FieldOk(f) && FieldValue(f, acc).Some? && Next(c.buf, c.at, ws + FieldText(f))
    ensures c.Valid() && d.Valid() && Run(c) == Run(d) && d.st == Ended(EndObject)
    ensures Replaced(c, d, |ws + FieldText(f)|, below, Obj(FieldValue(f, acc).value))
    decreases f, 4
  {
    hide Run, Next, FieldText, FieldOk, FieldValue, Spaces;
    FieldStart(f);
    NextSplit(c.buf, c.at, ws, FieldText(f));
    RunSpaces(c, ws);
    d := RunField(Move(c, |ws|).Goto(InObject(BeginObjectKey)), f, below, acc);
  }
}
