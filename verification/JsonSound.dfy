/**
 Soundness of the reader, and with completeness the exact language it accepts:
 a run that ends has read the text of a well-formed tree and pushed its value.

 Each lemma follows the machine from one of its states. It returns the tree it
 has read and the configuration after it, or `Stuck` when the run cannot end.
 */
module JsonSound {
  import opened Common
  import opened JsonValue
  import opened Escape
  import opened JsonMachine
  import opened JsonGrammar
  import opened JsonAccept

  datatype Reading<T> = Read(t: T, d: Config) | Stuck

  /** The run from `c` does not end a value. */
  predicate NoEnd(c: Config)
    requires c.Valid()
  {
    Outcome(Run(c)) != End
  }

  /** A machine that has halted without an end state never ends. */
  lemma HaltedNoEnd(c: Config)
    requires c.Valid() && Halted(c) && !IsEnd(c.st)
    ensures NoEnd(c)
  {
    hide Step;
  }

  lemma NextJoin(buf: string, at: nat, a: string, b: string)
    requires Next(buf, at, a) && Next(buf, at + |a|, b)
    ensures Next(buf, at, a + b)
  {
    assert buf[at..at + |a + b|] == buf[at..at + |a|] + buf[at + |a|..at + |a| + |b|];
  }

  lemma NextChar(buf: string, at: nat, c: char)
    requires at < |buf| && buf[at] == c
    ensures Next(buf, at, [c])
  {
  }

  // ----- white space -----

  /** The white space from `at` on. */
  function SpaceRun(buf: string, at: nat): (ws: string)
    requires at <= |buf|
    ensures at + |ws| <= |buf| && Next(buf, at, ws) && Spaces(ws)
    ensures at + |ws| < |buf| ==> !IsSpace(buf[at + |ws|])
    decreases |buf| - at
  {
    if at < |buf| && IsSpace(buf[at]) then
      var rest := SpaceRun(buf, at + 1);
      assert buf[at..at + 1 + |rest|] == [buf[at]] + buf[at + 1..at + 1 + |rest|];
      [buf[at]] + rest
    else ""
  }

  /** White space up to the end of the text: the machine waits. */
  lemma {:induction false} AllSpaces(c: Config)
    requires c.Valid() && AfterSpace(c.st).Some? && Spaces(c.buf[c.at..])
    ensures NoEnd(c)
    decreases |c.buf| - c.at
  {
    hide CharStep, Run;
    if c.Readable() == 0 {
      HaltedNoEnd(c);
    } else {
      assert c.buf[c.at] == c.buf[c.at..][0];
      SpaceStep(c);
      RunChar(c);
      assert c.buf[c.at + 1..] == c.buf[c.at..][1..];
      AllSpaces(CharStep(c));
    }
  }

  /** Skips white space; the next character exists and is none. */
  lemma ReadSpaces(c: Config) returns (r: Reading<string>)
    requires c.Valid() && AfterSpace(c.st).Some?
    ensures r.Stuck? ==> NoEnd(c)
    ensures r.Read? ==>
              && Spaces(r.t) && Next(c.buf, c.at, r.t) && r.d == Move(c, |r.t|).Goto(AfterSpace(c.st).value)
              && r.d.Valid() && r.d.Readable() >= 1 && !IsSpace(c.buf[r.d.at]) && Run(c) == Run(r.d)
  {
    hide Run;
    var ws := SpaceRun(c.buf, c.at);
    if c.at + |ws| < |c.buf| {
      RunSpaces(c, ws);
      r := Read(ws, Move(c, |ws|).Goto(AfterSpace(c.st).value));
    } else {
      assert c.buf[c.at..] == ws;
      AllSpaces(c);
      r := Stuck;
    }
  }

  // ----- strings -----

  /** Index of the closing quote, scanning from `at`. */
  function QuoteAt(buf: string, at: nat): Option<nat>
    decreases |buf| - at
  {
    if at >= |buf| then None
    else if buf[at] == '\"' then Some(at)
    else if buf[at] == '\\' then QuoteAt(buf, at + 2)
    else QuoteAt(buf, at + 1)
  }

  lemma {:induction false} QuoteBody(buf: string, at: nat)
    requires QuoteAt(buf, at).Some?
    ensures at <= QuoteAt(buf, at).value < |buf| && buf[QuoteAt(buf, at).value] == '\"'
    ensures BodyOk(buf[at..QuoteAt(buf, at).value])
    decreases |buf| - at
  {
    var q := QuoteAt(buf, at).value;
    if buf[at] == '\\' {
      QuoteBody(buf, at + 2);
      assert buf[at..q][2..] == buf[at + 2..q];
    } else if buf[at] != '\"' {
      QuoteBody(buf, at + 1);
      assert buf[at..q][1..] == buf[at + 1..q];
    }
  }

  lemma {:induction false} Unclosed(c: Config, key: bool)
    requires c.Valid() && InBody(c.st, key) && QuoteAt(c.buf, c.at).None?
    ensures NoEnd(c)
    decreases |c.buf| - c.at
  {
    hide CharStep, Run;
    if c.Readable() == 0 {
      HaltedNoEnd(c);
    } else {
      BodyStep(c, key);
      RunChar(c);
      var d := CharStep(c);
      if c.buf[c.at] == '\\' {
        if d.Readable() == 0 {
          HaltedNoEnd(d);
        } else {
          EscapeStep(d, key);
          RunChar(d);
          Unclosed(CharStep(d), key);
        }
      } else {
        Unclosed(d, key);
      }
    }
  }

  lemma BadEscape(c: Config, key: bool, body: string)
    requires InBody(c.st, key) && !c.escaped && c.at >= 1 && c.saved == c.at - 1
    requires BodyOk(body) && Next(c.buf, c.at, body + "\"") && BodyValue(body).None?
    ensures c.Valid() && NoEnd(c)
  {
    hide Run, CharStep, Unescaped, Body;
    NextSplit(c.buf, c.at, body, "\"");
    var d := RunBody(c, key, body);
    BodyStep(d, key);
    RunChar(d);
    var e := Move(d, 1);
    BodyIs(e);
    HaltedNoEnd(FinishString(e, AfterString(key)));
  }

  /** A string token after its opening quote. */
  lemma ReadString(c: Config, key: bool) returns (r: Reading<string>)
    requires c.Valid() && InBody(c.st, key) && !c.escaped && c.at >= 1 && c.saved == c.at - 1
    ensures r.Stuck? ==> NoEnd(c)
    ensures r.Read? ==>
              && BodyOk(r.t) && BodyValue(r.t).Some? && Next(c.buf, c.at, r.t + "\"")
              && r.d == Move(c, |r.t| + 1).Goto(AfterString(key)).Push(Str(BodyValue(r.t).value))
              && r.d.Valid() && Run(c) == Run(r.d)
  {
    hide Run, BodyOk, BodyValue;
    var q := QuoteAt(c.buf, c.at);
    if q.None? {
      Unclosed(c, key);
      return Stuck;
    }
    QuoteBody(c.buf, c.at);
    var body := c.buf[c.at..q.value];
    NextJoin(c.buf, c.at, body, "\"");
    if BodyValue(body).None? {
      BadEscape(c, key, body);
      return Stuck;
    }
    RunString(c, key, body, BodyValue(body).value);
    r := Read(body, Move(c, |body| + 1).Goto(AfterString(key)).Push(Str(BodyValue(body).value)));
  }

  // ----- numbers -----

  /** The digits from `at` on. */
  function DigitsAt(buf: string, at: nat): (s: string)
    requires at <= |buf|
    ensures at + |s| <= |buf| && Next(buf, at, s) && AllDigits(s)
    ensures at + |s| < |buf| ==> !IsDigit(buf[at + |s|])
    ensures at < |buf| && IsDigit(buf[at]) ==> s != ""
    decreases |buf| - at
  {
    if at < |buf| && IsDigit(buf[at]) then
      var rest := DigitsAt(buf, at + 1);
      assert buf[at..at + 1 + |rest|] == [buf[at]] + buf[at + 1..at + 1 + |rest|];
      [buf[at]] + rest
    else ""
  }

  /** A number that the text cuts off never ends a value: the machine waits, or
      at the end of a complete text rejects it. */
  lemma CutOff(c: Config)
    requires c.Valid() && c.Readable() == 0 && (IsNumberState(c.st) || c.st == BeginNumber)
    ensures NoEnd(c)
  {
    hide CharStep, Run;
    if Halted(c) {
      HaltedNoEnd(c);
    } else {
      RunStep(c);
      HaltedNoEnd(Step(c));
    }
  }

  /** A character that a number state cannot take. */
  lemma BadDigit(c: Config)
    requires c.Valid() && c.Readable() >= 1 && !IsDigit(c.buf[c.at])
    requires c.st == InNumber(ParseIntBegin) || c.st == InNumber(ParseFracBegin) || c.st == InNumber(ParseExpAfterSign) ||
             (c.st == InNumber(ParseExpBegin) && c.buf[c.at] != '+' && c.buf[c.at] != '-')
    ensures NoEnd(c)
  {
    hide Run, CharStep;
    NumberChar(c);
    RunChar(c);
    HaltedNoEnd(CharStep(c));
  }

  /** One or more digits, with a character after them. */
  lemma ReadDigits(c: Config, then_: State) returns (r: Reading<string>)
    requires c.Valid()
    requires (c.st == InNumber(ParseFracBegin) && then_ == InNumber(ParseFrac)) ||
             ((c.st == InNumber(ParseExpBegin) || c.st == InNumber(ParseExpAfterSign)) && then_ == InNumber(ParseExp))
    requires c.st == InNumber(ParseExpBegin) ==> c.Readable() >= 1 && c.buf[c.at] != '+' && c.buf[c.at] != '-'
    ensures r.Stuck? ==> NoEnd(c)
    ensures r.Read? ==>
              && AllDigits(r.t) && r.t != "" && Next(c.buf, c.at, r.t) && r.d == Move(c, |r.t|).Goto(then_)
              && r.d.Valid() && r.d.Readable() >= 1 && !IsDigit(c.buf[r.d.at]) && Run(c) == Run(r.d)
  {
    hide Run, CharStep, AllDigits, Next;
    if c.Readable() == 0 {
      CutOff(c);
      return Stuck;
    }
    var digits := DigitsAt(c.buf, c.at);
    if digits == "" {
      BadDigit(c);
      return Stuck;
    }
    RunSomeDigits(c, digits, then_);
    var d := Move(c, |digits|).Goto(then_);
    if d.Readable() == 0 {
      CutOff(d);
      return Stuck;
    }
    r := Read(digits, d);
  }

  /** The integer part, with a character after it. */
  lemma ReadInteger(c: Config) returns (r: Reading<string>)
    requires c.Valid() && c.st == InNumber(ParseIntBegin)
    ensures r.Stuck? ==> NoEnd(c)
    ensures r.Read? ==>
              && AllDigits(r.t) && r.t != "" && (r.t[0] == '0' ==> r.t == "0") && Next(c.buf, c.at, r.t)
              && r.d == Move(c, |r.t|).Goto(if r.t == "0" then InNumber(ParseAfterZero) else InNumber(ParseInt))
              && r.d.Valid() && r.d.Readable() >= 1 && (r.t != "0" ==> !IsDigit(c.buf[r.d.at])) && Run(c) == Run(r.d)
  {
    hide Run, CharStep;
    if c.Readable() == 0 {
      CutOff(c);
      return Stuck;
    }
    var digits := DigitsAt(c.buf, c.at);
    if digits == "" {
      BadDigit(c);
      return Stuck;
    }
    if c.buf[c.at] == '0' { digits := "0"; }
    RunIntegerPart(c, digits);
    var d := Move(c, |digits|).Goto(if digits == "0" then InNumber(ParseAfterZero) else InNumber(ParseInt));
    if d.Readable() == 0 {
      CutOff(d);
      return Stuck;
    }
    r := Read(digits, d);
  }

  /** An optional fraction. */
  lemma ReadFraction(c: Config) returns (r: Reading<string>)
    requires c.Valid() && (c.st == InNumber(ParseInt) || c.st == InNumber(ParseAfterZero)) && c.Readable() >= 1
    ensures r.Stuck? ==> NoEnd(c)
    ensures r.Read? ==>
              && AllDigits(r.t) && Next(c.buf, c.at, FracText(r.t))
              && r.d == Move(c, |FracText(r.t)|).Goto(if r.t == "" then c.st else InNumber(ParseFrac))
              && r.d.Valid() && r.d.Readable() >= 1 && Run(c) == Run(r.d)
              && (if r.t == "" then c.buf[r.d.at] != '.' else !IsDigit(c.buf[r.d.at]))
  {
    hide Run, CharStep;
    if c.buf[c.at] != '.' { return Read("", c); }
    NumberSteps(c);
    RunChar(c);
    var e := Move(c, 1).Goto(InNumber(ParseFracBegin));
    r := ReadDigits(e, InNumber(ParseFrac));
    if r.Read? {
      NextChar(c.buf, c.at, '.');
      NextJoin(c.buf, c.at, ".", r.t);
    }
  }

  /** Sign and digits of an exponent. */
  lemma ReadSigned(c: Config) returns (r: Reading<(string, string)>)
    requires c.Valid() && c.st == InNumber(ParseExpBegin)
    ensures r.Stuck? ==> NoEnd(c)
    ensures r.Read? ==>
              && IsSign(r.t.0) && AllDigits(r.t.1) && r.t.1 != "" && Next(c.buf, c.at, r.t.0 + r.t.1)
              && r.d == Move(c, |r.t.0 + r.t.1|).Goto(InNumber(ParseExp))
              && r.d.Valid() && r.d.Readable() >= 1 && !IsDigit(c.buf[r.d.at]) && Run(c) == Run(r.d)
  {
    hide Run, CharStep, AllDigits;
    if c.Readable() == 0 {
      CutOff(c);
      return Stuck;
    }
    if c.buf[c.at] == '+' || c.buf[c.at] == '-' {
      var sign := [c.buf[c.at]];
      NumberSteps(c);
      RunChar(c);
      var q := ReadDigits(Move(c, 1).Goto(InNumber(ParseExpAfterSign)), InNumber(ParseExp));
      if q.Stuck? { return Stuck; }
      NextChar(c.buf, c.at, sign[0]);
      NextJoin(c.buf, c.at, sign, q.t);
      r := Read((sign, q.t), q.d);
    } else {
      var q := ReadDigits(c, InNumber(ParseExp));
      if q.Stuck? { return Stuck; }
      assert "" + q.t == q.t;
      r := Read(("", q.t), q.d);
    }
  }

  predicate ExpOk(x: Exponent) {
    x.Exp? ==> (x.e == 'e' || x.e == 'E') && IsSign(x.sign) && AllDigits(x.digits) && x.digits != ""
  }

  /** An optional exponent. */
  lemma ReadExponent(c: Config) returns (r: Reading<Exponent>)
    requires c.Valid() && (c.st == InNumber(ParseInt) || c.st == InNumber(ParseAfterZero) || c.st == InNumber(ParseFrac)) && c.Readable() >= 1
    ensures r.Stuck? ==> NoEnd(c)
    ensures r.Read? ==>
              && ExpOk(r.t) && Next(c.buf, c.at, ExpText(r.t))
              && r.d == Move(c, |ExpText(r.t)|).Goto(if r.t.NoExp? then c.st else InNumber(ParseExp))
              && r.d.Valid() && r.d.Readable() >= 1 && Run(c) == Run(r.d)
              && (if r.t.NoExp? then c.buf[r.d.at] != 'e' && c.buf[r.d.at] != 'E' else !IsDigit(c.buf[r.d.at]))
  {
    hide Run, Next, AllDigits, IsSign, IsDigit;
    var e := c.buf[c.at];
    if e != 'e' && e != 'E' {
      NextEmpty(c.buf, c.at);
      return Read(NoExp, c);
    }
    RunExpSign(c);
    var q := ReadSigned(Move(c, 1).Goto(InNumber(ParseExpBegin)));
    if q.Stuck? { return Stuck; }
    NextChar(c.buf, c.at, e);
    NextJoin(c.buf, c.at, [e], q.t.0 + q.t.1);
    r := Read(Exp(e, q.t.0, q.t.1), q.d);
  }

  /** Where each part ends, the number ends. */
  lemma PartsEnd(n: Num, buf: string, i: nat, f: nat, x: nat)
    requires i < |buf| && f < |buf| && x < |buf| && f == i + |FracText(n.frac)| && x == f + |ExpText(n.exp)|
    requires n.ip != "0" ==> !IsDigit(buf[i])
    requires if n.frac == "" then buf[f] != '.' else !IsDigit(buf[f])
    requires if n.exp.NoExp? then buf[x] != 'e' && buf[x] != 'E' else !IsDigit(buf[x])
    ensures NumEnds(n, buf[x])
  {
  }

  /** A number token from its integer part on. */
  lemma ReadParts(c: Config, neg: bool) returns (r: Reading<Num>)
    requires c.Valid() && c.st == InNumber(ParseIntBegin)
    ensures r.Stuck? ==> NoEnd(c)
    ensures r.Read? ==>
              && r.t.neg == neg && NumOk(r.t) && Next(c.buf, c.at, r.t.ip + FracText(r.t.frac) + ExpText(r.t.exp))
              && r.d.at == c.at + |r.t.ip + FracText(r.t.frac) + ExpText(r.t.exp)| < |c.buf|
              && NumEnds(r.t, c.buf[r.d.at])
  {
    hide Run, Next, AllDigits, IsSign, NumEnds, FracText, ExpText;
    var i := ReadInteger(c);
    if i.Stuck? { return Stuck; }
    var f := ReadFraction(i.d);
    if f.Stuck? { return Stuck; }
    var x := ReadExponent(f.d);
    if x.Stuck? { return Stuck; }
    NextJoin(c.buf, c.at, i.t, FracText(f.t));
    NextJoin(c.buf, c.at, i.t + FracText(f.t), ExpText(x.t));
    var n := Num(neg, i.t, f.t, x.t);
    PartsEnd(n, c.buf, i.d.at, f.d.at, x.d.at);
    r := Read(n, x.d);
  }

  /** A number token from its first character on. */
  lemma ReadNumber(c: Config) returns (r: Reading<Num>)
    requires c.Valid() && c.st == Start && c.Readable() >= 1 && (IsDigit(c.buf[c.at]) || c.buf[c.at] == '-')
    ensures r.Stuck? ==> NoEnd(c)
    ensures r.Read? ==>
              && NumOk(r.t) && Next(c.buf, c.at, NumText(r.t)) && c.at + |NumText(r.t)| < |c.buf|
              && NumEnds(r.t, c.buf[c.at + |NumText(r.t)|])
              && r.d == Move(c, |NumText(r.t)|).(st := Ended(EndNumber), saved := c.at).Push(NumValue(r.t))
              && r.d.Valid() && Run(c) == Run(r.d)
  {
    hide Run, Next, AllDigits, IsSign, FracText, ExpText, NumEnds;
    var neg := c.buf[c.at] == '-';
    var b := Move(c, 1).(st := BeginNumber, saved := c.at);
    RunStart(c);
    if b.Readable() == 0 {
      CutOff(b);
      return Stuck;
    }
    SignStep(b);
    var p := Move(c, |SignText(neg)|).(st := InNumber(ParseIntBegin), saved := c.at);
    var q := ReadParts(p, neg);
    if q.Stuck? { return Stuck; }
    var n := q.t;
    assert Next(c.buf, c.at, SignText(neg)) by { if neg { NextChar(c.buf, c.at, '-'); } else { NextEmpty(c.buf, c.at); } }
    NextJoin(c.buf, c.at, SignText(neg), n.ip + FracText(n.frac) + ExpText(n.exp));
    RunNumber(c, n);
    r := Read(n, Move(c, |NumText(n)|).(st := Ended(EndNumber), saved := c.at).Push(NumValue(n)));
  }

  lemma NextEmpty(buf: string, at: nat)
    requires at <= |buf|
    ensures Next(buf, at, "")
  {
  }

  /** A digit is put back, a minus sign is not. */
  lemma SignStep(c: Config)
    requires c.Valid() && c.st == BeginNumber && c.Readable() >= 1 && c.at >= 1
    ensures Run(c) == Run(if c.buf[c.at - 1] == '-' then c.Goto(InNumber(ParseIntBegin)) else c.(at := c.at - 1, st := InNumber(ParseIntBegin)))
  {
    hide Run, CharStep;
    BeginNumberChar(c);
    RunChar(c);
  }

  // ----- literals -----

  lemma BadLiteral(c: Config, rest: string)
    requires c.Valid() && c.at >= 1 && c.saved == c.at - 1
    requires (c.st == InLiteral(BeginTrue) && rest == "rue") || (c.st == InLiteral(BeginFalse) && rest == "alse") || (c.st == InLiteral(BeginNull) && rest == "ull")
    requires !Next(c.buf, c.at, rest)
    ensures NoEnd(c)
  {
    hide CharStep, Run;
    if c.Readable() < |rest| {
      HaltedNoEnd(c);
    } else {
      RunStep(c);
      HaltedNoEnd(Step(c));
    }
  }

  /** `true`, `false` or `null` from its first character on. */
  lemma ReadLiteral(c: Config, rest: string, end: State, v: Json, t: Syntax) returns (r: Reading<Syntax>)
    requires c.Valid() && c.st == Start && c.Readable() >= 1
    requires (c.buf[c.at] == 't' && rest == "rue" && end == Ended(EndTrue) && v == Bool(true) && t == STrue) ||
             (c.buf[c.at] == 'f' && rest == "alse" && end == Ended(EndFalse) && v == Bool(false) && t == SFalse) ||
             (c.buf[c.at] == 'n' && rest == "ull" && end == Ended(EndNull) && v == Null && t == SNull)
    ensures r.Stuck? ==> NoEnd(c)
    ensures r.Read? ==>
              && r.t == t && Next(c.buf, c.at, Text(t)) && r.d.Valid() && Run(c) == Run(r.d) && IsEnd(r.d.st)
              && Pushed(c, r.d, |Text(t)|, v)
  {
    hide Run;
    var first := c.buf[c.at];
    assert Text(t) == [first] + rest;
    if Next(c.buf, c.at + 1, rest) {
      NextChar(c.buf, c.at, first);
      NextJoin(c.buf, c.at, [first], rest);
      var d := RunLiteralValue(c, first, rest, end, v);
      r := Read(t, d);
    } else {
      RunStart(c);
      var begin := if first == 't' then InLiteral(BeginTrue) else if first == 'f' then InLiteral(BeginFalse) else InLiteral(BeginNull);
      BadLiteral(Move(c, 1).(saved := c.at, st := begin), rest);
      r := Stuck;
    }
  }

  // ----- values -----

  /** What a reading of a value from `c` tells. */
  predicate ValueRead(c: Config, t: Syntax, d: Config) {
    && Ok(t) && Value(t).Some? && Next(c.buf, c.at, Text(t)) && Pushed(c, d, |Text(t)|, Value(t).value)
    && (t.SNum? ==> d.at < |c.buf| && NumEnds(t.num, c.buf[d.at]))
  }

  lemma {:induction false} ReadValue(c: Config) returns (r: Reading<Syntax>)
    requires c.Valid() && c.st == Start && !c.escaped
    ensures r.Stuck? ==> NoEnd(c)
    ensures r.Read? ==> ValueRead(c, r.t, r.d) && r.d.Valid() && Run(c) == Run(r.d) && IsEnd(r.d.st)
    decreases c.Readable(), 2
  {
    hide Run, Next, NumOk, NumEnds, NumText, NumValue, BodyOk, BodyValue;
    if c.Readable() == 0 {
      HaltedNoEnd(c);
      return Stuck;
    }
    var ch := c.buf[c.at];
    if ch == '\"' {
      r := ReadStringValue(c);
    } else if IsDigit(ch) || ch == '-' {
      var n := ReadNumber(c);
      r := if n.Stuck? then Stuck else Read(SNum(n.t), n.d);
    } else if ch == 't' {
      r := ReadLiteral(c, "rue", Ended(EndTrue), Bool(true), STrue);
    } else if ch == 'f' {
      r := ReadLiteral(c, "alse", Ended(EndFalse), Bool(false), SFalse);
    } else if ch == 'n' {
      r := ReadLiteral(c, "ull", Ended(EndNull), Null, SNull);
    } else {
      r := ReadComposite(c);
    }
  }

  lemma ReadStringValue(c: Config) returns (r: Reading<Syntax>)
    requires c.Valid() && c.st == Start && !c.escaped && c.Readable() >= 1 && c.buf[c.at] == '\"'
    ensures r.Stuck? ==> NoEnd(c)
    ensures r.Read? ==> ValueRead(c, r.t, r.d) && r.d.Valid() && Run(c) == Run(r.d) && IsEnd(r.d.st)
  {
    hide Run, Next, BodyOk, BodyValue;
    RunStart(c);
    var b := ReadString(Move(c, 1).(saved := c.at, st := InString(BeginString)), false);
    if b.Stuck? { return Stuck; }
    NextChar(c.buf, c.at, '\"');
    NextJoin(c.buf, c.at, "\"", b.t + "\"");
    assert Quoted(b.t) == "\"" + (b.t + "\"");
    r := Read(SStr(b.t), b.d);
  }

  lemma {:induction false} ReadComposite(c: Config) returns (r: Reading<Syntax>)
    requires c.Valid() && c.st == Start && !c.escaped && c.Readable() >= 1
    requires var ch := c.buf[c.at]; ch != '\"' && !IsDigit(ch) && ch != '-' && ch != 't' && ch != 'f' && ch != 'n'
    ensures r.Stuck? ==> NoEnd(c)
    ensures r.Read? ==> ValueRead(c, r.t, r.d) && r.d.Valid() && Run(c) == Run(r.d) && IsEnd(r.d.st)
    decreases c.Readable(), 1
  {
    hide Run, Next, Text, Ok, Value;
    var ch := c.buf[c.at];
    if ch == '[' {
      r := ReadArray(c);
    } else if ch == '{' {
      r := ReadObject(c);
    } else {
      RunStart(c);
      HaltedNoEnd(StartStep(Move(c, 1), ch));
      r := Stuck;
    }
  }

  lemma {:induction false} ReadArray(c: Config) returns (r: Reading<Syntax>)
    requires c.Valid() && c.st == Start && !c.escaped && c.Readable() >= 1 && c.buf[c.at] == '['
    ensures r.Stuck? ==> NoEnd(c)
    ensures r.Read? ==> ValueRead(c, r.t, r.d) && r.d.Valid() && Run(c) == Run(r.d) && IsEnd(r.d.st)
    decreases c.Readable(), 0
  {
    hide Run, Next, ElemsText, ElemsOk, ElemsValue;
    RunStart(c);
    var e := ReadElems(Move(c, 1).Goto(InArray(BeginArray)).Push(Arr([])), c.stack, []);
    if e.Stuck? { return Stuck; }
    NextChar(c.buf, c.at, '[');
    NextJoin(c.buf, c.at, "[", ElemsText(e.t));
    r := Read(SArr(e.t), e.d);
  }

  lemma {:induction false} ReadObject(c: Config) returns (r: Reading<Syntax>)
    requires c.Valid() && c.st == Start && !c.escaped && c.Readable() >= 1 && c.buf[c.at] == '{'
    ensures r.Stuck? ==> NoEnd(c)
    ensures r.Read? ==> ValueRead(c, r.t, r.d) && r.d.Valid() && Run(c) == Run(r.d) && IsEnd(r.d.st)
    decreases c.Readable(), 0
  {
    hide Run, Next, MembersText, MembersOk, MembersValue;
    RunStart(c);
    var m := ReadMembers(Move(c, 1).Goto(InObject(BeginObject)).Push(Obj([])), c.stack);
    if m.Stuck? { return Stuck; }
    NextChar(c.buf, c.at, '{');
    NextJoin(c.buf, c.at, "{", MembersText(m.t));
    r := Read(SObj(m.t), m.d);
  }

  /** A value inside an array or object. */
  lemma {:induction false} ReadNested(c: Config) returns (r: Reading<Syntax>)
    requires c.Valid() && IsNest(c.st) && !c.escaped
    ensures r.Stuck? ==> NoEnd(c)
    ensures r.Read? ==>
              && Ok(r.t) && Value(r.t).Some? && Next(c.buf, c.at, Text(r.t)) && Pushed(c, r.d, |Text(r.t)|, Value(r.t).value)
              && r.d.Valid() && Run(c) == Run(r.d)
              && r.d.st == AfterNested(c.st.nesting)
    decreases c.Readable(), 3
  {
    hide Run, Next;
    RunEnter(c);
    var v := ReadValue(Enter(c));
    if v.Stuck? { return Stuck; }
    RunLeave(v.d);
    assert Leave(v.d).nest == c.nest;
    r := Read(v.t, Leave(v.d));
  }

  // ----- arrays -----

  lemma {:induction false} ReadElems(c: Config, below: seq<Json>, acc: seq<Json>) returns (r: Reading<Elems>)
    requires c.Valid() && AfterSpace(c.st) == Some(InArray(BeginEndArray)) && !c.escaped && c.stack == below + [Arr(acc)]
    ensures r.Stuck? ==> NoEnd(c)
    ensures r.Read? ==>
              && ElemsOk(r.t) && ElemsValue(r.t, acc).Some? && Next(c.buf, c.at, ElemsText(r.t))
              && Replaced(c, r.d, |ElemsText(r.t)|, below, Arr(ElemsValue(r.t, acc).value))
              && r.d.Valid() && Run(c) == Run(r.d) && r.d.st == Ended(EndArray)
    decreases c.Readable(), 5
  {
    hide Run, Next, Spaces, Text, Ok, Value, ElemTailText, ElemTailOk, ElemTailValue;
    var ws := ReadSpaces(c);
    if ws.Stuck? { return Stuck; }
    var f := ws.d;
    ElementStart(f);
    if c.buf[f.at] == ']' {
      NextChar(c.buf, f.at, ']');
      NextJoin(c.buf, c.at, ws.t, "]");
      return Read(EClose(ws.t), Move(f, 1).Goto(Ended(EndArray)));
    }
    RunEnter(f.Goto(Nested(ParseArrayElement)));
    var i := ReadItem(f.Goto(Nested(ParseArrayElement)), below, acc);
    if i.Stuck? { return Stuck; }
    NextJoin(c.buf, c.at, ws.t, Text(i.t.0) + (i.t.1 + ElemTailText(i.t.2)));
    r := Read(EItem(ws.t, i.t.0, i.t.1, i.t.2), i.d);
  }

  /** An element with what comes after it. */
  lemma {:induction false} ReadItem(c: Config, below: seq<Json>, acc: seq<Json>) returns (r: Reading<(Syntax, string, ElemTail)>)
    requires c.Valid() && c.st == Nested(ParseArrayElement) && !c.escaped && c.stack == below + [Arr(acc)]
    ensures r.Stuck? ==> NoEnd(c)
    ensures r.Read? ==>
              var (v, ws, t) := r.t;
              && Ok(v) && Value(v).Some? && Spaces(ws) && ElemTailOk(t) && ElemTailValue(t, acc + [Value(v).value]).Some?
              && Next(c.buf, c.at, Text(v) + (ws + ElemTailText(t)))
              && Replaced(c, r.d, |Text(v) + (ws + ElemTailText(t))|, below, Arr(ElemTailValue(t, acc + [Value(v).value]).value))
              && r.d.Valid() && Run(c) == Run(r.d) && r.d.st == Ended(EndArray)
    decreases c.Readable(), 4
  {
    hide Run, Next, Spaces, Text, Ok, Value, ElemTailText, ElemTailOk, ElemTailValue;
    var v := ReadNested(c);
    if v.Stuck? { return Stuck; }
    TextStart(v.t);
    var t := ReadElemTail(v.d, below, acc, Value(v.t).value);
    if t.Stuck? { return Stuck; }
    NextJoin(c.buf, c.at, Text(v.t), t.t.0 + ElemTailText(t.t.1));
    r := Read((v.t, t.t.0, t.t.1), t.d);
  }

  lemma {:induction false} ReadElemTail(c: Config, below: seq<Json>, acc: seq<Json>, v: Json)
    returns (r: Reading<(string, ElemTail)>)
    requires c.Valid() && c.st == InArray(ParseArrayElementSpace) && !c.escaped && c.stack == below + [Arr(acc)] + [v]
    ensures r.Stuck? ==> NoEnd(c)
    ensures r.Read? ==>
              && Spaces(r.t.0) && ElemTailOk(r.t.1) && ElemTailValue(r.t.1, acc + [v]).Some?
              && Next(c.buf, c.at, r.t.0 + ElemTailText(r.t.1))
              && Replaced(c, r.d, |r.t.0 + ElemTailText(r.t.1)|, below, Arr(ElemTailValue(r.t.1, acc + [v]).value))
              && r.d.Valid() && Run(c) == Run(r.d) && r.d.st == Ended(EndArray)
    decreases c.Readable(), 0
  {
    hide Run, Next, Spaces, AddElement, ElemsText, ElemsOk, ElemsValue;
    var ws := ReadSpaces(c);
    if ws.Stuck? { return Stuck; }
    var f := ws.d;
    var ch := c.buf[f.at];
    ElementEnd(f);
    AddElementTo(below, acc, v);
    var g := Move(f, 1).(stack := below + [Arr(acc + [v])]);
    NextChar(c.buf, f.at, ch);
    if ch == ']' {
      NextJoin(c.buf, c.at, ws.t, "]");
      r := Read((ws.t, TClose), g.Goto(Ended(EndArray)));
    } else if ch == ',' {
      var e := ReadElems(g.Goto(InArray(BeginArraySpace)), below, acc + [v]);
      if e.Stuck? { return Stuck; }
      NextJoin(c.buf, f.at, ",", ElemsText(e.t));
      NextJoin(c.buf, c.at, ws.t, "," + ElemsText(e.t));
      r := Read((ws.t, TComma(e.t)), e.d);
    } else {
      BadSeparator(f);
      r := Stuck;
    }
  }

  lemma BadSeparator(c: Config)
    requires c.Valid() && c.Readable() >= 1
    requires
      var ch := c.buf[c.at];
      || (c.st == InArray(ParseArraySeparator) && ch != ']' && ch != ',')
      || (c.st == InObject(ParseObjectSeparator) && ch != '}' && ch != ',')
      || (c.st == InObject(BeginObjectKey) && ch != '\"')
      || (c.st == InObject(ParseKeyValueSeparator) && ch != ':')
    ensures NoEnd(c)
  {
    hide Run, CharStep, AddElement, AddField;
    if IsArrayState(c.st) { ArrayChar(c); } else { ObjectChar(c); }
    RunChar(c);
    HaltedNoEnd(CharStep(c));
  }

  // ----- objects -----

  lemma {:induction false} ReadMembers(c: Config, below: seq<Json>) returns (r: Reading<Members>)
    requires c.Valid() && c.st == InObject(BeginObject) && !c.escaped && c.stack == below + [Obj([])]
    ensures r.Stuck? ==> NoEnd(c)
    ensures r.Read? ==>
              && MembersOk(r.t) && MembersValue(r.t).Some? && Next(c.buf, c.at, MembersText(r.t))
              && Replaced(c, r.d, |MembersText(r.t)|, below, Obj(MembersValue(r.t).value))
              && r.d.Valid() && Run(c) == Run(r.d) && r.d.st == Ended(EndObject)
    decreases c.Readable(), 5
  {
    hide Run, Next, Spaces, FieldText, FieldOk, FieldValue;
    var ws := ReadSpaces(c);
    if ws.Stuck? { return Stuck; }
    var g := ws.d;
    MemberStart(g);
    if c.buf[g.at] == '}' {
      NextChar(c.buf, g.at, '}');
      NextJoin(c.buf, c.at, ws.t, "}");
      return Read(MEmpty(ws.t), Move(g, 1).Goto(Ended(EndObject)));
    }
    var f := ReadField(g.Goto(InObject(BeginObjectKey)), below, []);
    if f.Stuck? { return Stuck; }
    NextJoin(c.buf, c.at, ws.t, FieldText(f.t));
    r := Read(MFields(ws.t, f.t), f.d);
  }

  /** Behind a key: white space, a colon and white space. */
  lemma ReadColon(c: Config) returns (r: Reading<(string, string)>)
    requires c.Valid() && c.st == InObject(ParseObjectKeySpace)
    ensures r.Stuck? ==> NoEnd(c)
    ensures r.Read? ==>
              && Spaces(r.t.0) && Spaces(r.t.1) && Next(c.buf, c.at, r.t.0)
              && Next(c.buf, c.at + |r.t.0|, ":") && Next(c.buf, c.at + |r.t.0| + 1, r.t.1)
              && r.d == c.(at := c.at + |r.t.0| + 1 + |r.t.1|, st := Nested(ParseObjectValue))
              && r.d.Valid() && Run(c) == Run(r.d)
  {
    hide Run, Next, Spaces, IsSpace;
    var w := ReadSpaces(c);
    if w.Stuck? { return Stuck; }
    if c.buf[w.d.at] != ':' {
      BadSeparator(w.d);
      return Stuck;
    }
    NextChar(c.buf, w.d.at, ':');
    ColonStep(w.d);
    var x := ReadSpaces(Move(w.d, 1).Goto(InObject(ParseKeyValueSeparatorSpace)));
    if x.Stuck? { return Stuck; }
    r := Read((w.t, x.t), x.d);
  }

  /** A key with its colon, up to the value: the key's body and the white space
      on either side of the colon. */
  lemma ReadKey(c: Config) returns (r: Reading<(string, string, string)>)
    requires c.Valid() && c.st == InObject(BeginObjectKey) && !c.escaped && c.Readable() >= 1
    ensures r.Stuck? ==> NoEnd(c)
    ensures r.Read? ==>
              && BodyOk(r.t.0) && BodyValue(r.t.0).Some? && Spaces(r.t.1) && Spaces(r.t.2)
              && Next(c.buf, c.at, Quoted(r.t.0)) && Next(c.buf, c.at + |Quoted(r.t.0)|, r.t.1)
              && Next(c.buf, c.at + |Quoted(r.t.0)| + |r.t.1|, ":")
              && Next(c.buf, c.at + |Quoted(r.t.0)| + |r.t.1| + 1, r.t.2)
              && Pushed(c, r.d, |Quoted(r.t.0)| + |r.t.1| + 1 + |r.t.2|, Str(BodyValue(r.t.0).value))
              && r.d.Valid() && Run(c) == Run(r.d) && r.d.st == Nested(ParseObjectValue)
  {
    hide Run, Next, Spaces, BodyOk, BodyValue;
    if c.buf[c.at] != '\"' {
      BadSeparator(c);
      return Stuck;
    }
    KeyStart(c);
    var b := ReadString(Move(c, 1).(saved := c.at, st := InString(ParseKeyString)), true);
    if b.Stuck? { return Stuck; }
    NextChar(c.buf, c.at, '\"');
    NextJoin(c.buf, c.at, "\"", b.t + "\"");
    assert Quoted(b.t) == "\"" + (b.t + "\"");
    var w := ReadColon(b.d);
    if w.Stuck? { return Stuck; }
    r := Read((b.t, w.t.0, w.t.1), w.d);
  }

  lemma {:induction false} ReadField(c: Config, below: seq<Json>, acc: seq<Entry>) returns (r: Reading<Field>)
    requires c.Valid() && c.st == InObject(BeginObjectKey) && !c.escaped && c.stack == below + [Obj(acc)] && c.Readable() >= 1
    ensures r.Stuck? ==> NoEnd(c)
    ensures r.Read? ==>
              && FieldOk(r.t) && FieldValue(r.t, acc).Some? && Next(c.buf, c.at, FieldText(r.t))
              && Replaced(c, r.d, |FieldText(r.t)|, below, Obj(FieldValue(r.t, acc).value))
              && r.d.Valid() && Run(c) == Run(r.d) && r.d.st == Ended(EndObject)
    decreases c.Readable(), 4
  {
    hide Run, Next, Spaces, BodyOk, BodyValue, Emplace, Quoted;
    var k := ReadKey(c);
    if k.Stuck? { return Stuck; }
    var (body, ws, ws2) := k.t;
    var v := ReadNested(k.d);
    if v.Stuck? { return Stuck; }
    TextStart(v.t);
    var t := ReadFieldTail(v.d, below, acc, BodyValue(body).value, Value(v.t).value);
    if t.Stuck? { return Stuck; }
    FieldJoin(c.buf, c.at, Quoted(body), ws, ws2, Text(v.t), t.t.0 + FieldTailText(t.t.1));
    r := Read(Field(body, ws, ws2, v.t, t.t.0, t.t.1), t.d);
  }

  lemma FieldJoin(buf: string, at: nat, key: string, ws: string, ws2: string, v: string, tail: string)
    requires Next(buf, at, key) && Next(buf, at + |key|, ws) && Next(buf, at + |key| + |ws|, ":")
    requires Next(buf, at + |key| + |ws| + 1, ws2) && Next(buf, at + |key| + |ws| + 1 + |ws2|, v)
    requires Next(buf, at + |key| + |ws| + 1 + |ws2| + |v|, tail)
    ensures Next(buf, at, key + (ws + (":" + (ws2 + (v + tail)))))
  {
    hide Next;
    NextJoin(buf, at + |key| + |ws| + 1 + |ws2|, v, tail);
    NextJoin(buf, at + |key| + |ws| + 1, ws2, v + tail);
    NextJoin(buf, at + |key| + |ws|, ":", ws2 + (v + tail));
    NextJoin(buf, at + |key|, ws, ":" + (ws2 + (v + tail)));
    NextJoin(buf, at, key, ws + (":" + (ws2 + (v + tail))));
  }

  /** White space, a comma, white space and a member stand one after the other. */
  lemma TailJoin(buf: string, at: nat, ws: string, w: string, member: string)
    requires Next(buf, at, ws) && Next(buf, at + |ws|, ",") && Next(buf, at + |ws| + 1, w) && Next(buf, at + |ws| + 1 + |w|, member)
    ensures Next(buf, at, ws + ("," + (w + member)))
  {
    hide Next;
    NextJoin(buf, at + |ws| + 1, w, member);
    NextJoin(buf, at + |ws|, ",", w + member);
    NextJoin(buf, at, ws, "," + (w + member));
  }

  lemma {:induction false} ReadFieldTail(c: Config, below: seq<Json>, acc: seq<Entry>, key: string, v: Json)
    returns (r: Reading<(string, FieldTail)>)
    requires c.Valid() && c.st == InObject(ParseObjectValueSpace) && !c.escaped && c.stack == below + [Obj(acc)] + [Str(key)] + [v]
    ensures r.Stuck? ==> NoEnd(c)
    ensures r.Read? ==>
              && Spaces(r.t.0) && FieldTailOk(r.t.1) && FieldTailValue(r.t.1, Emplace(acc, key, v)).Some?
              && Next(c.buf, c.at, r.t.0 + FieldTailText(r.t.1))
              && Replaced(c, r.d, |r.t.0 + FieldTailText(r.t.1)|, below, Obj(FieldTailValue(r.t.1, Emplace(acc, key, v)).value))
              && r.d.Valid() && Run(c) == Run(r.d) && r.d.st == Ended(EndObject)
    decreases c.Readable(), 0
  {
    hide Run, Next, Spaces, IsSpace, Emplace, AddField, FieldText, FieldOk, FieldValue;
    var ws := ReadSpaces(c);
    if ws.Stuck? { return Stuck; }
    var f := ws.d;
    var ch := c.buf[f.at];
    MemberEnd(f);
    AddFieldTo(below, acc, key, v);
    var acc' := Emplace(acc, key, v);
    var g := Move(f, 1).(stack := below + [Obj(acc')]);
    NextChar(c.buf, f.at, ch);
    if ch == '}' {
      NextJoin(c.buf, c.at, ws.t, "}");
      r := Read((ws.t, FClose), g.Goto(Ended(EndObject)));
    } else if ch == ',' {
      var w := ReadSpaces(g.Goto(InObject(ParseObjectSpace)));
      if w.Stuck? { return Stuck; }
      var n := ReadField(w.d, below, acc');
      if n.Stuck? { return Stuck; }
      TailJoin(c.buf, c.at, ws.t, w.t, FieldText(n.t));
      r := Read((ws.t, FComma(w.t, n.t)), n.d);
    } else {
      BadSeparator(f);
      r := Stuck;
    }
  }

  // ----- the exact language -----

  /** `buf` starts with the text of `t`, which has a value; a number must be
      followed by a character that ends it. */
  predicate Accepted(t: Syntax, buf: string) {
    && Ok(t) && Value(t).Some? && Next(buf, 0, Text(t))
    && (t.SNum? ==> |Text(t)| < |buf| && NumEnds(t.num, buf[|Text(t)|]))
  }

  /** Every accepted text is read to its end, and its value is left on the stack. */
  lemma Completeness(t: Syntax, buf: string, closed: bool)
    requires Accepted(t, buf)
    ensures
      var d := Run(Ready(buf, closed));
      Outcome(d) == End && d.at == |Text(t)| && d.nest == [] && d.stack == [Value(t).value]
  {
    hide Next, Step;
    var d := RunValue(Ready(buf, closed), t);
    assert Halted(d) && Run(d) == d;
  }

  /** A run that ends has read an accepted text. */
  lemma Soundness(buf: string, closed: bool) returns (t: Syntax)
    requires Outcome(Run(Ready(buf, closed))) == End
    ensures Accepted(t, buf)
    ensures Run(Ready(buf, closed)).at == |Text(t)| && Run(Ready(buf, closed)).stack == [Value(t).value]
  {
    hide Next, Step;
    var r := ReadValue(Ready(buf, closed));
    t := r.t;
    assert Halted(r.d) && Run(r.d) == r.d;
  }

  /** The reader ends on exactly the texts of the grammar. */
  lemma ExactLanguage(buf: string, closed: bool)
    ensures Outcome(Run(Ready(buf, closed))) == End <==> exists t :: Accepted(t, buf)
  {
    hide Run, Accepted;
    if Outcome(Run(Ready(buf, closed))) == End {
      var t := Soundness(buf, closed);
    }
    if t :| Accepted(t, buf) {
      Completeness(t, buf, closed);
    }
  }
}
