/**
 What the parser reports, as a property of the text: when it ends, when it
 fails, and when it asks for more.
 */
module JsonReport {
  import opened Common
  import opened JsonValue
  import opened Escape
  import opened JsonMachine
  import opened JsonShape
  import opened JsonSplit
  import opened JsonGrammar
  import opened JsonAccept
  import opened JsonSound

  /** The text starts with an accepted text. */
  ghost predicate Starts(buf: string) { exists t :: Accepted(t, buf) }

  lemma StartsIs(buf: string, closed: bool)
    ensures Starts(buf) <==> Outcome(Run(Ready(buf, closed))) == End
  {
    hide Run, Accepted, Outcome;
    ExactLanguage(buf, closed);
  }

  lemma Received(buf: string, more: string, last: bool)
    ensures var c := Run(Ready(buf, false));
            && Halted(c) && c.buf == buf && !c.closed && c.Receive(more, last).Valid()
            && Run(Ready(buf + more, last)) == Run(c.Receive(more, last))
  {
    hide Run, Halted;
    RunHalts(Ready(buf, false));
    RunKeeps(Ready(buf, false));
    RunReceive(Ready(buf, false), more, last);
  }

  // ---------------------------------------------------------------------
  // Open texts
  // ---------------------------------------------------------------------

  /** An error is final: no continuation of the text is accepted. */
  lemma ErrorIsFinal(buf: string, more: string)
    requires Outcome(Run(Ready(buf, false))) == Error
    ensures !Starts(buf + more)
  {
    hide Run;
    Received(buf, more, false);
    var c := Run(Ready(buf, false));
    HaltedNoEnd(c.Receive(more, false));
    StartsIs(buf + more, false);
  }

  /** So the parser asks for more as long as more can help. */
  lemma MoreIsAskedFor(buf: string, more: string)
    requires !Starts(buf) && Starts(buf + more)
    ensures Outcome(Run(Ready(buf, false))) == Suspend
  {
    hide Run, Accepted;
    StartsIs(buf, false);
    if Outcome(Run(Ready(buf, false))) == Error { ErrorIsFinal(buf, more); }
    OutcomeIsNoNest(Run(Ready(buf, false)));
  }

  lemma OutcomeIsNoNest(c: Config)
    ensures Outcome(c) != RequireNest
  {
  }

  // ---------------------------------------------------------------------
  // What is behind the position
  // ---------------------------------------------------------------------

  function FirstLetter(p: LiteralPhase): char { match p case BeginTrue => 't' case BeginFalse => 'f' case BeginNull => 'n' }

  /** What must follow the first letter of a literal. */
  function Rest(c: char): string { if c == 't' then "rue" else if c == 'f' then "alse" else "ull" }

  /** The character before the position, as far as the state tells it. */
  predicate LastIs(c: Config) {
    match c.st
    case InString(p) =>
      && c.saved < c.at <= |c.buf|
      && (p == BeginString ==> c.buf[c.at - 1] == '\"')
      && (p == EscapeString || p == EscapeKeyString ==> c.buf[c.at - 1] == '\\')
    case InLiteral(p) => 1 <= c.at <= |c.buf| && c.saved == c.at - 1 && c.buf[c.at - 1] == FirstLetter(p)
    case BeginNumber =>
      1 <= c.at <= |c.buf| && !Letter(c.buf[c.at - 1]) && (c.at >= 2 ==> !Letter(c.buf[c.at - 2]))
    case Failed(_) => true
    case SizeTooSmall => false
    case _ => 1 <= c.at <= |c.buf| ==> !Letter(c.buf[c.at - 1])
  }

  predicate Known(c: Config) { c.Valid() && NestOk(c.nest) && LastIs(c) }

  lemma StringKnown(c: Config)
    requires Known(c) && c.Readable() >= 1 && IsStringState(c.st)
    ensures Known(CharStep(c))
  {
    hide CharStep, StringValue, Body;
    StringChar(c);
  }

  lemma FinishKnown(c: Config)
    requires Known(c) && IsNumberState(c.st)
    ensures Known(FinishInteger(c)) && Known(FinishFloating(c))
  {
    hide IntegerToken, Token;
  }

  lemma NumberKnown(c: Config)
    requires Known(c) && c.Readable() >= 1 && IsNumberState(c.st)
    ensures Known(CharStep(c))
  {
    hide CharStep, FinishInteger, NestOk;
    FinishKnown(c);
    NumberChar(c);
    match c.st.numberPhase
    case ParseIntBegin =>
    case ParseInt =>
    case ParseAfterZero =>
    case ParseFracBegin =>
    case ParseFrac =>
    case ParseExpBegin =>
    case ParseExpAfterSign =>
    case _ =>
  }

  lemma ArrayKnown(c: Config)
    requires Known(c) && c.Readable() >= 1 && IsArrayState(c.st)
    ensures Known(CharStep(c))
  {
    hide CharStep, AddElement;
    ArrayChar(c);
  }

  lemma SpaceNoLetter(c: char)
    ensures IsSpace(c) ==> !Letter(c)
  {
  }

  lemma ObjectKnown(c: Config)
    requires Known(c) && c.Readable() >= 1 && IsObjectState(c.st)
    ensures Known(CharStep(c))
  {
    hide CharStep, AddField, IsSpace, NestOk;
    SpaceNoLetter(c.buf[c.at]);
    ObjectChar(c);
    match c.st.objectPhase
    case BeginObject =>
    case BeginObjectSpace =>
    case BeginEndObject =>
    case ParseObjectSpace =>
    case BeginObjectKey =>
    case ParseObjectKeySpace =>
    case ParseKeyValueSeparator =>
    case ParseKeyValueSeparatorSpace =>
    case ParseObjectValueSpace =>
    case _ =>
  }

  lemma StartKnown(c: Config)
    requires Known(c) && c.Readable() >= 1 && (c.st == Start || c.st == BeginNumber)
    ensures Known(CharStep(c))
  {
    hide CharStep;
    if c.st == Start { StartChar(c); } else { BeginNumberChar(c); }
  }

  lemma LiteralKnown(c: Config, rest: string, end: State, v: Json)
    requires Known(c) && IsEnd(end) && (rest == "rue" || rest == "alse" || rest == "ull") && c.at + |rest| <= |c.buf|
    ensures Known(LiteralStep(c, rest, end, v))
  {
    var slice := c.buf[c.at..c.at + |rest|];
    assert c.buf[c.at + |rest| - 1] == slice[|rest| - 1];
    assert !Letter(rest[|rest| - 1]);
    hide Letter;
  }

  lemma NestKnown(c: Config)
    requires Known(c) && (IsNest(c.st) || (IsEnd(c.st) && c.nest != []))
    ensures IsNest(c.st) ==> Known(Enter(c))
    ensures IsEnd(c.st) ==> Known(Leave(c))
  {
  }

  /** The position, with a character that is about to be put back not counted. */
  function Pos(c: Config): int { if c.st == BeginNumber then c.at - 1 else c.at }

  lemma StepKnown(c: Config)
    requires Known(c) && !Halted(c)
    ensures Known(Step(c))
  {
    hide CharStep, LiteralStep, BoolToken, Token, LastIs, NestOk;
    if IsEnd(c.st) || IsNest(c.st) {
      NestKnown(c);
    } else if c.Readable() < Need(c.st) {
      FailedKnown(c);
    } else if c.st == InLiteral(BeginTrue) {
      LiteralKnown(c, "rue", Ended(EndTrue), BoolToken(Token(c)));
    } else if c.st == InLiteral(BeginFalse) {
      LiteralKnown(c, "alse", Ended(EndFalse), BoolToken(Token(c)));
    } else if c.st == InLiteral(BeginNull) {
      LiteralKnown(c, "ull", Ended(EndNull), Null);
    } else {
      CharKnown(c);
    }
  }

  lemma FailedKnown(c: Config)
    requires Known(c)
    ensures Known(c.Goto(Failed(UnexpectedFail)))
  {
  }

  lemma CharKnown(c: Config)
    requires Known(c) && c.Readable() >= 1 && Waits(c.st) && Need(c.st) == 1
    ensures Known(CharStep(c))
  {
    hide CharStep, LastIs, NestOk;
    if IsStringState(c.st) { StringKnown(c); }
    else if IsNumberState(c.st) { NumberKnown(c); }
    else if IsArrayState(c.st) { ArrayKnown(c); }
    else if IsObjectState(c.st) { ObjectKnown(c); }
    else { StartKnown(c); }
  }

  lemma {:induction false} RunKnown(c: Config)
    requires Known(c)
    ensures Known(Run(c))
    decreases Measure(c)
  {
    hide Step, LastIs, NestOk;
    if !Halted(c) {
      StepDescends(c);
      StepKnown(c);
      RunKnown(Step(c));
    }
  }

  lemma ReadyKnown(buf: string, closed: bool)
    ensures Known(Ready(buf, closed)) && Known(Run(Ready(buf, closed)))
  {
    hide Run;
    RunKnown(Ready(buf, closed));
  }

  lemma CharForward(c: Config)
    requires Known(c) && c.Readable() >= 1 && Waits(c.st) && Need(c.st) == 1
    ensures Pos(CharStep(c)) >= Pos(c)
    ensures IsStringState(c.st) ==> Pos(CharStep(c)) == c.at + 1
  {
    hide CharStep, StringStep, NumberStep, ArrayStep, ObjectStep;
    var d, ch := c.(at := c.at + 1), c.buf[c.at];
    if IsStringState(c.st) { StringChar(c); StringForward(c, d, ch); }
    else if IsNumberState(c.st) { NumberChar(c); NumberForward(c, d, ch); }
    else if IsArrayState(c.st) { ArrayChar(c); ArrayForward(c, d, ch); }
    else if IsObjectState(c.st) { ObjectChar(c); ObjectForward(c, d, ch); }
    else if c.st == Start { StartChar(c); }
    else { BeginNumberChar(c); }
  }

  lemma StringForward(c: Config, d: Config, ch: char)
    requires d == c.(at := c.at + 1) && IsStringState(c.st)
    ensures Pos(StringStep(c, d, ch)) == d.at
  {
    hide StringValue, Body;
  }

  lemma NumberForward(c: Config, d: Config, ch: char)
    requires d == c.(at := c.at + 1) && IsNumberState(c.st)
    ensures NumberStep(c, d, ch).st != BeginNumber
  {
    hide IntegerToken, Token;
  }

  lemma ArrayForward(c: Config, d: Config, ch: char)
    requires d == c.(at := c.at + 1) && IsArrayState(c.st)
    ensures ArrayStep(c, d, ch).st != BeginNumber
  {
    hide AddElement;
  }

  lemma ObjectForward(c: Config, d: Config, ch: char)
    requires d == c.(at := c.at + 1) && IsObjectState(c.st)
    ensures ObjectStep(c, d, ch).st != BeginNumber
  {
    hide AddField;
  }

  /** No step goes back. */
  lemma StepForward(c: Config)
    requires Known(c) && !Halted(c)
    ensures Pos(Step(c)) >= Pos(c)
  {
    hide CharStep, BoolToken, Token, NestOk;
    if Waits(c.st) && Need(c.st) == 1 && c.Readable() >= 1 { CharForward(c); }
  }

  lemma {:induction false} RunForward(c: Config)
    requires Known(c)
    ensures Pos(Run(c)) >= Pos(c)
    decreases Measure(c)
  {
    hide Step, LastIs, NestOk;
    if !Halted(c) {
      StepDescends(c);
      StepKnown(c);
      StepForward(c);
      RunForward(Step(c));
    }
  }

  // ---------------------------------------------------------------------
  // Closing what is open
  // ---------------------------------------------------------------------

  function Closer(s: State): string { if s == Nested(ParseArrayElement) then "]" else "}" }

  /** The brackets that close all nested values, the innermost first. */
  function Closers(nest: seq<State>): string {
    if nest == [] then "" else Closer(nest[|nest| - 1]) + Closers(nest[..|nest| - 1])
  }

  /** A finished nested value followed by its bracket finishes the value around it. */
  lemma CloseOne(c: Config) returns (d: Config)
    requires c.Valid() && IsEnd(c.st) && NestOk(c.nest) && c.nest != [] && c.Readable() >= 1
    requires c.buf[c.at] == Closer(c.nest[|c.nest| - 1])[0]
    ensures d.Valid() && Run(c) == Run(d) && IsEnd(d.st)
    ensures d == c.(at := c.at + 1, nest := c.nest[..|c.nest| - 1], st := d.st, stack := d.stack)
  {
    hide Run, Next, AddElement, AddField;
    RunLeave(c);
    var e := Leave(c);
    NextEmpty(c.buf, c.at);
    RunSpaces(e, "");
    if c.nest[|c.nest| - 1] == Nested(ParseArrayElement) {
      ElementEnd(e.Goto(InArray(ParseArraySeparator)));
      d := Move(e, 1).(stack := AddElement(e.stack), st := Ended(EndArray));
    } else {
      MemberEnd(e.Goto(InObject(ParseObjectSeparator)));
      d := Move(e, 1).(stack := AddField(e.stack), st := Ended(EndObject));
    }
  }

  lemma CloserIs()
    ensures forall s: State :: |Closer(s)| == 1
  {
  }

  /** A finished value followed by the missing brackets ends the whole value. */
  lemma {:induction false} CloseAll(c: Config)
    requires c.Valid() && IsEnd(c.st) && NestOk(c.nest) && Next(c.buf, c.at, Closers(c.nest))
    ensures Outcome(Run(c)) == End
    decreases |c.nest|
  {
    hide Run, Next, Closer;
    CloserIs();
    if c.nest == [] {
      assert Run(c) == c by { HaltedIsRun(c); }
    } else {
      var top, rest := c.nest[|c.nest| - 1], c.nest[..|c.nest| - 1];
      NextSplit(c.buf, c.at, Closer(top), Closers(rest));
      var d := CloseOne(c);
      CloseAll(d);
    }
  }

  lemma HaltedIsRun(c: Config)
    requires c.Valid() && Halted(c)
    ensures Run(c) == c
  {
  }

  /** What ends the whole value after a string, as a value or as a key. */
  function AfterQuote(key: bool, nest: seq<State>): string {
    if key then ":" + ("null" + ("}" + Closers(nest))) else Closers(nest)
  }

  lemma CloseKey(c: Config)
    requires c.Valid() && c.st == InObject(ParseObjectKeySpace) && NestOk(c.nest) && Next(c.buf, c.at, AfterQuote(true, c.nest))
    ensures Outcome(Run(c)) == End
  {
    hide Run, Next, Closers, NestOk;
    var rest := "}" + Closers(c.nest);
    NextSplit(c.buf, c.at, ":", "null" + rest);
    NextSplit(c.buf, c.at + 1, "null", rest);
    var f := RunBareColon(c);
    RunEnter(f);
    assert ['n'] + "ull" == "null";
    var g := RunLiteralValue(Enter(f), 'n', "ull", Ended(EndNull), Null);
    CloseField(g, c.nest);
  }

  lemma RunBareColon(c: Config) returns (f: Config)
    requires c.Valid() && c.st == InObject(ParseObjectKeySpace) && c.Readable() >= 2
    requires c.buf[c.at] == ':' && !IsSpace(c.buf[c.at + 1])
    ensures f == Move(c, 1).Goto(Nested(ParseObjectValue)) && f.Valid() && Run(c) == Run(f)
  {
    hide Run, Next;
    NextEmpty(c.buf, c.at);
    RunSpaces(c, "");
    var d := c.Goto(InObject(ParseKeyValueSeparator));
    ColonStep(d);
    var e := Move(d, 1).Goto(InObject(ParseKeyValueSeparatorSpace));
    NextEmpty(c.buf, c.at + 1);
    RunSpaces(e, "");
    f := e.Goto(Nested(ParseObjectValue));
  }

  lemma CloseField(g: Config, nest: seq<State>)
    requires g.Valid() && IsEnd(g.st) && NestOk(nest) && g.nest == nest + [Nested(ParseObjectValue)]
    requires Next(g.buf, g.at, "}" + Closers(nest))
    ensures Outcome(Run(g)) == End
  {
    hide Run, Next;
    assert g.nest[..|g.nest| - 1] == nest;
    CloseAll(g);
  }

  // ---------------------------------------------------------------------
  // A text that ends in the first letter of a literal
  // ---------------------------------------------------------------------

  /**
   The text ends in a letter that can only be the first one of a literal: some
   continuation is accepted, and every accepted one goes on with the rest of it.
   */
  ghost predicate LiteralOpen(a: string) {
    && EndsInLetter(a) && (exists x :: Starts(a + x))
    && forall x :: Starts(a + x) ==> Rest(a[|a| - 1]) <= x
  }

  /** The rest of a literal and the missing brackets end the whole value. */
  lemma LiteralContinues(a: string)
    requires Run(Ready(a, false)).st.InLiteral? && Run(Ready(a, false)).at == |a|
    ensures EndsInLetter(a) && Starts(a + (Rest(a[|a| - 1]) + Closers(Run(Ready(a, false)).nest)))
  {
    hide Run, Next, NestOk, Closers, Starts;
    var c := Run(Ready(a, false));
    ReadyKnown(a, false);
    var rest, x := Rest(a[|a| - 1]), Rest(a[|a| - 1]) + Closers(c.nest);
    Received(a, x, false);
    var d := c.Receive(x, false);
    assert Next(d.buf, d.at, x) by { NextBehind(a, x); }
    NextSplit(d.buf, d.at, rest, Closers(c.nest));
    assert d.buf[d.saved] == a[|a| - 1];
    var end := if c.st == InLiteral(BeginTrue) then Ended(EndTrue) else if c.st == InLiteral(BeginFalse) then Ended(EndFalse) else Ended(EndNull);
    var v := if c.st == InLiteral(BeginNull) then Null else Bool(d.buf[d.saved] == 't');
    RunLiteral(d, c.st, rest, end, v);
    CloseAll(Move(d, |rest|).Goto(end).Push(v));
    StartsIs(a + x, false);
  }

  lemma NextBehind(a: string, x: string)
    ensures Next(a + x, |a|, x)
  {
  }

  /** Nothing else does. */
  lemma LiteralOnly(a: string, x: string)
    requires Run(Ready(a, false)).st.InLiteral? && Run(Ready(a, false)).at == |a| && Starts(a + x)
    ensures EndsInLetter(a) && Rest(a[|a| - 1]) <= x
  {
    hide Run, NestOk, Starts;
    var c := Run(Ready(a, false));
    ReadyKnown(a, false);
    Received(a, x, false);
    StartsIs(a + x, false);
    var d, rest := c.Receive(x, false), Rest(a[|a| - 1]);
    if !Next(d.buf, d.at, rest) { BadLiteral(d, rest); }
    assert d.buf[d.at..d.at + |rest|] == x[..|rest|];
  }

  /** A string that is finished now and closed ends the whole value, if its body can be read. */
  lemma QuoteEnds(c: Config, key: bool, z: string)
    requires Known(c) && c.st == StringState(key) && BodyOk(z)
    requires Next(c.buf, c.at, z + "\"" + AfterQuote(key, c.nest))
    requires StringValue(c.escaped || '\\' in z, c.buf[c.saved + 1..c.at + |z|]).Some?
    ensures Outcome(Run(c)) == End
  {
    hide Run, Next, BodyOk, StringValue, NestOk, AfterQuote, LastIs;
    NextSplit(c.buf, c.at, z + "\"", AfterQuote(key, c.nest));
    var g := QuoteRead(c, key, z);
    if key { CloseKey(g); } else { CloseValue(g); }
  }

  lemma QuoteRead(c: Config, key: bool, z: string) returns (g: Config)
    requires Known(c) && c.st == StringState(key) && BodyOk(z) && Next(c.buf, c.at, z + "\"")
    requires StringValue(c.escaped || '\\' in z, c.buf[c.saved + 1..c.at + |z|]).Some?
    ensures g.Valid() && Run(c) == Run(g) && g.st == AfterString(key) && g.buf == c.buf && g.at == c.at + |z| + 1 && g.nest == c.nest
  {
    hide Run, Next, BodyOk, CharStep, StringValue, NestOk, Body;
    var d := RunBody(c, key, z);
    NextSplit(c.buf, c.at, z, "\"");
    BodyStep(d, key);
    RunChar(d);
    var e := Move(d, 1);
    BodyIs(e);
    g := FinishString(e, AfterString(key));
  }

  lemma CloseValue(c: Config)
    requires c.Valid() && IsEnd(c.st) && NestOk(c.nest) && Next(c.buf, c.at, AfterQuote(false, c.nest))
    ensures Outcome(Run(c)) == End
  {
    hide Run, Next, Closers, NestOk;
    CloseAll(c);
  }

  /** Inside a string with an accepted continuation, the body can be read with something behind it. */
  lemma BodyContinues(c: Config, key: bool) returns (y: string)
    requires Known(c) && c.st == StringState(key) && Outcome(Run(c)) == End
    ensures c.at + |y| <= |c.buf| && y == c.buf[c.at..c.at + |y|]
    ensures StringValue(c.escaped || '\\' in y, c.buf[c.saved + 1..c.at + |y|]).Some?
  {
    hide Run, Next, BodyOk, StringValue, NestOk, LastIs, QuoteAt;
    var q := QuoteAt(c.buf, c.at);
    if q.None? { Unclosed(c, key); }
    QuoteBody(c.buf, c.at);
    y := c.buf[c.at..q.value];
    assert Next(c.buf, c.at, y) && Next(c.buf, q.value, "\"") by { SlicesNext(c.buf, c.at, q.value); }
    NextJoin(c.buf, c.at, y, "\"");
    BodyNeeded(c, key, y);
  }

  lemma BodyNeeded(c: Config, key: bool, y: string)
    requires Known(c) && c.st == StringState(key) && Outcome(Run(c)) == End && BodyOk(y) && Next(c.buf, c.at, y + "\"")
    ensures c.saved < c.at && c.at + |y| < |c.buf|
    ensures StringValue(c.escaped || '\\' in y, c.buf[c.saved + 1..c.at + |y|]).Some?
  {
    hide Run, Next, BodyOk, CharStep, StringValue, NestOk, Body;
    NextSplit(c.buf, c.at, y, "\"");
    var d := RunBody(c, key, y);
    BodyStep(d, key);
    RunChar(d);
    var e := Move(d, 1);
    BodyIs(e);
    if StringValue(d.escaped, Body(e)).None? { HaltedNoEnd(FinishString(e, AfterString(key))); }
  }

  lemma SlicesNext(buf: string, i: nat, j: nat)
    requires i <= j < |buf| && buf[j] == '\"'
    ensures Next(buf, i, buf[i..j]) && Next(buf, j, "\"")
  {
  }

  lemma NoughtsOk(z: string)
    requires forall i | 0 <= i < |z| :: z[i] == '0'
    ensures BodyOk(z) && '\\' !in z
  {
  }

  /** A text that ends in a letter inside a string can go on with a quote or a nought. */
  lemma StringGoesOn(a: string, x: string, key: bool) returns (x': string)
    requires Run(Ready(a, false)).st == StringState(key) && Run(Ready(a, false)).at == |a| && EndsInLetter(a) && Starts(a + x)
    ensures Starts(a + x') && x' != "" && (x'[0] == '0' || x'[0] == '\"')
  {
    hide Run, NestOk, StringValue, Starts, BodyOk, AfterQuote;
    var c := Run(Ready(a, false));
    ReadyKnown(a, false);
    Received(a, x, false);
    StartsIs(a + x, false);
    var d := c.Receive(x, false);
    ReceiveKnown(c, x);
    var y := BodyContinues(d, key);
    var b := a[c.saved + 1..];
    assert d.buf[c.saved + 1..|a| + |y|] == b + y;
    var z := BodyCompleted(c.escaped, b, y);
    NoughtsOk(z);
    x' := z + "\"" + AfterQuote(key, c.nest);
    Received(a, x', false);
    var e := c.Receive(x', false);
    ReceiveKnown(c, x');
    NextBehind(a, x');
    assert e.buf[c.saved + 1..|a| + |z|] == b + z;
    QuoteEnds(e, key, z);
    StartsIs(a + x', false);
  }

  lemma BodyCompleted(escaped: bool, b: string, y: string) returns (z: string)
    requires (b != "" ==> EndsInLetter(b)) && StringValue(escaped || '\\' in y, b + y).Some?
    ensures (forall i | 0 <= i < |z| :: z[i] == '0') && StringValue(escaped, b + z).Some?
  {
    hide Unescaped;
    if !escaped { return ""; }
    z := Completed(b, y);
  }

  lemma ReceiveKnown(c: Config, x: string)
    requires Known(c)
    ensures Known(c.Receive(x, false))
  {
  }

  /** The text leaves the parser in a literal, right behind its first letter. */
  ghost predicate StandsInLiteral(a: string) { Run(Ready(a, false)).st.InLiteral? && Run(Ready(a, false)).at == |a| }

  /** A waiting parser that has just read a letter is in a string or in a literal. */
  lemma WaitsBehindLetter(a: string)
    requires EndsInLetter(a) && Outcome(Run(Ready(a, false))) == Suspend
    ensures var c := Run(Ready(a, false));
            || c.st.InLiteral? || (c.at == |a| && (c.st == StringState(false) || c.st == StringState(true)))
  {
    hide Run, NestOk;
    ReadyKnown(a, false);
    Received(a, "", false);
  }

  /** A literal of which more was read than its first letter does not end in one. */
  lemma LiteralFurther(a: string, x: string)
    requires Run(Ready(a, false)).st.InLiteral? && Run(Ready(a, false)).at < |a| && Starts(a + x)
    ensures !EndsInLetter(a)
  {
    hide Run, NestOk, Starts;
    var c := Run(Ready(a, false));
    ReadyKnown(a, false);
    Received(a, x, false);
    StartsIs(a + x, false);
    var d, rest := c.Receive(x, false), Rest(a[c.at - 1]);
    assert |a| - c.at < |rest|;
    if !Next(d.buf, d.at, rest) { BadLiteral(d, rest); }
    InsideRest(a, x, c.at, rest);
    RestNoLetter(a[c.at - 1], |a| - 1 - c.at);
  }

  lemma InsideRest(a: string, x: string, at: nat, rest: string)
    requires at < |a| < at + |rest| && Next(a + x, at, rest)
    ensures rest[|a| - 1 - at] == a[|a| - 1]
  {
    assert (a + x)[at..at + |rest|][|a| - 1 - at] == a[|a| - 1];
  }

  lemma RestNoLetter(c: char, k: nat)
    requires k < |Rest(c)|
    ensures !Letter(Rest(c)[k])
  {
  }

  /** The property of the text is the state of the parser. */
  lemma LiteralOpenIs(a: string)
    ensures LiteralOpen(a) <==> StandsInLiteral(a)
  {
    hide Run, Starts, Closers;
    if StandsInLiteral(a) {
      LiteralContinues(a);
      forall x | Starts(a + x) ensures Rest(a[|a| - 1]) <= x { LiteralOnly(a, x); }
    }
    if LiteralOpen(a) { LiteralStands(a); }
  }

  lemma LiteralStands(a: string)
    requires LiteralOpen(a)
    ensures StandsInLiteral(a)
  {
    hide Run, Starts;
    var x :| Starts(a + x);
    NothingMore(a);
    MoreIsAskedFor(a, x);
    WaitsBehindLetter(a);
    Received(a, x, false);
    var c := Run(Ready(a, false));
    if c.st.InLiteral? {
      if c.at < |a| { LiteralFurther(a, x); }
    } else {
      var x' := StringGoesOn(a, x, c.st == StringState(true));
      NoRest(a[|a| - 1], x');
    }
  }

  lemma NothingMore(a: string)
    ensures Starts(a) ==> Starts(a + "")
  {
    hide Starts;
    assert a + "" == a;
  }

  lemma NoRest(c: char, x: string)
    requires x != "" && (x[0] == '0' || x[0] == '\"')
    ensures !(Rest(c) <= x)
  {
    assert Rest(c)[0] != x[0];
  }

  // ---------------------------------------------------------------------
  // Complete texts
  // ---------------------------------------------------------------------

  /** A first letter of a literal was read, and what comes after it is something, but too short for the rest. */
  ghost predicate CutInLiteral(buf: string) {
    exists k | 1 <= k < |buf| :: LiteralOpen(buf[..k]) && |buf| - k < |Rest(buf[k - 1])|
  }

  /** A complete text on which the parser asks for more ends in a literal. */
  lemma WaitsInLiteral(buf: string)
    requires Outcome(Run(Ready(buf, true))) == Suspend
    ensures var c := Run(Ready(buf, true));
            && c.buf == buf && c.st.InLiteral? && 1 <= c.at < |buf| && Letter(buf[c.at - 1]) && |buf| - c.at < |Rest(buf[c.at - 1])|
  {
    hide Run, NestOk;
    var c := Run(Ready(buf, true));
    ReadyKnown(buf, true);
    RunHalts(Ready(buf, true));
    RunKeeps(Ready(buf, true));
  }

  /** It was already in that literal after the part of the text before it. */
  lemma StoodInLiteral(buf: string, k: nat)
    requires k < |buf| && Run(Ready(buf, true)).st.InLiteral? && Run(Ready(buf, true)).at == k >= 1
    requires Letter(buf[k - 1]) && |buf| - k < |Rest(buf[k - 1])|
    ensures StandsInLiteral(buf[..k])
  {
    hide Run, NestOk;
    var a, s := buf[..k], buf[k..];
    assert a + s == buf;
    var p := Run(Ready(a, false));
    ReadyKnown(a, false);
    Received(a, s, true);
    var q := p.Receive(s, true);
    QKnown(p, s);
    if IsError(p.st) || IsEnd(p.st) {
      HaltedIsRun(q);
    } else if p.st.InLiteral? {
      if p.at < k { ShortLiteral(q, k); }
    } else if IsStringState(p.st) {
      StringLeaves(q);
    }
  }

  lemma QKnown(p: Config, s: string)
    requires Known(p)
    ensures Known(p.Receive(s, true))
  {
  }

  /** From inside a string the position is left behind. */
  lemma StringLeaves(q: Config)
    requires Known(q) && IsStringState(q.st) && q.Readable() >= 1
    ensures Pos(Run(q)) > q.at
  {
    hide Run, CharStep, LastIs, NestOk;
    RunChar(q);
    CharKnown(q);
    CharForward(q);
    RunForward(CharStep(q));
  }

  /** From inside a literal the run halts there, fails, or ends behind the whole of it. */
  lemma ShortLiteral(q: Config, k: nat)
    requires Known(q) && q.st.InLiteral? && q.at < k < q.at + Need(q.st)
    ensures !(Run(q).st.InLiteral? && Run(q).at == k)
  {
    hide Run, NestOk, BoolToken, Token;
    if Halted(q) {
      HaltedIsRun(q);
    } else {
      RunStep(q);
      var d := Step(q);
      StepKnown(q);
      if IsError(d.st) { HaltedIsRun(d); } else { RunForward(d); }
    }
  }

  /**
   What is reported on a complete text: the end if and only if it starts with an
   accepted text, a request for more if and only if it is cut off inside a literal,
   and an error on every other text.
   */
  lemma CompleteText(buf: string)
    ensures Outcome(Run(Ready(buf, true))) == (if Starts(buf) then End else if CutInLiteral(buf) then Suspend else Error)
  {
    hide Run, Starts, LiteralOpen;
    StartsIs(buf, true);
    OutcomeIsNoNest(Run(Ready(buf, true)));
    if Outcome(Run(Ready(buf, true))) == Suspend {
      WaitsInLiteral(buf);
      var k := Run(Ready(buf, true)).at;
      StoodInLiteral(buf, k);
      LiteralOpenIs(buf[..k]);
      assert LiteralOpen(buf[..k]);
    }
    if CutInLiteral(buf) {
      var k :| 1 <= k < |buf| && LiteralOpen(buf[..k]) && |buf| - k < |Rest(buf[k - 1])|;
      LiteralOpenIs(buf[..k]);
      CutWaits(buf, k);
    }
  }

  lemma CutWaits(buf: string, k: nat)
    requires 1 <= k < |buf| && StandsInLiteral(buf[..k]) && |buf| - k < |Rest(buf[k - 1])|
    ensures Outcome(Run(Ready(buf, true))) == Suspend
  {
    hide Run, NestOk;
    var a, s := buf[..k], buf[k..];
    assert a + s == buf;
    ReadyKnown(a, false);
    Received(a, s, true);
    HaltedIsRun(Run(Ready(a, false)).Receive(s, true));
  }

  /** Such a text, on which the parser asks for more although there is none, and three on which it does not. */
  lemma CutLiteral()
    ensures Outcome(Run(Ready("tr", true))) == Suspend && Outcome(Run(Ready("t", true))) == Error
    ensures Outcome(Run(Ready("[", true))) == Error && Outcome(Run(Ready("", true))) == Error
  {
    hide Run, Outcome, Ready;
    FirstOnly("tr");
    FirstOnly("t");
    FirstOnly("[");
    NothingRead();
  }

  lemma FirstOnly(buf: string)
    requires buf == "t" || buf == "tr" || buf == "["
    ensures Outcome(Run(Ready(buf, true))) == if buf == "tr" then Suspend else Error
  {
    hide Run;
    var c := Ready(buf, true);
    RunStart(c);
    HaltedIsRun(StartStep(Move(c, 1), buf[0]));
  }

  lemma NothingRead()
    ensures Outcome(Run(Ready("", true))) == Error
  {
    hide Run;
    HaltedIsRun(Ready("", true));
  }
}
