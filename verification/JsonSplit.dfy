/**
 Split independence: the reader ends up in the same configuration however its
 input is cut into pieces.
 */
module JsonSplit {
  import opened JsonValue
  import opened JsonMachine

  // ----- later characters do not change an earlier step -----

  lemma TokenReceive(c: Config, more: string, last: bool)
    requires c.Valid()
    ensures Token(c.Receive(more, last)) == Token(c)
  {
    if c.saved <= c.at { assert (c.buf + more)[c.saved..c.at] == c.buf[c.saved..c.at]; }
  }

  lemma StringStepReceive(c: Config, d: Config, ch: char, more: string, last: bool)
    requires c.Valid() && d.Valid() && d == c.(at := c.at + 1)
    requires IsStringState(c.st)
    ensures StringStep(c.Receive(more, last), d.Receive(more, last), ch) == StringStep(c, d, ch).Receive(more, last)
  {
    hide FinishString;
    FinishStringReceive(d, InObject(ParseObjectKeySpace), more, last);
    FinishStringReceive(d, Ended(EndString), more, last);
    match c.st.stringPhase
    case EscapeString =>
    case EscapeKeyString =>
    case ParseKeyString =>
    case _ =>
  }

  lemma FinishStringReceive(c: Config, next: State, more: string, last: bool)
    requires c.Valid()
    ensures FinishString(c.Receive(more, last), next) == FinishString(c, next).Receive(more, last)
  {
    hide StringValue, Token;
    TokenReceive(c, more, last);
  }

  lemma StartStepReceive(c: Config, ch: char, more: string, last: bool)
    ensures StartStep(c.Receive(more, last), ch) == StartStep(c, ch).Receive(more, last)
  {
  }

  lemma NumberStepReceive(c: Config, d: Config, ch: char, more: string, last: bool)
    requires c.Valid() && d.Valid() && d == c.(at := c.at + 1)
    requires IsNumberState(c.st)
    ensures NumberStep(c.Receive(more, last), d.Receive(more, last), ch) == NumberStep(c, d, ch).Receive(more, last)
  {
    hide FinishInteger, FinishFloating;
    FinishReceive(c, more, last);
  }

  lemma FinishReceive(c: Config, more: string, last: bool)
    requires c.Valid()
    ensures FinishInteger(c.Receive(more, last)) == FinishInteger(c).Receive(more, last)
    ensures FinishFloating(c.Receive(more, last)) == FinishFloating(c).Receive(more, last)
  {
    hide IntegerToken, Token;
    TokenReceive(c, more, last);
  }

  lemma ArrayStepReceive(c: Config, d: Config, ch: char, more: string, last: bool)
    requires d == c.(at := c.at + 1)
    requires IsArrayState(c.st)
    ensures ArrayStep(c.Receive(more, last), d.Receive(more, last), ch) == ArrayStep(c, d, ch).Receive(more, last)
  {
    hide AddElement, IsSpace;
    match c.st.arrayPhase
    case BeginArray =>
    case BeginArraySpace =>
    case BeginEndArray =>
    case ParseArrayElementSpace =>
    case _ =>
  }

  lemma ObjectStepReceive(c: Config, d: Config, ch: char, more: string, last: bool)
    requires d == c.(at := c.at + 1)
    requires IsObjectState(c.st)
    ensures ObjectStep(c.Receive(more, last), d.Receive(more, last), ch) == ObjectStep(c, d, ch).Receive(more, last)
  {
    hide AddField, IsSpace;
    match c.st.objectPhase
    case BeginObject =>
    case BeginObjectSpace =>
    case BeginEndObject =>
    case ParseObjectSpace =>
    case BeginObjectKey =>
    case ParseObjectKeySpace =>
    case ParseKeyValueSeparator =>
    case ParseKeyValueSeparatorSpace =>
    case ParseObjectValueSpace =>
    case _ =>
  }

  lemma CharStepReceive(c: Config, more: string, last: bool)
    requires c.Valid() && c.Readable() >= 1 && Waits(c.st) && Need(c.st) == 1
    ensures c.Receive(more, last).Valid() && CharStep(c.Receive(more, last)) == CharStep(c).Receive(more, last)
  {
    hide CharStep, ArrayStep, ObjectStep, NumberStep, StringStep, StartStep;
    var d, ch := c.(at := c.at + 1), c.buf[c.at];
    var e := c.Receive(more, last);
    if IsStringState(c.st) { StringChar(c); StringChar(e); StringStepReceive(c, d, ch, more, last); }
    else if IsNumberState(c.st) { NumberChar(c); NumberChar(e); NumberStepReceive(c, d, ch, more, last); }
    else if IsArrayState(c.st) { ArrayChar(c); ArrayChar(e); ArrayStepReceive(c, d, ch, more, last); }
    else if IsObjectState(c.st) { ObjectChar(c); ObjectChar(e); ObjectStepReceive(c, d, ch, more, last); }
    else if c.st == Start { StartChar(c); StartChar(e); StartStepReceive(d, ch, more, last); }
    else { BeginNumberChar(c); BeginNumberChar(e); }
  }

  lemma LiteralStepReceive(c: Config, rest: string, end: State, v: Json, more: string, last: bool)
    requires c.at + |rest| <= |c.buf|
    ensures LiteralStep(c.Receive(more, last), rest, end, v) == LiteralStep(c, rest, end, v).Receive(more, last)
  {
    var e, slice := c.Receive(more, last), c.buf[c.at..c.at + |rest|];
    assert e.buf[c.at..c.at + |rest|] == slice by { SliceReceive(c.buf, more, c.at, c.at + |rest|); }
    if slice == rest {
      assert LiteralStep(c, rest, end, v) == c.(at := c.at + |rest|, st := end).Push(v);
      assert LiteralStep(e, rest, end, v) == e.(at := c.at + |rest|, st := end).Push(v);
    } else {
      assert LiteralStep(c, rest, end, v) == c.Goto(Failed(UnexpectedToken));
      assert LiteralStep(e, rest, end, v) == e.Goto(Failed(UnexpectedToken));
    }
  }

  lemma SliceReceive(buf: string, more: string, i: nat, j: nat)
    requires i <= j <= |buf|
    ensures (buf + more)[i..j] == buf[i..j]
  {
  }

  /** A step that can be taken now is the step taken with more text there. */
  lemma StepReceive(c: Config, more: string, last: bool)
    requires c.Valid() && !c.closed && !Halted(c)
    ensures c.Receive(more, last).Valid() && !Halted(c.Receive(more, last))
    ensures Step(c.Receive(more, last)) == Step(c).Receive(more, last)
  {
    hide CharStep, LiteralStep, Token;
    TokenReceive(c, more, last);
    if Waits(c.st) && Need(c.st) == 1 {
      CharStepReceive(c, more, last);
    } else if c.st == InLiteral(BeginTrue) {
      LiteralStepReceive(c, "rue", Ended(EndTrue), BoolToken(Token(c)), more, last);
    } else if c.st == InLiteral(BeginFalse) {
      LiteralStepReceive(c, "alse", Ended(EndFalse), BoolToken(Token(c)), more, last);
    } else if c.st == InLiteral(BeginNull) {
      LiteralStepReceive(c, "ull", Ended(EndNull), Null, more, last);
    }
  }

  // ----- whole runs -----

  /** Running, receiving more text and running again is running on all of it. */
  lemma {:induction false} RunReceive(c: Config, more: string, last: bool)
    requires c.Valid() && !c.closed
    ensures c.Receive(more, last).Valid() && Run(c).Receive(more, last).Valid()
    ensures Run(c.Receive(more, last)) == Run(Run(c).Receive(more, last))
    decreases Measure(c)
  {
    hide Step;
    if !Halted(c) {
      StepReceive(c, more, last);
      StepDescends(c);
      RunReceive(Step(c), more, last);
    }
  }

  lemma {:induction false} RunKeeps(c: Config)
    requires c.Valid()
    ensures Run(c).buf == c.buf && Run(c).closed == c.closed
    decreases Measure(c)
  {
    hide Step;
    if !Halted(c) { StepDescends(c); RunKeeps(Step(c)); }
  }

  function Concat(pieces: seq<string>): string {
    if pieces == [] then "" else pieces[0] + Concat(pieces[1..])
  }

  /** Parse after each piece; the text is complete with the last one. */
  function Feed(c: Config, pieces: seq<string>): (d: Config)
    requires c.Valid() && pieces != []
    decreases |pieces|
  {
    if |pieces| == 1 then Run(c.Receive(pieces[0], true))
    else Feed(Run(c.Receive(pieces[0], false)), pieces[1..])
  }

  lemma {:induction false} FeedIsOneRun(c: Config, pieces: seq<string>)
    requires c.Valid() && !c.closed && pieces != []
    ensures c.Receive(Concat(pieces), true).Valid()
    ensures Feed(c, pieces) == Run(c.Receive(Concat(pieces), true))
    decreases |pieces|
  {
    hide Run;
    var p, rest := pieces[0], pieces[1..];
    if rest == [] {
      assert Concat(pieces) == p + Concat(rest) == p;
    } else {
      var d := c.Receive(p, false);
      RunKeeps(d);
      FeedIsOneRun(Run(d), rest);
      RunReceive(d, Concat(rest), true);
      assert c.buf + p + Concat(rest) == c.buf + (p + Concat(rest));
    }
  }

  /** Reading a text in any pieces leaves the same configuration (hence the same
      outcome, position, nest stack and value stack) as reading it whole. */
  lemma SplitIndependence(pieces: seq<string>)
    requires pieces != []
    ensures Feed(Ready("", false), pieces) == Run(Ready("", false).Receive(Concat(pieces), true))
    ensures Feed(Ready("", false), pieces) == Feed(Ready("", false), [Concat(pieces)])
  {
    FeedIsOneRun(Ready("", false), pieces);
  }
}
