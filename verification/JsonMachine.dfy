/**
 The JSON reader as a push-down machine that takes one step at a time.

 The machine keeps a logical reading position only: the character the parser
 pushes back is the one at that position, so push-back, the remembered last
 character and the parser's count of readable characters do not appear here.
 `JsonParser` proves that the parser's methods carry out these steps.
 */
module JsonMachine {
  import opened Common
  import opened JsonValue
  import opened Escape

  // `ParseStateDetail`, grouped by what is being read.

  datatype StringPhase = BeginString | ParseString | EscapeString | ParseKeyString | EscapeKeyString

  datatype NumberPhase =
    | ParseIntBegin | ParseInt | ParseAfterZero | ParseFracBegin | ParseFrac
    | ParseExpBegin | ParseExpAfterSign | ParseExp

  datatype LiteralPhase = BeginTrue | BeginFalse | BeginNull

  datatype ArrayPhase =
    | BeginArray | BeginArraySpace | BeginEndArray | ParseArraySpace | ParseArrayElementSpace | ParseArraySeparator

  datatype ObjectPhase =
    | BeginObject | BeginObjectSpace | BeginEndObject | ParseObjectSpace | BeginObjectKey | ParseObjectKeySpace
    | ParseKeyValueSeparator | ParseKeyValueSeparatorSpace | ParseObjectValueSpace | ParseObjectSeparator

  datatype Nesting = ParseArrayElement | ParseObjectValue

  datatype Ending = EndString | EndNumber | EndTrue | EndFalse | EndNull | EndArray | EndObject

  datatype Failure = InvalidState | CharOutOfRange | UnexpectedToken | UnexpectedEof | StackOverflow | UnexpectedFail

  /** `SizeTooSmall` is only ever a result of `next_impl`, never the state. */
  datatype State =
    | Start
    | InString(stringPhase: StringPhase)
    | BeginNumber
    | InNumber(numberPhase: NumberPhase)
    | InLiteral(literalPhase: LiteralPhase)
    | InArray(arrayPhase: ArrayPhase)
    | InObject(objectPhase: ObjectPhase)
    | Nested(nesting: Nesting)
    | Ended(ending: Ending)
    | Failed(failure: Failure)
    | SizeTooSmall

  datatype Result = End | Suspend | Error | RequireNest

  /** A machine configuration: the text received so far and whether it is
      complete, the reading position, the state, whether the current string
      token has seen a backslash, the nest stack, the start of the current
      token, and the value stack. */
  datatype Config = Config(
    buf: string,
    closed: bool,
    at: nat,
    st: State,
    escaped: bool,
    nest: seq<State>,
    saved: nat,
    stack: seq<Json>)
  {
    predicate Valid() { at <= |buf| }

    /** `Reader::eof`: nothing left and nothing to come. */
    predicate Eof() { closed && at >= |buf| }

    function Readable(): nat
      requires Valid()
    {
      |buf| - at
    }

    /** More text arrives, and with `last` it is complete. */
    function Receive(more: string, last: bool): Config { this.(buf := buf + more, closed := last) }

    function Push(v: Json): Config { this.(stack := stack + [v]) }

    function Goto(s: State): Config { this.(st := s) }
  }

  /** A parser about to read `buf`, which is the whole text when `closed`. */
  function Ready(buf: string, closed: bool): Config {
    Config(buf, closed, 0, Start, false, [], 0, [])
  }

  predicate IsSpace(c: char) { c == ' ' || c == '\t' || c == '\n' || c == '\r' }

  predicate IsEnd(s: State) { s.Ended? }

  predicate IsError(s: State) { s.Failed? }

  /** States in which `next` asks its caller to enter a nested value. */
  predicate IsNest(s: State) { s.Nested? }

  /** Number states that `may_eof` ends when the text is over. */
  predicate EndsAtEof(s: State) {
    s == BeginNumber || s == InNumber(ParseInt) || s == InNumber(ParseAfterZero) || s == InNumber(ParseFrac) || s == InNumber(ParseExp)
  }

  /** States of a string or key token. */
  predicate IsStringState(s: State) { s.InString? }

  /** States of a number token that read a character. */
  predicate IsNumberState(s: State) { s.InNumber? }

  /** States between the elements of an array. */
  predicate IsArrayState(s: State) { s.InArray? }

  /** States between the keys and values of an object. */
  predicate IsObjectState(s: State) { s.InObject? }

  /** How many characters a state needs before it can move on. */
  function Need(s: State): nat {
    if s.Ended? || s.Nested? then 0
    else if s.InLiteral? then (if s.literalPhase == BeginFalse then 4 else 3)
    else 1
  }

  /** States that wait for a character. */
  predicate Waits(s: State) { !s.Ended? && !s.Nested? && !s.Failed? && !s.SizeTooSmall? }

  /** The machine has nothing to do: it failed, it finished the outermost value,
      or it needs characters that are not there. */
  predicate Halted(c: Config)
    requires c.Valid()
  {
    if IsError(c.st) || c.st == SizeTooSmall then true
    else if IsEnd(c.st) then c.nest == []
    else if IsNest(c.st) then false
    else c.Readable() < Need(c.st) && !(c.Eof() && EndsAtEof(c.st))
  }

  /** What `parse` reports in a configuration where the machine halts. */
  function Outcome(c: Config): Result {
    if IsEnd(c.st) then End
    else if IsError(c.st) || c.Eof() then Error
    else Suspend
  }

  // ----- events -----

  /** Text of the current token. */
  function Token(c: Config): string {
    if c.saved <= c.at <= |c.buf| then c.buf[c.saved..c.at] else ""
  }

  /** The text between the quotes of a string token. */
  function Body(c: Config): string {
    var t := Token(c);
    if |t| >= 2 then t[1..|t| - 1] else ""
  }

  lemma BodyIs(c: Config)
    requires c.saved + 2 <= c.at <= |c.buf|
    ensures Body(c) == c.buf[c.saved + 1..c.at - 1]
  {
    assert Token(c)[1..|Token(c)| - 1] == c.buf[c.saved + 1..c.at - 1];
  }

  function StringValue(escaped: bool, body: string): Option<string> {
    if escaped then Unescaped(body) else Some(body)
  }

  /** `init_string` and its three variants, then on to `next`. */
  function FinishString(c: Config, next: State): (r: Config)
    ensures r.buf == c.buf && r.closed == c.closed && r.at == c.at && (r.st == next || r.st == Failed(UnexpectedFail))
  {
    match StringValue(c.escaped, Body(c))
    case Some(s) => c.(escaped := false, st := next).Push(Str(s))
    case None => c.(escaped := false, st := Failed(UnexpectedFail))
  }

  function FinishInteger(c: Config): (r: Config)
    ensures r.buf == c.buf && r.closed == c.closed && r.at == c.at && (r.st == Ended(EndNumber) || r.st == Failed(UnexpectedFail))
  {
    match IntegerToken(Token(c))
    case Some(v) => c.Goto(Ended(EndNumber)).Push(v)
    case None => c.Goto(Failed(UnexpectedFail))
  }

  function FinishFloating(c: Config): Config { c.Goto(Ended(EndNumber)).Push(Float(Token(c))) }

  function BoolToken(t: string): Json { Bool(t != "" && t[0] == 't') }

  /** `add_array_element`: the top value joins the array below it. A value that
      is not an array is replaced by one, as `init_as_array` does; with fewer
      than two values the source has no defined behaviour (`StackShape` shows
      that neither happens). */
  function AddElement(stack: seq<Json>): seq<Json> {
    if |stack| < 2 then stack
    else
      var v, below := stack[|stack| - 1], stack[|stack| - 2];
      stack[..|stack| - 2] + [Arr((if below.Arr? then below.items else []) + [v])]
  }

  /** `add_object_field`: the top value and the key below it join the object. */
  function AddField(stack: seq<Json>): seq<Json> {
    if |stack| < 3 then stack
    else
      var v, key, below := stack[|stack| - 1], stack[|stack| - 2], stack[|stack| - 3];
      stack[..|stack| - 3] +
      [Obj(Emplace(if below.Obj? then below.fields else [], if key.Str? then key.s else "", v))]
  }

  // ----- one step -----

  function StartStep(c: Config, ch: char): (r: Config)
    ensures r.buf == c.buf && r.closed == c.closed && r.at == c.at
  {
    var token := c.(saved := if c.at == 0 then 0 else c.at - 1);
    if ch == '\"' then token.Goto(InString(BeginString))
    else if IsDigit(ch) || ch == '-' then token.Goto(BeginNumber)
    else if ch == 't' then token.Goto(InLiteral(BeginTrue))
    else if ch == 'f' then token.Goto(InLiteral(BeginFalse))
    else if ch == 'n' then token.Goto(InLiteral(BeginNull))
    else if ch == '[' then c.Goto(InArray(BeginArray)).Push(Arr([]))
    else if ch == '{' then c.Goto(InObject(BeginObject)).Push(Obj([]))
    else c.Goto(Failed(UnexpectedToken))
  }

  /** `c` before and `d` after reading `ch`. */
  function StringStep(c: Config, d: Config, ch: char): (r: Config)
    requires d == c.(at := c.at + 1)
    requires IsStringState(c.st)
    ensures r.buf == c.buf && r.closed == c.closed && (r.at == c.at || r.at == d.at)
  {
    match c.st
    case InString(EscapeString) => d.Goto(InString(ParseString))
    case InString(EscapeKeyString) => d.Goto(InString(ParseKeyString))
    case InString(ParseKeyString) =>
      if ch == '\"' then FinishString(d, InObject(ParseObjectKeySpace))
      else if ch == '\\' then d.(st := InString(EscapeKeyString), escaped := true)
      else d
    case _ =>
      if ch == '\"' then FinishString(d, Ended(EndString))
      else if ch == '\\' then d.(st := InString(EscapeString), escaped := true)
      else d.Goto(InString(ParseString))
  }

  /** A number state that reads `ch`: `d` has read it, `c` has not. */
  function NumberStep(c: Config, d: Config, ch: char): (r: Config)
    requires d == c.(at := c.at + 1)
    requires IsNumberState(c.st)
    ensures r.buf == c.buf && r.closed == c.closed && (r.at == c.at || r.at == d.at)
  {
    match c.st
    case InNumber(ParseIntBegin) =>
      d.Goto(if ch == '0' then InNumber(ParseAfterZero) else if IsDigit(ch) then InNumber(ParseInt) else Failed(CharOutOfRange))
    case InNumber(ParseInt) =>
      if ch == '.' then d.Goto(InNumber(ParseFracBegin))
      else if ch == 'e' || ch == 'E' then d.Goto(InNumber(ParseExpBegin))
      else if IsDigit(ch) then d
      else FinishInteger(c)
    case InNumber(ParseAfterZero) =>
      if ch == '.' then d.Goto(InNumber(ParseFracBegin))
      else if ch == 'e' || ch == 'E' then d.Goto(InNumber(ParseExpBegin))
      else FinishInteger(c)
    case InNumber(ParseFracBegin) => d.Goto(if IsDigit(ch) then InNumber(ParseFrac) else Failed(CharOutOfRange))
    case InNumber(ParseFrac) =>
      if ch == 'e' || ch == 'E' then d.Goto(InNumber(ParseExpBegin))
      else if IsDigit(ch) then d
      else FinishFloating(c)
    case InNumber(ParseExpBegin) =>
      d.Goto(if ch == '+' || ch == '-' then InNumber(ParseExpAfterSign) else if IsDigit(ch) then InNumber(ParseExp) else Failed(CharOutOfRange))
    case InNumber(ParseExpAfterSign) => d.Goto(if IsDigit(ch) then InNumber(ParseExp) else Failed(CharOutOfRange))
    case _ => if IsDigit(ch) then d else FinishFloating(c)
  }

  /** The rest of a literal, compared as a block. */
  function LiteralStep(c: Config, rest: string, end: State, v: Json): (r: Config)
    requires c.at + |rest| <= |c.buf|
    ensures r.Valid() && r.buf == c.buf && r.closed == c.closed
  {
    if c.buf[c.at..c.at + |rest|] == rest then c.(at := c.at + |rest|, st := end).Push(v)
    else c.Goto(Failed(UnexpectedToken))
  }

  function ArrayStep(c: Config, d: Config, ch: char): (r: Config)
    requires d == c.(at := c.at + 1)
    requires IsArrayState(c.st)
    ensures r.buf == c.buf && r.closed == c.closed && (r.at == c.at || r.at == d.at)
  {
    match c.st
    case InArray(BeginArray) | InArray(BeginArraySpace) => if IsSpace(ch) then d.Goto(InArray(BeginArraySpace)) else c.Goto(InArray(BeginEndArray))
    case InArray(BeginEndArray) => if ch == ']' then d.Goto(Ended(EndArray)) else c.Goto(Nested(ParseArrayElement))
    case InArray(ParseArraySpace) => if IsSpace(ch) then d else c.Goto(Nested(ParseArrayElement))
    case InArray(ParseArrayElementSpace) => if IsSpace(ch) then d else c.Goto(InArray(ParseArraySeparator))
    case _ =>
      var e := d.(stack := AddElement(d.stack));
      if ch == ']' then e.Goto(Ended(EndArray)) else if ch == ',' then e.Goto(InArray(BeginArraySpace)) else e.Goto(Failed(InvalidState))
  }

  function ObjectStep(c: Config, d: Config, ch: char): (r: Config)
    requires d == c.(at := c.at + 1)
    requires IsObjectState(c.st)
    ensures r.buf == c.buf && r.closed == c.closed && (r.at == c.at || r.at == d.at)
  {
    match c.st
    case InObject(BeginObject) | InObject(BeginObjectSpace) => if IsSpace(ch) then d.Goto(InObject(BeginObjectSpace)) else c.Goto(InObject(BeginEndObject))
    case InObject(BeginEndObject) => if ch == '}' then d.Goto(Ended(EndObject)) else c.Goto(InObject(BeginObjectKey))
    case InObject(ParseObjectSpace) => if IsSpace(ch) then d else c.Goto(InObject(BeginObjectKey))
    case InObject(BeginObjectKey) => if ch == '\"' then d.(saved := c.at, st := InString(ParseKeyString)) else d.Goto(Failed(UnexpectedToken))
    case InObject(ParseObjectKeySpace) => if IsSpace(ch) then d else c.Goto(InObject(ParseKeyValueSeparator))
    case InObject(ParseKeyValueSeparator) => d.Goto(if ch == ':' then InObject(ParseKeyValueSeparatorSpace) else Failed(UnexpectedToken))
    case InObject(ParseKeyValueSeparatorSpace) => if IsSpace(ch) then d else c.Goto(Nested(ParseObjectValue))
    case InObject(ParseObjectValueSpace) => if IsSpace(ch) then d else c.Goto(InObject(ParseObjectSeparator))
    case _ =>
      var e := d.(stack := AddField(d.stack));
      if ch == '}' then e.Goto(Ended(EndObject)) else if ch == ',' then e.Goto(InObject(ParseObjectSpace)) else e.Goto(Failed(UnexpectedToken))
  }

  /** A step that looks at the next character. */
  function CharStep(c: Config): (r: Config)
    requires c.Valid() && c.Readable() >= 1 && Waits(c.st) && Need(c.st) == 1
    ensures r.Valid() && r.buf == c.buf && r.closed == c.closed
  {
    var ch, d := c.buf[c.at], c.(at := c.at + 1);
    if c.st == Start then StartStep(d, ch)
    else if IsStringState(c.st) then StringStep(c, d, ch)
    else if c.st == BeginNumber then
      // a digit is put back, a minus sign is not
      c.(st := InNumber(ParseIntBegin), at := if c.at >= 1 && c.buf[c.at - 1] != '-' then c.at - 1 else c.at)
    else if IsNumberState(c.st) then NumberStep(c, d, ch)
    else if IsArrayState(c.st) then ArrayStep(c, d, ch)
    else ObjectStep(c, d, ch)
  }

  // `CharStep` by group of states.

  lemma StartChar(c: Config)
    requires c.Valid() && c.Readable() >= 1 && c.st == Start
    ensures Waits(c.st) && Need(c.st) == 1 && CharStep(c) == StartStep(c.(at := c.at + 1), c.buf[c.at])
  {
    hide StartStep, StringStep, NumberStep, ArrayStep, ObjectStep;
  }

  lemma StringChar(c: Config)
    requires c.Valid() && c.Readable() >= 1 && IsStringState(c.st)
    ensures Waits(c.st) && Need(c.st) == 1 && CharStep(c) == StringStep(c, c.(at := c.at + 1), c.buf[c.at])
  {
    hide StartStep, StringStep, NumberStep, ArrayStep, ObjectStep;
  }

  lemma BeginNumberChar(c: Config)
    requires c.Valid() && c.Readable() >= 1 && c.st == BeginNumber
    ensures Waits(c.st) && Need(c.st) == 1
    ensures CharStep(c) == c.(st := InNumber(ParseIntBegin), at := if c.at >= 1 && c.buf[c.at - 1] != '-' then c.at - 1 else c.at)
  {
    hide StartStep, StringStep, NumberStep, ArrayStep, ObjectStep;
  }

  lemma NumberChar(c: Config)
    requires c.Valid() && c.Readable() >= 1 && IsNumberState(c.st)
    ensures Waits(c.st) && Need(c.st) == 1 && CharStep(c) == NumberStep(c, c.(at := c.at + 1), c.buf[c.at])
  {
    hide StartStep, StringStep, NumberStep, ArrayStep, ObjectStep;
  }

  lemma ArrayChar(c: Config)
    requires c.Valid() && c.Readable() >= 1 && IsArrayState(c.st)
    ensures Waits(c.st) && Need(c.st) == 1 && CharStep(c) == ArrayStep(c, c.(at := c.at + 1), c.buf[c.at])
  {
    hide StartStep, StringStep, NumberStep, ArrayStep, ObjectStep;
  }

  lemma ObjectChar(c: Config)
    requires c.Valid() && c.Readable() >= 1 && IsObjectState(c.st)
    ensures Waits(c.st) && Need(c.st) == 1 && CharStep(c) == ObjectStep(c, c.(at := c.at + 1), c.buf[c.at])
  {
    hide StartStep, StringStep, NumberStep, ArrayStep, ObjectStep;
  }

  /** `enter_nest`. */
  function Enter(c: Config): Config { c.(nest := c.nest + [c.st], st := Start) }

  /** The state after a nested value. */
  function AfterNested(n: Nesting): State {
    match n case ParseArrayElement => InArray(ParseArrayElementSpace) case ParseObjectValue => InObject(ParseObjectValueSpace)
  }

  /** `leave_nest` with something to leave. */
  function Leave(c: Config): Config
    requires c.nest != []
  {
    var top := c.nest[|c.nest| - 1];
    c.(nest := c.nest[..|c.nest| - 1], st := if top.Nested? then AfterNested(top.nesting) else Failed(UnexpectedToken))
  }

  /** One step of a machine that has not halted. */
  function Step(c: Config): (d: Config)
    requires c.Valid() && !Halted(c)
    ensures d.Valid() && d.buf == c.buf && d.closed == c.closed
  {
    if IsEnd(c.st) then Leave(c)
    else if IsNest(c.st) then Enter(c)
    else if c.Readable() < Need(c.st) then c.Goto(Failed(UnexpectedFail)) // a number at the end of the text
    else if c.st == InLiteral(BeginTrue) then LiteralStep(c, "rue", Ended(EndTrue), BoolToken(Token(c)))
    else if c.st == InLiteral(BeginFalse) then LiteralStep(c, "alse", Ended(EndFalse), BoolToken(Token(c)))
    else if c.st == InLiteral(BeginNull) then LiteralStep(c, "ull", Ended(EndNull), Null)
    else CharStep(c)
  }

  // ----- termination -----

  /** Steps a state can still take on the characters it has already paid for. */
  function Rank(s: State): nat {
    match s
    case BeginNumber => 18
    case InArray(BeginArray) | InObject(BeginObject) => 8
    case InArray(BeginArraySpace) | InObject(BeginObjectSpace) => 7
    case InArray(BeginEndArray) | InObject(BeginEndObject) => 6
    case InArray(ParseArraySpace) | InObject(ParseObjectSpace) => 6
    case Nested(ParseArrayElement) | Nested(ParseObjectValue) => 5
    case InNumber(ParseInt) | InNumber(ParseAfterZero) | InNumber(ParseFrac) | InNumber(ParseExp) => 5
    case InObject(ParseKeyValueSeparatorSpace) => 6
    case InObject(BeginObjectKey) => 2
    case Ended(EndString) | Ended(EndNumber) | Ended(EndTrue) | Ended(EndFalse) | Ended(EndNull) | Ended(EndArray) | Ended(EndObject) => 4
    case Start => 4
    case InArray(ParseArrayElementSpace) | InObject(ParseObjectValueSpace) => 2
    case InArray(ParseArraySeparator) | InObject(ParseObjectSeparator) => 1
    case InObject(ParseObjectKeySpace) => 2
    case InObject(ParseKeyValueSeparator) => 1
    case InNumber(ParseIntBegin) => 1
    case Failed(InvalidState) | SizeTooSmall | Failed(CharOutOfRange) | Failed(UnexpectedToken) | Failed(UnexpectedEof) | Failed(StackOverflow)
      | Failed(UnexpectedFail) => 0
    case _ => 1
  }

  /** Unread characters weighted against the rank of the state. Push-back raises
      the first part by one character, which the rank of `BeginNumber` pays for. */
  function Measure(c: Config): nat
    requires c.Valid()
  {
    16 * c.Readable() + Rank(c.st)
  }

  /** `r` is reached from `c` by a step that used up a character or went to a
      state of lower rank. */
  predicate Progress(c: Config, r: Config) {
    if r.at == c.at then Rank(r.st) < Rank(c.st) else r.at == c.at + 1 && Rank(r.st) <= 8
  }

  lemma StringProgress(c: Config, d: Config, ch: char)
    requires d == c.(at := c.at + 1) && IsStringState(c.st)
    ensures Progress(c, StringStep(c, d, ch))
  {
    hide StringValue;
  }

  lemma NumberProgress(c: Config, d: Config, ch: char)
    requires d == c.(at := c.at + 1) && IsNumberState(c.st)
    ensures Progress(c, NumberStep(c, d, ch))
  {
    hide IntegerToken;
    match c.st.numberPhase
    case ParseIntBegin =>
    case ParseInt =>
    case ParseAfterZero =>
    case ParseFracBegin =>
    case ParseFrac =>
    case ParseExpBegin =>
    case ParseExpAfterSign =>
    case ParseExp =>
  }

  lemma ArrayProgress(c: Config, d: Config, ch: char)
    requires d == c.(at := c.at + 1) && IsArrayState(c.st)
    ensures Progress(c, ArrayStep(c, d, ch))
  {
    hide AddElement;
  }

  lemma ObjectProgress(c: Config, d: Config, ch: char)
    requires d == c.(at := c.at + 1) && IsObjectState(c.st)
    ensures Progress(c, ObjectStep(c, d, ch))
  {
    hide AddField;
  }

  lemma StartProgress(c: Config, ch: char)
    ensures Rank(StartStep(c, ch).st) <= 18
  {
  }

  lemma CharStepDescends(c: Config)
    requires c.Valid() && c.Readable() >= 1 && Waits(c.st) && Need(c.st) == 1
    ensures Measure(CharStep(c)) < Measure(c)
  {
    hide CharStep, StartStep, StringStep, NumberStep, ArrayStep, ObjectStep;
    var d, ch := c.(at := c.at + 1), c.buf[c.at];
    if IsStringState(c.st) { StringChar(c); StringProgress(c, d, ch); }
    else if IsNumberState(c.st) { NumberChar(c); NumberProgress(c, d, ch); }
    else if IsArrayState(c.st) { ArrayChar(c); ArrayProgress(c, d, ch); }
    else if IsObjectState(c.st) { ObjectChar(c); ObjectProgress(c, d, ch); }
    else if c.st == Start { StartChar(c); StartProgress(d, ch); }
    else { BeginNumberChar(c); }
  }

  lemma LiteralDescends(c: Config, rest: string, end: State, v: Json)
    requires c.Valid() && 1 <= |rest| && c.at + |rest| <= |c.buf| && IsEnd(end) && Rank(c.st) == 1
    ensures Measure(LiteralStep(c, rest, end, v)) < Measure(c)
  {
  }

  lemma StepDescends(c: Config)
    requires c.Valid() && !Halted(c)
    ensures Measure(Step(c)) < Measure(c)
  {
    hide CharStep, LiteralStep;
    if Waits(c.st) && c.Readable() >= Need(c.st) {
      if Need(c.st) == 1 { CharStepDescends(c); }
      else if c.st == InLiteral(BeginTrue) { LiteralDescends(c, "rue", Ended(EndTrue), BoolToken(Token(c))); }
      else if c.st == InLiteral(BeginFalse) { LiteralDescends(c, "alse", Ended(EndFalse), BoolToken(Token(c))); }
      else { LiteralDescends(c, "ull", Ended(EndNull), Null); }
    }
  }

  /** Steps until the machine halts. */
  function Run(c: Config): (d: Config)
    requires c.Valid()
    ensures d.Valid()
    decreases Measure(c)
  {
    if Halted(c) then c else StepDescends(c); Run(Step(c))
  }

  lemma {:induction false} RunHalts(c: Config)
    requires c.Valid()
    ensures Halted(Run(c))
    decreases Measure(c)
  {
    hide Step;
    if !Halted(c) { StepDescends(c); RunHalts(Step(c)); }
  }

  function Steps(c: Config): nat
    requires c.Valid()
    decreases Measure(c)
  {
    if Halted(c) then 0 else StepDescends(c); 1 + Steps(Step(c))
  }

  /** Every run halts after a number of steps linear in the unread text. */
  lemma {:induction false} StepsBounded(c: Config)
    requires c.Valid()
    ensures Steps(c) <= 16 * c.Readable() + 18
    ensures Steps(c) <= Measure(c)
    decreases Measure(c)
  {
    hide Step;
    if !Halted(c) {
      StepDescends(c);
      StepsBounded(Step(c));
    }
  }

  /** White space as in section 2 of RFC 8259. */
  lemma WhiteSpace(c: char)
    ensures IsSpace(c) <==> c as int in {0x20, 0x09, 0x0A, 0x0D}
  {
  }
}
