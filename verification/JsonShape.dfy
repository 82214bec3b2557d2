/**
 Stack discipline: in every reachable configuration the value stack is laid out
 as the nest stack and the state say.
 */
module JsonShape {
  import opened Common
  import opened JsonValue
  import opened JsonMachine

  /** What a place on the value stack holds. */
  datatype Kind = AnArray | AnObject | AKey | AnyValue

  predicate Is(v: Json, k: Kind) {
    match k
    case AnArray => v.Arr?
    case AnObject => v.Obj?
    case AKey => v.Str?
    case AnyValue => true
  }

  predicate NestOk(nest: seq<State>) { forall i | 0 <= i < |nest| :: IsNest(nest[i]) }

  /** An open array keeps its array, an open object its object and pending key. */
  function Open(s: State): seq<Kind>
    requires IsNest(s)
  {
    match s.nesting case ParseArrayElement => [AnArray] case ParseObjectValue => [AnObject, AKey]
  }

  function Below(nest: seq<State>): seq<Kind>
    requires NestOk(nest)
  {
    if nest == [] then [] else Below(nest[..|nest| - 1]) + Open(nest[|nest| - 1])
  }

  /** What the value being read has put on the stack so far. */
  function Current(s: State): seq<Kind> {
    match s
    case InArray(BeginArray) | InArray(BeginArraySpace) | InArray(BeginEndArray) | InArray(ParseArraySpace) | Nested(ParseArrayElement) => [AnArray]
    case InArray(ParseArrayElementSpace) | InArray(ParseArraySeparator) => [AnArray, AnyValue]
    case InObject(BeginObject) | InObject(BeginObjectSpace) | InObject(BeginEndObject) | InObject(ParseObjectSpace) | InObject(BeginObjectKey) | InString(ParseKeyString)
      | InString(EscapeKeyString) => [AnObject]
    case InObject(ParseObjectKeySpace) | InObject(ParseKeyValueSeparator) | InObject(ParseKeyValueSeparatorSpace) | Nested(ParseObjectValue) => [AnObject, AKey]
    case InObject(ParseObjectValueSpace) | InObject(ParseObjectSeparator) => [AnObject, AKey, AnyValue]
    case Ended(EndArray) => [AnArray]
    case Ended(EndObject) => [AnObject]
    case Ended(_) => [AnyValue]
    case _ => []
  }

  predicate Matches(stack: seq<Json>, kinds: seq<Kind>) {
    |stack| == |kinds| && forall i | 0 <= i < |stack| :: Is(stack[i], kinds[i])
  }

  /** The layout of the value stack. After an error nothing is claimed. */
  predicate Shape(c: Config) {
    IsError(c.st) || (NestOk(c.nest) && Matches(c.stack, Below(c.nest) + Current(c.st)))
  }

  lemma MatchesPush(stack: seq<Json>, base: seq<Kind>, cur: seq<Kind>, v: Json, k: Kind)
    requires Matches(stack, base + cur) && Is(v, k)
    ensures Matches(stack + [v], base + (cur + [k]))
  {
    assert base + (cur + [k]) == (base + cur) + [k];
  }

  lemma MatchesElement(stack: seq<Json>, base: seq<Kind>)
    requires Matches(stack, base + [AnArray, AnyValue])
    ensures |stack| >= 2 && stack[|stack| - 2].Arr?
    ensures Matches(AddElement(stack), base + [AnArray])
  {
    var kinds := base + [AnArray, AnyValue];
    assert kinds[|kinds| - 2] == AnArray;
    forall i | 0 <= i < |base| ensures Is(stack[i], base[i]) { assert kinds[i] == base[i]; }
  }

  lemma MatchesField(stack: seq<Json>, base: seq<Kind>)
    requires Matches(stack, base + [AnObject, AKey, AnyValue])
    ensures |stack| >= 3 && stack[|stack| - 3].Obj? && stack[|stack| - 2].Str?
    ensures Matches(AddField(stack), base + [AnObject])
  {
    var kinds := base + [AnObject, AKey, AnyValue];
    assert kinds[|kinds| - 3] == AnObject && kinds[|kinds| - 2] == AKey;
    forall i | 0 <= i < |base| ensures Is(stack[i], base[i]) { assert kinds[i] == base[i]; }
  }

  /** `add_array_element` finds an array below the element, and
      `add_object_field` a key and an object below the value, whenever they run. */
  lemma RightKindBelow(c: Config)
    requires Shape(c)
    ensures c.st == InArray(ParseArraySeparator) ==> |c.stack| >= 2 && c.stack[|c.stack| - 2].Arr?
    ensures c.st == InObject(ParseObjectSeparator) ==> |c.stack| >= 3 && c.stack[|c.stack| - 3].Obj? && c.stack[|c.stack| - 2].Str?
  {
    hide AddElement, AddField;
    if c.st == InArray(ParseArraySeparator) { MatchesElement(c.stack, Below(c.nest)); }
    if c.st == InObject(ParseObjectSeparator) { MatchesField(c.stack, Below(c.nest)); }
  }

  // ----- every step keeps the layout -----

  lemma StartShape(c: Config, ch: char)
    requires c.st == Start && Shape(c)
    ensures Shape(StartStep(c, ch))
  {
    hide Matches, Below, NestOk;
    MatchesPush(c.stack, Below(c.nest), [], Arr([]), AnArray);
    MatchesPush(c.stack, Below(c.nest), [], Obj([]), AnObject);
    assert [] + [AnArray] == [AnArray] && [] + [AnObject] == [AnObject];
  }

  lemma StringShape(c: Config, d: Config, ch: char)
    requires Shape(c) && d == c.(at := c.at + 1) && IsStringState(c.st)
    ensures Shape(StringStep(c, d, ch))
  {
    hide StringValue, Matches, Below, NestOk;
    var v := StringValue(d.escaped, Body(d));
    if v.Some? {
      MatchesPush(c.stack, Below(c.nest), Current(c.st), Str(v.value), AKey);
      MatchesPush(c.stack, Below(c.nest), Current(c.st), Str(v.value), AnyValue);
      assert [AnObject] + [AKey] == [AnObject, AKey] && [] + [AnyValue] == [AnyValue];
    }
  }

  lemma NumberShape(c: Config, d: Config, ch: char)
    requires Shape(c) && d == c.(at := c.at + 1) && IsNumberState(c.st)
    ensures Shape(NumberStep(c, d, ch))
  {
    hide IntegerToken, Matches, Below, NestOk;
    var i := IntegerToken(Token(c));
    if i.Some? { MatchesPush(c.stack, Below(c.nest), [], i.value, AnyValue); }
    MatchesPush(c.stack, Below(c.nest), [], Float(Token(c)), AnyValue);
    assert [] + [AnyValue] == [AnyValue];
    hide IsDigit, Token;
    match c.st.numberPhase
    case ParseIntBegin =>
    case ParseInt =>
    case ParseAfterZero =>
    case ParseFracBegin =>
    case ParseFrac =>
    case ParseExpBegin =>
    case ParseExpAfterSign =>
    case _ =>
  }

  lemma ArrayShape(c: Config, d: Config, ch: char)
    requires Shape(c) && d == c.(at := c.at + 1) && IsArrayState(c.st)
    ensures Shape(ArrayStep(c, d, ch))
  {
    hide AddElement, Matches, Below, NestOk;
    if c.st == InArray(ParseArraySeparator) { MatchesElement(c.stack, Below(c.nest)); }
  }

  lemma ObjectShape(c: Config, d: Config, ch: char)
    requires Shape(c) && d == c.(at := c.at + 1) && IsObjectState(c.st)
    ensures Shape(ObjectStep(c, d, ch))
  {
    hide AddField, Matches, Below, NestOk;
    if c.st == InObject(ParseObjectSeparator) { MatchesField(c.stack, Below(c.nest)); }
  }

  lemma CharShape(c: Config)
    requires c.Valid() && c.Readable() >= 1 && Waits(c.st) && Need(c.st) == 1 && Shape(c)
    ensures Shape(CharStep(c))
  {
    hide Shape, CharStep, StartStep, StringStep, NumberStep, ArrayStep, ObjectStep;
    var d, ch := c.(at := c.at + 1), c.buf[c.at];
    if c.st == Start { StartChar(c); MoveShape(c, d); StartShape(d, ch); }
    else if IsStringState(c.st) { StringChar(c); StringShape(c, d, ch); }
    else if IsNumberState(c.st) { NumberChar(c); NumberShape(c, d, ch); }
    else if IsArrayState(c.st) { ArrayChar(c); ArrayShape(c, d, ch); }
    else if IsObjectState(c.st) { ObjectChar(c); ObjectShape(c, d, ch); }
    else { BeginNumberChar(c); BeginNumberShape(c, CharStep(c)); }
  }

  lemma MoveShape(c: Config, d: Config)
    requires Shape(c) && d == c.(at := d.at)
    ensures Shape(d)
  {
  }

  lemma BeginNumberShape(c: Config, d: Config)
    requires Shape(c) && c.st == BeginNumber && d == c.(at := d.at, st := InNumber(ParseIntBegin))
    ensures Shape(d)
  {
  }

  lemma LiteralShape(c: Config, rest: string, end: State, v: Json)
    requires c.Valid() && c.at + |rest| <= |c.buf| && Current(end) == [AnyValue]
    requires Current(c.st) == [] && Shape(c) && !IsError(c.st)
    ensures Shape(LiteralStep(c, rest, end, v))
  {
    MatchesPush(c.stack, Below(c.nest), [], v, AnyValue);
    assert [] + [AnyValue] == [AnyValue];
  }

  lemma EnterShape(c: Config)
    requires Shape(c) && IsNest(c.st)
    ensures Shape(Enter(c))
  {
    var e := Enter(c);
    assert e.nest[..|e.nest| - 1] == c.nest;
    assert Below(e.nest) + [] == Below(c.nest) + Current(c.st);
  }

  lemma LeaveShape(c: Config)
    requires Shape(c) && IsEnd(c.st) && c.nest != []
    ensures Shape(Leave(c))
  {
    var top := c.nest[|c.nest| - 1];
    var rest := c.nest[..|c.nest| - 1];
    var kinds := Below(c.nest) + Current(c.st);
    assert |Current(c.st)| == 1;
    assert IsNest(top);
    assert Below(rest) + Current(Leave(c).st) == Below(c.nest) + [AnyValue];
    forall i | 0 <= i < |c.stack| ensures Is(c.stack[i], (Below(c.nest) + [AnyValue])[i]) {
      assert Is(c.stack[i], kinds[i]);
    }
  }

  /** Every step keeps the layout. */
  lemma StepShape(c: Config)
    requires c.Valid() && !Halted(c) && Shape(c)
    ensures Shape(Step(c))
  {
    hide Shape, CharStep, LiteralStep, Enter, Leave;
    if IsEnd(c.st) { LeaveShape(c); }
    else if IsNest(c.st) { EnterShape(c); }
    else if c.Readable() < Need(c.st) { ErrorShape(c.Goto(Failed(UnexpectedFail))); }
    else if c.st == InLiteral(BeginTrue) { LiteralShape(c, "rue", Ended(EndTrue), BoolToken(Token(c))); }
    else if c.st == InLiteral(BeginFalse) { LiteralShape(c, "alse", Ended(EndFalse), BoolToken(Token(c))); }
    else if c.st == InLiteral(BeginNull) { LiteralShape(c, "ull", Ended(EndNull), Null); }
    else { CharShape(c); }
  }

  lemma ErrorShape(c: Config)
    requires IsError(c.st)
    ensures Shape(c)
  {
  }

  // ----- reachable configurations -----

  /** What can happen to a parser: a step of its own, or text arriving. */
  datatype Event = Take | Receive(more: string, last: bool)

  predicate Enabled(c: Config, e: Event) {
    match e
    case Take => c.Valid() && !Halted(c)
    case Receive(_, _) => !c.closed
  }

  function After(c: Config, e: Event): Config
    requires Enabled(c, e)
  {
    match e case Take => Step(c) case Receive(more, last) => c.Receive(more, last)
  }

  /** `trace` is a history of a parser from its creation. */
  predicate History(trace: seq<Config>, events: seq<Event>) {
    && |trace| == |events| + 1 && trace[0] == Ready("", false)
    && forall i | 0 <= i < |events| :: Enabled(trace[i], events[i]) && trace[i + 1] == After(trace[i], events[i])
  }

  /** In every configuration a parser can reach, whatever text arrives and when,
      the value stack has the layout. */
  lemma {:induction false} StackShape(trace: seq<Config>, events: seq<Event>, k: nat)
    requires History(trace, events) && k < |trace|
    ensures Shape(trace[k])
  {
    hide Step, Halted;
    if k == 0 {
      assert Below([]) + Current(Start) == [];
    } else {
      StackShape(trace, events, k - 1);
      assert Enabled(trace[k - 1], events[k - 1]) && trace[k] == After(trace[k - 1], events[k - 1]);
      if events[k - 1].Take? { StepShape(trace[k - 1]); }
    }
  }
}
