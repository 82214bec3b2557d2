/**
 The parser as the source has it: one character of push-back, the last character
 read, a count of readable characters, nested loops, and a reader that keeps the
 bytes, the nest stack and the value stack. Its methods are proved against the
 machine of `JsonMachine`.
 */
module JsonParser {
  import opened Common
  import opened JsonValue
  import opened Escape
  import opened JsonMachine
  import opened JsonShape
  import JsonAccept

  datatype ElementType =
    | NullType | BooleanType | StringType | EscapedStringType | KeyStringType | EscapedKeyStringType
    | ObjectFieldType | ArrayElementType | NumberType | IntegerType | FloatingType | ArrayType | ObjectType

  /** `GenericConstructor` over `BytesLikeReader` and `JSONConstructor`. */
  class Reader {
    var bytes: string
    var closed: bool
    var pos: nat
    var savedBegin: nat
    var stateStack: seq<State>
    var stack: seq<Json>

    constructor (text: string)
      ensures bytes == text && !closed && pos == 0 && savedBegin == 0 && stateStack == [] && stack == []
    {
      bytes, closed, pos, savedBegin, stateStack, stack := text, false, 0, 0, [], [];
    }

    /** At the end, a zero that does not advance. */
    method PopNext() returns (c: char)
      modifies this`pos
      ensures old(pos) < |bytes| ==> c == bytes[old(pos)] && pos == old(pos) + 1
      ensures old(pos) >= |bytes| ==> c == 0 as char && pos == old(pos)
    {
      if pos >= |bytes| { return 0 as char; }
      c := bytes[pos];
      pos := pos + 1;
    }

    /** `consume<n>`: the next characters if they are `s`. */
    method Consume(s: string) returns (ok: bool)
      requires pos + |s| <= |bytes|
      modifies this`pos
      ensures ok <==> bytes[old(pos)..old(pos) + |s|] == s
      ensures pos == if ok then old(pos) + |s| else old(pos)
    {
      var i := 0;
      while i < |s|
        invariant 0 <= i <= |s| && pos == old(pos)
        invariant bytes[pos..pos + i] == s[..i]
      {
        if bytes[pos + i] != s[i] {
          assert bytes[pos..pos + |s|][i] == bytes[pos + i];
          return false;
        }
        i := i + 1;
      }
      pos := pos + |s|;
      ok := true;
    }

    method SaveBegin(typ: ElementType)
      requires 1 <= pos
      modifies this`savedBegin, this`stack
      ensures savedBegin ==
              if typ == ObjectFieldType || typ == ArrayElementType || typ == ObjectType || typ == ArrayType
              then old(savedBegin) else pos - 1
      ensures typ == ObjectType ==> stack == old(stack) + [Obj([])]
      ensures typ == ArrayType ==> stack == old(stack) + [Arr([])]
      ensures typ != ObjectType && typ != ArrayType ==> stack == old(stack)
    {
      if typ == ObjectFieldType || typ == ArrayElementType {
      } else if typ == ObjectType {
        stack := stack + [Obj([])];
      } else if typ == ArrayType {
        stack := stack + [Arr([])];
      } else {
        savedBegin := pos - 1;
      }
    }

    /** `range`: a number ends one character before the reading position. */
    function Range(typ: ElementType): (int, int)
      reads this
    {
      (savedBegin, if typ == IntegerType || typ == FloatingType then pos - 1 else pos)
    }

    method InitString(escaped: bool) returns (ok: bool)
      requires savedBegin + 2 <= pos <= |bytes|
      modifies this`stack
      ensures
        var v := StringValue(escaped, bytes[savedBegin + 1..pos - 1]);
        ok == v.Some? && stack == if ok then old(stack) + [Str(v.value)] else old(stack)
    {
      hide Unescaped;
      var range := Range(StringType);
      var body := bytes[range.0 + 1..range.1 - 1];
      if escaped {
        var out;
        ok, out := UnescapeStr(body);
        if ok { stack := stack + [Str(out)]; }
      } else {
        ok := true;
        stack := stack + [Str(body)];
      }
    }

    method InitInteger() returns (ok: bool)
      requires savedBegin <= pos - 1 && 1 <= pos <= |bytes|
      modifies this`stack
      ensures
        var v := IntegerToken(bytes[savedBegin..pos - 1]);
        ok == v.Some? && stack == if ok then old(stack) + [v.value] else old(stack)
    {
      hide IntegerToken, PushDigits, DigitPrefix;
      var range := Range(IntegerType);
      var t := bytes[range.0..range.1];
      var sign := t != "" && t[0] == '-';
      var start := if sign then 1 else 0;
      var acc, n := ParseDigits(t, start);
      var digits := t[start..][..n];
      IntegerTokenIs(t, start, digits, acc);
      if n == 0 { return false; }
      ok := true;
      if acc.Sum? && acc.n >= TWO_63 && sign {
        stack := stack + [Float("-" + digits)];
      } else if acc.Overflow? {
        stack := stack + [Float((if sign then "-" else "") + digits)];
      } else {
        stack := stack + [Int(if sign then 0 - acc.n else acc.n)];
      }
    }

    /** `save_end` for a token. */
    method SaveToken(typ: ElementType) returns (ok: bool)
      requires savedBegin < pos <= |bytes|
      requires typ == StringType || typ == EscapedStringType || typ == KeyStringType || typ == EscapedKeyStringType ==> savedBegin + 2 <= pos
      requires typ != ObjectFieldType && typ != ArrayElementType
      modifies this`stack
      ensures typ == ArrayType || typ == ObjectType ==> ok && stack == old(stack)
      ensures typ != ArrayType && typ != ObjectType ==>
                var v := TokenValue(typ, bytes, savedBegin, pos);
                ok == v.Some? && stack == if ok then old(stack) + [v.value] else old(stack)
    {
      hide Unescaped, IntegerToken;
      ok := true;
      match typ {
        case ArrayType | ObjectType =>
        case BooleanType => stack := stack + [Bool(bytes[Range(typ).0] == 't')];
        case NullType => stack := stack + [Null];
        case StringType | KeyStringType => ok := InitString(false);
        case EscapedStringType | EscapedKeyStringType => ok := InitString(true);
        case IntegerType => ok := InitInteger();
        case FloatingType => stack := stack + [Float(bytes[Range(typ).0..Range(typ).1])];
        case _ => ok := false;
      }
    }

    /** `add_array_element`: pops the value, then the array under it is extended. */
    method AddArrayElement()
      requires |stack| >= 2
      modifies this`stack
      ensures stack == AddElement(old(stack))
    {
      var back := stack[|stack| - 1];
      stack := stack[..|stack| - 1];
      var holder := stack[|stack| - 1];
      var items := if holder.Arr? then holder.items else [];
      stack := stack[..|stack| - 1] + [Arr(items + [back])];
    }

    method AddObjectField()
      requires |stack| >= 3
      modifies this`stack
      ensures stack == AddField(old(stack))
    {
      ghost var before := stack;
      var value := stack[|stack| - 1];
      stack := stack[..|stack| - 1];
      var key := stack[|stack| - 1];
      stack := stack[..|stack| - 1];
      var holder := stack[|stack| - 1];
      var fields := if holder.Obj? then holder.fields else [];
      assert stack[..|stack| - 1] == before[..|before| - 3];
      stack := stack[..|stack| - 1] + [Obj(Emplace(fields, if key.Str? then key.s else "", value))];
    }

    method PushState(s: State)
      modifies this`stateStack
      ensures stateStack == old(stateStack) + [s]
    {
      stateStack := stateStack + [s];
    }

    method PopState() returns (s: State)
      modifies this`stateStack
      ensures old(stateStack) == [] ==> s == Start && stateStack == []
      ensures old(stateStack) != [] ==> old(stateStack) == stateStack + [s]
    {
      if stateStack == [] { return Start; }
      s := stateStack[|stateStack| - 1];
      stateStack := stateStack[..|stateStack| - 1];
    }
  }

  // ----- what `next` does, on the machine -----

  /** `next` stops where `parse` has to enter or leave a nested value. */
  predicate Stops(c: Config)
    requires c.Valid()
  {
    Halted(c) || IsEnd(c.st) || IsNest(c.st)
  }

  function Settle(c: Config): (d: Config)
    requires c.Valid()
    ensures d.Valid() && Measure(d) <= Measure(c)
    decreases Measure(c)
  {
    if Stops(c) then c else StepDescends(c); Settle(Step(c))
  }

  lemma {:induction false} SettleStops(c: Config)
    requires c.Valid()
    ensures Stops(Settle(c)) && Run(Settle(c)) == Run(c)
    decreases Measure(c)
  {
    hide Step, Halted;
    if !Stops(c) { StepDescends(c); SettleStops(Step(c)); }
  }

  lemma SettleStopped(c: Config)
    requires c.Valid() && Stops(c)
    ensures Settle(c) == c
  {
  }

  lemma SettleStep(c: Config)
    requires c.Valid() && !Stops(c)
    ensures Settle(c) == Settle(Step(c)) && Measure(Step(c)) < Measure(c)
  {
    hide Step, Halted;
    StepDescends(c);
  }

  lemma SettleChar(c: Config)
    requires c.Valid() && Waits(c.st) && Need(c.st) == 1 && c.Readable() >= 1
    ensures Settle(c) == Settle(CharStep(c)) && Measure(CharStep(c)) < Measure(c)
  {
    hide CharStep, Settle;
    SettleStep(c);
  }

  /** Result of `next` in a configuration where it stops. */
  function NextResult(c: Config): Result {
    if IsEnd(c.st) then End
    else if IsNest(c.st) then RequireNest
    else if IsError(c.st) || c.Eof() then Error
    else Suspend
  }

  /** What `parse` leaves: the outermost `leave_nest` has marked the parser used. */
  function Final(c: Config): Config {
    if IsEnd(c.st) then c.Goto(Failed(UnexpectedToken)) else c
  }

  /** Token bookkeeping: the start of the token being read is behind the position. */
  predicate TokenOk(c: Config) {
    && (IsStringState(c.st) ==> c.saved + 1 <= c.at)
    && (IsNumberState(c.st) ==> c.saved <= c.at)
    && (IsNumberState(c.st) && c.st != InNumber(ParseIntBegin) ==> c.saved + 1 <= c.at)
    && (c.st == BeginNumber || c.st.InLiteral? ==> c.saved + 1 == c.at)
  }

  lemma TokenStep(c: Config)
    requires c.Valid() && c.Readable() >= 1 && Waits(c.st) && Need(c.st) == 1 && TokenOk(c)
    ensures TokenOk(CharStep(c))
  {
    hide CharStep, StringStep, NumberStep, ArrayStep, ObjectStep;
    var d, ch := c.(at := c.at + 1), c.buf[c.at];
    if IsStringState(c.st) { StringChar(c); TokenString(c, d, ch); }
    else if IsNumberState(c.st) { NumberChar(c); TokenNumber(c, d, ch); }
    else if IsArrayState(c.st) { ArrayChar(c); TokenArray(c, d, ch); }
    else if IsObjectState(c.st) { ObjectChar(c); TokenObject(c, d, ch); }
    else if c.st == Start { StartChar(c); }
    else { BeginNumberChar(c); }
  }

  lemma TokenString(c: Config, d: Config, ch: char)
    requires d == c.(at := c.at + 1) && IsStringState(c.st) && TokenOk(c)
    ensures TokenOk(StringStep(c, d, ch))
  {
    hide StringValue;
  }

  lemma TokenNumber(c: Config, d: Config, ch: char)
    requires d == c.(at := c.at + 1) && IsNumberState(c.st) && TokenOk(c)
    ensures TokenOk(NumberStep(c, d, ch))
  {
    hide IntegerToken;
  }

  lemma TokenArray(c: Config, d: Config, ch: char)
    requires d == c.(at := c.at + 1) && IsArrayState(c.st)
    ensures TokenOk(ArrayStep(c, d, ch))
  {
    hide AddElement;
  }

  lemma TokenObject(c: Config, d: Config, ch: char)
    requires d == c.(at := c.at + 1) && IsObjectState(c.st)
    ensures TokenOk(ObjectStep(c, d, ch))
  {
    hide AddField;
  }

  /** Skipping white space, on the machine. */
  lemma {:induction false} SettleSpaces(c: Config, next: State, to: nat)
    requires c.Valid() && JsonAccept.AfterSpace(c.st) == Some(next) && c.at <= to <= |c.buf| && c.Readable() >= 1
    requires forall i | c.at <= i < to :: IsSpace(c.buf[i])
    requires to < |c.buf| ==> !IsSpace(c.buf[to])
    ensures to < |c.buf| ==> Settle(c) == Settle(c.(at := to, st := next))
    ensures to == |c.buf| ==> Settle(c) == Settle(c.(at := to, st := SpaceState(c.st)))
    decreases |c.buf| - c.at
  {
    hide CharStep, Settle;
    JsonAccept.SpaceStep(c);
    SettleChar(c);
    var d := CharStep(c);
    if c.at < to {
      SpaceStateStep(c);
      if d.at < |c.buf| { SettleSpaces(d, next, to); }
    }
  }

  /** The state that keeps skipping; `begin_array` and `begin_object` turn into it. */
  function SpaceState(s: State): State {
    if s == InArray(BeginArray) then InArray(BeginArraySpace) else if s == InObject(BeginObject) then InObject(BeginObjectSpace) else s
  }

  lemma SkipsAlready(s: State)
    requires s != InArray(BeginArray) && s != InObject(BeginObject)
    ensures SpaceState(s) == s
  {
  }

  lemma SpaceStateStep(c: Config)
    requires c.Valid() && c.Readable() >= 1 && JsonAccept.AfterSpace(c.st).Some? && IsSpace(c.buf[c.at])
    ensures Waits(c.st) && Need(c.st) == 1 && CharStep(c).st == SpaceState(c.st)
  {
    hide CharStep, AddElement, AddField;
    if IsArrayState(c.st) { ArrayChar(c); } else { ObjectChar(c); }
  }

  lemma SpaceRank(s: State)
    requires JsonAccept.AfterSpace(s).Some?
    ensures Rank(JsonAccept.AfterSpace(s).value) < Rank(SpaceState(s)) <= Rank(s)
    ensures JsonAccept.AfterSpace(SpaceState(s)) == JsonAccept.AfterSpace(s)
    ensures Current(SpaceState(s)) == Current(s) == Current(JsonAccept.AfterSpace(s).value)
    ensures !IsError(s) && !IsError(JsonAccept.AfterSpace(s).value)
    ensures SpaceState(SpaceState(s)) == SpaceState(s) && (SpaceState(s).InArray? || SpaceState(s).InObject?)
  {
  }

  /** `Parser` with the `ParserState` it holds. */
  class Parser {
    const reader: Reader
    var st: State
    var prevChar: char
    var cached: bool
    var hasEscaped: bool

    constructor (r: Reader)
      requires r.bytes == "" && !r.closed && r.pos == 0 && r.savedBegin == 0 && r.stateStack == [] && r.stack == []
      ensures reader == r && Valid() && View() == Ready("", false)
    {
      reader := r;
      st, prevChar, cached, hasEscaped := Start, 0 as char, false, false;
      assert Below([]) + Current(Start) == [];
    }

    /** The machine configuration: the pushed-back character is unread. */
    ghost function View(): Config
      reads this, reader
    {
      Config(reader.bytes, reader.closed, if cached && reader.pos >= 1 then reader.pos - 1 else reader.pos, st,
             hasEscaped, reader.stateStack, reader.savedBegin, reader.stack)
    }

    /** The last character is the one just before the position. */
    ghost predicate Remembers()
      reads this, reader
    {
      1 <= reader.pos <= |reader.bytes| && prevChar == reader.bytes[reader.pos - 1]
    }

    /** Holds between any two statements. */
    ghost predicate Steady()
      reads this, reader
    {
      reader.pos <= |reader.bytes| && (cached ==> Remembers())
    }

    ghost predicate Valid()
      reads this, reader
    {
      && Steady() && TokenOk(View()) && Shape(View()) && st != SizeTooSmall
      && (st == BeginNumber ==> Remembers())
      && (IsStringState(st) || st == BeginNumber || st.InLiteral? ==> !cached)
    }

    /** More text for the reader. */
    method Receive(more: string, last: bool)
      requires Valid() && !reader.closed
      modifies reader
      ensures Valid() && View() == old(View()).Receive(more, last)
    {
      reader.bytes := reader.bytes + more;
      reader.closed := last;
      ShapeReceive(old(View()), View());
    }

    /** `readable_size`. */
    method ReadableSize() returns (n: nat)
      requires Steady()
      ensures n == View().Readable()
    {
      n := |reader.bytes| - reader.pos + if cached then 1 else 0;
    }

    /** `get_next`: the pushed-back character first. With nothing to read it
        yields a zero and leaves the configuration alone. */
    method GetNext() returns (c: char)
      requires Steady()
      modifies this`prevChar, this`cached, reader`pos
      ensures Steady() && !cached
      ensures old(View()).Readable() >= 1 ==>
                c == reader.bytes[old(View()).at] && View() == old(View()).(at := old(View()).at + 1) && Remembers()
      ensures old(View()).Readable() == 0 ==> View() == old(View()) && c == 0 as char
    {
      if cached {
        cached := false;
      } else {
        prevChar := reader.PopNext();
      }
      c := prevChar;
    }

    /** `may_skip_space`. */
    method MaySkipSpace(size: nat) returns (ok: bool, left: nat)
      requires Steady() && size == View().Readable()
      modifies this`prevChar, this`cached, reader`pos
      ensures Steady() && View() == old(View()).(at := View().at) && old(View()).at <= View().at
      ensures forall i | old(View()).at <= i < View().at :: IsSpace(reader.bytes[i])
      ensures left == View().Readable()
      ensures ok ==> cached && left >= 1 && !IsSpace(reader.bytes[View().at])
      ensures !ok ==> left == 0
    {
      left := size;
      while left > 0
        invariant Steady() && View() == old(View()).(at := View().at) && old(View()).at <= View().at
        invariant forall i | old(View()).at <= i < View().at :: IsSpace(reader.bytes[i])
        invariant left == View().Readable()
      {
        var c := GetNext();
        if c == ' ' || c == '\t' || c == '\n' || c == '\r' {
          left := left - 1;
          continue;
        }
        cached := true;
        return true, left;
      }
      ok := false;
    }

    /** Parser-level `save_end` for a token. */
    method SaveEnd(typ: ElementType)
      requires reader.savedBegin < reader.pos <= |reader.bytes|
      requires typ == StringType || typ == EscapedStringType || typ == KeyStringType || typ == EscapedKeyStringType ==> reader.savedBegin + 2 <= reader.pos
      requires typ != ObjectFieldType && typ != ArrayElementType && typ != ArrayType && typ != ObjectType
      requires Steady()
      modifies this`st, reader`stack
      ensures Steady() && st == (if TokenValue(typ, reader.bytes, reader.savedBegin, reader.pos).Some? then old(st) else Failed(UnexpectedFail))
      ensures
        View() == Saved(old(View()), TokenValue(typ, reader.bytes, reader.savedBegin, reader.pos))
    {
      hide TokenValue;
      var ok := reader.SaveToken(typ);
      if !ok { st := Failed(UnexpectedFail); }
    }

    /** A token begins with the character just read. */
    method BeginToken(s: State, typ: ElementType)
      requires Steady() && !cached && reader.pos >= 1
      requires typ != ObjectFieldType && typ != ArrayElementType && typ != ObjectType && typ != ArrayType
      modifies this`st, reader`savedBegin, reader`stack
      ensures View() == old(View()).(st := s, saved := old(View()).at - 1)
    {
      st := s;
      reader.SaveBegin(typ);
    }

    /** An array or object begins. */
    method BeginValue(s: State, typ: ElementType)
      requires Steady() && !cached && reader.pos >= 1 && (typ == ObjectType || typ == ArrayType)
      modifies this`st, reader`savedBegin, reader`stack
      ensures View() == old(View()).Goto(s).Push(if typ == ObjectType then Obj([]) else Arr([]))
    {
      st := s;
      reader.SaveBegin(typ);
    }

    /** `next_start`. */
    method NextStart()
      requires Valid() && st == Start && View().Readable() >= 1
      modifies this, reader
      ensures Valid() && View() == CharStep(old(View()))
    {
      hide Shape, TokenOk, CharStep, StartStep;
      StepKeeps(View());
      StartChar(View());
      var c := GetNext();
      StartPhase(c);
    }

    /** The first character of a value decides which it is. */
    method StartPhase(c: char)
      requires Steady() && Remembers() && !cached
      modifies this`st, reader`savedBegin, reader`stack
      ensures Steady() && Remembers() && st != SizeTooSmall
      ensures View() == StartStep(old(View()), c)
    {
      if c == '[' {
        BeginValue(InArray(BeginArray), ArrayType);
      } else if c == '{' {
        BeginValue(InObject(BeginObject), ObjectType);
      } else if c == '\"' {
        BeginToken(InString(BeginString), StringType);
      } else if IsDigit(c) || c == '-' {
        BeginToken(BeginNumber, NumberType);
      } else {
        BeginLiteral(c);
      }
    }

    /** The start of `true`, `false` or `null`, or an error. */
    method BeginLiteral(c: char)
      requires Steady() && !cached && reader.pos >= 1
      modifies this`st, reader`savedBegin, reader`stack
      ensures Steady() && (st.InLiteral? || st == Failed(UnexpectedToken))
      ensures
        var d := old(View());
        View() == if c == 't' then d.(st := InLiteral(BeginTrue), saved := d.at - 1)
                  else if c == 'f' then d.(st := InLiteral(BeginFalse), saved := d.at - 1)
                  else if c == 'n' then d.(st := InLiteral(BeginNull), saved := d.at - 1)
                  else d.Goto(Failed(UnexpectedToken))
    {
      if c == 't' {
        BeginToken(InLiteral(BeginTrue), BooleanType);
      } else if c == 'f' {
        BeginToken(InLiteral(BeginFalse), BooleanType);
      } else if c == 'n' {
        BeginToken(InLiteral(BeginNull), NullType);
      } else {
        st := Failed(UnexpectedToken);
      }
    }

    /** The closing quote of a string or key. */
    method CloseString(key: bool)
      requires Steady() && !cached && reader.savedBegin + 2 <= reader.pos
      modifies this`st, this`hasEscaped, reader`stack
      ensures Steady() && !IsStringState(st) && st != BeginNumber && !st.InLiteral? && st != SizeTooSmall
      ensures View() == FinishString(old(View()), if key then InObject(ParseObjectKeySpace) else Ended(EndString))
    {
      hide FinishString, TokenValue, Saved;
      FinishStringIs(View(), if key then InObject(ParseObjectKeySpace) else Ended(EndString), key);
      var typ := if key then (if hasEscaped then EscapedKeyStringType else KeyStringType)
                 else (if hasEscaped then EscapedStringType else StringType);
      hasEscaped := false;
      st := if key then InObject(ParseObjectKeySpace) else Ended(EndString);
      SaveEnd(typ);
    }

    /** `parse_string`. A key's first character may not be there yet; then the
        character read is a zero and nothing changes. */
    method ParseStringToken()
      requires Valid() && IsStringState(st) && (st == InString(BeginString) ==> View().Readable() >= 1)
      requires st == InString(EscapeString) || st == InString(EscapeKeyString) ==> View().Readable() >= 1
      modifies this, reader
      ensures Valid()
      ensures old(View()).Readable() >= 1 ==> View() == CharStep(old(View()))
      ensures old(View()).Readable() == 0 ==> View() == old(View())
    {
      hide Shape, FinishString, CharStep, TokenOk;
      StringBehind(View());
      if View().Readable() >= 1 { StepKeeps(View()); StringChar(View()); }
      match st.stringPhase {
        case EscapeString =>
          var c := GetNext();
          st := InString(ParseString);
        case EscapeKeyString =>
          var c := GetNext();
          st := InString(ParseKeyString);
        case BeginString | ParseString =>
          st := InString(ParseString);
          var c := GetNext();
          if c == '\"' {
            FinishStringState(View(), old(st), Ended(EndString));
            CloseString(false);
          } else if c == '\\' {
            st := InString(EscapeString);
            hasEscaped := true;
          }
        case ParseKeyString =>
          var c := GetNext();
          if c == '\"' {
            CloseString(true);
          } else if c == '\\' {
            st := InString(EscapeKeyString);
            hasEscaped := true;
          }
      }
    }

    /** The end of a number: the character after it is put back. */
    method FinishNumber(typ: ElementType, ghost c: Config)
      requires (typ == IntegerType || typ == FloatingType) && Steady() && Remembers() && !cached
      requires reader.savedBegin < reader.pos && View().at >= 1 && c == View().(at := View().at - 1)
      modifies this`st, this`cached, reader`stack
      ensures Steady() && (st == Ended(EndNumber) || st == Failed(UnexpectedFail))
      ensures View() == if typ == IntegerType then FinishInteger(c) else FinishFloating(c)
    {
      hide Token, FinishInteger, FinishFloating, TokenValue, Saved;
      FinishIs(c, typ);
      PutBackAndEnd();
      assert View() == c.Goto(Ended(EndNumber));
      SaveEnd(typ);
    }

    /** The character behind the number is put back and the number is over. */
    method PutBackAndEnd()
      requires Steady() && Remembers() && !cached
      modifies this`st, this`cached
      ensures Steady() && View() == old(View()).(at := old(View()).at - 1, st := Ended(EndNumber))
    {
      st := Ended(EndNumber);
      cached := true;
    }

    /** `parse_number`. */
    method ParseNumberToken()
      requires Valid() && (st == BeginNumber || IsNumberState(st)) && View().Readable() >= 1
      modifies this, reader
      ensures Valid() && View() == CharStep(old(View()))
    {
      hide Shape, TokenOk, NumberStep, CharStep;
      StepKeeps(View());
      if st == BeginNumber {
        BeginNumberChar(View());
        if prevChar != '-' { cached := true; }
        st := InNumber(ParseIntBegin);
        return;
      }
      NumberBehind(View());
      NumberChar(View());
      ghost var before := View();
      var c := GetNext();
      ParseNumberPhase(c, before);
    }

    /** The states of `parse_number` after its first, on the character just read. */
    method ParseNumberPhase(c: char, ghost before: Config)
      requires Steady() && Remembers() && !cached && IsNumberState(st) && reader.savedBegin < reader.pos
      requires View() == before.(at := before.at + 1)
      modifies this`st, this`cached, reader`stack
      ensures Steady() && (IsNumberState(st) || IsEnd(st) || IsError(st)) && st != SizeTooSmall
      ensures View() == NumberStep(before, before.(at := before.at + 1), c)
    {
      hide FinishInteger, FinishFloating;
      assert View().(at := View().at - 1) == before;
      match st.numberPhase {
        case ParseIntBegin =>
          st := if c == '0' then InNumber(ParseAfterZero) else if '1' <= c <= '9' then InNumber(ParseInt) else Failed(CharOutOfRange);
        case ParseInt =>
          if c == '.' { st := InNumber(ParseFracBegin); }
          else if c == 'e' || c == 'E' { st := InNumber(ParseExpBegin); }
          else if c < '0' || c > '9' {
            FinishNumber(IntegerType, before);
          }
        case ParseAfterZero =>
          if c == '.' { st := InNumber(ParseFracBegin); }
          else if c == 'e' || c == 'E' { st := InNumber(ParseExpBegin); }
          else {
            FinishNumber(IntegerType, before);
          }
        case ParseFracBegin =>
          st := if '0' <= c <= '9' then InNumber(ParseFrac) else Failed(CharOutOfRange);
        case ParseFrac =>
          if c == 'e' || c == 'E' { st := InNumber(ParseExpBegin); }
          else if c < '0' || c > '9' {
            FinishNumber(FloatingType, before);
          }
        case ParseExpBegin =>
          st := if c == '+' || c == '-' then InNumber(ParseExpAfterSign) else if '0' <= c <= '9' then InNumber(ParseExp) else Failed(CharOutOfRange);
        case ParseExpAfterSign =>
          st := if '0' <= c <= '9' then InNumber(ParseExp) else Failed(CharOutOfRange);
        case ParseExp =>
          if c < '0' || c > '9' {
            FinishNumber(FloatingType, before);
          }
      }
    }

    /** A state that skips white space: `may_skip_space`, then the next state. */
    method SkipSpaceTo(size: nat, next: State) returns (ok: bool, left: nat)
      requires Valid() && JsonAccept.AfterSpace(st) == Some(next) && size == View().Readable()
      requires st == InArray(BeginArray) || st == InObject(BeginObject) ==> size >= 1
      modifies this, reader
      ensures Valid() && Settle(View()) == Settle(old(View())) && left == View().Readable()
      ensures ok ==> st == next && left >= 1 && Measure(View()) < Measure(old(View()))
      ensures !ok ==> left == 0 && JsonAccept.AfterSpace(st) == Some(next) && SpaceState(st) == st
      ensures !ok && size >= 1 ==> Measure(View()) < Measure(old(View()))
      ensures !ok && size == 0 ==> View() == old(View())
    {
      hide Settle, TokenOk, Shape, Rank, Measure, IsSpace, JsonAccept.AfterSpace, SpaceState;
      ghost var c := View();
      SpaceRank(st);
      ok, left := SpacePhase(size, next);
      if size >= 1 { SpacesSkipped(c, View(), next); } else { SkipsAlready(c.st); }
    }

    /** The states of `SkipSpaceTo`: the one that skips, and the one behind the space. */
    method SpacePhase(size: nat, next: State) returns (ok: bool, left: nat)
      requires Steady() && size == View().Readable()
      modifies this, reader
      ensures Steady() && left == View().Readable() && (ok <==> left > 0)
      ensures
        var c, d := old(View()), View();
        && d == c.(at := d.at, st := if ok then next else SpaceState(c.st)) && c.at <= d.at
        && (forall i | c.at <= i < d.at :: IsSpace(c.buf[i])) && (ok ==> !IsSpace(c.buf[d.at]))
    {
      hide IsSpace;
      BeginSpace();
      ok, left := MaySkipSpace(size);
      if ok { st := next; }
    }

    /** The first space after an opening bracket has a state of its own. */
    method BeginSpace()
      requires Steady()
      modifies this`st
      ensures Steady() && st == SpaceState(old(st))
    {
      if st == InArray(BeginArray) { st := InArray(BeginArraySpace); } else if st == InObject(BeginObject) { st := InObject(BeginObjectSpace); }
    }

    /** `parse_array`, state `begin_end_array`. */
    method BeginEndArrayState(size: int) returns (left: int, again: bool)
      requires Valid() && st == InArray(BeginEndArray) && size == View().Readable() >= 1
      modifies this, reader
      ensures Valid() && View() == CharStep(old(View()))
      ensures again && (IsEnd(st) || IsNest(st)) && left == size - 1
    {
      hide Shape, CharStep, AddElement;
      StepKeeps(View());
      ArrayChar(View());
      left := size - 1;
      var c := GetNext();
      if c == ']' {
        st := Ended(EndArray);
      } else {
        cached := true;
        st := Nested(ParseArrayElement);
      }
      again := true;
    }

    /** `parse_array`, state `parse_array_separator`. */
    method ArraySeparatorState(size: int) returns (left: int, again: bool)
      requires Valid() && st == InArray(ParseArraySeparator) && size == View().Readable() >= 1
      modifies this, reader
      ensures Valid() && View() == CharStep(old(View()))
      ensures left == View().Readable()
      ensures again ==> st == Ended(EndArray) || st == InArray(BeginArraySpace)
      ensures !again ==> IsError(st)
    {
      hide Shape, TokenOk, CharStep, AddElement;
      StepKeeps(View());
      ArraySeparatorChar(View());
      RightKindBelow(View());
      reader.AddArrayElement();
      left := size - 1;
      var c := GetNext();
      again := SeparatorPhase(c);
    }

    method SeparatorPhase(c: char) returns (again: bool)
      requires Steady()
      modifies this`st
      ensures Steady() && again == (c == ']' || c == ',')
      ensures st == if c == ']' then Ended(EndArray) else if c == ',' then InArray(BeginArraySpace) else Failed(InvalidState)
    {
      again := false;
      if c == ']' {
        st := Ended(EndArray);
        again := true;
      } else if c == ',' {
        st := InArray(BeginArraySpace);
        again := true;
      } else {
        st := Failed(UnexpectedToken);
        // no break: the default case follows
        st := Failed(InvalidState);
      }
    }

    /** `parse_array`. */
    method ParseArrayState(size: int) returns (left: int, again: bool)
      requires Valid() && IsArrayState(st) && size == View().Readable()
      requires size == 0 ==> JsonAccept.AfterSpace(st).Some? && SpaceState(st) == st
      modifies this, reader
      ensures Valid() && Settle(View()) == Settle(old(View()))
      ensures size >= 1 ==> Measure(View()) < Measure(old(View()))
      ensures size == 0 ==> View() == old(View()) && !again
      ensures again ==> IsEnd(st) || IsNest(st) || (IsArrayState(st) && left == View().Readable())
      ensures again && left == 0 && IsArrayState(st) ==> JsonAccept.AfterSpace(st).Some? && SpaceState(st) == st
    {
      hide Settle, Shape, TokenOk, CharStep;
      left, again := size, false;
      if st == InArray(BeginEndArray) {
        SettleChar(View());
        left, again := BeginEndArrayState(size);
      } else if st == InArray(ParseArraySeparator) {
        SettleChar(View());
        left, again := ArraySeparatorState(size);
      } else {
        var next := JsonAccept.AfterSpace(st).value;
        var ok;
        ok, left := SkipSpaceTo(size, next);
        again := ok && next != InArray(BeginEndArray);
      }
    }

    /** `parse_object`, state `begin_end_object`. The count of readable characters
        is one too low when the character is put back. */
    method BeginEndObjectState(size: int) returns (left: int, again: bool)
      requires Valid() && st == InObject(BeginEndObject) && size == View().Readable() >= 1
      modifies this, reader
      ensures Valid() && View() == CharStep(old(View()))
      ensures again && left == size - 1 && (st == Ended(EndObject) || (st == InObject(BeginObjectKey) && View().Readable() >= 1))
    {
      hide Shape, CharStep, AddField;
      StepKeeps(View());
      ObjectChar(View());
      left := size - 1;
      var c := GetNext();
      if c == '}' {
        st := Ended(EndObject);
      } else {
        cached := true;
        st := InObject(BeginObjectKey);
      }
      again := true;
    }

    /** `parse_object`, state `begin_object_key`. */
    method ObjectKeyState(size: int) returns (left: int, again: bool)
      requires Valid() && st == InObject(BeginObjectKey) && View().Readable() >= 1
      modifies this, reader
      ensures Valid() && View() == CharStep(old(View()))
      ensures left == size - 1
      ensures again ==> st == InString(ParseKeyString)
      ensures !again ==> IsError(st)
    {
      hide Shape, TokenOk, CharStep;
      StepKeeps(View());
      KeyChar(View());
      left := size - 1;
      var c := GetNext();
      again := KeyPhase(c);
    }

    /** A key begins with a quote. */
    method KeyPhase(c: char) returns (again: bool)
      requires Steady() && !cached && reader.pos >= 1
      modifies this`st, reader`savedBegin, reader`stack
      ensures Steady() && again == (c == '\"')
      ensures
        var d := old(View());
        View() == if again then d.(saved := d.at - 1, st := InString(ParseKeyString)) else d.Goto(Failed(UnexpectedToken))
    {
      again := c == '\"';
      if again {
        BeginToken(InString(ParseKeyString), KeyStringType);
      } else {
        st := Failed(UnexpectedToken);
      }
    }

    /** `parse_object`, state `parse_object_key_value_separator`. */
    method ColonState(size: int) returns (left: int, again: bool)
      requires Valid() && st == InObject(ParseKeyValueSeparator) && size == View().Readable() >= 1
      modifies this, reader
      ensures Valid() && View() == CharStep(old(View()))
      ensures left == View().Readable()
      ensures again ==> st == InObject(ParseKeyValueSeparatorSpace)
      ensures !again ==> IsError(st)
    {
      hide Shape, CharStep, AddField;
      StepKeeps(View());
      ObjectChar(View());
      left := size - 1;
      var c := GetNext();
      again := c == ':';
      st := if again then InObject(ParseKeyValueSeparatorSpace) else Failed(UnexpectedToken);
    }

    /** `parse_object`, state `parse_object_separator`. */
    method ObjectSeparatorState(size: int) returns (left: int, again: bool)
      requires Valid() && st == InObject(ParseObjectSeparator) && size == View().Readable() >= 1
      modifies this, reader
      ensures Valid() && View() == CharStep(old(View()))
      ensures left == View().Readable()
      ensures again ==> st == Ended(EndObject) || st == InObject(ParseObjectSpace)
      ensures !again ==> IsError(st)
    {
      hide Shape, TokenOk, CharStep, AddField;
      StepKeeps(View());
      ObjectSeparatorChar(View());
      RightKindBelow(View());
      reader.AddObjectField();
      left, again := size - 1, true;
      var c := GetNext();
      if c == '}' {
        st := Ended(EndObject);
      } else if c == ',' {
        st := InObject(ParseObjectSpace);
      } else {
        st := Failed(UnexpectedToken);
        again := false;
      }
    }

    /** `parse_object`. */
    method ParseObjectState(size: int) returns (left: int, again: bool)
      requires Valid() && IsObjectState(st)
      requires st == InObject(BeginObjectKey) ==> View().Readable() >= 1
      requires st != InObject(BeginObjectKey) ==> size == View().Readable()
      requires View().Readable() == 0 ==> JsonAccept.AfterSpace(st).Some? && SpaceState(st) == st
      modifies this, reader
      ensures Valid() && Settle(View()) == Settle(old(View()))
      ensures old(View()).Readable() >= 1 ==> Measure(View()) < Measure(old(View()))
      ensures old(View()).Readable() == 0 ==> View() == old(View()) && !again
      ensures again ==> IsEnd(st) || IsNest(st) || st == InString(ParseKeyString) || st == InObject(BeginObjectKey) ||
                        (IsObjectState(st) && left == View().Readable())
      ensures again && st == InObject(BeginObjectKey) ==> View().Readable() >= 1
      ensures again && View().Readable() == 0 && IsObjectState(st) ==> JsonAccept.AfterSpace(st).Some? && SpaceState(st) == st
    {
      hide Settle, Shape, TokenOk, CharStep;
      left, again := size, false;
      if st == InObject(BeginEndObject) {
        SettleChar(View());
        left, again := BeginEndObjectState(size);
      } else if st == InObject(BeginObjectKey) {
        SettleChar(View());
        left, again := ObjectKeyState(size);
      } else if st == InObject(ParseKeyValueSeparator) {
        SettleChar(View());
        left, again := ColonState(size);
      } else if st == InObject(ParseObjectSeparator) {
        SettleChar(View());
        left, again := ObjectSeparatorState(size);
      } else {
        var next := JsonAccept.AfterSpace(st).value;
        var ok;
        ok, left := SkipSpaceTo(size, next);
        again := ok && next != InObject(BeginEndObject);
      }
    }

    /** `may_eof`: a number that the end of the text ends is given the type
        `number`, which the constructor does not accept. */
    method MayEof()
      requires Valid() && View().Readable() == 0
      modifies this, reader
      ensures Valid() && Stops(View()) && View() == Settle(old(View()))
    {
      hide Shape, CharStep, Settle;
      ghost var c := View();
      if reader.closed && EndsAtEof(st) {
        SettleStep(c);
        st := Ended(EndNumber);
        SaveEnd(NumberType);
        ErrorShape(View());
      }
      SettleStopped(View());
    }

    /** The literal states of `next_impl`. */
    method LiteralState(size: int) returns (short: bool)
      requires Valid() && st.InLiteral? && size == View().Readable() >= 1
      modifies this, reader
      ensures Valid()
      ensures short ==> View() == old(View()) && Halted(View())
      ensures !short ==> !Stops(old(View())) && View() == Step(old(View()))
    {
      hide Shape, CharStep, LiteralStep;
      ghost var c := View();
      var need := if st.literalPhase == BeginFalse then 4 else 3;
      if size < need { return true; }
      short := false;
      StepShape(c);
      LiteralToken(c);
      match st.literalPhase {
        case BeginTrue => ConsumeRest("rue", EndTrue, BooleanType, BoolToken(Token(c)));
        case BeginFalse => ConsumeRest("alse", EndFalse, BooleanType, BoolToken(Token(c)));
        case BeginNull => ConsumeRest("ull", EndNull, NullType, Null);
      }
    }

    /** The rest of a literal, or an error. */
    method ConsumeRest(rest: string, end: Ending, typ: ElementType, ghost v: Json)
      requires Steady() && !cached && reader.savedBegin < reader.pos && reader.pos + |rest| <= |reader.bytes|
      requires (typ == BooleanType && v == Bool(reader.bytes[reader.savedBegin] == 't')) || (typ == NullType && v == Null)
      modifies this, reader
      ensures View() == LiteralStep(old(View()), rest, Ended(end), v)
      ensures Steady() && (IsEnd(st) || IsError(st))
    {
      var ok := reader.Consume(rest);
      if !ok {
        st := Failed(UnexpectedToken);
      } else {
        st := Ended(end);
        SaveEnd(typ);
      }
    }

    /** What the inner loop of `next_impl` knows about its count of characters. */
    ghost predicate Counted(size: int)
      reads this, reader
      requires Steady()
    {
      if IsArrayState(st) then
        size == View().Readable() && (size == 0 ==> JsonAccept.AfterSpace(st).Some? && SpaceState(st) == st)
      else if IsObjectState(st) then
        && (if st == InObject(BeginObjectKey) then View().Readable() >= 1 else size == View().Readable())
        && (View().Readable() == 0 ==> JsonAccept.AfterSpace(st).Some? && SpaceState(st) == st)
      else
        st == InString(ParseKeyString) || IsEnd(st) || IsNest(st) || IsError(st) || size == View().Readable() >= 1
    }

    /** The states of `next_impl` that read a token. */
    method TokenState(size: int) returns (short: bool)
      requires Valid() && Waits(st) && !IsArrayState(st) && !IsObjectState(st) && Counted(size)
      modifies this, reader
      ensures Valid() && Settle(View()) == Settle(old(View()))
      ensures short ==> Halted(View()) && !IsEnd(st) && !IsNest(st) && !IsError(st)
      ensures !short && old(View()).Readable() >= 1 ==> Measure(View()) < Measure(old(View()))
      ensures old(View()).Readable() == 0 ==> View() == old(View())
    {
      hide Settle, Shape, TokenOk, CharStep, Step;
      short := false;
      ghost var c := View();
      if st == Start {
        SettleChar(c);
        NextStart();
      } else if IsStringState(st) {
        if c.Readable() >= 1 { SettleChar(c); }
        ParseStringToken();
      } else if st == BeginNumber || IsNumberState(st) {
        SettleChar(c);
        ParseNumberToken();
      } else {
        short := LiteralState(size);
        if !short { SettleStep(c); }
      }
    }

    /** `next_impl`: steps until the machine stops. */
    method NextImpl() returns (r: State)
      requires Valid()
      modifies this, reader
      ensures Valid() && View() == Settle(old(View()))
      ensures r == st || (r == SizeTooSmall && !IsEnd(st) && !IsNest(st) && !IsError(st))
    {
      hide Settle, Shape, TokenOk, CharStep, Step;
      while true
        invariant Valid() && Settle(View()) == Settle(old(View()))
        decreases Measure(View())
      {
        var size: int := ReadableSize();
        if size == 0 {
          MayEof();
          SettleStopped(View());
          return st;
        }
        var inner := true;
        ghost var start := Measure(View());
        while inner
          invariant Valid() && Settle(View()) == Settle(old(View()))
          invariant Measure(View()) <= start && (!inner ==> Measure(View()) < start)
          invariant inner && Measure(View()) == start ==> View().Readable() >= 1
          invariant inner ==> Counted(size)
          decreases Measure(View()), if inner then 1 else 0
        {
          inner := false;
          if IsArrayState(st) {
            size, inner := ParseArrayState(size);
          } else if IsObjectState(st) {
            size, inner := ParseObjectState(size);
          } else if IsEnd(st) || IsNest(st) || IsError(st) {
            SettleStopped(View());
            return st;
          } else {
            var short := TokenState(size);
            if short {
              SettleStopped(View());
              return SizeTooSmall;
            }
          }
        }
      }
    }

    /** `enter_nest`. */
    method EnterNest() returns (ok: bool)
      requires Valid()
      modifies this, reader
      ensures Valid() && ok == IsNest(old(st))
      ensures View() == if ok then Enter(old(View())) else old(View())
    {
      hide Shape;
      ok := false;
      if st.Nested? {
        EnterShape(View());
        reader.PushState(st);
        st := Start;
        ok := true;
      }
    }

    /** `leave_nest`. */
    method LeaveNest() returns (ok: bool)
      requires Valid() && IsEnd(st)
      modifies this, reader
      ensures Valid() && ok == (old(reader.stateStack) != [])
      ensures View() == if ok then Leave(old(View())) else old(View()).Goto(Failed(UnexpectedToken))
    {
      hide Shape, TokenOk;
      ghost var c := View();
      if c.nest != [] { LeaveKeeps(c); }
      var s := reader.PopState();
      assert c.nest != [] ==> reader.stateStack == c.nest[..|c.nest| - 1];
      if s.Nested? {
        st := match s.nesting case ParseArrayElement => InArray(ParseArrayElementSpace)
                              case ParseObjectValue => InObject(ParseObjectValueSpace);
        ok := true;
      } else {
        st := Failed(UnexpectedToken);
        ok := false;
        ErrorKeeps(View());
      }
    }

    /** `next`. */
    method Next() returns (r: Result)
      requires Valid()
      modifies this, reader
      ensures Valid() && View() == Settle(old(View())) && r == NextResult(View())
      ensures (r == End <==> IsEnd(st)) && (r == RequireNest <==> IsNest(st))
      ensures r != End && r != RequireNest ==> Run(View()) == View() && r == Outcome(View())
    {
      hide Settle, Shape, TokenOk;
      SettleStops(View());
      var impl := NextImpl();
      if !IsEnd(st) && !IsNest(st) { HaltedRun(View()); }
      if IsEnd(impl) { r := End; }
      else if IsNest(impl) { r := RequireNest; }
      else if IsError(impl) { r := Error; }
      else if reader.closed && reader.pos >= |reader.bytes| { r := Error; }
      else { r := Suspend; }
    }

    /** `parse`: runs the machine to its halt and reports its outcome. */
    method Parse() returns (r: Result)
      requires Valid()
      modifies this, reader
      ensures Valid() && r == Outcome(Run(old(View()))) && View() == Final(Run(old(View())))
    {
      hide Settle, Shape, TokenOk, Run, Step, Halted;
      while true
        invariant Valid() && Run(View()) == Run(old(View()))
        decreases Measure(View())
      {
        ghost var before := View();
        r := Next();
        ghost var c := View();
        SettleStops(before);
        if r == End {
          var left := LeaveNest();
          if left {
            JsonAccept.RunLeave(c);
            LeaveDescends(c);
          } else {
            HaltedRun(c);
            return;
          }
        } else if r == RequireNest {
          var entered := EnterNest();
          JsonAccept.RunEnter(c);
        } else {
          HaltedRun(c);
          return;
        }
      }
    }
  }

  lemma HaltedRun(c: Config)
    requires c.Valid() && Stops(c) && !IsNest(c.st) && (IsEnd(c.st) ==> c.nest == [])
    ensures Run(c) == c
  {
    hide Step;
  }

  lemma LeaveDescends(c: Config)
    requires c.Valid() && IsEnd(c.st) && c.nest != []
    ensures Leave(c).Valid() && Measure(Leave(c)) < Measure(c)
  {
  }

  /** Skipping white space keeps the parts of `Parser.Valid` that are about the
      configuration. */
  lemma SpaceKeeps(c: Config, d: Config)
    requires JsonAccept.AfterSpace(c.st).Some? && Shape(c)
    requires d == c.(at := d.at, st := d.st) && (d.st == SpaceState(c.st) || Some(d.st) == JsonAccept.AfterSpace(c.st))
    ensures Shape(d) && TokenOk(d)
  {
    SpaceRank(c.st);
  }

  // `CharStep` in single states.

  lemma KeyChar(c: Config)
    requires c.Valid() && c.Readable() >= 1 && c.st == InObject(BeginObjectKey)
    ensures Waits(c.st) && Need(c.st) == 1
    ensures var d := c.(at := c.at + 1);
            CharStep(c) == if c.buf[c.at] == '\"' then d.(saved := c.at, st := InString(ParseKeyString)) else d.Goto(Failed(UnexpectedToken))
  {
    hide CharStep;
    ObjectChar(c);
  }

  lemma ObjectSeparatorChar(c: Config)
    requires c.Valid() && c.Readable() >= 1 && c.st == InObject(ParseObjectSeparator)
    ensures Waits(c.st) && Need(c.st) == 1
    ensures var e, ch := c.(at := c.at + 1, stack := AddField(c.stack)), c.buf[c.at];
            CharStep(c) == e.Goto(if ch == '}' then Ended(EndObject) else if ch == ',' then InObject(ParseObjectSpace) else Failed(UnexpectedToken))
  {
    hide CharStep, AddField;
    ObjectChar(c);
  }

  lemma ArraySeparatorChar(c: Config)
    requires c.Valid() && c.Readable() >= 1 && c.st == InArray(ParseArraySeparator)
    ensures Waits(c.st) && Need(c.st) == 1
    ensures var e, ch := c.(at := c.at + 1, stack := AddElement(c.stack)), c.buf[c.at];
            CharStep(c) == e.Goto(if ch == ']' then Ended(EndArray) else if ch == ',' then InArray(BeginArraySpace) else Failed(InvalidState))
  {
    hide CharStep, AddElement;
    ArrayChar(c);
  }

  lemma LeaveKeeps(c: Config)
    requires Shape(c) && IsEnd(c.st) && c.nest != []
    ensures c.nest[|c.nest| - 1].Nested? && Shape(Leave(c)) && TokenOk(Leave(c))
  {
    LeaveShape(c);
    assert IsNest(c.nest[|c.nest| - 1]);
  }

  lemma ErrorKeeps(c: Config)
    requires IsError(c.st)
    ensures Shape(c) && TokenOk(c)
  {
    ErrorShape(c);
  }

  /** What skipping the white space in front of `next` does to a configuration. */
  lemma SpacesSkipped(c: Config, d: Config, next: State)
    requires c.Valid() && c.Readable() >= 1 && JsonAccept.AfterSpace(c.st) == Some(next) && Shape(c)
    requires d == c.(at := d.at, st := d.st) && c.at <= d.at <= |c.buf|
    requires d.st == if d.at < |c.buf| then next else SpaceState(c.st)
    requires forall i | c.at <= i < d.at :: IsSpace(c.buf[i])
    requires d.at < |c.buf| ==> !IsSpace(c.buf[d.at])
    ensures Shape(d) && TokenOk(d) && Settle(d) == Settle(c) && Measure(d) < Measure(c)
  {
    hide Settle, Shape, TokenOk, Rank, IsSpace;
    SpaceRank(c.st);
    SettleSpaces(c, next, d.at);
    SpaceKeeps(c, d);
  }

  /** A token's value is pushed, or there is none. */
  function Saved(c: Config, v: Option<Json>): Config {
    if v.Some? then c.Push(v.value) else c.Goto(Failed(UnexpectedFail))
  }

  /** What `save_end` builds from the bytes between the saved start and the
      reading position. */
  function TokenValue(typ: ElementType, bytes: string, begin: nat, pos: nat): Option<Json>
    requires begin < pos <= |bytes|
  {
    match typ
    case StringType | KeyStringType => if begin + 2 <= pos then Some(Str(bytes[begin + 1..pos - 1])) else None
    case EscapedStringType | EscapedKeyStringType =>
      if begin + 2 <= pos then
        (match Unescaped(bytes[begin + 1..pos - 1]) case Some(s) => Some(Str(s)) case None => None)
      else None
    case IntegerType => IntegerToken(bytes[begin..pos - 1])
    case FloatingType => Some(Float(bytes[begin..pos - 1]))
    case BooleanType => Some(Bool(bytes[begin] == 't'))
    case NullType => Some(Null)
    case _ => None
  }

  /** One machine step keeps the parts of `Parser.Valid` that are about the
      configuration. */
  lemma StepKeeps(c: Config)
    requires c.Valid() && c.Readable() >= 1 && Waits(c.st) && Need(c.st) == 1 && TokenOk(c) && Shape(c)
    ensures TokenOk(CharStep(c)) && Shape(CharStep(c))
  {
    hide CharStep, Shape, TokenOk;
    TokenStep(c);
    CharShape(c);
  }

  /** How a number ends, in terms of what `save_end` builds from the bytes before the put-back character. */
  lemma FinishIs(c: Config, typ: ElementType)
    requires (typ == IntegerType || typ == FloatingType) && c.saved < c.at + 1 <= |c.buf|
    ensures (if typ == IntegerType then FinishInteger(c) else FinishFloating(c))
         == Saved(c.Goto(Ended(EndNumber)), TokenValue(typ, c.buf, c.saved, c.at + 1))
  {
    hide IntegerToken;
    assert Token(c) == c.buf[c.saved..c.at];
  }

  lemma FinishStringIs(c: Config, next: State, key: bool)
    requires c.saved + 2 <= c.at <= |c.buf|
    ensures var typ := if key then (if c.escaped then EscapedKeyStringType else KeyStringType)
                       else (if c.escaped then EscapedStringType else StringType);
            && FinishString(c, next) == Saved(c.(escaped := false, st := next), TokenValue(typ, c.buf, c.saved, c.at))
  {
    hide Unescaped, Body;
    BodyIs(c);
  }

  lemma FinishStringState(c: Config, s: State, next: State)
    ensures FinishString(c.Goto(s), next) == FinishString(c, next)
  {
    hide StringValue;
  }

  lemma LiteralToken(c: Config)
    requires c.Valid() && TokenOk(c) && c.st.InLiteral?
    ensures c.saved + 1 == c.at && BoolToken(Token(c)) == Bool(c.buf[c.saved] == 't')
  {
  }

  lemma StringBehind(c: Config)
    requires TokenOk(c) && IsStringState(c.st)
    ensures c.saved + 1 <= c.at
  {
  }

  lemma NumberBehind(c: Config)
    requires TokenOk(c) && IsNumberState(c.st)
    ensures c.saved <= c.at
  {
  }

  lemma ShapeReceive(c: Config, d: Config)
    requires Shape(c) && d == c.(buf := d.buf, closed := d.closed)
    ensures Shape(d)
  {
  }
}
