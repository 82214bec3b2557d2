/**
 Print and parse round trip: the reader gets back what the printer wrote.
 */
module JsonRoundTrip {
  import opened Common
  import opened JsonValue
  import opened Escape
  import opened JsonMachine
  import opened JsonGrammar
  import opened JsonAccept
  import opened JsonSound
  import opened JsonPrinter

  // ----- which values -----

  predicate DistinctKeys(fields: seq<Entry>) {
    forall i, j | 0 <= i < j < |fields| :: fields[i].key != fields[j].key
  }

  /** Values as the JSON tree holds them: 64-bit integers and objects with
      distinct keys. */
  predicate Proper(t: Json) {
    match t
    case Int(i) => Fits64(i)
    case Arr(items) => forall i | 0 <= i < |items| :: Proper(items[i])
    case Obj(fields) => DistinctKeys(fields) && forall i | 0 <= i < |fields| :: Proper(fields[i].value)
    case _ => true
  }

  predicate ProperAll(items: seq<Json>) { forall i | 0 <= i < |items| :: Proper(items[i]) }

  predicate ProperFields(fields: seq<Entry>) { forall i | 0 <= i < |fields| :: Proper(fields[i].value) }

  /** The value that comes back: the same, but for the least 64-bit integer,
      which the reader takes for a floating-point number. */
  function Reread(t: Json): Json
    decreases t, 1
  {
    match t
    case Int(i) => if i == -TWO_63 then Float(SignText(true) + Digits(TWO_63)) else t
    case Arr(items) => Arr(RereadAll(items))
    case Obj(fields) => Obj(RereadFields(fields))
    case _ => t
  }

  function RereadAll(items: seq<Json>): (r: seq<Json>)
    ensures |r| == |items|
    decreases items, 0
  {
    if items == [] then [] else [Reread(items[0])] + RereadAll(items[1..])
  }

  function RereadFields(fields: seq<Entry>): (r: seq<Entry>)
    ensures |r| == |fields| && forall i | 0 <= i < |r| :: r[i].key == fields[i].key
    decreases fields, 0
  {
    if fields == [] then [] else [Entry(fields[0].key, Reread(fields[0].value))] + RereadFields(fields[1..])
  }

  /** No least 64-bit integer anywhere in the value. */
  predicate NoLeast(t: Json)
    decreases t, 1
  {
    match t
    case Int(i) => i != -TWO_63
    case Arr(items) => NoLeastAll(items)
    case Obj(fields) => NoLeastFields(fields)
    case _ => true
  }

  predicate NoLeastAll(items: seq<Json>)
    decreases items, 0
  {
    items == [] || (NoLeast(items[0]) && NoLeastAll(items[1..]))
  }

  predicate NoLeastFields(fields: seq<Entry>)
    decreases fields, 0
  {
    fields == [] || (NoLeast(fields[0].value) && NoLeastFields(fields[1..]))
  }

  /** A value comes back unchanged exactly when it has no least integer. */
  lemma {:induction false} RereadSame(t: Json)
    ensures Reread(t) == t <==> NoLeast(t)
    decreases t, 1
  {
    if t.Arr? { RereadSameAll(t.items); }
    if t.Obj? { RereadSameFields(t.fields); }
  }

  lemma {:induction false} RereadSameAll(items: seq<Json>)
    ensures RereadAll(items) == items <==> NoLeastAll(items)
    decreases items, 0
  {
    if items != [] {
      RereadSame(items[0]);
      RereadSameAll(items[1..]);
      assert items == [items[0]] + items[1..];
      assert RereadAll(items)[0] == Reread(items[0]) && RereadAll(items)[1..] == RereadAll(items[1..]);
    }
  }

  lemma {:induction false} RereadSameFields(fields: seq<Entry>)
    ensures RereadFields(fields) == fields <==> NoLeastFields(fields)
    decreases fields, 0
  {
    if fields != [] {
      RereadSame(fields[0].value);
      RereadSameFields(fields[1..]);
      assert fields == [fields[0]] + fields[1..];
      assert RereadFields(fields)[0].value == Reread(fields[0].value) && RereadFields(fields)[1..] == RereadFields(fields[1..]);
    }
  }

  // ----- the printed tree is well formed -----

  lemma {:induction false} RepeatSpaces(s: string, n: nat)
    requires Spaces(s)
    ensures Spaces(Repeat(s, n))
  {
    if n > 0 { RepeatSpaces(s, n - 1); }
  }

  lemma BreakSpaces(style: Style, depth: nat)
    requires Spaces(style.indent)
    ensures Spaces(Break(style, depth))
  {
    RepeatSpaces(style.indent, depth);
  }

  lemma BodyOkChar(mode: EscapeMode, c: char, rest: string)
    requires (mode.utf16 ==> Ascii(c)) && BodyOk(rest)
    ensures BodyOk(EscapeChar(mode, c) + rest)
  {
    var e := EscapeChar(mode, c);
    var s := e + rest;
    if e == [c] {
      assert s[1..] == rest;
    } else if |e| == 2 {
      assert s[2..] == rest;
    } else {
      PlainBody(e[2..], rest);
      assert s[2..] == e[2..] + rest;
    }
  }

  lemma {:induction false} PlainBody(s: string, rest: string)
    requires BodyOk(rest) && forall i | 0 <= i < |s| :: s[i] != '\\' && s[i] != '\"'
    ensures BodyOk(s + rest)
  {
    if s == "" {
      assert s + rest == rest;
    } else {
      PlainBody(s[1..], rest);
      assert (s + rest)[1..] == s[1..] + rest;
    }
  }

  lemma {:induction false} EscapedOk(mode: EscapeMode, s: string)
    requires Printable(mode, s)
    ensures BodyOk(Escaped(mode, s))
  {
    if s != "" {
      EscapedOk(mode, s[1..]);
      BodyOkChar(mode, s[0], Escaped(mode, s[1..]));
    }
  }

  lemma EscapedValue(mode: EscapeMode, s: string)
    requires Printable(mode, s)
    ensures BodyValue(Escaped(mode, s)) == Some(s)
  {
    hide Unescaped;
    if '\\' in Escaped(mode, s) { UnescapeEscaped(mode, s); } else { EscapedPlain(mode, s); }
  }

  lemma {:induction false} TreeOk(style: Style, t: Json, depth: nat)
    requires CanPrint(style.mode, t) && Spaces(style.indent)
    ensures Ok(Tree(style, t, depth))
    decreases t, 1
  {
    hide BodyOk, Spaces, Break;
    match t
    case Str(s) => EscapedOk(style.mode, s);
    case Arr(items) => if items != [] { ItemsOk(style, items, depth); } else { NoSpaces(); }
    case Obj(fields) =>
      NoSpaces();
      BreakSpaces(style, Deeper(style, depth));
      if fields != [] { FieldsOk(style, fields, depth); }
    case _ =>
  }

  lemma NoSpaces()
    ensures Spaces("") && Spaces(" ")
  {
  }

  lemma {:induction false} ItemsOk(style: Style, items: seq<Json>, depth: nat)
    requires items != [] && CanPrintAll(style.mode, items) && Spaces(style.indent)
    ensures ElemsOk(Items(style, items, depth))
    decreases items, 0
  {
    hide Spaces, Break;
    NoSpaces();
    BreakSpaces(style, depth);
    BreakSpaces(style, Deeper(style, depth));
    TreeOk(style, items[0], Deeper(style, depth));
    if |items| > 1 { ItemsOk(style, items[1..], depth); }
  }

  lemma {:induction false} FieldsOk(style: Style, fields: seq<Entry>, depth: nat)
    requires fields != [] && CanPrintFields(style.mode, fields) && Spaces(style.indent)
    ensures FieldOk(Fields(style, fields, depth))
    decreases fields, 0
  {
    hide Spaces, Break, BodyOk;
    NoSpaces();
    BreakSpaces(style, depth);
    BreakSpaces(style, Deeper(style, depth));
    EscapedOk(style.mode, fields[0].key);
    TreeOk(style, fields[0].value, Deeper(style, depth));
    if |fields| > 1 { FieldsOk(style, fields[1..], depth); }
  }

  // ----- and has the value that was printed -----

  lemma IntegerReread(i: int)
    requires Fits64(i)
    ensures IntegerValue(i < 0, Digits(Magnitude(i))) == Reread(Int(i))
  {
    IntegerRoundTrip(i);
    if i == -TWO_63 {
      DecimalOfDigits(TWO_63);
      PushDigitsExact(Digits(TWO_63));
    }
  }

  lemma {:induction false} TreeValue(style: Style, t: Json, depth: nat)
    requires CanPrint(style.mode, t) && Spaces(style.indent) && Proper(t)
    ensures Ok(Tree(style, t, depth)) && Value(Tree(style, t, depth)) == Some(Reread(t))
    decreases t, 1
  {
    hide BodyOk, BodyValue, Spaces, Break, IntegerValue, Escaped, Items, Fields, Printable, Deeper, DistinctKeys;
    TreeOk(style, t, depth);
    match t
    case Int(i) => IntegerReread(i); NumTreeValue(style, i, depth);
    case Str(s) => EscapedValue(style.mode, s);
    case Arr(items) =>
      if items != [] {
        ItemsValue(style, items, depth, []);
        assert [] + RereadAll(items) == RereadAll(items);
      }
    case Obj(fields) =>
      if fields != [] {
        assert Apart([], fields);
        FieldsValue(style, fields, depth, []);
        assert [] + RereadFields(fields) == RereadFields(fields);
      }
    case _ =>
  }

  lemma NumTreeValue(style: Style, i: int, depth: nat)
    ensures
      var t := Tree(style, Int(i), depth);
      Ok(t) && Value(t) == Some(IntegerValue(i < 0, Digits(Magnitude(i))))
  {
    hide IntegerValue;
  }

  /** The first element's value, and the rest. */
  lemma ItemsStep(style: Style, items: seq<Json>, depth: nat, acc: seq<Json>)
    requires items != [] && CanPrintAll(style.mode, items) && ElemsOk(Items(style, items, depth))
    ensures Ok(Tree(style, items[0], Deeper(style, depth)))
    ensures |items| > 1 ==> ElemsOk(Items(style, items[1..], depth))
    ensures
      var v := Value(Tree(style, items[0], Deeper(style, depth)));
      ElemsValue(Items(style, items, depth), acc) ==
      if v.None? then None
      else if |items| == 1 then Some(acc + [v.value]) else ElemsValue(Items(style, items[1..], depth), acc + [v.value])
  {
    hide Value, Ok, Tree, CanPrint, Break, Spaces, Deeper;
  }

  lemma {:induction false} ItemsValue(style: Style, items: seq<Json>, depth: nat, acc: seq<Json>)
    requires items != [] && CanPrintAll(style.mode, items) && Spaces(style.indent) && ProperAll(items)
    ensures ElemsOk(Items(style, items, depth))
    ensures ElemsValue(Items(style, items, depth), acc) == Some(acc + RereadAll(items))
    decreases items, 0
  {
    hide Spaces, Proper, CanPrint, Ok, Value, Items, ElemsOk, ElemsValue, Reread, Deeper;
    ItemsOk(style, items, depth);
    ItemsStep(style, items, depth, acc);
    var x := Reread(items[0]);
    TreeValue(style, items[0], Deeper(style, depth));
    if |items| > 1 {
      ItemsValue(style, items[1..], depth, acc + [x]);
      Appended(acc, x, RereadAll(items[1..]));
    } else {
      assert RereadAll(items) == [x] + RereadAll(items[1..]) == [x];
    }
  }

  lemma Appended<T>(acc: seq<T>, x: T, rest: seq<T>)
    ensures acc + [x] + rest == acc + ([x] + rest)
  {
  }

  /** No key of `acc` is a key of `fields`. */
  predicate Apart(acc: seq<Entry>, fields: seq<Entry>) {
    forall i, j | 0 <= i < |acc| && 0 <= j < |fields| :: acc[i].key != fields[j].key
  }

  lemma KeysApart(acc: seq<Entry>, fields: seq<Entry>, v: Json)
    requires DistinctKeys(fields) && Apart(acc, fields) && fields != []
    ensures forall i | 0 <= i < |acc| :: acc[i].key != fields[0].key
    ensures DistinctKeys(fields[1..]) && Apart(acc + [Entry(fields[0].key, v)], fields[1..])
  {
  }

  lemma EmplaceNew(acc: seq<Entry>, e: Entry)
    requires forall i | 0 <= i < |acc| :: acc[i].key != e.key
    ensures Emplace(acc, e.key, e.value) == acc + [e]
  {
  }

  /** The first field's value, and the rest. */
  lemma FieldsStep(style: Style, fields: seq<Entry>, depth: nat, acc: seq<Entry>)
    requires fields != [] && CanPrintFields(style.mode, fields) && FieldOk(Fields(style, fields, depth))
    ensures Ok(Tree(style, fields[0].value, Deeper(style, depth)))
    ensures |fields| > 1 ==> FieldOk(Fields(style, fields[1..], depth))
    ensures
      var k, v := BodyValue(Escaped(style.mode, fields[0].key)), Value(Tree(style, fields[0].value, Deeper(style, depth)));
      FieldValue(Fields(style, fields, depth), acc) ==
      if k.None? || v.None? then None
      else
        var acc' := Emplace(acc, k.value, v.value);
        if |fields| == 1 then Some(acc') else FieldValue(Fields(style, fields[1..], depth), acc')
  {
    hide Value, Ok, Tree, CanPrint, Break, Spaces, Deeper, BodyOk, BodyValue, Escaped, Emplace, Printable;
  }

  lemma {:induction false} FieldsValue(style: Style, fields: seq<Entry>, depth: nat, acc: seq<Entry>)
    requires fields != [] && CanPrintFields(style.mode, fields) && Spaces(style.indent) && ProperFields(fields)
    requires DistinctKeys(fields) && Apart(acc, fields)
    ensures FieldOk(Fields(style, fields, depth))
    ensures FieldValue(Fields(style, fields, depth), acc) == Some(acc + RereadFields(fields))
    decreases fields, 0
  {
    hide Spaces, Proper, CanPrint, Ok, Value, Fields, FieldOk, FieldValue, BodyValue, Emplace, Reread, DistinctKeys,
         Apart, Deeper, Printable, Escaped;
    KeysApart(acc, fields, Reread(fields[0].value));
    FieldsOk(style, fields, depth);
    FieldsStep(style, fields, depth, acc);
    var e := Entry(fields[0].key, Reread(fields[0].value));
    TreeValue(style, fields[0].value, Deeper(style, depth));
    EscapedValue(style.mode, fields[0].key);
    EmplaceNew(acc, e);
    if |fields| > 1 {
      FieldsValue(style, fields[1..], depth, acc + [e]);
      Appended(acc, e, RereadFields(fields[1..]));
    } else {
      assert RereadFields(fields) == [e] + RereadFields(fields[1..]) == [e];
    }
  }

  // ----- the round trip -----

  /** Something follows a number that does not continue it. */
  predicate Delimited(t: Json, tail: string) {
    t.Int? ==> tail != "" && !IsDigit(tail[0]) && tail[0] != '.' && tail[0] != 'e' && tail[0] != 'E'
  }

  /** Reading printed text gives the printed value, whatever follows it; a number
      needs a delimiter after it. */
  lemma ReadsPrinted(style: Style, t: Json, tail: string, closed: bool)
    requires CanPrint(style.mode, t) && Spaces(style.indent) && Proper(t) && Delimited(t, tail)
    ensures
      var d := Run(Ready(Printed(style, t) + tail, closed));
      Outcome(d) == End && d.at == |Printed(style, t)| && d.nest == [] && d.stack == [Reread(t)]
  {
    hide Run, Value, Ok, Proper, CanPrint, Spaces;
    TreeValue(style, t, 0);
    var text := Printed(style, t);
    assert (text + tail)[..|text|] == text;
    DelimitedEnds(style, t, tail);
    Completeness(Tree(style, t, 0), text + tail, closed);
  }

  lemma DelimitedEnds(style: Style, t: Json, tail: string)
    requires CanPrint(style.mode, t) && Delimited(t, tail)
    ensures
      var s := Tree(style, t, 0);
      s.SNum? ==> tail != "" && NumEnds(s.num, (Text(s) + tail)[|Text(s)|])
  {
  }

  /** Round trip: the value stack holds exactly the printed value if and only if
      the value has no least 64-bit integer in it. */
  lemma RoundTrip(style: Style, t: Json, tail: string, closed: bool)
    requires CanPrint(style.mode, t) && Spaces(style.indent) && Proper(t) && Delimited(t, tail)
    ensures
      var d := Run(Ready(Printed(style, t) + tail, closed));
      (Outcome(d) == End && d.at == |Printed(style, t)| && d.stack == [t]) <==> NoLeast(t)
  {
    hide Run, Proper, CanPrint, Spaces, Reread, NoLeast;
    ReadsPrinted(style, t, tail, closed);
    RereadSame(t);
  }

  /** A number with nothing after it is not accepted, complete text or not. */
  lemma BareNumber(style: Style, i: int, closed: bool)
    ensures NoEnd(Ready(Printed(style, Int(i)), closed))
  {
    hide Run, Next, IsSign, CharStep, Step;
    var n := Num(i < 0, Digits(Magnitude(i)), "", NoExp);
    var text := SignText(n.neg) + n.ip;
    assert Printed(style, Int(i)) == text;
    var c := Ready(text, closed);
    NextPrefix(text);
    NextSplit(text, 0, SignText(n.neg), n.ip);
    RunStart(c);
    var b := Move(c, 1).(st := BeginNumber, saved := 0);
    assert text[0] == if n.neg then '-' else n.ip[0];
    if |text| == 1 {
      CutOff(b);
    } else {
      SignStep(b);
      var p := Move(c, |SignText(n.neg)|).(st := InNumber(ParseIntBegin), saved := 0);
      RunIntegerPart(p, n.ip);
      CutOff(Move(p, |n.ip|).Goto(if n.ip == "0" then InNumber(ParseAfterZero) else InNumber(ParseInt)));
    }
  }

  lemma NextPrefix(text: string)
    ensures Next(text, 0, text)
  {
  }
}
