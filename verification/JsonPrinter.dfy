/**
 The JSON printer (`Stringer` and `to_string_detail`): what it writes is the text
 of a syntax tree, chosen by the print style.
 */
module JsonPrinter {
  import opened JsonValue
  import opened Escape
  import opened JsonGrammar

  /** How to print: line breaks with this indentation or none, how strings are
      escaped, and whether a space follows a colon. */
  datatype Style = Style(useIndent: bool, indent: string, mode: EscapeMode, colonSpace: bool)

  function Repeat(s: string, n: nat): string { if n == 0 then "" else Repeat(s, n - 1) + s }

  function Indentation(style: Style, depth: nat): string {
    if style.useIndent then Repeat(style.indent, depth) else ""
  }

  function LineBreak(style: Style): string { if style.useIndent then "\n" else "" }

  /** A line break and the indentation of the next line. */
  function Break(style: Style, depth: nat): string { LineBreak(style) + Indentation(style, depth) }

  function Deeper(style: Style, depth: nat): nat { if style.useIndent then depth + 1 else depth }

  /** Values the model prints: no floating-point number, and strings as `Printable`
      allows them. */
  predicate CanPrint(mode: EscapeMode, t: Json) {
    match t
    case Float(_) => false
    case Str(s) => Printable(mode, s)
    case Arr(items) => forall i | 0 <= i < |items| :: CanPrint(mode, items[i])
    case Obj(fields) => forall i | 0 <= i < |fields| :: Printable(mode, fields[i].key) && CanPrint(mode, fields[i].value)
    case _ => true
  }

  predicate CanPrintAll(mode: EscapeMode, items: seq<Json>) {
    forall i | 0 <= i < |items| :: CanPrint(mode, items[i])
  }

  predicate CanPrintFields(mode: EscapeMode, fields: seq<Entry>) {
    forall i | 0 <= i < |fields| :: Printable(mode, fields[i].key) && CanPrint(mode, fields[i].value)
  }

  // ----- the tree that is printed -----

  function Tree(style: Style, t: Json, depth: nat): Syntax
    requires CanPrint(style.mode, t)
    decreases t, 1
  {
    match t
    case Null => SNull
    case Bool(b) => if b then STrue else SFalse
    case Int(i) => SNum(Num(i < 0, Digits(Magnitude(i)), "", NoExp))
    case Str(s) => SStr(Escaped(style.mode, s))
    case Arr(items) => SArr(if items == [] then EClose("") else Items(style, items, depth))
    case Obj(fields) =>
      SObj(if fields == [] then MEmpty("") else MFields(Break(style, Deeper(style, depth)), Fields(style, fields, depth)))
  }

  function Printed(style: Style, t: Json): string
    requires CanPrint(style.mode, t)
  {
    Text(Tree(style, t, 0))
  }

  /** The elements of an array at `depth`. */
  function Items(style: Style, items: seq<Json>, depth: nat): Elems
    requires items != [] && CanPrintAll(style.mode, items)
    decreases items, 0
  {
    var last := |items| == 1;
    EItem(Break(style, Deeper(style, depth)), Tree(style, items[0], Deeper(style, depth)),
          if last then Break(style, depth) else "",
          if last then TClose else TComma(Items(style, items[1..], depth)))
  }

  /** The fields of an object at `depth`. */
  function Fields(style: Style, fields: seq<Entry>, depth: nat): Field
    requires fields != [] && CanPrintFields(style.mode, fields)
    decreases fields, 0
  {
    var last := |fields| == 1;
    Field(Escaped(style.mode, fields[0].key), "", if style.colonSpace then " " else "",
          Tree(style, fields[0].value, Deeper(style, depth)),
          if last then Break(style, depth) else "",
          if last then FClose else FComma(Break(style, Deeper(style, depth)), Fields(style, fields[1..], depth)))
  }

  /** What is still to be written of an array after `i` of its elements. */
  function ItemsLeft(style: Style, items: seq<Json>, depth: nat, i: nat): string
    requires i <= |items| && CanPrintAll(style.mode, items)
  {
    if items == [] then "]"
    else if i == |items| then Break(style, depth) + "]"
    else if i == 0 then ElemsText(Items(style, items, depth))
    else "," + ElemsText(Items(style, items[i..], depth))
  }

  lemma Assoc(a: string, b: string, c: string)
    ensures a + b + c == a + (b + c)
  {
  }

  /** Element `i` with what comes before it. */
  function ItemText(style: Style, items: seq<Json>, depth: nat, i: nat): string
    requires i < |items| && CanPrintAll(style.mode, items)
  {
    (if i == 0 then "" else ",") + (Break(style, Deeper(style, depth)) + Text(Tree(style, items[i], Deeper(style, depth))))
  }

  lemma ItemsLeftStep(style: Style, items: seq<Json>, depth: nat, i: nat)
    requires i < |items| && CanPrintAll(style.mode, items)
    ensures ItemsLeft(style, items, depth, i) == ItemText(style, items, depth, i) + ItemsLeft(style, items, depth, i + 1)
  {
    hide Text, Tree, Break;
    assert items[0..] == items;
    assert items[i..][0] == items[i] && items[i..][1..] == items[i + 1..];
    var v := Text(Tree(style, items[i], Deeper(style, depth)));
    var e := Items(style, items[i..], depth);
    var rest := ItemsLeft(style, items, depth, i + 1);
    assert e.ws2 + ElemTailText(e.tail) == rest;
    var sep := if i == 0 then "" else ",";
    assert ItemsLeft(style, items, depth, i) == sep + ElemsText(e);
    Assoc(e.ws, v, rest);
    Assoc(sep, e.ws + v, rest);
  }

  function FieldsLeft(style: Style, fields: seq<Entry>, depth: nat, i: nat): string
    requires i <= |fields| && CanPrintFields(style.mode, fields)
  {
    if fields == [] then "}"
    else if i == |fields| then Break(style, depth) + "}"
    else (if i == 0 then "" else ",") + (Break(style, Deeper(style, depth)) + FieldText(Fields(style, fields[i..], depth)))
  }

  function ColonText(style: Style): string { if style.colonSpace then ": " else ":" }

  /** Field `i` with what comes before it. */
  function MemberText(style: Style, fields: seq<Entry>, depth: nat, i: nat): string
    requires i < |fields| && CanPrintFields(style.mode, fields)
  {
    (if i == 0 then "" else ",") +
    (Break(style, Deeper(style, depth)) +
     (Quoted(Escaped(style.mode, fields[i].key)) + (ColonText(style) + Text(Tree(style, fields[i].value, Deeper(style, depth))))))
  }

  lemma FieldsLeftStep(style: Style, fields: seq<Entry>, depth: nat, i: nat)
    requires i < |fields| && CanPrintFields(style.mode, fields)
    ensures FieldsLeft(style, fields, depth, i) == MemberText(style, fields, depth, i) + FieldsLeft(style, fields, depth, i + 1)
  {
    hide Text, Tree, Break, Quoted, Escaped;
    assert fields[i..][0] == fields[i] && fields[i..][1..] == fields[i + 1..];
    var v := Text(Tree(style, fields[i].value, Deeper(style, depth)));
    var f := Fields(style, fields[i..], depth);
    var rest := FieldsLeft(style, fields, depth, i + 1);
    assert f.ws3 + FieldTailText(f.tail) == rest;
    var sep := if i == 0 then "" else ",";
    var break_ := Break(style, Deeper(style, depth));
    FieldTextIs(f, ColonText(style), v, rest);
    var q := Quoted(f.key);
    var m := q + (ColonText(style) + v);
    Assoc(q, ColonText(style) + v, rest);
    Assoc(break_, m, rest);
    Assoc(sep, break_ + m, rest);
  }

  lemma FieldTextIs(f: Field, colon: string, v: string, rest: string)
    requires f.ws == "" && colon == ":" + f.ws2 && v == Text(f.v) && rest == f.ws3 + FieldTailText(f.tail)
    ensures FieldText(f) == Quoted(f.key) + ((colon + v) + rest)
  {
    hide Text, FieldTailText, Quoted;
    Assoc(":", f.ws2, v + rest);
    Assoc(colon, v, rest);
    assert "" + (":" + (f.ws2 + (v + rest))) == ":" + (f.ws2 + (v + rest));
  }

  /** Writing the separator, the line break, the indentation and the element. */
  lemma ItemWritten(style: Style, items: seq<Json>, depth: nat, i: nat, before: string, after: string)
    requires i < |items| && CanPrintAll(style.mode, items)
    requires after == before + (if i == 0 then "" else ",") + LineBreak(style) + Indentation(style, Deeper(style, depth))
                      + Text(Tree(style, items[i], Deeper(style, depth)))
    ensures after + ItemsLeft(style, items, depth, i + 1) == before + ItemsLeft(style, items, depth, i)
  {
    hide Text, Tree, LineBreak, Indentation, ItemsLeft;
    ItemsLeftStep(style, items, depth, i);
    var sep, nl, lead := if i == 0 then "" else ",", LineBreak(style), Indentation(style, Deeper(style, depth));
    var v := Text(Tree(style, items[i], Deeper(style, depth)));
    assert after == before + (sep + ((nl + lead) + v)) by {
      Assoc(before + sep, nl, lead);
      Assoc(before + sep, nl + lead, v);
      Assoc(before, sep, nl + lead + v);
    }
    Assoc(before, ItemText(style, items, depth, i), ItemsLeft(style, items, depth, i + 1));
  }

  lemma MemberWritten(style: Style, fields: seq<Entry>, depth: nat, i: nat, before: string, after: string)
    requires i < |fields| && CanPrintFields(style.mode, fields)
    requires after == before + (if i == 0 then "" else ",") + LineBreak(style) + Indentation(style, Deeper(style, depth))
                      + Quoted(Escaped(style.mode, fields[i].key)) + ColonText(style) + ""
                      + Text(Tree(style, fields[i].value, Deeper(style, depth)))
    ensures after + FieldsLeft(style, fields, depth, i + 1) == before + FieldsLeft(style, fields, depth, i)
  {
    hide Text, Tree, LineBreak, Indentation, FieldsLeft, Quoted, ColonText;
    FieldsLeftStep(style, fields, depth, i);
    var sep, nl, lead := if i == 0 then "" else ",", LineBreak(style), Indentation(style, Deeper(style, depth));
    var v := Text(Tree(style, fields[i].value, Deeper(style, depth)));
    var q, colon := Quoted(Escaped(style.mode, fields[i].key)), ColonText(style);
    assert after == before + (sep + ((nl + lead) + (q + (colon + v)))) by {
      Regroup(before, sep, nl, lead, q, colon, v);
    }
    Assoc(before, MemberText(style, fields, depth, i), FieldsLeft(style, fields, depth, i + 1));
  }

  lemma Regroup(b: string, sep: string, nl: string, lead: string, q: string, colon: string, v: string)
    ensures b + sep + nl + lead + q + colon + "" + v == b + (sep + ((nl + lead) + (q + (colon + v))))
  {
    assert b + sep + nl + lead + q + colon + "" == b + sep + nl + lead + q + colon;
    Assoc(b + sep, nl, lead);
    Assoc(b + sep + (nl + lead), q, colon);
    Assoc(b + sep + (nl + lead), q + colon, v);
    Assoc(q, colon, v);
    Assoc(b + sep, nl + lead, q + (colon + v));
    Assoc(b, sep, (nl + lead) + (q + (colon + v)));
  }

  // ----- the printer -----

  lemma ItemsLeftEnd(style: Style, items: seq<Json>, depth: nat)
    requires CanPrintAll(style.mode, items)
    ensures ItemsLeft(style, items, depth, |items|) == (if |items| > 0 then Break(style, depth) else "") + "]"
  {
  }

  lemma FieldsLeftEnd(style: Style, fields: seq<Entry>, depth: nat)
    requires CanPrintFields(style.mode, fields)
    ensures FieldsLeft(style, fields, depth, |fields|) == (if |fields| > 0 then Break(style, depth) else "") + "}"
  {
  }

  lemma ItemsText(style: Style, items: seq<Json>, depth: nat)
    requires CanPrint(style.mode, Arr(items))
    ensures CanPrintAll(style.mode, items) && Text(Tree(style, Arr(items), depth)) == "[" + ItemsLeft(style, items, depth, 0)
  {
    hide Break, Indentation;
    assert items[0..] == items;
  }

  lemma FieldsText(style: Style, fields: seq<Entry>, depth: nat)
    requires CanPrint(style.mode, Obj(fields))
    ensures CanPrintFields(style.mode, fields) && Text(Tree(style, Obj(fields), depth)) == "{" + FieldsLeft(style, fields, depth, 0)
  {
    hide Break, Indentation, Quoted, Escaped;
    assert fields[0..] == fields;
  }

  /** The text of a printed tree, one level deep. */
  lemma TreeText(style: Style, t: Json, depth: nat)
    requires CanPrint(style.mode, t)
    ensures Text(Tree(style, t, depth))
         == match t
            case Null => "null"
            case Bool(b) => if b then "true" else "false"
            case Int(i) => SignText(i < 0) + Digits(Magnitude(i))
            case Str(s) => Quoted(Escaped(style.mode, s))
            case Arr(items) => "[" + ItemsLeft(style, items, depth, 0)
            case Obj(fields) => "{" + FieldsLeft(style, fields, depth, 0)
            case Float(text) => text
  {
    hide Digits, Escaped, Quoted, CanPrintAll, CanPrintFields, Items, Fields, ElemsText, FieldText;
    match t
    case Int(i) => assert SignText(i < 0) + Digits(Magnitude(i)) == Text(Tree(style, t, depth));
    case Arr(items) => ItemsText(style, items, depth);
    case Obj(fields) => FieldsText(style, fields, depth);
    case _ =>
  }

  lemma QuotedBehind(before: string, e: string)
    ensures before + "\"" + e + "\"" == before + Quoted(e)
  {
  }

  /** `Stringer`, with the flags `to_string_detail` sets. */
  class Stringer {
    const style: Style
    var buf: string
    var currentIndent: nat
    var prevColon: bool

    constructor (s: Style)
      ensures style == s && buf == "" && currentIndent == 0 && !prevColon
    {
      style, buf, currentIndent, prevColon := s, "", 0, false;
    }

    /** What `write_indent` would write now. */
    ghost function Lead(): string
      reads this
    {
      if prevColon then "" else Indentation(style, currentIndent)
    }

    method Write(s: string)
      modifies this`buf
      ensures buf == old(buf) + s
    {
      buf := buf + s;
    }

    method Comma()
      modifies this`buf
      ensures buf == old(buf) + "," + LineBreak(style)
    {
      Write(",");
      if style.useIndent { Write("\n"); }
    }

    method WriteIndent()
      modifies this`buf, this`prevColon
      ensures buf == old(buf) + old(Lead()) && !prevColon
    {
      if prevColon {
        prevColon := false;
        return;
      }
      if style.useIndent {
        var i := 0;
        while i < currentIndent
          invariant 0 <= i <= currentIndent && buf == old(buf) + Repeat(style.indent, i) && !prevColon
        {
          Write(style.indent);
          i := i + 1;
        }
      }
    }

    method Colon()
      modifies this`buf, this`prevColon
      ensures buf == old(buf) + ColonText(style) && prevColon
    {
      if style.colonSpace { Write(": "); } else { Write(":"); }
      prevColon := true;
    }

    method FirstElement()
      modifies this`buf, this`currentIndent
      ensures buf == old(buf) + LineBreak(style) && currentIndent == Deeper(style, old(currentIndent))
    {
      if style.useIndent {
        Write("\n");
        currentIndent := currentIndent + 1;
      }
    }

    /** `end_block`, after an element or not. */
    method EndBlock(v: string, comma: bool, ghost depth: nat)
      requires currentIndent == (if comma then Deeper(style, depth) else depth) && !prevColon
      modifies this
      ensures buf == old(buf) + (if comma then Break(style, depth) else "") + v && currentIndent == depth && !prevColon
    {
      ghost var start := buf;
      if style.useIndent {
        if comma {
          Write("\n");
          currentIndent := currentIndent - 1;
          WriteIndent();
          assert Break(style, depth) == "\n" + Indentation(style, depth);
          Assoc(start, "\n", Indentation(style, depth));
        }
      } else {
        assert Break(style, depth) == "";
      }
      hide Break, Indentation;
      assert buf == start + (if comma then Break(style, depth) else "");
      Write(v);
    }

    method StringValue(s: string)
      requires Printable(style.mode, s)
      modifies this`buf, this`prevColon
      ensures buf == old(buf) + old(Lead()) + Quoted(Escaped(style.mode, s)) && !prevColon
    {
      hide Escaped, Quoted, Printable, Indentation;
      WriteIndent();
      var e := EscapeStr(style.mode, s);
      ghost var before := buf;
      Write("\"");
      Write(e);
      Write("\"");
      QuotedBehind(before, e);
    }

    method Number(i: int)
      modifies this`buf, this`prevColon
      ensures buf == old(buf) + old(Lead()) + (SignText(i < 0) + Digits(Magnitude(i))) && !prevColon
    {
      WriteIndent();
      Write(SignText(i < 0) + Digits(Magnitude(i)));
    }

    method Word(s: string)
      modifies this`buf, this`prevColon
      ensures buf == old(buf) + old(Lead()) + s && !prevColon
    {
      WriteIndent();
      Write(s);
    }

    /** `FieldBase::with_comma`, before the element is written. */
    method BeforeElement(comma: bool, ghost depth: nat)
      requires currentIndent == if comma then Deeper(style, depth) else depth
      modifies this`buf, this`currentIndent
      ensures buf == old(buf) + (if comma then "," else "") + LineBreak(style) && currentIndent == Deeper(style, depth)
    {
      if comma { Comma(); } else { FirstElement(); }
    }

    /** The recursive printer of `to_string_detail`. */
    method Value(t: Json)
      requires CanPrint(style.mode, t)
      modifies this
      ensures buf == old(buf) + old(Lead()) + Text(Tree(style, t, currentIndent))
      ensures currentIndent == old(currentIndent) && !prevColon
      decreases t, 1
    {
      hide Text, Tree, ItemsLeft, FieldsLeft, Indentation;
      TreeText(style, t, currentIndent);
      ghost var lead := buf + Lead();
      match t
      case Null => Word("null");
      case Bool(b) => Word(if b then "true" else "false");
      case Int(i) => Number(i);
      case Str(s) => StringValue(s);
      case Arr(items) =>
        Array(items);
        Assoc(lead, "[", ItemsLeft(style, items, currentIndent, 0));
      case Obj(fields) =>
        Object(fields);
        Assoc(lead, "{", FieldsLeft(style, fields, currentIndent, 0));
    }

    method Array(items: seq<Json>)
      requires CanPrintAll(style.mode, items)
      modifies this
      ensures buf == old(buf) + old(Lead()) + "[" + ItemsLeft(style, items, currentIndent, 0)
      ensures currentIndent == old(currentIndent) && !prevColon
      decreases items, 0
    {
      hide Text, Tree, ItemsLeft, CanPrint, Indentation, LineBreak;
      ghost var depth := currentIndent;
      WriteIndent();
      Write("[");
      ghost var start := buf;
      var comma := false;
      var i := 0;
      while i < |items|
        invariant 0 <= i <= |items| && comma == (i > 0) && !prevColon
        invariant currentIndent == if comma then Deeper(style, depth) else depth
        invariant buf + ItemsLeft(style, items, depth, i) == start + ItemsLeft(style, items, depth, 0)
      {
        ghost var before := buf;
        BeforeElement(comma, depth);
        Value(items[i]);
        comma := true;
        ItemWritten(style, items, depth, i, before, buf);
        i := i + 1;
      }
      EndBlock("]", comma, depth);
      ItemsLeftEnd(style, items, depth);
    }

    method Object(fields: seq<Entry>)
      requires CanPrintFields(style.mode, fields)
      modifies this
      ensures buf == old(buf) + old(Lead()) + "{" + FieldsLeft(style, fields, currentIndent, 0)
      ensures currentIndent == old(currentIndent) && !prevColon
      decreases fields, 0
    {
      hide Text, Tree, FieldsLeft, CanPrint, Indentation, LineBreak, Quoted, Escaped, ColonText;
      ghost var depth := currentIndent;
      WriteIndent();
      Write("{");
      ghost var start := buf;
      var comma := false;
      var i := 0;
      while i < |fields|
        invariant 0 <= i <= |fields| && comma == (i > 0) && !prevColon
        invariant currentIndent == if comma then Deeper(style, depth) else depth
        invariant buf + FieldsLeft(style, fields, depth, i) == start + FieldsLeft(style, fields, depth, 0)
      {
        ghost var before := buf;
        BeforeElement(comma, depth);
        StringValue(fields[i].key);
        Colon();
        Value(fields[i].value);
        comma := true;
        MemberWritten(style, fields, depth, i, before, buf);
        i := i + 1;
      }
      EndBlock("}", comma, depth);
      FieldsLeftEnd(style, fields, depth);
    }
  }
}
