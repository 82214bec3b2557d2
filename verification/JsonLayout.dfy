/**
 The layout of printed text, as a reader of the text alone sees it: brackets are
 counted outside strings, and each line is indented by what is open.
 */
module JsonLayout {
  import opened JsonValue
  import opened Escape
  import opened JsonMachine
  import opened JsonGrammar
  import opened JsonPrinter

  // ---------------------------------------------------------------------
  // Reading the layout off a text
  // ---------------------------------------------------------------------

  /** How many brackets are open, whether a string is open, and whether its last character was an open backslash. */
  datatype Scan = Scan(depth: int, inString: bool, escaped: bool)

  predicate Opens(c: char) { c == '[' || c == '{' }

  predicate Closes(c: char) { c == ']' || c == '}' }

  function ScanChar(s: Scan, c: char): Scan {
    if s.inString then
      if s.escaped then s.(escaped := false)
      else if c == '\\' then s.(escaped := true)
      else s.(inString := c != '\"')
    else if c == '\"' then s.(inString := true)
    else if Opens(c) then s.(depth := s.depth + 1)
    else if Closes(c) then s.(depth := s.depth - 1)
    else s
  }

  function ScanAll(s: Scan, text: string): Scan {
    if text == "" then s else ScanChar(ScanAll(s, text[..|text| - 1]), text[|text| - 1])
  }

  function Outside(depth: int): Scan { Scan(depth, false, false) }

  /** A line: so many copies of the indentation, then a character that is no white space; one copy fewer before a closing bracket. */
  ghost predicate LineOk(indent: string, depth: int, line: string) {
    exists k: nat, c: char | IsPrefix(Repeat(indent, k), c, line) :: !IsSpace(c) && k == depth - (if Closes(c) then 1 else 0)
  }

  predicate IsPrefix(lead: string, c: char, line: string) { lead + [c] <= line }

  /** The text ends in a line break and indentation. */
  ghost predicate AtLineStart(indent: string, text: string) {
    exists k: nat :: EndsWith(text, "\n" + Repeat(indent, k))
  }

  predicate EndsWith(text: string, end: string) { |end| <= |text| && text[|text| - |end|..] == end }

  /**
   A character outside strings, with the text before and behind it: a line break is
   followed by a well-indented line; with indentation every element begins a line
   and so does every closing bracket, but for empty brackets; a colon is followed by
   a space exactly if the style says so; and there is no other white space unless the
   style asks for some.
   */
  ghost predicate CharOk(style: Style, depth: int, before: string, c: char, rest: string) {
    && (c == '\n' ==> style.useIndent && LineOk(style.indent, depth, rest))
    && (style.useIndent && c == ',' ==> rest != "" && rest[0] == '\n')
    && (style.useIndent && Opens(c) ==> rest != "" && (rest[0] == '\n' || Closes(rest[0])))
    && (style.useIndent && Closes(c) ==> before != "" && (Opens(before[|before| - 1]) || AtLineStart(style.indent, before)))
    && (c == ':' ==> rest != "" && (rest[0] == ' ' <==> style.colonSpace))
    && (IsSpace(c) ==> style.useIndent || style.colonSpace)
  }

  /** All characters outside strings, with `depth` brackets open before the first. */
  ghost predicate LinesOk(style: Style, text: string, depth: int) {
    forall i | 0 <= i < |text| && !ScanAll(Outside(depth), text[..i]).inString ::
      CharOk(style, ScanAll(Outside(depth), text[..i]).depth, text[..i], text[i], text[i + 1..])
  }

  /** A piece of text that begins with `d` open brackets and ends with `e`, outside strings, and whose lines are well indented. */
  ghost predicate Piece(style: Style, text: string, d: int, e: int) {
    ScanAll(Outside(d), text) == Outside(e) && LinesOk(style, text, d)
  }

  // ---------------------------------------------------------------------
  // Pieces
  // ---------------------------------------------------------------------

  lemma {:induction false} ScanConcat(s: Scan, a: string, b: string)
    ensures ScanAll(s, a + b) == ScanAll(ScanAll(s, a), b)
    decreases |b|
  {
    if b == "" {
      assert a + b == a;
    } else {
      var n := |b| - 1;
      assert (a + b)[..|a + b| - 1] == a + b[..n];
      ScanConcat(s, a, b[..n]);
    }
  }

  lemma LineGrows(indent: string, depth: int, line: string, more: string)
    requires LineOk(indent, depth, line)
    ensures LineOk(indent, depth, line + more)
  {
    var k: nat, c: char :| IsPrefix(Repeat(indent, k), c, line) && !IsSpace(c) && k == depth - (if Closes(c) then 1 else 0);
    assert IsPrefix(Repeat(indent, k), c, line + more);
  }

  lemma CharGrows(style: Style, depth: int, less: string, before: string, c: char, rest: string, more: string)
    requires CharOk(style, depth, before, c, rest)
    ensures CharOk(style, depth, less + before, c, rest + more)
  {
    hide LineOk, AtLineStart;
    if c == '\n' { LineGrows(style.indent, depth, rest, more); }
    if AtLineStart(style.indent, before) { StartGrows(style.indent, less, before); }
  }

  lemma StartGrows(indent: string, less: string, before: string)
    requires AtLineStart(indent, before)
    ensures AtLineStart(indent, less + before)
  {
    var k: nat :| EndsWith(before, "\n" + Repeat(indent, k));
    var end := "\n" + Repeat(indent, k);
    assert (less + before)[|less + before| - |end|..] == before[|before| - |end|..];
    assert EndsWith(less + before, end);
  }

  lemma Joined(style: Style, a: string, b: string, d: int, e: int, f: int)
    requires Piece(style, a, d, e) && Piece(style, b, e, f)
    ensures Piece(style, a + b, d, f)
  {
    hide CharOk, ScanAll;
    ScanConcat(Outside(d), a, b);
    var t := a + b;
    forall i | 0 <= i < |t| && !ScanAll(Outside(d), t[..i]).inString
      ensures CharOk(style, ScanAll(Outside(d), t[..i]).depth, t[..i], t[i], t[i + 1..])
    {
      if i < |a| {
        assert t[..i] == a[..i] && t[i + 1..] == a[i + 1..] + b && t[i] == a[i];
        CharGrows(style, ScanAll(Outside(d), a[..i]).depth, "", a[..i], a[i], a[i + 1..], b);
        assert "" + a[..i] == a[..i];
      } else {
        var j := i - |a|;
        assert t[..i] == a + b[..j] && t[i + 1..] == b[j + 1..] && t[i] == b[j];
        ScanConcat(Outside(d), a, b[..j]);
        CharGrows(style, ScanAll(Outside(d), t[..i]).depth, a, b[..j], b[j], b[j + 1..], "");
        assert b[j + 1..] + "" == b[j + 1..];
      }
    }
  }

  /** Characters that neither open nor close anything, and no white space, no comma and no colon. */
  predicate Neutral(text: string) {
    forall i | 0 <= i < |text| ::
      text[i] != '\"' && !Opens(text[i]) && !Closes(text[i]) && !IsSpace(text[i]) && text[i] != ',' && text[i] != ':'
  }

  lemma {:induction false} NeutralScan(text: string, d: int)
    requires forall i | 0 <= i < |text| :: text[i] != '\"' && !Opens(text[i]) && !Closes(text[i])
    ensures ScanAll(Outside(d), text) == Outside(d)
    decreases |text|
  {
    if text != "" { NeutralScan(text[..|text| - 1], d); }
  }

  lemma NeutralPiece(style: Style, text: string, d: int)
    requires Neutral(text)
    ensures Piece(style, text, d, d)
  {
    NeutralScan(text, d);
  }

  /** An opening bracket, a comma or a colon, with what comes behind it. */
  lemma FrontPiece(style: Style, c: char, v: string, d: int, f: int)
    requires (Opens(c) || c == ',') && v != "" && Piece(style, v, if Opens(c) then d + 1 else d, f)
    requires style.useIndent ==> v[0] == '\n' || (Opens(c) && Closes(v[0]))
    ensures Piece(style, [c] + v, d, f)
  {
    hide ScanAll, LineOk, AtLineStart;
    var t, e := [c] + v, if Opens(c) then d + 1 else d;
    ScanOne(Outside(d), c);
    ScanNothing(Outside(d));
    ScanConcat(Outside(d), [c], v);
    forall i | 0 <= i < |t| && !ScanAll(Outside(d), t[..i]).inString
      ensures CharOk(style, ScanAll(Outside(d), t[..i]).depth, t[..i], t[i], t[i + 1..])
    {
      if i == 0 {
        assert t[..0] == "" && t[1..] == v;
      } else {
        var j := i - 1;
        assert t[..i] == [c] + v[..j] && t[i + 1..] == v[j + 1..] && t[i] == v[j];
        ScanConcat(Outside(d), [c], v[..j]);
        CharGrows(style, ScanAll(Outside(e), v[..j]).depth, [c], v[..j], v[j], v[j + 1..], "");
        assert v[j + 1..] + "" == v[j + 1..];
      }
    }
  }

  /** Brackets with nothing in them. */
  lemma EmptyPiece(style: Style, open: char, close: char, d: int)
    requires Opens(open) && Closes(close)
    ensures Piece(style, [open, close], d, d)
  {
    hide LineOk, AtLineStart;
    var t := [open, close];
    assert t[..0] == "" && t[..1] == [open] && t[1..] == [close] && t[2..] == "" && t[..1][..0] == "";
    assert ScanAll(Outside(d), t[..1]) == Outside(d + 1);
    assert ScanAll(Outside(d), t) == Outside(d);
  }

  /** A closing bracket alone on its line, or right behind the last value when there are no lines. */
  lemma ClosePiece(style: Style, close: char, depth: nat, d: int)
    requires Closes(close) && Spaces(style.indent) && '\n' !in style.indent && (style.useIndent ==> d == depth)
    ensures Piece(style, Break(style, depth) + [close], d + 1, d)
  {
    hide ScanAll, Repeat, LineOk;
    ScanOne(Outside(d + 1), close);
    ScanNothing(Outside(d + 1));
    if style.useIndent {
      var lead := Repeat(style.indent, depth);
      var t := "\n" + lead + [close];
      assert Break(style, depth) + [close] == t;
      RepeatSpaces(style.indent, depth);
      LeadScan(lead, d + 1);
      ScanConcat(Outside(d + 1), "\n" + lead, [close]);
      forall i | 0 <= i < |t| && !ScanAll(Outside(d + 1), t[..i]).inString
        ensures CharOk(style, ScanAll(Outside(d + 1), t[..i]).depth, t[..i], t[i], t[i + 1..])
      {
        CloseChar(style, lead, close, d, i, depth);
      }
    } else {
      assert Break(style, depth) + [close] == [close];
      assert [close][..0] == "";
    }
  }

  lemma CloseChar(style: Style, lead: string, close: char, d: int, i: nat, depth: nat)
    requires style.useIndent && Closes(close) && d == depth && lead == Repeat(style.indent, depth) && Spaces(lead) && '\n' !in lead
    requires i < |lead| + 2
    ensures var t := "\n" + lead + [close]; CharOk(style, ScanAll(Outside(d + 1), t[..i]).depth, t[..i], t[i], t[i + 1..])
  {
    hide ScanAll, Repeat;
    var t := "\n" + lead + [close];
    if i == 0 {
      assert t[..0] == "" && t[1..] == lead + [close];
      ScanNothing(Outside(d + 1));
      assert IsPrefix(Repeat(style.indent, depth), close, t[1..]);
    } else if i <= |lead| {
      assert t[i] == lead[i - 1] && lead[i - 1] in lead;
    } else {
      assert t[..i] == "\n" + lead && t[i] == close;
      assert EndsWith(t[..i], "\n" + Repeat(style.indent, depth));
    }
  }

  lemma {:induction false} RepeatSpaces(indent: string, k: nat)
    requires Spaces(indent) && '\n' !in indent
    ensures Spaces(Repeat(indent, k)) && '\n' !in Repeat(indent, k)
  {
    if k > 0 { RepeatSpaces(indent, k - 1); }
  }

  /** A line break with its indentation before a piece. */
  lemma BreakPiece(style: Style, depth: nat, v: string, d: int, e: int)
    requires Spaces(style.indent) && '\n' !in style.indent
    requires Piece(style, v, d, e) && v != "" && !IsSpace(v[0])
    requires style.useIndent ==> depth == d - (if Closes(v[0]) then 1 else 0)
    ensures Piece(style, Break(style, depth) + v, d, e)
  {
    hide ScanAll, Repeat;
    if style.useIndent {
      var lead := Repeat(style.indent, depth);
      var t := "\n" + lead + v;
      assert Break(style, depth) + v == t;
      RepeatSpaces(style.indent, depth);
      LeadScan(lead, d);
      ScanConcat(Outside(d), "\n" + lead, v);
      forall i | 0 <= i < |t| && !ScanAll(Outside(d), t[..i]).inString
        ensures CharOk(style, ScanAll(Outside(d), t[..i]).depth, t[..i], t[i], t[i + 1..])
      {
        LineInBreak(style, lead, v, d, e, i, depth);
      }
    } else {
      assert Break(style, depth) + v == v;
    }
  }

  lemma LeadScan(lead: string, d: int)
    requires Spaces(lead)
    ensures ScanAll(Outside(d), "\n" + lead) == Outside(d) && ScanAll(Outside(d), "") == Outside(d)
  {
    NeutralScan("\n" + lead, d);
  }

  lemma LineInBreak(style: Style, lead: string, v: string, d: int, e: int, i: nat, depth: nat)
    requires style.useIndent && lead == Repeat(style.indent, depth) && Spaces(lead) && '\n' !in lead
    requires Piece(style, v, d, e) && v != "" && !IsSpace(v[0]) && depth == d - (if Closes(v[0]) then 1 else 0)
    requires var t := "\n" + lead + v; i < |t| && !ScanAll(Outside(d), t[..i]).inString
    ensures var t := "\n" + lead + v; CharOk(style, ScanAll(Outside(d), t[..i]).depth, t[..i], t[i], t[i + 1..])
  {
    hide ScanAll, Repeat;
    var t := "\n" + lead + v;
    LeadScan(lead, d);
    if i == 0 {
      assert t[..0] == "" && t[1..] == lead + v;
      assert lead + [v[0]] <= lead + v;
      assert IsPrefix(Repeat(style.indent, depth), v[0], t[1..]);
    } else if i <= |lead| {
      assert t[i] == lead[i - 1] && lead[i - 1] in lead;
    } else {
      var j := i - 1 - |lead|;
      assert t[..i] == ("\n" + lead) + v[..j] && t[i + 1..] == v[j + 1..] && t[i] == v[j];
      ScanConcat(Outside(d), "\n" + lead, v[..j]);
      CharGrows(style, ScanAll(Outside(d), v[..j]).depth, "\n" + lead, v[..j], v[j], v[j + 1..], "");
      assert v[j + 1..] + "" == v[j + 1..];
    }
  }

  // ----- strings -----

  lemma EscapeCharStays(mode: EscapeMode, c: char, d: int)
    requires mode.utf16 ==> Ascii(c)
    ensures ScanAll(Scan(d, true, false), EscapeChar(mode, c)) == Scan(d, true, false)
    ensures forall k | 0 <= k < |EscapeChar(mode, c)| :: ScanAll(Scan(d, true, false), EscapeChar(mode, c)[..k]).inString
  {
    hide ScanAll;
    var e, s := EscapeChar(mode, c), Scan(d, true, false);
    ScanNothing(s);
    assert e[..0] == "";
    if |e| == 1 {
      ScanOne(s, e[0]);
      assert e == [e[0]];
    } else {
      LongStays(e, d);
    }
  }

  lemma LongStays(e: string, d: int)
    requires |e| >= 2 && e[0] == '\\' && forall i | 2 <= i < |e| :: e[i] != '\"' && e[i] != '\\'
    ensures ScanAll(Scan(d, true, false), e) == Scan(d, true, false)
    ensures forall k | 1 <= k < |e| :: ScanAll(Scan(d, true, false), e[..k]).inString
  {
    hide ScanAll;
    var s := Scan(d, true, false);
    ScanOne(s, '\\');
    ScanOne(s.(escaped := true), e[1]);
    assert e[..1] == "\\" && e[..2] == "\\" + [e[1]] && e[..|e|] == e;
    ScanConcat(s, "\\", [e[1]]);
    forall k | 2 <= k <= |e| ensures ScanAll(s, e[..k]) == s {
      assert e[..k] == e[..2] + e[2..k];
      ScanConcat(s, e[..2], e[2..k]);
      PlainInside(e[2..k], d);
    }
  }

  lemma {:induction false} PlainInside(text: string, d: int)
    requires forall i | 0 <= i < |text| :: text[i] != '\"' && text[i] != '\\'
    ensures ScanAll(Scan(d, true, false), text) == Scan(d, true, false)
    decreases |text|
  {
    if text != "" { PlainInside(text[..|text| - 1], d); }
  }

  lemma {:induction false} EscapedStays(mode: EscapeMode, s: string, d: int)
    requires Printable(mode, s)
    ensures ScanAll(Scan(d, true, false), Escaped(mode, s)) == Scan(d, true, false)
    ensures forall k | 0 <= k <= |Escaped(mode, s)| :: ScanAll(Scan(d, true, false), Escaped(mode, s)[..k]).inString
  {
    hide ScanAll, EscapeChar;
    var x := Scan(d, true, false);
    if s == "" {
      ScanNothing(x);
      assert Escaped(mode, s)[..0] == "";
    } else {
      var a, b := EscapeChar(mode, s[0]), Escaped(mode, s[1..]);
      EscapeCharStays(mode, s[0], d);
      EscapedStays(mode, s[1..], d);
      ScanConcat(x, a, b);
      forall k | 0 <= k <= |a + b| ensures ScanAll(x, (a + b)[..k]).inString {
        if k < |a| {
          assert (a + b)[..k] == a[..k];
        } else {
          assert (a + b)[..k] == a + b[..k - |a|];
          ScanConcat(x, a, b[..k - |a|]);
        }
      }
    }
  }

  lemma ScanNothing(s: Scan)
    ensures ScanAll(s, "") == s
  {
  }

  lemma ScanOne(s: Scan, c: char)
    ensures ScanAll(s, [c]) == ScanChar(s, c)
  {
    assert [c][..0] == "";
  }

  lemma StringPiece(style: Style, s: string, d: int)
    requires Printable(style.mode, s)
    ensures Piece(style, Quoted(Escaped(style.mode, s)), d, d)
  {
    hide ScanAll, Escaped;
    var e := Escaped(style.mode, s);
    EscapedStays(style.mode, s, d);
    ScanOne(Outside(d), '\"');
    ScanOne(Scan(d, true, false), '\"');
    ScanConcat(Outside(d), "\"", e);
    ScanConcat(Outside(d), "\"" + e, "\"");
    forall i | 0 <= i < |Quoted(e)| && !ScanAll(Outside(d), Quoted(e)[..i]).inString
      ensures CharOk(style, ScanAll(Outside(d), Quoted(e)[..i]).depth, Quoted(e)[..i], Quoted(e)[i], Quoted(e)[i + 1..])
    {
      if 1 <= i <= |e| {
        assert Quoted(e)[..i] == "\"" + e[..i - 1];
        ScanConcat(Outside(d), "\"", e[..i - 1]);
      }
    }
  }

  // ---------------------------------------------------------------------
  // Printed values
  // ---------------------------------------------------------------------

  /** The text of a printed value: a piece at its depth that begins with neither white space nor a closing bracket. */
  ghost predicate ValuePiece(style: Style, text: string, d: int) {
    Piece(style, text, d, d) && text != "" && !IsSpace(text[0]) && !Closes(text[0])
  }

  lemma {:induction false} DigitsNeutral(n: nat)
    ensures Digits(n) != "" && forall i | 0 <= i < |Digits(n)| :: IsDigit(Digits(n)[i])
  {
    if n >= 10 { DigitsNeutral(n / 10); }
  }

  lemma ScalarPiece(style: Style, t: Json, depth: nat, d: int)
    requires CanPrint(style.mode, t) && !t.Arr? && !t.Obj?
    ensures ValuePiece(style, Text(Tree(style, t, depth)), d)
  {
    hide Piece, Digits, Escaped;
    match t
    case Null => NeutralPiece(style, "null", d);
    case Bool(b) => NeutralPiece(style, if b then "true" else "false", d);
    case Str(s) => StringPiece(style, s, d);
    case Int(i) =>
      DigitsNeutral(Magnitude(i));
      var text := Text(Tree(style, t, depth));
      assert text == SignText(i < 0) + Digits(Magnitude(i));
      NeutralPiece(style, text, d);
    case _ =>
  }

  /** A printed value lies in lines that are indented by its depth. */
  lemma {:induction false} ValueLaid(style: Style, t: Json, depth: nat, d: int)
    requires CanPrint(style.mode, t) && Spaces(style.indent) && '\n' !in style.indent && (style.useIndent ==> d == depth)
    ensures ValuePiece(style, Text(Tree(style, t, depth)), d)
    decreases t, 1
  {
    hide Piece, Items, Fields, Break, ElemsText, FieldText;
    match t
    case Arr(items) =>
      if items == [] {
        EmptyPiece(style, '[', ']', d);
        EmptyText(style, t, depth);
      } else {
        ItemsLaid(style, items, depth, d);
        FrontPiece(style, '[', ElemsText(Items(style, items, depth)), d, d);
      }
    case Obj(fields) =>
      if fields == [] {
        EmptyPiece(style, '{', '}', d);
        EmptyText(style, t, depth);
      } else {
        FieldsLaid(style, fields, depth, d);
        var inner := FieldText(Fields(style, fields, depth));
        FieldStarts(style, fields, depth);
        BreakPiece(style, Deeper(style, depth), inner, d + 1, d);
        BreakStarts(style, Deeper(style, depth), inner);
        FrontPiece(style, '{', Break(style, Deeper(style, depth)) + inner, d, d);
      }
    case _ => ScalarPiece(style, t, depth, d);
  }

  lemma EmptyText(style: Style, t: Json, depth: nat)
    requires t == Arr([]) || t == Obj([])
    ensures CanPrint(style.mode, t) && Text(Tree(style, t, depth)) == if t.Arr? then "[]" else "{}"
  {
    assert "" + "]" == "]" && "" + "}" == "}";
  }

  lemma BreakStarts(style: Style, depth: nat, v: string)
    requires v != ""
    ensures Break(style, depth) + v != "" && (style.useIndent ==> (Break(style, depth) + v)[0] == '\n')
  {
    if style.useIndent { assert Break(style, depth)[0] == '\n'; }
  }

  lemma FieldStarts(style: Style, fields: seq<Entry>, depth: nat)
    requires fields != [] && CanPrintFields(style.mode, fields)
    ensures FieldText(Fields(style, fields, depth)) != "" && FieldText(Fields(style, fields, depth))[0] == '\"'
  {
  }

  lemma {:induction false} ItemsLaid(style: Style, items: seq<Json>, depth: nat, d: int)
    requires items != [] && CanPrintAll(style.mode, items)
    requires Spaces(style.indent) && '\n' !in style.indent && (style.useIndent ==> d == depth)
    ensures Piece(style, ElemsText(Items(style, items, depth)), d + 1, d)
    ensures ElemsText(Items(style, items, depth)) != ""
    ensures style.useIndent ==> ElemsText(Items(style, items, depth))[0] == '\n'
    decreases items, 0
  {
    hide Piece, Break, Tree, Text;
    var deep := Deeper(style, depth);
    var v := Text(Tree(style, items[0], deep));
    ValueLaid(style, items[0], deep, d + 1);
    var rest: string;
    if |items| == 1 {
      ClosePiece(style, ']', depth, d);
      rest := Break(style, depth) + "]";
    } else {
      ItemsLaid(style, items[1..], depth, d);
      rest := "," + ElemsText(Items(style, items[1..], depth));
      FrontPiece(style, ',', ElemsText(Items(style, items[1..], depth)), d + 1, d);
    }
    Joined(style, v, rest, d + 1, d + 1, d);
    BreakPiece(style, deep, v + rest, d + 1, d);
    BreakStarts(style, deep, v + rest);
    ItemsAre(style, items, depth, rest);
  }

  lemma ItemsAre(style: Style, items: seq<Json>, depth: nat, rest: string)
    requires items != [] && CanPrintAll(style.mode, items)
    requires rest == if |items| == 1 then Break(style, depth) + "]" else "," + ElemsText(Items(style, items[1..], depth))
    ensures ElemsText(Items(style, items, depth))
         == Break(style, Deeper(style, depth)) + (Text(Tree(style, items[0], Deeper(style, depth))) + rest)
  {
    hide Break, Tree, Text;
    assert "" + rest == rest;
  }

  lemma {:induction false} FieldsLaid(style: Style, fields: seq<Entry>, depth: nat, d: int)
    requires fields != [] && CanPrintFields(style.mode, fields)
    requires Spaces(style.indent) && '\n' !in style.indent && (style.useIndent ==> d == depth)
    ensures Piece(style, FieldText(Fields(style, fields, depth)), d + 1, d)
    decreases fields, 0
  {
    hide Piece, Break, Tree, Text, Quoted, Escaped, ColonText, FieldText, Fields;
    var deep := Deeper(style, depth);
    var key, v := Quoted(Escaped(style.mode, fields[0].key)), Text(Tree(style, fields[0].value, deep));
    StringPiece(style, fields[0].key, d + 1);
    ValueLaid(style, fields[0].value, deep, d + 1);
    var rest: string;
    if |fields| == 1 {
      ClosePiece(style, '}', depth, d);
      rest := Break(style, depth) + "}";
    } else {
      FieldsLaid(style, fields[1..], depth, d);
      FieldStarts(style, fields[1..], depth);
      var next := FieldText(Fields(style, fields[1..], depth));
      BreakPiece(style, deep, next, d + 1, d);
      rest := "," + (Break(style, deep) + next);
      BreakStarts(style, deep, next);
      FrontPiece(style, ',', Break(style, deep) + next, d + 1, d);
    }
    Joined(style, v, rest, d + 1, d + 1, d);
    ColonPiece(style, v + rest, d + 1, d);
    Joined(style, key, ColonText(style) + (v + rest), d + 1, d + 1, d);
    FieldsAre(style, fields, depth, rest);
  }

  lemma ColonPiece(style: Style, v: string, d: int, e: int)
    requires Piece(style, v, d, e) && v != "" && !IsSpace(v[0])
    ensures Piece(style, ColonText(style) + v, d, e)
  {
    hide ScanAll;
    var colon, t := ColonText(style), ColonText(style) + v;
    ColonScan(style, d);
    ScanConcat(Outside(d), colon, v);
    forall i | 0 <= i < |t| && !ScanAll(Outside(d), t[..i]).inString
      ensures CharOk(style, ScanAll(Outside(d), t[..i]).depth, t[..i], t[i], t[i + 1..])
    {
      if i >= |colon| {
        var j := i - |colon|;
        assert t[..i] == colon + v[..j] && t[i + 1..] == v[j + 1..];
        ScanConcat(Outside(d), colon, v[..j]);
        CharGrows(style, ScanAll(Outside(d), v[..j]).depth, colon, v[..j], v[j], v[j + 1..], "");
        assert v[j + 1..] + "" == v[j + 1..] && t[i] == v[j];
      }
    }
  }

  lemma ColonScan(style: Style, d: int)
    ensures ScanAll(Outside(d), ColonText(style)) == Outside(d)
  {
    NeutralScan(ColonText(style), d);
  }

  lemma FieldsAre(style: Style, fields: seq<Entry>, depth: nat, rest: string)
    requires fields != [] && CanPrintFields(style.mode, fields)
    requires rest == if |fields| == 1 then Break(style, depth) + "}"
                     else "," + (Break(style, Deeper(style, depth)) + FieldText(Fields(style, fields[1..], depth)))
    ensures FieldText(Fields(style, fields, depth))
         == Quoted(Escaped(style.mode, fields[0].key))
            + (ColonText(style) + (Text(Tree(style, fields[0].value, Deeper(style, depth))) + rest))
  {
    hide Break, Tree, Text, Quoted, Escaped;
    var f := Fields(style, fields, depth);
    assert f.ws3 + FieldTailText(f.tail) == rest;
    hide FieldText, FieldTailText;
    FieldTextIs(f, ColonText(style), Text(f.v), rest);
    Assoc(ColonText(style), Text(f.v), rest);
  }

  /**
   The layout of every printed value: with indentation, each line break outside a
   string is followed by one indentation for each bracket that is open there, one
   fewer where the line closes one, and every element and closing bracket begins a
   line; without, there is no line break outside strings. A space follows a colon exactly if the style says so, and a style that asks for
   no white space gets none.
   */
  lemma Layout(style: Style, t: Json)
    requires CanPrint(style.mode, t) && Spaces(style.indent) && '\n' !in style.indent
    ensures LinesOk(style, Printed(style, t), 0)
  {
    ValueLaid(style, t, 0, 0);
  }
}
