/**
 The indented writer with a source map, updated in place, and the offsets of
 its positions in the indented text.
 */
module LocWriter {
  import opened LocText
  import opened LocScript

  // ---------------------------------------------------------------------
  // The indented text
  // ---------------------------------------------------------------------

  function Repeat(s: string, n: nat): (r: string)
    ensures |r| == |s| * n
  {
    if n == 0 then "" else Repeat(s, n - 1) + s
  }

  function Display(lines: seq<Line>, indent: string): string {
    if lines == [] then ""
    else
      var last := lines[|lines| - 1];
      Display(lines[..|lines| - 1], indent) + Repeat(indent, last.indent) + LineText(last)
  }

  /** Where a position of the document is in the indented text. */
  function DisplayAt(lines: seq<Line>, p: LinePos, indent: string): nat
    requires 1 <= p.line <= |lines|
  {
    |Display(lines[..p.line - 1], indent)| + |indent| * lines[p.line - 1].indent + p.pos
  }

  lemma DisplaySnoc(lines: seq<Line>, l: Line, indent: string)
    ensures Display(lines + [l], indent) == Display(lines, indent) + Repeat(indent, l.indent) + LineText(l)
  {
    assert (lines + [l])[..|lines|] == lines;
  }

  lemma {:induction false} DisplayPrefix(lines: seq<Line>, k: nat, indent: string)
    requires k <= |lines|
    ensures Display(lines[..k], indent) <= Display(lines, indent)
    decreases |lines|
  {
    if k == |lines| {
      assert lines[..k] == lines;
    } else {
      var front, last := lines[..|lines| - 1], lines[|lines| - 1];
      DisplayPrefix(front, k, indent);
      assert front[..k] == lines[..k];
    }
  }

  lemma PrefixSlice(s: string, t: string, i: nat, j: nat)
    requires s <= t && i <= j <= |s|
    ensures t[i..j] == s[i..j]
  {
  }

  lemma PartSlice(a: string, b: string, c: string, i: nat, j: nat)
    requires i <= j <= |b|
    ensures |a| + j <= |a + b + c| && (a + b + c)[|a| + i..|a| + j] == b[i..j]
  {
  }

  lemma LineHead(l: Line)
    ensures exists rest :: LineText(l) == l.content + rest
  {
    if l.eol { assert LineText(l) == l.content + "\n"; } else { assert LineText(l) == l.content + ""; }
  }

  /** Two positions on one line cut the same text out of the indented text as out of the line. */
  lemma DisplayedText(lines: seq<Line>, indent: string, p: LinePos, q: LinePos)
    requires Inside(lines, p) && Inside(lines, q) && p.line == q.line && p.pos <= q.pos
    ensures DisplayAt(lines, p, indent) <= DisplayAt(lines, q, indent) <= |Display(lines, indent)|
    ensures Display(lines, indent)[DisplayAt(lines, p, indent)..DisplayAt(lines, q, indent)]
         == lines[p.line - 1].content[p.pos..q.pos]
  {
    hide Display, Repeat, LineText;
    var l, front := lines[p.line - 1], lines[..p.line - 1];
    assert lines[..p.line] == front + [l];
    DisplaySnoc(front, l, indent);
    DisplayPrefix(lines, p.line, indent);
    LineHead(l);
    var rest :| LineText(l) == l.content + rest;
    var before := Display(front, indent) + Repeat(indent, l.indent);
    Assoc(before, l.content, rest);
    PartSlice(before, l.content, rest, p.pos, q.pos);
    PrefixSlice(before + l.content + rest, Display(lines, indent), |before| + p.pos, |before| + q.pos);
  }

  /** The same cut in the text without indentation. */
  lemma PlainText(lines: seq<Line>, p: LinePos, q: LinePos)
    requires Inside(lines, p) && Inside(lines, q) && p.line == q.line && p.pos <= q.pos
    ensures PlainAt(lines, p) <= PlainAt(lines, q) <= |Plain(lines)|
    ensures Plain(lines)[PlainAt(lines, p)..PlainAt(lines, q)] == lines[p.line - 1].content[p.pos..q.pos]
  {
    hide Plain, LineText;
    var l, front := lines[p.line - 1], lines[..p.line - 1];
    assert lines[..p.line] == front + [l];
    PlainSnoc(front, l);
    PlainPrefix(lines, p.line);
    LineHead(l);
    var rest :| LineText(l) == l.content + rest;
    Assoc(Plain(front), l.content, rest);
    PartSlice(Plain(front), l.content, rest, p.pos, q.pos);
    PrefixSlice(Plain(front) + l.content + rest, Plain(lines), |Plain(front)| + p.pos, |Plain(front)| + q.pos);
  }

  lemma {:induction false} PlainPrefix(lines: seq<Line>, k: nat)
    requires k <= |lines|
    ensures Plain(lines[..k]) <= Plain(lines)
    decreases |lines|
  {
    if k == |lines| {
      assert lines[..k] == lines;
    } else {
      PlainPrefix(lines[..|lines| - 1], k);
      assert lines[..|lines| - 1][..k] == lines[..k];
    }
  }

  /** The entry's positions cut this text out of the indented text. */
  ghost predicate Shows<Loc>(lines: seq<Line>, e: LocEntry<Loc>, indent: string, text: string) {
    && Inside(lines, e.start) && Inside(lines, e.end)
    && DisplayAt(lines, e.start, indent) <= DisplayAt(lines, e.end, indent) <= |Display(lines, indent)|
    && Display(lines, indent)[DisplayAt(lines, e.start, indent)..DisplayAt(lines, e.end, indent)] == text
  }

  /**
   Every located part of a program that left an entry on one line, wherever it is
   nested or merged and whatever was written before: for every indentation string,
   the entry's positions cut exactly the text of that part out of the indented text.
   */
  lemma {:induction false} EntryDisplayed<Loc>(d: Doc<Loc>, ops: seq<Op<Loc>>, i: nat, indent: string)
    requires d.Valid() && i < |AllParts(ops, |ops|)|
    ensures var r := DoAll(d, ops, |ops|);
            && |r.locs| == |d.locs| + |AllParts(ops, |ops|)|
            && (OneLine(r.locs[|d.locs| + i]) ==> Shows(r.lines, r.locs[|d.locs| + i], indent, AllParts(ops, |ops|)[i]))
  {
    hide Plain, Display, DoAll, AllParts, AllSpans, AllEnds, Right, Places, Shows;
    var r, k := DoAll(d, ops, |ops|), |d.locs| + i;
    var spans, ends := AllSpans(ops, |ops|, |Plain(d.lines)|), AllEnds(d, ops, |ops|);
    EntryText(d, ops, i);
    AllEntriesRight(d, ops, |ops|);
    assert Right(r, |d.locs| + i, spans[i], ends[i]);
    if OneLine(r.locs[k]) { PlacesShows(r, k, spans[i], AllParts(ops, |ops|)[i], ends[i], indent); }
  }

  lemma PlacesShows<Loc>(d: Doc<Loc>, i: nat, span: Span<Loc>, part: string, ends: bool, indent: string)
    requires d.Valid() && i < |d.locs| && OneLine(d.locs[i]) && Right(d, i, span, ends) && Places(d, i, part, ends)
    ensures Shows(d.lines, d.locs[i], indent, part)
  {
    hide Plain, Display, DisplayAt, PlainAt, Inside;
    var p, q := d.locs[i].start, d.locs[i].end;
    PlainText(d.lines, p, q);
    DisplayedText(d.lines, indent, p, q);
  }

  // ---------------------------------------------------------------------
  // The writer
  // ---------------------------------------------------------------------

  class Writer<Loc> {
    var locs: seq<LocEntry<Loc>>
    var lineCount: nat
    var indentLevel: nat
    var noIndent: bool
    var lines: seq<Line>

    function Value(): Doc<Loc>
      reads this
    {
      Doc(locs, lineCount, indentLevel, noIndent, lines)
    }

    constructor ()
      ensures Value() == Empty() && Value().Valid()
    {
      locs, lineCount, indentLevel, noIndent, lines := [], 1, 0, false, [];
    }

    /** `reset`, which leaves the flag for unindented lines. */
    method Reset()
      modifies this
      ensures Value() == Empty<Loc>().(noIndent := old(noIndent))
    {
      locs, lines, lineCount, indentLevel := [], [], 1, 0;
    }

    method MaybeInitLine()
      modifies this`lines
      ensures Value() == Opened(old(Value()))
    {
      if |lines| == 0 || lines[|lines| - 1].eol {
        lines := lines + [Line("", indentLevel, false, noIndent)];
      }
    }

    method Write(text: string)
      requires Value().Valid()
      modifies this
      ensures Value() == Put(old(Value()), text) && Value().Valid()
    {
      PutKeeps(Value(), text);
      MaybeInitLine();
      var last := lines[|lines| - 1];
      lines := lines[..|lines| - 1] + [last.(content := last.content + text)];
    }

    method EndLine()
      requires Value().Valid()
      modifies this
      ensures Value() == Break(old(Value())) && Value().Valid()
    {
      BreakKeeps(Value());
      OpenedValid(Value());
      hide Opened;
      MaybeInitLine();
      var last := lines[|lines| - 1];
      lines := lines[..|lines| - 1] + [last.(eol := true)];
      lineCount := lineCount + 1;
    }

    /** A whole line that is never indented. */
    method WriteBareLine(text: string)
      requires Value().Valid()
      modifies this
      ensures Value() == Bare(old(Value()), text)
    {
      var level := indentLevel;
      indentLevel, noIndent := 0, true;
      Write(text);
      EndLine();
      indentLevel, noIndent := level, false;
    }

    /** Opening a scope gives the position it starts at. */
    method OpenScope() returns (start: LinePos)
      requires Value().Valid()
      modifies this
      ensures Value() == Opened(old(Value())) && Value().Valid() && Value().lines != [] && start == Value().Here()
      ensures Value().Named(start)
    {
      OpenedValid(Value());
      MaybeInitLine();
      start := LinePos(lineCount, |lines[|lines| - 1].content|);
    }

    method CloseScope(loc: Loc, start: LinePos)
      requires Value().Valid() && lines != [] && Value().Named(start)
      modifies this
      ensures Value() == Record(old(Value()), loc, start) && Value().Valid()
    {
      RecordKeeps(Value(), loc, start);
      locs := locs + [LocEntry(loc, start, LinePos(lineCount, |lines[|lines| - 1].content|))];
    }

    method OpenIndent(steps: nat)
      requires Value().Valid()
      modifies this
      ensures Value() == Deeper(old(Value()), steps) && Value().Valid()
    {
      indentLevel := indentLevel + steps;
    }

    method CloseIndent(steps: nat)
      requires Value().Valid()
      modifies this
      ensures Value() == Shallower(old(Value()), steps) && Value().Valid()
    {
      hide Keeps;
      ShallowerKeeps(Value(), steps);
      indentLevel := if indentLevel < steps then 0 else indentLevel - steps;
      if |lines| > 0 && !lines[|lines| - 1].eol && |lines[|lines| - 1].content| == 0 {
        lines := lines[..|lines| - 1] + [lines[|lines| - 1].(indent := indentLevel)];
      }
    }

    /** The loop over the other writer's lines, which also finds the column its first line is joined at. */
    method MergeOtherLines(others: seq<Line>) returns (columnOffset: nat)
      requires lines != [] && !lines[|lines| - 1].eol
      requires forall i | 0 <= i < |others| - 1 :: others[i].eol
      modifies this`lines
      ensures lines == MergeLines(old(lines), others, indentLevel, |others|)
      ensures columnOffset == if others == [] then 0 else |old(lines)[|old(lines)| - 1].content|
    {
      columnOffset := 0;
      for k := 0 to |others|
        invariant lines == MergeLines(old(lines), others, indentLevel, k)
        invariant columnOffset == if k == 0 then 0 else |old(lines)[|old(lines)| - 1].content|
      {
        var line := others[k];
        if !line.noIndent { line := line.(indent := line.indent + indentLevel); }
        if k > 0 { MergedLastEnded(old(lines), others, indentLevel, k); }
        var last := lines[|lines| - 1];
        if last.eol {
          lines := lines + [line];
        } else {
          if |last.content| == 0 { last := last.(indent := line.indent); }
          columnOffset := |last.content|;
          lines := lines[..|lines| - 1] + [last.(content := last.content + line.content, eol := line.eol)];
        }
      }
    }

    /** The loop over the other writer's entries. */
    method MergeOtherLocs(others: seq<LocEntry<Loc>>, lineOffset: nat, columnOffset: nat)
      modifies this`locs
      ensures locs == old(locs) + Shifted(others, lineOffset, columnOffset)
    {
      for k := 0 to |others|
        invariant locs == old(locs) + Shifted(others, lineOffset, columnOffset)[..k]
      {
        var start, end := others[k].start, others[k].end;
        if start.line == 1 { start := start.(pos := start.pos + columnOffset); }
        if end.line == 1 { end := end.(pos := end.pos + columnOffset); }
        start := start.(line := start.line + lineOffset);
        end := end.(line := end.line + lineOffset);
        locs := locs + [LocEntry(others[k].loc, start, end)];
      }
    }

    /** Merging a copy of another writer. */
    method MergeCopy(other: Writer<Loc>)
      requires other != this && Value().Valid() && other.Value().Valid()
      modifies this
      ensures Value() == Merge(old(Value()), other.Value()) && Value().Valid()
    {
      hide MergeLines, Opened;
      OpenedValid(Value());
      MergeKeeps(Value(), other.Value());
      MaybeInitLine();
      var columnOffset := MergeOtherLines(other.lines);
      MergeOtherLocs(other.locs, lineCount - 1, columnOffset);
      lineCount := lineCount + other.lineCount - 1;
    }

    /** Merging and emptying another writer. */
    method MergeMove(other: Writer<Loc>)
      requires other != this && Value().Valid() && other.Value().Valid()
      modifies this, other
      ensures Value() == Merge(old(Value()), old(other.Value())) && Value().Valid()
      ensures other.Value() == Empty<Loc>().(noIndent := old(other.noIndent)) && other.Value().Valid()
    {
      MergeCopy(other);
      other.Reset();
    }

    /** The whole text with `indent` in front of each line, once per level. */
    method ToString(indent: string) returns (r: string)
      ensures r == Display(lines, indent)
    {
      r := "";
      for i := 0 to |lines|
        invariant r == Display(lines[..i], indent)
      {
        ghost var before := r;
        for j := 0 to lines[i].indent
          invariant r == before + Repeat(indent, j)
        {
          Assoc(before, Repeat(indent, j), indent);
          r := r + indent;
        }
        assert lines[..i + 1] == lines[..i] + [lines[i]];
        DisplaySnoc(lines[..i], lines[i], indent);
        ghost var shown := r;
        r := r + lines[i].content;
        if lines[i].eol {
          Assoc(shown, lines[i].content, "\n");
          r := r + "\n";
        }
      }
      assert lines[..|lines|] == lines;
    }

    /** The index of a position in the text indented by `|indent|` characters a level. */
    method OffsetOf(p: LinePos, ghost indent: string, spaces: nat) returns (offset: nat)
      requires p.line >= 1 && spaces == |indent|
      ensures p.line > |lines| ==> offset == 0
      ensures p.line <= |lines| ==>
                var size := |lines[p.line - 1].content|;
                offset == DisplayAt(lines, if p.pos <= size + 1 then p else p.(pos := size), indent)
    {
      hide Display, Repeat;
      if |lines| < p.line { return 0; }
      offset := 0;
      DisplayNone(indent);
      for i := 0 to p.line - 1
        invariant offset == |Display(lines[..i], indent)|
      {
        assert lines[..i + 1] == lines[..i] + [lines[i]];
        DisplayLength(lines[..i], lines[i], indent);
        offset := offset + spaces * lines[i].indent;
        offset := offset + |lines[i].content|;
        if lines[i].eol { offset := offset + 1; }
      }
      offset := offset + spaces * lines[p.line - 1].indent;
      if |lines[p.line - 1].content| + 1 < p.pos {
        offset := offset + |lines[p.line - 1].content|;
      } else {
        offset := offset + p.pos;
      }
    }
  }

  lemma DisplayNone(indent: string)
    ensures Display([], indent) == ""
  {
  }

  lemma DisplayLength(lines: seq<Line>, l: Line, indent: string)
    ensures |Display(lines + [l], indent)|
         == |Display(lines, indent)| + |indent| * l.indent + |l.content| + (if l.eol then 1 else 0)
  {
    hide Display, Repeat;
    DisplaySnoc(lines, l, indent);
  }

  /** While another document is merged, the last line is an ended one between two of its lines. */
  lemma MergedLastEnded(lines: seq<Line>, others: seq<Line>, indent: nat, k: nat)
    requires lines != [] && !lines[|lines| - 1].eol && 1 <= k < |others|
    requires forall i | 0 <= i < |others| - 1 :: others[i].eol
    ensures var r := MergeLines(lines, others, indent, k); r[|r| - 1].eol
  {
    MergedLines(lines, others, indent, k);
    assert others[k - 1].eol;
  }

  // ---------------------------------------------------------------------
  // What the indented text is
  // ---------------------------------------------------------------------

  /** The text of two parts is the text of the first and the text of the second. */
  lemma {:induction false} DisplayConcat(a: seq<Line>, b: seq<Line>, indent: string)
    ensures Display(a + b, indent) == Display(a, indent) + Display(b, indent)
    decreases |b|
  {
    hide Repeat, LineText;
    if b == [] {
      assert a + b == a;
    } else {
      var front, last := b[..|b| - 1], b[|b| - 1];
      assert (a + b)[..|a + b| - 1] == a + front;
      DisplayConcat(a, front, indent);
      var lead, text := Repeat(indent, last.indent), LineText(last);
      Assoc(Display(a, indent), Display(front, indent), lead);
      Assoc(Display(a, indent), Display(front, indent) + lead, text);
    }
  }

  /** A line one level deeper has one more indentation in front, and at level zero none. */
  lemma DisplayDeeper(l: Line, indent: string)
    ensures Display([l.(indent := 0)], indent) == LineText(l)
    ensures Display([l.(indent := l.indent + 1)], indent) == indent + Display([l], indent)
  {
    hide LineText;
    RepeatFront(indent, l.indent);
    OneLineText(l.(indent := 0), indent);
    OneLineText(l, indent);
    OneLineText(l.(indent := l.indent + 1), indent);
    LevelFree(l, 0);
    LevelFree(l, l.indent + 1);
    assert indent + (Repeat(indent, l.indent) + LineText(l)) == indent + Repeat(indent, l.indent) + LineText(l);
    assert "" + LineText(l) == LineText(l);
  }

  lemma LevelFree(l: Line, level: nat)
    ensures LineText(l.(indent := level)) == LineText(l)
  {
  }

  lemma OneLineText(l: Line, indent: string)
    ensures Display([l], indent) == Repeat(indent, l.indent) + LineText(l)
  {
    assert [l][..0] == [];
    assert "" + Repeat(indent, l.indent) == Repeat(indent, l.indent);
  }

  lemma {:induction false} RepeatFront(indent: string, n: nat)
    ensures Repeat(indent, n + 1) == indent + Repeat(indent, n)
  {
    if n == 0 {
      assert Repeat(indent, 1) == "" + indent;
    } else {
      RepeatFront(indent, n - 1);
      assert indent + Repeat(indent, n - 1) + indent == indent + (Repeat(indent, n - 1) + indent);
    }
  }
}
