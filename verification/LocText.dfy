/**
 The document behind the indented writer with a source map: lines, located
 positions, and what each writing operation makes of them.
 */
module LocText {
  /** A line number, counted from one, and a column, counted from zero. */
  datatype LinePos = LinePos(line: nat, pos: nat)

  datatype LocEntry<Loc> = LocEntry(loc: Loc, start: LinePos, end: LinePos)

  datatype Line = Line(content: string, indent: nat, eol: bool, noIndent: bool)

  datatype Doc<Loc> = Doc(locs: seq<LocEntry<Loc>>, lineCount: nat, indent: nat, noIndent: bool, lines: seq<Line>) {
    /** All lines but the last are ended, and `lineCount` is the number of the line written next. */
    ghost predicate Valid() {
      && (forall i | 0 <= i < |lines| - 1 :: lines[i].eol)
      && lineCount == |lines| + (if lines == [] || Last().eol then 1 else 0)
      && (locs != [] ==> lines != [])
      && (forall i | 0 <= i < |locs| :: Named(locs[i].start) && Named(locs[i].end))
    }

    function Last(): Line
      requires lines != []
    {
      lines[|lines| - 1]
    }

    predicate Named(p: LinePos) { 1 <= p.line <= lineCount }

    /** The position that is written next. */
    function Here(): LinePos
      requires lines != []
    {
      LinePos(lineCount, |Last().content|)
    }

    /** The ended lines, which nothing changes any more. */
    function Ended(): seq<Line> {
      if lines == [] || Last().eol then lines else lines[..|lines| - 1]
    }
  }

  function Empty<Loc>(): Doc<Loc> { Doc([], 1, 0, false, []) }

  // ---------------------------------------------------------------------
  // Text and positions
  // ---------------------------------------------------------------------

  function LineText(l: Line): string { if l.eol then l.content + "\n" else l.content }

  /** The text without indentation. */
  function Plain(lines: seq<Line>): string {
    if lines == [] then "" else Plain(lines[..|lines| - 1]) + LineText(lines[|lines| - 1])
  }

  /** The place of a position in the text without indentation. */
  function PlainAt(lines: seq<Line>, p: LinePos): nat
    requires 1 <= p.line <= |lines| + 1
  {
    |Plain(lines[..p.line - 1])| + p.pos
  }

  /** A position in the content of a line, or at its end. */
  predicate Inside(lines: seq<Line>, p: LinePos) {
    1 <= p.line <= |lines| && p.pos <= |lines[p.line - 1].content|
  }

  lemma PlainSnoc(lines: seq<Line>, l: Line)
    ensures Plain(lines + [l]) == Plain(lines) + LineText(l)
  {
    assert (lines + [l])[..|lines|] == lines;
  }

  // ---------------------------------------------------------------------
  // Writing
  // ---------------------------------------------------------------------

  /** Opens a line when there is none to write on. */
  function Opened<Loc>(d: Doc<Loc>): Doc<Loc> {
    if d.lines == [] || d.Last().eol then d.(lines := d.lines + [Line("", d.indent, false, d.noIndent)]) else d
  }

  function ReplaceLast(lines: seq<Line>, l: Line): seq<Line>
    requires lines != []
  {
    lines[..|lines| - 1] + [l]
  }

  function Put<Loc>(d: Doc<Loc>, text: string): Doc<Loc> {
    var o := Opened(d);
    o.(lines := ReplaceLast(o.lines, o.Last().(content := o.Last().content + text)))
  }

  function Break<Loc>(d: Doc<Loc>): Doc<Loc> {
    var o := Opened(d);
    o.(lines := ReplaceLast(o.lines, o.Last().(eol := true)), lineCount := o.lineCount + 1)
  }

  /** Records a scope that started at `start` and ends here. */
  function Record<Loc>(d: Doc<Loc>, loc: Loc, start: LinePos): Doc<Loc>
    requires d.lines != []
  {
    d.(locs := d.locs + [LocEntry(loc, start, d.Here())])
  }

  function Deeper<Loc>(d: Doc<Loc>, steps: nat): Doc<Loc> { d.(indent := d.indent + steps) }

  /** Leaving an indentation also moves an open line that is still empty. */
  function Shallower<Loc>(d: Doc<Loc>, steps: nat): Doc<Loc> {
    var e := d.(indent := if d.indent < steps then 0 else d.indent - steps);
    if e.lines != [] && !e.Last().eol && e.Last().content == ""
    then e.(lines := ReplaceLast(e.lines, e.Last().(indent := e.indent))) else e
  }

  /** A whole line without indentation. */
  function Bare<Loc>(d: Doc<Loc>, text: string): Doc<Loc> {
    Break(Put(d.(indent := 0, noIndent := true), text)).(indent := d.indent, noIndent := false)
  }

  // ---------------------------------------------------------------------
  // Merging
  // ---------------------------------------------------------------------

  function Lift(l: Line, indent: nat): Line {
    if l.noIndent then l else l.(indent := l.indent + indent)
  }

  function Join(last: Line, l: Line): Line {
    last.(indent := if last.content == "" then l.indent else last.indent, content := last.content + l.content, eol := l.eol)
  }

  /** The lines after one line of the other document was merged. */
  function MergeLine(lines: seq<Line>, l: Line): (r: seq<Line>)
    requires lines != []
    ensures r != []
  {
    var last := lines[|lines| - 1];
    if last.eol then lines + [l] else ReplaceLast(lines, Join(last, l))
  }

  /** The lines after the first `k` lines of the other document were merged. */
  function MergeLines(lines: seq<Line>, others: seq<Line>, indent: nat, k: nat): (r: seq<Line>)
    requires lines != [] && k <= |others|
    ensures r != []
  {
    if k == 0 then lines else MergeLine(MergeLines(lines, others, indent, k - 1), Lift(others[k - 1], indent))
  }

  function Shift(p: LinePos, lines: nat, columns: nat): LinePos {
    LinePos(p.line + lines, if p.line == 1 then p.pos + columns else p.pos)
  }

  function ShiftEntry<Loc>(e: LocEntry<Loc>, lines: nat, columns: nat): LocEntry<Loc> {
    e.(start := Shift(e.start, lines, columns), end := Shift(e.end, lines, columns))
  }

  function Shifted<Loc>(es: seq<LocEntry<Loc>>, lines: nat, columns: nat): (r: seq<LocEntry<Loc>>)
    ensures |r| == |es| && forall i | 0 <= i < |es| :: r[i] == ShiftEntry(es[i], lines, columns)
  {
    seq(|es|, i requires 0 <= i < |es| => ShiftEntry(es[i], lines, columns))
  }

  /** One document after another: the first line of the other goes on where this one stands. */
  function Merge<Loc>(d: Doc<Loc>, other: Doc<Loc>): Doc<Loc>
    requires d.lineCount >= 1 && other.lineCount >= 1
  {
    var o := Opened(d);
    var columns := if other.lines == [] then 0 else |o.Last().content|;
    o.(lines := MergeLines(o.lines, other.lines, o.indent, |other.lines|),
       locs := o.locs + Shifted(other.locs, o.lineCount - 1, columns),
       lineCount := o.lineCount + other.lineCount - 1)
  }

  /** What merging does to the lines of a well-formed document: the first is joined, the others are added. */
  lemma {:induction false} MergedLines(lines: seq<Line>, others: seq<Line>, indent: nat, k: nat)
    requires lines != [] && !lines[|lines| - 1].eol && 1 <= k <= |others|
    requires forall i | 0 <= i < |others| - 1 :: others[i].eol
    ensures var r := MergeLines(lines, others, indent, k);
            && |r| == |lines| - 1 + k && r[..|lines| - 1] == lines[..|lines| - 1]
            && r[|lines| - 1] == Join(lines[|lines| - 1], Lift(others[0], indent))
            && forall i | 1 <= i < k :: r[|lines| - 1 + i] == Lift(others[i], indent)
  {
    var n := |lines|;
    if k == 1 {
      assert MergeLines(lines, others, indent, 0) == lines;
    } else {
      MergedLines(lines, others, indent, k - 1);
      var before := MergeLines(lines, others, indent, k - 1);
      var last := before[|before| - 1];
      assert last == if k == 2 then Join(lines[n - 1], Lift(others[0], indent)) else Lift(others[k - 2], indent);
      assert others[k - 2].eol;
      assert MergeLines(lines, others, indent, k) == before + [Lift(others[k - 1], indent)];
    }
  }

  lemma Assoc(a: string, b: string, c: string)
    ensures a + (b + c) == a + b + c
  {
  }

  lemma PlainLast(lines: seq<Line>)
    requires lines != []
    ensures Plain(lines) == Plain(lines[..|lines| - 1]) + LineText(lines[|lines| - 1])
  {
  }

  /** Changing the open line changes the end of the text. */
  lemma OpenLine(lines: seq<Line>, l: Line, more: string)
    requires lines != [] && !lines[|lines| - 1].eol && LineText(l) == lines[|lines| - 1].content + more
    ensures Plain(ReplaceLast(lines, l)) == Plain(lines) + more
  {
    hide Plain;
    var front, last := lines[..|lines| - 1], lines[|lines| - 1];
    PlainLast(lines);
    PlainSnoc(front, l);
    assert LineText(last) == last.content;
    hide LineText;
    Assoc(Plain(front), last.content, more);
  }

  lemma MergeLinePlain(lines: seq<Line>, l: Line)
    requires lines != []
    ensures Plain(MergeLine(lines, l)) == Plain(lines) + LineText(l)
  {
    hide Plain;
    var last := lines[|lines| - 1];
    if last.eol {
      PlainSnoc(lines, l);
    } else {
      Assoc(last.content, l.content, "\n");
      OpenLine(lines, Join(last, l), LineText(l));
    }
  }

  /** Merging puts the other text behind this one. */
  lemma {:induction false} MergedPlain(lines: seq<Line>, others: seq<Line>, indent: nat, k: nat)
    requires lines != [] && k <= |others|
    ensures Plain(MergeLines(lines, others, indent, k)) == Plain(lines) + Plain(others[..k])
  {
    hide Plain, MergeLine;
    if k == 0 {
      assert others[..0] == [];
      assert Plain([]) == "" by { PlainEmpty(); }
    } else {
      var before, l := MergeLines(lines, others, indent, k - 1), Lift(others[k - 1], indent);
      MergedPlain(lines, others, indent, k - 1);
      MergeLinePlain(before, l);
      assert others[..k] == others[..k - 1] + [others[k - 1]];
      PlainSnoc(others[..k - 1], others[k - 1]);
      assert LineText(l) == LineText(others[k - 1]);
      Assoc(Plain(lines), Plain(others[..k - 1]), LineText(l));
    }
  }

  lemma PlainEmpty()
    ensures Plain([]) == ""
  {
  }

  // ---------------------------------------------------------------------
  // What every operation keeps
  // ---------------------------------------------------------------------

  /** The ended lines and the recorded entries of `d` are still there, and its last line may only have grown. */
  ghost predicate Keeps<Loc>(d: Doc<Loc>, e: Doc<Loc>)
    requires d.Valid() && e.Valid()
  {
    && d.Ended() <= e.Ended() && d.locs <= e.locs
    && (d.lines != [] ==> |d.lines| <= |e.lines| && d.Last().content <= e.lines[|d.lines| - 1].content)
  }

  /** So every position recorded in it stays where it was in the text. */
  lemma KeptPosition<Loc>(d: Doc<Loc>, e: Doc<Loc>, p: LinePos)
    requires d.Valid() && e.Valid() && Keeps(d, e) && d.Named(p)
    ensures e.Named(p) && PlainAt(e.lines, p) == PlainAt(d.lines, p)
  {
    hide Plain;
    assert e.Ended()[..|d.Ended()|] == d.Ended();
    assert d.lines[..p.line - 1] == d.Ended()[..p.line - 1];
    assert e.lines[..p.line - 1] == e.Ended()[..|d.Ended()|][..p.line - 1];
  }

  /** And a position inside a line stays inside it. */
  lemma KeptInside<Loc>(d: Doc<Loc>, e: Doc<Loc>, p: LinePos)
    requires d.Valid() && e.Valid() && Keeps(d, e) && Inside(d.lines, p)
    ensures Inside(e.lines, p)
  {
    var i := p.line - 1;
    if i < |d.Ended()| {
      assert e.lines[i] == e.Ended()[i] == d.Ended()[i];
    }
  }

  lemma OpenedValid<Loc>(d: Doc<Loc>)
    requires d.Valid()
    ensures Opened(d).Valid() && Opened(d).Ended() == d.Ended()
    ensures Opened(d).lines != [] && !Opened(d).Last().eol && Opened(d).locs == d.locs && Opened(d).lineCount == d.lineCount
  {
    if d.lines == [] || d.Last().eol {
      assert Opened(d).lines[..|d.lines|] == d.lines;
    }
  }

  lemma OpenedKeeps<Loc>(d: Doc<Loc>)
    requires d.Valid()
    ensures Opened(d).Valid() && Keeps(d, Opened(d))
  {
    OpenedValid(d);
  }

  lemma OpenedPlain<Loc>(d: Doc<Loc>)
    requires d.Valid()
    ensures Plain(Opened(d).lines) == Plain(d.lines)
  {
    hide Plain;
    PlainSnoc(d.lines, Line("", d.indent, false, d.noIndent));
    assert Plain(d.lines) + "" == Plain(d.lines);
  }

  /** The position written next is the end of the text, unless a line with content was just ended. */
  lemma HereIsEnd<Loc>(d: Doc<Loc>)
    requires d.Valid() && d.lines != []
    ensures PlainAt(d.lines, d.Here()) == |Plain(d.lines)| <==> !d.Last().eol || d.Last().content == ""
  {
    if d.Last().eol {
      assert d.lines[..d.lineCount - 1] == d.lines;
    }
  }

  lemma SlicePrefix<T>(s: seq<T>, t: seq<T>, n: nat, m: nat)
    requires n <= |s| && n <= m <= |t| && t[..n] == s[..n]
    ensures s[..n] <= t[..m]
  {
    assert t[..m][..n] == t[..n];
  }

  lemma KeepsBoth<Loc>(d: Doc<Loc>, e: Doc<Loc>, f: Doc<Loc>)
    requires d.Valid() && e.Valid() && f.Valid() && Keeps(d, e) && Keeps(e, f)
    ensures Keeps(d, f)
  {
  }

  /** Changing the open line so that its content only grows. */
  lemma ReplaceKeeps<Loc>(d: Doc<Loc>, e: Doc<Loc>, l: Line)
    requires d.Valid() && d.lines != [] && !d.Last().eol && d.Last().content <= l.content
    requires e.lines == ReplaceLast(d.lines, l) && e.locs == d.locs
    requires e.lineCount == if l.eol then d.lineCount + 1 else d.lineCount
    ensures e.Valid() && Keeps(d, e)
  {
    var n := |d.lines| - 1;
    assert e.lines[..n] == d.lines[..n];
    forall i | 0 <= i < n ensures e.lines[i].eol {
      assert e.lines[i] == e.lines[..n][i] == d.lines[..n][i];
    }
    SlicePrefix(d.lines, e.lines, n, |e.Ended()|);
    assert e.lines[..|e.Ended()|] == e.Ended();
  }

  lemma PutKeeps<Loc>(d: Doc<Loc>, text: string)
    requires d.Valid()
    ensures Put(d, text).Valid() && Keeps(d, Put(d, text)) && Put(d, text).locs == d.locs
  {
    hide Opened, Keeps;
    OpenedKeeps(d);
    OpenedValid(d);
    ReplaceKeeps(Opened(d), Put(d, text), Put(d, text).Last());
    KeepsBoth(d, Opened(d), Put(d, text));
  }

  lemma PutPlain<Loc>(d: Doc<Loc>, text: string)
    requires d.Valid()
    ensures Plain(Put(d, text).lines) == Plain(d.lines) + text
  {
    hide Plain;
    OpenedValid(d);
    OpenedPlain(d);
    OpenLine(Opened(d).lines, Put(d, text).Last(), text);
  }

  lemma BreakKeeps<Loc>(d: Doc<Loc>)
    requires d.Valid()
    ensures Break(d).Valid() && Keeps(d, Break(d)) && Break(d).locs == d.locs
  {
    hide Opened, Keeps;
    OpenedKeeps(d);
    OpenedValid(d);
    ReplaceKeeps(Opened(d), Break(d), Break(d).Last());
    KeepsBoth(d, Opened(d), Break(d));
  }

  lemma BreakPlain<Loc>(d: Doc<Loc>)
    requires d.Valid()
    ensures Plain(Break(d).lines) == Plain(d.lines) + "\n"
  {
    hide Plain;
    OpenedValid(d);
    OpenedPlain(d);
    OpenLine(Opened(d).lines, Break(d).Last(), "\n");
  }

  lemma RecordKeeps<Loc>(d: Doc<Loc>, loc: Loc, start: LinePos)
    requires d.Valid() && d.lines != [] && d.Named(start)
    ensures Record(d, loc, start).Valid() && Keeps(d, Record(d, loc, start))
  {
    assert Record(d, loc, start).Ended() == d.Ended();
  }

  lemma ShallowerKeeps<Loc>(d: Doc<Loc>, steps: nat)
    requires d.Valid()
    ensures Shallower(d, steps).Valid() && Keeps(d, Shallower(d, steps)) && Shallower(d, steps).locs == d.locs
  {
    var r := Shallower(d, steps);
    if d.lines != [] && !d.Last().eol && d.Last().content == "" {
      ReplaceKeeps(d, r, r.Last());
    }
  }

  lemma ShallowerPlain<Loc>(d: Doc<Loc>, steps: nat)
    requires d.Valid()
    ensures Plain(Shallower(d, steps).lines) == Plain(d.lines)
  {
    hide Plain;
    if d.lines != [] && !d.Last().eol && d.Last().content == "" {
      OpenLine(d.lines, Shallower(d, steps).Last(), "");
      assert Plain(d.lines) + "" == Plain(d.lines);
    }
  }

  lemma MergeNone(lines: seq<Line>, indent: nat)
    requires lines != []
    ensures MergeLines(lines, [], indent, 0) == lines
  {
  }

  lemma MergePlain<Loc>(d: Doc<Loc>, other: Doc<Loc>)
    requires d.Valid() && other.Valid()
    ensures Plain(Merge(d, other).lines) == Plain(d.lines) + Plain(other.lines)
  {
    hide Plain, MergeLines;
    OpenedValid(d);
    OpenedPlain(d);
    MergedPlain(Opened(d).lines, other.lines, Opened(d).indent, |other.lines|);
    assert other.lines[..|other.lines|] == other.lines;
  }

  /** The entries of both documents name lines of the merged one. */
  lemma MergeNames<Loc>(d: Doc<Loc>, other: Doc<Loc>, i: nat)
    requires d.Valid() && other.Valid() && i < |Merge(d, other).locs|
    ensures var r := Merge(d, other); r.Named(r.locs[i].start) && r.Named(r.locs[i].end)
  {
    hide MergeLines;
    OpenedValid(d);
    var o, r := Opened(d), Merge(d, other);
    if i < |o.locs| {
      assert r.locs[i] == o.locs[i];
    } else {
      var e := other.locs[i - |o.locs|];
      assert other.Named(e.start) && other.Named(e.end);
    }
  }

  lemma MergeValid<Loc>(d: Doc<Loc>, other: Doc<Loc>)
    requires d.Valid() && other.Valid()
    ensures Merge(d, other).Valid()
  {
    hide MergeLines, Opened;
    OpenedValid(d);
    var o, r, n := Opened(d), Merge(d, other), |Opened(d).lines|;
    forall i | 0 <= i < |r.locs| ensures r.Named(r.locs[i].start) && r.Named(r.locs[i].end) { MergeNames(d, other, i); }
    if other.lines == [] {
      MergeNone(o.lines, o.indent);
    } else {
      MergedLines(o.lines, other.lines, o.indent, |other.lines|);
      forall i | 0 <= i < |r.lines| - 1 ensures r.lines[i].eol {
        if i < n - 1 {
          assert r.lines[i] == r.lines[..n - 1][i] == o.lines[..n - 1][i];
        } else {
          assert other.lines[i - (n - 1)].eol;
        }
      }
    }
  }

  lemma MergeKeepsOpened<Loc>(o: Doc<Loc>, other: Doc<Loc>)
    requires o.Valid() && o.lines != [] && !o.Last().eol && other.Valid()
    ensures Merge(o, other).Valid() && Keeps(o, Merge(o, other))
  {
    hide MergeLines;
    MergeValid(o, other);
    var r, n := Merge(o, other), |o.lines|;
    if other.lines == [] {
      MergeNone(o.lines, o.indent);
      assert r.Ended() == o.Ended();
    } else {
      MergedLines(o.lines, other.lines, o.indent, |other.lines|);
      SlicePrefix(o.lines, r.lines, n - 1, |r.Ended()|);
      assert r.lines[..|r.Ended()|] == r.Ended();
    }
  }

  /** Merging keeps this document's ended lines and entries. */
  lemma MergeKeeps<Loc>(d: Doc<Loc>, other: Doc<Loc>)
    requires d.Valid() && other.Valid()
    ensures Merge(d, other).Valid() && Keeps(d, Merge(d, other))
  {
    hide MergeLines, Keeps;
    OpenedKeeps(d);
    OpenedValid(d);
    MergeKeepsOpened(Opened(d), other);
    KeepsBoth(d, Opened(d), Merge(Opened(d), other));
  }

  lemma MergedPrefix(lines: seq<Line>, others: seq<Line>, indent: nat, k: nat)
    requires lines != [] && !lines[|lines| - 1].eol && 1 <= k <= |others|
    requires forall i | 0 <= i < |others| - 1 :: others[i].eol
    ensures |MergeLines(lines, others, indent, |others|)| == |lines| - 1 + |others|
    ensures MergeLines(lines, others, indent, |others|)[..|lines| - 1 + k] == MergeLines(lines, others, indent, k)
  {
    hide MergeLines;
    MergedLines(lines, others, indent, k);
    MergedLines(lines, others, indent, |others|);
    var a, b, n := MergeLines(lines, others, indent, |others|), MergeLines(lines, others, indent, k), |lines|;
    forall i | 0 <= i < n - 1 + k ensures a[i] == b[i] {
      if i < n - 1 {
        assert a[i] == a[..n - 1][i] && b[i] == b[..n - 1][i];
      } else if i > n - 1 {
        var j := i - (n - 1);
        assert a[n - 1 + j] == Lift(others[j], indent) && b[n - 1 + j] == Lift(others[j], indent);
      }
    }
  }

  /** A position of the other document is found behind this document's text. */
  lemma MergedPosition<Loc>(d: Doc<Loc>, other: Doc<Loc>, p: LinePos)
    requires d.Valid() && other.Valid() && other.lines != [] && other.Named(p)
    ensures var q := Shift(p, d.lineCount - 1, |Opened(d).Last().content|);
            Merge(d, other).Valid() && Merge(d, other).Named(q)
            && PlainAt(Merge(d, other).lines, q) == |Plain(d.lines)| + PlainAt(other.lines, p)
  {
    hide Plain, MergeLines;
    MergeKeeps(d, other);
    OpenedValid(d);
    OpenedPlain(d);
    if p.line == 1 {
      MergedFirst(d, other);
    } else {
      MergedPrefix(Opened(d).lines, other.lines, d.indent, p.line - 1);
      MergedPlain(Opened(d).lines, other.lines, d.indent, p.line - 1);
    }
  }

  /** The first line of the other document begins at the end of this text. */
  lemma MergedFirst<Loc>(d: Doc<Loc>, other: Doc<Loc>)
    requires d.Valid() && other.Valid() && other.lines != []
    ensures Merge(d, other).lineCount >= d.lineCount >= 1 && |Merge(d, other).lines| >= d.lineCount - 1
    ensures |Plain(Merge(d, other).lines[..d.lineCount - 1])| + |Opened(d).Last().content| == |Plain(d.lines)|
    ensures Plain(other.lines[..0]) == ""
  {
    hide Plain, MergeLines, Opened;
    OpenedValid(d);
    OpenedPlain(d);
    var o := Opened(d);
    var n := |o.lines|;
    MergedLines(o.lines, other.lines, o.indent, |other.lines|);
    assert o.lines == o.lines[..n - 1] + [o.Last()];
    PlainSnoc(o.lines[..n - 1], o.Last());
    assert other.lines[..0] == [];
    PlainEmpty();
  }

  // ---------------------------------------------------------------------
  // Indentation
  // ---------------------------------------------------------------------

  /** Writing and ending lines keep the level of every line; a line they open has the current one. */
  lemma WritesKeepLevels<Loc>(d: Doc<Loc>, text: string, i: nat)
    requires d.Valid() && i < |Put(d, text).lines|
    ensures |Put(d, text).lines| == |Break(d).lines| == if d.lines == [] || d.Last().eol then |d.lines| + 1 else |d.lines|
    ensures Put(d, text).lines[i].indent == Break(d).lines[i].indent == if i < |d.lines| then d.lines[i].indent else d.indent
  {
  }

  /** A line written without indentation at the start of a line is never indented, and the level is as before. */
  lemma BareLevel<Loc>(d: Doc<Loc>, text: string)
    requires d.Valid() && (d.lines == [] || d.Last().eol)
    ensures Bare(d, text).lines == d.lines + [Line(text, 0, true, true)]
    ensures Bare(d, text).indent == d.indent && !Bare(d, text).noIndent
  {
    var o := Opened(d.(indent := 0, noIndent := true));
    assert o.lines[..|o.lines| - 1] == d.lines;
    assert "" + text == text;
  }

  /** Ending an indentation only moves an open line without content, to the level outside. */
  lemma ShallowerLevels<Loc>(d: Doc<Loc>, steps: nat, i: nat)
    requires d.Valid() && i < |d.lines|
    ensures |Shallower(Deeper(d, steps), steps).lines| == |d.lines|
    ensures Shallower(Deeper(d, steps), steps).lines[i].indent
         == if i + 1 == |d.lines| && !d.lines[i].eol && d.lines[i].content == "" then d.indent else d.lines[i].indent
    ensures Shallower(Deeper(d, steps), steps).indent == d.indent
  {
  }

  /** The levels of merged lines: deeper by the current level, unless the line is never indented or joined to one with content. */
  lemma MergedLevels<Loc>(d: Doc<Loc>, other: Doc<Loc>, i: nat)
    requires d.Valid() && other.Valid() && i < |other.lines|
    ensures var o, l := Opened(d), other.lines[i];
            var level := if l.noIndent then l.indent else l.indent + d.indent;
            && |Merge(d, other).lines| == |o.lines| - 1 + |other.lines|
            && var m := Merge(d, other).lines[|o.lines| - 1 + i];
               && m.eol == l.eol
               && (i > 0 ==> m.content == l.content && m.indent == level)
               && (i == 0 ==> m.content == o.Last().content + l.content
                              && m.indent == if o.Last().content == "" then level else o.Last().indent)
  {
    hide MergeLines;
    OpenedValid(d);
    MergedLines(Opened(d).lines, other.lines, d.indent, |other.lines|);
  }

  /** A position inside a line of the other document is inside that line of the merged one. */
  lemma MergedInside<Loc>(d: Doc<Loc>, other: Doc<Loc>, p: LinePos)
    requires d.Valid() && other.Valid() && Inside(other.lines, p)
    ensures Inside(Merge(d, other).lines, Shift(p, d.lineCount - 1, |Opened(d).Last().content|))
  {
    hide Opened, Merge;
    OpenedValid(d);
    MergedLevels(d, other, p.line - 1);
  }
}
