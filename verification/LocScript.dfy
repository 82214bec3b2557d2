/**
 Any program that uses the writer, as nested operations, and the text and the
 source map it must produce.
 */
module LocScript {
  import opened LocText

  datatype Op<Loc> =
    | Text(text: string)
    | NewLine
    | BareLine(text: string)
    | Indented(steps: nat, body: seq<Op<Loc>>)
    | Located(loc: Loc, body: seq<Op<Loc>>)
    | Merged(body: seq<Op<Loc>>)   // written to a writer of its own, then merged

  /** The end of an indentation around what made `e`. */
  function Dedented<Loc>(d: Doc<Loc>, steps: nat, e: Doc<Loc>): (r: Doc<Loc>)
    requires d.Valid() && e.Valid() && Keeps(d, e)
    ensures r == Shallower(e, steps) && r.Valid() && Keeps(d, r)
  {
    ShallowerKeeps(e, steps);
    KeepsBoth(d, e, Shallower(e, steps));
    Shallower(e, steps)
  }

  /** The end of a scope around what made `e`. */
  function Closed<Loc>(d: Doc<Loc>, loc: Loc, e: Doc<Loc>): (r: Doc<Loc>)
    requires d.Valid() && Opened(d).Valid() && Opened(d).lines != [] && e.Valid() && Keeps(Opened(d), e) && e.lines != []
    ensures r == Record(e, loc, Opened(d).Here()) && r.Valid() && Keeps(d, r)
  {
    OpenedKeeps(d);
    RecordKeeps(e, loc, Opened(d).Here());
    KeepsBoth(Opened(d), e, Record(e, loc, Opened(d).Here()));
    KeepsBoth(d, Opened(d), Record(e, loc, Opened(d).Here()));
    Record(e, loc, Opened(d).Here())
  }

  /** The document after one operation. */
  function Do<Loc>(d: Doc<Loc>, op: Op<Loc>): (r: Doc<Loc>)
    requires d.Valid()
    ensures r.Valid() && Keeps(d, r)
    decreases op
  {
    match op
    case Text(text) => PutKeeps(d, text); Put(d, text)
    case NewLine => BreakKeeps(d); Break(d)
    case BareLine(text) => BareKeeps(d, text); Bare(d, text)
    case Indented(steps, body) =>
      KeepsItself(d, Deeper(d, steps));
      KeepsBoth(d, Deeper(d, steps), DoAll(Deeper(d, steps), body, |body|));
      Dedented(d, steps, DoAll(Deeper(d, steps), body, |body|))
    case Located(loc, body) =>
      OpenedValid(d);
      Closed(d, loc, DoAll(Opened(d), body, |body|))
    case Merged(body) =>
      MergeKeeps(d, DoAll(Empty(), body, |body|));
      Merge(d, DoAll(Empty(), body, |body|))
  }

  /** The document after the first `k` operations. */
  function DoAll<Loc>(d: Doc<Loc>, ops: seq<Op<Loc>>, k: nat): (r: Doc<Loc>)
    requires d.Valid() && k <= |ops|
    ensures r.Valid() && Keeps(d, r) && (d.lines != [] ==> r.lines != [])
    decreases ops, k
  {
    if k == 0 then d
    else
      var e := DoAll(d, ops, k - 1);
      KeepsBoth(d, e, Do(e, ops[k - 1]));
      Do(e, ops[k - 1])
  }

  lemma KeepsItself<Loc>(d: Doc<Loc>, e: Doc<Loc>)
    requires d.Valid() && e.lines == d.lines && e.locs == d.locs && e.lineCount == d.lineCount
    ensures e.Valid() && Keeps(d, e)
  {
  }

  lemma BareKeeps<Loc>(d: Doc<Loc>, text: string)
    requires d.Valid()
    ensures Bare(d, text).Valid() && Keeps(d, Bare(d, text)) && Bare(d, text).locs == d.locs
  {
    hide Put, Break, Keeps;
    var plain := d.(indent := 0, noIndent := true);
    assert Keeps(d, plain) by { KeepsItself(d, plain); }
    PutKeeps(plain, text);
    BreakKeeps(Put(plain, text));
    KeepsBoth(plain, Put(plain, text), Break(Put(plain, text)));
    KeepsBoth(d, plain, Break(Put(plain, text)));
    KeepsItself(Break(Put(plain, text)), Bare(d, text));
    KeepsBoth(d, Break(Put(plain, text)), Bare(d, text));
  }

  // ---------------------------------------------------------------------
  // The text of a program
  // ---------------------------------------------------------------------

  function TextOf<Loc>(op: Op<Loc>): string
    decreases op
  {
    match op
    case Text(text) => text
    case NewLine => "\n"
    case BareLine(text) => text + "\n"
    case Indented(_, body) => TextsOf(body, |body|)
    case Located(_, body) => TextsOf(body, |body|)
    case Merged(body) => TextsOf(body, |body|)
  }

  function TextsOf<Loc>(ops: seq<Op<Loc>>, k: nat): string
    requires k <= |ops|
    decreases ops, k
  {
    if k == 0 then "" else TextsOf(ops, k - 1) + TextOf(ops[k - 1])
  }

  lemma BarePlain<Loc>(d: Doc<Loc>, text: string)
    requires d.Valid()
    ensures Plain(Bare(d, text).lines) == Plain(d.lines) + (text + "\n")
  {
    hide Plain, Put, Break;
    var plain := d.(indent := 0, noIndent := true);
    PutKeeps(plain, text);
    PutPlain(plain, text);
    BreakPlain(Put(plain, text));
    Assoc(Plain(d.lines), text, "\n");
  }

  /** Whatever is nested or merged, the text without indentation is what was written, in order. */
  lemma {:induction false} ScriptText<Loc>(d: Doc<Loc>, op: Op<Loc>)
    requires d.Valid()
    ensures Plain(Do(d, op).lines) == Plain(d.lines) + TextOf(op)
    decreases op
  {
    hide Plain, Put, Break, Bare, Merge, Shallower;
    match op
    case Text(text) => PutPlain(d, text);
    case NewLine => BreakPlain(d);
    case BareLine(text) => BarePlain(d, text);
    case Indented(steps, body) =>
      ScriptTexts(Deeper(d, steps), body, |body|);
      ShallowerPlain(DoAll(Deeper(d, steps), body, |body|), steps);
    case Located(loc, body) =>
      OpenedValid(d);
      OpenedPlain(d);
      ScriptTexts(Opened(d), body, |body|);
    case Merged(body) =>
      ScriptTexts(Empty<Loc>(), body, |body|);
      MergePlain(d, DoAll(Empty(), body, |body|));
      PlainEmpty();
      assert "" + TextsOf(body, |body|) == TextsOf(body, |body|);
  }

  lemma NoText<Loc>(d: Doc<Loc>, ops: seq<Op<Loc>>)
    requires d.Valid()
    ensures DoAll(d, ops, 0) == d && TextsOf(ops, 0) == ""
  {
  }

  lemma LastText<Loc>(d: Doc<Loc>, ops: seq<Op<Loc>>, k: nat)
    requires d.Valid() && 1 <= k <= |ops|
    ensures DoAll(d, ops, k) == Do(DoAll(d, ops, k - 1), ops[k - 1])
    ensures TextsOf(ops, k) == TextsOf(ops, k - 1) + TextOf(ops[k - 1])
  {
    hide Do, TextOf;
  }

  lemma {:induction false} ScriptTexts<Loc>(d: Doc<Loc>, ops: seq<Op<Loc>>, k: nat)
    requires d.Valid() && k <= |ops|
    ensures Plain(DoAll(d, ops, k).lines) == Plain(d.lines) + TextsOf(ops, k)
    decreases ops, k
  {
    hide Plain, Do, DoAll, TextsOf, TextOf;
    if k == 0 {
      NoText(d, ops);
      assert Plain(d.lines) + "" == Plain(d.lines);
    } else {
      LastText(d, ops, k);
      ScriptTexts(d, ops, k - 1);
      ScriptText(DoAll(d, ops, k - 1), ops[k - 1]);
      Assoc(Plain(d.lines), TextsOf(ops, k - 1), TextOf(ops[k - 1]));
    }
  }

  // ---------------------------------------------------------------------
  // The source map of a program
  // ---------------------------------------------------------------------

  /** A located stretch of the text without indentation. */
  datatype Span<Loc> = Span(loc: Loc, start: nat, end: nat)

  function SpanOf<Loc>(lines: seq<Line>, e: LocEntry<Loc>): Span<Loc>
    requires 1 <= e.start.line <= |lines| + 1 && 1 <= e.end.line <= |lines| + 1
  {
    Span(e.loc, PlainAt(lines, e.start), PlainAt(lines, e.end))
  }

  /** Where the recorded entries lie in the text. */
  ghost function Resolve<Loc>(d: Doc<Loc>): (r: seq<Span<Loc>>)
    requires d.Valid()
    ensures |r| == |d.locs| && forall i | 0 <= i < |r| :: r[i] == SpanOf(d.lines, d.locs[i])
  {
    seq(|d.locs|, i requires 0 <= i < |d.locs| => SpanOf(d.lines, d.locs[i]))
  }

  /** Where the located parts of a program lie when its text begins at `at`, inner ones first. */
  function SpansOf<Loc>(op: Op<Loc>, at: nat): seq<Span<Loc>>
    decreases op
  {
    match op
    case Indented(_, body) => AllSpans(body, |body|, at)
    case Located(loc, body) => AllSpans(body, |body|, at) + [Span(loc, at, at + |TextsOf(body, |body|)|)]
    case Merged(body) => AllSpans(body, |body|, at)
    case _ => []
  }

  function AllSpans<Loc>(ops: seq<Op<Loc>>, k: nat, at: nat): seq<Span<Loc>>
    requires k <= |ops|
    decreases ops, k
  {
    if k == 0 then [] else AllSpans(ops, k - 1, at) + SpansOf(ops[k - 1], at + |TextsOf(ops, k - 1)|)
  }

  /** The end of the document is not right after the end of a line that has content. */
  predicate InLine<Loc>(d: Doc<Loc>)
    requires d.lines != []
  {
    !d.Last().eol || d.Last().content == ""
  }

  /** For each located part, in the same order: whether its own end is in a line. */
  ghost function Ends<Loc>(d: Doc<Loc>, op: Op<Loc>): seq<bool>
    requires d.Valid()
    decreases op
  {
    match op
    case Indented(steps, body) => AllEnds(Deeper(d, steps), body, |body|)
    case Located(_, body) =>
      OpenedValid(d);
      AllEnds(Opened(d), body, |body|) + [InLine(DoAll(Opened(d), body, |body|))]
    case Merged(body) => AllEnds(Empty(), body, |body|)
    case _ => []
  }

  ghost function AllEnds<Loc>(d: Doc<Loc>, ops: seq<Op<Loc>>, k: nat): seq<bool>
    requires d.Valid() && k <= |ops|
    decreases ops, k
  {
    if k == 0 then [] else AllEnds(d, ops, k - 1) + Ends(DoAll(d, ops, k - 1), ops[k - 1])
  }

  predicate OneLine<Loc>(e: LocEntry<Loc>) { e.start.line == e.end.line }

  /**
   An entry lies where it should, and its end does if and only if it is in a line.
   One that begins and ends on one line is in that line.
   */
  ghost predicate Right<Loc>(d: Doc<Loc>, i: nat, want: Span<Loc>, inLine: bool)
    requires d.Valid() && i < |d.locs|
  {
    var e := d.locs[i];
    && e.loc == want.loc && PlainAt(d.lines, e.start) == want.start
    && (PlainAt(d.lines, e.end) == want.end <==> inLine)
    && (OneLine(e) ==> inLine && Inside(d.lines, e.start) && Inside(d.lines, e.end) && e.start.pos <= e.end.pos)
  }

  /** The entries from `from` on lie where they should. */
  ghost predicate AllRight<Loc>(d: Doc<Loc>, from: nat, want: seq<Span<Loc>>, ends: seq<bool>)
    requires d.Valid()
  {
    && |want| == |ends| && from + |want| == |d.locs|
    && forall j | 0 <= j < |want| :: Right(d, from + j, want[j], ends[j])
  }

  lemma KeptRight<Loc>(d: Doc<Loc>, e: Doc<Loc>, i: nat, want: Span<Loc>, inLine: bool)
    requires d.Valid() && e.Valid() && Keeps(d, e) && i < |d.locs| && Right(d, i, want, inLine)
    ensures i < |e.locs| && e.locs[i] == d.locs[i] && Right(e, i, want, inLine)
  {
    hide Plain, PlainAt, Inside;
    var entry := d.locs[i];
    assert e.locs[i] == entry && d.Named(entry.start) && d.Named(entry.end);
    KeptPosition(d, e, entry.start);
    KeptPosition(d, e, entry.end);
    if OneLine(entry) {
      KeptInside(d, e, entry.start);
      KeptInside(d, e, entry.end);
    }
  }

  /** What comes after does not change the entries, and what is recorded then comes behind them. */
  lemma RightTogether<Loc>(d: Doc<Loc>, e: Doc<Loc>, from: nat,
                           want: seq<Span<Loc>>, ends: seq<bool>, want': seq<Span<Loc>>, ends': seq<bool>)
    requires d.Valid() && e.Valid() && Keeps(d, e)
    requires AllRight(d, from, want, ends) && AllRight(e, |d.locs|, want', ends')
    ensures AllRight(e, from, want + want', ends + ends')
  {
    hide Right, Keeps;
    forall j | 0 <= j < |want + want'| ensures Right(e, from + j, (want + want')[j], (ends + ends')[j]) {
      if j < |want| {
        KeptRight(d, e, from + j, want[j], ends[j]);
      } else {
        var k := j - |want|;
        assert Right(e, |d.locs| + k, want'[k], ends'[k]);
      }
    }
  }

  lemma NothingNew<Loc>(d: Doc<Loc>)
    requires d.Valid()
    ensures AllRight(d, |d.locs|, [], [])
  {
  }

  lemma StillRight<Loc>(d: Doc<Loc>, e: Doc<Loc>, from: nat, want: seq<Span<Loc>>, ends: seq<bool>)
    requires d.Valid() && e.Valid() && Keeps(d, e) && |e.locs| == |d.locs| && AllRight(d, from, want, ends)
    ensures AllRight(e, from, want, ends)
  {
    NothingNew(e);
    RightTogether(d, e, from, want, ends, [], []);
    assert want + [] == want && ends + [] == ends;
  }

  function MoveSpans<Loc>(s: seq<Span<Loc>>, n: nat): (r: seq<Span<Loc>>)
    ensures |r| == |s| && forall i | 0 <= i < |s| :: r[i] == Span(s[i].loc, s[i].start + n, s[i].end + n)
  {
    seq(|s|, i requires 0 <= i < |s| => Span(s[i].loc, s[i].start + n, s[i].end + n))
  }

  lemma MoveConcat<Loc>(a: seq<Span<Loc>>, b: seq<Span<Loc>>, n: nat)
    ensures MoveSpans(a + b, n) == MoveSpans(a, n) + MoveSpans(b, n)
  {
  }

  lemma {:induction false} SpansMove<Loc>(op: Op<Loc>, at: nat, n: nat)
    ensures SpansOf(op, at + n) == MoveSpans(SpansOf(op, at), n)
    decreases op
  {
    match op
    case Indented(_, body) => AllSpansMove(body, |body|, at, n);
    case Located(loc, body) => AllSpansMove(body, |body|, at, n);
    case Merged(body) => AllSpansMove(body, |body|, at, n);
    case _ =>
  }

  lemma {:induction false} AllSpansMove<Loc>(ops: seq<Op<Loc>>, k: nat, at: nat, n: nat)
    requires k <= |ops|
    ensures AllSpans(ops, k, at + n) == MoveSpans(AllSpans(ops, k, at), n)
    decreases ops, k
  {
    hide MoveSpans, SpansOf;
    if k == 0 {
      assert MoveSpans<Loc>([], n) == [];
    } else {
      AllSpansMove(ops, k - 1, at, n);
      SpansMove(ops[k - 1], at + |TextsOf(ops, k - 1)|, n);
      assert at + n + |TextsOf(ops, k - 1)| == at + |TextsOf(ops, k - 1)| + n;
      MoveConcat(AllSpans(ops, k - 1, at), SpansOf(ops[k - 1], at + |TextsOf(ops, k - 1)|), n);
    }
  }

  lemma MergedEntry<Loc>(d: Doc<Loc>, other: Doc<Loc>, i: nat)
    requires d.Valid() && other.Valid() && i < |other.locs|
    ensures |Merge(d, other).locs| == |d.locs| + |other.locs|
    ensures Merge(d, other).locs[|d.locs| + i] == ShiftEntry(other.locs[i], d.lineCount - 1, |Opened(d).Last().content|)
  {
    hide MergeLines, Opened;
    OpenedValid(d);
  }

  /** An entry of a merged document is as right in the whole as it was there. */
  lemma MergedRight<Loc>(d: Doc<Loc>, other: Doc<Loc>, i: nat, want: Span<Loc>, inLine: bool)
    requires d.Valid() && other.Valid() && i < |other.locs| && Right(other, i, want, inLine)
    ensures Merge(d, other).Valid() && |Merge(d, other).locs| == |d.locs| + |other.locs|
    ensures var n := |Plain(d.lines)|; Right(Merge(d, other), |d.locs| + i, Span(want.loc, want.start + n, want.end + n), inLine)
  {
    hide Plain, PlainAt, Inside, Merge, Opened, Keeps;
    MergeKeeps(d, other);
    MergedEntry(d, other, i);
    var e := other.locs[i];
    assert other.Named(e.start) && other.Named(e.end);
    MergedPosition(d, other, e.start);
    MergedPosition(d, other, e.end);
    if OneLine(e) {
      MergedInside(d, other, e.start);
      MergedInside(d, other, e.end);
    }
  }

  lemma AllMergedRight<Loc>(d: Doc<Loc>, other: Doc<Loc>, want: seq<Span<Loc>>, ends: seq<bool>)
    requires d.Valid() && other.Valid() && AllRight(other, 0, want, ends)
    ensures Merge(d, other).Valid() && AllRight(Merge(d, other), |d.locs|, MoveSpans(want, |Plain(d.lines)|), ends)
  {
    hide Plain, Right, Merge, MoveSpans;
    MergeKeeps(d, other);
    MergeCounts(d, other);
    forall j | 0 <= j < |want| ensures Right(Merge(d, other), |d.locs| + j, MoveSpans(want, |Plain(d.lines)|)[j], ends[j]) {
      assert Right(other, 0 + j, want[j], ends[j]);
      MergedRight(d, other, j, want[j], ends[j]);
    }
  }

  lemma MergeCounts<Loc>(d: Doc<Loc>, other: Doc<Loc>)
    requires d.Valid() && other.Valid()
    ensures |Merge(d, other).locs| == |d.locs| + |other.locs|
  {
    hide MergeLines, Opened;
    OpenedValid(d);
  }

  /** The entry of a scope that began at the end of `o`, when `e` grew out of `o`. */
  lemma RecordRight<Loc>(o: Doc<Loc>, e: Doc<Loc>, loc: Loc, length: nat)
    requires o.Valid() && o.lines != [] && !o.Last().eol && e.Valid() && e.lines != [] && Keeps(o, e)
    requires |Plain(e.lines)| == |Plain(o.lines)| + length
    ensures Record(e, loc, o.Here()).Valid() && Keeps(e, Record(e, loc, o.Here()))
    ensures AllRight(Record(e, loc, o.Here()), |e.locs|, [Span(loc, |Plain(o.lines)|, |Plain(o.lines)| + length)], [InLine(e)])
  {
    hide Plain, PlainAt;
    HereIsEnd(o);
    HereIsEnd(e);
    KeptPosition(o, e, o.Here());
    RecordKeeps(e, loc, o.Here());
    KeptInside(o, e, o.Here());
  }

  // ----- unfolding one operation -----

  lemma LocatedUnfolds<Loc>(d: Doc<Loc>, loc: Loc, body: seq<Op<Loc>>, at: nat)
    requires d.Valid() && Opened(d).Valid() && Opened(d).lines != []
    ensures var o, op := Opened(d), Located(loc, body);
            var e := DoAll(o, body, |body|);
            && Do(d, op) == Record(e, loc, o.Here())
            && SpansOf(op, at) == AllSpans(body, |body|, at) + [Span(loc, at, at + |TextsOf(body, |body|)|)]
            && Ends(d, op) == AllEnds(o, body, |body|) + [InLine(e)] && TextOf(op) == TextsOf(body, |body|)
  {
    hide Plain, Keeps, AllSpans, DoAll, AllEnds, TextsOf, InLine;
  }

  lemma MergedUnfolds<Loc>(d: Doc<Loc>, body: seq<Op<Loc>>, at: nat)
    requires d.Valid()
    ensures Do(d, Merged(body)) == Merge(d, DoAll(Empty(), body, |body|))
    ensures SpansOf(Merged(body), at) == AllSpans(body, |body|, at)
    ensures Ends(d, Merged(body)) == AllEnds(Empty(), body, |body|)
  {
    hide Plain, Merge, AllSpans, DoAll, AllEnds;
  }

  lemma IndentedUnfolds<Loc>(d: Doc<Loc>, steps: nat, body: seq<Op<Loc>>, at: nat)
    requires d.Valid()
    ensures Do(d, Indented(steps, body)) == Shallower(DoAll(Deeper(d, steps), body, |body|), steps)
    ensures SpansOf(Indented(steps, body), at) == AllSpans(body, |body|, at)
    ensures Ends(d, Indented(steps, body)) == AllEnds(Deeper(d, steps), body, |body|)
  {
    hide Plain, Shallower, AllSpans, DoAll, AllEnds;
  }

  lemma WriteUnfolds<Loc>(d: Doc<Loc>, op: Op<Loc>, at: nat)
    requires d.Valid() && (op.Text? || op.NewLine? || op.BareLine?)
    ensures Do(d, op) == if op.Text? then Put(d, op.text) else if op.BareLine? then Bare(d, op.text) else Break(d)
    ensures Do(d, op).locs == d.locs && SpansOf(op, at) == [] && Ends(d, op) == []
  {
    hide Put, Break, Bare, Keeps;
    match op
    case Text(text) => PutKeeps(d, text);
    case NewLine => BreakKeeps(d);
    case BareLine(text) => BareKeeps(d, text);
  }

  /** The last of `k` operations comes after the others. */
  lemma LastOp<Loc>(d: Doc<Loc>, ops: seq<Op<Loc>>, k: nat, at: nat)
    requires d.Valid() && 1 <= k <= |ops|
    ensures var e, op := DoAll(d, ops, k - 1), ops[k - 1];
            && DoAll(d, ops, k) == Do(e, op)
            && AllSpans(ops, k, at) == AllSpans(ops, k - 1, at) + SpansOf(op, at + |TextsOf(ops, k - 1)|)
            && AllEnds(d, ops, k) == AllEnds(d, ops, k - 1) + Ends(e, op)
  {
    hide Do, SpansOf, Ends, TextsOf;
  }

  lemma NoOp<Loc>(d: Doc<Loc>, ops: seq<Op<Loc>>, at: nat)
    requires d.Valid()
    ensures DoAll(d, ops, 0) == d && AllSpans(ops, 0, at) == [] && AllEnds(d, ops, 0) == []
  {
  }

  // ----- every entry of every program -----

  /**
   Every entry that an operation adds begins where the program says, and ends
   there if and only if its scope does not end right after the end of a line with
   content.
   */
  lemma {:induction false} EntriesRight<Loc>(d: Doc<Loc>, op: Op<Loc>)
    requires d.Valid()
    ensures AllRight(Do(d, op), |d.locs|, SpansOf(op, |Plain(d.lines)|), Ends(d, op))
    decreases op
  {
    hide Plain, Do, DoAll, SpansOf, AllSpans, Ends, AllEnds, AllRight, Keeps, Shallower, Merge;
    var at := |Plain(d.lines)|;
    match op
    case Indented(steps, body) =>
      var e := DoAll(Deeper(d, steps), body, |body|);
      IndentedUnfolds(d, steps, body, at);
      AllEntriesRight(Deeper(d, steps), body, |body|);
      ShallowerKeeps(e, steps);
      StillRight(e, Do(d, op), |d.locs|, AllSpans(body, |body|, at), AllEnds(Deeper(d, steps), body, |body|));
    case Located(loc, body) => LocatedRight(d, loc, body);
    case Merged(body) => MergedBodyRight(d, body);
    case _ =>
      WriteUnfolds(d, op, at);
      NothingNew(Do(d, op));
  }

  lemma LocatedRight<Loc>(d: Doc<Loc>, loc: Loc, body: seq<Op<Loc>>)
    requires d.Valid()
    ensures var op := Located(loc, body); AllRight(Do(d, op), |d.locs|, SpansOf(op, |Plain(d.lines)|), Ends(d, op))
    decreases body, |body| + 1
  {
    hide Plain, Do, DoAll, SpansOf, AllSpans, Ends, AllEnds, AllRight, Keeps, Opened, TextsOf, InLine;
    OpenedValid(d);
    OpenedPlain(d);
    var o, at, n := Opened(d), |Plain(d.lines)|, |body|;
    var e := DoAll(o, body, n);
    LocatedUnfolds(d, loc, body, at);
    AllEntriesRight(o, body, n);
    ScriptTexts(o, body, n);
    RecordRight(o, e, loc, |TextsOf(body, n)|);
    RightTogether(e, Record(e, loc, o.Here()), |d.locs|, AllSpans(body, n, at), AllEnds(o, body, n),
                  [Span(loc, at, at + |TextsOf(body, n)|)], [InLine(e)]);
  }

  lemma MergedBodyRight<Loc>(d: Doc<Loc>, body: seq<Op<Loc>>)
    requires d.Valid()
    ensures var op := Merged(body); AllRight(Do(d, op), |d.locs|, SpansOf(op, |Plain(d.lines)|), Ends(d, op))
    decreases body, |body| + 1
  {
    hide Plain, Do, DoAll, SpansOf, AllSpans, Ends, AllEnds, AllRight, Merge, MoveSpans;
    var none, n, at := Empty<Loc>(), |body|, |Plain(d.lines)|;
    MergedUnfolds(d, body, at);
    PlainEmpty();
    AllEntriesRight(none, body, n);
    AllMergedRight(d, DoAll(none, body, n), AllSpans(body, n, 0), AllEnds(none, body, n));
    AllSpansMove(body, n, 0, at);
  }

  lemma {:induction false} AllEntriesRight<Loc>(d: Doc<Loc>, ops: seq<Op<Loc>>, k: nat)
    requires d.Valid() && k <= |ops|
    ensures AllRight(DoAll(d, ops, k), |d.locs|, AllSpans(ops, k, |Plain(d.lines)|), AllEnds(d, ops, k))
    decreases ops, k
  {
    hide Plain, Do, DoAll, SpansOf, AllSpans, Ends, AllEnds, AllRight, Keeps, TextsOf;
    var at := |Plain(d.lines)|;
    if k == 0 {
      NoOp(d, ops, at);
      NothingNew(d);
    } else {
      var e, op := DoAll(d, ops, k - 1), ops[k - 1];
      LastOp(d, ops, k, at);
      AllEntriesRight(d, ops, k - 1);
      EntriesRight(e, op);
      ScriptTexts(d, ops, k - 1);
      RightTogether(e, Do(e, op), |d.locs|, AllSpans(ops, k - 1, at), AllEnds(d, ops, k - 1), SpansOf(op, |Plain(e.lines)|), Ends(e, op));
    }
  }

  // ----- the source map as a whole -----

  /** What a document recorded lies where it was in every document that grew out of it. */
  lemma KeptSpans<Loc>(d: Doc<Loc>, e: Doc<Loc>)
    requires d.Valid() && e.Valid() && Keeps(d, e)
    ensures |d.locs| <= |e.locs| && forall i | 0 <= i < |d.locs| :: Resolve(e)[i] == Resolve(d)[i]
  {
    hide Plain, PlainAt;
    forall i | 0 <= i < |d.locs| ensures Resolve(e)[i] == Resolve(d)[i] {
      assert e.locs[i] == d.locs[i] && d.Named(d.locs[i].start) && d.Named(d.locs[i].end);
      KeptPosition(d, e, d.locs[i].start);
      KeptPosition(d, e, d.locs[i].end);
    }
  }

  /**
   The source map of every program, from every document on, lies exactly where the
   program says, if and only if no located part ends right after the end of a line
   with content.
   */
  lemma {:induction false} SourceMap<Loc>(d: Doc<Loc>, ops: seq<Op<Loc>>)
    requires d.Valid()
    ensures var ends := AllEnds(d, ops, |ops|);
            Resolve(DoAll(d, ops, |ops|)) == Resolve(d) + AllSpans(ops, |ops|, |Plain(d.lines)|)
            <==> forall i | 0 <= i < |ends| :: ends[i]
  {
    hide Plain, PlainAt, DoAll, AllSpans, AllEnds, Inside, Keeps, Resolve;
    var e, want, ends := DoAll(d, ops, |ops|), AllSpans(ops, |ops|, |Plain(d.lines)|), AllEnds(d, ops, |ops|);
    var n := |d.locs|;
    AllEntriesRight(d, ops, |ops|);
    KeptSpans(d, e);
    forall i | 0 <= i < |ends| ensures Resolve(e)[n + i] == want[i] <==> ends[i] {
      assert Right(e, n + i, want[i], ends[i]);
    }
    Behind(Resolve(e), Resolve(d), want, ends);
  }

  /** A sequence behind another one, compared entry by entry. */
  lemma Behind<T>(s: seq<T>, front: seq<T>, want: seq<T>, same: seq<bool>)
    requires |s| == |front| + |want| && |same| == |want| && forall i | 0 <= i < |front| :: s[i] == front[i]
    requires forall i | 0 <= i < |want| :: s[|front| + i] == want[i] <==> same[i]
    ensures s == front + want <==> forall i | 0 <= i < |same| :: same[i]
  {
    if s == front + want {
      forall i | 0 <= i < |same| ensures same[i] { assert s[|front| + i] == want[i]; }
    }
    if forall i | 0 <= i < |same| :: same[i] {
      forall i | 0 <= i < |s| ensures s[i] == (front + want)[i] {
        if i >= |front| { assert s[|front| + (i - |front|)] == want[i - |front|]; }
      }
    }
  }

  /** The entry cuts this text out of the text without indentation. */
  ghost predicate Selects<Loc>(d: Doc<Loc>, i: nat, loc: Loc, text: string)
    requires d.Valid()
  {
    && i < |d.locs| && d.locs[i].loc == loc
    && var from, to := PlainAt(d.lines, d.locs[i].start), PlainAt(d.lines, d.locs[i].end);
       from <= to <= |Plain(d.lines)| && Plain(d.lines)[from..to] == text
  }

  /** The end of a scope around these operations is in a line. */
  ghost predicate ScopeInLine<Loc>(d: Doc<Loc>, body: seq<Op<Loc>>)
    requires d.Valid()
  {
    OpenedValid(d);
    InLine(DoAll(Opened(d), body, |body|))
  }

  /** A located part that itself ends in a line keeps selecting its own text, whatever is written later. */
  lemma {:induction false} LocatedText<Loc>(d: Doc<Loc>, loc: Loc, body: seq<Op<Loc>>, later: seq<Op<Loc>>)
    requires d.Valid() && ScopeInLine(d, body)
    ensures var e := Do(d, Located(loc, body));
            |e.locs| >= 1 && Selects(DoAll(e, later, |later|), |e.locs| - 1, loc, TextsOf(body, |body|))
  {
    hide Plain, Do, DoAll, TextsOf, Keeps, Right, Selects, ScopeInLine;
    var text, e := TextsOf(body, |body|), Do(d, Located(loc, body));
    var span, r := Span(loc, |Plain(d.lines)|, |Plain(d.lines)| + |text|), DoAll(e, later, |later|);
    LocatedLast(d, loc, body);
    KeptRight(e, r, |e.locs| - 1, span, true);
    ScriptTexts(e, later, |later|);
    RightSelects(r, |e.locs| - 1, loc, Plain(d.lines), text, TextsOf(later, |later|));
  }

  lemma {:induction false} LocatedLast<Loc>(d: Doc<Loc>, loc: Loc, body: seq<Op<Loc>>)
    requires d.Valid() && ScopeInLine(d, body)
    ensures var e, text := Do(d, Located(loc, body)), TextsOf(body, |body|);
            && |e.locs| >= 1 && Plain(e.lines) == Plain(d.lines) + text
            && Right(e, |e.locs| - 1, Span(loc, |Plain(d.lines)|, |Plain(d.lines)| + |text|), true)
  {
    hide Plain, Do, DoAll, SpansOf, AllSpans, Ends, AllEnds, TextOf, TextsOf, Keeps, InLine, Right, AllRight, Opened, Record;
    var op, at, text := Located(loc, body), |Plain(d.lines)|, TextsOf(body, |body|);
    OpenedValid(d);
    LocatedUnfolds(d, loc, body, at);
    EntriesRight(d, op);
    LastRight(Do(d, op), |d.locs|, AllSpans(body, |body|, at), AllEnds(Opened(d), body, |body|), Span(loc, at, at + |text|), true);
    ScriptText(d, op);
  }

  lemma LastRight<Loc>(d: Doc<Loc>, from: nat, want: seq<Span<Loc>>, ends: seq<bool>, span: Span<Loc>, inLine: bool)
    requires d.Valid() && AllRight(d, from, want + [span], ends + [inLine])
    ensures |d.locs| >= 1 && Right(d, |d.locs| - 1, span, inLine)
  {
    hide Right;
    assert Right(d, from + |want|, (want + [span])[|want|], (ends + [inLine])[|want|]);
  }

  lemma RightSelects<Loc>(d: Doc<Loc>, i: nat, loc: Loc, before: string, text: string, after: string)
    requires d.Valid() && i < |d.locs| && Right(d, i, Span(loc, |before|, |before| + |text|), true)
    requires Plain(d.lines) == before + text + after
    ensures Selects(d, i, loc, text)
  {
    hide Plain, PlainAt, Inside;
    Middle(before, text, after);
  }

  lemma Middle(a: string, b: string, c: string)
    ensures (a + b + c)[|a|..|a| + |b|] == b
  {
  }

  /** A program whose source map is wrong: the scope ends behind the end of the text. */
  lemma SourceMapFails<Loc>(loc: Loc)
    ensures var op := Located(loc, [Text("a"), NewLine]);
            && Plain(Do(Empty(), op).lines) == "a\n" && SpansOf(op, 0) == [Span(loc, 0, 2)]
            && Resolve(Do(Empty(), op)) == [Span(loc, 0, 3)]
  {
    hide Do, DoAll, SpansOf, Plain, Resolve, Keeps;
    LineRecorded(loc);
    var r, line := Do(Empty(), Located(loc, [Text("a"), NewLine])), Line("a", 0, true, false);
    PlainSnoc([], line);
    PlainEmpty();
    assert [] + [line] == [line] == r.lines[..1] && r.lines[..0] == [];
    assert Resolve(r)[0] == SpanOf(r.lines, r.locs[0]);
  }

  lemma LineRecorded<Loc>(loc: Loc)
    ensures var op := Located(loc, [Text("a"), NewLine]);
            && SpansOf(op, 0) == [Span(loc, 0, 2)]
            && Do(Empty(), op) == Doc([LocEntry(loc, LinePos(1, 0), LinePos(2, 1))], 2, 0, false, [Line("a", 0, true, false)])
  {
    hide Do, DoAll, SpansOf, AllSpans, Ends, AllEnds, TextsOf, Keeps, Plain, TextOf;
    var d, o, body := Empty<Loc>(), Opened(Empty<Loc>()), [Text("a"), NewLine];
    NoText(o, body);
    LastText(o, body, 1);
    LastText(o, body, 2);
    LocatedUnfolds(d, loc, body, 0);
    TwoWrites(o);
  }

  lemma TwoWrites<Loc>(o: Doc<Loc>)
    requires o == Opened(Empty()) && o.Valid()
    ensures Do(Do(o, Text("a")), NewLine) == Doc([], 2, 0, false, [Line("a", 0, true, false)])
    ensures TextOf<Loc>(Text("a")) == "a" && TextOf<Loc>(NewLine) == "\n"
    ensures AllSpans<Loc>([Text("a"), NewLine], 2, 0) == []
  {
    hide Do, DoAll, Keeps, Ends, SpansOf, TextsOf;
    WriteUnfolds(o, Text("a"), 0);
    assert "" + "a" == "a";
    var d: Doc<Loc> := Doc([], 1, 0, false, [Line("a", 0, false, false)]);
    assert Put(o, "a") == d;
    WriteUnfolds(d, NewLine, 0);
    assert Break(d).lines == [Line("a", 0, true, false)];
    var ops: seq<Op<Loc>> := [Text("a"), NewLine];
    NoOp(o, ops, 0);
    LastOp(o, ops, 1, 0);
    LastOp(o, ops, 2, 0);
    WriteUnfolds(o, NewLine, |TextsOf(ops, 1)|);
    WriteUnfolds(o, Text("a"), 0 + |TextsOf(ops, 0)|);
  }

  // ----- the text of each located part -----

  /** The text of each located part, in the order of the entries. */
  function Parts<Loc>(op: Op<Loc>): (r: seq<string>)
    decreases op
  {
    match op
    case Indented(_, body) => AllParts(body, |body|)
    case Located(_, body) => AllParts(body, |body|) + [TextsOf(body, |body|)]
    case Merged(body) => AllParts(body, |body|)
    case _ => []
  }

  function AllParts<Loc>(ops: seq<Op<Loc>>, k: nat): seq<string>
    requires k <= |ops|
    decreases ops, k
  {
    if k == 0 then [] else AllParts(ops, k - 1) + Parts(ops[k - 1])
  }

  /** Each span cuts the text of its part out of a text that begins at `at`. */
  predicate Cut<Loc>(text: string, at: nat, spans: seq<Span<Loc>>, parts: seq<string>) {
    && |spans| == |parts|
    && forall j | 0 <= j < |spans| ::
         at <= spans[j].start <= spans[j].end <= at + |text| && text[spans[j].start - at..spans[j].end - at] == parts[j]
  }

  lemma CutTogether<Loc>(text: string, at: nat, spans: seq<Span<Loc>>, parts: seq<string>,
                         text': string, spans': seq<Span<Loc>>, parts': seq<string>)
    requires Cut(text, at, spans, parts) && Cut(text', at + |text|, spans', parts')
    ensures Cut(text + text', at, spans + spans', parts + parts')
  {
    var all, cuts := spans + spans', parts + parts';
    forall j | 0 <= j < |all|
      ensures at <= all[j].start <= all[j].end <= at + |text + text'|
      ensures (text + text')[all[j].start - at..all[j].end - at] == cuts[j]
    {
      if j < |spans| {
        CutFirst(text, text', spans[j].start - at, spans[j].end - at);
      } else {
        var s := spans'[j - |spans|];
        CutSecond(text, text', s.start - at - |text|, s.end - at - |text|);
      }
    }
  }

  lemma CutFirst(a: string, b: string, i: nat, j: nat)
    requires i <= j <= |a|
    ensures (a + b)[i..j] == a[i..j]
  {
  }

  lemma CutSecond(a: string, b: string, i: nat, j: nat)
    requires i <= j <= |b|
    ensures (a + b)[|a| + i..|a| + j] == b[i..j]
  {
  }

  lemma CutWhole<Loc>(text: string, at: nat, loc: Loc, spans: seq<Span<Loc>>, parts: seq<string>)
    requires Cut(text, at, spans, parts)
    ensures Cut(text, at, spans + [Span(loc, at, at + |text|)], parts + [text])
  {
    assert text[0..|text|] == text;
  }

  lemma {:induction false} PartsCut<Loc>(op: Op<Loc>, at: nat)
    ensures Cut(TextOf(op), at, SpansOf(op, at), Parts(op))
    decreases op
  {
    hide Cut, TextsOf, AllSpans, AllParts;
    match op
    case Indented(_, body) => AllPartsCut(body, |body|, at);
    case Located(loc, body) =>
      AllPartsCut(body, |body|, at);
      CutWhole(TextsOf(body, |body|), at, loc, AllSpans(body, |body|, at), AllParts(body, |body|));
    case Merged(body) => AllPartsCut(body, |body|, at);
    case _ => CutNone<Loc>(TextOf(op), at);
  }

  lemma CutNone<Loc>(text: string, at: nat)
    ensures Cut<Loc>(text, at, [], [])
  {
  }

  lemma {:induction false} AllPartsCut<Loc>(ops: seq<Op<Loc>>, k: nat, at: nat)
    requires k <= |ops|
    ensures Cut(TextsOf(ops, k), at, AllSpans(ops, k, at), AllParts(ops, k))
    decreases ops, k
  {
    hide Cut, SpansOf, Parts, TextOf;
    if k == 0 {
      CutNone<Loc>("", at);
    } else {
      var text, op := TextsOf(ops, k - 1), ops[k - 1];
      AllPartsCut(ops, k - 1, at);
      PartsCut(op, at + |text|);
      CutTogether(text, at, AllSpans(ops, k - 1, at), AllParts(ops, k - 1), TextOf(op), SpansOf(op, at + |text|), Parts(op));
    }
  }

  /**
   Every located part of a program, wherever it is nested or merged and whatever
   was written before: its entry begins where its text begins, and ends where its
   text ends if and only if its own end is in a line.
   */
  lemma {:induction false} EntryText<Loc>(d: Doc<Loc>, ops: seq<Op<Loc>>, i: nat)
    requires d.Valid() && i < |AllParts(ops, |ops|)|
    ensures var r := DoAll(d, ops, |ops|);
            && |AllParts(ops, |ops|)| == |AllEnds(d, ops, |ops|)| == |r.locs| - |d.locs|
            && Places(r, |d.locs| + i, AllParts(ops, |ops|)[i], AllEnds(d, ops, |ops|)[i])
  {
    hide Plain, DoAll, AllSpans, AllEnds, AllParts, Right, TextsOf, Places;
    var r, at := DoAll(d, ops, |ops|), |Plain(d.lines)|;
    var spans, ends, parts := AllSpans(ops, |ops|, at), AllEnds(d, ops, |ops|), AllParts(ops, |ops|);
    AllEntriesRight(d, ops, |ops|);
    ScriptTexts(d, ops, |ops|);
    AllPartsCut(ops, |ops|, at);
    assert Right(r, |d.locs| + i, spans[i], ends[i]);
    RightPlaces(r, |d.locs| + i, Plain(d.lines), TextsOf(ops, |ops|), spans[i], parts[i], ends[i]);
  }

  /** The entry begins where this text begins, and ends where it ends or does not. */
  ghost predicate Places<Loc>(d: Doc<Loc>, i: nat, part: string, ends: bool)
    requires d.Valid()
  {
    && i < |d.locs|
    && var from, to := PlainAt(d.lines, d.locs[i].start), PlainAt(d.lines, d.locs[i].end);
       && from + |part| <= |Plain(d.lines)| && Plain(d.lines)[from..from + |part|] == part
       && (to == from + |part| <==> ends)
  }

  lemma RightPlaces<Loc>(d: Doc<Loc>, i: nat, before: string, text: string, span: Span<Loc>, part: string, ends: bool)
    requires d.Valid() && i < |d.locs| && Right(d, i, span, ends) && Plain(d.lines) == before + text
    requires |before| <= span.start <= span.end <= |before| + |text|
    requires text[span.start - |before|..span.end - |before|] == part
    ensures Places(d, i, part, ends)
  {
    hide Plain, PlainAt, Inside;
    CutSecond(before, text, span.start - |before|, span.end - |before|);
  }
}
