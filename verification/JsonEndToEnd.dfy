/**
 The printer and the parser as objects, put together: a value is printed, its
 text arrives in pieces, and the parser is called after each piece until it
 stops asking for more.
 */
module JsonEndToEnd {
  import opened JsonValue
  import opened JsonMachine
  import opened JsonGrammar
  import opened JsonSplit
  import opened JsonSound
  import opened JsonReport
  import opened JsonParser
  import opened JsonPrinter
  import opened JsonRoundTrip
  import opened JsonLayout

  /** A machine that ended or failed does so whatever else arrives. */
  lemma StoppedStays(c: Config, more: string, last: bool)
    requires c.Valid() && !c.closed && Halted(c) && Outcome(c) != Suspend
    ensures c.Receive(more, last).Valid() && Run(c.Receive(more, last)) == c.Receive(more, last)
    ensures Outcome(c.Receive(more, last)) == Outcome(c)
  {
  }

  lemma ConcatRest(pieces: seq<string>, i: nat)
    requires i < |pieces|
    ensures Concat(pieces[i..]) == pieces[i] + Concat(pieces[i + 1..])
  {
    assert pieces[i..][1..] == pieces[i + 1..];
  }

  /** Receiving twice is receiving the two texts at once. */
  lemma ReceiveTwice(c: Config, a: string, b: string, last: bool)
    ensures c.Receive(a, false).Receive(b, last) == c.Receive(a + b, last)
  {
    assert c.buf + a + b == c.buf + (a + b);
  }

  lemma FinalSuspended(c: Config)
    requires Outcome(c) == Suspend
    ensures Final(c) == c
  {
  }

  /**
   Parsing piece by piece reports what parsing the whole text at once reports, and
   builds the same values. What is reported is a property of the text: the end if
   and only if it starts with an accepted text; on a complete text a request for
   more if and only if it is cut off in a literal, and an error otherwise; on a
   text that may go on, an error only when no continuation starts with an accepted
   text.
   */
  method ParsePieces(pieces: seq<string>, complete: bool) returns (r: Result, stack: seq<Json>)
    requires pieces != []
    ensures stack == Run(Ready(Concat(pieces), complete)).stack
    ensures r == End <==> Starts(Concat(pieces))
    ensures complete && r != End ==> r == if CutInLiteral(Concat(pieces)) then Suspend else Error
    ensures !complete && r == Error ==> forall more :: !Starts(Concat(pieces) + more)
    ensures !complete && r != End && r != Error ==> r == Suspend
  {
    hide Run, Outcome, Starts, CutInLiteral, Concat;
    r, stack := ParseEach(pieces, complete);
    StartsIs(Concat(pieces), complete);
    OutcomeIsNoNest(Run(Ready(Concat(pieces), complete)));
    if complete {
      CompleteText(Concat(pieces));
    } else if r == Error {
      forall more ensures !Starts(Concat(pieces) + more) { ErrorIsFinal(Concat(pieces), more); }
    }
  }

  /** The calls of the parser, one after each piece until it stops asking. */
  method ParseEach(pieces: seq<string>, complete: bool) returns (r: Result, stack: seq<Json>)
    requires pieces != []
    ensures r == Outcome(Run(Ready(Concat(pieces), complete)))
    ensures stack == Run(Ready(Concat(pieces), complete)).stack
  {
    hide Run, Halted, Concat, Outcome, Final;
    var reader := new Reader("");
    var parser := new Parser(reader);
    ghost var whole := Ready("", false).Receive(Concat(pieces), complete);
    assert whole == Ready(Concat(pieces), complete) by { assert "" + Concat(pieces) == Concat(pieces); }
    assert pieces[0..] == pieces;
    var i := 0;
    while true
      invariant 0 <= i < |pieces| && parser.Valid() && !parser.reader.closed && fresh(parser) && fresh(parser.reader)
      invariant whole.Valid() && parser.View().Receive(Concat(pieces[i..]), complete).Valid()
      invariant Run(parser.View().Receive(Concat(pieces[i..]), complete)) == Run(whole)
      decreases |pieces| - i
    {
      ghost var c, rest := parser.View(), Concat(pieces[i + 1..]);
      var last := i + 1 == |pieces|;
      ConcatRest(pieces, i);
      ReceiveTwice(c, pieces[i], rest, complete);
      parser.Receive(pieces[i], last && complete);
      ghost var d := parser.View();
      r := parser.Parse();
      stack := parser.reader.stack;
      assert stack == Run(d).stack by { FinalStack(Run(d)); }
      if last {
        assert pieces[i + 1..] == [];
        LastPiece(c, pieces[i], rest, complete);
        return;
      }
      RunReceive(d, rest, complete);
      if r != Suspend {
        RunHalts(d);
        RunKeeps(d);
        StoppedStays(Run(d), rest, complete);
        return;
      }
      FinalSuspended(Run(d));
      RunKeeps(d);
      i := i + 1;
    }
  }

  lemma FinalStack(c: Config)
    ensures Final(c).stack == c.stack
  {
  }

  lemma LastPiece(c: Config, piece: string, rest: string, complete: bool)
    requires rest == Concat([])
    ensures c.Receive(piece, complete) == c.Receive(piece + rest, complete)
  {
    assert piece + rest == piece;
  }

  /**
   Printing a value and parsing the text, in whatever pieces it arrives and
   whatever follows it, complete or not, ends and gives exactly that value back, unless it holds
   the least 64-bit integer.
   */
  method PrintAndParse(style: Style, t: Json, tail: string, pieces: seq<string>, complete: bool) returns (r: Result, stack: seq<Json>)
    requires CanPrint(style.mode, t) && Spaces(style.indent) && Proper(t) && Delimited(t, tail)
    requires pieces != [] && Concat(pieces) == Printed(style, t) + tail
    ensures r == End && (stack == [t] <==> NoLeast(t))
  {
    hide Run, Concat;
    r, stack := ParseEach(pieces, complete);
    ReadsPrinted(style, t, tail, complete);
    RereadSame(t);
  }

  /** The printer writes the text that `Printed` says. */
  method Print(style: Style, t: Json) returns (text: string)
    requires CanPrint(style.mode, t)
    ensures text == Printed(style, t)
    ensures Spaces(style.indent) && '\n' !in style.indent ==> LinesOk(style, text, 0)
  {
    hide Tree, Text, LinesOk;
    if Spaces(style.indent) && '\n' !in style.indent { Layout(style, t); }
    var s := new Stringer(style);
    assert s.Lead() == "" by { NoIndentation(style); }
    s.Value(t);
    text := s.buf;
    assert "" + "" + Printed(style, t) == Printed(style, t);
  }

  lemma NoIndentation(style: Style)
    ensures Indentation(style, 0) == ""
  {
  }
}
