/**
 The buffered reader over a stream: a window of the stream in memory, enlarged
 by the stream's handler and shortened in place when read bytes are discarded.
 */
module StreamReader {
  import opened Common

  /** `substr`: the part of a sequence that is there. */
  function Substr(s: seq<byte>, at: nat, n: nat): seq<byte>
    requires at <= |s|
  {
    s[at..at + Min(n, |s| - at)]
  }

  lemma Window(whole: seq<byte>, from: nat, to: nat, more: seq<byte>, rest: seq<byte>)
    requires from <= to <= |whole| && whole[to..] == more + rest
    ensures to + |more| <= |whole|
    ensures whole[from..to + |more|] == whole[from..to] + more && whole[to + |more|..] == rest
  {
    assert |whole| - to == |more| + |rest|;
    assert whole[to..to + |more|] == whole[to..][..|more|] == more;
    assert whole[to + |more|..] == whole[to..][|more|..] == rest;
    assert whole[from..to + |more|] == whole[from..to] + whole[to..to + |more|];
  }

  lemma SliceOfSlice(whole: seq<byte>, from: nat, to: nat, i: nat, n: nat)
    requires from <= to <= |whole| && i + n <= to - from
    ensures whole[from..to][i..i + n] == whole[from + i..from + i + n]
  {
    var a, b := whole[from..to][i..i + n], whole[from + i..from + i + n];
    forall k | 0 <= k < n ensures a[k] == b[k] {
      assert a[k] == whole[from..to][i + k] == whole[from + i + k];
    }
  }

  lemma DropFirst(whole: seq<byte>, from: nat, to: nat, n: nat)
    requires from <= to <= |whole| && n <= to - from
    ensures whole[from..to][n..] == whole[from + n..to]
  {
  }

  lemma SliceTwo(whole: seq<byte>, a: nat, b: nat, c: nat)
    requires a <= b <= c <= |whole|
    ensures whole[a..c] == whole[a..b] + whole[b..c]
  {
  }

  // ---------------------------------------------------------------------
  // The stream without its buffer
  // ---------------------------------------------------------------------

  /**
   A stream: all its bytes, and, with a handler, how many more the handler brings
   when it is called for the i-th time to read and so many are missing, and how
   many it drops at most when it is asked for the i-th time to discard so many.
   */
  datatype Stream = Stream(whole: seq<byte>, handler: bool, choice: (nat, nat) -> nat, drops: (nat, nat) -> nat)

  /** The handler gives at least one byte as long as there is one. */
  ghost predicate Eager(s: Stream) { s.handler && forall i, missing :: s.choice(i, missing) >= 1 }

  /** The handler gives what is missing as long as it is there. */
  ghost predicate Generous(s: Stream) { s.handler && forall i, missing :: s.choice(i, missing) >= missing }

  /** The handler drops all that it is asked to. */
  ghost predicate Forgets(s: Stream) { s.handler && forall i, n :: s.drops(i, n) >= n }

  /**
   A place in a stream: the bytes before `pos` were read, those before `ahead`
   have come, those before `dropped` are forgotten; and the handler's calls so far.
   */
  datatype Cursor = Cursor(pos: nat, ahead: nat, dropped: nat, loads: nat, discards: nat) {
    predicate In(s: Stream) { dropped <= pos <= ahead <= |s.whole| }
  }

  /** The handler is asked for more when fewer than `n` bytes are there. */
  function Filled(s: Stream, c: Cursor, n: nat): (d: Cursor)
    requires c.In(s)
    ensures d.In(s) && d.pos == c.pos && d.dropped == c.dropped
  {
    if s.handler && n > c.ahead - c.pos
    then c.(ahead := c.ahead + Min(s.choice(c.loads, n - (c.ahead - c.pos)), |s.whole| - c.ahead), loads := c.loads + 1)
    else c
  }

  /** What a read of at most `n` bytes goes over once the stream is filled. */
  function Passed(c: Cursor, n: nat): nat
    requires c.pos <= c.ahead
  {
    Min(n, c.ahead - c.pos)
  }

  datatype Op = Exactly(n: nat) | AtMost(n: nat) | Skipping(n: nat) | Loading(n: nat) | Peeking | Discarding(n: nat)

  /** What an operation returns; a skip returns nothing but moves the position. */
  datatype Event =
    | Got(data: seq<byte>) | Refused | Skipped(count: nat) | Loaded(enough: bool) | Saw(b: byte) | Discarded(ok: bool)

  /** One operation on the stream itself. */
  function Step(s: Stream, c: Cursor, op: Op): (r: (Cursor, Event))
    requires c.In(s)
    ensures r.0.In(s)
  {
    match op
    case Exactly(n) =>
      var f := Filled(s, c, n);
      if n <= f.ahead - f.pos then (f.(pos := f.pos + n), Got(s.whole[f.pos..f.pos + n])) else (f, Refused)
    case AtMost(n) =>
      var f := Filled(s, c, n);
      (f.(pos := f.pos + Passed(f, n)), Got(s.whole[f.pos..f.pos + Passed(f, n)]))
    case Skipping(n) =>
      var f := Filled(s, c, n);
      (f.(pos := f.pos + Passed(f, n)), Skipped(Passed(f, n)))
    case Loading(n) =>
      var f := Filled(s, c, n);
      (f, Loaded(n <= f.ahead - f.pos))
    case Peeking =>
      var f := Filled(s, c, 1);
      (f, Saw(if f.pos < f.ahead then s.whole[f.pos] else 0))
    case Discarding(n) =>
      if s.handler && n <= c.pos - c.dropped
      then (c.(dropped := c.dropped + Min(n, s.drops(c.discards, n)), discards := c.discards + 1), Discarded(true))
      else (c, Discarded(false))
  }

  function After(s: Stream, c: Cursor, ops: seq<Op>): (d: Cursor)
    requires c.In(s)
    ensures d.In(s)
    decreases |ops|
  {
    if ops == [] then c else Step(s, After(s, c, ops[..|ops| - 1]), ops[|ops| - 1]).0
  }

  function Events(s: Stream, c: Cursor, ops: seq<Op>): (es: seq<Event>)
    requires c.In(s)
    ensures |es| == |ops|
    decreases |ops|
  {
    if ops == [] then []
    else Events(s, c, ops[..|ops| - 1]) + [Step(s, After(s, c, ops[..|ops| - 1]), ops[|ops| - 1]).1]
  }

  lemma RunNone(s: Stream, c: Cursor)
    requires c.In(s)
    ensures After(s, c, []) == c && Events(s, c, []) == []
  {
  }

  lemma RunSnoc(s: Stream, c: Cursor, ops: seq<Op>, op: Op)
    requires c.In(s)
    ensures After(s, c, ops + [op]) == Step(s, After(s, c, ops), op).0
    ensures Events(s, c, ops + [op]) == Events(s, c, ops) + [Step(s, After(s, c, ops), op).1]
  {
    assert (ops + [op])[..|ops|] == ops;
  }

  // ----- what runs have in common -----

  /** The bytes a run goes over: read ones as they were returned, skipped ones from the stream. */
  function WentOver(s: Stream, c: Cursor, ops: seq<Op>): seq<byte>
    requires c.In(s)
    decreases |ops|
  {
    if ops == [] then []
    else
      var front := ops[..|ops| - 1];
      var d := After(s, c, front);
      var (e, event) := Step(s, d, ops[|ops| - 1]);
      WentOver(s, c, front) + (if event.Got? then event.data else if event.Skipped? then s.whole[d.pos..e.pos] else [])
  }

  /** What each kind of operation may return. */
  lemma StepReturns(s: Stream, c: Cursor, op: Op)
    requires c.In(s)
    ensures match (op, Step(s, c, op).1)
            case (Exactly(n), Got(data)) => |data| == n
            case (Exactly(n), Refused) => c.ahead - c.pos < n
            case (AtMost(n), Got(data)) => |data| <= n && (Eager(s) && n > 0 && c.pos < |s.whole| ==> |data| > 0)
            case (Skipping(n), Skipped(k)) => k <= n && s.whole[c.pos..c.pos + k] == Step(s, c, AtMost(n)).1.data
            case (Loading(n), Loaded(enough)) => enough ==> Step(s, Step(s, c, op).0, Exactly(n)).1.Got?
            case (Peeking, Saw(b)) => c.pos < c.ahead ==> b == s.whole[c.pos]
            case (Discarding(n), Discarded(ok)) => ok <==> s.handler && n <= c.pos - c.dropped
            case _ => false
  {
  }

  /** So many bytes cannot be had: too few are there, and the handler is missing, brings too few or has no more. */
  predicate Short(s: Stream, c: Cursor, n: nat)
    requires c.In(s)
  {
    var have := c.ahead - c.pos;
    have < n && (!s.handler || have + s.choice(c.loads, n - have) < n || c.pos + n > |s.whole|)
  }

  /** A request for `n` bytes is met if and only if they can be had, by a read of exactly so many and by a load. */
  lemma ExactRead(s: Stream, c: Cursor, n: nat)
    requires c.In(s)
    ensures Step(s, c, Exactly(n)).1 == Refused <==> Short(s, c, n)
    ensures !Short(s, c, n) ==> c.pos + n <= |s.whole| && Step(s, c, Exactly(n)).1 == Got(s.whole[c.pos..c.pos + n])
    ensures Step(s, c, Loading(n)).1 == Loaded(!Short(s, c, n))
  {
  }

  /** With a handler that brings what is missing, and without one when all bytes are there, only the end of the stream matters. */
  lemma ExactAtEnd(s: Stream, c: Cursor, n: nat)
    requires c.In(s) && (Generous(s) || c.ahead == |s.whole|)
    ensures Step(s, c, Exactly(n)).1 == Refused <==> |s.whole| - c.pos < n
    ensures Step(s, c, Loading(n)).1 == Loaded(n <= |s.whole| - c.pos)
  {
  }

  /** How many of `n` bytes a read or a skip goes over. */
  lemma BestRead(s: Stream, c: Cursor, n: nat)
    requires c.In(s)
    ensures var (d, e) := Step(s, c, AtMost(n));
            && d.pos <= |s.whole| && e == Got(s.whole[c.pos..d.pos]) && d.pos - c.pos <= n
            && (d.pos - c.pos == n <==> !Short(s, c, n))
            && (Short(s, c, n) ==> d.pos == d.ahead == c.ahead + (if s.handler then Min(s.choice(c.loads, n - (c.ahead - c.pos)), |s.whole| - c.ahead) else 0))
            && Step(s, c, Skipping(n)) == (d, Skipped(d.pos - c.pos))
  {
  }

  /** A peek gives the next byte if and only if there is one to be had, and zero otherwise. */
  lemma PeekRead(s: Stream, c: Cursor)
    requires c.In(s)
    ensures Step(s, c, Peeking).1 == Saw(if Short(s, c, 1) then 0 else s.whole[c.pos])
  {
  }

  /** What each operation does besides: only a request that the buffer cannot meet calls the handler, and only discards drop. */
  lemma StepCalls(s: Stream, c: Cursor, op: Op)
    requires c.In(s)
    ensures var d, n := Step(s, c, op).0, if op.Peeking? then 1 else op.n;
            && d.loads == c.loads + (if !op.Discarding? && s.handler && c.ahead - c.pos < n then 1 else 0)
            && (Step(s, c, op).1 == Discarded(true) <==> op.Discarding? && s.handler && n <= c.pos - c.dropped)
            && (Step(s, c, op).1 == Discarded(true) ==> d.dropped - c.dropped == Min(n, s.drops(c.discards, n)) && d.discards == c.discards + 1)
            && (Step(s, c, op).1 != Discarded(true) ==> d.dropped == c.dropped && d.discards == c.discards)
            && (d.loads == c.loads ==> d.ahead == c.ahead)
  {
  }

  /** One operation: the position moves by what it returned or skipped, and by nothing for any other. */
  lemma StepMoves(s: Stream, c: Cursor, op: Op)
    requires c.In(s)
    ensures var (d, e) := Step(s, c, op);
            && c.pos <= d.pos && c.ahead <= d.ahead && c.dropped <= d.dropped
            && match e
               case Got(data) => data == s.whole[c.pos..d.pos]
               case Skipped(n) => d.pos == c.pos + n
               case _ => d.pos == c.pos
  {
  }

  /** Whatever is read, skipped, loaded, peeked and discarded, what a run goes over is one slice of the stream. */
  lemma {:induction false} Transparent(s: Stream, c: Cursor, ops: seq<Op>)
    requires c.In(s)
    ensures c.pos <= After(s, c, ops).pos && WentOver(s, c, ops) == s.whole[c.pos..After(s, c, ops).pos]
    decreases |ops|
  {
    if ops != [] {
      var front, op := ops[..|ops| - 1], ops[|ops| - 1];
      Transparent(s, c, front);
      StepMoves(s, After(s, c, front), op);
      SliceTwo(s.whole, c.pos, After(s, c, front).pos, After(s, c, ops).pos);
    }
  }

  function Kept(ops: seq<Op>): seq<Op> {
    if ops == [] then []
    else Kept(ops[..|ops| - 1]) + (if ops[|ops| - 1].Discarding? then [] else [ops[|ops| - 1]])
  }

  function Answers(ops: seq<Op>, es: seq<Event>): seq<Event>
    requires |es| == |ops|
  {
    if ops == [] then []
    else Answers(ops[..|ops| - 1], es[..|ops| - 1]) + (if ops[|ops| - 1].Discarding? then [] else [es[|ops| - 1]])
  }

  lemma {:induction false} KeptNoDiscard(ops: seq<Op>)
    ensures forall i | 0 <= i < |Kept(ops)| :: !Kept(ops)[i].Discarding?
  {
    if ops != [] { KeptNoDiscard(ops[..|ops| - 1]); }
  }

  /** Two places that differ only in what was discarded. */
  predicate Alike(c: Cursor, d: Cursor) { c.pos == d.pos && c.ahead == d.ahead && c.loads == d.loads }

  lemma FilledAlike(s: Stream, c: Cursor, d: Cursor, n: nat)
    requires c.In(s) && d.In(s) && Alike(c, d)
    ensures Alike(Filled(s, c, n), Filled(s, d, n))
  {
  }

  lemma StepAlike(s: Stream, c: Cursor, d: Cursor, op: Op)
    requires c.In(s) && d.In(s) && Alike(c, d)
    ensures op.Discarding? ==> Alike(Step(s, c, op).0, d)
    ensures !op.Discarding? ==> Alike(Step(s, c, op).0, Step(s, d, op).0) && Step(s, c, op).1 == Step(s, d, op).1
  {
    hide Filled, Min;
    if !op.Discarding? { FilledAlike(s, c, d, if op.Peeking? then 1 else op.n); }
  }

  /** Discards are invisible: without them every other operation returns the same and the position is the same. */
  lemma {:induction false} DiscardsInvisible(s: Stream, c: Cursor, ops: seq<Op>)
    requires c.In(s)
    ensures Answers(ops, Events(s, c, ops)) == Events(s, c, Kept(ops))
    ensures Alike(After(s, c, ops), After(s, c, Kept(ops)))
    decreases |ops|
  {
    hide Step, Alike, Filled;
    if ops == [] {
      AlikeSame(c);
    } else {
      var front, op := ops[..|ops| - 1], ops[|ops| - 1];
      DiscardsInvisible(s, c, front);
      assert Events(s, c, ops)[..|front|] == Events(s, c, front);
      StepAlike(s, After(s, c, front), After(s, c, Kept(front)), op);
      if op.Discarding? {
        assert Kept(ops) == Kept(front);
      } else {
        assert Kept(ops) == Kept(front) + [op];
        RunSnoc(s, c, Kept(front), op);
      }
    }
  }

  lemma AlikeSame(c: Cursor)
    ensures Alike(c, c)
  {
  }

  /** With an eager handler a read or a peek fails to give a byte only at the end of the stream. */
  lemma EagerProgress(s: Stream, c: Cursor, n: nat)
    requires c.In(s) && Eager(s) && n > 0
    ensures Step(s, c, AtMost(n)).1 == Got([]) <==> c.pos == |s.whole|
    ensures c.pos < |s.whole| ==> Step(s, c, Peeking).1 == Saw(s.whole[c.pos])
  {
  }

  /** A handler that drops what it is asked to forgets all that was read. */
  lemma ForgetsAll(s: Stream, c: Cursor)
    requires c.In(s) && Forgets(s)
    ensures var (d, e) := Step(s, c, Discarding(c.pos - c.dropped)); e == Discarded(true) && d == c.(dropped := c.pos, discards := c.discards + 1)
  {
  }

  /** The same bytes in memory, all there and without a handler. */
  function InMemory(s: Stream): Stream { s.(handler := false) }

  function AllThere(s: Stream, c: Cursor): (d: Cursor)
    requires c.In(s)
    ensures d.In(InMemory(s))
  {
    c.(ahead := |s.whole|)
  }

  lemma GenerousStep(s: Stream, c: Cursor, d: Cursor, op: Op)
    requires Generous(s) && c.In(s) && d.In(InMemory(s)) && d.pos == c.pos && d.ahead == |s.whole| && !op.Discarding?
    ensures Step(s, c, op).1 == Step(InMemory(s), d, op).1
    ensures Step(InMemory(s), d, op).0.pos == Step(s, c, op).0.pos && Step(InMemory(s), d, op).0.ahead == |s.whole|
  {
  }

  /**
   With a handler that brings what is missing a stream cannot be told from the same
   bytes in memory: every list of reads, skips, loads and peeks returns the same.
   */
  lemma {:induction false} GenerousIsMemory(s: Stream, c: Cursor, ops: seq<Op>)
    requires Generous(s) && c.In(s) && forall i | 0 <= i < |ops| :: !ops[i].Discarding?
    ensures Events(s, c, ops) == Events(InMemory(s), AllThere(s, c), ops)
    ensures After(s, c, ops).pos == After(InMemory(s), AllThere(s, c), ops).pos
    ensures After(InMemory(s), AllThere(s, c), ops).ahead == |s.whole|
    decreases |ops|
  {
    hide Step, Filled, Generous;
    if ops != [] {
      var front, op := ops[..|ops| - 1], ops[|ops| - 1];
      GenerousIsMemory(s, c, front);
      GenerousStep(s, After(s, c, front), After(InMemory(s), AllThere(s, c), front), op);
    }
  }

  // ---------------------------------------------------------------------
  // The reader
  // ---------------------------------------------------------------------

  /**
   What is behind a reader. A handler that meets the read contract appends some
   of the next bytes to the buffer and keeps what is there, and one that meets
   the discard contract drops at most what it is asked to; how many is its own
   choice at every call.
   */
  class Source {
    const choice: (nat, nat) -> nat
    const drops: (nat, nat) -> nat
    var loads: nat
    var discards: nat
    var rest: seq<byte>

    constructor (choice: (nat, nat) -> nat, drops: (nat, nat) -> nat, bytes: seq<byte>)
      ensures this.choice == choice && this.drops == drops && rest == bytes && loads == 0 && discards == 0
    {
      this.choice, this.drops := choice, drops;
      loads, discards, rest := 0, 0, bytes;
    }

    method Next(missing: nat) returns (more: seq<byte>)
      modifies this
      ensures old(rest) == more + rest && |more| == Min(choice(old(loads), missing), |old(rest)|)
      ensures loads == old(loads) + 1 && discards == old(discards)
    {
      var n := Min(choice(loads, missing), |rest|);
      more := rest[..n];
      rest := rest[n..];
      loads := loads + 1;
    }

    method Drop(n: nat) returns (k: nat)
      modifies this
      ensures k == Min(n, drops(old(discards), n)) && discards == old(discards) + 1
      ensures loads == old(loads) && rest == old(rest)
    {
      k := Min(n, drops(discards, n));
      discards := discards + 1;
    }
  }

  /** A new buffer: the first bytes of an old one and some more. */
  method Longer(a: array<byte>, size: nat, more: seq<byte>) returns (b: array<byte>)
    requires size <= a.Length
    ensures fresh(b) && b[..] == a[..size] + more
  {
    b := new byte[size + |more|];
    forall i | 0 <= i < size { b[i] := a[i]; }
    forall i | 0 <= i < |more| { b[size + i] := more[i]; }
  }

  class Reader {
    var buf: array<byte>
    var size: nat       // the view is the first `size` bytes of the buffer
    var index: nat
    const source: Source?
    ghost const stream: Stream   // from its beginning
    ghost var dropped: nat       // how many bytes were discarded

    ghost predicate Valid()
      reads this, buf, source
      ensures Valid() ==> View().In(stream)
    {
      && index <= size <= buf.Length
      && dropped + size <= |stream.whole|
      && buf[..size] == stream.whole[dropped..dropped + size]
      && Behind() == stream.whole[dropped + size..]
      && stream.handler == (source != null)
      && (source != null ==> stream.choice == source.choice && stream.drops == source.drops)
    }

    ghost function Behind(): seq<byte>
      reads this, source
    {
      if source == null then [] else source.rest
    }

    /** The place of the reader in the stream. */
    ghost function View(): Cursor
      reads this, source
    {
      Cursor(dropped + index, dropped + size, dropped,
             if source == null then 0 else source.loads, if source == null then 0 else source.discards)
    }

    constructor (bytes: array<byte>, source: Source?)
      ensures Valid() && View().pos == 0 && this.source == source && buf == bytes
      ensures stream.whole == bytes[..] + (if source == null then [] else source.rest)
    {
      buf, size, index, this.source := bytes, bytes.Length, 0, source;
      dropped := 0;
      stream := if source == null then Stream(bytes[..], false, (_, _) => 0, (_, _) => 0)
                else Stream(bytes[..] + source.rest, true, source.choice, source.drops);
      new;
      assert bytes[..] + [] == bytes[..];
    }

    /** The handler of the read contract sets a larger buffer with the old bytes in front. */
    method Enlarge(n: nat)
      requires Valid() && source != null && n > size - index
      modifies this, source
      ensures Valid() && fresh(buf) && index == old(index) && dropped == old(dropped)
      ensures size == old(size) + Min(source.choice(old(source.loads), n - old(size - index)), |stream.whole| - old(dropped + size))
      ensures source.loads == old(source.loads) + 1 && source.discards == old(source.discards)
    {
      var more := source.Next(n - (size - index));
      Window(stream.whole, dropped, dropped + size, more, source.rest);
      buf := Longer(buf, size, more);
      size := size + |more|;
      assert buf[..size] == buf[..];
    }

    method StreamRead(n: nat)
      requires Valid()
      modifies this, source
      ensures Valid() && View() == Filled(stream, old(View()), n)
      ensures dropped == old(dropped) && index == old(index) && (fresh(buf) || buf == old(buf))
    {
      if source != null && n > size - index { Enlarge(n); }
    }

    /** `offset_internal`: moves the index, no further than the end of the buffer. */
    method Offset(n: nat)
      requires index <= size
      modifies this`index
      ensures index == old(index) + Min(n, size - old(index))
    {
      if size - index < n { index := size; } else { index := index + n; }
    }

    /** The next bytes of the buffer, at most `n`. */
    method FromBuffer(n: nat) returns (data: seq<byte>)
      requires Valid()
      ensures |data| == Min(n, size - index) && data == stream.whole[View().pos..View().pos + |data|]
    {
      data := Substr(buf[..size], index, n);
      SliceOfSlice(stream.whole, dropped, dropped + size, index, |data|);
    }

    /** `read_best_internal`: as many bytes as the buffer has after one call of the handler, at most `n`. */
    method ReadBest(n: nat) returns (data: seq<byte>)
      requires Valid()
      modifies this, source
      ensures Valid() && (fresh(buf) || buf == old(buf))
      ensures (View(), Got(data)) == Step(stream, old(View()), AtMost(n))
    {
      hide Filled;
      StreamRead(n);
      data := FromBuffer(n);
      Offset(n);
    }

    /** `read_internal`: exactly `n` bytes, or the position stays. */
    method ReadExact(n: nat) returns (data: seq<byte>, ok: bool)
      requires Valid()
      modifies this, source
      ensures Valid() && (fresh(buf) || buf == old(buf))
      ensures (View(), if ok then Got(data) else Refused) == Step(stream, old(View()), Exactly(n))
    {
      hide Filled;
      var before := index;
      data := ReadBest(n);
      ok := |data| == n;
      if !ok { index := before; }
    }

    /** `offset`: skips what a read of `n` bytes would give. */
    method Skip(n: nat)
      requires Valid()
      modifies this, source
      ensures Valid() && (fresh(buf) || buf == old(buf))
      ensures View() == Step(stream, old(View()), Skipping(n)).0 == Step(stream, old(View()), AtMost(n)).0
      ensures index >= old(index) && Skipped(index - old(index)) == Step(stream, old(View()), Skipping(n)).1
    {
      hide Filled;
      StreamRead(n);
      Offset(n);
    }

    method LoadStream(n: nat) returns (enough: bool)
      requires Valid()
      modifies this, source
      ensures Valid() && (fresh(buf) || buf == old(buf))
      ensures (View(), Loaded(enough)) == Step(stream, old(View()), Loading(n))
    {
      StreamRead(n);
      enough := size - index >= n;
    }

    /** `top`: the next byte, or zero when there is none to be had. */
    method Top() returns (b: byte)
      requires Valid()
      modifies this, source
      ensures Valid() && (fresh(buf) || buf == old(buf))
      ensures (View(), Saw(b)) == Step(stream, old(View()), Peeking)
    {
      StreamRead(1);
      if size - index >= 1 {
        b := buf[index];
        assert b == buf[..size][index];
      } else {
        b := 0;
      }
    }

    /** `discard`: the handler drops as much as it likes of what it is asked to, by moving the rest down in place. */
    method Discard(n: nat) returns (ok: bool)
      requires Valid()
      modifies this, source, buf
      ensures Valid() && buf == old(buf)
      ensures (View(), Discarded(ok)) == Step(stream, old(View()), Discarding(n))
      ensures !ok ==> unchanged(this) && unchanged(buf)
    {
      if source == null || n > index { return false; }
      var drop := source.Drop(n);
      Shorten(drop);
      ok := true;
    }

    /** `direct_drop`: the view loses its first bytes. */
    method Shorten(drop: nat)
      requires Valid() && drop <= index
      modifies this, buf
      ensures Valid() && buf == old(buf)
      ensures size == old(size) - drop && index == old(index) - drop && dropped == old(dropped) + drop
    {
      hide Cursor.In;
      DropFirst(stream.whole, dropped, dropped + size, drop);
      MoveDown(drop);
      size := size - drop;
      index := index - drop;
      dropped := dropped + drop;
    }

    /** The copy of `direct_drop`, from the lower end up, source and target overlapping. */
    method MoveDown(n: nat)
      requires n <= size <= buf.Length
      modifies buf
      ensures buf[..size - n] == old(buf[..size])[n..]
    {
      var i := 0;
      while i < size - n
        invariant 0 <= i <= size - n
        invariant forall k | 0 <= k < i :: buf[k] == old(buf[k + n])
        invariant forall k | i <= k < buf.Length :: buf[k] == old(buf[k])
      {
        buf[i] := buf[i + n];
        i := i + 1;
      }
    }

    /** One round of `read_until_eof`. */
    method ReadSome(rate: nat, shouldDiscard: bool) returns (data: seq<byte>)
      requires Valid()
      modifies this, source, buf
      ensures Valid() && (fresh(buf) || buf == old(buf))
      ensures old(View().pos) <= View().pos <= |stream.whole| && data == stream.whole[old(View().pos)..View().pos]
      ensures Eager(stream) && rate > 0 && data == [] ==> View().pos == |stream.whole|
      ensures !shouldDiscard || data == [] ==> View().dropped == old(View().dropped)
      ensures shouldDiscard && data != [] && Forgets(stream) ==> View().dropped == View().pos
    {
      hide Step, Eager, Valid, Forgets;
      ghost var before := View();
      data := ReadBest(rate);
      StepMoves(stream, before, AtMost(rate));
      StepCalls(stream, before, AtMost(rate));
      if Eager(stream) && rate > 0 { EagerProgress(stream, before, rate); }
      if data != [] && shouldDiscard {
        ghost var here := View();
        var _ := Discard(index);
        StepMoves(stream, here, Discarding(here.pos - here.dropped));
        if Forgets(stream) { ForgetsAll(stream, here); }
      }
    }

    /** `read_until_eof` on a stream: everything that comes until a read gives nothing. */
    method ReadUntilEof(rate: nat, shouldDiscard: bool) returns (out: seq<byte>)
      requires Valid() && source != null
      modifies this, source, buf
      ensures Valid() && old(View().pos) <= View().pos <= |stream.whole|
      ensures out == stream.whole[old(View().pos)..View().pos]
      ensures Eager(stream) && rate > 0 ==> View().pos == |stream.whole|
      ensures !shouldDiscard ==> View().dropped == old(View().dropped)
      ensures shouldDiscard && out != [] && Forgets(stream) ==> View().dropped == View().pos
    {
      hide Eager, Forgets;
      out := [];
      while true
        invariant Valid() && (fresh(buf) || buf == old(buf))
        invariant old(View().pos) <= View().pos <= |stream.whole| && out == stream.whole[old(View().pos)..View().pos]
        invariant !shouldDiscard ==> View().dropped == old(View().dropped)
        invariant shouldDiscard && out != [] && Forgets(stream) ==> View().dropped == View().pos
        decreases |stream.whole| - View().pos
      {
        ghost var before := View().pos;
        var data := ReadSome(rate, shouldDiscard);
        if data == [] {
          assert View().pos == before;
          return;
        }
        SliceTwo(stream.whole, old(View().pos), before, View().pos);
        out := out + data;
      }
    }

    /** One operation. */
    method Perform(op: Op) returns (e: Event)
      requires Valid()
      modifies this, source, buf
      ensures Valid() && (fresh(buf) || buf == old(buf))
      ensures (View(), e) == Step(stream, old(View()), op)
    {
      hide Filled;
      match op
      case Exactly(n) =>
        var data, ok := ReadExact(n);
        e := if ok then Got(data) else Refused;
      case AtMost(n) =>
        var data := ReadBest(n);
        e := Got(data);
      case Skipping(n) =>
        var at := index;
        Skip(n);
        e := Skipped(index - at);
      case Loading(n) =>
        var enough := LoadStream(n);
        e := Loaded(enough);
      case Peeking =>
        var b := Top();
        e := Saw(b);
      case Discarding(n) =>
        var ok := Discard(n);
        e := Discarded(ok);
    }

    /**
     Any list of operations: the results are those of the stream itself, whatever
     the buffer does, and what is gone over is the stream from the position on.
     */
    method PerformAll(ops: seq<Op>) returns (events: seq<Event>)
      requires Valid()
      modifies this, source, buf
      ensures Valid() && View() == After(stream, old(View()), ops) && events == Events(stream, old(View()), ops)
      ensures old(View().pos) <= View().pos
      ensures WentOver(stream, old(View()), ops) == stream.whole[old(View().pos)..View().pos]
      ensures Answers(ops, events) == Events(stream, old(View()), Kept(ops))
      ensures Generous(stream) ==> Answers(ops, events) == Events(InMemory(stream), AllThere(stream, old(View())), Kept(ops))
    {
      hide Step, After, Events, WentOver, Kept, Answers, Valid, View, Cursor.In, Generous, InMemory, AllThere;
      events := [];
      RunNone(stream, View());
      assert ops[..0] == [];
      for i := 0 to |ops|
        invariant Valid() && (fresh(buf) || buf == old(buf))
        invariant View() == After(stream, old(View()), ops[..i]) && events == Events(stream, old(View()), ops[..i])
      {
        var e := Perform(ops[i]);
        assert ops[..i + 1] == ops[..i] + [ops[i]];
        RunSnoc(stream, old(View()), ops[..i], ops[i]);
        events := events + [e];
      }
      assert ops[..|ops|] == ops;
      Transparent(stream, old(View()), ops);
      DiscardsInvisible(stream, old(View()), ops);
      KeptNoDiscard(ops);
      if Generous(stream) { GenerousIsMemory(stream, old(View()), Kept(ops)); }
    }
  }
}
