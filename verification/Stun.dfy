/**
 NAT discovery by a STUN client: which test is asked for next, and which kind of
 NAT is found, after the decision diagram of section 10.1 of RFC 3489.
 */
module Stun {
  import opened Common
  import opened StunMessage

  datatype NatType =
    | UdpBlocked | OpenInternet | FullCone | RestrictedCone | PortRestrictedCone | Symmetric | UdpFirewall | Unknown

  datatype State =
    | Start | Test1Started | Test1Respond | Test2Started | Test1Again | Test1AgainStarted | Test1AgainRespond
    | Test3Started | Finish

  datatype Result =
    | DoRequest | DoRoundtrip | Done | EncodingFailed | RespondErrorFailed | InvalidState | UnknownTypeFailed
    | TruncatedFailed | DisconnectedFailed

  const NO_ADDRESS := Address(0, 0, ZEROS)

  /** The first `n` bytes, or all of them. */
  function Head(s: seq<byte>, n: nat): seq<byte> { if |s| <= n then s else s[..n] }

  /** The address comparison: never equal for a family other than IPv4 and IPv6. */
  predicate Same(a: Address, b: Address) {
    && a.family == b.family && (a.family == 1 || a.family == 2) && a.port == b.port
    && Head(a.bytes, if a.family == 1 then 4 else 16) == Head(b.bytes, if b.family == 1 then 4 else 16)
  }

  /** What the reader of a reply returns: `DoRequest` for a usable one, a failure otherwise. */
  function ResultOf(m: Reading): Result {
    match m
    case Unreadable => EncodingFailed
    case Truncated => TruncatedFailed
    case ErrorReply => RespondErrorFailed
    case NoAddress => DoRequest
    case BadAddress(_) => EncodingFailed
    case Found(_) => DoRequest
    case OtherType => UnknownTypeFailed
  }

  /** What the reader of a reply leaves in the address it works on. */
  function Left(m: Reading, before: Address): Address {
    match m
    case BadAddress(touched) => touched
    case Found(address) => address
    case _ => before
  }

  lemma LeftValid(message: seq<byte>, before: Address)
    requires before.Valid()
    ensures Left(Meaning(message, before), before).Valid()
  {
    if |message| >= 20 { FirstAddressValid(Attributes(message[20..]), message[4..20], before); }
  }

  lemma {:induction false} FirstAddressValid(list: seq<Attribute>, key: seq<byte>, before: Address)
    requires before.Valid() && |key| >= 16
    ensures Left(FirstAddress(list, key, before), before).Valid()
  {
    hide Unpack;
    if list != [] && !CarriesAddress(list[0]) { FirstAddressValid(list[1..], key, before); }
  }

  /**
   A call of the client. Tests II and III read a reply over an address that has
   not been given a value; `junk` is what happens to be there.
   */
  datatype Call = Request | NoResponse | Response(message: seq<byte>, junk: Address) {
    predicate Valid() { Response? ==> junk.Valid() }
  }

  // ---------------------------------------------------------------------
  // The decision diagram
  // ---------------------------------------------------------------------

  /** The answer to one test: none in time, or one with this mapped address. */
  datatype Answer = Silent | Heard(mapped: Address)

  datatype Verdict = Ask | Is(nat: NatType) | Lost

  /** What the diagram says after the answers to the tests so far: I, II, I again, III. */
  function Decide(local: Address, seen: seq<Answer>): Verdict {
    if |seen| == 0 then Ask
    else if seen[0].Silent? then Is(UdpBlocked)
    else
      var open := Same(local, seen[0].mapped);
      if |seen| == 1 then Ask
      else if seen[1].Heard? then Is(if open then OpenInternet else FullCone)
      else if open then Is(UdpFirewall)
      else if |seen| == 2 then Ask
      else if seen[2].Silent? then Lost
      else if !Same(seen[0].mapped, seen[2].mapped) then Is(Symmetric)
      else if |seen| == 3 then Ask
      else if seen[3].Heard? then Is(RestrictedCone)
      else Is(PortRestrictedCone)
  }

  // ---------------------------------------------------------------------
  // A discovery that follows the diagram
  // ---------------------------------------------------------------------

  /**
   How far a discovery is: whether a reply is expected, the answers so far, the
   address read for test I the second time, and whether an unusable reply ended it.
   */
  datatype Progress = Progress(waiting: bool, seen: seq<Answer>, again: Address, failed: bool)

  const BEGIN := Progress(false, [], NO_ADDRESS, false)

  predicate Over(local: Address, p: Progress) { p.failed || !Decide(local, p.seen).Ask? }

  /** What the caller is told to do after an answer. */
  function Told(v: Verdict): Result { match v case Ask => DoRequest case Is(_) => Done case Lost => DisconnectedFailed }

  /** The address that a reply is read over. */
  function Under(p: Progress, junk: Address): Address {
    if |p.seen| == 0 then NO_ADDRESS else if |p.seen| == 2 then p.again else junk
  }

  function Answered(local: Address, p: Progress, answer: Answer): (Progress, Result) {
    (p.(waiting := false, seen := p.seen + [answer]), Told(Decide(local, p.seen + [answer])))
  }

  /** A reply that means `m`: an unusable one ends tests I and II and is passed over in the other two. */
  function Replied(local: Address, p: Progress, m: Reading, junk: Address): (Progress, Result) {
    var left := Left(m, Under(p, junk));
    var q := if |p.seen| == 2 then p.(again := left) else p;
    if ResultOf(m) == DoRequest then Answered(local, q, Heard(left))
    else (if |p.seen| < 2 then q.(waiting := false, failed := true) else q, ResultOf(m))
  }

  /** One call: a request starts the next test that the diagram asks for, and only an expected answer is taken. */
  function Move(local: Address, p: Progress, call: Call): (r: (Progress, Result))
    requires p.again.Valid() && call.Valid()
    ensures r.0.again.Valid()
  {
    match call
    case Request => if p.waiting || Over(local, p) then (p, InvalidState) else (p.(waiting := true), DoRoundtrip)
    case NoResponse => if p.waiting then Answered(local, p, Silent) else (p, InvalidState)
    case Response(message, junk) =>
      if !p.waiting then (p, InvalidState)
      else
        LeftValid(message, Under(p, junk));
        Replied(local, p, Meaning(message, Under(p, junk)), junk)
  }

  /** The progress after these calls on a new client. */
  function After(local: Address, calls: seq<Call>): (p: Progress)
    requires forall i | 0 <= i < |calls| :: calls[i].Valid()
    ensures p.again.Valid()
  {
    if calls == [] then BEGIN
    else Move(local, After(local, calls[..|calls| - 1]), calls[|calls| - 1]).0
  }

  /** The result of each of these calls on a new client. */
  function Results(local: Address, calls: seq<Call>): (results: seq<Result>)
    requires forall i | 0 <= i < |calls| :: calls[i].Valid()
    ensures |results| == |calls|
  {
    if calls == [] then []
    else Results(local, calls[..|calls| - 1]) + [Move(local, After(local, calls[..|calls| - 1]), calls[|calls| - 1]).1]
  }

  lemma {:induction false} ResultAt(local: Address, calls: seq<Call>, i: nat)
    requires i < |calls| && forall k | 0 <= k < |calls| :: calls[k].Valid()
    ensures Results(local, calls)[i] == Move(local, After(local, calls[..i]), calls[i]).1
    ensures After(local, calls[..i + 1]) == Move(local, After(local, calls[..i]), calls[i]).0
  {
    assert calls[..i + 1][..i] == calls[..i];
    if i < |calls| - 1 {
      ResultAt(local, calls[..|calls| - 1], i);
      assert calls[..|calls| - 1][..i] == calls[..i];
    }
  }

  /** The answers that one call adds when its result is `r`. */
  function Added(p: Progress, call: Call, r: Result): seq<Answer>
    requires p.again.Valid() && call.Valid()
  {
    if r == InvalidState then []
    else
      match call
      case Request => []
      case NoResponse => [Silent]
      case Response(message, junk) =>
        var m := Meaning(message, Under(p, junk));
        if m.Found? then [Heard(m.address)] else if m.NoAddress? then [Heard(Under(p, junk))] else []
  }

  /**
   Where the answers come from: a missing reply that was awaited is a silent
   answer, a usable reply that was awaited is heard with the address in it, and no
   other call adds anything.
   */
  lemma AnswersFollow(local: Address, calls: seq<Call>, i: nat)
    requires i < |calls| && forall k | 0 <= k < |calls| :: calls[k].Valid()
    ensures var p := After(local, calls[..i]);
            After(local, calls[..i + 1]).seen == p.seen + Added(p, calls[i], Results(local, calls)[i])
  {
    hide Meaning, After, Results;
    ResultAt(local, calls, i);
    var p := After(local, calls[..i]);
    assert p.seen + [] == p.seen;
  }

  /** The result of a reply that cannot be used, from its bytes alone: too short or without the cookie, cut off, an error, another type. */
  lemma UnusableReplies(local: Address, p: Progress, message: seq<byte>, junk: Address)
    requires p.waiting && p.again.Valid() && junk.Valid()
    ensures var r := Move(local, p, Response(message, junk)).1;
            if |message| < 20 || message[4..8] != [0x21, 0x12, 0xA4, 0x42] then r == EncodingFailed
            else if |message| - 20 < message[2] as int * 256 + message[3] then r == TruncatedFailed
            else if message[0] == 0x01 && message[1] == 0x11 then r == RespondErrorFailed
            else if !(message[0] == 0x01 && message[1] == 0x01) then r == UnknownTypeFailed
            else r != TruncatedFailed && r != RespondErrorFailed && r != UnknownTypeFailed
  {
    hide FirstAddress, Attributes, Decide;
    if |message| >= 20 { AddressReadings(Attributes(message[20..]), message[4..20], Under(p, junk)); }
  }

  lemma {:induction false} AddressReadings(list: seq<Attribute>, key: seq<byte>, before: Address)
    requires before.Valid() && |key| >= 16
    ensures var m := FirstAddress(list, key, before); m.NoAddress? || m.Found? || m.BadAddress?
  {
    hide Unpack;
    if list != [] && !CarriesAddress(list[0]) { AddressReadings(list[1..], key, before); }
  }

  /** A first address attribute that is too short makes the reply unusable, whatever comes after it. */
  lemma ShortAddress(list: seq<Attribute>, k: nat, key: seq<byte>, before: Address)
    requires before.Valid() && |key| >= 16 && k < |list| && (forall i | 0 <= i < k :: !CarriesAddress(list[i]))
    requires CarriesAddress(list[k]) && (|list[k].value| < 3 || (list[k].value[0] == 0 && |list[k].value| < 4 + Width(list[k].value[1])))
    ensures ResultOf(FirstAddress(list, key, before)) == EncodingFailed
  {
    SkipTo(list, k, key, before);
    assert list[k..][0] == list[k];
  }

  /** No answer to test I the second time, after one to it the first time: the discovery ends without a kind. */
  lemma SecondSilent(local: Address, p: Progress)
    requires Sound(local, p) && p.waiting && p.again.Valid() && |p.seen| == 2
    ensures Move(local, p, NoResponse).1 == DisconnectedFailed && !Decide(local, Move(local, p, NoResponse).0.seen).Is?
  {
    hide Same;
  }

  /** No reply is expected once the discovery is over, and there are at most four answers. */
  predicate Sound(local: Address, p: Progress) {
    && (p.waiting ==> !Over(local, p)) && (p.failed ==> Decide(local, p.seen).Ask? && |p.seen| < 2) && |p.seen| <= 4
  }

  lemma MoveSound(local: Address, p: Progress, call: Call)
    requires Sound(local, p) && p.again.Valid() && call.Valid()
    ensures Sound(local, Move(local, p, call).0)
  {
    hide Meaning, Same;
  }

  lemma {:induction false} AfterSound(local: Address, calls: seq<Call>)
    requires forall i | 0 <= i < |calls| :: calls[i].Valid()
    ensures Sound(local, After(local, calls))
  {
    if calls != [] {
      AfterSound(local, calls[..|calls| - 1]);
      MoveSound(local, After(local, calls[..|calls| - 1]), calls[|calls| - 1]);
    }
  }

  /** The results that end a discovery when the answers before the call are `seen`. */
  predicate Ending(r: Result, seen: nat) {
    || r == Done || r == DisconnectedFailed
    || (seen < 2 && r in {EncodingFailed, RespondErrorFailed, UnknownTypeFailed, TruncatedFailed})
  }

  /** A call ends a discovery exactly when its result says so, and a finished one stays as it is. */
  lemma MoveEnds(local: Address, p: Progress, call: Call)
    requires Sound(local, p) && p.again.Valid() && call.Valid()
    ensures Over(local, p) ==> Move(local, p, call) == (p, InvalidState)
    ensures !Over(local, p) ==> (Over(local, Move(local, p, call).0) <==> Ending(Move(local, p, call).1, |p.seen|))
  {
    hide Meaning, Same;
  }

  /** After the call that ends the discovery every call is refused. */
  lemma {:induction false} RefusedAfterEnd(local: Address, calls: seq<Call>, i: nat, j: nat)
    requires i < j < |calls| && forall k | 0 <= k < |calls| :: calls[k].Valid()
    requires Ending(Results(local, calls)[i], |After(local, calls[..i]).seen|)
    ensures Over(local, After(local, calls[..j])) && Results(local, calls)[j] == InvalidState
  {
    hide Move, Over, Decide;
    var k := j - 1;
    if k > i { RefusedAfterEnd(local, calls, i, k); }
    AfterSound(local, calls[..k]);
    AfterSound(local, calls[..j]);
    ResultAt(local, calls, k);
    ResultAt(local, calls, j);
    MoveEnds(local, After(local, calls[..k]), calls[k]);
    MoveEnds(local, After(local, calls[..j]), calls[j]);
  }

  /** What the test after so many answers asks for: nothing, another address and port, nothing, another port. */
  function Asked(n: nat): Option<Change> {
    if n == 1 then Some(Change(true, true)) else if n == 3 then Some(Change(false, true)) else None
  }

  function Count(results: seq<Result>, r: Result): nat {
    if results == [] then 0 else Count(results[..|results| - 1], r) + (if results[|results| - 1] == r then 1 else 0)
  }

  lemma CountSnoc(results: seq<Result>, last: Result, r: Result)
    ensures Count(results + [last], r) == Count(results, r) + (if last == r then 1 else 0)
  {
    assert (results + [last])[..|results|] == results;
  }

  /** The round trips asked for by the time of `p`. */
  function Trips(p: Progress): nat { |p.seen| + (if p.waiting || p.failed then 1 else 0) }

  function Known(local: Address, p: Progress): nat { if Decide(local, p.seen).Is? then 1 else 0 }

  lemma MoveCounts(local: Address, p: Progress, call: Call)
    requires Sound(local, p) && p.again.Valid() && call.Valid()
    ensures var (q, r) := Move(local, p, call);
            && Trips(q) == Trips(p) + (if r == DoRoundtrip then 1 else 0)
            && Known(local, q) == Known(local, p) + (if r == Done then 1 else 0)
  {
    hide Meaning, Same;
  }

  /**
   In every sequence of calls: one round trip for each answer and for the reply
   still expected or found unusable, never more than four, and `done` once if the
   diagram knows the kind of NAT and never otherwise.
   */
  lemma {:induction false} ResultCounts(local: Address, calls: seq<Call>)
    requires forall i | 0 <= i < |calls| :: calls[i].Valid()
    ensures Count(Results(local, calls), DoRoundtrip) == Trips(After(local, calls)) <= 4
    ensures Count(Results(local, calls), Done) == Known(local, After(local, calls))
  {
    hide Move, Trips, Known, Count;
    if calls == [] {
      CountNone();
    } else {
      var front, last := calls[..|calls| - 1], calls[|calls| - 1];
      ResultCounts(local, front);
      AfterSound(local, front);
      var (_, r) := Move(local, After(local, front), last);
      MoveCounts(local, After(local, front), last);
      CountSnoc(Results(local, front), r, DoRoundtrip);
      CountSnoc(Results(local, front), r, Done);
      AfterSound(local, calls);
      AtMostFour(local, After(local, calls));
    }
  }

  lemma CountNone()
    ensures Count([], DoRoundtrip) == 0 && Count([], Done) == 0
    ensures Trips(BEGIN) == 0 && forall local :: Known(local, BEGIN) == 0
  {
  }

  lemma AtMostFour(local: Address, p: Progress)
    requires Sound(local, p)
    ensures Trips(p) <= 4
  {
  }

  // ---------------------------------------------------------------------
  // The client
  // ---------------------------------------------------------------------

  /** A reply is expected. */
  predicate Waiting(s: State) { s in {Test1Started, Test2Started, Test1AgainStarted, Test3Started} }

  function Rank(s: State): nat {
    match s
    case Start => 0
    case Test1Started => 1
    case Test1Respond => 2
    case Test2Started => 3
    case Test1Again => 4
    case Test1AgainStarted => 5
    case Test1AgainRespond => 6
    case Test3Started => 7
    case Finish => 8
  }

  class Context {
    var nat_: NatType
    var state: State
    const original: Address
    const transaction: seq<byte>
    var first: Address
    var second: Address
    ghost var seen: seq<Answer>   // the answers to the tests, in order
    ghost var failed: bool        // a reply that could not be used ended the discovery

    ghost function View(): Progress
      reads this
    {
      Progress(Waiting(state), seen, second, failed)
    }

    ghost predicate Valid()
      reads this
    {
      && (nat_ == Unknown <==> !Decide(original, seen).Is?)
      && (nat_ != Unknown ==> Decide(original, seen) == Is(nat_))
      && (|seen| >= 1 ==> seen[0] == Silent || seen[0] == Heard(first))
      && (state == Finish <==> failed || !Decide(original, seen).Ask?)
      && first.Valid() && second.Valid() && |transaction| == 12
      && match state
         case Start => seen == [] && first == second == NO_ADDRESS
         case Test1Started => seen == [] && first == second == NO_ADDRESS
         case Test1Respond => |seen| == 1
         case Test2Started => |seen| == 1
         case Test1Again => |seen| == 2
         case Test1AgainStarted => |seen| == 2
         case Test1AgainRespond => |seen| == 3 && seen[2] == Heard(second)
         case Test3Started => |seen| == 3
         case Finish => true
    }

    constructor (original: Address, transaction: seq<byte>)
      requires |transaction| == 12
      ensures Valid() && View() == BEGIN && state == Start && this.original == original && this.transaction == transaction
    {
      this.original, this.transaction := original, transaction;
      nat_, state, first, second := Unknown, Start, NO_ADDRESS, NO_ADDRESS;
      seen, failed := [], false;
    }

    /** `request`, with the bytes it writes. */
    method MakeRequest() returns (r: Result, out: seq<byte>)
      requires Valid()
      modifies this
      ensures out == if r == DoRoundtrip then RequestBytes(transaction, Asked(|seen|)) else []
      ensures Valid() && (View(), r) == Move(original, old(View()), Request)
      ensures Rank(state) >= Rank(old(state)) && nat_ == old(nat_)
      ensures r == InvalidState ==> unchanged(this)
    {
      hide Same, RequestBytes;
      match state {
        case Start =>
          nat_, first, second := Unknown, NO_ADDRESS, NO_ADDRESS;
          out := RequestBytes(transaction, None);
          state := Test1Started;
        case Test1Respond =>
          out := RequestBytes(transaction, Some(Change(true, true)));
          state := Test2Started;
        case Test1Again =>
          out := RequestBytes(transaction, None);
          state := Test1AgainStarted;
        case Test1AgainRespond =>
          out := RequestBytes(transaction, Some(Change(false, true)));
          state := Test3Started;
        case _ => return InvalidState, [];
      }
      r := DoRoundtrip;
    }

    method HearNothing() returns (r: Result)
      requires Valid()
      modifies this
      ensures Valid() && (View(), r) == Move(original, old(View()), NoResponse)
      ensures Rank(state) >= Rank(old(state)) && (r == Done <==> old(nat_) == Unknown && nat_ != Unknown)
      ensures r == InvalidState ==> unchanged(this)
    {
      hide Same;
      if !Waiting(state) { return InvalidState; }
      seen := seen + [Silent];
      if state == Test1Started {
        nat_ := UdpBlocked;
      } else if state == Test2Started {
        if Same(original, first) {
          nat_ := UdpFirewall;
        } else {
          state := Test1Again;
          return DoRequest;
        }
      } else if state == Test1AgainStarted {
        state := Finish;
        return DisconnectedFailed;
      } else {
        nat_ := PortRestrictedCone;
      }
      state := Finish;
      r := Done;
    }

    /** `response`, on the bytes of the message. */
    method HearMessage(message: seq<byte>, junk: Address) returns (r: Result)
      requires Valid() && junk.Valid()
      modifies this
      ensures Valid() && (View(), r) == Move(original, old(View()), Response(message, junk))
      ensures Rank(state) >= Rank(old(state)) && (r == Done <==> old(nat_) == Unknown && nat_ != Unknown)
      ensures r == InvalidState ==> unchanged(this)
    {
      if state == Test1Started {
        r := HearFirst(message, junk);
      } else if state == Test2Started {
        r := HearChanged(message, junk);
      } else if state == Test1AgainStarted {
        r := HearAgain(message, junk);
      } else if state == Test3Started {
        r := HearPort(message, junk);
      } else {
        r := InvalidState;
      }
    }

    /** A reply to test I. */
    method HearFirst(message: seq<byte>, ghost junk: Address) returns (r: Result)
      requires Valid() && junk.Valid() && state == Test1Started
      modifies this
      ensures Valid() && (View(), r) == Move(original, old(View()), Response(message, junk))
      ensures Rank(state) >= 1 && nat_ == old(nat_) && r != Done && r != InvalidState
    {
      hide Same, Meaning;
      var m := HandleResponse(message, first);
      LeftValid(message, first);
      first := Left(m, first);
      if ResultOf(m) != DoRequest {
        state, failed := Finish, true;
        return ResultOf(m);
      }
      seen := seen + [Heard(first)];
      state := Test1Respond;
      r := DoRequest;
    }

    /** A reply to test II, from another address and port. */
    method HearChanged(message: seq<byte>, junk: Address) returns (r: Result)
      requires Valid() && junk.Valid() && state == Test2Started
      modifies this
      ensures Valid() && (View(), r) == Move(original, old(View()), Response(message, junk))
      ensures state == Finish && (r == Done <==> old(nat_) == Unknown && nat_ != Unknown) && r != InvalidState
    {
      hide Same, Meaning;
      var m := HandleResponse(message, junk);
      state := Finish;
      if ResultOf(m) != DoRequest {
        failed := true;
        return ResultOf(m);
      }
      seen := seen + [Heard(Left(m, junk))];
      nat_ := if Same(original, first) then OpenInternet else FullCone;
      r := Done;
    }

    /** A reply to test I the second time. */
    method HearAgain(message: seq<byte>, ghost junk: Address) returns (r: Result)
      requires Valid() && junk.Valid() && state == Test1AgainStarted
      modifies this
      ensures Valid() && (View(), r) == Move(original, old(View()), Response(message, junk))
      ensures Rank(state) >= 5 && (r == Done <==> old(nat_) == Unknown && nat_ != Unknown) && r != InvalidState
    {
      hide Same, Meaning;
      var m := HandleResponse(message, second);
      LeftValid(message, second);
      second := Left(m, second);
      if ResultOf(m) != DoRequest { return ResultOf(m); }
      seen := seen + [Heard(second)];
      if !Same(first, second) {
        nat_ := Symmetric;
        state := Finish;
        return Done;
      }
      state := Test1AgainRespond;
      r := DoRequest;
    }

    /** A reply to test III, from another port. */
    method HearPort(message: seq<byte>, junk: Address) returns (r: Result)
      requires Valid() && junk.Valid() && state == Test3Started
      modifies this
      ensures Valid() && (View(), r) == Move(original, old(View()), Response(message, junk))
      ensures Rank(state) >= 7 && (r == Done <==> old(nat_) == Unknown && nat_ != Unknown) && r != InvalidState
    {
      hide Same, Meaning;
      var m := HandleResponse(message, junk);
      if ResultOf(m) != DoRequest { return ResultOf(m); }
      seen := seen + [Heard(Left(m, junk))];
      nat_ := RestrictedCone;
      state := Finish;
      r := Done;
    }
  }

  /** What a call sends: the request of the test that the diagram asks for, or nothing. */
  function Sent(transaction: seq<byte>, p: Progress, r: Result): seq<byte>
    requires |transaction| == 12
  {
    if r == DoRoundtrip then RequestBytes(transaction, Asked(|p.seen|)) else []
  }

  /** One call of the client. */
  method Perform(c: Context, call: Call) returns (r: Result, out: seq<byte>)
    requires c.Valid() && call.Valid()
    modifies c
    ensures c.Valid() && (c.View(), r) == Move(c.original, old(c.View()), call)
    ensures out == Sent(c.transaction, old(c.View()), r)
  {
    hide Move, RequestBytes;
    out := [];
    match call {
      case Request =>
        r, out := c.MakeRequest();
        RequestKeepsSeen(c.original, old(c.View()));
      case NoResponse =>
        r := c.HearNothing();
        OnlyRequestsTrip(c.original, old(c.View()), call);
      case Response(message, junk) =>
        r := c.HearMessage(message, junk);
        OnlyRequestsTrip(c.original, old(c.View()), call);
    }
  }

  lemma RequestKeepsSeen(local: Address, p: Progress)
    requires p.again.Valid()
    ensures Move(local, p, Request).0.seen == p.seen
  {
    hide Decide;
  }

  lemma OnlyRequestsTrip(local: Address, p: Progress, call: Call)
    requires p.again.Valid() && call.Valid() && !call.Request?
    ensures Move(local, p, call).1 != DoRoundtrip
  {
    hide Decide, Meaning;
  }

  /**
   Any sequence of calls on a new client: every result is the one that the
   diagram's own discovery gives, and the kind of NAT found is the one the diagram
   reaches on the answers that these calls brought.
   */
  method Discover(local: Address, transaction: seq<byte>, calls: seq<Call>)
    returns (found: NatType, results: seq<Result>, sent: seq<seq<byte>>)
    requires |transaction| == 12 && forall i | 0 <= i < |calls| :: calls[i].Valid()
    ensures results == Results(local, calls)
    ensures |sent| == |calls| && forall i | 0 <= i < |calls| :: sent[i] == Sent(transaction, After(local, calls[..i]), results[i])
    ensures found != Unknown ==> Decide(local, After(local, calls).seen) == Is(found)
    ensures found == Unknown ==> !Decide(local, After(local, calls).seen).Is?
    ensures Count(results, DoRoundtrip) <= 4
    ensures Count(results, Done) == if found == Unknown then 0 else 1
    ensures forall i, j | 0 <= i < j < |results| && Ending(results[i], |After(local, calls[..i]).seen|) :: results[j] == InvalidState
  {
    hide Move, Decide, Count, Sent;
    var c := new Context(local, transaction);
    results, sent := [], [];
    for i := 0 to |calls|
      invariant c.Valid() && c.original == local && c.transaction == transaction && fresh(c)
      invariant c.View() == After(local, calls[..i]) && results == Results(local, calls[..i])
      invariant |sent| == i && forall k | 0 <= k < i :: sent[k] == Sent(transaction, After(local, calls[..k]), results[k])
    {
      var r, out := Perform(c, calls[i]);
      assert calls[..i + 1][..i] == calls[..i];
      results, sent := results + [r], sent + [out];
    }
    assert calls[..|calls|] == calls;
    found := c.nat_;
    ResultCounts(local, calls);
    forall i, j | 0 <= i < j < |results| && Ending(results[i], |After(local, calls[..i]).seen|) ensures results[j] == InvalidState {
      RefusedAfterEnd(local, calls, i, j);
    }
  }
}
