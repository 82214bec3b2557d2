/**
 What the discovery is for: networks with their mapping and their filter, a server
 with two addresses and two ports, and the kind of NAT that is found through them.
 */
module StunNat {
  import opened Common
  import opened StunMessage
  import opened Stun

  /** An address and a port. */
  datatype Endpoint = Endpoint(v6: bool, ip: seq<byte>, port: nat) {
    predicate Valid() { |ip| == (if v6 then 16 else 4) && port < 0x1_0000 }
  }

  /** The address record stands for this endpoint; what is behind the bytes of an IPv4 address does not matter. */
  predicate Agrees(a: Address, e: Endpoint) {
    && a.Valid() && e.Valid() && a.family == (if e.v6 then 2 else 1) && a.port == e.port && a.bytes[..|e.ip|] == e.ip
  }

  /** The comparison of address records is equality of the endpoints they stand for. */
  lemma SameIsEqual(a: Address, e: Endpoint, b: Address, f: Endpoint)
    requires Agrees(a, e) && Agrees(b, f)
    ensures Same(a, b) <==> e == f
  {
  }

  /** Two records of a known family are equal if and only if the families, the ports and the address bytes agree. */
  lemma SameAddresses(a: Address, b: Address)
    requires a.Valid() && b.Valid() && (a.family == 1 || a.family == 2)
    ensures Same(a, b) <==> a.family == b.family && a.port == b.port && a.bytes[..Width(a.family)] == b.bytes[..Width(a.family)]
  {
  }

  /** A record with its endpoint. */
  function AddressOf(e: Endpoint): (a: Address)
    requires e.Valid()
    ensures Agrees(a, e)
  {
    Address(if e.v6 then 2 else 1, e.port, if e.v6 then e.ip else e.ip + ZEROS[4..])
  }

  // ---------------------------------------------------------------------
  // Networks and servers
  // ---------------------------------------------------------------------

  /** Which senders reach the client: all, those at an address it has sent to, those it has sent to. */
  datatype Filter = All | SameAddress | SameAddressAndPort

  /** A network: nothing gets through, or packets to a destination come from the endpoint that `seenAs` gives. */
  datatype Network = Closed | Open(seenAs: Endpoint -> Endpoint, filter: Filter)

  predicate Passes(f: Filter, sentTo: seq<Endpoint>, from: Endpoint) {
    match f
    case All => true
    case SameAddress => exists i | 0 <= i < |sentTo| :: sentTo[i].v6 == from.v6 && sentTo[i].ip == from.ip
    case SameAddressAndPort => from in sentTo
  }

  /** A server has two addresses and two ports, and so four endpoints. */
  datatype Server = Server(v6: bool, ip: seq<byte>, otherIp: seq<byte>, port: nat, otherPort: nat) {
    predicate Valid() {
      && ip != otherIp && port != otherPort && port < 0x1_0000 && otherPort < 0x1_0000
      && |ip| == |otherIp| == (if v6 then 16 else 4)
    }

    function At(c: Change): Endpoint { Endpoint(v6, if c.ip then otherIp else ip, if c.port then otherPort else port) }

    function Main(): Endpoint { At(Change(false, false)) }

    /** The endpoint in the attribute for the changed address. */
    function Changed(): Endpoint { At(Change(true, true)) }

    /** From where a request to the main endpoint or to the changed one is answered. */
    function AnswersFrom(to: Endpoint, c: Change): Endpoint {
      if to == Main() then At(c) else At(Change(!c.ip, !c.port))
    }
  }

  /** The kind of a NAT by its mapping and its filter, after section 5 of RFC 3489. */
  function Kind(net: Network, local: Endpoint, main: Endpoint, second: Endpoint): NatType {
    match net
    case Closed => UdpBlocked
    case Open(seenAs, filter) =>
      if seenAs(main) == local then (if filter == All then OpenInternet else UdpFirewall)
      else if filter == All then FullCone
      else if seenAs(main) != seenAs(second) then Symmetric
      else if filter == SameAddress then RestrictedCone
      else PortRestrictedCone
  }

  // ---------------------------------------------------------------------
  // The conversation
  // ---------------------------------------------------------------------

  /** Where the tests are sent: all to the main endpoint but test I the second time, whose destination is the caller's choice. */
  function Destination(k: nat, main: Endpoint, second: Endpoint): Endpoint { if k == 2 then second else main }

  function SentTo(k: nat, main: Endpoint, second: Endpoint): seq<Endpoint> { if k < 2 then [main] else [main, second] }

  /** Test `k` is answered: the server reads the bytes of its request, and the network lets the answer through. */
  predicate Answered(net: Network, server: Server, second: Endpoint, transaction: seq<byte>, k: nat)
    requires |transaction| == 12
  {
    && net.Open?
    && var m := RequestMeaning(RequestBytes(transaction, Asked(k)));
       m.Some? && Passes(net.filter, SentTo(k, server.Main(), second),
                         server.AnswersFrom(Destination(k, server.Main(), second), m.value))
  }

  /** A response that a server writes, with this endpoint as the first address in it, whatever else it holds. */
  ghost predicate Reply(message: seq<byte>, e: Endpoint) {
    exists transaction: seq<byte>, list: seq<Attribute>, k: nat, a: Address :: ReplyWith(message, e, transaction, list, k, a)
  }

  ghost predicate ReplyWith(message: seq<byte>, e: Endpoint, transaction: seq<byte>, list: seq<Attribute>, k: nat, a: Address) {
    && |transaction| == 12 && Agrees(a, e)
    && (forall i | 0 <= i < |list| :: list[i].Valid()) && |AllBytes(list)| < 0x1_0000
    && k < |list| && (forall i | 0 <= i < k :: !CarriesAddress(list[i]))
    && (list[k] == Attribute(MAPPED_ADDRESS, Pack(a, ZEROS)) || list[k] == Attribute(XOR_MAPPED_ADDRESS, Pack(a, COOKIE + transaction)))
    && message == ResponseBytes(transaction, list)
  }

  /** The call that hands the outcome of test `k` to the client. */
  ghost predicate Outcome(net: Network, server: Server, second: Endpoint, transaction: seq<byte>, k: nat, call: Call)
    requires |transaction| == 12
  {
    && call.Valid()
    && if Answered(net, server, second, transaction, k)
       then call.Response? && Reply(call.message, net.seenAs(Destination(k, server.Main(), second)))
       else call.NoResponse?
  }

  /** Up to four tests, each request followed by its outcome; calls after the end are refused. */
  function Talk(o: seq<Call>): seq<Call>
    requires |o| == 4
  {
    [Request, o[0], Request, o[1], Request, o[2], Request, o[3]]
  }

  lemma ReplyMeans(message: seq<byte>, e: Endpoint, before: Address)
    requires Reply(message, e) && before.Valid()
    ensures var m := Meaning(message, before); m.Found? && Agrees(m.address, e)
  {
    hide Meaning, AllBytes, ResponseBytes, Pack;
    var transaction: seq<byte>, list: seq<Attribute>, k: nat, a: Address :| ReplyWith(message, e, transaction, list, k, a);
    ResponseGivesAddress(transaction, list, k, a, before);
  }

  /** Which tests are answered, by the filter alone. */
  lemma AnsweredIs(net: Network, server: Server, second: Endpoint, transaction: seq<byte>, k: nat)
    requires server.Valid() && (second == server.Main() || second == server.Changed()) && |transaction| == 12 && k < 4
    ensures Answered(net, server, second, transaction, k)
       <==> net.Open? && (k == 1 ==> net.filter == All) && (k == 3 ==> net.filter != SameAddressAndPort)
  {
    hide RequestMeaning, RequestBytes;
    RequestBack(transaction, Asked(k));
    var main := server.Main();
    assert SentTo(k, main, second)[0] == main;
    assert k >= 2 ==> SentTo(k, main, second)[1] == second;
  }

  /** A request and its outcome: one more answer, or nothing once the discovery is over. */
  function Turned(local: Address, p: Progress, call: Call): Progress
    requires p.again.Valid() && call.Valid()
  {
    Move(local, Move(local, p, Request).0, call).0
  }

  ghost predicate Hears(x: Answer, call: Call, e: Endpoint) {
    if call.NoResponse? then x == Silent else x.Heard? && Agrees(x.mapped, e)
  }

  lemma Turn(local: Address, p: Progress, call: Call, e: Endpoint)
    requires Sound(local, p) && !p.waiting && p.again.Valid() && call.Valid()
    requires call.NoResponse? || (call.Response? && Reply(call.message, e))
    ensures var q := Turned(local, p, call);
            && q.again.Valid() && Sound(local, q) && !q.waiting && q.failed == p.failed
            && (Over(local, p) ==> q == p)
            && (!Over(local, p) ==> |q.seen| == |p.seen| + 1 && q.seen[..|p.seen|] == p.seen && Hears(q.seen[|p.seen|], call, e))
  {
    hide Meaning, Decide, Agrees, Reply;
    MoveSound(local, p, Request);
    MoveSound(local, Move(local, p, Request).0, call);
    if Over(local, p) {
      MoveEnds(local, p, Request);
      MoveEnds(local, p, call);
    } else if call.Response? {
      ReplyMeans(call.message, e, Under(p, call.junk));
    }
  }

  lemma TalkTurns(local: Address, o: seq<Call>)
    requires |o| == 4 && forall i | 0 <= i < 4 :: o[i].Valid()
    ensures var p1 := Turned(local, BEGIN, o[0]);
            var p2 := Turned(local, p1, o[1]);
            var p3 := Turned(local, p2, o[2]);
            After(local, Talk(o)) == Turned(local, p3, o[3])
  {
    hide Move;
    var calls := Talk(o);
    assert calls[..0] == [] && calls[..8] == calls;
    assert After(local, calls[..0]) == BEGIN;
    TurnOf(local, calls, 0);
    TurnOf(local, calls, 2);
    TurnOf(local, calls, 4);
    TurnOf(local, calls, 6);
  }

  lemma TurnOf(local: Address, calls: seq<Call>, i: nat)
    requires i + 1 < |calls| && (forall k | 0 <= k < |calls| :: calls[k].Valid()) && calls[i] == Request
    ensures After(local, calls[..i + 2]) == Turned(local, After(local, calls[..i]), calls[i + 1])
  {
    hide Move, After, Results;
    ResultAt(local, calls, i);
    ResultAt(local, calls, i + 1);
  }

  lemma ClosedFound(address: Address, o: seq<Call>)
    requires |o| == 4 && forall i | 0 <= i < 4 :: o[i].Valid() && o[i].NoResponse?
    ensures Decide(address, After(address, Talk(o)).seen) == Is(UdpBlocked)
  {
    hide Move, Turned, After, Same;
    TalkTurns(address, o);
    var none := Endpoint(false, [], 0);
    var p1 := Turned(address, BEGIN, o[0]);
    Turn(address, BEGIN, o[0], none);
    Turn(address, p1, o[1], none);
    Turn(address, p1, o[2], none);
    Turn(address, p1, o[3], none);
  }

  /** What the four outcomes of an open network are. */
  ghost predicate OpenOutcomes(net: Network, main: Endpoint, second: Endpoint, o: seq<Call>) {
    && net.Open? && |o| == 4 && (forall i | 0 <= i < 4 :: o[i].Valid() && (o[i].NoResponse? || o[i].Response?))
    && (o[1].Response? <==> net.filter == All) && (o[3].Response? <==> net.filter != SameAddressAndPort)
    && o[0].Response? && Reply(o[0].message, net.seenAs(main)) && o[2].Response? && Reply(o[2].message, net.seenAs(second))
    && (o[1].Response? ==> Reply(o[1].message, net.seenAs(main))) && (o[3].Response? ==> Reply(o[3].message, net.seenAs(main)))
  }

  /** The first two tests tell apart the networks that let everything through, and those that do not translate. */
  lemma FirstTwo(address: Address, local: Endpoint, net: Network, main: Endpoint, second: Endpoint, o: seq<Call>) returns (p2: Progress)
    requires Agrees(address, local) && OpenOutcomes(net, main, second, o)
    ensures p2 == Turned(address, Turned(address, BEGIN, o[0]), o[1]) && p2.again.Valid() && Sound(address, p2) && !p2.waiting && !p2.failed
    ensures if net.filter == All || net.seenAs(main) == local then Decide(address, p2.seen) == Is(Kind(net, local, main, second))
            else |p2.seen| == 2 && p2.seen[0].Heard? && Agrees(p2.seen[0].mapped, net.seenAs(main))
                 && Decide(address, p2.seen) == Ask && p2.seen[1] == Silent && !Same(address, p2.seen[0].mapped)
  {
    hide Move, Turned, Same, Agrees, Reply;
    var p1 := Turned(address, BEGIN, o[0]);
    Turn(address, BEGIN, o[0], net.seenAs(main));
    SameIsEqual(address, local, p1.seen[0].mapped, net.seenAs(main));
    p2 := Turned(address, p1, o[1]);
    Turn(address, p1, o[1], net.seenAs(main));
    assert p2.seen[0] == p2.seen[..1][0];
  }

  lemma OpenFound(address: Address, local: Endpoint, net: Network, main: Endpoint, second: Endpoint, o: seq<Call>)
    requires Agrees(address, local) && OpenOutcomes(net, main, second, o)
    ensures Decide(address, After(address, Talk(o)).seen) == Is(Kind(net, local, main, second))
  {
    hide Move, Turned, Same, Agrees, Reply, After;
    TalkTurns(address, o);
    var p2 := FirstTwo(address, local, net, main, second, o);
    var p3 := Turned(address, p2, o[2]);
    Turn(address, p2, o[2], net.seenAs(second));
    Turn(address, p3, o[3], net.seenAs(main));
    if net.filter != All && net.seenAs(main) != local {
      LastTwo(address, local, net, main, second, o, p2, p3);
    }
  }

  lemma LastTwo(address: Address, local: Endpoint, net: Network, main: Endpoint, second: Endpoint, o: seq<Call>, p2: Progress, p3: Progress)
    requires Agrees(address, local) && OpenOutcomes(net, main, second, o) && net.filter != All && net.seenAs(main) != local
    requires Sound(address, p2) && !p2.waiting && !p2.failed && p2.again.Valid() && |p2.seen| == 2 && p2.seen[0].Heard?
    requires Agrees(p2.seen[0].mapped, net.seenAs(main)) && p2.seen[1] == Silent && !Same(address, p2.seen[0].mapped)
    requires p3 == Turned(address, p2, o[2])
    ensures p3.again.Valid() && Decide(address, Turned(address, p3, o[3]).seen) == Is(Kind(net, local, main, second))
  {
    hide Move, Turned, Same, Agrees, Reply;
    Turn(address, p2, o[2], net.seenAs(second));
    assert p3.seen[0] == p3.seen[..2][0] && p3.seen[1] == p3.seen[..2][1];
    SameIsEqual(p2.seen[0].mapped, net.seenAs(main), p3.seen[2].mapped, net.seenAs(second));
    Turn(address, p3, o[3], net.seenAs(main));
    var p4 := Turned(address, p3, o[3]);
    if !Over(address, p3) {
      assert p4.seen[0] == p4.seen[..3][0] && p4.seen[1] == p4.seen[..3][1] && p4.seen[2] == p4.seen[..3][2];
    }
  }

  /**
   The kind that is found is the kind that the mapping and the filter define, for
   every network, every server and every choice of where test I is repeated.
   */
  lemma NatFound(address: Address, local: Endpoint, net: Network, server: Server, second: Endpoint, transaction: seq<byte>, o: seq<Call>)
    requires Agrees(address, local) && server.Valid() && (second == server.Main() || second == server.Changed())
    requires |transaction| == 12 && |o| == 4 && forall k | 0 <= k < 4 :: Outcome(net, server, second, transaction, k, o[k])
    ensures (forall i | 0 <= i < 8 :: Talk(o)[i].Valid())
    ensures Decide(address, After(address, Talk(o)).seen) == Is(Kind(net, local, server.Main(), second))
  {
    hide Move, Agrees, Same, Answered, Reply, Turned, After, Decide, Kind;
    AnsweredIs(net, server, second, transaction, 0);
    AnsweredIs(net, server, second, transaction, 1);
    AnsweredIs(net, server, second, transaction, 2);
    AnsweredIs(net, server, second, transaction, 3);
    assert Outcome(net, server, second, transaction, 0, o[0]) && Outcome(net, server, second, transaction, 1, o[1])
        && Outcome(net, server, second, transaction, 2, o[2]) && Outcome(net, server, second, transaction, 3, o[3]);
    if net.Closed? {
      ClosedFound(address, o);
      ClosedKind(net, local, server.Main(), second);
    } else {
      OpenFound(address, local, net, server.Main(), second, o);
    }
  }

  lemma ClosedKind(net: Network, local: Endpoint, main: Endpoint, second: Endpoint)
    requires net.Closed?
    ensures Kind(net, local, main, second) == UdpBlocked
  {
  }

  /** The client object, talking to a server through a network, finds the kind of the network. */
  method FindKind(local: Endpoint, ghost net: Network, ghost server: Server, ghost second: Endpoint, transaction: seq<byte>, o: seq<Call>)
    returns (found: NatType)
    requires local.Valid() && server.Valid() && (second == server.Main() || second == server.Changed())
    requires |transaction| == 12 && |o| == 4 && forall k | 0 <= k < 4 :: Outcome(net, server, second, transaction, k, o[k])
    ensures found == Kind(net, local, server.Main(), second)
  {
    hide Move, Agrees, Same, Answered, Reply, Turned, After, Decide, Kind, AddressOf;
    var results, sent;
    NatFound(AddressOf(local), local, net, server, second, transaction, o);
    found, results, sent := Discover(AddressOf(local), transaction, Talk(o));
  }

  /** A symmetric NAT is found only when test I is repeated at another endpoint; at the same one it passes for a cone. */
  lemma SymmetricNeedsSecond(net: Network, local: Endpoint, main: Endpoint)
    ensures Kind(net, local, main, main) != Symmetric
  {
  }
}
