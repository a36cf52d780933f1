/**
  Packet-capture metrics: one pass over interleaved packets that keeps a record per TCP stream. The record is specified
  by what it reports about the stream's own packets: first occurrences, counts and sums.
  */
module Pcap {
  import opened Prelude

  /** One line of tshark output; numeric columns are already converted, an unreadable number being 0 or None. */
  datatype Packet = Packet(
    stream: string,
    timestamp: Option<real>,
    syn: string,
    ack: string,
    retransmission: string,
    moreFragments: string,
    fragmentOffset: int,
    contentType: string,
    recordLength: int,
    handshakeType: string,
    frameLength: int,
    version: string,
    group: string)

  datatype Flow = Flow(
    stream: string,
    clientHelloBytes: Option<int>,
    serverHelloBytes: Option<int>,
    handshakeSegments: nat,
    handshakeBytes: int,
    retransmissions: nat,
    ipFragments: nat,
    synTime: Option<real>,
    firstApplicationTime: Option<real>,
    tlsVersion: string,
    negotiatedGroup: string)

  // ---------------------------------------------------------------- what one packet shows

  const RECORD_HEADER: int := 5

  predicate IsHandshake(p: Packet) {
    p.contentType == "22"
  }

  predicate IsClientHello(p: Packet) {
    IsHandshake(p) && p.handshakeType == "1"
  }

  predicate IsServerHello(p: Packet) {
    IsHandshake(p) && p.handshakeType == "2"
  }

  predicate IsRetransmission(p: Packet) {
    p.retransmission != ""
  }

  predicate IsFragment(p: Packet) {
    p.moreFragments == "1" || p.fragmentOffset > 0
  }

  function HelloSize(p: Packet): int {
    p.recordLength + RECORD_HEADER
  }

  function ClientHelloSize(p: Packet): Option<int> {
    if IsClientHello(p) then Some(HelloSize(p)) else None
  }

  function ServerHelloSize(p: Packet): Option<int> {
    if IsServerHello(p) then Some(HelloSize(p)) else None
  }

  function ServerHelloGroup(p: Packet): Option<string> {
    if IsServerHello(p) then Some(p.group) else None
  }

  function HandshakeLength(p: Packet): int {
    if IsHandshake(p) then p.frameLength else 0
  }

  function SynTime(p: Packet): Option<real> {
    if p.syn == "1" && p.ack != "1" then p.timestamp else None
  }

  function ApplicationTime(p: Packet): Option<real> {
    if p.contentType == "23" then p.timestamp else None
  }

  function Version(p: Packet): Option<string> {
    if p.version != "" then Some(p.version) else None
  }

  // ---------------------------------------------------------------- what a stream shows

  function First<T>(packets: seq<Packet>, f: Packet -> Option<T>): Option<T> {
    if packets == [] then None
    else
      var earlier := First(packets[..|packets| - 1], f);
      if earlier.Some? then earlier else f(packets[|packets| - 1])
  }

  function HowMany(packets: seq<Packet>, f: Packet -> bool): nat {
    if packets == [] then 0
    else HowMany(packets[..|packets| - 1], f) + (if f(packets[|packets| - 1]) then 1 else 0)
  }

  function SumOf(packets: seq<Packet>, f: Packet -> int): int {
    if packets == [] then 0 else SumOf(packets[..|packets| - 1], f) + f(packets[|packets| - 1])
  }

  function OrEmpty(s: Option<string>): string {
    if s.Some? then s.value else ""
  }

  /** The metrics of a stream, from its packets alone. */
  function FlowOf(stream: string, packets: seq<Packet>): Flow {
    Flow(stream,
         First(packets, ClientHelloSize),
         First(packets, ServerHelloSize),
         HowMany(packets, IsHandshake),
         SumOf(packets, HandshakeLength),
         HowMany(packets, IsRetransmission),
         HowMany(packets, IsFragment),
         First(packets, SynTime),
         First(packets, ApplicationTime),
         OrEmpty(First(packets, Version)),
         OrEmpty(First(packets, ServerHelloGroup)))
  }

  /** The packets of one stream, in capture order. */
  function PacketsOf(packets: seq<Packet>, stream: string): seq<Packet> {
    if packets == [] then []
    else
      var last := packets[|packets| - 1];
      PacketsOf(packets[..|packets| - 1], stream) + (if last.stream == stream then [last] else [])
  }

  ghost function Streams(packets: seq<Packet>): set<string> {
    set p | p in packets && p.stream != "" :: p.stream
  }

  /** One flow per named stream; packets without a stream are ignored. */
  ghost function FlowsOf(packets: seq<Packet>): map<string, Flow> {
    map stream | stream in Streams(packets) :: FlowOf(stream, PacketsOf(packets, stream))
  }

  /** The named streams in order of their first packets, as a dictionary lists its keys. */
  function StreamOrder(packets: seq<Packet>): seq<string> {
    if packets == [] then []
    else
      var earlier, stream := StreamOrder(packets[..|packets| - 1]), packets[|packets| - 1].stream;
      if stream != "" && stream !in earlier then earlier + [stream] else earlier
  }

  function FlowList(packets: seq<Packet>): seq<Flow> {
    var order := StreamOrder(packets);
    seq(|order|, i requires 0 <= i < |order| => FlowOf(order[i], PacketsOf(packets, order[i])))
  }

  datatype Note = FlowsWithoutClientHello | LowerBoundOnly

  // ---------------------------------------------------------------- one packet more

  lemma FirstSnoc<T>(packets: seq<Packet>, p: Packet, f: Packet -> Option<T>)
    ensures First(packets + [p], f) == if First(packets, f).Some? then First(packets, f) else f(p)
  {
    assert (packets + [p])[..|packets|] == packets;
  }

  lemma HowManySnoc(packets: seq<Packet>, p: Packet, f: Packet -> bool)
    ensures HowMany(packets + [p], f) == HowMany(packets, f) + (if f(p) then 1 else 0)
  {
    assert (packets + [p])[..|packets|] == packets;
  }

  lemma SumSnoc(packets: seq<Packet>, p: Packet, f: Packet -> int)
    ensures SumOf(packets + [p], f) == SumOf(packets, f) + f(p)
  {
    assert (packets + [p])[..|packets|] == packets;
  }

  /** The group and the size are reported from the same packet: the first ServerHello. */
  lemma {:induction false} SameServerHello(packets: seq<Packet>)
    ensures First(packets, ServerHelloSize).Some? <==> First(packets, ServerHelloGroup).Some?
  {
    if packets == [] {
    } else {
      SameServerHello(packets[..|packets| - 1]);
    }
  }

  lemma {:induction false} VersionIsNotEmpty(packets: seq<Packet>)
    ensures First(packets, Version).Some? <==> OrEmpty(First(packets, Version)) != ""
  {
    if packets == [] {
    } else {
      VersionIsNotEmpty(packets[..|packets| - 1]);
    }
  }

  lemma FlowSnoc(stream: string, seen: seq<Packet>, p: Packet)
    ensures var f, g := FlowOf(stream, seen), FlowOf(stream, seen + [p]);
            && g.stream == f.stream
            && g.clientHelloBytes == (if f.clientHelloBytes.Some? then f.clientHelloBytes else ClientHelloSize(p))
            && g.serverHelloBytes == (if f.serverHelloBytes.Some? then f.serverHelloBytes else ServerHelloSize(p))
            && g.handshakeSegments == f.handshakeSegments + (if IsHandshake(p) then 1 else 0)
            && g.handshakeBytes == f.handshakeBytes + HandshakeLength(p)
            && g.retransmissions == f.retransmissions + (if IsRetransmission(p) then 1 else 0)
            && g.ipFragments == f.ipFragments + (if IsFragment(p) then 1 else 0)
            && g.synTime == (if f.synTime.Some? then f.synTime else SynTime(p))
            && g.firstApplicationTime == (if f.firstApplicationTime.Some? then f.firstApplicationTime
                                          else ApplicationTime(p))
            && g.tlsVersion == (if f.tlsVersion != "" then f.tlsVersion else p.version)
            && g.negotiatedGroup == (if f.serverHelloBytes.None? && IsServerHello(p) then p.group
                                     else f.negotiatedGroup)
  {
    hide First, HowMany, SumOf;
    FirstSnoc(seen, p, ClientHelloSize);
    FirstSnoc(seen, p, ServerHelloSize);
    FirstSnoc(seen, p, ServerHelloGroup);
    FirstSnoc(seen, p, SynTime);
    FirstSnoc(seen, p, ApplicationTime);
    FirstSnoc(seen, p, Version);
    HowManySnoc(seen, p, IsHandshake);
    HowManySnoc(seen, p, IsRetransmission);
    HowManySnoc(seen, p, IsFragment);
    SumSnoc(seen, p, HandshakeLength);
    SameServerHello(seen);
    VersionIsNotEmpty(seen);
  }

  lemma FlowWithoutHelloHasNoGroup(stream: string, seen: seq<Packet>)
    requires FlowOf(stream, seen).serverHelloBytes.None?
    ensures FlowOf(stream, seen).negotiatedGroup == ""
  {
    SameServerHello(seen);
  }

  /** The part of the loop body that looks at the TCP and IP columns. */
  method NoteTransport(flow0: Flow, p: Packet) returns (flow: Flow)
    ensures flow == flow0.(synTime := if flow0.synTime.Some? then flow0.synTime else SynTime(p),
                           retransmissions := flow0.retransmissions + (if IsRetransmission(p) then 1 else 0),
                           ipFragments := flow0.ipFragments + (if IsFragment(p) then 1 else 0))
  {
    flow := flow0;
    if p.syn == "1" && p.ack != "1" {
      if flow.synTime.None? && p.timestamp.Some? {
        flow := flow.(synTime := p.timestamp);
      }
    }
    if p.retransmission != "" {
      flow := flow.(retransmissions := flow.retransmissions + 1);
    }
    if p.moreFragments == "1" || p.fragmentOffset > 0 {
      flow := flow.(ipFragments := flow.ipFragments + 1);
    }
  }

  /** The part of the loop body that looks at handshake records. */
  method NoteHandshake(flow0: Flow, p: Packet) returns (flow: Flow)
    requires flow0.serverHelloBytes.None? ==> flow0.negotiatedGroup == ""
    ensures flow == flow0.(handshakeSegments := flow0.handshakeSegments + (if IsHandshake(p) then 1 else 0),
                           handshakeBytes := flow0.handshakeBytes + HandshakeLength(p),
                           clientHelloBytes := if flow0.clientHelloBytes.Some? then flow0.clientHelloBytes
                                               else ClientHelloSize(p),
                           serverHelloBytes := if flow0.serverHelloBytes.Some? then flow0.serverHelloBytes
                                               else ServerHelloSize(p),
                           negotiatedGroup := if flow0.serverHelloBytes.None? && IsServerHello(p) then p.group
                                              else flow0.negotiatedGroup)
  {
    flow := flow0;
    if p.contentType == "22" {
      flow := flow.(handshakeSegments := flow.handshakeSegments + 1,
                    handshakeBytes := flow.handshakeBytes + p.frameLength);
      if p.handshakeType == "1" && flow.clientHelloBytes.None? {
        flow := flow.(clientHelloBytes := Some(p.recordLength + 5));
      } else if p.handshakeType == "2" && flow.serverHelloBytes.None? {
        flow := flow.(serverHelloBytes := Some(p.recordLength + 5));
        if p.group != "" {
          flow := flow.(negotiatedGroup := p.group);
        }
      }
    }
  }

  /** The body of the loop: the record of a stream, brought up to date with one more of its packets. */
  method UpdateFlow(stream: string, flow0: Flow, p: Packet, ghost seen: seq<Packet>) returns (flow: Flow)
    requires flow0 == FlowOf(stream, seen)
    ensures flow == FlowOf(stream, seen + [p])
  {
    hide FlowOf, IsRetransmission, IsFragment, IsHandshake, IsServerHello, SynTime, ClientHelloSize, ServerHelloSize,
         HandshakeLength;
    FlowSnoc(stream, seen, p);
    if flow0.serverHelloBytes.None? {
      FlowWithoutHelloHasNoGroup(stream, seen);
    }
    flow := NoteTransport(flow0, p);
    flow := NoteHandshake(flow, p);
    if p.contentType == "23" && flow.firstApplicationTime.None? {
      flow := flow.(firstApplicationTime := p.timestamp);
    }
    if p.version != "" && flow.tlsVersion == "" {
      flow := flow.(tlsVersion := p.version);
    }
  }

  lemma PacketsSnoc(packets: seq<Packet>, p: Packet, stream: string)
    ensures PacketsOf(packets + [p], stream) ==
            if p.stream == stream then PacketsOf(packets, stream) + [p] else PacketsOf(packets, stream)
  {
    assert (packets + [p])[..|packets|] == packets;
  }

  lemma {:induction false} PacketsOfMembers(packets: seq<Packet>, stream: string, p: Packet)
    ensures p in PacketsOf(packets, stream) <==> p in packets && p.stream == stream
  {
    if packets == [] {
    } else {
      var init, last := packets[..|packets| - 1], packets[|packets| - 1];
      assert packets == init + [last];
      PacketsOfMembers(init, stream, p);
    }
  }

  lemma StreamsSnoc(packets: seq<Packet>, p: Packet)
    ensures Streams(packets + [p]) == Streams(packets) + (if p.stream != "" then {p.stream} else {})
  {
    assert forall q :: q in packets + [p] <==> q in packets || q == p;
    forall stream ensures stream in Streams(packets + [p]) <==>
                          stream in Streams(packets) || (p.stream != "" && stream == p.stream)
    {
      if stream in Streams(packets) {
        var q :| q in packets && q.stream != "" && q.stream == stream;
        assert q in packets + [p];
      }
      assert p in packets + [p];
    }
  }

  lemma {:induction false} UnseenStream(packets: seq<Packet>, stream: string)
    requires stream !in Streams(packets) && stream != ""
    ensures PacketsOf(packets, stream) == []
  {
    if PacketsOf(packets, stream) != [] {
      PacketsOfMembers(packets, stream, PacketsOf(packets, stream)[0]);
    }
  }

  /** One packet more changes the flow of its own stream and no other. */
  lemma FlowsSnoc(seen: seq<Packet>, p: Packet)
    ensures FlowsOf(seen + [p]) ==
            if p.stream == "" then FlowsOf(seen)
            else FlowsOf(seen)[p.stream := FlowOf(p.stream, PacketsOf(seen, p.stream) + [p])]
  {
    hide FlowOf, Streams, PacketsOf;
    StreamsSnoc(seen, p);
    PacketsSnoc(seen, p, p.stream);
    forall stream | stream in Streams(seen) && stream != p.stream
      ensures PacketsOf(seen + [p], stream) == PacketsOf(seen, stream)
    {
      PacketsSnoc(seen, p, stream);
    }
    StreamsAreNamed(seen);
  }

  lemma StreamsAreNamed(packets: seq<Packet>)
    ensures "" !in Streams(packets)
  {
  }

  lemma OrderSnoc(packets: seq<Packet>, p: Packet)
    ensures StreamOrder(packets + [p]) ==
            if p.stream != "" && p.stream !in StreamOrder(packets) then StreamOrder(packets) + [p.stream]
            else StreamOrder(packets)
  {
    assert (packets + [p])[..|packets|] == packets;
  }

  /** The listing has every named stream once. */
  lemma {:induction false} OrderListsEveryStreamOnce(packets: seq<Packet>)
    ensures forall stream :: stream in StreamOrder(packets) <==> stream in Streams(packets)
    ensures forall i, j :: 0 <= i < j < |StreamOrder(packets)| ==> StreamOrder(packets)[i] != StreamOrder(packets)[j]
  {
    if packets == [] {
    } else {
      var init, last := packets[..|packets| - 1], packets[|packets| - 1];
      assert packets == init + [last];
      hide StreamOrder, Streams;
      OrderListsEveryStreamOnce(init);
      OrderSnoc(init, last);
      StreamsSnoc(init, last);
      StreamsAreNamed(init);
    }
  }

  /** The listing grows only at its end, so streams are listed in the order in which they first appear. */
  lemma {:induction false} OrderIsStable(packets: seq<Packet>, n: nat)
    requires n <= |packets|
    ensures StreamOrder(packets[..n]) <= StreamOrder(packets)
  {
    if n == |packets| {
      assert packets[..n] == packets;
    } else {
      var init := packets[..|packets| - 1];
      OrderIsStable(init, n);
      assert init[..n] == packets[..n];
    }
  }

  /** `analyse`: every stream is reported once, in order of appearance, as if its packets had been captured alone. */
  method Analyse(packets: seq<Packet>) returns (listed: seq<Flow>, notes: seq<Note>)
    ensures listed == FlowList(packets)
    ensures notes ==
            if exists stream :: stream in Streams(packets) && First(PacketsOf(packets, stream), ClientHelloSize).None?
            then [FlowsWithoutClientHello, LowerBoundOnly]
            else [LowerBoundOnly]
  {
    var flows: map<string, Flow>, order: seq<string>;
    flows, order := CollectFlows(packets);
    hide FlowOf, Streams, PacketsOf, StreamOrder, First;
    OrderListsEveryStreamOnce(packets);
    listed := seq(|order|, i requires 0 <= i < |order| => flows[order[i]]);
    notes := [];
    if exists stream :: stream in flows && flows[stream].clientHelloBytes.None? {
      notes := notes + [FlowsWithoutClientHello];
    }
    notes := notes + [LowerBoundOnly];
    forall stream | stream in flows
      ensures flows[stream].clientHelloBytes == First(PacketsOf(packets, stream), ClientHelloSize)
    {
      HelloOfFlow(stream, PacketsOf(packets, stream));
    }
  }

  /** The loop of `analyse`: the dictionary, and the order in which its keys were added. */
  method CollectFlows(packets: seq<Packet>) returns (flows: map<string, Flow>, order: seq<string>)
    ensures flows == FlowsOf(packets) && order == StreamOrder(packets)
    ensures forall i :: 0 <= i < |order| ==> order[i] in flows
  {
    hide FlowOf, Streams, PacketsOf, StreamOrder;
    flows, order := map[], [];
    NoPackets();
    for i := 0 to |packets|
      invariant flows == FlowsOf(packets[..i]) && order == StreamOrder(packets[..i])
    {
      var p := packets[i];
      ghost var seen := packets[..i];
      assert packets[..i + 1] == seen + [p];
      FlowsSnoc(seen, p);
      OrderSnoc(seen, p);
      OrderListsEveryStreamOnce(seen);
      if p.stream != "" {
        if p.stream !in flows {
          UnseenStream(seen, p.stream);
          NewFlow(p.stream);
          order := order + [p.stream];
        }
        var flow := if p.stream in flows then flows[p.stream]
                    else Flow(p.stream, None, None, 0, 0, 0, 0, None, None, "", "");
        flow := UpdateFlow(p.stream, flow, p, PacketsOf(seen, p.stream));
        flows := flows[p.stream := flow];
      }
    }
    assert packets[..|packets|] == packets;
    OrderListsEveryStreamOnce(packets);
  }

  lemma NoPackets()
    ensures FlowsOf([]) == map[] && StreamOrder([]) == []
  {
  }

  lemma NewFlow(stream: string)
    ensures FlowOf(stream, []) == Flow(stream, None, None, 0, 0, 0, 0, None, None, "", "")
  {
  }

  lemma HelloOfFlow(stream: string, packets: seq<Packet>)
    ensures FlowOf(stream, packets).clientHelloBytes == First(packets, ClientHelloSize)
  {
  }

  // ---------------------------------------------------------------- separation

  lemma {:induction false} PacketsOfAgain(packets: seq<Packet>, stream: string)
    ensures PacketsOf(PacketsOf(packets, stream), stream) == PacketsOf(packets, stream)
  {
    if packets == [] {
    } else {
      var init, last := packets[..|packets| - 1], packets[|packets| - 1];
      PacketsOfAgain(init, stream);
      assert packets == init + [last];
      PacketsSnoc(init, last, stream);
      PacketsSnoc(PacketsOf(init, stream), last, stream);
    }
  }

  lemma StreamsOfOne(packets: seq<Packet>, stream: string)
    requires stream in Streams(packets)
    ensures Streams(PacketsOf(packets, stream)) == {stream}
  {
    var p :| p in packets && p.stream != "" && p.stream == stream;
    PacketsOfMembers(packets, stream, p);
    forall other ensures other in Streams(PacketsOf(packets, stream)) ==> other == stream {
      if other in Streams(PacketsOf(packets, stream)) {
        var q :| q in PacketsOf(packets, stream) && q.stream == other;
        PacketsOfMembers(packets, stream, q);
      }
    }
  }

  /** A stream analysed alone gives exactly the flow it has in the full capture. */
  lemma StreamSeparation(packets: seq<Packet>, stream: string)
    requires stream in Streams(packets)
    ensures FlowsOf(PacketsOf(packets, stream)) == map[stream := FlowsOf(packets)[stream]]
  {
    hide FlowOf, Streams, PacketsOf;
    StreamsOfOne(packets, stream);
    PacketsOfAgain(packets, stream);
  }

  lemma StreamIsNamed(packets: seq<Packet>, stream: string)
    ensures stream in Streams(packets) <==> stream != "" && PacketsOf(packets, stream) != []
  {
    if stream in Streams(packets) {
      var p :| p in packets && p.stream != "" && p.stream == stream;
      PacketsOfMembers(packets, stream, p);
    } else if stream != "" {
      UnseenStream(packets, stream);
    }
  }

  /** Two captures that interleave the same streams differently give the same flows. */
  lemma InterleavingIsIrrelevant(packets: seq<Packet>, packets': seq<Packet>)
    requires forall stream :: stream != "" ==> PacketsOf(packets, stream) == PacketsOf(packets', stream)
    ensures FlowsOf(packets) == FlowsOf(packets')
  {
    hide FlowOf, Streams, PacketsOf;
    forall stream ensures stream in Streams(packets) <==> stream in Streams(packets') {
      StreamIsNamed(packets, stream);
      StreamIsNamed(packets', stream);
    }
    assert Streams(packets) == Streams(packets');
    forall stream | stream in Streams(packets)
      ensures FlowsOf(packets)[stream] == FlowsOf(packets')[stream]
    {
      StreamIsNamed(packets, stream);
    }
  }
}
