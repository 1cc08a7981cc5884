/**
 Reassembly of MQTT packets from WebSocket messages (configs/mitm-mqtt.py): what the loop over the
 buffer dumps and leaves, and that neither depends on how the byte stream was cut into messages.
 */
module MqttReassembly {
  import opened Results
  import opened Bytes
  import opened MqttPacket

  type Parser = bytes -> Outcome

  /** Names the byte strings at which the laws of Local are wanted; always true. */
  ghost predicate Instance(b: bytes, more: bytes) {
    true
  }

  /** A complete packet takes at least one byte off the front. */
  ghost predicate Progress(parse: Parser) {
    forall b :: parse(b).Complete? ==> |parse(b).extra| < |b|
  }

  /** Parsing a packet looks at nothing but its own bytes: it stays the same when bytes follow, or none do. */
  ghost predicate Local(parse: Parser) {
    && Progress(parse)
    && forall b, more {:trigger Instance(b, more)} :: Instance(b, more) && parse(b).Complete? ==>
         var p := parse(b).packet;
         && b == p.raw + parse(b).extra
         && parse(b + more) == Complete(p, parse(b).extra + more)
         && parse(p.raw) == Complete(p, [])
  }

  lemma CompleteTakesFront(parse: Parser, b: bytes)
    requires Local(parse) && parse(b).Complete?
    ensures b == parse(b).packet.raw + parse(b).extra
  {
    assert Instance(b, []);
  }

  lemma CompleteStays(parse: Parser, b: bytes, more: bytes)
    requires Local(parse) && parse(b).Complete?
    ensures parse(b + more) == Complete(parse(b).packet, parse(b).extra + more)
  {
    assert Instance(b, more);
  }

  lemma CompleteOwnBytes(parse: Parser, b: bytes)
    requires Local(parse) && parse(b).Complete?
    ensures parse(parse(b).packet.raw) == Complete(parse(b).packet, [])
  {
    assert Instance(b, []);
  }

  /** What draining a buffer gives: the packets dumped, the bytes left, and the exception that ended it, if any. */
  datatype Drained = Drained(dumped: seq<Packet>, rest: bytes, raised: Option<Failure>)

  function Drain(parse: Parser, buffer: bytes): (d: Drained)
    requires Local(parse)
    ensures |d.rest| <= |buffer|
    decreases |buffer|
  {
    if buffer == [] then Drained([], [], None)
    else
      match parse(buffer)
      case Waiting(_, _) => Drained([], buffer, None)
      case Raised(e) => Drained([], buffer, Some(e))
      case Complete(packet, extra) =>
        var d := Drain(parse, extra);
        Drained([packet] + d.dumped, d.rest, d.raised)
  }

  lemma DrainStep(parse: Parser, buffer: bytes, packet: Packet, extra: bytes)
    requires Local(parse)
    requires parse(buffer) == Complete(packet, extra)
    ensures |extra| < |buffer|
    ensures var d := Drain(parse, extra);
            Drain(parse, buffer) == Drained([packet] + d.dumped, d.rest, d.raised)
  {
  }

  /** Nothing can be taken from the front of these bytes. */
  predicate Stuck(parse: Parser, b: bytes) {
    b == [] || !parse(b).Complete?
  }

  function RawBytes(packets: seq<Packet>): bytes {
    if packets == [] then [] else packets[0].raw + RawBytes(packets[1..])
  }

  /** Each of these packets is what its own bytes parse to. */
  ghost predicate OwnBytes(parse: Parser, packets: seq<Packet>) {
    forall k :: 0 <= k < |packets| ==> parse(packets[k].raw) == Complete(packets[k], [])
  }

  lemma RawBytesPrepend(first: Packet, packets: seq<Packet>)
    ensures RawBytes([first] + packets) == first.raw + RawBytes(packets)
  {
    assert ([first] + packets)[1..] == packets;
  }

  /** Conservation: the dumped packets' bytes followed by the buffer are the bytes that were there. */
  lemma {:induction false} DrainConserves(parse: Parser, buffer: bytes)
    requires Local(parse)
    ensures RawBytes(Drain(parse, buffer).dumped) + Drain(parse, buffer).rest == buffer
    decreases |buffer|
  {
    if buffer != [] && parse(buffer).Complete? {
      var packet, extra := parse(buffer).packet, parse(buffer).extra;
      DrainStep(parse, buffer, packet, extra);
      DrainConserves(parse, extra);
      CompleteTakesFront(parse, buffer);
      RawBytesPrepend(packet, Drain(parse, extra).dumped);
      Associate(packet.raw, RawBytes(Drain(parse, extra).dumped), Drain(parse, extra).rest);
    }
  }

  /**
   Every dumped packet is what its own bytes parse to, and draining stops only when it has to: the
   bytes left are none, too few, or fail, and in the last case that failure is raised.
   */
  lemma {:induction false} DrainStopsStuck(parse: Parser, buffer: bytes)
    requires Local(parse)
    ensures var d := Drain(parse, buffer);
            && OwnBytes(parse, d.dumped)
            && Stuck(parse, d.rest)
            && d.raised == if d.rest != [] && parse(d.rest).Raised? then Some(parse(d.rest).failure) else None
    decreases |buffer|
  {
    if buffer != [] && parse(buffer).Complete? {
      var packet, extra := parse(buffer).packet, parse(buffer).extra;
      DrainStep(parse, buffer, packet, extra);
      DrainStopsStuck(parse, extra);
      CompleteOwnBytes(parse, buffer);
    }
  }

  lemma DrainPacket(parse: Parser, packet: Packet, after: bytes)
    requires Local(parse)
    requires parse(packet.raw) == Complete(packet, [])
    ensures var d := Drain(parse, after);
            Drain(parse, packet.raw + after) == Drained([packet] + d.dumped, d.rest, d.raised)
  {
    CompleteStays(parse, packet.raw, after);
    assert [] + after == after;
    DrainStep(parse, packet.raw + after, packet, after);
  }

  /** The packets of a byte string are unique: any way of reading it as packets and a stuck rest is what draining finds. */
  lemma {:induction false} DrainUnique(parse: Parser, packets: seq<Packet>, rest: bytes)
    requires Local(parse)
    requires OwnBytes(parse, packets) && Stuck(parse, rest)
    ensures Drain(parse, RawBytes(packets) + rest).dumped == packets
    ensures Drain(parse, RawBytes(packets) + rest).rest == rest
    decreases |packets|
  {
    if packets == [] {
      assert RawBytes(packets) + rest == rest;
    } else {
      var tail := packets[1..];
      DrainUnique(parse, tail, rest);
      DrainPacket(parse, packets[0], RawBytes(tail) + rest);
      assert RawBytes(packets) + rest == packets[0].raw + (RawBytes(tail) + rest);
      assert [packets[0]] + tail == packets;
    }
  }

  /** Draining in two steps, as two messages do, is draining once. */
  lemma {:induction false} DrainAppend(parse: Parser, a: bytes, c: bytes)
    requires Local(parse)
    ensures var d := Drain(parse, a);
            var e := Drain(parse, d.rest + c);
            Drain(parse, a + c) == Drained(d.dumped + e.dumped, e.rest, e.raised)
    decreases |a|
  {
    var d := Drain(parse, a);
    if a != [] && parse(a).Complete? {
      var packet, extra := parse(a).packet, parse(a).extra;
      DrainStep(parse, a, packet, extra);
      DrainAppend(parse, extra, c);
      CompleteStays(parse, a, c);
      DrainStep(parse, a + c, packet, extra + c);
      var e := Drain(parse, d.rest + c);
      assert [packet] + (Drain(parse, extra).dumped + e.dumped) == ([packet] + Drain(parse, extra).dumped) + e.dumped;
    } else {
      var e := Drain(parse, a + c);
      assert [] + e.dumped == e.dumped;
    }
  }

  /** What feeding messages one after the other dumps and leaves; raised is the exception of the last one. */
  function Feed(parse: Parser, d: Drained, messages: seq<bytes>): Drained
    requires Local(parse)
    decreases |messages|
  {
    if messages == [] then d
    else
      var next := Drain(parse, d.rest + messages[0]);
      Feed(parse, Drained(d.dumped + next.dumped, next.rest, next.raised), messages[1..])
  }

  lemma {:induction false} FeedIsDrain(parse: Parser, received: bytes, messages: seq<bytes>)
    requires Local(parse)
    ensures Feed(parse, Drain(parse, received), messages) == Drain(parse, received + Concat(messages))
    decreases |messages|
  {
    if messages == [] {
      assert received + [] == received;
    } else {
      DrainAppend(parse, received, messages[0]);
      FeedIsDrain(parse, received + messages[0], messages[1..]);
      Associate(received, messages[0], Concat(messages[1..]));
    }
  }

  /**
   Chunking independence: however the same bytes are cut into messages, the same packets are dumped
   in the same order, the same bytes are left and the last message ends in the same way.
   */
  lemma ChunkingIndependence(parse: Parser, messages: seq<bytes>, others: seq<bytes>)
    requires Local(parse)
    requires Concat(messages) == Concat(others)
    ensures Feed(parse, Drained([], [], None), messages) == Feed(parse, Drained([], [], None), others)
    ensures Feed(parse, Drained([], [], None), messages) == Drain(parse, Concat(messages))
  {
    FeedIsDrain(parse, [], messages);
    FeedIsDrain(parse, [], others);
    assert [] + Concat(messages) == Concat(messages);
  }

  /** A sequence of packets cut into messages anywhere is dumped packet by packet, and nothing is left. */
  lemma PacketsSurviveChunking(parse: Parser, packets: seq<Packet>, messages: seq<bytes>)
    requires Local(parse)
    requires OwnBytes(parse, packets) && Concat(messages) == RawBytes(packets)
    ensures Feed(parse, Drained([], [], None), messages) == Drained(packets, [], None)
  {
    ChunkingIndependence(parse, messages, messages);
    DrainUnique(parse, packets, []);
    assert RawBytes(packets) + [] == RawBytes(packets);
    DrainStopsStuck(parse, RawBytes(packets));
  }
}
