/**
 The WebSocket handlers of configs/mitm-mqtt.py over their shared dictionary of buffers, and what
 MqttFlows says of them for the parser of MqttPacket.
 */
module MqttSniffer {
  import opened Results
  import opened Bytes
  import opened MqttPacket
  import opened MqttReassembly
  import opened MqttFlows
  import opened MqttControlPacket
  import MqttLength

  ghost function MqttParser(decode: Decoder): Parser {
    data => Parse(decode, data)
  }

  /** The parser of MqttPacket looks at a packet's own bytes only. */
  lemma MqttParserIsLocal(decode: Decoder)
    ensures Local(MqttParser(decode))
  {
    var parse := MqttParser(decode);
    forall b | parse(b).Complete? ensures |parse(b).extra| < |b| {
      assert parse(b) == Parse(decode, b);
    }
    forall b, more | Instance(b, more) && parse(b).Complete?
      ensures b == parse(b).packet.raw + parse(b).extra
      ensures parse(b + more) == Complete(parse(b).packet, parse(b).extra + more)
      ensures parse(parse(b).packet.raw) == Complete(parse(b).packet, [])
    {
      AppendKeepsOutcome(decode, b, more);
      ParseOwnBytes(decode, b);
    }
  }

  /** A packet that cannot be parsed blocks its flow for good: every later message is kept and raises the same exception. */
  lemma FailureIsPermanent(decode: Decoder, buffer: bytes, more: bytes)
    requires buffer != [] && Parse(decode, buffer).Raised? && Parse(decode, buffer).failure != IndexError
    ensures Local(MqttParser(decode))
    ensures Drain(MqttParser(decode), buffer + more) == Drained([], buffer + more, Some(Parse(decode, buffer).failure))
  {
    MqttParserIsLocal(decode);
    AppendKeepsOutcome(decode, buffer, more);
  }

  /**
   Only a cut fixed header recovers.  What is left is at most four bytes, all but the first with the
   continuation bit, and whatever packet they are the beginning of is dumped when its other bytes arrive.
   */
  lemma IndexErrorIsTransient(decode: Decoder, buffer: bytes, more: bytes)
    ensures Local(MqttParser(decode))
    ensures var parse := MqttParser(decode);
            var d := Drain(parse, buffer);
            d.raised == Some(IndexError) ==>
              && 1 <= |d.rest| <= 4 && (forall k :: 1 <= k < |d.rest| ==> d.rest[k] >= 128)
              && (Parse(decode, d.rest + more).Complete? && Parse(decode, d.rest + more).extra == [] ==>
                    Drain(parse, buffer + more) == Drained(d.dumped + [Parse(decode, d.rest + more).packet], [], None))
  {
    var parse := MqttParser(decode);
    MqttParserIsLocal(decode);
    var d := Drain(parse, buffer);
    DrainStopsStuck(parse, buffer);
    IndexErrorIsCutHeader(decode, d.rest);
    if Parse(decode, d.rest + more).Complete? && Parse(decode, d.rest + more).extra == [] {
      DrainAppend(parse, buffer, more);
      DrainStep(parse, d.rest + more, Parse(decode, d.rest + more).packet, []);
    }
  }

  /**
   When a cut header stops being cut: it stays cut while there are at most four bytes, all but the first
   with the continuation bit.  A byte without that bit makes it whole if at most three were there before,
   and after four any byte makes it malformed.
   */
  lemma CutHeaderRecovers(decode: Decoder, rest: bytes, more: bytes)
    requires rest != [] && Parse(decode, rest) == Raised(IndexError)
    ensures Parse(decode, rest + more) == Raised(IndexError)
            <==> |rest + more| <= 4 && forall k :: 0 <= k < |more| ==> more[k] >= 128
    ensures |rest| <= 3 && more != [] && more[0] < 128 ==> Framed(rest + more).Frame?
    ensures |rest| == 4 && more != [] ==> Parse(decode, rest + more) == Raised(MalformedRemainingLength)
  {
    var all := rest + more;
    IndexErrorIsCutHeader(decode, rest);
    IndexErrorIsCutHeader(decode, all);
    MqttLength.MalformedExactlyOnFourthByte(all[1..]);
    assert forall k :: 0 <= k < |more| ==> more[k] == all[|rest| + k];
    assert forall k :: 1 <= k < |rest| ==> all[1..][k - 1] == rest[k];
    if more != [] { assert all[1..][|rest| - 1] == more[0]; }
  }

  /** parse is the parser of MqttPacket at the byte strings where that is wanted. */
  ghost predicate Implements(decode: Decoder, parse: Parser) {
    forall b {:trigger Instance(b, b)} :: Instance(b, b) ==> parse(b) == Parse(decode, b)
  }

  class Sniffer {
    const decode: Decoder
    ghost const parse: Parser
    var wsBuffer: map<Flow, bytes>
    ghost var log: seq<(Flow, Packet)>

    ghost predicate Valid() {
      Local(parse) && Implements(decode, parse)
    }

    constructor (decode: Decoder)
      ensures Valid() && parse == MqttParser(decode) && Contents() == NO_FLOWS
    {
      MqttParserIsLocal(decode);
      this.decode, parse, wsBuffer, log := decode, MqttParser(decode), map[], [];
    }

    ghost function Contents(): State
      reads this
    {
      State(wsBuffer, log)
    }

    method WebsocketStart(fid: Flow)
      requires Valid()
      modifies this`wsBuffer
      ensures Contents() == Step(parse, old(Contents()), Started(fid)).0
    {
      wsBuffer := wsBuffer[fid := []];
    }

    method WebsocketMessage(fid: Flow, content: bytes) returns (raised: Option<Failure>)
      requires Valid()
      modifies this
      ensures (Contents(), raised) == Step(parse, old(Contents()), Received(fid, content))
    {
      if fid !in wsBuffer { return Some(KeyError); }
      wsBuffer := wsBuffer[fid := wsBuffer[fid] + content];
      raised := DrainBuffer(fid);
      assert wsBuffer == old(wsBuffer)[fid := wsBuffer[fid]];
    }

    /** The loop over the buffer. */
    method DrainBuffer(fid: Flow) returns (raised: Option<Failure>)
      requires Valid() && fid in wsBuffer
      modifies this
      ensures var d := Drain(parse, old(wsBuffer)[fid]);
              && wsBuffer == old(wsBuffer)[fid := d.rest] && log == old(log) + Tagged(fid, d.dumped) && raised == d.raised
    {
      ghost var drained := Drain(parse, wsBuffer[fid]);
      ghost var packets: seq<Packet> := [];
      raised := None;
      DrainFromNothing(drained);
      while wsBuffer[fid] != []
        invariant fid in wsBuffer && wsBuffer == old(wsBuffer)[fid := wsBuffer[fid]]
        invariant log == old(log) + Tagged(fid, packets)
        invariant Prefixed(packets, Drain(parse, wsBuffer[fid])) == drained
        invariant raised == None
        decreases |wsBuffer[fid]|
      {
        var status, extra, packet := Construct(wsBuffer[fid]);
        match status {
          case Blocked(_, _) =>
            break;
          case Failed(failure) =>
            raised := Some(failure);
            break;
          case Built =>
            DrainNext(parse, packets, wsBuffer[fid], packet, extra);
            TaggedAppend(fid, packets, packet);
            log := log + [(fid, packet)];
            packets := packets + [packet];
            wsBuffer := wsBuffer[fid := extra];
        }
      }
      assert packets + [] == packets;
    }

    /** Builds a packet object from the buffer. */
    method Construct(data: bytes) returns (status: Status, extra: bytes, ghost packet: Packet)
      requires Valid()
      ensures OutcomeOf(status, packet, extra) == parse(data)
    {
      var mqttPacket := new MQTTControlPacket(decode, data);
      status := mqttPacket.Parse();
      extra, packet := mqttPacket.extra, mqttPacket.View();
      assert Instance(data, data);
    }

    /** Returns the bytes of a packet that was still missing its rest. */
    method WebsocketEnd(fid: Flow) returns (left: Result<bytes, Failure>)
      requires Valid()
      modifies this`wsBuffer
      ensures Contents() == Step(parse, old(Contents()), Ended(fid)).0
      ensures left == if fid in old(wsBuffer) then Success(old(wsBuffer)[fid]) else Failure(KeyError)
    {
      if fid !in wsBuffer { return Failure(KeyError); }
      left := Success(wsBuffer[fid]);
      wsBuffer := wsBuffer - {fid};
    }
  }

  /** What draining gives once the packets dumped before are put in front. */
  ghost function Prefixed(dumped: seq<Packet>, d: Drained): Drained {
    Drained(dumped + d.dumped, d.rest, d.raised)
  }

  lemma DrainFromNothing(d: Drained)
    ensures Prefixed([], d) == d
  {
    assert [] + d.dumped == d.dumped;
  }

  lemma DrainNext(parse: Parser, dumped: seq<Packet>, buffer: bytes, packet: Packet, extra: bytes)
    requires Local(parse) && buffer != [] && parse(buffer) == Complete(packet, extra)
    ensures |extra| < |buffer|
    ensures Prefixed(dumped, Drain(parse, buffer)) == Prefixed(dumped + [packet], Drain(parse, extra))
  {
    DrainStep(parse, buffer, packet, extra);
    Associate(dumped, [packet], Drain(parse, extra).dumped);
  }

  lemma {:induction false} TaggedAppend(flow: Flow, packets: seq<Packet>, packet: Packet)
    ensures Tagged(flow, packets + [packet]) == Tagged(flow, packets) + [(flow, packet)]
  {
    if packets == [] {
      assert packets + [packet] == [packet];
    } else {
      TaggedAppend(flow, packets[1..], packet);
      assert (packets + [packet])[1..] == packets[1..] + [packet];
    }
  }
}
