/**
 What configs/mitm-mqtt.py makes of the bytes of one MQTT control packet (MQTT 3.1.1, sections
 2.2, 3.1, 3.3 and 3.8), as functions of the bytes.  The class in MqttControlPacket.dfy computes them.
 */
module MqttPacket {
  import opened Results
  import opened Bytes
  import MqttLength

  /** bytes.decode("utf-8"); None stands for UnicodeDecodeError.  Utf8.Decode is one. */
  type Decoder = bytes -> Option<string>

  const CONNECT: nat := 1
  const PUBLISH: nat := 3
  const SUBSCRIBE: nat := 8

  /** The exceptions a parse can end in, other than waiting for more bytes. */
  datatype Failure = IndexError | MalformedRemainingLength | StructError | UnicodeDecodeError | KeyError | SurplusField

  datatype PublishFlags = PublishFlags(dup: nat, qos: nat, retain: nat)

  datatype ConnectFlags = ConnectFlags(
    cleanSession: bool, will: bool, willQos: nat, willRetain: bool, password: bool, userName: bool)

  datatype ConnectHeaders = ConnectHeaders(
    protocolName: bytes, protocolLevel: bytes, connectFlags: bytes, keepAlive: bytes)

  /** The payload dictionary of a CONNECT packet; a key that is absent is None. */
  datatype ConnectPayload = ConnectPayload(
    clientId: Option<string>, willTopic: Option<string>, willMessage: Option<bytes>,
    userName: Option<string>, password: Option<bytes>)

  datatype Content =
    | Connect(headers: ConnectHeaders, flags: Option<ConnectFlags>, connectPayload: ConnectPayload)
    | Publish(topicName: bytes, publishIdentifier: Option<bytes>, message: bytes)
    | Subscribe(subscribeIdentifier: bytes, topicFilters: map<string, bytes>)
    | Bare

  datatype Packet = Packet(
    raw: bytes, packetType: nat, publishFlags: Option<PublishFlags>, remainingLength: nat, content: Content)

  /** A whole packet and the bytes after it, too few bytes for the length announced, or an exception. */
  datatype Outcome = Complete(packet: Packet, extra: bytes) | Waiting(have: nat, need: nat) | Raised(failure: Failure)

  const NO_PAYLOAD := ConnectPayload(None, None, None, None, None)

  // ---- fields ----

  /** The length-prefixed field at an offset, with the number of bytes it announces; a field that is cut short keeps what is there. */
  function FieldAt(p: bytes, offset: nat): (r: Option<(nat, bytes)>)
    ensures r.Some? ==> r.value.0 >= 2
  {
    if offset + 2 > |p| then None
    else
      var length := U16(p[offset], p[offset + 1]);
      Some((length + 2, Slice(p, offset + 2, offset + 2 + length)))
  }

  /** The length-prefixed fields from an offset to the end of the packet. */
  function SplitFields(p: bytes, offset: nat): Result<seq<bytes>, Failure>
    decreases |p| - offset
  {
    if offset >= |p| then Success([])
    else
      match FieldAt(p, offset)
      case None => Failure(StructError)
      case Some((length, field)) =>
        match SplitFields(p, offset + length)
        case Failure(e) => Failure(e)
        case Success(fields) => Success([field] + fields)
  }

  // ---- CONNECT ----

  function ParseConnectHeaders(p: bytes, offset: nat): ConnectHeaders {
    ConnectHeaders(Slice(p, offset, offset + 6), Slice(p, offset + 6, offset + 7),
                   Slice(p, offset + 7, offset + 8), Slice(p, offset + 8, offset + 10))
  }

  function ParseConnectFlags(flagBytes: bytes): Option<ConnectFlags> {
    if flagBytes == [] then None
    else
      var b := flagBytes[0] as nat;
      Some(ConnectFlags(b / 0x02 % 2 == 1, b / 0x04 % 2 == 1, b / 8 % 4,
                        b / 0x20 % 2 == 1, b / 0x40 % 2 == 1, b / 0x80 == 1))
  }

  /** Stores one more field under the first name that is due and not taken yet. */
  function AssignField(decode: Decoder, flags: Option<ConnectFlags>, p: ConnectPayload, field: bytes): Result<ConnectPayload, Failure> {
    if p.clientId == None then
      match decode(field) case None => Failure(UnicodeDecodeError) case Some(s) => Success(p.(clientId := Some(s)))
    else if flags == None then Failure(KeyError)
    else if flags.value.will && p.willTopic == None then
      match decode(field) case None => Failure(UnicodeDecodeError) case Some(s) => Success(p.(willTopic := Some(s)))
    else if flags.value.will && p.willMessage == None then
      Success(p.(willMessage := Some(field)))
    else if flags.value.userName && p.userName == None then
      match decode(field) case None => Failure(UnicodeDecodeError) case Some(s) => Success(p.(userName := Some(s)))
    else if flags.value.password && p.password == None then
      Success(p.(password := Some(field)))
    else Failure(SurplusField)
  }

  function AssignFields(decode: Decoder, flags: Option<ConnectFlags>, p: ConnectPayload, fields: seq<bytes>)
    : Result<ConnectPayload, Failure>
    decreases |fields|
  {
    if fields == [] then Success(p)
    else
      match AssignField(decode, flags, p, fields[0])
      case Failure(e) => Failure(e)
      case Success(p') => AssignFields(decode, flags, p', fields[1..])
  }

  function ParseConnectPayload(decode: Decoder, flags: Option<ConnectFlags>, p: bytes, offset: nat): Result<ConnectPayload, Failure> {
    match SplitFields(p, offset)
    case Failure(e) => Failure(e)
    case Success(fields) => AssignFields(decode, flags, NO_PAYLOAD, fields)
  }

  function ParseConnect(decode: Decoder, p: bytes, offset: nat): Result<Content, Failure> {
    var headers := ParseConnectHeaders(p, offset);
    var flags := ParseConnectFlags(headers.connectFlags);
    match ParseConnectPayload(decode, flags, p, offset + 10)
    case Failure(e) => Failure(e)
    case Success(payload) => Success(Connect(headers, flags, payload))
  }

  // ---- PUBLISH ----

  function ParsePublishFlags(first: byte): PublishFlags {
    var b := first as nat;
    PublishFlags(b / 8 % 2, b / 2 % 4, b % 2)
  }

  predicate HasIdentifier(qos: nat) {
    qos == 1 || qos == 2
  }

  function ParsePublish(qos: nat, p: bytes, offset: nat): Result<Content, Failure> {
    match FieldAt(p, offset)
    case None => Failure(StructError)
    case Some((length, topic)) =>
      if HasIdentifier(qos) then
        var next := offset + length;
        Success(Publish(topic, Some(Slice(p, next, next + 2)), From(p, offset + 2 + |topic| + 2)))
      else Success(Publish(topic, None, From(p, offset + 2 + |topic|)))
  }

  // ---- SUBSCRIBE ----

  /** The topic filter at an offset with its QoS byte, and the offset after it. */
  function FilterAt(decode: Decoder, p: bytes, offset: nat): (r: Result<(nat, string, bytes), Failure>)
    ensures r.Success? ==> r.value.0 > offset
    ensures r.Failure? ==> r.error in {StructError, UnicodeDecodeError}
  {
    match FieldAt(p, offset)
    case None => Failure(StructError)
    case Some((length, topicBytes)) =>
      var next := offset + length;
      match decode(topicBytes)
      case None => Failure(UnicodeDecodeError)
      case Some(topic) => Success((next + 1, topic, Slice(p, next, next + 1)))
  }

  /** The filters from an offset to the end of the packet, stored one after the other. */
  function ParseFilters(decode: Decoder, p: bytes, offset: nat, filters: map<string, bytes>): Result<map<string, bytes>, Failure>
    decreases |p| - offset
  {
    if offset >= |p| then Success(filters)
    else
      match FilterAt(decode, p, offset)
      case Failure(e) => Failure(e)
      case Success((next, topic, qos)) => ParseFilters(decode, p, next, filters[topic := qos])
  }

  /** Going on from an offset with these filters ends in the result. */
  ghost predicate LeadsTo(decode: Decoder, p: bytes, offset: nat, m: map<string, bytes>, result: Result<map<string, bytes>, Failure>) {
    ParseFilters(decode, p, offset, m) == result
  }

  lemma FilterNext(decode: Decoder, p: bytes, offset: nat, m: map<string, bytes>, result: Result<map<string, bytes>, Failure>)
    requires offset < |p| && LeadsTo(decode, p, offset, m, result)
    ensures match FilterAt(decode, p, offset)
            case Failure(e) => result == Failure(e)
            case Success((next, topic, qos)) => LeadsTo(decode, p, next, m[topic := qos], result)
  {
  }

  function ParseSubscribe(decode: Decoder, p: bytes, offset: nat): Result<Content, Failure> {
    match ParseFilters(decode, p, offset + 2, map[])
    case Failure(e) => Failure(e)
    case Success(filters) => Success(Subscribe(Slice(p, offset, offset + 2), filters))
  }

  // ---- whole packets ----

  function TypeOf(first: byte): nat {
    first as nat / 16
  }

  /** The variable header and payload of a packet, which start at an offset. */
  function ParseBody(decode: Decoder, p: bytes, offset: nat): Result<Content, Failure>
    requires p != []
  {
    if TypeOf(p[0]) == CONNECT then ParseConnect(decode, p, offset)
    else if TypeOf(p[0]) == PUBLISH then ParsePublish(ParsePublishFlags(p[0]).qos, p, offset)
    else if TypeOf(p[0]) == SUBSCRIBE then ParseSubscribe(decode, p, offset)
    else Success(Bare)
  }

  /** What the fixed header says about the data: how many bytes the packet takes, and its Remaining Length. */
  datatype Framing = HeaderCut | BadLength | Frame(total: nat, length: nat)

  function Framed(data: bytes): (f: Framing)
    ensures f.Frame? ==> 2 <= f.total - f.length <= |data|
  {
    if data == [] then HeaderCut
    else
      match MqttLength.Decode(data[1..])
      case Cut => HeaderCut
      case Malformed => BadLength
      case Decoded(length, width) => Frame(1 + width + length, length)
  }

  /** How a variable header and a payload are parsed, from the packet and the offset where they start. */
  type BodyParser = (bytes, nat) -> Result<Content, Failure>

  function BodyOf(decode: Decoder): BodyParser {
    (p: bytes, offset: nat) => if p == [] then Success(Bare) else ParseBody(decode, p, offset)
  }

  function Parse(decode: Decoder, data: bytes): (o: Outcome)
    ensures o.Complete? ==> |o.packet.raw| >= 2 && data == o.packet.raw + o.extra
    ensures o.Waiting? ==> o.have == |data| < o.need
  {
    ParseWith(BodyOf(decode), data)
  }

  function ParseWith(body: BodyParser, data: bytes): (o: Outcome)
    ensures o.Complete? ==> |o.packet.raw| >= 2 && data == o.packet.raw + o.extra
    ensures o.Waiting? ==> o.have == |data| < o.need
  {
    match Framed(data)
    case HeaderCut => Raised(IndexError)
    case BadLength => Raised(MalformedRemainingLength)
    case Frame(total, length) =>
      if total > |data| then Waiting(|data|, total) else ParseWhole(body, data[..total], length, data[total..])
  }

  function FlagsOf(first: byte): Option<PublishFlags> {
    if TypeOf(first) == PUBLISH then Some(ParsePublishFlags(first)) else None
  }

  /** The outcome for a packet that is all there, followed by the bytes extra. */
  function ParseWhole(body: BodyParser, raw: bytes, length: nat, extra: bytes): (o: Outcome)
    requires length < |raw|
    ensures o.Complete? ==> o.packet.raw == raw && o.extra == extra
    ensures o.Complete? || o.Raised?
  {
    match body(raw, |raw| - length)
    case Failure(e) => Raised(e)
    case Success(content) => Complete(Packet(raw, TypeOf(raw[0]), FlagsOf(raw[0]), length, content), extra)
  }

  /** A packet that is all there is parsed from its own bytes, with the rest as extra bytes. */
  lemma ParseOfFrame(body: BodyParser, data: bytes, total: nat, length: nat)
    requires Framed(data) == Frame(total, length) && total <= |data|
    ensures ParseWith(body, data) == ParseWhole(body, data[..total], length, data[total..])
  {
  }

  lemma BodyOfConnect(decode: Decoder, p: bytes, offset: nat)
    requires p != [] && TypeOf(p[0]) == CONNECT
    ensures BodyOf(decode)(p, offset) == ParseConnect(decode, p, offset)
  {
  }

  lemma BodyOfPublish(decode: Decoder, p: bytes, offset: nat)
    requires p != [] && TypeOf(p[0]) == PUBLISH
    ensures FlagsOf(p[0]).Some? && BodyOf(decode)(p, offset) == ParsePublish(FlagsOf(p[0]).value.qos, p, offset)
  {
  }

  lemma BodyOfSubscribe(decode: Decoder, p: bytes, offset: nat)
    requires p != [] && TypeOf(p[0]) == SUBSCRIBE
    ensures BodyOf(decode)(p, offset) == ParseSubscribe(decode, p, offset)
  {
  }

  lemma BodyOfOther(decode: Decoder, p: bytes, offset: nat)
    requires p != [] && TypeOf(p[0]) !in {CONNECT, PUBLISH, SUBSCRIBE}
    ensures BodyOf(decode)(p, offset) == Success(Bare)
  {
  }

  // ---- locality ----

  lemma FramedAppend(data: bytes, more: bytes)
    requires Framed(data) != HeaderCut
    ensures Framed(data + more) == Framed(data)
  {
    MqttLength.DecodeAppend(data[1..], more, 0);
    assert (data + more)[1..] == data[1..] + more;
  }

  lemma WholeAppend(body: BodyParser, raw: bytes, length: nat, extra: bytes, more: bytes)
    requires length < |raw|
    ensures ParseWhole(body, raw, length, extra + more) ==
            match ParseWhole(body, raw, length, extra)
            case Complete(p, x) => Complete(p, x + more)
            case o => o
  {
  }

  /**
   A parse that completed, or failed other than by running out of bytes, comes out the same when
   bytes follow: only the extra bytes grow.
   */
  lemma AppendKeepsOutcome(decode: Decoder, data: bytes, more: bytes)
    requires !Parse(decode, data).Waiting? && Parse(decode, data) != Raised(IndexError)
    ensures Parse(decode, data + more) ==
            match Parse(decode, data)
            case Complete(p, extra) => Complete(p, extra + more)
            case o => o
  {
    AppendKeeps(BodyOf(decode), data, more);
  }

  /** This and the next hold for any way of parsing the body. */
  lemma AppendKeeps(body: BodyParser, data: bytes, more: bytes)
    requires !ParseWith(body, data).Waiting? && ParseWith(body, data) != Raised(IndexError)
    ensures ParseWith(body, data + more) ==
            match ParseWith(body, data)
            case Complete(p, extra) => Complete(p, extra + more)
            case o => o
  {
    FramedAppend(data, more);
    match Framed(data) {
      case Frame(total, length) =>
        CutAppend(data, more, total);
        WholeAppend(body, data[..total], length, data[total..], more);
      case _ =>
    }
  }

  lemma FramedPrefix(data: bytes, n: nat)
    requires Framed(data).Frame? && Framed(data).total - Framed(data).length <= n <= |data|
    ensures Framed(data[..n]) == Framed(data)
  {
    PrefixDecodes(data[1..], n - 1);
    assert data[..n][1..] == data[1..][..n - 1];
  }

  /** Only the packet itself is looked at: cutting off the extra bytes gives the same packet. */
  lemma ParseOwnBytes(decode: Decoder, data: bytes)
    requires Parse(decode, data).Complete?
    ensures Parse(decode, Parse(decode, data).packet.raw) == Complete(Parse(decode, data).packet, [])
  {
    OwnBytesParse(BodyOf(decode), data);
  }

  lemma OwnBytesParse(body: BodyParser, data: bytes)
    requires ParseWith(body, data).Complete?
    ensures ParseWith(body, ParseWith(body, data).packet.raw) == Complete(ParseWith(body, data).packet, [])
  {
    var total, length := Framed(data).total, Framed(data).length;
    var raw := data[..total];
    FramedPrefix(data, total);
    assert raw[..total] == raw && raw[total..] == [];
    WholeAppend(body, raw, length, [], data[total..]);
    assert [] + data[total..] == data[total..];
  }

  lemma PrefixDecodes(code: bytes, n: nat)
    requires n <= |code| && MqttLength.Decode(code).Decoded? && MqttLength.Decode(code).width <= n
    ensures MqttLength.Decode(code[..n]) == MqttLength.Decode(code)
  {
    MqttLength.UnfoldDecode(code);
    MqttLength.UnfoldDecode(code[..n]);
  }

  /**
   A parse that waits names the length it needs.  With fewer bytes it goes on waiting for the same
   length; from that length on it completes or fails for good.
   */
  lemma WaitingUntilNeed(decode: Decoder, data: bytes, more: bytes)
    requires Parse(decode, data).Waiting?
    ensures var need := Parse(decode, data).need;
            if |data| + |more| < need then Parse(decode, data + more) == Waiting(|data| + |more|, need)
            else !Parse(decode, data + more).Waiting? && Parse(decode, data + more) != Raised(IndexError)
  {
    FramedAppend(data, more);
    IndexErrorIsCutHeader(decode, data + more);
  }

  /** IndexError always means that the fixed header itself is cut: at most four bytes are there. */
  lemma IndexErrorIsCutHeader(decode: Decoder, data: bytes)
    ensures Parse(decode, data) == Raised(IndexError) <==> Framed(data) == HeaderCut
    ensures Framed(data) == HeaderCut <==> |data| <= 4 && forall k :: 1 <= k < |data| ==> data[k] >= 128
  {
    if data != [] {
      MqttLength.MalformedExactlyOnFourthByte(data[1..]);
      assert forall k :: 1 <= k < |data| ==> data[k] == data[1..][k - 1];
    }
    match Framed(data) {
      case Frame(total, length) =>
        if total <= |data| {
          ParseOfFrame(BodyOf(decode), data, total, length);
          WholeFailures(decode, data[..total], length, data[total..]);
        }
      case _ =>
    }
  }

  lemma WholeFailures(decode: Decoder, raw: bytes, length: nat, extra: bytes)
    requires length < |raw|
    ensures ParseWhole(BodyOf(decode), raw, length, extra).Raised? ==>
              ParseWhole(BodyOf(decode), raw, length, extra).failure in {StructError, UnicodeDecodeError, SurplusField}
  {
    BodyFailures(decode, raw, |raw| - length);
  }

  /** The body can fail in three ways only; in particular the flags are never missing when they are needed. */
  lemma BodyFailures(decode: Decoder, p: bytes, offset: nat)
    requires p != []
    ensures ParseBody(decode, p, offset).Failure? ==>
              ParseBody(decode, p, offset).error in {StructError, UnicodeDecodeError, SurplusField}
  {
    SplitFailures(p, offset + 10);
    FilterFailures(decode, p, offset + 2, map[]);
    match SplitFields(p, offset + 10) {
      case Failure(_) =>
      case Success(fields) => AssignFailures(decode, ParseConnectFlags(Slice(p, offset + 7, offset + 8)), NO_PAYLOAD, fields);
    }
  }

  lemma {:induction false} SplitFailures(p: bytes, offset: nat)
    ensures SplitFields(p, offset).Failure? ==> SplitFields(p, offset).error == StructError
    decreases |p| - offset
  {
    if offset < |p| {
      match FieldAt(p, offset) {
        case None =>
        case Some((length, _)) => SplitFailures(p, offset + length);
      }
    }
  }

  lemma {:induction false} FilterFailures(decode: Decoder, p: bytes, offset: nat, filters: map<string, bytes>)
    ensures ParseFilters(decode, p, offset, filters).Failure? ==>
              ParseFilters(decode, p, offset, filters).error in {StructError, UnicodeDecodeError}
    decreases |p| - offset
  {
    if offset < |p| && FilterAt(decode, p, offset).Success? {
      var (next, topic, qos) := FilterAt(decode, p, offset).value;
      FilterFailures(decode, p, next, filters[topic := qos]);
    }
  }

  lemma {:induction false} AssignFailures(decode: Decoder, flags: Option<ConnectFlags>, p: ConnectPayload, fields: seq<bytes>)
    requires flags.Some? || fields == []
    ensures AssignFields(decode, flags, p, fields).Failure? ==>
              AssignFields(decode, flags, p, fields).error in {UnicodeDecodeError, SurplusField}
    decreases |fields|
  {
    if fields != [] {
      match AssignField(decode, flags, p, fields[0]) {
        case Failure(_) =>
        case Success(p') => AssignFailures(decode, flags, p', fields[1..]);
      }
    }
  }
}
