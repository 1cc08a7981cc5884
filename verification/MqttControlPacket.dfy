/**
 The class MQTTControlPacket of configs/mitm-mqtt.py: one packet parsed step by step into fields, by
 offsets into the packet's bytes.  Parse computes what MqttPacket.Parse says.
 */
module MqttControlPacket {
  import opened Results
  import opened Bytes
  import opened MqttPacket
  import MqttLength

  /** How building a packet object ends: it exists, it waits for more bytes, or an exception is raised. */
  datatype Status = Built | Blocked(have: nat, need: nat) | Failed(failure: Failure)

  /** The result of a step that raises an exception or leaves a value. */
  function Report<T>(raised: Option<Failure>, value: T): Result<T, Failure> {
    if raised.Some? then Failure(raised.value) else Success(value)
  }

  function OutcomeOf(status: Status, packet: Packet, extra: bytes): Outcome {
    match status
    case Built => Complete(packet, extra)
    case Blocked(have, need) => Waiting(have, need)
    case Failed(e) => Raised(e)
  }

  /** Names the places of packets at which a body is parsed; always true. */
  ghost predicate At(p: bytes, offset: nat) {
    true
  }

  /** parse is the body parser of MqttPacket at the places where that is wanted. */
  ghost predicate ParsesBodies(decode: Decoder, parse: BodyParser) {
    forall p, offset: nat {:trigger At(p, offset)} :: At(p, offset) ==> parse(p, offset) == BodyOf(decode)(p, offset)
  }

  class MQTTControlPacket {
    const decode: Decoder
    ghost const parseBody: BodyParser
    var packet: bytes
    var extra: bytes
    var packetType: nat
    var publishFlags: Option<PublishFlags>
    var remainingLength: nat
    var totalLength: nat
    var topicName: bytes
    var packetIdentifier: Option<bytes>
    var message: bytes
    var topicFilters: map<string, bytes>
    var headers: ConnectHeaders
    var connectFlags: Option<ConnectFlags>
    var connectPayload: ConnectPayload

    constructor (decode: Decoder, data: bytes)
      ensures this.decode == decode && packet == data && parseBody == BodyOf(decode) && ParsesBodies(decode, parseBody)
    {
      this.decode, parseBody := decode, BodyOf(decode);
      packet, extra := data, [];
      packetType, remainingLength, totalLength := 0, 0, 0;
      publishFlags, packetIdentifier := None, None;
      topicName, message, topicFilters := [], [], map[];
      headers, connectFlags, connectPayload := ConnectHeaders([], [], [], []), None, NO_PAYLOAD;
    }

    /** The variable header and payload the attributes describe. */
    ghost function Content(): Content
      reads this
    {
      if packetType == CONNECT then Connect(headers, connectFlags, connectPayload)
      else if packetType == PUBLISH then Publish(topicName, packetIdentifier, message)
      else if packetType == SUBSCRIBE && packetIdentifier.Some? then Subscribe(packetIdentifier.value, topicFilters)
      else Bare
    }

    /** The packet the attributes describe. */
    ghost function View(): Packet
      reads this
    {
      Packet(packet, packetType, publishFlags, remainingLength, Content())
    }

    /** The rest of the initialiser, on the data the object was created with. */
    method Parse() returns (status: Status)
      requires parseBody == BodyOf(decode) && ParsesBodies(decode, parseBody)
      modifies this
      ensures OutcomeOf(status, View(), extra) == MqttPacket.Parse(decode, old(packet))
    {
      status := ParseData();
    }

    method ParseData() returns (status: Status)
      requires ParsesBodies(decode, parseBody)
      modifies this
      ensures OutcomeOf(status, View(), extra) == ParseWith(parseBody, old(packet))
    {
      var failure := ParseFixedHeader();
      if failure.Some? { return Failed(failure.value); }
      if totalLength > |packet| { return Blocked(|packet|, totalLength); }
      status := ParseWholePacket();
    }

    /** The rest when the packet is all there. */
    method ParseWholePacket() returns (status: Status)
      requires ParsesBodies(decode, parseBody)
      requires Framed(packet) == Frame(totalLength, remainingLength) && totalLength <= |packet|
      requires packetType == TypeOf(packet[0]) && publishFlags == FlagsOf(packet[0])
      modifies this
      ensures OutcomeOf(status, View(), extra) == ParseWith(parseBody, old(packet))
    {
      ghost var data := packet;
      packet, extra := packet[..totalLength], packet[totalLength..];
      assert |packet| == totalLength;
      var raised := ParseContent();
      ParseFromContent(parseBody, data, totalLength, remainingLength, Report(raised, Content()));
      status := if raised == None then Built else Failed(raised.value);
    }

    /** The attributes for the fixed header. */
    method ParseFixedHeader() returns (failure: Option<Failure>)
      modifies this`packetType, this`publishFlags, this`remainingLength, this`totalLength
      ensures match Framed(packet)
              case HeaderCut => failure == Some(IndexError)
              case BadLength => failure == Some(MalformedRemainingLength)
              case Frame(total, length) =>
                && failure == None && totalLength == total && remainingLength == length
                && packetType == TypeOf(packet[0]) && publishFlags == FlagsOf(packet[0])
    {
      if packet == [] { return Some(IndexError); }
      packetType := packet[0] as nat / 16;
      ParseFlags();
      var length := ParseRemainingLength();
      match length {
        case Cut => failure := Some(IndexError);
        case Malformed => failure := Some(MalformedRemainingLength);
        case Decoded(value, width) =>
          remainingLength, totalLength := value, value + width + 1;
          failure := None;
      }
    }

    /** The attributes for the variable header and the payload. */
    method ParseContent() returns (raised: Option<Failure>)
      requires ParsesBodies(decode, parseBody)
      requires remainingLength < |packet| && packetType == TypeOf(packet[0]) && publishFlags == FlagsOf(packet[0])
      modifies this`packetIdentifier, this`topicName, this`message, this`topicFilters
      modifies this`headers, this`connectFlags, this`connectPayload
      ensures Report(raised, Content()) == parseBody(packet, |packet| - remainingLength)
    {
      packetIdentifier := None;
      if packetType == CONNECT {
        raised := ParseConnectPacket();
      } else if packetType == PUBLISH {
        raised := ParsePublishPacket();
      } else if packetType == SUBSCRIBE {
        raised := ParseSubscribePacket();
      } else {
        raised := None;
        OtherBody(decode, parseBody, packet, |packet| - remainingLength);
      }
    }

    method ParseConnectPacket() returns (raised: Option<Failure>)
      requires ParsesBodies(decode, parseBody) && remainingLength < |packet| && packetType == TypeOf(packet[0]) == CONNECT
      modifies this`headers, this`connectFlags, this`connectPayload
      ensures Report(raised, Content()) == parseBody(packet, |packet| - remainingLength)
    {
      raised := ParseConnectContent();
      ConnectBody(decode, parseBody, packet, |packet| - remainingLength, Report(raised, Content()));
    }

    method ParsePublishPacket() returns (raised: Option<Failure>)
      requires ParsesBodies(decode, parseBody) && remainingLength < |packet| && packetType == TypeOf(packet[0]) == PUBLISH
      requires publishFlags == FlagsOf(packet[0]) && packetIdentifier == None
      modifies this`topicName, this`packetIdentifier, this`message
      ensures Report(raised, Content()) == parseBody(packet, |packet| - remainingLength)
    {
      raised := ParsePublishContent();
      PublishBody(decode, parseBody, packet, |packet| - remainingLength, Report(raised, Content()));
    }

    method ParseSubscribePacket() returns (raised: Option<Failure>)
      requires ParsesBodies(decode, parseBody) && remainingLength < |packet| && packetType == TypeOf(packet[0]) == SUBSCRIBE
      modifies this`packetIdentifier, this`topicFilters
      ensures Report(raised, Content()) == parseBody(packet, |packet| - remainingLength)
    {
      raised := ParseSubscribeContent();
      SubscribeBody(decode, parseBody, packet, |packet| - remainingLength, Report(raised, Content()));
    }

    method ParseConnectContent() returns (raised: Option<Failure>)
      requires remainingLength <= |packet|
      modifies this`headers, this`connectFlags, this`connectPayload
      ensures Report(raised, Connect(headers, connectFlags, connectPayload))
              == ParseConnect(decode, packet, |packet| - remainingLength)
    {
      ParseConnectVariableHeaders();
      raised := ParseConnectPayload();
    }

    method ParsePublishContent() returns (raised: Option<Failure>)
      requires remainingLength <= |packet| && publishFlags.Some? && packetIdentifier == None
      modifies this`topicName, this`packetIdentifier, this`message
      ensures Report(raised, Publish(topicName, packetIdentifier, message))
              == ParsePublish(publishFlags.value.qos, packet, |packet| - remainingLength)
    {
      raised := ParsePublishVariableHeaders();
      if raised == None {
        ParsePublishPayload();
        PublishParts(publishFlags.value.qos, packet, |packet| - remainingLength);
      }
    }

    method ParseSubscribeContent() returns (raised: Option<Failure>)
      requires remainingLength <= |packet|
      modifies this`packetIdentifier, this`topicFilters
      ensures packetIdentifier.Some?
      ensures Report(raised, Subscribe(packetIdentifier.value, topicFilters))
              == ParseSubscribe(decode, packet, |packet| - remainingLength)
    {
      ParsePacketIdentifier();
      raised := ParseSubscribePayload();
    }

    method ParseFlags()
      requires packet != [] && packetType == TypeOf(packet[0])
      modifies this`publishFlags
      ensures publishFlags == FlagsOf(packet[0])
    {
      publishFlags := None;
      if packetType == PUBLISH {
        var b := packet[0] as nat;
        publishFlags := Some(PublishFlags(b / 8 % 2, b / 2 % 4, b % 2));
      }
    }

    method ParseRemainingLength() returns (length: MqttLength.Length)
      requires packet != []
      ensures length == MqttLength.Decode(packet[1..])
    {
      var multiplier, value, i := 1, 0, 1;
      MqttLength.UnfoldDecode(packet[1..]);
      while true
        invariant 1 <= i <= 4 && i <= |packet|
        invariant forall k :: 1 <= k < i ==> packet[k] >= 128
        invariant multiplier == if i == 1 then 1 else if i == 2 then 128 else if i == 3 then 16384 else 2097152
        invariant i == 1 ==> value == 0
        invariant i == 2 ==> value == packet[1] as int - 128
        invariant i == 3 ==> value == packet[1] as int - 128 + 128 * (packet[2] as int - 128)
        decreases |packet| - i
      {
        if i >= |packet| { return MqttLength.Cut; }
        var encodedByte := packet[i] as int;
        value := value + encodedByte % 128 * multiplier;
        multiplier := multiplier * 128;
        if multiplier > 128 * 128 * 128 { return MqttLength.Malformed; }
        if encodedByte < 128 { return MqttLength.Decoded(value, i); }
        i := i + 1;
      }
    }

    method ParseLengthPrefixedBytes(offset: nat) returns (field: Option<(nat, bytes)>)
      ensures field == FieldAt(packet, offset)
    {
      var lengthBytes := Slice(packet, offset, offset + 2);
      if |lengthBytes| != 2 { return None; }
      var length := U16(lengthBytes[0], lengthBytes[1]);
      field := Some((length + 2, Slice(packet, offset + 2, offset + 2 + length)));
    }

    method ParsePublishVariableHeaders() returns (raised: Option<Failure>)
      requires remainingLength <= |packet| && publishFlags.Some?
      modifies this`topicName, this`packetIdentifier
      ensures var offset := |packet| - remainingLength;
              match FieldAt(packet, offset)
              case None => raised == Some(StructError)
              case Some((length, topic)) =>
                && raised == None && topicName == topic
                && packetIdentifier == if HasIdentifier(publishFlags.value.qos)
                                       then Some(Slice(packet, offset + length, offset + length + 2))
                                       else old(packetIdentifier)
    {
      var offset := |packet| - remainingLength;
      var field := ParseLengthPrefixedBytes(offset);
      if field == None { return Some(StructError); }
      var (length, content) := field.value;
      topicName := content;
      if publishFlags.value.qos == 1 || publishFlags.value.qos == 2 {
        offset := offset + length;
        packetIdentifier := Some(Slice(packet, offset, offset + 2));
      }
      raised := None;
    }

    method ParsePublishPayload()
      requires remainingLength <= |packet| && publishFlags.Some?
      modifies this`message
      ensures message == From(packet, |packet| - remainingLength + 2 + |topicName|
                                      + if HasIdentifier(publishFlags.value.qos) then 2 else 0)
    {
      var fixedHeaderLength := |packet| - remainingLength;
      var variableHeaderLength := 2 + |topicName|;
      if publishFlags.value.qos == 1 || publishFlags.value.qos == 2 {
        variableHeaderLength := variableHeaderLength + 2;
      }
      var offset := fixedHeaderLength + variableHeaderLength;
      message := From(packet, offset);
    }

    method ParsePacketIdentifier()
      requires remainingLength <= |packet|
      modifies this`packetIdentifier
      ensures var offset := |packet| - remainingLength; packetIdentifier == Some(Slice(packet, offset, offset + 2))
    {
      var offset := |packet| - remainingLength;
      packetIdentifier := Some(Slice(packet, offset, offset + 2));
    }

    method ParseSubscribePayload() returns (raised: Option<Failure>)
      requires remainingLength <= |packet|
      modifies this`topicFilters
      ensures Report(raised, topicFilters) == ParseFilters(decode, packet, |packet| - remainingLength + 2, map[])
    {
      var offset := |packet| - remainingLength + 2;
      topicFilters := map[];
      ghost var goal := ParseFilters(decode, packet, offset, map[]);
      while offset < |packet|
        invariant LeadsTo(decode, packet, offset, topicFilters, goal)
        decreases |packet| - offset
      {
        FilterNext(decode, packet, offset, topicFilters, goal);
        var filter := ParseTopicFilter(offset);
        if filter.Failure? { return Some(filter.error); }
        var (next, topicFilter, qos) := filter.value;
        offset, topicFilters := next, topicFilters[topicFilter := qos];
      }
      raised := None;
    }

    /** One round of that loop. */
    method ParseTopicFilter(offset: nat) returns (filter: Result<(nat, string, bytes), Failure>)
      ensures filter == FilterAt(decode, packet, offset)
    {
      var field := ParseLengthPrefixedBytes(offset);
      if field == None { return Failure(StructError); }
      var (length, topicBytes) := field.value;
      var next := offset + length;
      var qos := Slice(packet, next, next + 1);
      var topicFilter := decode(topicBytes);
      if topicFilter == None { return Failure(UnicodeDecodeError); }
      filter := Success((next + 1, topicFilter.value, qos));
    }

    method ParseConnectVariableHeaders()
      requires remainingLength <= |packet|
      modifies this`headers, this`connectFlags
      ensures headers == ParseConnectHeaders(packet, |packet| - remainingLength)
      ensures connectFlags == ParseConnectFlags(headers.connectFlags)
    {
      var offset := |packet| - remainingLength;
      headers := ConnectHeaders(
        Slice(packet, offset, offset + 6), Slice(packet, offset + 6, offset + 7),
        Slice(packet, offset + 7, offset + 8), Slice(packet, offset + 8, offset + 10));
      connectFlags := None;
      if |headers.connectFlags| > 0 {
        var b := headers.connectFlags[0] as nat;
        connectFlags := Some(ConnectFlags(b / 0x02 % 2 == 1, b / 0x04 % 2 == 1, b / 8 % 4,
                                          b / 0x20 % 2 == 1, b / 0x40 % 2 == 1, b / 0x80 == 1));
      }
    }

    method ParseConnectPayload() returns (raised: Option<Failure>)
      requires remainingLength <= |packet|
      modifies this`connectPayload
      ensures Report(raised, connectPayload)
              == MqttPacket.ParseConnectPayload(decode, connectFlags, packet, |packet| - remainingLength + 10)
    {
      var split := CollectFields();
      if split.Failure? { return Some(split.error); }
      raised := NameFields(split.value);
    }

    /** The first loop of the CONNECT payload: the length-prefixed fields, in order. */
    method CollectFields() returns (r: Result<seq<bytes>, Failure>)
      requires remainingLength <= |packet|
      ensures r == SplitFields(packet, |packet| - remainingLength + 10)
    {
      var fields: seq<bytes> := [];
      var offset := |packet| - remainingLength + 10;
      ghost var goal := SplitFields(packet, offset);
      PrependNothing(goal);
      while offset < |packet|
        invariant Prepend(fields, SplitFields(packet, offset)) == goal
        decreases |packet| - offset
      {
        var more := CollectField(fields, offset, goal);
        if more == None { return Failure(StructError); }
        fields, offset := more.value.0, more.value.1;
      }
      PrependLast(fields, packet, offset);
      r := Success(fields);
    }

    /** One round of that loop: one more field, and where it ends. */
    method CollectField(fields: seq<bytes>, offset: nat, ghost goal: Result<seq<bytes>, Failure>)
      returns (more: Option<(seq<bytes>, nat)>)
      requires offset < |packet| && Prepend(fields, SplitFields(packet, offset)) == goal
      ensures more == None ==> goal == Failure(StructError)
      ensures more.Some? ==> more.value.1 > offset && Prepend(more.value.0, SplitFields(packet, more.value.1)) == goal
    {
      PrependStep(fields, packet, offset, goal);
      var field := ParseLengthPrefixedBytes(offset);
      if field == None { return None; }
      var (length, content) := field.value;
      more := Some((fields + [content], offset + length));
    }

    /** The second loop of the CONNECT payload: each field is stored under its name. */
    method NameFields(fields: seq<bytes>) returns (raised: Option<Failure>)
      modifies this`connectPayload
      ensures Report(raised, connectPayload) == AssignFields(decode, connectFlags, NO_PAYLOAD, fields)
    {
      connectPayload := NO_PAYLOAD;
      assert fields[0..] == fields;
      for k := 0 to |fields|
        invariant AssignFields(decode, connectFlags, connectPayload, fields[k..]) == AssignFields(decode, connectFlags, NO_PAYLOAD, fields)
      {
        AssignStep(decode, connectFlags, connectPayload, fields, k);
        raised := StoreField(fields[k]);
        if raised.Some? { return; }
      }
      raised := None;
    }

    /** The body of the loop over the fields. */
    method StoreField(f: bytes) returns (raised: Option<Failure>)
      modifies this`connectPayload
      ensures Report(raised, connectPayload) == AssignField(decode, connectFlags, old(connectPayload), f)
    {
      raised := None;
      if connectPayload.clientId == None {
        var text := decode(f);
        if text == None { return Some(UnicodeDecodeError); }
        connectPayload := connectPayload.(clientId := text);
      } else if connectFlags == None {
        return Some(KeyError);
      } else if connectFlags.value.will && connectPayload.willTopic == None {
        var text := decode(f);
        if text == None { return Some(UnicodeDecodeError); }
        connectPayload := connectPayload.(willTopic := text);
      } else if connectFlags.value.will && connectPayload.willMessage == None {
        connectPayload := connectPayload.(willMessage := Some(f));
      } else if connectFlags.value.userName && connectPayload.userName == None {
        var text := decode(f);
        if text == None { return Some(UnicodeDecodeError); }
        connectPayload := connectPayload.(userName := text);
      } else if connectFlags.value.password && connectPayload.password == None {
        connectPayload := connectPayload.(password := Some(f));
      } else {
        return Some(SurplusField);
      }
    }
  }

  lemma ParseFromContent(body: BodyParser, data: bytes, total: nat, length: nat, content: Result<Content, Failure>)
    requires Framed(data) == Frame(total, length) && total <= |data|
    requires content == body(data[..total], total - length)
    ensures ParseWith(body, data) ==
            match content
            case Failure(e) => Raised(e)
            case Success(c) =>
              Complete(Packet(data[..total], TypeOf(data[0]), FlagsOf(data[0]), length, c), data[total..])
  {
    ParseOfFrame(body, data, total, length);
  }

  lemma ConnectBody(decode: Decoder, parse: BodyParser, p: bytes, offset: nat, content: Result<Content, Failure>)
    requires ParsesBodies(decode, parse) && p != [] && TypeOf(p[0]) == CONNECT && content == ParseConnect(decode, p, offset)
    ensures content == parse(p, offset)
  {
    assert At(p, offset);
    BodyOfConnect(decode, p, offset);
  }

  lemma PublishParts(qos: nat, p: bytes, offset: nat)
    requires FieldAt(p, offset).Some?
    ensures var (length, topic) := FieldAt(p, offset).value;
            ParsePublish(qos, p, offset) ==
            Success(Publish(topic, if HasIdentifier(qos) then Some(Slice(p, offset + length, offset + length + 2)) else None,
                            From(p, offset + 2 + |topic| + if HasIdentifier(qos) then 2 else 0)))
  {
  }

  lemma PublishBody(decode: Decoder, parse: BodyParser, p: bytes, offset: nat, content: Result<Content, Failure>)
    requires ParsesBodies(decode, parse) && p != [] && TypeOf(p[0]) == PUBLISH
    requires content == ParsePublish(FlagsOf(p[0]).value.qos, p, offset)
    ensures content == parse(p, offset)
  {
    assert At(p, offset);
    BodyOfPublish(decode, p, offset);
  }

  lemma SubscribeBody(decode: Decoder, parse: BodyParser, p: bytes, offset: nat, content: Result<Content, Failure>)
    requires ParsesBodies(decode, parse) && p != [] && TypeOf(p[0]) == SUBSCRIBE && content == ParseSubscribe(decode, p, offset)
    ensures content == parse(p, offset)
  {
    assert At(p, offset);
    BodyOfSubscribe(decode, p, offset);
  }

  lemma OtherBody(decode: Decoder, parse: BodyParser, p: bytes, offset: nat)
    requires ParsesBodies(decode, parse) && p != [] && TypeOf(p[0]) !in {CONNECT, PUBLISH, SUBSCRIBE}
    ensures parse(p, offset) == Success(Bare)
  {
    assert At(p, offset);
    BodyOfOther(decode, p, offset);
  }

  /** What splitting gives once the fields found before are put in front. */
  function Prepend(fields: seq<bytes>, r: Result<seq<bytes>, Failure>): Result<seq<bytes>, Failure> {
    match r
    case Failure(e) => Failure(e)
    case Success(more) => Success(fields + more)
  }

  lemma PrependNothing(r: Result<seq<bytes>, Failure>)
    ensures Prepend([], r) == r
  {
    if r.Success? { assert [] + r.value == r.value; }
  }

  lemma PrependNext(fields: seq<bytes>, p: bytes, offset: nat, length: nat, field: bytes)
    requires FieldAt(p, offset) == Some((length, field))
    ensures Prepend(fields, SplitFields(p, offset)) == Prepend(fields + [field], SplitFields(p, offset + length))
  {
    var r := SplitFields(p, offset + length);
    if r.Success? { assert fields + [field] + r.value == fields + ([field] + r.value); }
  }

  /** One round of the loop over the fields. */
  lemma PrependStep(fields: seq<bytes>, p: bytes, offset: nat, goal: Result<seq<bytes>, Failure>)
    requires offset < |p| && Prepend(fields, SplitFields(p, offset)) == goal
    ensures match FieldAt(p, offset)
            case None => goal == Failure(StructError)
            case Some((length, field)) => Prepend(fields + [field], SplitFields(p, offset + length)) == goal
  {
    match FieldAt(p, offset) {
      case None => PrependLast(fields, p, offset);
      case Some((length, field)) => PrependNext(fields, p, offset, length, field);
    }
  }

  lemma PrependLast(fields: seq<bytes>, p: bytes, offset: nat)
    requires offset >= |p| || FieldAt(p, offset) == None
    ensures Prepend(fields, SplitFields(p, offset)) == if offset >= |p| then Success(fields) else Failure(StructError)
  {
    assert fields + [] == fields;
  }

  lemma AssignStep(decode: Decoder, flags: Option<ConnectFlags>, p: ConnectPayload, fields: seq<bytes>, k: nat)
    requires k < |fields|
    ensures AssignFields(decode, flags, p, fields[k..]) ==
            match AssignField(decode, flags, p, fields[k])
            case Failure(e) => Failure(e)
            case Success(p') => AssignFields(decode, flags, p', fields[k + 1..])
  {
    assert fields[k..][0] == fields[k] && fields[k..][1..] == fields[k + 1..];
  }
}
