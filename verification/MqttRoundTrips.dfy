/**
 Writers for CONNECT, PUBLISH and SUBSCRIBE packets as MQTT 3.1.1 lays them out (sections 3.1, 3.3
 and 3.8), and the proofs that the sniffer's parser inverts them.
 */
module MqttRoundTrips {
  import opened Results
  import opened Bytes
  import opened MqttPacket
  import opened MqttFields
  import Utf8
  import MqttLength

  // ---- packets ----

  function FixedHeader(first: byte, length: nat): bytes {
    [first] + MqttLength.Encode(length)
  }

  function WritePacket(first: byte, body: bytes): bytes {
    FixedHeader(first, |body|) + body
  }

  lemma FramedWritten(first: byte, body: bytes, rest: bytes)
    ensures Framed(WritePacket(first, body) + rest) ==
            if |body| > MqttLength.MAX_LENGTH then BadLength else Frame(|WritePacket(first, body)|, |body|)
  {
    var data := WritePacket(first, body) + rest;
    assert data[1..] == MqttLength.Encode(|body|) + (body + rest);
    MqttLength.DecodeEncode(|body|, body + rest);
  }

  lemma WrittenCut(first: byte, body: bytes, rest: bytes)
    ensures var packet := WritePacket(first, body);
            && (packet + rest)[..|packet|] == packet && (packet + rest)[|packet|..] == rest
            && |packet| - |body| == |FixedHeader(first, |body|)|
  {
  }

  /** A written packet is taken apart at its own end; one longer than MAX_LENGTH is malformed. */
  lemma ParseWritten(parse: BodyParser, first: byte, body: bytes, rest: bytes)
    ensures ParseWith(parse, WritePacket(first, body) + rest) ==
            if |body| > MqttLength.MAX_LENGTH then Raised(MalformedRemainingLength)
            else
              match parse(WritePacket(first, body), |FixedHeader(first, |body|)|)
              case Failure(e) => Raised(e)
              case Success(c) => Complete(Packet(WritePacket(first, body), TypeOf(first), FlagsOf(first), |body|, c), rest)
  {
    FramedWritten(first, body, rest);
    WrittenCut(first, body, rest);
    if |body| <= MqttLength.MAX_LENGTH {
      ParseOfFrame(parse, WritePacket(first, body) + rest, |WritePacket(first, body)|, |body|);
    }
  }

  lemma WrittenParts(first: byte, a: bytes, b: bytes)
    ensures FixedHeader(first, |a + b|) + a + b == WritePacket(first, a + b)
  {
    Associate(FixedHeader(first, |a + b|), a, b);
  }

  lemma FirstBytes()
    ensures TypeOf(0x10) == CONNECT && FlagsOf(0x10) == None && TypeOf(0x82) == SUBSCRIBE && FlagsOf(0x82) == None
  {
  }

  lemma BodyAt(pre: bytes, body: bytes)
    ensures From(pre + body, |pre|) == body
  {
  }

  // ---- CONNECT ----

  datatype FieldName = ClientId | WillTopic | WillMessage | UserName | Password

  predicate IsText(name: FieldName) {
    name == ClientId || name == WillTopic || name == UserName
  }

  /** The payload fields the connect flags announce, in the order of section 3.1.3. */
  function Slots(flags: ConnectFlags): seq<FieldName> {
    [ClientId] + (if flags.will then [WillTopic, WillMessage] else [])
    + (if flags.userName then [UserName] else []) + (if flags.password then [Password] else [])
  }

  /** The bytes stored under a name. */
  function Stored(p: ConnectPayload, name: FieldName): Option<bytes> {
    match name
    case ClientId => if p.clientId.None? then None else Some(Utf8.Encode(p.clientId.value))
    case WillTopic => if p.willTopic.None? then None else Some(Utf8.Encode(p.willTopic.value))
    case WillMessage => p.willMessage
    case UserName => if p.userName.None? then None else Some(Utf8.Encode(p.userName.value))
    case Password => p.password
  }

  predicate Taken(p: ConnectPayload, name: FieldName) {
    match name
    case ClientId => p.clientId.Some?
    case WillTopic => p.willTopic.Some?
    case WillMessage => p.willMessage.Some?
    case UserName => p.userName.Some?
    case Password => p.password.Some?
  }

  /** The first n announced names are taken, and no others. */
  ghost predicate Filled(flags: ConnectFlags, p: ConnectPayload, n: nat) {
    n <= |Slots(flags)| && forall name :: Taken(p, name) <==> name in Slots(flags)[..n]
  }

  function Put(decode: Decoder, p: ConnectPayload, name: FieldName, field: bytes): Result<ConnectPayload, Failure> {
    if IsText(name) then
      match decode(field)
      case None => Failure(UnicodeDecodeError)
      case Some(text) =>
        Success(if name == ClientId then p.(clientId := Some(text))
                else if name == WillTopic then p.(willTopic := Some(text))
                else p.(userName := Some(text)))
    else Success(if name == WillMessage then p.(willMessage := Some(field)) else p.(password := Some(field)))
  }

  predicate Readable(decode: Decoder, name: FieldName, field: bytes) {
    IsText(name) ==> decode(field).Some?
  }

  lemma NamesTaken(flags: ConnectFlags, n: nat)
    requires n <= |Slots(flags)|
    ensures ClientId in Slots(flags)[..n] <==> n >= 1
    ensures WillTopic in Slots(flags)[..n] <==> flags.will && n >= 2
    ensures WillMessage in Slots(flags)[..n] <==> flags.will && n >= 3
    ensures UserName in Slots(flags)[..n] <==> flags.userName && n >= (if flags.will then 4 else 2)
    ensures Password in Slots(flags)[..n] <==> flags.password && n == |Slots(flags)|
  {
    var s := Slots(flags);
    assert s[0] == ClientId;
    if flags.will { assert s[1] == WillTopic && s[2] == WillMessage; }
    if flags.userName { assert s[if flags.will then 3 else 1] == UserName; }
    if flags.password { assert s[|s| - 1] == Password; }
    assert |s| == 1 + 2 * Bit(flags.will) + Bit(flags.userName) + Bit(flags.password);
  }

  /** The tests of AssignField find the next announced name. */
  lemma AssignNext(decode: Decoder, flags: ConnectFlags, p: ConnectPayload, n: nat, field: bytes)
    requires Filled(flags, p, n)
    ensures AssignField(decode, Some(flags), p, field) ==
            if n == |Slots(flags)| then Failure(SurplusField) else Put(decode, p, Slots(flags)[n], field)
  {
    NamesTaken(flags, n);
    assert Taken(p, ClientId) <==> n >= 1;
    assert Taken(p, WillTopic) <==> flags.will && n >= 2;
    assert Taken(p, WillMessage) <==> flags.will && n >= 3;
    assert Taken(p, UserName) <==> flags.userName && n >= (if flags.will then 4 else 2);
    assert Taken(p, Password) <==> flags.password && n == |Slots(flags)|;
  }

  lemma PutStores(decode: Decoder, p: ConnectPayload, name: FieldName, field: bytes)
    requires Utf8.Inverts(decode)
    ensures Put(decode, p, name, field) == Failure(UnicodeDecodeError) || Put(decode, p, name, field).Success?
    ensures Put(decode, p, name, field).Success? <==> Readable(decode, name, field)
    ensures Put(decode, p, name, field).Success? ==>
              var q := Put(decode, p, name, field).value;
              && Stored(q, name) == Some(field)
              && (forall other :: other != name ==> Stored(q, other) == Stored(p, other))
              && (forall other :: Taken(q, other) <==> Taken(p, other) || other == name)
  {
    if decode(field).Some? {
      Utf8.AcceptsOnlyEncodings(decode, field);
    }
  }

  /** There is an announced name for each of the fields, and the text fields among the first n are UTF-8. */
  ghost predicate AllReadable(decode: Decoder, flags: ConnectFlags, fields: seq<bytes>, n: nat)
    requires n <= |fields|
  {
    n <= |Slots(flags)| && forall k :: 0 <= k < n ==> Readable(decode, Slots(flags)[k], fields[k])
  }

  /** The first n announced names hold the first n fields, and no other name is taken. */
  ghost predicate Holds(flags: ConnectFlags, p: ConnectPayload, fields: seq<bytes>, n: nat)
    requires n <= |fields|
  {
    && Filled(flags, p, n)
    && forall k :: 0 <= k < n ==> Stored(p, Slots(flags)[k]) == Some(fields[k])
  }

  lemma HoldsNext(decode: Decoder, flags: ConnectFlags, p: ConnectPayload, fields: seq<bytes>, n: nat)
    requires Utf8.Inverts(decode)
    requires n < |fields| && n < |Slots(flags)| && Holds(flags, p, fields, n)
    requires Put(decode, p, Slots(flags)[n], fields[n]).Success?
    ensures Holds(flags, Put(decode, p, Slots(flags)[n], fields[n]).value, fields, n + 1)
  {
    var s := Slots(flags);
    PutStores(decode, p, s[n], fields[n]);
    SlotsDistinct(flags);
    assert s[..n + 1] == s[..n] + [s[n]];
  }

  lemma {:induction false} AssignFrom(decode: Decoder, flags: ConnectFlags, p: ConnectPayload, fields: seq<bytes>, n: nat)
    requires Utf8.Inverts(decode)
    requires n <= |fields| && Holds(flags, p, fields, n) && AllReadable(decode, flags, fields, n)
    ensures var r := AssignFields(decode, Some(flags), p, fields[n..]);
            && (r.Success? <==> AllReadable(decode, flags, fields, |fields|))
            && (r.Success? ==> Holds(flags, r.value, fields, |fields|))
            && (|Slots(flags)| < |fields| && AllReadable(decode, flags, fields, |Slots(flags)|) ==> r == Failure(SurplusField))
    decreases |fields| - n
  {
    var s := Slots(flags);
    if n < |fields| {
      AssignNext(decode, flags, p, n, fields[n]);
      assert fields[n..][0] == fields[n] && fields[n..][1..] == fields[n + 1..];
      if n < |s| {
        PutStores(decode, p, s[n], fields[n]);
        if Readable(decode, s[n], fields[n]) {
          HoldsNext(decode, flags, p, fields, n);
          AssignFrom(decode, flags, Put(decode, p, s[n], fields[n]).value, fields, n + 1);
        }
      }
    }
  }

  lemma SlotsDistinct(flags: ConnectFlags)
    ensures forall i, j :: 0 <= i < j < |Slots(flags)| ==> Slots(flags)[i] != Slots(flags)[j]
  {
  }

  lemma TakenIsStored(p: ConnectPayload, name: FieldName)
    ensures Taken(p, name) <==> Stored(p, name).Some?
  {
  }

  /**
   The chain of "not in self.payload" tests stores the fields by position: it succeeds exactly when
   there is an announced name for each field and the text fields are UTF-8, and then the k-th
   announced name holds the k-th field and every other name is absent.
   */
  lemma ConnectFieldsByPosition(decode: Decoder, flags: ConnectFlags, fields: seq<bytes>)
    requires Utf8.Inverts(decode)
    ensures var r := AssignFields(decode, Some(flags), NO_PAYLOAD, fields);
            && (r.Success? <==> AllReadable(decode, flags, fields, |fields|))
            && (r.Success? ==>
                  && (forall k :: 0 <= k < |fields| ==> Stored(r.value, Slots(flags)[k]) == Some(fields[k]))
                  && (forall name :: name !in Slots(flags)[..|fields|] ==> Stored(r.value, name) == None))
            && (|Slots(flags)| < |fields| && AllReadable(decode, flags, fields, |Slots(flags)|) ==> r == Failure(SurplusField))
  {
    AssignFrom(decode, flags, NO_PAYLOAD, fields, 0);
    assert fields[0..] == fields;
    var r := AssignFields(decode, Some(flags), NO_PAYLOAD, fields);
    if r.Success? {
      forall name | name !in Slots(flags)[..|fields|] ensures Stored(r.value, name) == None {
        TakenIsStored(r.value, name);
      }
    }
  }

  datatype Will = Will(topic: string, message: bytes, qos: nat, retain: bool)

  datatype ConnectMessage = ConnectMessage(
    cleanSession: bool, keepAlive: nat, clientId: string,
    will: Option<Will>, userName: Option<string>, password: Option<bytes>)
  {
    predicate Valid() {
      && keepAlive < 0x1_0000
      && Fits(Utf8.Encode(clientId))
      && (will.Some? ==> will.value.qos < 3 && Fits(Utf8.Encode(will.value.topic)) && Fits(will.value.message))
      && (userName.Some? ==> Fits(Utf8.Encode(userName.value)))
      && (password.Some? ==> Fits(password.value))
    }

    function Flags(): ConnectFlags {
      ConnectFlags(cleanSession, will.Some?, if will.Some? then will.value.qos else 0,
                   will.Some? && will.value.retain, password.Some?, userName.Some?)
    }

    function Payload(): ConnectPayload {
      ConnectPayload(
        Some(clientId),
        if will.Some? then Some(will.value.topic) else None,
        if will.Some? then Some(will.value.message) else None,
        userName, password)
    }

    function Fields(): (fields: seq<bytes>)
      requires Valid()
      ensures forall f :: f in fields ==> Fits(f)
    {
      [Utf8.Encode(clientId)]
      + (if will.Some? then [Utf8.Encode(will.value.topic), will.value.message] else [])
      + (if userName.Some? then [Utf8.Encode(userName.value)] else [])
      + (if password.Some? then [password.value] else [])
    }
  }

  function Bit(b: bool): nat {
    if b then 1 else 0
  }

  function FlagByte(f: ConnectFlags): byte
    requires f.willQos < 4
  {
    (2 * Bit(f.cleanSession) + 4 * Bit(f.will) + 8 * f.willQos + 32 * Bit(f.willRetain)
     + 64 * Bit(f.password) + 128 * Bit(f.userName)) as byte
  }

  const PROTOCOL_NAME: bytes := [0, 4, 0x4D, 0x51, 0x54, 0x54]

  function ConnectHeaderBytes(m: ConnectMessage): bytes
    requires m.Valid()
  {
    var h := HeadersOf(m);
    h.protocolName + h.protocolLevel + h.connectFlags + h.keepAlive
  }

  function WriteConnect(m: ConnectMessage): bytes
    requires m.Valid()
  {
    WritePacket(0x10, ConnectHeaderBytes(m) + WriteFields(m.Fields()))
  }

  lemma FlagBits(clean: nat, will: nat, qos: nat, retain: nat, password: nat, user: nat)
    requires clean < 2 && will < 2 && qos < 4 && retain < 2 && password < 2 && user < 2
    ensures var b := 2 * clean + 4 * will + 8 * qos + 32 * retain + 64 * password + 128 * user;
            && b / 0x02 % 2 == clean && b / 0x04 % 2 == will && b / 8 % 4 == qos
            && b / 0x20 % 2 == retain && b / 0x40 % 2 == password && b / 0x80 == user
  {
    var b := 2 * clean + 4 * will + 8 * qos + 32 * retain + 64 * password + 128 * user;
    assert b / 0x40 == 2 * user + password;
    assert b / 0x20 == 2 * (b / 0x40) + retain;
    assert b / 8 == 4 * (b / 0x20) + qos;
    assert b / 4 == 2 * (b / 8) + will;
    assert b / 2 == 2 * (b / 4) + clean;
  }

  lemma FlagsOfByte(b: byte, f: ConnectFlags)
    requires b as nat / 0x02 % 2 == Bit(f.cleanSession) && b as nat / 0x04 % 2 == Bit(f.will) && b as nat / 8 % 4 == f.willQos
    requires b as nat / 0x20 % 2 == Bit(f.willRetain) && b as nat / 0x40 % 2 == Bit(f.password)
    requires b as nat / 0x80 == Bit(f.userName)
    ensures ParseConnectFlags([b]) == Some(f)
  {
  }

  lemma FlagsRoundTrip(f: ConnectFlags)
    requires f.willQos < 4
    ensures ParseConnectFlags([FlagByte(f)]) == Some(f)
  {
    FlagsOfByte(FlagByte(f), f) by {
      FlagBits(Bit(f.cleanSession), Bit(f.will), f.willQos, Bit(f.willRetain), Bit(f.password), Bit(f.userName));
    }
  }

  lemma {:induction false} FieldsLength(fields: seq<bytes>)
    requires forall f :: f in fields ==> Fits(f)
    ensures |WriteFields(fields)| <= |fields| * 0x1_0001
  {
    if fields != [] {
      FieldsLength(fields[1..]);
    }
  }

  function HeadersOf(m: ConnectMessage): ConnectHeaders
    requires m.Valid()
  {
    ConnectHeaders(PROTOCOL_NAME, [4], [FlagByte(m.Flags())], EncodeU16(m.keepAlive))
  }

  lemma HeadersAt(pre: bytes, h: ConnectHeaders, tail: bytes)
    requires |h.protocolName| == 6 && |h.protocolLevel| == 1 && |h.connectFlags| == 1 && |h.keepAlive| == 2
    ensures ParseConnectHeaders(pre + (h.protocolName + h.protocolLevel + h.connectFlags + h.keepAlive) + tail, |pre|) == h
  {
  }

  lemma ParseConnectBody(decode: Decoder, pre: bytes, m: ConnectMessage, fields: seq<bytes>)
    requires m.Valid() && forall f :: f in fields ==> Fits(f)
    ensures ParseConnect(decode, pre + ConnectHeaderBytes(m) + WriteFields(fields), |pre|) ==
            match AssignFields(decode, Some(m.Flags()), NO_PAYLOAD, fields)
            case Failure(e) => Failure(e)
            case Success(p) => Success(Connect(HeadersOf(m), Some(m.Flags()), p))
  {
    HeadersAt(pre, HeadersOf(m), WriteFields(fields));
    FlagsRoundTrip(m.Flags());
    var p := pre + ConnectHeaderBytes(m) + WriteFields(fields);
    BodyAt(pre + ConnectHeaderBytes(m), WriteFields(fields));
    SplitIsFields(p, |pre| + 10);
    SplitWritten(fields);
  }

  lemma EncodeInjective(a: string, b: string)
    requires Utf8.Encode(a) == Utf8.Encode(b)
    ensures a == b
  {
    Utf8.DecodeEncode(a);
    Utf8.DecodeEncode(b);
  }

  /** The bytes of one announced field. */
  function FieldOf(m: ConnectMessage, name: FieldName): bytes
    requires name in Slots(m.Flags())
  {
    NamesTaken(m.Flags(), |Slots(m.Flags())|);
    assert Slots(m.Flags())[..|Slots(m.Flags())|] == Slots(m.Flags());
    match name
    case ClientId => Utf8.Encode(m.clientId)
    case WillTopic => Utf8.Encode(m.will.value.topic)
    case WillMessage => m.will.value.message
    case UserName => Utf8.Encode(m.userName.value)
    case Password => m.password.value
  }

  lemma FieldsFollowSlots(m: ConnectMessage)
    requires m.Valid()
    ensures |m.Fields()| == |Slots(m.Flags())|
    ensures forall k :: 0 <= k < |m.Fields()| ==> m.Fields()[k] == FieldOf(m, Slots(m.Flags())[k])
  {
  }

  lemma OwnField(decode: Decoder, m: ConnectMessage, name: FieldName)
    requires Utf8.Inverts(decode)
    requires m.Valid()
    ensures name in Slots(m.Flags()) ==>
              Stored(m.Payload(), name) == Some(FieldOf(m, name)) && Readable(decode, name, FieldOf(m, name))
    ensures name !in Slots(m.Flags()) ==> Stored(m.Payload(), name) == None
  {
    NamesTaken(m.Flags(), |Slots(m.Flags())|);
    assert Slots(m.Flags())[..|Slots(m.Flags())|] == Slots(m.Flags());
    match name {
      case ClientId => Utf8.Recovers(decode, m.clientId);
      case WillTopic => if m.will.Some? { Utf8.Recovers(decode, m.will.value.topic); }
      case UserName => if m.userName.Some? { Utf8.Recovers(decode, m.userName.value); }
      case _ =>
    }
  }

  lemma AssignOwnFields(decode: Decoder, m: ConnectMessage)
    requires Utf8.Inverts(decode)
    requires m.Valid()
    ensures AssignFields(decode, Some(m.Flags()), NO_PAYLOAD, m.Fields()) == Success(m.Payload())
    ensures |m.Fields()| == |Slots(m.Flags())| && AllReadable(decode, m.Flags(), m.Fields(), |m.Fields()|)
  {
    var flags, fields := m.Flags(), m.Fields();
    var s := Slots(flags);
    FieldsFollowSlots(m);
    forall k | 0 <= k < |fields| ensures Readable(decode, s[k], fields[k]) {
      OwnField(decode, m, s[k]);
    }
    ConnectFieldsByPosition(decode, flags, fields);
    var p := AssignFields(decode, Some(flags), NO_PAYLOAD, fields).value;
    assert s[..|fields|] == s;
    forall name ensures Stored(p, name) == Stored(m.Payload(), name) {
      OwnField(decode, m, name);
      if name in s {
        var k :| 0 <= k < |s| && s[k] == name;
        assert fields[k] == FieldOf(m, s[k]);
      }
    }
    SamePayload(p, m.Payload());
  }

  lemma SamePayload(p: ConnectPayload, q: ConnectPayload)
    requires forall name :: Stored(p, name) == Stored(q, name)
    ensures p == q
  {
    assert Stored(p, ClientId) == Stored(q, ClientId) && Stored(p, WillTopic) == Stored(q, WillTopic);
    assert Stored(p, WillMessage) == Stored(q, WillMessage) && Stored(p, UserName) == Stored(q, UserName);
    assert Stored(p, Password) == Stored(q, Password);
    if p.clientId.Some? { EncodeInjective(p.clientId.value, q.clientId.value); }
    if p.willTopic.Some? { EncodeInjective(p.willTopic.value, q.willTopic.value); }
    if p.userName.Some? { EncodeInjective(p.userName.value, q.userName.value); }
  }

  lemma ParseConnectFields(decode: Decoder, m: ConnectMessage, fields: seq<bytes>, rest: bytes)
    requires m.Valid() && |fields| <= 6 && forall f :: f in fields ==> Fits(f)
    ensures var body := ConnectHeaderBytes(m) + WriteFields(fields);
            Parse(decode, WritePacket(0x10, body) + rest) ==
            match AssignFields(decode, Some(m.Flags()), NO_PAYLOAD, fields)
            case Failure(e) => Raised(e)
            case Success(p) =>
              Complete(Packet(WritePacket(0x10, body), CONNECT, None, |body|,
                              Connect(HeadersOf(m), Some(m.Flags()), p)), rest)
  {
    var body := ConnectHeaderBytes(m) + WriteFields(fields);
    FieldsLength(fields);
    ParseConnectBody(decode, FixedHeader(0x10, |body|), m, fields);
    WrittenParts(0x10, ConnectHeaderBytes(m), WriteFields(fields));
    ParseWrittenConnect(decode, body, rest, ParseConnect(decode, WritePacket(0x10, body), |FixedHeader(0x10, |body|)|));
  }

  lemma ParseWrittenConnect(decode: Decoder, body: bytes, rest: bytes, content: Result<Content, Failure>)
    requires |body| <= MqttLength.MAX_LENGTH
    requires content == ParseConnect(decode, WritePacket(0x10, body), |FixedHeader(0x10, |body|)|)
    ensures Parse(decode, WritePacket(0x10, body) + rest) ==
            match content
            case Failure(e) => Raised(e)
            case Success(c) => Complete(Packet(WritePacket(0x10, body), CONNECT, None, |body|, c), rest)
  {
    FirstBytes();
    BodyOfConnect(decode, WritePacket(0x10, body), |FixedHeader(0x10, |body|)|);
    ParseWritten(BodyOf(decode), 0x10, body, rest);
  }

  /** Parsing a written CONNECT gives back every field under its own name, for all combinations of flags. */
  lemma ConnectRoundTrip(decode: Decoder, m: ConnectMessage, rest: bytes)
    requires Utf8.Inverts(decode)
    requires m.Valid()
    ensures var o := Parse(decode, WriteConnect(m) + rest);
            && o.Complete? && o.extra == rest && o.packet.raw == WriteConnect(m) && o.packet.packetType == CONNECT
            && o.packet.content == Connect(HeadersOf(m), Some(m.Flags()), m.Payload())
  {
    AssignOwnFields(decode, m);
    ParseConnectFields(decode, m, m.Fields(), rest);
  }

  /** One field more than the flags announce makes the whole packet be rejected. */
  lemma SurplusFieldRejected(decode: Decoder, m: ConnectMessage, surplus: bytes, rest: bytes)
    requires Utf8.Inverts(decode)
    requires m.Valid() && Fits(surplus)
    ensures Parse(decode, WritePacket(0x10, ConnectHeaderBytes(m) + WriteFields(m.Fields() + [surplus])) + rest)
            == Raised(SurplusField)
  {
    var fields := m.Fields() + [surplus];
    AssignOwnFields(decode, m);
    var s := Slots(m.Flags());
    assert forall k :: 0 <= k < |s| ==> fields[k] == m.Fields()[k];
    ConnectFieldsByPosition(decode, m.Flags(), fields);
    ParseConnectFields(decode, m, fields, rest);
  }

  // ---- PUBLISH ----

  datatype PublishMessage = PublishMessage(flags: PublishFlags, topic: bytes, identifier: bytes, message: bytes)
  {
    predicate Valid() {
      && flags.dup < 2 && flags.qos < 3 && flags.retain < 2
      && Fits(topic)
      && |identifier| == if HasIdentifier(flags.qos) then 2 else 0
    }

    function Body(): bytes
      requires Valid()
    {
      WriteField(topic) + identifier + message
    }
  }

  function PublishByte(f: PublishFlags): (b: byte)
    requires f.dup < 2 && f.qos < 3 && f.retain < 2
    ensures TypeOf(b) == PUBLISH && ParsePublishFlags(b) == f
  {
    (0x30 + 8 * f.dup + 2 * f.qos + f.retain) as byte
  }

  function WritePublish(m: PublishMessage): bytes
    requires m.Valid()
  {
    WritePacket(PublishByte(m.flags), m.Body())
  }

  /** Parsing a written PUBLISH recovers it exactly when its Remaining Length is within the bound. */
  lemma PublishRoundTrip(decode: Decoder, m: PublishMessage, rest: bytes)
    requires m.Valid()
    ensures Parse(decode, WritePublish(m) + rest) ==
            if |m.Body()| > MqttLength.MAX_LENGTH then Raised(MalformedRemainingLength)
            else
              Complete(Packet(WritePublish(m), PUBLISH, Some(m.flags), |m.Body()|,
                              Publish(m.topic, if HasIdentifier(m.flags.qos) then Some(m.identifier) else None, m.message)),
                       rest)
  {
    var first := PublishByte(m.flags);
    ParsePublishBody(FixedHeader(first, |m.Body()|), m);
    BodyOfPublish(decode, WritePublish(m), |FixedHeader(first, |m.Body()|)|);
    ParseWritten(BodyOf(decode), first, m.Body(), rest);
  }

  lemma PartAt(pre: bytes, part: bytes, post: bytes)
    ensures Slice(pre + (part + post), |pre|, |pre| + |part|) == part
    ensures From(pre + (part + post), |pre| + |part|) == post
  {
  }

  lemma ParsePublishBody(pre: bytes, m: PublishMessage)
    requires m.Valid()
    ensures ParsePublish(m.flags.qos, pre + m.Body(), |pre|) ==
            Success(Publish(m.topic, if HasIdentifier(m.flags.qos) then Some(m.identifier) else None, m.message))
  {
    var after := m.identifier + m.message;
    var p := pre + m.Body();
    assert m.Body() == WriteField(m.topic) + after;
    assert p == (pre + WriteField(m.topic)) + after;
    TopicAt(pre, m.topic, after);
    PartAt(pre + WriteField(m.topic), m.identifier, m.message);
  }

  lemma TopicAt(pre: bytes, topic: bytes, after: bytes)
    requires Fits(topic)
    ensures FieldAt(pre + (WriteField(topic) + after), |pre|) == Some((2 + |topic|, topic))
  {
    var b := WriteField(topic) + after;
    BodyAt(pre, b);
    FieldAtTakes(pre + b, |pre|);
    TakeWritten(topic, after);
    assert b[0] == EncodeU16(|topic|)[0] && b[1] == EncodeU16(|topic|)[1];
    assert (pre + b)[|pre|] == b[0] && (pre + b)[|pre| + 1] == b[1];
  }

  /**
   Topic, identifier and message of any PUBLISH tile its body after the two length bytes.  The topic
   is shorter than announced only when nothing follows it.
   */
  lemma PublishTiles(qos: nat, p: bytes, offset: nat) returns (announced: nat)
    requires ParsePublish(qos, p, offset).Success?
    ensures var c := ParsePublish(qos, p, offset).value;
            var identifier := if c.publishIdentifier.Some? then c.publishIdentifier.value else [];
            && |c.topicName| <= announced < 0x1_0000
            && From(p, offset) == EncodeU16(announced) + c.topicName + identifier + c.message
            && (|c.topicName| < announced ==> identifier == [] && c.message == [])
            && (c.publishIdentifier.Some? <==> HasIdentifier(qos))
            && (c.publishIdentifier.Some? && |identifier| < 2 ==> c.message == [])
  {
    var (length, topic) := FieldAt(p, offset).value;
    announced := length - 2;
    TopicTiles(p, offset, length, topic);
    SplitFrom(p, offset + length, offset + length + 2);
  }

  /** The field at an offset and what follows it; it is cut short only at the end of the packet. */
  lemma TopicTiles(p: bytes, offset: nat, length: nat, topic: bytes)
    requires FieldAt(p, offset) == Some((length, topic))
    ensures |topic| + 2 <= length < 0x1_0002
    ensures From(p, offset) == EncodeU16(length - 2) + topic + From(p, offset + length)
    ensures |topic| + 2 < length ==> offset + 2 + |topic| == |p|
  {
    TopicLength(p, offset, length, topic);
    SplitFrom(p, offset, offset + 2);
    SplitFrom(p, offset + 2, offset + length);
    Associate(EncodeU16(length - 2), topic, From(p, offset + length));
  }

  lemma TopicLength(p: bytes, offset: nat, length: nat, topic: bytes)
    requires FieldAt(p, offset) == Some((length, topic))
    ensures offset + 2 <= |p| && 2 <= length < 0x1_0002 && topic == Slice(p, offset + 2, offset + length)
    ensures Slice(p, offset, offset + 2) == EncodeU16(length - 2)
  {
    EncodeDecodeU16(p[offset], p[offset + 1]);
    assert Slice(p, offset, offset + 2) == [p[offset], p[offset + 1]];
  }

  // ---- SUBSCRIBE ----

  function WriteSubscribe(identifier: bytes, filters: seq<Filter>): bytes
    requires |identifier| == 2 && ValidFilters(filters)
  {
    WritePacket(0x82, identifier + WriteFilters(filters))
  }

  /** Parsing a written SUBSCRIBE with distinct topics gives the identifier and, for each topic, its QoS byte. */
  lemma SubscribeRoundTrip(decode: Decoder, identifier: bytes, filters: seq<Filter>, rest: bytes)
    requires Utf8.Inverts(decode)
    requires |identifier| == 2 && ValidFilters(filters) && DistinctTopics(filters)
    ensures var o := Parse(decode, WriteSubscribe(identifier, filters) + rest);
            if |WriteFilters(filters)| + 2 > MqttLength.MAX_LENGTH then o == Raised(MalformedRemainingLength)
            else
              && o.Complete? && o.extra == rest && o.packet.raw == WriteSubscribe(identifier, filters)
              && o.packet.content.Subscribe? && o.packet.content.subscribeIdentifier == identifier
              && (forall k :: 0 <= k < |filters| ==>
                    && filters[k].topic in o.packet.content.topicFilters
                    && o.packet.content.topicFilters[filters[k].topic] == [filters[k].qos])
              && (forall t :: t in o.packet.content.topicFilters ==>
                    exists k :: 0 <= k < |filters| && filters[k].topic == t)
  {
    ParseWrittenSubscribe(decode, identifier, filters, rest);
    StoreDistinct(map[], filters);
  }

  lemma ParseWrittenSubscribe(decode: Decoder, identifier: bytes, filters: seq<Filter>, rest: bytes)
    requires Utf8.Inverts(decode)
    requires |identifier| == 2 && ValidFilters(filters)
    ensures var body := identifier + WriteFilters(filters);
            Parse(decode, WriteSubscribe(identifier, filters) + rest) ==
            if |body| > MqttLength.MAX_LENGTH then Raised(MalformedRemainingLength)
            else Complete(Packet(WriteSubscribe(identifier, filters), SUBSCRIBE, None, |body|,
                                 Subscribe(identifier, Store(map[], filters))), rest)
  {
    var body := identifier + WriteFilters(filters);
    var pre := FixedHeader(0x82, |body|);
    ParseSubscribeBody(decode, pre, identifier, filters);
    WrittenParts(0x82, identifier, WriteFilters(filters));
    SubscribeWritten(decode, body, rest, ParseSubscribe(decode, WritePacket(0x82, body), |pre|));
  }

  lemma SubscribeWritten(decode: Decoder, body: bytes, rest: bytes, content: Result<Content, Failure>)
    requires content == ParseSubscribe(decode, WritePacket(0x82, body), |FixedHeader(0x82, |body|)|)
    ensures Parse(decode, WritePacket(0x82, body) + rest) ==
            if |body| > MqttLength.MAX_LENGTH then Raised(MalformedRemainingLength)
            else
              match content
              case Failure(e) => Raised(e)
              case Success(c) => Complete(Packet(WritePacket(0x82, body), SUBSCRIBE, None, |body|, c), rest)
  {
    FirstBytes();
    BodyOfSubscribe(decode, WritePacket(0x82, body), |FixedHeader(0x82, |body|)|);
    ParseWritten(BodyOf(decode), 0x82, body, rest);
  }

  lemma ParseSubscribeBody(decode: Decoder, pre: bytes, identifier: bytes, filters: seq<Filter>)
    requires Utf8.Inverts(decode)
    requires |identifier| == 2 && ValidFilters(filters)
    ensures ParseSubscribe(decode, pre + identifier + WriteFilters(filters), |pre|)
            == Success(Subscribe(identifier, Store(map[], filters)))
  {
    var p := pre + identifier + WriteFilters(filters);
    assert p[|pre|..|pre| + 2] == identifier;
    BodyAt(pre + identifier, WriteFilters(filters));
    ParseIsFilters(decode, p, |pre| + 2, map[]);
    FiltersWritten(filters);
    StoreWritten(decode, map[], filters);
  }

  /** The topic filters of a SUBSCRIBE that parses tile its payload, up to a cut at the very end. */
  lemma SubscribeTiles(decode: Decoder, p: bytes, offset: nat) returns (list: RawFilters, padTopic: bytes, padQos: bytes)
    requires ParseSubscribe(decode, p, offset).Success?
    ensures StoreFilters(decode, map[], list) == Success(ParseSubscribe(decode, p, offset).value.topicFilters)
    ensures padTopic != [] ==> LastQos(list) == []
    ensures var padded := PadLastFilter(list, padTopic, padQos);
            && WholeFilters(padded)
            && ParseSubscribe(decode, p, offset).value.subscribeIdentifier + WriteRawFilters(padded)
               == From(p, offset) + padTopic + padQos
  {
    ParseIsFilters(decode, p, offset + 2, map[]);
    SplitFrom(p, offset, offset + 2);
    list, padTopic, padQos :=
      PayloadTiles(decode, Slice(p, offset, offset + 2), From(p, offset + 2), From(p, offset));
  }

  lemma PayloadTiles(decode: Decoder, identifier: bytes, payload: bytes, body: bytes)
    returns (list: RawFilters, padTopic: bytes, padQos: bytes)
    requires StoreFilters(decode, map[], Filters(payload)).Success? && body == identifier + payload
    ensures list == Filters(payload) && (padTopic != [] ==> LastQos(list) == [])
    ensures var padded := PadLastFilter(list, padTopic, padQos);
            WholeFilters(padded) && identifier + WriteRawFilters(padded) == body + padTopic + padQos
  {
    list := Filters(payload);
    StoredHasNoCut(decode, map[], list);
    padTopic, padQos := FiltersTile(payload);
    var padded := WriteRawFilters(PadLastFilter(list, padTopic, padQos));
    assert identifier + (payload + padTopic + padQos) == identifier + payload + padTopic + padQos;
    assert padded == payload + padTopic + padQos;
  }

  lemma {:induction false} StoredHasNoCut(decode: Decoder, m: map<string, bytes>, list: RawFilters)
    requires StoreFilters(decode, m, list).Success?
    ensures !HasCut(list)
    decreases list
  {
    match list {
      case More(topic, qos, rest) => StoredHasNoCut(decode, m[decode(topic).value := qos], rest);
      case _ =>
    }
  }
}
